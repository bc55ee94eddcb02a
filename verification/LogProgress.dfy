/** No process is stranded in begin_op: from every reachable state the operations in
    progress and the commit can run to their ends and let it in. */
module LogProgress {
  import opened Params
  import opened Blocks
  import opened LogDisk
  import opened GroupCommit
  import LogSpace

  // Steps that processes take by themselves: no crash, and no block that is not being
  // logged already.
  ghost predicate Quiet(es: seq<Event>) {
    forall i :: 0 <= i < |es| ==> !es[i].Crash? && !es[i].RecoverStep? && !es[i].Change?
  }

  ghost predicate Waiting(s: Sys, p: nat) {
    p < |s.procs| && (s.procs[p].Idle? || s.procs[p].Ready? || s.procs[p].Asleep?)
  }

  // Nobody is in log_write, and log and cache have room for what is logged.
  ghost predicate Steady(c: Config, s: Sys) {
    |s.lh| < c.g.size && |s.lh| < NBUF && forall q :: 0 <= q < |s.procs| && s.procs[q].InOp? ==> s.procs[q].turn.Free?
  }

  // The run t ends with p still waiting, awake, and the log unused, or else halted.
  ghost predicate Drained(c: Config, s: Sys, t: Sys, p: nat) {
    && Inv(c, t)
    && (t.mode.Up? ==> Waiting(t, p) && !t.procs[p].Asleep? && !t.committing && t.outstanding == 0)
    && (Steady(c, s) ==> t.mode.Up?)
  }

  lemma RunCons(c: Config, s: Sys, e: Event, es: seq<Event>)
    requires Enabled(c, s, e) && Run(c, Next(c, s, e), es)
    ensures Run(c, s, [e] + es) && After(c, s, [e] + es) == After(c, Next(c, s, e), es)
  {
    RunOne(c, s, e);
    RunConcat(c, s, [e], es);
  }

  // Somebody is in an operation, or in commit, when the counters say so.
  lemma FindInOp(s: Sys) returns (q: nat)
    requires ProcInv(s) && s.outstanding > 0
    ensures q < |s.procs| && s.procs[q].InOp?
  {
    SumZero(s.procs, InOpWeight());
    q :| 0 <= q < |s.procs| && InOpWeight()(s.procs[q]) != 0;
  }

  lemma FindCommitter(s: Sys) returns (q: nat)
    requires ProcInv(s) && s.committing
    ensures q < |s.procs| && (s.procs[q].Committing? || s.procs[q].Committed?)
  {
    SumZero(s.procs, CommitWeight());
    q :| 0 <= q < |s.procs| && CommitWeight()(s.procs[q]) != 0;
  }

  // One step of the committer.
  lemma CommitMoves(c: Config, s: Sys, p: nat, q: nat)
    requires Inv(c, s) && s.mode.Up? && Waiting(s, p) && s.lh != []
    requires q < |s.procs| && s.procs[q].Committing?
    ensures Enabled(c, s, CommitStep(q))
    ensures var t := Next(c, s, CommitStep(q));
      && (|s.lh| < c.g.size && |s.lh| < NBUF ==> t.mode.Up?)
      && (t.mode.Up? ==>
            && Waiting(t, p) && t.committing && |t.lh| <= |s.lh| && q < |t.procs|
            && (t.procs[q].Committed? || (t.procs[q] == Committing(s.procs[q].k + 1) && t.lh == s.lh)))
  {
    assert CommitterInv(c, s, s.procs[q]);
    OneCommitter(s, q, q);
    hide Recovered, Applied, SameHome, Touched, WholeOps, ValidWrites, CommitProgress, CommitWrite;
  }

  // The committer writes its blocks and finishes.
  lemma {:induction false} FinishCommit(c: Config, s: Sys, p: nat, q: nat) returns (es: seq<Event>)
    requires Inv(c, s) && s.mode.Up? && Waiting(s, p) && s.committing
    requires q < |s.procs| && (s.procs[q].Committing? || s.procs[q].Committed?)
    ensures Quiet(es) && Run(c, s, es)
    ensures var t := After(c, s, es);
      && Inv(c, t) && (|s.lh| < c.g.size && |s.lh| < NBUF ==> t.mode.Up?)
      && (t.mode.Up? ==> Waiting(t, p) && !t.procs[p].Asleep? && !t.committing && t.outstanding == 0)
    decreases if s.procs[q].Committed? then 0 else 1 + 2 * |s.lh| + 2 - s.procs[q].k
  {
    hide Recovered, Applied, SameHome, Touched, WholeOps, ValidWrites, CommitProgress, RecoverInv, Pending;
    assert CommitterInv(c, s, s.procs[q]);
    var e := if s.procs[q].Committed? || s.lh == [] then Finish(q) else CommitStep(q);
    if e.CommitStep? {
      CommitMoves(c, s, p, q);
    }
    StepInv(c, s, e);
    var t := Next(c, s, e);
    var fs := [];
    if e.CommitStep? && t.mode.Up? {
      fs := FinishCommit(c, t, p, q);
    }
    RunCons(c, s, e, fs);
    es := [e] + fs;
  }

  function TurnEvent(t: Turn, q: nat): Event {
    match t
    case Free => End(q)
    case Changed(_, _) => Guard(q)
    case Passed(_, _) => LogWrite(q)
  }

  function StepsLeft(t: Turn): nat {
    if t.Changed? then 2 else if t.Passed? then 1 else 0
  }

  lemma OpMoves(c: Config, s: Sys, p: nat, q: nat)
    requires s.cut <= |s.writes| && OpInv(c, s) && ProcInv(s) && |s.disk| == |s.cache|
    requires s.mode.Up? && Waiting(s, p) && q < |s.procs| && s.procs[q].InOp?
    ensures Enabled(c, s, TurnEvent(s.procs[q].turn, q))
    ensures var t := Next(c, s, TurnEvent(s.procs[q].turn, q));
      && (Steady(c, s) ==> t.mode.Up? && Steady(c, t))
      && (t.mode.Up? ==>
            && Waiting(t, p) && q < |t.procs|
            && if s.procs[q].turn.Free? then t.outstanding == s.outstanding - 1
               else t.outstanding == s.outstanding && t.procs[q].InOp?
                    && StepsLeft(t.procs[q].turn) < StepsLeft(s.procs[q].turn))
  {
    hide ProcInv, OpInv, InUse, Absorb, Sum;
    TurnOk(c, s, q);
    OneCommitter(s, q, q);
  }

  lemma TurnOk(c: Config, s: Sys, q: nat)
    requires s.cut <= |s.writes| && OpInv(c, s) && q < |s.procs| && s.procs[q].InOp?
    ensures TurnInv(c, s, s.procs[q])
  {
  }

  lemma Running(c: Config, s: Sys)
    requires Inv(c, s) && s.mode.Up?
    ensures s.cut <= |s.writes| && ProcInv(s) && OpInv(c, s) && |s.disk| == |s.cache|
  {
  }

  // An operation in progress logs the block it has changed, if it has, and ends.
  lemma {:induction false} FinishOp(c: Config, s: Sys, p: nat, q: nat) returns (es: seq<Event>)
    requires Inv(c, s) && s.mode.Up? && Waiting(s, p) && q < |s.procs| && s.procs[q].InOp?
    ensures Quiet(es) && Run(c, s, es)
    ensures var t := After(c, s, es);
      && Inv(c, t) && (Steady(c, s) ==> t.mode.Up? && Steady(c, t))
      && (t.mode.Up? ==> Waiting(t, p) && t.outstanding == s.outstanding - 1)
    decreases StepsLeft(s.procs[q].turn)
  {
    hide Inv, ProcInv, OpInv, DiskInv, LogInv, Enabled, Next, Steady, Waiting;
    Running(c, s);
    OpMoves(c, s, p, q);
    var e := TurnEvent(s.procs[q].turn, q);
    StepInv(c, s, e);
    if s.procs[q].turn.Free? || !Next(c, s, e).mode.Up? {
      RunOne(c, s, e);
      es := [e];
    } else {
      var fs := FinishOp(c, Next(c, s, e), p, q);
      RunCons(c, s, e, fs);
      es := [e] + fs;
    }
  }

  // The operations in progress end, one by one; the last of them commits.
  lemma {:induction false} Drain(c: Config, s: Sys, p: nat) returns (es: seq<Event>)
    requires Inv(c, s) && s.mode.Up? && Waiting(s, p)
    ensures Quiet(es) && Run(c, s, es) && Drained(c, s, After(c, s, es), p)
    decreases s.outstanding
  {
    hide DiskInv, LogInv, OpInv, Enabled, Next;
    if s.outstanding > 0 {
      var q := FindInOp(s);
      es := FinishOp(c, s, p, q);
      var t := After(c, s, es);
      if t.mode.Up? {
        var fs := Drain(c, t, p);
        RunConcat(c, s, es, fs);
        es := es + fs;
      }
    } else if s.committing {
      var q := FindCommitter(s);
      es := FinishCommit(c, s, p, q);
    } else {
      es := [];
    }
  }

  // Wherever a run has got to, a process in begin_op (or about to call it) can still
  // get into its operation by the steps of the others alone, unless one of them is in a
  // log_write that halts the machine, or the log is outgrown; neither is so when the
  // configuration leaves room.
  lemma NoStranding(c: Config, d: Disk, n: nat, es: seq<Event>, p: nat) returns (fs: seq<Event>)
    requires ValidHeader(c.g, d) && Run(c, Start(c, d, n), es)
    requires var s := After(c, Start(c, d, n), es); s.mode.Up? && Waiting(s, p)
    ensures var s := After(c, Start(c, d, n), es);
      && Quiet(fs) && Run(c, s, fs)
      && (After(c, s, fs).mode.Up? ==> p < |After(c, s, fs).procs| && After(c, s, fs).procs[p].InOp?)
      && (Steady(c, s) || !LogSpace.Panics(c) ==> After(c, s, fs).mode.Up?)
  {
    RunInv(c, d, n, es);
    hide Start, Inv, Enabled, Next, LogSpace.Panics;
    var s0 := Start(c, d, n);
    var s := After(c, s0, es);
    fs := Drain(c, s, p);
    if !LogSpace.Panics(c) {
      StaysUp(c, d, n, es, fs);
    }
    var t := After(c, s, fs);
    if t.mode.Up? {
      LetIn(c, t, p);
      RunSnoc(c, s, fs, Begin(p));
      fs := fs + [Begin(p)];
    }
  }

  // With the log unused a waiting process that is awake gets in.
  lemma LetIn(c: Config, t: Sys, p: nat)
    requires Inv(c, t) && t.mode.Up? && Waiting(t, p) && !t.procs[p].Asleep? && !t.committing && t.outstanding == 0
    ensures Enabled(c, t, Begin(p))
    ensures var u := Next(c, t, Begin(p)); u.mode.Up? && p < |u.procs| && u.procs[p].InOp?
  {
    assert t.lh == [] && Admits(t.committing, |t.lh|, t.outstanding);
    hide DiskInv, LogInv, OpInv;
  }

  lemma StaysUp(c: Config, d: Disk, n: nat, es: seq<Event>, fs: seq<Event>)
    requires !LogSpace.Panics(c) && ValidHeader(c.g, d) && Run(c, Start(c, d, n), es)
    requires var s := After(c, Start(c, d, n), es); s.mode.Up? && Quiet(fs) && Run(c, s, fs)
    ensures After(c, After(c, Start(c, d, n), es), fs).mode.Up?
  {
    assert !LogSpace.Spills(c);
    hide LogSpace.Panics, LogSpace.Spills, Start, Quiet, Enabled, Next;
    RunConcat(c, Start(c, d, n), es, fs);
    LogSpace.NoPanic(c, d, n, es + fs);
    LogSpace.NeverSpills(c, d, n, es + fs);
    NeverOverflows(c, d, n, es + fs);
    QuietUp(c, After(c, Start(c, d, n), es), fs);
  }

  // Such steps do not reboot the machine.
  lemma {:induction false} QuietUp(c: Config, s: Sys, es: seq<Event>)
    requires s.mode.Up? && Quiet(es) && Run(c, s, es)
    ensures !After(c, s, es).mode.Recovering?
    decreases |es|
  {
    if es != [] {
      var n := |es| - 1;
      QuietUp(c, s, es[..n]);
      QuietStep(c, After(c, s, es[..n]), es[n]);
      hide Enabled, Next;
    }
  }

  lemma QuietStep(c: Config, s: Sys, e: Event)
    requires Enabled(c, s, e) && !s.mode.Recovering? && !e.Crash? && !e.RecoverStep?
    ensures !Next(c, s, e).mode.Recovering?
  {
    hide InUse, CommitWrite, HomeBlocks;
  }

  // ---- who sleeps in begin_op -------------------------------------------

  // Whoever sleeps in begin_op would not be let in now.
  ghost predicate Refused(s: Sys) {
    forall p :: 0 <= p < |s.procs| && s.procs[p].Asleep? ==>
      s.committing || |s.lh| + (s.outstanding + 1) * MAXOPBLOCKS > LOGSIZE
  }

  lemma StepRefused(c: Config, s: Sys, e: Event)
    requires Inv(c, s) && Enabled(c, s, e) && (s.mode.Up? ==> Refused(s))
    ensures Next(c, s, e).mode.Up? ==> Refused(Next(c, s, e))
  {
    hide DiskInv, LogInv, OpInv, InUse, HomeBlocks, CommitWrite, RecoverWrite, Sum;
    if s.mode.Up? && (e.CommitStep? || e.End? || e.LogWrite?) {
      OneCommitter(s, e.p, e.p);
    }
  }

  // So nobody sleeps there when there is room: every end_op that makes room wakes them.
  lemma {:induction false} SleepersRefused(c: Config, d: Disk, n: nat, es: seq<Event>)
    requires ValidHeader(c.g, d) && Run(c, Start(c, d, n), es)
    ensures var t := After(c, Start(c, d, n), es); t.mode.Up? ==> Refused(t)
    decreases |es|
  {
    if es != [] {
      var k := |es| - 1;
      SleepersRefused(c, d, n, es[..k]);
      RunInv(c, d, n, es[..k]);
      hide Inv, Refused, Enabled, Next;
      StepRefused(c, After(c, Start(c, d, n), es[..k]), es[k]);
    }
  }
}
