/** Group commit: any number of processes inside begin_op, log_write and end_op,
    one of them committing, and the machine crashing between any two steps. A step
    is a section of log.c that holds log.lock, the test of log_write, which does not
    hold it, or one block write of commit or of recovery. */
module GroupCommit {
  import opened Params
  import opened Sets
  import opened Blocks
  import opened LogDisk

  datatype Proc =
    | Idle                            // outside any file system call
    | Ready                           // woken in begin_op, about to look again
    | Asleep                          // asleep in begin_op
    // between begin_op and end_op; added are its blocks new to the log
    | InOp(op: nat, added: set<nat>, turn: Turn)
    | Committing(k: nat)              // in commit, k block writes done
    | Committed                       // back from commit

  // Where an operation is with a block: it changes the buffer, which it has locked, passes
  // the test of log_write, and only then takes log.lock.
  datatype Turn = Free | Changed(block: nat, data: Block) | Passed(block: nat, data: Block)

  datatype Reason = TooBigTransaction | CommittingInEndOp | OutsideTransaction | BlockOutOfRange | NoBuffers

  datatype Mode =
    | Up
    | Recovering(lh: seq<nat>, k: nat)
    | Panicked(why: Reason)
    | Overflowed  // log_write would go past the end of lh.block: C says nothing more
    | Spilled     // commit has written past the log, and goes on

  datatype Write = Write(op: nat, block: nat, data: Block)

  datatype Sys = Sys(
    mode: Mode,
    // memory
    outstanding: int, committing: bool, lh: seq<nat>, cache: Disk, procs: seq<Proc>,
    disk: Disk,
    // history: every log_write not lost in a crash, oldest first; the first cut
    // of them are committed
    home: Disk, writes: seq<Write>, cut: nat, nextOp: nat)

  // What the scheduler, the callers and the power supply may do next.
  datatype Event =
    | Begin(p: nat)                               // one pass of begin_op's loop
    | Change(p: nat, block: nat, data: Block)     // bread and modify the buffer
    | Guard(p: nat)                               // log_write up to acquire
    | LogWrite(p: nat)                            // the rest of log_write, and brelse
    | End(p: nat)                                 // end_op up to commit
    | CommitStep(p: nat)                          // one block write of commit
    | Finish(p: nat)                              // end_op after commit
    | Crash
    | RecoverStep                                 // one block write of recovery

  // limit bounds the blocks one operation may add to the log.
  datatype Config = Config(g: Geometry, limit: nat)

  predicate HasLocked(p: Proc, b: nat) {
    p.InOp? && !p.turn.Free? && p.turn.block == b
  }

  ghost predicate Enabled(c: Config, s: Sys, e: Event) {
    match e
    case Begin(p) => s.mode.Up? && p < |s.procs| && (s.procs[p].Idle? || s.procs[p].Ready?)
    case Change(p, b, _) =>
      && s.mode.Up? && p < |s.procs| && s.procs[p].InOp? && s.procs[p].turn.Free?
      && b < |s.disk| && !InLog(c.g, b)
      && (b in s.lh || |s.procs[p].added| < c.limit)
      && forall q :: 0 <= q < |s.procs| ==> !HasLocked(s.procs[q], b)
    case Guard(p) => s.mode.Up? && p < |s.procs| && s.procs[p].InOp? && s.procs[p].turn.Changed?
    case LogWrite(p) =>
      && s.mode.Up? && p < |s.procs| && s.procs[p].InOp? && s.procs[p].turn.Passed?
      && s.procs[p].turn.block < |s.cache|
    // what an operation has changed it logs
    case End(p) => s.mode.Up? && p < |s.procs| && s.procs[p].InOp? && s.procs[p].turn.Free?
    case CommitStep(p) =>
      && s.mode.Up? && p < |s.procs| && s.procs[p].Committing?
      && s.lh != [] && s.procs[p].k <= 2 * |s.lh| + 1
      && ValidGeometry(c.g, |s.disk|) && HomeBlocks(c.g, |s.disk|, s.lh) && |s.cache| == |s.disk|
      && (s.procs[p].k < |s.lh| || |s.lh| < c.g.size)
    case Finish(p) =>
      s.mode.Up? && p < |s.procs| && (s.procs[p].Committed? || (s.procs[p] == Committing(0) && s.lh == []))
    case Crash => !s.mode.Spilled? && ValidHeader(c.g, s.disk) && s.cut <= |s.writes|
    case RecoverStep =>
      && s.mode.Recovering? && s.mode.k <= |s.mode.lh|
      && ValidGeometry(c.g, |s.disk|) && ValidBlocks(c.g, |s.disk|, s.mode.lh)
  }

  function WakeAll(procs: seq<Proc>): seq<Proc> {
    seq(|procs|, i requires 0 <= i < |procs| => if procs[i].Asleep? then Ready else procs[i])
  }

  function AllIdle(n: nat): seq<Proc> {
    seq(n, _ => Idle)
  }

  function Begun(s: Sys, p: nat): Sys
    requires p < |s.procs|
  {
    if Admits(s.committing, |s.lh|, s.outstanding) then
      s.(outstanding := s.outstanding + 1, procs := s.procs[p := InOp(s.nextOp, {}, Free)], nextOp := s.nextOp + 1)
    else s.(procs := s.procs[p := Asleep])
  }

  function Held(procs: seq<Proc>): set<nat> {
    set q | 0 <= q < |procs| && procs[q].InOp? && !procs[q].turn.Free? :: procs[q].turn.block
  }

  // The blocks whose buffers cannot be recycled: pinned, or with a process.
  function InUse(s: Sys): set<nat> {
    Elements(s.lh) + Held(s.procs)
  }

  // bread panics when it needs a buffer and none is left.
  function ChangedBy(s: Sys, p: nat, b: nat, data: Block): Sys
    requires p < |s.procs| && s.procs[p].InOp?
  {
    if b !in InUse(s) && |InUse(s)| >= NBUF then s.(mode := Panicked(NoBuffers))
    else s.(procs := s.procs[p := s.procs[p].(turn := Changed(b, data))])
  }

  function Guarded(c: Config, s: Sys, p: nat): Sys
    requires p < |s.procs| && s.procs[p].InOp? && s.procs[p].turn.Changed?
  {
    var me := s.procs[p];
    if TooBig(c.g, |s.lh|) then s.(mode := Panicked(TooBigTransaction))
    else if s.outstanding < 1 then s.(mode := Panicked(OutsideTransaction))
    else s.(procs := s.procs[p := me.(turn := Passed(me.turn.block, me.turn.data))])
  }

  function Logged(s: Sys, p: nat): Sys
    requires p < |s.procs| && s.procs[p].InOp? && s.procs[p].turn.Passed? && s.procs[p].turn.block < |s.cache|
  {
    var me, b, data := s.procs[p], s.procs[p].turn.block, s.procs[p].turn.data;
    if b !in s.lh && |s.lh| >= LOGSIZE then s.(mode := Overflowed)
    else
      s.(lh := Absorb(s.lh, b),
         procs := s.procs[p := InOp(me.op, if b in s.lh then me.added else me.added + {b}, Free)],
         cache := s.cache[b := data],
         writes := s.writes + [Write(me.op, b, data)])
  }

  function Ended(s: Sys, p: nat): Sys
    requires p < |s.procs|
  {
    if s.committing then s.(mode := Panicked(CommittingInEndOp))
    else if s.outstanding == 1 then
      s.(outstanding := 0, committing := true, procs := s.procs[p := Committing(0)])
    else
      s.(outstanding := s.outstanding - 1, procs := WakeAll(s.procs[p := Idle]))
  }

  // It needs a buffer besides the pinned ones. Nothing stops write_log at the end of the
  // log.
  ghost function CommitStepped(c: Config, s: Sys, p: nat): Sys
    requires Enabled(c, s, CommitStep(p))
  {
    var k, n := s.procs[p].k, |s.lh|;
    var b := c.g.start + k + 1;
    if n >= NBUF then s.(mode := Panicked(NoBuffers))
    else if k < n && b >= |s.disk| then s.(mode := Panicked(BlockOutOfRange))
    else if k < n && k + 1 >= c.g.size then s.(mode := Spilled, disk := s.disk[b := s.cache[s.lh[k]]])
    else if k < n then s.(disk := s.disk[b := s.cache[s.lh[k]]], procs := s.procs[p := Committing(k + 1)])
    else
      s.(disk := CommitWrite(c.g, s.disk, s.lh, s.cache, k),
         procs := s.procs[p := if k == 2 * n + 1 then Committed else Committing(k + 1)],
         lh := if k == 2 * n + 1 then [] else s.lh,
         cut := if k == n then |s.writes| else s.cut)
  }

  function Finished(s: Sys, p: nat): Sys
    requires p < |s.procs|
  {
    s.(committing := false, procs := WakeAll(s.procs[p := Idle]))
  }

  // A crash forgets everything but the disk; the writes past the cut are lost.
  ghost function Crashed(c: Config, s: Sys): Sys
    requires ValidHeader(c.g, s.disk) && s.cut <= |s.writes|
  {
    s.(mode := Recovering(Pending(c.g, s.disk), 0), procs := AllIdle(|s.procs|), writes := s.writes[..s.cut])
  }

  ghost function RecoverStepped(c: Config, s: Sys): Sys
    requires Enabled(c, s, RecoverStep)
  {
    var lh, k := s.mode.lh, s.mode.k;
    var d := RecoverWrite(c.g, s.disk, lh, k);
    if k < |lh| then s.(disk := d, mode := Recovering(lh, k + 1))
    else s.(disk := d, mode := Up, outstanding := 0, committing := false, lh := [], cache := d)
  }

  ghost function Next(c: Config, s: Sys, e: Event): Sys
    requires Enabled(c, s, e)
  {
    match e
    case Begin(p) => Begun(s, p)
    case Change(p, b, data) => ChangedBy(s, p, b, data)
    case Guard(p) => Guarded(c, s, p)
    case LogWrite(p) => Logged(s, p)
    case End(p) => Ended(s, p)
    case CommitStep(p) => CommitStepped(c, s, p)
    case Finish(p) => Finished(s, p)
    case Crash => Crashed(c, s)
    case RecoverStep => RecoverStepped(c, s)
  }

  // The machine started on a disk that holds d, with room for n processes.
  ghost function Start(c: Config, d: Disk, n: nat): Sys
    requires ValidHeader(c.g, d)
  {
    Sys(Recovering(Pending(c.g, d), 0), 0, false, [], d, AllIdle(n), d, Recovered(c.g, d), [], 0, 0)
  }

  // ---- runs -------------------------------------------------------------

  ghost predicate Run(c: Config, s: Sys, es: seq<Event>)
    decreases |es|, 0
  {
    es == [] ||
    var n := |es| - 1;
    Run(c, s, es[..n]) && Enabled(c, After(c, s, es[..n]), es[n])
  }

  ghost function After(c: Config, s: Sys, es: seq<Event>): Sys
    requires Run(c, s, es)
    decreases |es|, 1
  {
    if es == [] then s
    else var n := |es| - 1; Next(c, After(c, s, es[..n]), es[n])
  }

  lemma {:induction false} RunConcat(c: Config, s: Sys, es: seq<Event>, fs: seq<Event>)
    requires Run(c, s, es) && Run(c, After(c, s, es), fs)
    ensures Run(c, s, es + fs) && After(c, s, es + fs) == After(c, After(c, s, es), fs)
    decreases |fs|
  {
    hide Enabled, Next;
    if fs == [] {
      assert es + fs == es;
    } else {
      var n := |fs| - 1;
      RunConcat(c, s, es, fs[..n]);
      assert (es + fs)[..|es| + n] == es + fs[..n];
    }
  }

  lemma RunOne(c: Config, s: Sys, e: Event)
    requires Enabled(c, s, e)
    ensures Run(c, s, [e]) && After(c, s, [e]) == Next(c, s, e)
  {
    hide Enabled, Next;
    assert [e][..0] == [];
    assert Run(c, s, [e][..0]) && After(c, s, [e][..0]) == s;
  }

  lemma RunSnoc(c: Config, s: Sys, es: seq<Event>, e: Event)
    requires Run(c, s, es) && Enabled(c, After(c, s, es), e)
    ensures Run(c, s, es + [e]) && After(c, s, es + [e]) == Next(c, After(c, s, es), e)
  {
    RunOne(c, After(c, s, es), e);
    RunConcat(c, s, es, [e]);
  }

  // ---- counting processes -----------------------------------------------

  ghost function Sum(procs: seq<Proc>, weight: Proc -> nat): nat {
    if procs == [] then 0 else Sum(procs[..|procs| - 1], weight) + weight(procs[|procs| - 1])
  }

  lemma {:induction false} SumUpdate(procs: seq<Proc>, p: nat, x: Proc, weight: Proc -> nat)
    requires p < |procs|
    ensures Sum(procs[p := x], weight) == Sum(procs, weight) - weight(procs[p]) + weight(x)
    ensures Sum(procs, weight) >= weight(procs[p])
  {
    var n := |procs| - 1;
    if p < n {
      assert procs[p := x][..n] == procs[..n][p := x];
      SumUpdate(procs[..n], p, x, weight);
    } else {
      assert procs[p := x][..n] == procs[..n];
    }
  }

  lemma {:induction false} SumSame(a: seq<Proc>, b: seq<Proc>, weight: Proc -> nat)
    requires |a| == |b| && forall i :: 0 <= i < |a| ==> weight(a[i]) == weight(b[i])
    ensures Sum(a, weight) == Sum(b, weight)
  {
    if a != [] {
      SumSame(a[..|a| - 1], b[..|b| - 1], weight);
    }
  }

  lemma {:induction false} SumZero(procs: seq<Proc>, weight: Proc -> nat)
    ensures Sum(procs, weight) == 0 <==> forall i :: 0 <= i < |procs| ==> weight(procs[i]) == 0
  {
    if procs != [] {
      SumZero(procs[..|procs| - 1], weight);
    }
  }

  ghost function InOpWeight(): Proc -> nat {
    (p: Proc) => if p.InOp? then 1 else 0
  }

  ghost function CommitWeight(): Proc -> nat {
    (p: Proc) => if p.Committing? || p.Committed? then 1 else 0
  }

  // ---- what the committed writes amount to ------------------------------

  ghost predicate ValidWrites(g: Geometry, size: nat, ws: seq<Write>) {
    forall i :: 0 <= i < |ws| ==> ws[i].block < size && !InLog(g, ws[i].block)
  }

  // The effect of ws on home, in order.
  ghost function Applied(home: Disk, ws: seq<Write>): (d: Disk)
    requires forall i :: 0 <= i < |ws| ==> ws[i].block < |home|
    ensures |d| == |home|
  {
    if ws == [] then home
    else var w := ws[|ws| - 1]; Applied(home, ws[..|ws| - 1])[w.block := w.data]
  }

  ghost predicate Touched(ws: seq<Write>, from: nat, b: nat) {
    exists i :: from <= i < |ws| && ws[i].block == b
  }

  // A block no write past the cut touches has its committed contents.
  lemma {:induction false} AppliedUntouched(home: Disk, ws: seq<Write>, cut: nat, b: nat)
    requires forall i :: 0 <= i < |ws| ==> ws[i].block < |home|
    requires cut <= |ws| && b < |home| && !Touched(ws, cut, b)
    ensures Applied(home, ws)[b] == Applied(home, ws[..cut])[b]
  {
    if cut == |ws| {
      assert ws[..cut] == ws;
    } else {
      var n := |ws| - 1;
      assert ws[..n][..cut] == ws[..cut];
      assert ws[n].block != b;
      AppliedUntouched(home, ws[..n], cut, b);
    }
  }

  // ---- the invariant ----------------------------------------------------

  // No operation has writes on both sides of the cut.
  ghost predicate WholeOps(ws: seq<Write>, cut: nat) {
    forall i, j :: 0 <= i < cut <= j < |ws| ==> ws[i].op != ws[j].op
  }

  // At all times: the disk recovers to the effect of the committed writes, and no
  // operation is torn by the cut.
  ghost predicate DiskInv(c: Config, s: Sys) {
    && s.cut <= |s.writes|
    && |s.home| == |s.disk| == |s.cache|
    && ValidWrites(c.g, |s.home|, s.writes)
    && ValidHeader(c.g, s.disk)
    && SameHome(c.g, Recovered(c.g, s.disk), Applied(s.home, s.writes[..s.cut]))
    && WholeOps(s.writes, s.cut)
    && (forall i :: 0 <= i < |s.writes| ==> s.writes[i].op < s.nextOp)
  }

  // While recovering: the first k blocks are home already.
  ghost predicate RecoverInv(c: Config, s: Sys)
    requires s.mode.Recovering? && ValidHeader(c.g, s.disk)
  {
    var lh, k := s.mode.lh, s.mode.k;
    && lh == Pending(c.g, s.disk) && k <= |lh| && s.cut == |s.writes|
    && (forall p :: 0 <= p < |s.procs| ==> s.procs[p].Idle?)
    && forall j :: 0 <= j < k ==> s.disk[lh[j]] == s.disk[c.g.start + j + 1]
  }

  // The processes agree with the counters.
  ghost predicate ProcInv(s: Sys) {
    && s.outstanding == Sum(s.procs, InOpWeight())
    && Sum(s.procs, CommitWeight()) == (if s.committing then 1 else 0)
    && (s.committing ==> s.outstanding == 0)
    // nobody sleeps unless somebody will wake them
    && ((exists p :: 0 <= p < |s.procs| && s.procs[p].Asleep?) ==> s.outstanding > 0 || s.committing)
    // and the log is empty when nobody is using it
    && (s.outstanding == 0 && !s.committing ==> s.lh == [])
  }

  // No operation in progress has committed any write.
  ghost predicate OpInv(c: Config, s: Sys)
    requires s.cut <= |s.writes|
  {
    && (forall p :: 0 <= p < |s.procs| && s.procs[p].InOp? ==>
          && s.procs[p].op < s.nextOp
          && (forall b :: b in s.procs[p].added ==> b in s.lh)
          && (forall i :: 0 <= i < s.cut ==> s.writes[i].op != s.procs[p].op)
          && TurnInv(c, s, s.procs[p]))
  }

  // The block it is about to log is one it may log.
  ghost predicate TurnInv(c: Config, s: Sys, p: Proc)
    requires p.InOp?
  {
    !p.turn.Free? ==>
      && p.turn.block < |s.disk| && !InLog(c.g, p.turn.block)
      && (p.turn.block in s.lh || |p.added| < c.limit)
      && (p.turn.Passed? ==> c.g.size > 1)
  }

  // log.lh is the set of blocks logged since the last commit, without duplicates.
  ghost predicate LoggedSinceCut(s: Sys) {
    forall b :: b in s.lh <==> Touched(s.writes, s.cut, b)
  }

  // The disk holds the committed writes, and no header.
  ghost predicate Untouched(c: Config, s: Sys)
    requires DiskInv(c, s)
  {
    Pending(c.g, s.disk) == [] && SameHome(c.g, s.disk, Applied(s.home, s.writes[..s.cut]))
  }

  ghost predicate LogInv(c: Config, s: Sys)
    requires DiskInv(c, s)
  {
    && HomeBlocks(c.g, |s.disk|, s.lh) && (s.lh != [] ==> c.g.size > 1)
    && SameHome(c.g, s.cache, Applied(s.home, s.writes))
    && (!s.committing ==> LoggedSinceCut(s) && Untouched(c, s))
    && forall p :: 0 <= p < |s.procs| ==> CommitterInv(c, s, s.procs[p])
  }

  ghost predicate CommitterInv(c: Config, s: Sys, p: Proc)
    requires DiskInv(c, s)
  {
    match p
    case Committing(k) =>
      if |s.lh| < c.g.size then
        && CommitProgress(c.g, Applied(s.home, s.writes[..s.cut]), s.disk, s.lh, s.cache, k)
        && k <= 2 * |s.lh| + 1
        && (if k <= |s.lh| then LoggedSinceCut(s) else s.cut == |s.writes|)
        && (s.lh == [] ==> k == 0)
      else
        // commit has not come to the end of the log yet
        k < c.g.size && LoggedSinceCut(s) && Untouched(c, s)
    case Committed =>
      s.lh == [] && s.cut == |s.writes| && Pending(c.g, s.disk) == [] && SameHome(c.g, s.disk, s.cache)
    case _ => true
  }

  ghost predicate Inv(c: Config, s: Sys) {
    && s.cut <= |s.writes|
    && (!s.mode.Spilled? ==> DiskInv(c, s))
    && (s.mode.Recovering? ==> RecoverInv(c, s))
    && (s.mode.Up? ==> ProcInv(s) && OpInv(c, s) && LogInv(c, s))
    && (s.mode.Panicked? ==> s.mode.why != CommittingInEndOp && s.mode.why != OutsideTransaction)
  }

  // ---- every step keeps the invariant -----------------------------------

  lemma StartInv(c: Config, d: Disk, n: nat)
    requires ValidHeader(c.g, d)
    ensures Inv(c, Start(c, d, n))
  {
  }

  lemma CrashInv(c: Config, s: Sys)
    requires Inv(c, s) && !s.mode.Spilled?
    ensures Inv(c, Crashed(c, s))
  {
    var t := Crashed(c, s);
    assert t.writes[..t.cut] == s.writes[..s.cut];
  }

  lemma RecoverInvStep(c: Config, s: Sys)
    requires Inv(c, s) && Enabled(c, s, RecoverStep)
    ensures Inv(c, RecoverStepped(c, s))
  {
    if s.mode.k < |s.mode.lh| {
      RecoverCopyStep(c.g, s.disk, s.mode.k);
      hide Recovered, RecoverAt, ValidHeader, Pending, Applied, WholeOps, ValidWrites, ValidBlocks;
    } else {
      RecoverLastStep(c.g, s.disk);
      RebootInv(c, s);
    }
  }

  // The last write of recovery leaves a running machine with an empty log.
  lemma RebootInv(c: Config, s: Sys)
    requires Inv(c, s) && s.mode.Recovering? && s.mode.k == |s.mode.lh|
    requires var d := RecoverWrite(c.g, s.disk, s.mode.lh, s.mode.k);
      && ValidHeader(c.g, d) && Pending(c.g, d) == []
      && SameHome(c.g, d, Recovered(c.g, s.disk)) && SameHome(c.g, Recovered(c.g, d), Recovered(c.g, s.disk))
    ensures Inv(c, RecoverStepped(c, s))
  {
    var t := RecoverStepped(c, s);
    assert s.writes[..s.cut] == s.writes;
    hide Recovered, RecoverAt, RecoverWrite, ValidHeader, Pending, Applied, WholeOps, ValidWrites;
    SumZero(t.procs, InOpWeight());
    SumZero(t.procs, CommitWeight());
  }

  // A commit in progress is the only one, and no operation is running.
  lemma OneCommitter(s: Sys, p: nat, q: nat)
    requires ProcInv(s) && p < |s.procs| && q < |s.procs|
    ensures s.procs[p].InOp? ==> s.outstanding >= 1 && !s.committing
    ensures s.procs[p].Committing? || s.procs[p].Committed? ==> s.committing
    ensures (s.procs[p].Committing? || s.procs[p].Committed?) && q != p ==>
              !s.procs[q].Committing? && !s.procs[q].Committed? && !s.procs[q].InOp?
  {
    SumUpdate(s.procs, p, Idle, InOpWeight());
    SumUpdate(s.procs, p, Idle, CommitWeight());
    var t := s.procs[p := Idle];
    SumUpdate(t, q, Idle, CommitWeight());
    SumUpdate(s.procs, q, Idle, InOpWeight());
  }

  lemma WakeAllSums(procs: seq<Proc>)
    ensures Sum(WakeAll(procs), InOpWeight()) == Sum(procs, InOpWeight())
    ensures Sum(WakeAll(procs), CommitWeight()) == Sum(procs, CommitWeight())
  {
    SumSame(WakeAll(procs), procs, InOpWeight());
    SumSame(WakeAll(procs), procs, CommitWeight());
  }

  // Steps that change neither the log nor who commits.
  ghost predicate SameLog(s: Sys, t: Sys) {
    && t == s.(outstanding := t.outstanding, procs := t.procs, nextOp := t.nextOp) && s.nextOp <= t.nextOp
    && |t.procs| == |s.procs|
    && forall q :: 0 <= q < |t.procs| && (t.procs[q].Committing? || t.procs[q].Committed?) ==>
         t.procs[q] == s.procs[q]
  }

  lemma SameLogInv(c: Config, s: Sys, t: Sys)
    requires s.cut <= |s.writes| && DiskInv(c, s) && LogInv(c, s) && SameLog(s, t)
    ensures DiskInv(c, t) && LogInv(c, t)
  {
    hide Recovered, Applied, ValidHeader, Pending, HomeBlocks, SameHome, CommitProgress, ValidWrites, Touched;
    forall q | 0 <= q < |t.procs|
      ensures CommitterInv(c, t, t.procs[q])
    {
      if t.procs[q].Committing? || t.procs[q].Committed? {
        assert CommitterInv(c, s, s.procs[q]);
      }
    }
  }

  lemma BeginInv(c: Config, s: Sys, p: nat)
    requires Inv(c, s) && Enabled(c, s, Begin(p))
    ensures Inv(c, Begun(s, p))
  {
    BeginOps(c, s, p);
    BeginProcs(s, p);
    assert SameLog(s, Begun(s, p));
    hide DiskInv, LogInv, ProcInv, OpInv;
    SameLogInv(c, s, Begun(s, p));
  }

  lemma BeginOps(c: Config, s: Sys, p: nat)
    requires s.cut <= |s.writes| && OpInv(c, s) && p < |s.procs|
    requires forall i :: 0 <= i < |s.writes| ==> s.writes[i].op < s.nextOp
    ensures OpInv(c, Begun(s, p))
  {
    var t := Begun(s, p);
    assert forall q :: 0 <= q < |t.procs| && q != p ==> t.procs[q] == s.procs[q];
  }

  lemma BeginProcs(s: Sys, p: nat)
    requires ProcInv(s) && p < |s.procs| && (s.procs[p].Idle? || s.procs[p].Ready?)
    ensures ProcInv(Begun(s, p))
  {
    var t := Begun(s, p);
    SumUpdate(s.procs, p, t.procs[p], InOpWeight());
    SumUpdate(s.procs, p, t.procs[p], CommitWeight());
    assert forall q :: 0 <= q < |t.procs| && q != p ==> t.procs[q] == s.procs[q];
  }

  lemma ChangeInv(c: Config, s: Sys, p: nat, b: nat, data: Block)
    requires Inv(c, s) && Enabled(c, s, Change(p, b, data))
    ensures Inv(c, ChangedBy(s, p, b, data))
  {
    hide LogInv, ProcInv, OpInv, InUse, Held, ValidHeader, Recovered, Applied, SameHome, WholeOps, ValidWrites;
    var t := ChangedBy(s, p, b, data);
    if t.mode.Up? {
      TurnProcs(c, s, t, p);
      assert SameLog(s, t);
      SameLogInv(c, s, t);
    }
  }

  lemma GuardInv(c: Config, s: Sys, p: nat)
    requires Inv(c, s) && Enabled(c, s, Guard(p))
    ensures Inv(c, Guarded(c, s, p))
    ensures Guarded(c, s, p).mode.Up? <==> !TooBig(c.g, |s.lh|)
  {
    hide LogInv, ProcInv, ValidHeader, Recovered, Applied, SameHome, WholeOps, ValidWrites;
    var t := Guarded(c, s, p);
    OneCommitter(s, p, p);
    if t.mode.Up? {
      assert TurnInv(c, s, s.procs[p]);
      TurnProcs(c, s, t, p);
      assert SameLog(s, t);
      SameLogInv(c, s, t);
    }
  }

  // A step of p inside its operation, alone.
  lemma TurnProcs(c: Config, s: Sys, t: Sys, p: nat)
    requires s.cut <= |s.writes| && ProcInv(s) && OpInv(c, s) && p < |s.procs| == |t.procs|
    requires s.procs[p].InOp? && t.procs[p].InOp? && t.procs[p] == s.procs[p].(turn := t.procs[p].turn)
    requires t == s.(procs := s.procs[p := t.procs[p]]) && TurnInv(c, t, t.procs[p])
    ensures ProcInv(t) && OpInv(c, t)
  {
    SumUpdate(s.procs, p, t.procs[p], InOpWeight());
    SumUpdate(s.procs, p, t.procs[p], CommitWeight());
    assert forall q :: 0 <= q < |t.procs| && q != p ==> t.procs[q] == s.procs[q];
  }

  lemma LogWriteInv(c: Config, s: Sys, p: nat)
    requires Inv(c, s) && Enabled(c, s, LogWrite(p))
    ensures Inv(c, Logged(s, p))
  {
    var t := Logged(s, p);
    OneCommitter(s, p, p);
    if t.mode.Up? {
      assert t.writes[..t.cut] == s.writes[..s.cut];
      LogWriteDisk(c, s, p);
      LogWriteProcs(c, s, p);
      hide Recovered, Applied, ValidHeader, Pending, ValidBlocks, SameHome, CommitProgress, WholeOps, ValidWrites,
        Touched, ProcInv, OpInv;
    }
  }

  lemma LogWriteProcs(c: Config, s: Sys, p: nat)
    requires s.cut <= |s.writes| && ProcInv(s) && OpInv(c, s) && Enabled(c, s, LogWrite(p))
    requires Logged(s, p).mode.Up? && s.outstanding >= 1 && !s.committing
    ensures var t := Logged(s, p);
      && ProcInv(t) && OpInv(c, t)
      && forall q :: 0 <= q < |t.procs| ==> !t.procs[q].Committing? && !t.procs[q].Committed?
  {
    var t := Logged(s, p);
    LogWriteOps(c, s, p);
    hide OpInv, Absorb;
    SumUpdate(s.procs, p, t.procs[p], InOpWeight());
    SumUpdate(s.procs, p, t.procs[p], CommitWeight());
    forall q | 0 <= q < |t.procs|
      ensures !t.procs[q].Committing? && !t.procs[q].Committed?
    {
      OneCommitter(s, q, p);
    }
  }

  lemma LogWriteOps(c: Config, s: Sys, p: nat)
    requires s.cut <= |s.writes| && OpInv(c, s) && Enabled(c, s, LogWrite(p)) && Logged(s, p).mode.Up?
    ensures OpInv(c, Logged(s, p))
  {
    var t := Logged(s, p);
    assert forall b :: b in s.lh ==> b in t.lh;
    forall q | 0 <= q < |t.procs| && t.procs[q].InOp?
      ensures TurnInv(c, t, t.procs[q]) && forall b :: b in t.procs[q].added ==> b in t.lh
    {
      assert TurnInv(c, s, s.procs[q]);
    }
  }

  lemma LogWriteDisk(c: Config, s: Sys, p: nat)
    requires DiskInv(c, s) && OpInv(c, s) && LogInv(c, s) && Enabled(c, s, LogWrite(p))
    requires Logged(s, p).mode.Up? && s.outstanding >= 1 && !s.committing
    ensures var t := Logged(s, p);
      && DiskInv(c, t) && LoggedSinceCut(t)
      && HomeBlocks(c.g, |t.disk|, t.lh) && SameHome(c.g, t.cache, Applied(t.home, t.writes))
  {
    var b := s.procs[p].turn.block;
    var w := Write(s.procs[p].op, b, s.procs[p].turn.data);
    AppendInv(c, s, w);
    AbsorbHome(c.g, |s.disk|, s.lh, b);
    TouchedAppend(s.writes, w, s.cut);
    AppliedAppend(c.g, s.home, s.writes, w, s.cache);
    hide Recovered, ValidHeader, Pending, CommitProgress, HomeBlocks, CommitterInv, SameHome, Applied, Touched, Absorb;
  }

  // One more write of an operation that has committed none.
  lemma AppendInv(c: Config, s: Sys, w: Write)
    requires DiskInv(c, s) && w.block < |s.home| && !InLog(c.g, w.block) && w.op < s.nextOp
    requires forall i :: 0 <= i < s.cut ==> s.writes[i].op != w.op
    ensures DiskInv(c, s.(writes := s.writes + [w]))
  {
    assert (s.writes + [w])[..s.cut] == s.writes[..s.cut];
    hide Recovered, ValidHeader, SameHome, Applied;
  }

  lemma AppliedAppend(g: Geometry, home: Disk, ws: seq<Write>, w: Write, cache: Disk)
    requires ValidWrites(g, |home|, ws) && w.block < |home| && |cache| == |home|
    requires SameHome(g, cache, Applied(home, ws))
    ensures SameHome(g, cache[w.block := w.data], Applied(home, ws + [w]))
  {
    assert (ws + [w])[..|ws|] == ws;
  }

  lemma TouchedAppend(ws: seq<Write>, w: Write, from: nat)
    requires from <= |ws|
    ensures forall b :: Touched(ws + [w], from, b) <==> Touched(ws, from, b) || b == w.block
  {
    var e := ws + [w];
    forall b | Touched(ws, from, b) || b == w.block
      ensures Touched(e, from, b)
    {
      if b == w.block {
        assert e[|ws|].block == b;
      } else {
        var i :| from <= i < |ws| && ws[i].block == b;
        assert e[i].block == b;
      }
    }
  }

  // Outside lh the cache holds what is committed.
  lemma CacheDiffers(c: Config, s: Sys)
    requires DiskInv(c, s) && LogInv(c, s) && LoggedSinceCut(s)
    ensures DiffersOnlyIn(c.g, Applied(s.home, s.writes[..s.cut]), s.cache, s.lh)
  {
    forall b | 0 <= b < |s.disk| && !InLog(c.g, b) && b !in s.lh
      ensures Applied(s.home, s.writes[..s.cut])[b] == s.cache[b]
    {
      AppliedUntouched(s.home, s.writes, s.cut, b);
    }
  }

  lemma EndInv(c: Config, s: Sys, p: nat)
    requires Inv(c, s) && Enabled(c, s, End(p))
    ensures Inv(c, Ended(s, p)) && Ended(s, p).mode.Up?
  {
    var t := Ended(s, p);
    OneCommitter(s, p, p);
    EndProcs(s, p);
    EndOps(c, s, p);
    if s.outstanding == 1 {
      hide OpInv, ProcInv;
      CommitStarts(c, s, p);
    } else {
      assert SameLog(s, t);
      hide DiskInv, LogInv, OpInv, ProcInv;
      SameLogInv(c, s, t);
    }
  }

  lemma EndOps(c: Config, s: Sys, p: nat)
    requires s.cut <= |s.writes| && OpInv(c, s) && p < |s.procs|
    ensures OpInv(c, Ended(s, p))
  {
    var t := Ended(s, p);
    assert forall q :: 0 <= q < |t.procs| && t.procs[q].InOp? ==> t.procs[q] == s.procs[q];
  }

  // The last operation ends: what is logged is what commit will find.
  lemma CommitStarts(c: Config, s: Sys, p: nat)
    requires Inv(c, s) && Enabled(c, s, End(p)) && s.outstanding == 1 && !s.committing
    requires forall q :: 0 <= q < |s.procs| ==>
      var x := Ended(s, p).procs[q];
      !x.Committed? && (x.Committing? ==> x == Committing(0))
    ensures DiskInv(c, Ended(s, p)) && LogInv(c, Ended(s, p))
  {
    var t := Ended(s, p);
    CacheDiffers(c, s);
    assert CommitterInv(c, t, Committing(0));
    hide Recovered, Applied, ValidHeader, Pending, HomeBlocks, SameHome, CommitProgress, WholeOps, ValidWrites,
      Touched;
  }

  lemma EndProcs(s: Sys, p: nat)
    requires ProcInv(s) && p < |s.procs| && s.procs[p].InOp? && !s.committing
    ensures ProcInv(Ended(s, p))
    ensures forall q :: 0 <= q < |s.procs| ==>
      var x := Ended(s, p).procs[q];
      !x.Committed? && (x.Committing? ==> x == Committing(0) && s.outstanding == 1)
  {
    var t := Ended(s, p);
    var x := if s.outstanding == 1 then Committing(0) else Idle;
    SumUpdate(s.procs, p, x, InOpWeight());
    SumUpdate(s.procs, p, x, CommitWeight());
    WakeAllSums(s.procs[p := x]);
    forall q | 0 <= q < |s.procs| && q != p
      ensures !s.procs[q].Committed? && !s.procs[q].Committing?
      ensures t.procs[q] == if s.outstanding == 1 || !s.procs[q].Asleep? then s.procs[q] else Ready
    {
      OneCommitter(s, q, p);
    }
  }

  lemma CommitStepInv(c: Config, s: Sys, p: nat)
    requires Inv(c, s) && Enabled(c, s, CommitStep(p))
    ensures Inv(c, CommitStepped(c, s, p))
  {
    hide Recovered, Applied, ValidHeader, Pending, HomeBlocks, SameHome, CommitProgress, CommitWrite, WholeOps,
      ValidWrites, Touched, ProcInv, OpInv;
    var t := CommitStepped(c, s, p);
    if t.mode.Up? {
      CommitPhaseInv(c, s, p);
      CommitProcs(c, s, p);
      CommittingLog(c, t, p);
    }
  }

  // While p commits the others are in no operation, and in no commit.
  lemma CommittingLog(c: Config, t: Sys, p: nat)
    requires t.cut <= |t.writes| && DiskInv(c, t) && t.committing
    requires HomeBlocks(c.g, |t.disk|, t.lh) && (t.lh != [] ==> c.g.size > 1)
    requires SameHome(c.g, t.cache, Applied(t.home, t.writes))
    requires p < |t.procs| && !t.procs[p].InOp? && CommitterInv(c, t, t.procs[p])
    requires forall q :: 0 <= q < |t.procs| && q != p ==>
      !t.procs[q].InOp? && !t.procs[q].Committing? && !t.procs[q].Committed?
    ensures OpInv(c, t) && LogInv(c, t)
  {
    hide DiskInv, HomeBlocks, SameHome, Applied;
  }

  lemma CommitProcs(c: Config, s: Sys, p: nat)
    requires ProcInv(s) && Enabled(c, s, CommitStep(p)) && CommitStepped(c, s, p).mode.Up?
    requires CommitStepped(c, s, p).procs[p].Committed? ==> CommitStepped(c, s, p).lh == []
    ensures var t := CommitStepped(c, s, p);
      && ProcInv(t) && t.committing
      && forall q :: 0 <= q < |t.procs| && q != p ==>
           !t.procs[q].InOp? && !t.procs[q].Committing? && !t.procs[q].Committed?
  {
    hide HomeBlocks, CommitWrite;
    var t := CommitStepped(c, s, p);
    OneCommitter(s, p, p);
    SumUpdate(s.procs, p, t.procs[p], InOpWeight());
    SumUpdate(s.procs, p, t.procs[p], CommitWeight());
    forall q | 0 <= q < |t.procs| && q != p
      ensures !t.procs[q].InOp? && !t.procs[q].Committing? && !t.procs[q].Committed?
    {
      OneCommitter(s, p, q);
    }
  }

  lemma CommitPhaseInv(c: Config, s: Sys, p: nat)
    requires Inv(c, s) && Enabled(c, s, CommitStep(p)) && CommitStepped(c, s, p).mode.Up?
    ensures var t := CommitStepped(c, s, p);
      && t.cut <= |t.writes| && DiskInv(c, t) && CommitterInv(c, t, t.procs[p])
      && HomeBlocks(c.g, |t.disk|, t.lh)
      && SameHome(c.g, t.cache, Applied(t.home, t.writes))
  {
    var d0 := Applied(s.home, s.writes[..s.cut]);
    assert CommitterInv(c, s, s.procs[p]);
    if |s.lh| >= c.g.size {
      OutgrownStep(c, s, p);
    } else if s.procs[p].k < |s.lh| {
      BeforeHeader(c, s, p, d0);
    } else {
      FromHeader(c, s, p, d0);
    }
  }

  // A log block of a transaction that the log has no room for.
  lemma OutgrownStep(c: Config, s: Sys, p: nat)
    requires DiskInv(c, s) && Enabled(c, s, CommitStep(p)) && CommitStepped(c, s, p).mode.Up?
    requires CommitterInv(c, s, s.procs[p]) && |s.lh| >= c.g.size
    ensures var t := CommitStepped(c, s, p);
      DiskInv(c, t) && CommitterInv(c, t, t.procs[p])
  {
    var t := CommitStepped(c, s, p);
    assert t.disk[c.g.start] == s.disk[c.g.start];
    assert ValidHeader(c.g, t.disk) && Pending(c.g, t.disk) == [];
    RecoveredShape(c.g, t.disk);
    hide Recovered, Applied, Touched, WholeOps, ValidWrites;
  }

  // The committed writes stay the same until the header is written.
  lemma BeforeHeader(c: Config, s: Sys, p: nat, d0: Disk)
    requires DiskInv(c, s) && Enabled(c, s, CommitStep(p)) && s.procs[p].k < |s.lh| < c.g.size
    requires CommitStepped(c, s, p).mode.Up?
    requires CommitterInv(c, s, s.procs[p])
    requires d0 == Applied(s.home, s.writes[..s.cut])
    ensures var t := CommitStepped(c, s, p);
      DiskInv(c, t) && CommitterInv(c, t, t.procs[p])
  {
    hide Recovered, Applied, CommitWrite, CommitProgress, SameHome, ValidHeader, ValidBlocks, Pending, Touched,
      HomeBlocks, WholeOps;
    var t, k := CommitStepped(c, s, p), s.procs[p].k;
    RoomOnDisk(c.g, |s.disk|, s.lh);
    LogBlockWrite(c.g, s.disk, s.lh, s.cache, k);
    CommitProgressStep(c.g, d0, s.disk, s.lh, s.cache, k);
    CommitFacts(c.g, d0, t.disk, s.lh, s.cache, k + 1);
    CrashDuringCommit(c.g, d0, t.disk, s.lh, s.cache, k + 1);
  }

  lemma LogBlockWrite(g: Geometry, d: Disk, lh: seq<nat>, cache: Disk, k: nat)
    requires ValidGeometry(g, |d|) && ValidBlocks(g, |d|, lh) && |cache| == |d| && k < |lh|
    ensures g.start + k + 1 < |d| && lh[k] < |cache|
    ensures CommitWrite(g, d, lh, cache, k) == d[g.start + k + 1 := cache[lh[k]]]
  {
  }

  lemma RoomOnDisk(g: Geometry, size: nat, lh: seq<nat>)
    requires HomeBlocks(g, size, lh) && |lh| < g.size
    ensures ValidBlocks(g, size, lh)
  {
  }

  // From the header write on, all writes are committed.
  lemma FromHeader(c: Config, s: Sys, p: nat, d0: Disk)
    requires DiskInv(c, s) && Enabled(c, s, CommitStep(p)) && |s.lh| < c.g.size && s.procs[p].k >= |s.lh|
    requires CommitStepped(c, s, p).mode.Up?
    requires CommitterInv(c, s, s.procs[p]) && SameHome(c.g, s.cache, Applied(s.home, s.writes))
    requires d0 == Applied(s.home, s.writes[..s.cut])
    ensures var t := CommitStepped(c, s, p);
      DiskInv(c, t) && CommitterInv(c, t, t.procs[p]) && HomeBlocks(c.g, |t.disk|, t.lh)
  {
    hide Recovered, Applied, CommitWrite, CommitProgress, SameHome, ValidHeader, ValidBlocks, Pending, Touched,
      WholeOps, HomeBlocks;
    RoomOnDisk(c.g, |s.disk|, s.lh);
    var k := s.procs[p].k;
    var d := CommitWrite(c.g, s.disk, s.lh, s.cache, k);
    CommitProgressStep(c.g, d0, s.disk, s.lh, s.cache, k);
    AllCommitted(c, d0, Applied(s.home, s.writes), s.cache, d, s.lh, k + 1);
    var u := s.(disk := d, cut := |s.writes|);
    AllCommittedInv(c, s, u);
  }

  lemma AllCommittedInv(c: Config, s: Sys, t: Sys)
    requires DiskInv(c, s) && t == s.(disk := t.disk, cut := |s.writes|) && |t.disk| == |s.disk|
    requires ValidHeader(c.g, t.disk) && SameHome(c.g, Recovered(c.g, t.disk), Applied(s.home, s.writes))
    ensures DiskInv(c, t) && t.writes[..t.cut] == s.writes
  {
    assert s.writes[..|s.writes|] == s.writes;
    hide Recovered, Applied, SameHome, ValidHeader;
  }

  lemma AllCommitted(c: Config, d0: Disk, d1: Disk, cache: Disk, d: Disk, lh: seq<nat>, k: nat)
    requires CommitProgress(c.g, d0, d, lh, cache, k) && k > |lh| && SameHome(c.g, cache, d1)
    ensures CommitProgress(c.g, d1, d, lh, cache, k)
    ensures ValidHeader(c.g, d) && SameHome(c.g, Recovered(c.g, d), d1)
    ensures HomeBlocks(c.g, |d|, lh) && HomeBlocks(c.g, |d|, [])
    ensures k == 2 * |lh| + 2 ==> Pending(c.g, d) == [] && SameHome(c.g, d, cache)
  {
    CrashDuringCommit(c.g, d0, d, lh, cache, k);
    hide Recovered;
  }

  // commit leaves an empty log.
  lemma FinishedLog(c: Config, s: Sys, p: nat)
    requires Inv(c, s) && Enabled(c, s, Finish(p))
    ensures s.lh == [] && LoggedSinceCut(s) && Untouched(c, s)
  {
    assert CommitterInv(c, s, s.procs[p]);
    assert s.writes[..|s.writes|] == s.writes;
    hide Recovered, Applied, ValidHeader, HomeBlocks, WholeOps, ValidWrites;
  }

  lemma FinishInv(c: Config, s: Sys, p: nat)
    requires Inv(c, s) && Enabled(c, s, Finish(p))
    ensures Inv(c, Finished(s, p))
  {
    var t := Finished(s, p);
    FinishedLog(c, s, p);
    FinishProcs(s, p);
    hide Recovered, Applied, ValidHeader, Pending, HomeBlocks, SameHome, CommitProgress, WholeOps, ValidWrites,
      Touched, ProcInv;
  }

  lemma FinishProcs(s: Sys, p: nat)
    requires ProcInv(s) && p < |s.procs| && s.lh == []
    requires s.procs[p].Committing? || s.procs[p].Committed?
    ensures var t := Finished(s, p);
      && ProcInv(t)
      && forall q :: 0 <= q < |t.procs| ==>
           !t.procs[q].InOp? && !t.procs[q].Committing? && !t.procs[q].Committed?
  {
    var t := Finished(s, p);
    OneCommitter(s, p, p);
    SumUpdate(s.procs, p, Idle, InOpWeight());
    SumUpdate(s.procs, p, Idle, CommitWeight());
    WakeAllSums(s.procs[p := Idle]);
    forall q | 0 <= q < |t.procs|
      ensures !t.procs[q].InOp? && !t.procs[q].Committing? && !t.procs[q].Committed?
    {
      OneCommitter(s, p, q);
    }
  }

  lemma StepInv(c: Config, s: Sys, e: Event)
    requires Inv(c, s) && Enabled(c, s, e)
    ensures Inv(c, Next(c, s, e))
  {
    match e
    case Begin(p) => BeginInv(c, s, p);
    case Change(p, b, data) => ChangeInv(c, s, p, b, data);
    case Guard(p) => GuardInv(c, s, p);
    case LogWrite(p) => LogWriteInv(c, s, p);
    case End(p) => EndInv(c, s, p);
    case CommitStep(p) => CommitStepInv(c, s, p);
    case Finish(p) => FinishInv(c, s, p);
    case Crash => CrashInv(c, s);
    case RecoverStep => RecoverInvStep(c, s);
  }

  // ---- over whole runs --------------------------------------------------

  lemma {:induction false} RunInv(c: Config, d: Disk, n: nat, es: seq<Event>)
    requires ValidHeader(c.g, d) && Run(c, Start(c, d, n), es)
    ensures Inv(c, After(c, Start(c, d, n), es))
    decreases |es|
  {
    if es == [] {
      StartInv(c, d, n);
    } else {
      var k := |es| - 1;
      RunInv(c, d, n, es[..k]);
      StepInv(c, After(c, Start(c, d, n), es[..k]), es[k]);
    }
  }

  // Crash safety of every run: wherever it stops, unless commit has written past the
  // log, the machine can crash, and the disk then recovers to the effect of a prefix of
  // the log_writes, a prefix that cuts no operation in two.
  lemma CrashSafety(c: Config, d: Disk, n: nat, es: seq<Event>)
    requires ValidHeader(c.g, d) && Run(c, Start(c, d, n), es)
    requires !After(c, Start(c, d, n), es).mode.Spilled?
    ensures var t := After(c, Start(c, d, n), es);
      && Enabled(c, t, Crash)
      && t.home == Recovered(c.g, d) && ValidWrites(c.g, |t.home|, t.writes)
      && SameHome(c.g, Recovered(c.g, t.disk), Applied(t.home, t.writes[..t.cut]))
      && WholeOps(t.writes, t.cut)
  {
    RunInv(c, d, n, es);
    HomeFixed(c, Start(c, d, n), es);
  }

  lemma {:induction false} HomeFixed(c: Config, s: Sys, es: seq<Event>)
    requires Run(c, s, es)
    ensures After(c, s, es).home == s.home && |After(c, s, es).procs| == |s.procs|
    decreases |es|
  {
    if es != [] {
      var n := |es| - 1;
      HomeFixed(c, s, es[..n]);
      HomeStep(c, After(c, s, es[..n]), es[n]);
      hide Enabled, Next;
    }
  }

  lemma HomeStep(c: Config, s: Sys, e: Event)
    requires Enabled(c, s, e)
    ensures Next(c, s, e).home == s.home && |Next(c, s, e).procs| == |s.procs|
  {
    hide InUse, CommitWrite, HomeBlocks, ValidHeader;
  }

  lemma StepDurable(c: Config, s: Sys, e: Event)
    requires Enabled(c, s, e) && s.cut <= |s.writes|
    ensures var t := Next(c, s, e);
      t.cut <= |t.writes| && s.writes[..s.cut] <= t.writes[..t.cut]
  {
  }

  // Nothing committed is ever undone, by a crash or otherwise.
  lemma {:induction false} Durability(c: Config, d: Disk, n: nat, es: seq<Event>, k: nat)
    requires ValidHeader(c.g, d) && Run(c, Start(c, d, n), es) && k <= |es|
    ensures Run(c, Start(c, d, n), es[..k])
    ensures var t, u := After(c, Start(c, d, n), es[..k]), After(c, Start(c, d, n), es);
      t.cut <= |t.writes| && u.cut <= |u.writes| && t.writes[..t.cut] <= u.writes[..u.cut]
    decreases |es|
  {
    RunInv(c, d, n, es);
    if k == |es| {
      assert es[..k] == es;
    } else {
      var m := |es| - 1;
      assert es[..m][..k] == es[..k];
      Durability(c, d, n, es[..m], k);
      StepDurable(c, After(c, Start(c, d, n), es[..m]), es[m]);
      hide Inv, Enabled, Next, Start;
    }
  }

  // When end_op returns from a commit, everything logged so far is on the disk.
  lemma CommitIsSynchronous(c: Config, d: Disk, n: nat, es: seq<Event>, p: nat)
    requires ValidHeader(c.g, d) && Run(c, Start(c, d, n), es + [Finish(p)])
    ensures var t := After(c, Start(c, d, n), es + [Finish(p)]);
      && t.cut == |t.writes| && t.lh == [] && t.outstanding == 0
      && SameHome(c.g, t.disk, t.cache)
  {
    var s0, fs := Start(c, d, n), es + [Finish(p)];
    assert fs[..|fs| - 1] == es;
    RunInv(c, d, n, es);
    RunInv(c, d, n, fs);
    var s, t := After(c, s0, es), After(c, s0, fs);
    OneCommitter(s, p, p);
    if t.cut < |t.writes| {
      assert Touched(t.writes, t.cut, t.writes[t.cut].block);
    }
    assert t.writes[..|t.writes|] == t.writes;
  }

  // The panics of end_op and of log_write outside a transaction are unreachable. Those
  // for want of room are left: in the log, in the cache, and on the disk.
  lemma OnlyRoom(c: Config, d: Disk, n: nat, es: seq<Event>)
    requires ValidHeader(c.g, d) && Run(c, Start(c, d, n), es)
    requires After(c, Start(c, d, n), es).mode.Panicked?
    ensures var why := After(c, Start(c, d, n), es).mode.why;
      why == TooBigTransaction || why == NoBuffers || why == BlockOutOfRange
  {
    RunInv(c, d, n, es);
  }

  // commit never runs while an operation is outstanding; log.lh is empty whenever
  // nothing is outstanding or committing; it has no duplicates and otherwise names
  // exactly the blocks logged since the last commit.
  lemma QuietLog(c: Config, d: Disk, n: nat, es: seq<Event>)
    requires ValidHeader(c.g, d) && Run(c, Start(c, d, n), es)
    requires After(c, Start(c, d, n), es).mode.Up?
    ensures var t := After(c, Start(c, d, n), es);
      && (t.committing ==> forall p :: 0 <= p < |t.procs| ==> !t.procs[p].InOp?)
      && (t.outstanding == 0 && !t.committing ==> t.lh == [])
      && Distinct(t.lh)
      && (!t.committing ==> LoggedSinceCut(t))
  {
    RunInv(c, d, n, es);
    var t := After(c, Start(c, d, n), es);
    forall p | 0 <= p < |t.procs| && t.committing
      ensures !t.procs[p].InOp?
    {
      OneCommitter(t, p, p);
    }
  }

  // ---- buffers ----------------------------------------------------------

  lemma StepBuffers(c: Config, s: Sys, e: Event)
    requires Enabled(c, s, e) && (s.mode.Up? ==> |InUse(s)| <= NBUF)
    requires s.mode.Recovering? ==> forall p :: 0 <= p < |s.procs| ==> s.procs[p].Idle?
    ensures Next(c, s, e).mode.Up? ==> |InUse(Next(c, s, e))| <= NBUF
  {
    hide Recovered, ValidHeader, HomeBlocks, CommitWrite, RecoverWrite;
    var t := Next(c, s, e);
    if t.mode.Up? {
      if e.Change? {
        ChangeUses(s, e.p, e.block, e.data);
        SubsetCount(InUse(t), InUse(s) + {e.block});
      } else if e.RecoverStep? {
        assert InUse(t) == {};
      } else {
        OtherUses(c, s, e);
        SubsetCount(InUse(t), InUse(s));
      }
    }
  }

  lemma ChangeUses(s: Sys, p: nat, b: nat, data: Block)
    requires p < |s.procs| && s.procs[p].InOp? && s.procs[p].turn.Free? && ChangedBy(s, p, b, data).mode.Up?
    ensures InUse(ChangedBy(s, p, b, data)) <= InUse(s) + {b}
  {
  }

  lemma OtherUses(c: Config, s: Sys, e: Event)
    requires Enabled(c, s, e) && !e.Change? && !e.RecoverStep? && Next(c, s, e).mode.Up?
    ensures InUse(Next(c, s, e)) <= InUse(s)
  {
    hide Recovered, ValidHeader, HomeBlocks, CommitWrite, RecoverWrite;
    var t := Next(c, s, e);
    forall q | 0 <= q < |t.procs| && t.procs[q].InOp? && !t.procs[q].turn.Free?
      ensures q < |s.procs| && s.procs[q].InOp? && !s.procs[q].turn.Free?
      ensures s.procs[q].turn.block == t.procs[q].turn.block
    {
    }
    assert Held(t.procs) <= Held(s.procs);
  }

  // There are never more blocks pinned or held than buffers.
  lemma {:induction false} RunBuffers(c: Config, d: Disk, n: nat, es: seq<Event>)
    requires ValidHeader(c.g, d) && Run(c, Start(c, d, n), es)
    ensures var t := After(c, Start(c, d, n), es); t.mode.Up? ==> |InUse(t)| <= NBUF
    decreases |es|
  {
    if es != [] {
      var k := |es| - 1;
      RunBuffers(c, d, n, es[..k]);
      RunInv(c, d, n, es[..k]);
      StepBuffers(c, After(c, Start(c, d, n), es[..k]), es[k]);
    }
  }

  // So lh.block is never overrun, although log_write tests too early: the block that did
  // not fit would have found no buffer.
  lemma {:induction false} NeverOverflows(c: Config, d: Disk, n: nat, es: seq<Event>)
    requires ValidHeader(c.g, d) && Run(c, Start(c, d, n), es)
    ensures !After(c, Start(c, d, n), es).mode.Overflowed?
    decreases |es|
  {
    if es != [] {
      var s0, k := Start(c, d, n), |es| - 1;
      NeverOverflows(c, d, n, es[..k]);
      RunInv(c, d, n, es[..k]);
      RunBuffers(c, d, n, es[..k]);
      OverflowStep(c, After(c, s0, es[..k]), es[k]);
      hide Start, Next, Inv, Enabled;
    }
  }

  lemma OverflowStep(c: Config, s: Sys, e: Event)
    requires Inv(c, s) && Enabled(c, s, e) && !s.mode.Overflowed? && (s.mode.Up? ==> |InUse(s)| <= NBUF)
    ensures !Next(c, s, e).mode.Overflowed?
  {
    hide DiskInv, CommitProgress, CommitWrite, OpInv, ProcInv, CommitterInv, InUse;
    if e.LogWrite? {
      BufferForBlock(s, e.p);
    }
  }

  lemma BufferForBlock(s: Sys, p: nat)
    requires Distinct(s.lh) && |InUse(s)| <= NBUF
    requires p < |s.procs| && s.procs[p].InOp? && !s.procs[p].turn.Free?
    ensures s.procs[p].turn.block in s.lh || |s.lh| < NBUF
  {
    var b := s.procs[p].turn.block;
    if b !in s.lh {
      ElementsCount(s.lh);
      assert Elements(s.lh) + {b} <= InUse(s);
      SubsetCount(Elements(s.lh) + {b}, InUse(s));
    }
  }

  // ---- the space budget -------------------------------------------------

  // What an operation in progress may still add, of an allowance of quota blocks.
  ghost function Unused(quota: nat): Proc -> nat {
    (p: Proc) => if p.InOp? && |p.added| <= quota then quota - |p.added| else 0
  }

  lemma {:induction false} UnusedBound(procs: seq<Proc>, quota: nat)
    ensures Sum(procs, Unused(quota)) <= quota * Sum(procs, InOpWeight())
  {
    if procs != [] {
      UnusedBound(procs[..|procs| - 1], quota);
    }
  }

  // The log has room for all that the operations in progress may still add.
  ghost predicate Fits(s: Sys, quota: nat, room: nat) {
    && (forall p :: 0 <= p < |s.procs| && s.procs[p].InOp? ==> |s.procs[p].added| <= quota)
    && |s.lh| + Sum(s.procs, Unused(quota)) <= room
  }

  // begin_op reserves MAXOPBLOCKS blocks for each operation, used or not. It admits a
  // second one beside at most MAXOPBLOCKS logged blocks, and a third beside none; so if
  // no operation adds more than quota blocks, the log never gets more than these.
  function Room(quota: nat): nat {
    if quota == 0 then 0 else MAXOPBLOCKS + 2 * quota
  }

  lemma FitsStep(c: Config, s: Sys, e: Event, quota: nat)
    requires c.limit <= quota <= MAXOPBLOCKS
    requires Inv(c, s) && s.mode.Up? && Fits(s, quota, Room(quota)) && Enabled(c, s, e)
    ensures Next(c, s, e).mode.Up? ==> Fits(Next(c, s, e), quota, Room(quota))
  {
    hide Recovered, ValidHeader, Sum, Applied, WholeOps, InUse, HomeBlocks, CommitWrite, LogInv, Fits, Admits;
    var room := Room(quota);
    match e
    case Begin(p) => FitsBegin(s, p, quota);
    case Change(p, b, data) =>
      if ChangedBy(s, p, b, data).mode.Up? {
        FitsTurn(s, ChangedBy(s, p, b, data), p, quota, room);
      }
    case Guard(p) =>
      if Guarded(c, s, p).mode.Up? {
        FitsTurn(s, Guarded(c, s, p), p, quota, room);
      }
    case LogWrite(p) => FitsLogWrite(c, s, p, quota, room);
    case End(p) =>
      if !s.committing {
        FitsLeave(s, Ended(s, p), p, quota, room);
      }
    case CommitStep(p) =>
      if CommitStepped(c, s, p).mode.Up? {
        FitsLeave(s, CommitStepped(c, s, p), p, quota, room);
      }
    case Finish(p) => FitsLeave(s, Finished(s, p), p, quota, room);
    case Crash =>
    case RecoverStep =>
  }

  lemma FitsBegin(s: Sys, p: nat, quota: nat)
    requires quota <= MAXOPBLOCKS && ProcInv(s) && Fits(s, quota, Room(quota))
    requires p < |s.procs| && !s.procs[p].InOp?
    ensures Fits(Begun(s, p), quota, Room(quota))
  {
    SumUpdate(s.procs, p, Begun(s, p).procs[p], Unused(quota));
    UnusedBound(s.procs, quota);
    var u, k := Sum(s.procs, Unused(quota)), s.outstanding;
    hide Sum;
    if Admits(s.committing, |s.lh|, k) {
      RoomForOne(quota, k, |s.lh|, u);
    }
  }

  lemma RoomForOne(quota: nat, k: nat, n: nat, unused: nat)
    requires quota <= MAXOPBLOCKS && n + (k + 1) * MAXOPBLOCKS <= LOGSIZE
    requires unused <= quota * k && n + unused <= Room(quota) && (k == 0 ==> n == 0)
    ensures n + unused + quota <= Room(quota)
  {
    assert k == 0 || k == 1 || k == 2;
  }

  // A step of p inside its operation that adds nothing to the log.
  lemma FitsTurn(s: Sys, t: Sys, p: nat, quota: nat, room: nat)
    requires Fits(s, quota, room) && p < |s.procs| == |t.procs| && t.lh == s.lh
    requires s.procs[p].InOp? && t.procs[p].InOp? && t.procs[p] == s.procs[p].(turn := t.procs[p].turn)
    requires t.procs == s.procs[p := t.procs[p]]
    ensures Fits(t, quota, room)
  {
    SumUpdate(s.procs, p, t.procs[p], Unused(quota));
  }

  // Steps after which p is in no operation and the others are as they were, but for
  // being awake.
  lemma FitsLeave(s: Sys, t: Sys, p: nat, quota: nat, room: nat)
    requires Fits(s, quota, room) && p < |s.procs| == |t.procs| && |t.lh| <= |s.lh|
    requires !t.procs[p].InOp?
    requires forall q :: 0 <= q < |s.procs| && q != p ==>
      t.procs[q] == s.procs[q] || (s.procs[q].Asleep? && t.procs[q].Ready?)
    ensures Fits(t, quota, room)
  {
    SumUpdate(s.procs, p, t.procs[p], Unused(quota));
    SumSame(t.procs, s.procs[p := t.procs[p]], Unused(quota));
  }

  lemma FitsLogWrite(c: Config, s: Sys, p: nat, quota: nat, room: nat)
    requires c.limit <= quota && s.cut <= |s.writes| && OpInv(c, s)
    requires Fits(s, quota, room) && Enabled(c, s, LogWrite(p))
    ensures Logged(s, p).mode.Up? ==> Fits(Logged(s, p), quota, room)
  {
    var t, b := Logged(s, p), s.procs[p].turn.block;
    SumUpdate(s.procs, p, t.procs[p], Unused(quota));
    if b !in s.lh {
      assert b !in s.procs[p].added;
    }
  }

  lemma {:induction false} RunFits(c: Config, d: Disk, n: nat, es: seq<Event>, quota: nat)
    requires c.limit <= quota <= MAXOPBLOCKS
    requires ValidHeader(c.g, d) && Run(c, Start(c, d, n), es)
    requires After(c, Start(c, d, n), es).mode.Up?
    ensures Fits(After(c, Start(c, d, n), es), quota, Room(quota))
    decreases |es|
  {
    var s0, k := Start(c, d, n), |es| - 1;
    assert es != [];
    var s, t := After(c, s0, es[..k]), After(c, s0, es);
    RunInv(c, d, n, es[..k]);
    if s.mode.Up? {
      RunFits(c, d, n, es[..k], quota);
      FitsStep(c, s, es[k], quota);
    } else {
      assert es[k].RecoverStep?;
      SumZero(t.procs, Unused(quota));
    }
  }

  // A block that is held and not logged yet is one that its operation may still add.
  lemma {:induction false} HeldNew(c: Config, s: Sys, quota: nat, k: nat)
    requires c.limit <= quota && s.cut <= |s.writes| && OpInv(c, s) && k <= |s.procs|
    ensures |Held(s.procs[..k]) - Elements(s.lh)| <= Sum(s.procs[..k], Unused(quota))
  {
    var lh := Elements(s.lh);
    if k == 0 {
      assert Held(s.procs[..k]) == {};
    } else {
      hide OpInv, Held, InUse, Elements;
      HeldNew(c, s, quota, k - 1);
      TurnAt(c, s, k - 1);
      var a, r := s.procs[..k - 1], s.procs[..k];
      assert r[..k - 1] == a && r[k - 1] == s.procs[k - 1];
      HeldLast(r);
      HeldOneMore(Held(a), Held(r), lh, r[k - 1], quota);
    }
  }

  lemma TurnAt(c: Config, s: Sys, q: nat)
    requires s.cut <= |s.writes| && OpInv(c, s) && q < |s.procs|
    ensures var p := s.procs[q];
      p.InOp? && !p.turn.Free? ==> p.turn.block in Elements(s.lh) || |p.added| < c.limit
  {
    assert s.procs[q].InOp? ==> TurnInv(c, s, s.procs[q]);
  }

  lemma HeldOneMore(a: set<nat>, r: set<nat>, lh: set<nat>, p: Proc, quota: nat)
    requires r == a + if p.InOp? && !p.turn.Free? then {p.turn.block} else {}
    requires p.InOp? && !p.turn.Free? ==> p.turn.block in lh || |p.added| < quota
    ensures |r - lh| <= |a - lh| + Unused(quota)(p)
  {
    if p.InOp? && !p.turn.Free? && p.turn.block !in lh {
      assert r - lh == (a - lh) + {p.turn.block};
    } else {
      assert r - lh == a - lh;
    }
  }

  lemma HeldLast(procs: seq<Proc>)
    requires procs != []
    ensures var n := |procs| - 1;
      Held(procs) == Held(procs[..n]) +
        if procs[n].InOp? && !procs[n].turn.Free? then {procs[n].turn.block} else {}
  {
    var n, a, b := |procs| - 1, Held(procs), Held(procs[..|procs| - 1]);
    forall x | x in b
      ensures x in a
    {
      var q :| 0 <= q < n && procs[..n][q].InOp? && !procs[..n][q].turn.Free? && procs[..n][q].turn.block == x;
      assert procs[q] == procs[..n][q];
    }
    forall x | x in a && !(procs[n].InOp? && !procs[n].turn.Free? && procs[n].turn.block == x)
      ensures x in b
    {
      var q :| 0 <= q < |procs| && procs[q].InOp? && !procs[q].turn.Free? && procs[q].turn.block == x;
      assert procs[q] == procs[..n][q];
    }
  }

  lemma InUseFits(c: Config, s: Sys, quota: nat, room: nat)
    requires c.limit <= quota && s.cut <= |s.writes| && OpInv(c, s) && Fits(s, quota, room)
    ensures |InUse(s)| <= room
  {
    var lh := Elements(s.lh);
    ElementsCount(s.lh);
    HeldNew(c, s, quota, |s.procs|);
    assert s.procs[..|s.procs|] == s.procs;
    assert InUse(s) == lh + (Held(s.procs) - lh);
    hide Held, Sum, OpInv;
  }

  // Log budget: if each operation adds at most MAXOPBLOCKS blocks, the log plus
  // what the outstanding operations may still add never exceeds LOGSIZE.
  lemma LogBudget(c: Config, d: Disk, n: nat, es: seq<Event>)
    requires c.limit <= MAXOPBLOCKS
    requires ValidHeader(c.g, d) && Run(c, Start(c, d, n), es)
    requires After(c, Start(c, d, n), es).mode.Up?
    ensures var t := After(c, Start(c, d, n), es);
      |t.lh| + Sum(t.procs, Unused(MAXOPBLOCKS)) <= LOGSIZE
  {
    RunFits(c, d, n, es, MAXOPBLOCKS);
  }
}
