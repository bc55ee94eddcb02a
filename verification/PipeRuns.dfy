/** Every interleaving of processes that read, write and close one pipe. */
module PipeRuns {
  import opened Pipes

  datatype Proc =
    | Outside
    | Reader(n: nat, asleep: bool)
    | Writer(addr: string, done: nat, asleep: bool)

  // returned has what each finished read has given, in order.
  datatype Sys = Sys(chan: Channel, procs: seq<Proc>, returned: seq<string>)

  datatype Event =
    | StartRead(pid: nat, n: nat)
    | StartWrite(pid: nat, addr: string)
    | Turn(pid: nat, killed: bool)   // holds the lock, until it returns or sleeps
    | Interrupt(pid: nat)            // kill makes a sleeping process runnable
    | Close(writable: bool)          // the last descriptor of that end is closed

  function Init(nproc: nat): Sys {
    Sys(Channel("", "", true, true), seq(nproc, _ => Outside), [])
  }

  function WakeReader(p: Proc): Proc {
    if p.Reader? then Reader(p.n, false) else p
  }

  function WakeWriter(p: Proc): Proc {
    if p.Writer? then Writer(p.addr, p.done, false) else p
  }

  function WakeReaders(procs: seq<Proc>): seq<Proc> {
    seq(|procs|, i requires 0 <= i < |procs| => WakeReader(procs[i]))
  }

  function WakeWriters(procs: seq<Proc>): seq<Proc> {
    seq(|procs|, i requires 0 <= i < |procs| => WakeWriter(procs[i]))
  }

  // A process in a call holds a descriptor for its end, so that end is open.
  predicate Inv(s: Sys) {
    && Fifo(s.chan)
    && forall i :: 0 <= i < |s.procs| ==>
         && (s.procs[i].Reader? ==> s.chan.readopen)
         && (s.procs[i].Writer? ==> s.chan.writeopen && s.procs[i].done <= |s.procs[i].addr|)
  }

  predicate Asleep(p: Proc) {
    !p.Outside? && p.asleep
  }

  predicate Enabled(s: Sys, e: Event) {
    match e
    case StartRead(pid, _) => pid < |s.procs| && s.procs[pid].Outside? && s.chan.readopen
    case StartWrite(pid, _) => pid < |s.procs| && s.procs[pid].Outside? && s.chan.writeopen
    case Turn(pid, _) => pid < |s.procs| && !s.procs[pid].Outside? && !Asleep(s.procs[pid])
    case Interrupt(pid) => pid < |s.procs| && Asleep(s.procs[pid])
    case Close(true) => s.chan.writeopen && forall i :: 0 <= i < |s.procs| ==> !s.procs[i].Writer?
    case Close(false) => s.chan.readopen && forall i :: 0 <= i < |s.procs| ==> !s.procs[i].Reader?
  }

  function WriterTurn(s: Sys, pid: nat, killed: bool): Sys
    requires Inv(s) && pid < |s.procs| && s.procs[pid].Writer?
  {
    var Writer(addr, done, _) := s.procs[pid];
    var c := AfterWrite(s.chan, addr, done);
    match WriteOutcome(s.chan, addr, done, killed)
    case Return(r) =>
      var procs := s.procs[pid := Outside];
      s.(chan := c, procs := if r == -1 then procs else WakeReaders(procs))
    case Sleep =>
      var w := Writer(addr, done + Room(s.chan, |addr| - done), true);
      s.(chan := c, procs := WakeReaders(s.procs[pid := w]))
  }

  function ReaderTurn(s: Sys, pid: nat, killed: bool): Sys
    requires Inv(s) && pid < |s.procs| && s.procs[pid].Reader?
  {
    var n := s.procs[pid].n;
    match ReadOutcome(s.chan, n, killed)
    case Sleep => s.(procs := s.procs[pid := Reader(n, true)])
    case Return(r) =>
      if r == -1 then s.(procs := s.procs[pid := Outside])
      else
        var d := AfterRead(s.chan, n);
        Sys(d, WakeWriters(s.procs[pid := Outside]), s.returned + [d.taken[|s.chan.taken|..]])
  }

  function Next(s: Sys, e: Event): Sys
    requires Inv(s) && Enabled(s, e)
  {
    match e
    case StartRead(pid, n) => s.(procs := s.procs[pid := Reader(n, false)])
    case StartWrite(pid, addr) => s.(procs := s.procs[pid := Writer(addr, 0, false)])
    case Turn(pid, killed) => if s.procs[pid].Writer? then WriterTurn(s, pid, killed) else ReaderTurn(s, pid, killed)
    case Interrupt(pid) => s.(procs := s.procs[pid := WakeReader(WakeWriter(s.procs[pid]))])
    case Close(true) => s.(chan := s.chan.(writeopen := false), procs := WakeReaders(s.procs))
    case Close(false) => s.(chan := s.chan.(readopen := false), procs := WakeWriters(s.procs))
  }

  lemma StepInv(s: Sys, e: Event)
    requires Inv(s) && Enabled(s, e)
    ensures Inv(Next(s, e))
  {
  }

  // A run is possible from s.
  predicate Run(s: Sys, es: seq<Event>)
    requires Inv(s)
    decreases |es|
  {
    es == [] || (Enabled(s, es[0]) && (StepInv(s, es[0]); Run(Next(s, es[0]), es[1..])))
  }

  function After(s: Sys, es: seq<Event>): (t: Sys)
    requires Inv(s) && Run(s, es)
    ensures Inv(t)
    decreases |es|
  {
    if es == [] then s else (StepInv(s, es[0]); After(Next(s, es[0]), es[1..]))
  }

  // ---- first in, first out ----------------------------------------------

  function Flat(ss: seq<string>): string {
    if ss == [] then "" else Flat(ss[..|ss| - 1]) + ss[|ss| - 1]
  }

  lemma FlatOne(ss: seq<string>, w: string)
    ensures Flat(ss + [w]) == Flat(ss) + w
  {
    assert (ss + [w])[..|ss|] == ss;
  }

  // A read returns the bytes that follow those returned before.
  lemma ReaderDelivers(s: Sys, pid: nat, killed: bool)
    requires Inv(s) && pid < |s.procs| && s.procs[pid].Reader? && Flat(s.returned) == s.chan.taken
    ensures Flat(ReaderTurn(s, pid, killed).returned) == ReaderTurn(s, pid, killed).chan.taken
  {
    hide Flat, WakeWriters;
    var d := AfterRead(s.chan, s.procs[pid].n);
    FlatOne(s.returned, d.taken[|s.chan.taken|..]);
    assert d.taken == s.chan.taken + d.taken[|s.chan.taken|..];
  }

  lemma StepDelivers(s: Sys, e: Event)
    requires Inv(s) && Enabled(s, e) && Flat(s.returned) == s.chan.taken
    ensures Flat(Next(s, e).returned) == Next(s, e).chan.taken
  {
    hide Flat, WakeReaders, WakeWriters, ReaderTurn, Room, WriteOutcome;
    if e.Turn? && s.procs[e.pid].Reader? {
      ReaderDelivers(s, e.pid, e.killed);
    }
  }

  lemma {:induction false} Delivers(s: Sys, es: seq<Event>)
    requires Inv(s) && Run(s, es) && Flat(s.returned) == s.chan.taken
    ensures Flat(After(s, es).returned) == After(s, es).chan.taken
    decreases |es|
  {
    if es != [] {
      StepInv(s, es[0]);
      StepDelivers(s, es[0]);
      Delivers(Next(s, es[0]), es[1..]);
    }
  }

  // Whatever readers and writers do, what reads have returned, put together, is a prefix
  // of what writes have put in, and at most 512 bytes behind it.
  lemma FirstInFirstOut(nproc: nat, es: seq<Event>)
    requires Run(Init(nproc), es)
    ensures var t := After(Init(nproc), es);
      Flat(t.returned) <= t.chan.written && |t.chan.written| - |Flat(t.returned)| <= PIPESIZE
  {
    Delivers(Init(nproc), es);
  }

  // ---- progress ---------------------------------------------------------

  // A reader that wants bytes and has its turn on a pipe with some returns with one at
  // least: with as many as it wants, or with all that there are.
  lemma ReaderGets(s: Sys, pid: nat, killed: bool)
    requires Inv(s) && Enabled(s, Turn(pid, killed)) && s.procs[pid].Reader?
    requires s.procs[pid].n > 0 && |s.chan.taken| < |s.chan.written|
    ensures var t := Next(s, Turn(pid, killed));
      && |t.procs| == |s.procs| && t.procs[pid].Outside? && |t.returned| == |s.returned| + 1
      && var out := t.returned[|s.returned|];
      && 0 < |out| <= s.procs[pid].n && t.chan.taken == s.chan.taken + out
      && (|out| == s.procs[pid].n || t.chan.taken == t.chan.written)
  {
  }

  // A writer leaves with all its bytes accepted, or with the pipe full; and while the pipe
  // has room some of them are accepted.
  lemma WriterPuts(s: Sys, pid: nat, killed: bool)
    requires Inv(s) && Enabled(s, Turn(pid, killed)) && s.procs[pid].Writer?
    ensures var t, w := Next(s, Turn(pid, killed)), s.procs[pid];
      && |s.chan.written| <= |t.chan.written| && t.chan.taken == s.chan.taken
      && var m := |t.chan.written| - |s.chan.written|;
      && w.done + m <= |w.addr| && t.chan.written == s.chan.written + w.addr[w.done..w.done + m]
      && (w.done + m == |w.addr| || |t.chan.written| - |t.chan.taken| == PIPESIZE)
      && (w.done < |w.addr| && |s.chan.written| - |s.chan.taken| < PIPESIZE ==> m > 0)
      && |t.procs| == |s.procs| && (t.procs[pid].Outside? || t.procs[pid] == Writer(w.addr, w.done + m, true))
  {
  }

  // ---- no lost wakeup ---------------------------------------------------

  // A reader sleeps only on an empty pipe that may still be written, a writer only on a
  // full pipe that may still be read.
  predicate Calm(s: Sys)
    requires Inv(s)
  {
    forall i :: 0 <= i < |s.procs| && Asleep(s.procs[i]) ==>
      if s.procs[i].Reader? then Queued(s.chan) == 0 && s.chan.writeopen
      else Queued(s.chan) == PIPESIZE && s.chan.readopen
  }

  // A killed writer fills the pipe while a reader sleeps, and returns without waking it.
  predicate GivesUp(s: Sys, e: Event)
    requires Inv(s) && Enabled(s, e)
  {
    && e.Turn? && e.killed && s.procs[e.pid].Writer?
    && Queued(s.chan) < PIPESIZE < Queued(s.chan) + |s.procs[e.pid].addr| - s.procs[e.pid].done
    && exists i :: 0 <= i < |s.procs| && s.procs[i].Reader? && Asleep(s.procs[i])
  }

  // The one step that leaves a process asleep for no reason.
  lemma StepCalm(s: Sys, e: Event)
    requires Inv(s) && Enabled(s, e) && Calm(s)
    ensures Inv(Next(s, e)) && (Calm(Next(s, e)) <==> !GivesUp(s, e))
  {
    StepInv(s, e);
    var t := Next(s, e);
    if GivesUp(s, e) {
      var i :| 0 <= i < |s.procs| && s.procs[i].Reader? && Asleep(s.procs[i]);
      assert t.procs[i] == s.procs[i];
    }
  }

  predicate CalmThroughout(s: Sys, es: seq<Event>)
    requires Inv(s) && Run(s, es)
    decreases |es|
  {
    Calm(s) && (es == [] || (StepInv(s, es[0]); CalmThroughout(Next(s, es[0]), es[1..])))
  }

  predicate NobodyGivesUp(s: Sys, es: seq<Event>)
    requires Inv(s) && Run(s, es)
    decreases |es|
  {
    es == [] || (!GivesUp(s, es[0]) && (StepInv(s, es[0]); NobodyGivesUp(Next(s, es[0]), es[1..])))
  }

  lemma {:induction false} CalmFrom(s: Sys, es: seq<Event>)
    requires Inv(s) && Run(s, es) && Calm(s)
    ensures CalmThroughout(s, es) <==> NobodyGivesUp(s, es)
    decreases |es|
  {
    if es != [] {
      StepCalm(s, es[0]);
      if Calm(Next(s, es[0])) {
        CalmFrom(Next(s, es[0]), es[1..]);
      }
    }
  }

  // No wakeup is lost, in exactly the runs in which no killed writer gives up on a full
  // pipe that it filled while a reader slept.
  lemma NoLostWakeup(nproc: nat, es: seq<Event>)
    requires Run(Init(nproc), es)
    ensures CalmThroughout(Init(nproc), es) <==> NobodyGivesUp(Init(nproc), es)
  {
    CalmFrom(Init(nproc), es);
  }

  // A reader and a writer never sleep at the same time while wakeups are not lost.
  lemma NeverBothAsleep(s: Sys, r: nat, w: nat)
    requires Inv(s) && Calm(s) && r < |s.procs| && w < |s.procs| && s.procs[r].Reader? && s.procs[w].Writer?
    ensures !(Asleep(s.procs[r]) && Asleep(s.procs[w]))
  {
  }

  lemma RunStep(s: Sys, e: Event, es: seq<Event>)
    requires Inv(s) && Enabled(s, e) && Inv(Next(s, e)) && Run(Next(s, e), es)
    ensures Run(s, [e] + es) && After(s, [e] + es) == After(Next(s, e), es)
  {
    assert ([e] + es)[1..] == es;
  }

  // Such a run: a reader sleeps, and a killed writer leaves 512 bytes that it does not see.
  lemma KilledWriterStrands(addr: string) returns (es: seq<Event>)
    requires |addr| > PIPESIZE
    ensures Run(Init(2), es)
    ensures var t := After(Init(2), es);
      t.procs == [Reader(1, true), Outside] && Queued(t.chan) == PIPESIZE
  {
    var s0 := Init(2);
    var s1 := Next(s0, StartRead(0, 1));
    var s2 := Next(s1, Turn(0, false));
    var s3 := Next(s2, StartWrite(1, addr));
    var s4 := Next(s3, Turn(1, true));
    RunStep(s3, Turn(1, true), []);
    RunStep(s2, StartWrite(1, addr), [Turn(1, true)]);
    RunStep(s1, Turn(0, false), [StartWrite(1, addr)] + [Turn(1, true)]);
    es := [StartRead(0, 1)] + ([Turn(0, false)] + ([StartWrite(1, addr)] + [Turn(1, true)]));
    RunStep(s0, StartRead(0, 1), [Turn(0, false)] + ([StartWrite(1, addr)] + [Turn(1, true)]));
  }
}
