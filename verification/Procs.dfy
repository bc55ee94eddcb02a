/** The process table: allocproc, wakeup1, the tail of exit and the scan of wait, in place
    and as functions on the slots. */
module Procs {
  import opened Params

  const NONE := NPROC  // no parent

  datatype State = Unused | Embryo | Sleeping | Runnable | Running | Zombie

  // What a process sleeps on: a slot of the table, as wait does, or anything else.
  datatype Chan = Nothing | OnProc(slot: nat) | Other(addr: nat)

  datatype Slot = Slot(state: State, parent: nat, pid: int, chan: Chan, killed: bool)

  // ---- wakeup1 ----------------------------------------------------------

  function Woken(p: Slot, chan: Chan): Slot {
    if p.state == Sleeping && p.chan == chan then p.(state := Runnable) else p
  }

  function AllWoken(ps: seq<Slot>, chan: Chan): (qs: seq<Slot>)
    ensures |qs| == |ps|
  {
    seq(|ps|, i requires 0 <= i < |ps| => Woken(ps[i], chan))
  }

  // Exactly the sleepers on chan become runnable, and nothing else of them changes.
  ghost predicate Wakes(ps: seq<Slot>, qs: seq<Slot>, chan: Chan) {
    && |qs| == |ps|
    && forall i :: 0 <= i < |ps| ==>
         && (ps[i].state == Sleeping && ps[i].chan == chan ==> qs[i] == ps[i].(state := Runnable))
         && (!(ps[i].state == Sleeping && ps[i].chan == chan) ==> qs[i] == ps[i])
  }

  lemma AllWokenIs(ps: seq<Slot>, chan: Chan)
    ensures Wakes(ps, AllWoken(ps, chan), chan)
    ensures forall i :: 0 <= i < |ps| ==>
      !(AllWoken(ps, chan)[i].state == Sleeping && AllWoken(ps, chan)[i].chan == chan)
  {
  }

  // ---- exit -------------------------------------------------------------

  // cur has a child that has exited among the first n slots.
  predicate ZombieAmong(ps: seq<Slot>, cur: nat, n: nat)
    requires n <= |ps|
  {
    exists k :: 0 <= k < n && ps[k].parent == cur && ps[k].state == Zombie
  }

  // A slot when cur exits: the parent of cur is woken, and the children of cur pass to
  // init, which is woken too if one of them has exited.
  function Passed(p: Slot, cur: nat, parent: nat, init: nat, zombie: bool): Slot {
    var q := Woken(p, OnProc(parent));
    var r := if q.parent == cur then q.(parent := init) else q;
    if zombie then Woken(r, OnProc(init)) else r
  }

  // The table after cur has exited.
  function ExitSlots(ps: seq<Slot>, cur: nat, init: nat): (qs: seq<Slot>)
    requires cur < |ps|
    ensures |qs| == |ps|
  {
    var zombie := ZombieAmong(ps, cur, |ps|);
    var qs := seq(|ps|, i requires 0 <= i < |ps| => Passed(ps[i], cur, ps[cur].parent, init, zombie));
    qs[cur := qs[cur].(state := Zombie)]
  }

  // Slot i when cur exits, in the terms of the table before: cur is a zombie, its parent is
  // woken if it waits, so is init if it waits and is given a zombie, and init has the children.
  lemma ExitSlotIs(ps: seq<Slot>, cur: nat, init: nat, i: nat)
    requires cur < |ps| && i < |ps| && ps[cur].state == Running
    ensures var zombie := exists k :: 0 <= k < |ps| && ps[k].parent == cur && ps[k].state == Zombie;
      var p := ps[i];
      var woken := p.state == Sleeping && (p.chan == OnProc(ps[cur].parent) || (zombie && p.chan == OnProc(init)));
      ExitSlots(ps, cur, init)[i] ==
        Slot(if i == cur then Zombie else if woken then Runnable else p.state,
             if p.parent == cur then init else p.parent, p.pid, p.chan, p.killed)
  {
  }

  // ---- wait -------------------------------------------------------------

  datatype Waited = Reaped(pid: int) | NoChild | Asleep

  predicate ZombieChild(ps: seq<Slot>, cur: nat, i: nat) {
    i < |ps| && ps[i].parent == cur && ps[i].state == Zombie
  }

  // What the scan of wait leaves: the first zombie child is reaped; if there is none the
  // process sleeps on itself, unless it has no child or is killed.
  ghost predicate WaitDone(ps: seq<Slot>, qs: seq<Slot>, cur: nat, r: Waited)
    requires cur < |ps|
  {
    match r
    case Reaped(pid) =>
      exists i: nat :: ZombieChild(ps, cur, i) && pid == ps[i].pid
        && qs == ps[i := Slot(Unused, NONE, 0, ps[i].chan, false)]
        && forall k :: 0 <= k < i ==> !ZombieChild(ps, cur, k)
    case NoChild =>
      && qs == ps && (forall i :: 0 <= i < |ps| ==> !ZombieChild(ps, cur, i))
      && (ps[cur].killed || forall i :: 0 <= i < |ps| ==> ps[i].parent != cur)
    case Asleep =>
      && qs == ps[cur := ps[cur].(state := Sleeping, chan := OnProc(cur))]
      && (forall i :: 0 <= i < |ps| ==> !ZombieChild(ps, cur, i)) && !ps[cur].killed
      && exists i :: 0 <= i < |ps| && ps[i].parent == cur
  }

  class Ptable {
    const proc: array<Slot>
    const initproc: nat
    var nextpid: int

    constructor (initproc: nat)
      ensures this.initproc == initproc && nextpid == 1 && fresh(proc)
      ensures proc[..] == seq(NPROC, _ => Slot(Unused, NONE, 0, Nothing, false))
    {
      this.initproc, nextpid := initproc, 1;
      proc := new Slot[NPROC](_ => Slot(Unused, NONE, 0, Nothing, false));
    }

    // The first unused slot, made an embryo; found is false if every slot is in use.
    method Allocproc() returns (found: bool, p: nat)
      requires proc.Length == NPROC
      modifies proc, `nextpid
      ensures found ==>
        && p < NPROC && old(proc[..])[p].state == Unused
        && (forall i :: 0 <= i < p ==> old(proc[..])[i].state != Unused)
        && proc[..] == old(proc[..])[p := old(proc[..])[p].(state := Embryo, pid := old(nextpid))]
        && nextpid == old(nextpid) + 1
      ensures !found ==>
        proc[..] == old(proc[..]) && nextpid == old(nextpid) && forall i :: 0 <= i < NPROC ==> proc[i].state != Unused
    {
      p := 0;
      while p < NPROC
        invariant p <= NPROC && forall i :: 0 <= i < p ==> proc[i].state != Unused
        invariant proc[..] == old(proc[..]) && nextpid == old(nextpid)
      {
        if proc[p].state == Unused {
          proc[p] := proc[p].(state := Embryo);
          proc[p] := proc[p].(pid := nextpid);
          nextpid := nextpid + 1;
          return true, p;
        }
        p := p + 1;
      }
      return false, 0;
    }

    method Wakeup1(chan: Chan)
      requires proc.Length == NPROC
      modifies proc
      ensures proc[..] == AllWoken(old(proc[..]), chan)
      ensures Wakes(old(proc[..]), proc[..], chan)
    {
      AllWokenIs(proc[..], chan);
      hide Wakes;
      var p := 0;
      while p < NPROC
        invariant 0 <= p <= NPROC
        invariant forall i :: 0 <= i < NPROC ==> proc[i] == if i < p then Woken(old(proc[i]), chan) else old(proc[i])
      {
        if proc[p].state == Sleeping && proc[p].chan == chan {
          proc[p] := proc[p].(state := Runnable);
        }
        p := p + 1;
      }
    }

    // exit, from where it takes the lock.
    method Exit(cur: nat)
      requires proc.Length == NPROC && cur < NPROC && cur != initproc && proc[cur].state == Running
      modifies proc
      ensures proc[..] == ExitSlots(old(proc[..]), cur, initproc)
    {
      ghost var ps := proc[..];
      var parent := proc[cur].parent;
      Wakeup1(OnProc(parent));
      var p := 0;
      while p < NPROC
        invariant 0 <= p <= NPROC
        invariant forall i :: 0 <= i < NPROC ==>
          proc[i] == if i < p then Passed(ps[i], cur, parent, initproc, ZombieAmong(ps, cur, p))
                     else if ZombieAmong(ps, cur, p) then Woken(Woken(ps[i], OnProc(parent)), OnProc(initproc))
                     else Woken(ps[i], OnProc(parent))
      {
        if proc[p].parent == cur {
          proc[p] := proc[p].(parent := initproc);
          if proc[p].state == Zombie {
            Wakeup1(OnProc(initproc));
          }
        }
        p := p + 1;
      }
      proc[cur] := proc[cur].(state := Zombie);
    }

    // wait, from where it takes the lock until it releases it or sleeps.
    method Wait(cur: nat) returns (r: Waited)
      requires proc.Length == NPROC && cur < NPROC
      modifies proc
      ensures WaitDone(old(proc[..]), proc[..], cur, r)
    {
      ghost var ps := proc[..];
      var havekids := false;
      var p := 0;
      while p < NPROC
        invariant 0 <= p <= NPROC && proc[..] == ps
        invariant havekids <==> exists i :: 0 <= i < p && ps[i].parent == cur
        invariant forall k :: 0 <= k < p ==> !ZombieChild(ps, cur, k)
      {
        if proc[p].parent == cur {
          havekids := true;
          if proc[p].state == Zombie {
            var pid := proc[p].pid;
            proc[p] := proc[p].(pid := 0, parent := NONE);
            proc[p] := proc[p].(killed := false, state := Unused);
            assert ZombieChild(ps, cur, p);
            return Reaped(pid);
          }
        }
        p := p + 1;
      }
      assert forall k :: 0 <= k < NPROC ==> !ZombieChild(ps, cur, k);
      if !havekids || proc[cur].killed {
        return NoChild;
      }
      proc[cur] := proc[cur].(chan := OnProc(cur), state := Sleeping);
      return Asleep;
    }
  }
}
