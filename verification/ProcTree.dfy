/** Every interleaving of fork, exit, wait, sleep, wakeup and kill on the process table: the
    parent links are a tree, and no process sleeps in wait for nothing. */
module ProcTree {
  import opened Params
  import opened Procs

  // forking[c] is the slot that c has allocated in a fork it has not finished, or NONE;
  // born[i] says when slot i was allocated, and init is the first process.
  datatype Sys = Sys(ps: seq<Slot>, forking: seq<nat>, born: seq<nat>, clock: nat, init: nat, nextpid: int)

  // A step is a stretch of code under ptable.lock, or one assignment of fork without it.
  datatype Event =
    | ForkAlloc(cur: nat)
    | ForkFail(cur: nat)              // no memory for the stack or the pages
    | ForkLink(cur: nat)              // np->parent = curproc
    | ForkReady(cur: nat)
    | Exit(cur: nat)
    | Wait(cur: nat)
    | SleepOn(cur: nat, addr: nat)
    | Wakeup(addr: nat)
    | Kill(slot: nat)
    | Dispatch(slot: nat)
    | Yield(cur: nat)

  predicate Alive(p: Slot) {
    p.state == Sleeping || p.state == Runnable || p.state == Running
  }

  // The first process, set up by userinit.
  function Boot(): Sys {
    Sys(seq(NPROC, i =>
          if i == 0 then Slot(Runnable, NONE, 1, Nothing, false) else Slot(Unused, NONE, 0, Nothing, false)),
        seq(NPROC, _ => NONE), seq(NPROC, _ => 0), 1, 0, 2)
  }

  // ---- the invariant ----------------------------------------------------

  predicate Shape(s: Sys) {
    |s.ps| == |s.forking| == |s.born| == NPROC && s.init < NPROC
  }

  // Every process but init has a parent, which is alive and older, or is still being
  // forked; init has none and is the oldest.
  ghost predicate Tree(s: Sys)
    requires Shape(s)
  {
    && Alive(s.ps[s.init]) && s.ps[s.init].parent == NONE && s.born[s.init] < s.clock
    && (forall i :: 0 <= i < NPROC ==> Placed(s, i))
    && (forall i, p :: 0 <= i < NPROC && 0 <= p < NPROC && s.ps[i].parent == p ==>
          Alive(s.ps[p]) && s.born[p] < s.born[i])
  }

  predicate Placed(s: Sys, i: nat)
    requires Shape(s) && i < NPROC
  {
    && s.ps[i].parent <= NONE
    && (s.ps[i].state == Unused ==> s.ps[i].parent == NONE)
    && (s.ps[i].state != Unused && i != s.init ==>
          s.born[s.init] < s.born[i] < s.clock && (s.ps[i].state != Embryo ==> s.ps[i].parent != NONE))
  }

  // A process that is forking owns its embryo,
  ghost predicate Owner(s: Sys, c: nat)
    requires Shape(s) && c < NPROC
  {
    s.forking[c] < NPROC ==>
      var n := s.forking[c];
      && s.ps[n].state == Embryo && (s.ps[c].state == Runnable || s.ps[c].state == Running)
      && (s.ps[n].parent == NONE || s.ps[n].parent == c) && s.born[c] < s.born[n]
  }

  // and no two processes own the same.
  ghost predicate Distinct(forking: seq<nat>) {
    forall c, d :: 0 <= c < d < |forking| && forking[c] < NPROC ==> forking[c] != forking[d]
  }

  ghost predicate Owners(s: Sys)
    requires Shape(s)
  {
    (forall c :: 0 <= c < NPROC ==> Owner(s, c)) && Distinct(s.forking)
  }

  // Every embryo is being forked, by its parent if it has one already.
  ghost predicate Embryos(s: Sys)
    requires Shape(s)
  {
    && (forall i, p :: 0 <= i < NPROC && 0 <= p < NPROC && s.ps[i].state == Embryo && s.ps[i].parent == p ==>
          s.forking[p] == i)
    && (forall i :: 0 <= i < NPROC && s.ps[i].state == Embryo ==> Forked(s, i))
  }

  ghost predicate Forked(s: Sys, i: nat)
    requires Shape(s)
  {
    exists c :: 0 <= c < NPROC && s.forking[c] == i
  }

  ghost predicate Forks(s: Sys)
    requires Shape(s)
  {
    Owners(s) && Embryos(s)
  }

  predicate InWait(s: Sys, i: nat)
    requires Shape(s) && i < NPROC
  {
    s.ps[i].state == Sleeping && s.ps[i].chan.OnProc?
  }

  predicate HasChild(s: Sys, i: nat)
    requires Shape(s)
  {
    exists k :: 0 <= k < NPROC && s.ps[k].parent == i
  }

  predicate NoZombie(s: Sys, i: nat)
    requires Shape(s)
  {
    forall k :: 0 <= k < NPROC && s.ps[k].parent == i ==> s.ps[k].state != Zombie
  }

  predicate Attended(s: Sys, i: nat)
    requires Shape(s) && i < NPROC
  {
    s.ps[i].chan == OnProc(i) && HasChild(s, i) && NoZombie(s, i)
  }

  // Who sleeps in wait sleeps on itself, has a child, and no child that has exited.
  ghost predicate Waiters(s: Sys)
    requires Shape(s)
  {
    forall i :: 0 <= i < NPROC && InWait(s, i) ==> Attended(s, i)
  }

  ghost predicate Inv(s: Sys) {
    Shape(s) && Tree(s) && Forks(s) && Waiters(s)
  }

  // ---- steps ------------------------------------------------------------

  predicate FirstUnused(ps: seq<Slot>, i: nat) {
    i < |ps| && ps[i].state == Unused && forall k :: 0 <= k < i ==> ps[k].state != Unused
  }

  predicate Free(s: Sys, cur: nat)
    requires Shape(s)
  {
    cur < NPROC && s.ps[cur].state == Running && s.forking[cur] == NONE
  }

  // allocproc has taken slot np for cur.
  ghost predicate Allocated(s: Sys, t: Sys, cur: nat, np: nat)
    requires Shape(s) && cur < NPROC
  {
    && FirstUnused(s.ps, np) && np < |t.ps|
    && t == s.(ps := s.ps[np := s.ps[np].(state := Embryo, pid := s.nextpid)], forking := s.forking[cur := np],
               born := s.born[np := s.clock], clock := s.clock + 1, nextpid := s.nextpid + 1)
  }

  // s may become t by e.
  ghost predicate Step(s: Sys, e: Event, t: Sys)
    requires Shape(s)
  {
    match e
    case ForkAlloc(cur) =>
      Free(s, cur) && exists np: nat :: Allocated(s, t, cur, np)
    case ForkFail(cur) =>
      && cur < NPROC && s.ps[cur].state == Running && s.forking[cur] < NPROC && s.ps[s.forking[cur]].parent == NONE
      && t == s.(ps := s.ps[s.forking[cur] := s.ps[s.forking[cur]].(state := Unused)],
        forking := s.forking[cur := NONE])
    case ForkLink(cur) =>
      && cur < NPROC && s.ps[cur].state == Running && s.forking[cur] < NPROC
      && t == s.(ps := s.ps[s.forking[cur] := s.ps[s.forking[cur]].(parent := cur)])
    case ForkReady(cur) =>
      && cur < NPROC && s.ps[cur].state == Running && s.forking[cur] < NPROC && s.ps[s.forking[cur]].parent == cur
      && t == s.(ps := s.ps[s.forking[cur] := s.ps[s.forking[cur]].(state := Runnable)],
        forking := s.forking[cur := NONE])
    case Exit(cur) =>
      Free(s, cur) && cur != s.init && t == s.(ps := ExitSlots(s.ps, cur, s.init))
    case Wait(cur) =>
      Free(s, cur) && exists r :: WaitDone(s.ps, t.ps, cur, r) && t == s.(ps := t.ps)
    case SleepOn(cur, addr) =>
      Free(s, cur) && t == s.(ps := s.ps[cur := s.ps[cur].(state := Sleeping, chan := Other(addr))])
    case Wakeup(addr) =>
      t == s.(ps := AllWoken(s.ps, Other(addr)))
    case Kill(i) =>
      && i < NPROC
      && t == s.(ps := s.ps[i := s.ps[i].(killed := true,
        state := if s.ps[i].state == Sleeping then Runnable else s.ps[i].state)])
    case Dispatch(i) =>
      i < NPROC && s.ps[i].state == Runnable && t == s.(ps := s.ps[i := s.ps[i].(state := Running)])
    case Yield(cur) =>
      cur < NPROC && s.ps[cur].state == Running && t == s.(ps := s.ps[cur := s.ps[cur].(state := Runnable)])
  }

  // ---- what each step keeps ---------------------------------------------

  // Processes have stopped or started running, woken up or gone to sleep.
  ghost predicate OnlyStates(s: Sys, t: Sys)
    requires Shape(s)
  {
    && Shape(t) && t == s.(ps := t.ps)
    && forall i :: 0 <= i < NPROC ==>
         && t.ps[i].parent == s.ps[i].parent
         && (t.ps[i].state == s.ps[i].state || (Alive(t.ps[i]) && Alive(s.ps[i])))
         && (t.ps[i].state == Sleeping ==> s.ps[i].state == Sleeping || s.forking[i] == NONE)
  }

  lemma OnlyStatesInv(s: Sys, t: Sys)
    requires Inv(s) && OnlyStates(s, t)
    requires forall i :: 0 <= i < NPROC && InWait(t, i) ==> InWait(s, i) && t.ps[i].chan == s.ps[i].chan
    ensures Inv(t)
  {
    OnlyStatesTree(s, t);
    OnlyStatesForks(s, t);
    hide Tree, Forks;
    forall i | 0 <= i < NPROC && InWait(t, i)
      ensures Attended(t, i)
    {
      assert Attended(s, i);
      SameChildren(s, t, i);
    }
  }

  lemma SameChildren(s: Sys, t: Sys, i: nat)
    requires Shape(s) && OnlyStates(s, t) && i < NPROC
    ensures HasChild(t, i) <==> HasChild(s, i)
    ensures NoZombie(t, i) <==> NoZombie(s, i)
  {
    if k :| 0 <= k < NPROC && s.ps[k].parent == i {
      assert t.ps[k].parent == i;
    }
  }

  lemma OnlyStatesTree(s: Sys, t: Sys)
    requires Inv(s) && OnlyStates(s, t)
    ensures Tree(t)
  {
    hide Forks, Waiters, InWait;
    forall i | 0 <= i < NPROC
      ensures Placed(t, i)
    {
      assert Placed(s, i);
    }
  }

  lemma OnlyStatesForks(s: Sys, t: Sys)
    requires Inv(s) && OnlyStates(s, t)
    ensures Forks(t)
  {
    hide Tree, Waiters, InWait;
    forall c | 0 <= c < NPROC
      ensures Owner(t, c)
    {
      assert Owner(s, c);
    }
    EmbryosKept(s, t);
  }

  lemma EmbryosKept(s: Sys, t: Sys)
    requires Shape(s) && Embryos(s) && Shape(t) && t == s.(ps := t.ps)
    requires forall i :: 0 <= i < NPROC && t.ps[i].state == Embryo ==>
      s.ps[i].state == Embryo && t.ps[i].parent == s.ps[i].parent
    ensures Embryos(t)
  {
    forall i | 0 <= i < NPROC && t.ps[i].state == Embryo
      ensures Forked(t, i)
    {
      assert Forked(s, i);
    }
  }

  // A slot that is nobody's child, and no waiter, changes.
  ghost predicate OneSlot(s: Sys, t: Sys, n: nat)
    requires Shape(s)
  {
    && Shape(t) && n < NPROC && t.init == s.init && n != s.init
    && (forall i :: 0 <= i < NPROC && i != n ==> t.ps[i] == s.ps[i] && t.born[i] == s.born[i])
    && s.ps[n].state != Sleeping && t.ps[n].state != Sleeping && s.clock <= t.clock
  }

  lemma OneSlotWaiters(s: Sys, t: Sys, n: nat)
    requires Shape(s) && Waiters(s) && OneSlot(s, t, n)
    requires s.ps[n].parent == NONE || s.ps[n].parent == t.ps[n].parent
    requires t.ps[n].state == Zombie ==> t.ps[n].parent == NONE
    ensures Waiters(t)
  {
    forall i | 0 <= i < NPROC && InWait(t, i)
      ensures Attended(t, i)
    {
      assert InWait(s, i) && Attended(s, i);
      var k :| 0 <= k < NPROC && s.ps[k].parent == i;
      assert t.ps[k].parent == i;
    }
  }

  lemma OneSlotTree(s: Sys, t: Sys, n: nat)
    requires Shape(s) && Tree(s) && OneSlot(s, t, n) && !Alive(s.ps[n]) && Placed(t, n)
    requires t.ps[n].parent < NPROC ==> Alive(s.ps[t.ps[n].parent]) && s.born[t.ps[n].parent] < t.born[n]
    ensures Tree(t)
  {
    forall i | 0 <= i < NPROC
      ensures Placed(t, i)
    {
      assert Placed(s, i);
    }
  }

  // Process cur takes slot n, fills it, or lets go of it.
  lemma OneSlotForks(s: Sys, t: Sys, cur: nat, n: nat)
    requires Shape(s) && OneSlot(s, t, n) && cur < NPROC && cur != n
    requires t.forking == s.forking[cur := t.forking[cur]] && (t.forking[cur] == n || t.forking[cur] == NONE)
    requires s.ps[cur].state == Running && s.born[cur] < t.born[n]
    requires t.ps[n].state == Embryo <==> t.forking[cur] == n
    requires t.ps[n].state == Embryo ==> t.ps[n].parent == NONE || t.ps[n].parent == cur
    requires Forks(s) && (s.forking[cur] == n || (s.forking[cur] == NONE && s.ps[n].state == Unused))
    ensures Forks(t)
  {
    hide Owners, Embryos;
    NoOtherOwner(s, cur, n);
    OneSlotOwners(s, t, cur, n);
    OneSlotEmbryos(s, t, cur, n);
  }

  lemma NoOtherOwner(s: Sys, cur: nat, n: nat)
    requires Shape(s) && Owners(s) && cur < NPROC && n < NPROC
    requires s.forking[cur] == n || (s.forking[cur] == NONE && s.ps[n].state == Unused)
    ensures forall c :: 0 <= c < NPROC && c != cur ==> s.forking[c] != n
    ensures !Alive(s.ps[n])
  {
    assert Owner(s, cur);
    forall c | 0 <= c < NPROC && c != cur
      ensures s.forking[c] != n
    {
      assert Owner(s, c);
    }
  }

  lemma OneSlotOwners(s: Sys, t: Sys, cur: nat, n: nat)
    requires Shape(s) && OneSlot(s, t, n) && cur < NPROC && cur != n
    requires t.forking == s.forking[cur := t.forking[cur]] && (t.forking[cur] == n || t.forking[cur] == NONE)
    requires s.ps[cur].state == Running && s.born[cur] < t.born[n]
    requires t.ps[n].state == Embryo <==> t.forking[cur] == n
    requires t.ps[n].state == Embryo ==> t.ps[n].parent == NONE || t.ps[n].parent == cur
    requires forall c :: 0 <= c < NPROC && c != cur ==> s.forking[c] != n
    requires s.forking[cur] == n || s.forking[cur] == NONE
    requires Owners(s) && !Alive(s.ps[n])
    ensures Owners(t)
  {
    forall c | 0 <= c < NPROC
      ensures Owner(t, c)
    {
      assert Owner(s, c);
    }
  }

  lemma OneSlotEmbryos(s: Sys, t: Sys, cur: nat, n: nat)
    requires Shape(s) && OneSlot(s, t, n) && cur < NPROC && cur != n
    requires t.forking == s.forking[cur := t.forking[cur]] && (t.forking[cur] == n || t.forking[cur] == NONE)
    requires s.ps[cur].state == Running && s.born[cur] < t.born[n]
    requires t.ps[n].state == Embryo <==> t.forking[cur] == n
    requires t.ps[n].state == Embryo ==> t.ps[n].parent == NONE || t.ps[n].parent == cur
    requires forall c :: 0 <= c < NPROC && c != cur ==> s.forking[c] != n
    requires s.forking[cur] == n || s.forking[cur] == NONE
    requires Embryos(s)
    ensures Embryos(t)
  {
    forall i, p | 0 <= i < NPROC && 0 <= p < NPROC && t.ps[i].state == Embryo && t.ps[i].parent == p
      ensures t.forking[p] == i
    {
      assert i != n ==> s.forking[p] == i;
    }
    forall i | 0 <= i < NPROC && t.ps[i].state == Embryo
      ensures Forked(t, i)
    {
      if i == n {
        assert t.forking[cur] == i;
      } else {
        assert Forked(s, i);
        var c :| 0 <= c < NPROC && s.forking[c] == i;
        assert t.forking[c] == i;
      }
    }
  }

  lemma ForkFacts(s: Sys, cur: nat)
    requires Shape(s) && Tree(s) && Forks(s) && cur < NPROC && s.forking[cur] < NPROC
    ensures var n := s.forking[cur];
      && s.ps[n].state == Embryo && n != cur && n != s.init && s.born[cur] < s.born[n]
      && (s.ps[n].parent == NONE || s.ps[n].parent == cur)
  {
    assert Owner(s, cur);
  }

  lemma AllocInv(s: Sys, t: Sys, cur: nat, np: nat)
    requires Inv(s) && Free(s, cur) && Allocated(s, t, cur, np)
    ensures Inv(t)
  {
    hide Tree, Forks, Waiters;
    TreeAt(s, np);
    TreeAt(s, cur);
    OneSlotForks(s, t, cur, np);
    OneSlotWaiters(s, t, np);
    OneSlotTree(s, t, np);
  }

  lemma TreeAt(s: Sys, i: nat)
    requires Shape(s) && Tree(s) && i < NPROC
    ensures Placed(s, i) && Alive(s.ps[s.init]) && s.ps[s.init].parent == NONE && s.born[s.init] < s.clock
    ensures s.ps[i].parent < NPROC ==> Alive(s.ps[s.ps[i].parent]) && s.born[s.ps[i].parent] < s.born[i]
  {
    assert Placed(s, i);
  }

  lemma ForkFailInv(s: Sys, t: Sys, cur: nat)
    requires Inv(s) && Step(s, ForkFail(cur), t)
    ensures Inv(t)
  {
    hide Tree, Forks, Waiters;
    TreeAt(s, s.forking[cur]);
    ForkFacts(s, cur);
    OneSlotForks(s, t, cur, s.forking[cur]);
    OneSlotWaiters(s, t, s.forking[cur]);
    OneSlotTree(s, t, s.forking[cur]);
  }

  lemma ForkLinkInv(s: Sys, t: Sys, cur: nat)
    requires Inv(s) && Step(s, ForkLink(cur), t)
    ensures Inv(t)
  {
    hide Tree, Forks, Waiters;
    TreeAt(s, s.forking[cur]);
    ForkFacts(s, cur);
    OneSlotForks(s, t, cur, s.forking[cur]);
    OneSlotWaiters(s, t, s.forking[cur]);
    OneSlotTree(s, t, s.forking[cur]);
  }

  lemma ForkReadyInv(s: Sys, t: Sys, cur: nat)
    requires Inv(s) && Step(s, ForkReady(cur), t)
    ensures Inv(t)
  {
    hide Tree, Forks, Waiters;
    TreeAt(s, s.forking[cur]);
    ForkFacts(s, cur);
    OneSlotForks(s, t, cur, s.forking[cur]);
    OneSlotWaiters(s, t, s.forking[cur]);
    OneSlotTree(s, t, s.forking[cur]);
  }

  // ---- exit -------------------------------------------------------------

  lemma ExitSlot(s: Sys, cur: nat, i: nat)
    requires Shape(s) && cur < NPROC && i < NPROC
    ensures var q, zombie := ExitSlots(s.ps, cur, s.init)[i], ZombieAmong(s.ps, cur, NPROC);
      && q.parent == (if s.ps[i].parent == cur then s.init else s.ps[i].parent) && q.chan == s.ps[i].chan
      && (i == cur ==> q.state == Zombie)
      && (i != cur ==> q.state == s.ps[i].state || (s.ps[i].state == Sleeping && q.state == Runnable))
      && (i != cur && q.state == Sleeping ==>
            s.ps[i].chan != OnProc(s.ps[cur].parent) && (zombie ==> s.ps[i].chan != OnProc(s.init)))
  {
  }

  lemma ExitTree(s: Sys, t: Sys, cur: nat)
    requires Inv(s) && Step(s, Exit(cur), t)
    ensures Tree(t)
  {
    hide Forks, Waiters, ExitSlots, ZombieAmong;
    ExitSlot(s, cur, s.init);
    forall i | 0 <= i < NPROC
      ensures Placed(t, i)
      ensures t.ps[i].parent < NPROC ==> Alive(t.ps[t.ps[i].parent]) && t.born[t.ps[i].parent] < t.born[i]
    {
      ExitSlot(s, cur, i);
      TreeAt(s, i);
      if s.ps[i].parent < NPROC {
        ExitSlot(s, cur, s.ps[i].parent);
      }
    }
  }

  lemma ExitForks(s: Sys, t: Sys, cur: nat)
    requires Inv(s) && Step(s, Exit(cur), t)
    ensures Forks(t)
  {
    hide Tree, Waiters, ExitSlots, ZombieAmong;
    forall c | 0 <= c < NPROC
      ensures Owner(t, c)
    {
      assert Owner(s, c);
      ExitSlot(s, cur, c);
      if s.forking[c] < NPROC {
        ExitSlot(s, cur, s.forking[c]);
      }
    }
    forall i | 0 <= i < NPROC && t.ps[i].state == Embryo
      ensures s.ps[i].state == Embryo && t.ps[i].parent == s.ps[i].parent
    {
      ExitSlot(s, cur, i);
      assert s.ps[i].parent != cur;
    }
    EmbryosKept(s, t);
  }

  lemma ExitWaiters(s: Sys, t: Sys, cur: nat)
    requires Inv(s) && Step(s, Exit(cur), t)
    ensures Waiters(t)
  {
    hide Tree, Forks, ExitSlots;
    TreeAt(s, cur);
    forall i | 0 <= i < NPROC && InWait(t, i)
      ensures Attended(t, i)
    {
      ExitSlot(s, cur, i);
      assert InWait(s, i) && Attended(s, i);
      var k :| 0 <= k < NPROC && s.ps[k].parent == i;
      ExitSlot(s, cur, k);
      forall k | 0 <= k < NPROC && t.ps[k].parent == i
        ensures t.ps[k].state != Zombie
      {
        ExitSlot(s, cur, k);
      }
    }
  }

  lemma ExitInv(s: Sys, t: Sys, cur: nat)
    requires Inv(s) && Step(s, Exit(cur), t)
    ensures Inv(t)
  {
    ExitTree(s, t, cur);
    ExitForks(s, t, cur);
    ExitWaiters(s, t, cur);
  }

  // ---- wait -------------------------------------------------------------

  lemma ReapTree(s: Sys, t: Sys, i: nat)
    requires Shape(s) && Tree(s) && i < NPROC && s.ps[i].state == Zombie
    requires t == s.(ps := s.ps[i := Slot(Unused, NONE, 0, s.ps[i].chan, false)])
    ensures Tree(t)
  {
    forall k | 0 <= k < NPROC
      ensures Placed(t, k)
    {
      assert Placed(s, k);
    }
  }

  lemma ReapForks(s: Sys, t: Sys, i: nat)
    requires Shape(s) && Tree(s) && Forks(s) && i < NPROC && s.ps[i].state == Zombie
    requires t == s.(ps := s.ps[i := Slot(Unused, NONE, 0, s.ps[i].chan, false)])
    ensures Forks(t)
  {
    hide Tree;
    forall c | 0 <= c < NPROC
      ensures Owner(t, c)
    {
      assert Owner(s, c);
    }
    EmbryosKept(s, t);
  }

  lemma ReapWaiters(s: Sys, t: Sys, cur: nat, i: nat)
    requires Shape(s) && Waiters(s) && cur < NPROC && s.ps[cur].state == Running && ZombieChild(s.ps, cur, i)
    requires t == s.(ps := s.ps[i := Slot(Unused, NONE, 0, s.ps[i].chan, false)])
    ensures Waiters(t)
  {
    forall j | 0 <= j < NPROC && InWait(t, j)
      ensures Attended(t, j)
    {
      assert InWait(s, j) && Attended(s, j) && j != cur;
      var k :| 0 <= k < NPROC && s.ps[k].parent == j;
      assert t.ps[k].parent == j;
    }
  }

  // Nobody waits without a child, or beside a child that has exited already.
  lemma SleepInWait(s: Sys, t: Sys, cur: nat)
    requires Inv(s) && Free(s, cur) && t == s.(ps := t.ps) && WaitDone(s.ps, t.ps, cur, Asleep)
    ensures Inv(t)
  {
    assert OnlyStates(s, t);
    OnlyStatesTree(s, t);
    OnlyStatesForks(s, t);
    hide Tree, Forks;
    assert HasChild(s, cur);
    assert NoZombie(s, cur) by {
      forall k | 0 <= k < NPROC && s.ps[k].parent == cur
        ensures s.ps[k].state != Zombie
      {
        assert !ZombieChild(s.ps, cur, k);
      }
    }
    forall i | 0 <= i < NPROC && InWait(t, i)
      ensures Attended(t, i)
    {
      SameChildren(s, t, i);
      assert i != cur ==> InWait(s, i) && Attended(s, i);
    }
  }

  lemma WaitInv(s: Sys, t: Sys, cur: nat)
    requires Inv(s) && Step(s, Wait(cur), t)
    ensures Inv(t)
  {
    hide Tree, Forks, Waiters;
    var r :| WaitDone(s.ps, t.ps, cur, r) && t == s.(ps := t.ps);
    match r
    case Reaped(pid) =>
      var i: nat :| ZombieChild(s.ps, cur, i) && pid == s.ps[i].pid
        && t.ps == s.ps[i := Slot(Unused, NONE, 0, s.ps[i].chan, false)];
      ReapTree(s, t, i);
      ReapForks(s, t, i);
      ReapWaiters(s, t, cur, i);
    case NoChild =>
      assert t == s;
    case Asleep =>
      SleepInWait(s, t, cur);
  }

  // ---- every run --------------------------------------------------------

  lemma StepInv(s: Sys, e: Event, t: Sys)
    requires Inv(s) && Step(s, e, t)
    ensures Inv(t)
  {
    match e
    case ForkAlloc(cur) =>
      var np: nat :| Allocated(s, t, cur, np);
      AllocInv(s, t, cur, np);
    case ForkFail(cur) => ForkFailInv(s, t, cur);
    case ForkLink(cur) => ForkLinkInv(s, t, cur);
    case ForkReady(cur) => ForkReadyInv(s, t, cur);
    case Exit(cur) => ExitInv(s, t, cur);
    case Wait(cur) => WaitInv(s, t, cur);
    case SleepOn(_, _) => StateStep(s, e, t);
    case Wakeup(_) => StateStep(s, e, t);
    case Kill(_) => StateStep(s, e, t);
    case Dispatch(_) => StateStep(s, e, t);
    case Yield(_) => StateStep(s, e, t);
  }

  lemma StateStep(s: Sys, e: Event, t: Sys)
    requires Inv(s) && Step(s, e, t) && (e.SleepOn? || e.Wakeup? || e.Kill? || e.Dispatch? || e.Yield?)
    ensures Inv(t)
  {
    assert OnlyStates(s, t) && forall i :: 0 <= i < NPROC && InWait(t, i) ==>
      InWait(s, i) && t.ps[i].chan == s.ps[i].chan by {
      hide Tree, Forks, Waiters;
    }
    OnlyStatesInv(s, t);
  }

  // The states of a run, oldest first, and the events between them.
  ghost predicate Run(states: seq<Sys>, events: seq<Event>) {
    && |states| == |events| + 1 && states[0] == Boot()
    && forall k :: 0 <= k < |events| ==> Shape(states[k]) && Step(states[k], events[k], states[k + 1])
  }

  lemma BootInv()
    ensures Inv(Boot())
  {
    var s := Boot();
    assert s.ps[0] == Slot(Runnable, NONE, 1, Nothing, false);
    assert forall i :: 0 < i < NPROC ==> s.ps[i].state == Unused;
    assert forall i :: 0 <= i < NPROC ==> Placed(s, i) && Owner(s, i);
  }

  lemma {:induction false} RunInv(states: seq<Sys>, events: seq<Event>, k: nat)
    requires Run(states, events) && k < |states|
    ensures Inv(states[k])
  {
    hide Inv, Step, Boot;
    if k == 0 {
      BootInv();
    } else {
      RunInv(states, events, k - 1);
      StepInv(states[k - 1], events[k - 1], states[k]);
    }
  }

  // ---- process numbers --------------------------------------------------

  // A process has a number of its own, given out once.
  ghost predicate Pids(s: Sys)
    requires Shape(s)
  {
    && (forall i :: 0 <= i < NPROC && s.ps[i].state != Unused ==> 0 < s.ps[i].pid < s.nextpid)
    && (forall i, j :: 0 <= i < j < NPROC && s.ps[i].state != Unused && s.ps[j].state != Unused ==>
          s.ps[i].pid != s.ps[j].pid)
  }

  // The processes that there are were there before, under the same numbers.
  ghost predicate SamePids(s: Sys, t: Sys)
    requires Shape(s) && Shape(t)
  {
    && t.nextpid == s.nextpid
    && forall i :: 0 <= i < NPROC && t.ps[i].state != Unused ==>
         s.ps[i].state != Unused && t.ps[i].pid == s.ps[i].pid
  }

  lemma StepSamePids(s: Sys, e: Event, t: Sys)
    requires Inv(s) && Step(s, e, t) && !e.ForkAlloc? && Shape(t)
    ensures SamePids(s, t)
  {
    hide Tree, Waiters, Embryos;
    match e
    case Exit(cur) =>
      forall i | 0 <= i < NPROC
        ensures t.ps[i].pid == s.ps[i].pid && (t.ps[i].state == Unused <==> s.ps[i].state == Unused)
      {
        ExitSlotIs(s.ps, cur, s.init, i);
      }
    case Wait(cur) =>
      var r :| WaitDone(s.ps, t.ps, cur, r) && t == s.(ps := t.ps);
    case Wakeup(addr) => AllWokenIs(s.ps, Other(addr));
    case ForkReady(cur) => assert Owner(s, cur);
    case ForkLink(cur) => assert Owner(s, cur);
    case _ =>
  }

  lemma AllocPids(s: Sys, t: Sys, cur: nat, np: nat)
    requires Shape(s) && Shape(t) && Pids(s) && cur < NPROC && Allocated(s, t, cur, np) && 0 < s.nextpid
    ensures Pids(t)
  {
  }

  // No step gives a process another number, nor a number to a second process.
  lemma StepPids(s: Sys, e: Event, t: Sys)
    requires Inv(s) && Pids(s) && 0 < s.nextpid && Step(s, e, t)
    ensures Shape(t) && Pids(t) && s.nextpid <= t.nextpid
    ensures forall i :: 0 <= i < NPROC && s.ps[i].state != Unused && t.ps[i].state != Unused ==>
      t.ps[i].pid == s.ps[i].pid
  {
    StepShape(s, e, t);
    if e.ForkAlloc? {
      var np: nat :| Allocated(s, t, e.cur, np);
      AllocPids(s, t, e.cur, np);
    } else {
      StepSamePids(s, e, t);
    }
    hide Inv, Step;
  }

  lemma {:induction false} RunPids(states: seq<Sys>, events: seq<Event>, k: nat)
    requires Run(states, events) && k < |states|
    ensures Shape(states[k]) && Pids(states[k]) && 0 < states[k].nextpid
  {
    if k == 0 {
      assert Boot().ps[0].pid == 1;
    } else {
      hide Inv, Step, Boot, Pids;
      RunInv(states, events, k - 1);
      RunPids(states, events, k - 1);
      StepPids(states[k - 1], events[k - 1], states[k]);
    }
  }

  // ---- sleep and wakeup -------------------------------------------------

  // wakeup leaves nobody asleep on its channel, and changes nothing else.
  lemma WakeupWakes(s: Sys, addr: nat, t: Sys)
    requires Shape(s) && Step(s, Wakeup(addr), t)
    ensures t == s.(ps := t.ps) && Wakes(s.ps, t.ps, Other(addr))
    ensures forall i :: 0 <= i < |t.ps| ==> !(t.ps[i].state == Sleeping && t.ps[i].chan == Other(addr))
  {
    AllWokenIs(s.ps, Other(addr));
  }

  // Nothing but that, or a kill, ends such a sleep.
  lemma SleepsOn(s: Sys, e: Event, t: Sys, i: nat, addr: nat)
    requires Inv(s) && Step(s, e, t) && i < NPROC && s.ps[i].state == Sleeping && s.ps[i].chan == Other(addr)
    ensures t.ps[i].state != Sleeping || t.ps[i].chan != Other(addr) <==> e == Wakeup(addr) || e == Kill(i)
    ensures e != Wakeup(addr) && e != Kill(i) ==> t.ps[i].killed == s.ps[i].killed && t.ps[i].pid == s.ps[i].pid
  {
    hide Tree, Waiters;
    StepShape(s, e, t);
    match e
    case Exit(cur) => ExitSlotIs(s.ps, cur, s.init, i);
    case Wait(cur) =>
      var r :| WaitDone(s.ps, t.ps, cur, r) && t == s.(ps := t.ps);
    case Wakeup(a) => AllWokenIs(s.ps, Other(a));
    case ForkLink(cur) => assert Owner(s, cur);
    case ForkFail(cur) => assert Owner(s, cur);
    case ForkReady(cur) => assert Owner(s, cur);
    case _ =>
  }

  lemma StepShape(s: Sys, e: Event, t: Sys)
    requires Inv(s) && Step(s, e, t)
    ensures Shape(t)
  {
    StepInv(s, e, t);
  }

  // kill marks one process and wakes it, wherever it sleeps; what it was in the middle of
  // stays as it was.
  lemma KillWakes(s: Sys, i: nat, t: Sys)
    requires Shape(s) && Step(s, Kill(i), t)
    ensures i < NPROC && |t.ps| == NPROC && t == s.(ps := t.ps) && t.ps[i].killed && t.ps[i].state != Sleeping
    ensures s.ps[i].state != Sleeping ==> t.ps[i].state == s.ps[i].state
    ensures s.ps[i].state == Sleeping ==> t.ps[i].state == Runnable
    ensures forall k :: 0 <= k < NPROC && k != i ==> t.ps[k] == s.ps[k]
  {
  }

  // A fork ends with one process more, a child of the forking process, ready to run, or
  // with none and its slot unused.
  lemma ForkEnds(s: Sys, e: Event, t: Sys)
    requires Inv(s) && Step(s, e, t) && (e.ForkReady? || e.ForkFail?)
    ensures var n := s.forking[e.cur];
      && n < NPROC && |t.ps| == |t.forking| == NPROC && t.forking[e.cur] == NONE && s.ps[n].state == Embryo
      && (forall k :: 0 <= k < NPROC && k != n ==> t.ps[k] == s.ps[k])
      && (e.ForkReady? ==> t.ps[n].state == Runnable && t.ps[n].parent == e.cur && t.ps[n].pid == s.ps[n].pid)
      && (e.ForkFail? ==> t.ps[n].state == Unused)
  {
    hide Tree, Waiters;
    assert Owner(s, e.cur);
  }

  // ---- what it means ----------------------------------------------------

  // The ancestors of a slot, nearest first.
  ghost function Ancestors(s: Sys, i: nat): seq<nat>
    requires Inv(s) && i < NPROC
    decreases s.born[i]
  {
    if s.ps[i].parent == NONE then []
    else
      TreeAt(s, i);
      [s.ps[i].parent] + Ancestors(s, s.ps[i].parent)
  }

  // In every state of every run, following parents from a process leads to init through
  // processes that are alive, in a line that does not come back to where it has been.
  lemma {:induction false} RootedAtInit(s: Sys, i: nat)
    requires Inv(s) && i < NPROC && s.ps[i].state != Unused && s.ps[i].state != Embryo
    ensures i != s.init ==> Ancestors(s, i) != [] && Ancestors(s, i)[|Ancestors(s, i)| - 1] == s.init
    ensures forall a :: a in Ancestors(s, i) ==> a < NPROC && Alive(s.ps[a]) && s.born[a] < s.born[i]
    decreases s.born[i]
  {
    TreeAt(s, i);
    if s.ps[i].parent != NONE {
      RootedAtInit(s, s.ps[i].parent);
    }
  }

  lemma {:induction false} AncestorsDistinct(s: Sys, i: nat, a: nat, b: nat)
    requires Inv(s) && i < NPROC && s.ps[i].state != Unused && s.ps[i].state != Embryo
    requires a < b < |Ancestors(s, i)|
    ensures Ancestors(s, i)[a] != Ancestors(s, i)[b] && Ancestors(s, i)[a] != i
    decreases s.born[i]
  {
    RootedAtInit(s, i);
    TreeAt(s, i);
    var p := s.ps[i].parent;
    RootedAtInit(s, p);
    if a == 0 {
      assert Ancestors(s, i)[b] == Ancestors(s, p)[b - 1];
    } else {
      AncestorsDistinct(s, p, a - 1, b - 1);
    }
  }

  // A process that has exited has no children, and the one that can reap it does not
  // sleep in wait.
  lemma ZombiesAreSeen(s: Sys, z: nat)
    requires Inv(s) && z < NPROC && s.ps[z].state == Zombie
    ensures !HasChild(s, z)
    ensures s.ps[z].parent < NPROC && Alive(s.ps[s.ps[z].parent]) && !InWait(s, s.ps[z].parent)
  {
    assert Placed(s, z);
  }
}
