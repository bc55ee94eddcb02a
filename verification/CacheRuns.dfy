/** Every interleaving of processes in the buffer cache: each call of bread claims a buffer,
    waits for its lock, reads if it must, and has the block until brelse. */
module CacheRuns {
  import opened Params
  import opened Blocks
  import opened BufferCache

  // A call on buffer i, for block n; a process may have several.
  datatype Call =
    | Idle
    | Waiting(i: nat, n: nat)  // in acquiresleep
    | Locking(i: nat, n: nat)  // has the lock, and has not returned from bread
    | Holding(i: nat, n: nat)
    | Leaving(i: nat, n: nat)  // in brelse, after releasesleep

  datatype Sys = Sys(cache: Cache, calls: seq<Call>)

  datatype Event =
    | Claim(k: nat, n: nat)
    | Acquire(k: nat)
    | Finish(k: nat)
    | Change(k: nat, data: Block)
    | LogWrite(k: nat)
    | Write(k: nat)
    | Unlocking(k: nat)
    | Release(k: nat)

  function Init(d: Disk, ncalls: nat): Sys {
    Sys(Boot(d), seq(ncalls, _ => Idle))
  }

  predicate On(c: Call, i: nat) {
    !c.Idle? && c.i == i
  }

  predicate Locks(c: Call, i: nat) {
    (c.Locking? || c.Holding?) && c.i == i
  }

  // How many calls have claimed buffer i.
  ghost function Claims(calls: seq<Call>, i: nat): nat {
    if calls == [] then 0 else Claims(calls[..|calls| - 1], i) + if On(calls[|calls| - 1], i) then 1 else 0
  }

  lemma {:induction false} ClaimsUpdate(calls: seq<Call>, k: nat, c: Call, i: nat)
    requires k < |calls|
    ensures Claims(calls[k := c], i) + (if On(calls[k], i) then 1 else 0)
      == Claims(calls, i) + if On(c, i) then 1 else 0
  {
    var r := calls[k := c];
    if k < |calls| - 1 {
      assert r[..|r| - 1] == calls[..|calls| - 1][k := c];
      ClaimsUpdate(calls[..|calls| - 1], k, c, i);
    } else {
      assert r[..|r| - 1] == calls[..|calls| - 1];
    }
  }

  lemma {:induction false} ClaimsNone(n: nat, i: nat)
    ensures Claims(seq(n, _ => Idle), i) == 0
  {
    if n > 0 {
      assert seq(n, _ => Idle)[..n - 1] == seq(n - 1, _ => Idle);
      ClaimsNone(n - 1, i);
    }
  }

  lemma {:induction false} ClaimsSome(calls: seq<Call>, k: nat, i: nat)
    requires k < |calls| && On(calls[k], i)
    ensures Claims(calls, i) > 0
  {
    if k < |calls| - 1 {
      assert calls[..|calls| - 1][k] == calls[k];
      ClaimsSome(calls[..|calls| - 1], k, i);
    }
  }

  // ---- the invariant ----------------------------------------------------

  // A call's buffer is its block's; it is valid when bread has returned, and shows the
  // latest contents when it has just been locked.
  ghost predicate CallOk(c: Cache, call: Call)
    requires |c.buf| == NBUF
  {
    !call.Idle? ==>
      && call.i < NBUF && Holds(c.buf[call.i], call.n) && call.n < |c.view|
      && (Locks(call, call.i) ==> c.buf[call.i].locked)
      && (call.Holding? ==> c.buf[call.i].valid)
      && (call.Locking? && c.buf[call.i].valid ==> c.buf[call.i].data == c.view[call.n])
  }

  // The reference counts are the numbers of claims; a lock has exactly one holder.
  ghost predicate Counted(s: Sys)
    requires |s.cache.buf| == NBUF
  {
    forall i :: 0 <= i < NBUF ==> s.cache.buf[i].refcnt == Claims(s.calls, i)
  }

  ghost predicate OneHolder(s: Sys)
    requires |s.cache.buf| == NBUF
  {
    && (forall k, l, i :: 0 <= k < l < |s.calls| && Locks(s.calls[k], i) ==> !Locks(s.calls[l], i))
    && (forall i :: 0 <= i < NBUF && s.cache.buf[i].locked ==> Held(s.calls, i))
  }

  ghost predicate Held(calls: seq<Call>, i: nat) {
    exists k :: 0 <= k < |calls| && Locks(calls[k], i)
  }

  ghost predicate Inv(s: Sys) {
    && Good(s.cache)
    && (forall k :: 0 <= k < |s.calls| ==> CallOk(s.cache, s.calls[k]))
    && Counted(s) && OneHolder(s)
  }

  lemma InitInv(d: Disk, ncalls: nat)
    ensures Inv(Init(d, ncalls))
  {
    BootGood(d);
    hide Good;
    var calls := Init(d, ncalls).calls;
    assert calls == seq(ncalls, _ => Idle);
    forall i | 0 <= i < NBUF
      ensures Claims(calls, i) == 0
    {
      ClaimsNone(ncalls, i);
    }
  }

  // ---- steps ------------------------------------------------------------

  ghost predicate Enabled(s: Sys, e: Event)
    requires Inv(s)
  {
    e.k < |s.calls| &&
    var c := s.calls[e.k];
    match e
    // bget panics when there is no buffer
    case Claim(_, n) => c.Idle? && n < |s.cache.disk| && BreadSlot(s.cache, n) < NBUF
    case Acquire(_) => c.Waiting? && !s.cache.buf[c.i].locked
    case Finish(_) => c.Locking?
    case Change(_, _) => c.Holding?
    case LogWrite(_) => c.Holding?
    case Write(_) => c.Holding?
    // every change is followed by log_write or bwrite before brelse
    case Unlocking(_) => c.Holding? && s.cache.buf[c.i].data == s.cache.view[c.n]
    case Release(_) => c.Leaving?
  }

  ghost function Next(s: Sys, e: Event): Sys
    requires Inv(s) && Enabled(s, e)
  {
    var c := s.calls[e.k];
    match e
    case Claim(k, n) =>
      Sys(BufferCache.Claim(s.cache, n), s.calls[k := Waiting(BreadSlot(s.cache, n), n)])
    case Acquire(k) => Sys(BufferCache.Acquire(s.cache, c.i), s.calls[k := Locking(c.i, c.n)])
    case Finish(k) => Sys(BufferCache.Finish(s.cache, c.i), s.calls[k := Holding(c.i, c.n)])
    case Change(_, data) => s.(cache := Modify(s.cache, c.i, data))
    case LogWrite(_) => s.(cache := Pin(s.cache, c.i))
    case Write(_) => s.(cache := Bwrite(s.cache, c.i))
    case Unlocking(k) => Sys(Unlock(s.cache, c.i), s.calls[k := Leaving(c.i, c.n)])
    case Release(k) =>
      ClaimsSome(s.calls, k, c.i);
      Sys(Drop(s.cache, c.i), s.calls[k := Idle])
  }

  lemma OtherBuffer(s: Sys, i: nat, n: nat, call: Call)
    requires Good(s.cache) && |s.cache.buf| == NBUF && CallOk(s.cache, call) && !call.Idle? && i < NBUF
    requires Holds(s.cache.buf[i], n)
    ensures call.i == i <==> call.n == n
  {
    assert OneEach(s.cache.buf);
    hide Good;
  }

  lemma ClaimInv(s: Sys, k: nat, n: nat)
    requires Inv(s) && Enabled(s, Claim(k, n))
    ensures Inv(Next(s, Claim(k, n)))
  {
    var t, i := Next(s, Claim(k, n)), BreadSlot(s.cache, n);
    ClaimGood(s.cache, n);
    ClaimKeeps(s.cache, n);
    forall l | 0 <= l < |t.calls|
      ensures CallOk(t.cache, t.calls[l])
    {
      assert CallOk(s.cache, s.calls[l]);
      if l != k && On(s.calls[l], i) {
        ClaimsSome(s.calls, l, i);
      }
    }
    forall j | 0 <= j < NBUF
      ensures t.cache.buf[j].refcnt == Claims(t.calls, j)
    {
      ClaimsUpdate(s.calls, k, Waiting(i, n), j);
    }
    OneHolderKept(s, t, k);
  }

  // Which buffers are locked, and by whom, is as it was.
  lemma OneHolderKept(s: Sys, t: Sys, k: nat)
    requires |s.cache.buf| == NBUF == |t.cache.buf| && OneHolder(s) && k < |s.calls| == |t.calls|
    requires forall l :: 0 <= l < |s.calls| && l != k ==> t.calls[l] == s.calls[l]
    requires forall i: nat :: Locks(t.calls[k], i) <==> Locks(s.calls[k], i)
    requires forall i :: 0 <= i < NBUF && t.cache.buf[i].locked ==> s.cache.buf[i].locked
    ensures OneHolder(t)
  {
    forall i | 0 <= i < NBUF && t.cache.buf[i].locked
      ensures Held(t.calls, i)
    {
      assert Held(s.calls, i);
      var l :| 0 <= l < |s.calls| && Locks(s.calls[l], i);
      assert Locks(t.calls[l], i);
    }
  }

  lemma AcquireInv(s: Sys, k: nat)
    requires Inv(s) && Enabled(s, Acquire(k))
    ensures Inv(Next(s, Acquire(k)))
  {
    var t, c := Next(s, Acquire(k)), s.calls[k];
    assert CallOk(s.cache, c);
    ClaimsSome(s.calls, k, c.i);
    AcquireGood(s.cache, c.i);
    UnlockedLatest(s.cache, c.i, c.n);
    hide Good;
    forall l | 0 <= l < |t.calls|
      ensures CallOk(t.cache, t.calls[l])
    {
      assert CallOk(s.cache, s.calls[l]);
    }
    forall j | 0 <= j < NBUF
      ensures t.cache.buf[j].refcnt == Claims(t.calls, j)
    {
      ClaimsUpdate(s.calls, k, Locking(c.i, c.n), j);
    }
    NobodyLocks(s, c.i);
    forall i | 0 <= i < NBUF && t.cache.buf[i].locked
      ensures Held(t.calls, i)
    {
      if i == c.i {
        assert Locks(t.calls[k], i);
      } else {
        assert Held(s.calls, i);
        var l :| 0 <= l < |s.calls| && Locks(s.calls[l], i);
        assert Locks(t.calls[l], i);
      }
    }
  }

  lemma UnlockedLatest(c: Cache, i: nat, n: nat)
    requires Good(c) && i < NBUF && Holds(c.buf[i], n) && !c.buf[i].locked
    ensures n < |c.view| && (c.buf[i].valid ==> c.buf[i].data == c.view[n])
  {
  }

  lemma NobodyLocks(s: Sys, i: nat)
    requires |s.cache.buf| == NBUF && i < NBUF && !s.cache.buf[i].locked
    requires forall k :: 0 <= k < |s.calls| ==> CallOk(s.cache, s.calls[k])
    ensures forall k :: 0 <= k < |s.calls| ==> !Locks(s.calls[k], i)
  {
  }

  // Only buffer i, which call k has locked, has changed, and the latest contents of its
  // block; k keeps it locked.
  ghost predicate HeldStep(s: Sys, t: Sys, k: nat, i: nat, n: nat) {
    && |s.cache.buf| == NBUF == |t.cache.buf| && k < |s.calls| == |t.calls| && i < NBUF
    && |t.cache.view| == |s.cache.view| == |s.cache.disk| == |t.cache.disk|
    && Locks(s.calls[k], i) && s.calls[k].n == n && t.calls[k] == Holding(i, n)
    && t.cache.buf[i] == s.cache.buf[i].(valid := true, dirty := t.cache.buf[i].dirty, data := t.cache.buf[i].data)
    && (forall j :: 0 <= j < NBUF && j != i ==> t.cache.buf[j] == s.cache.buf[j])
    && (forall m :: 0 <= m < |s.cache.view| && m != n ==> t.cache.view[m] == s.cache.view[m])
    && (forall l :: 0 <= l < |s.calls| && l != k ==> t.calls[l] == s.calls[l])
  }

  lemma HeldStepInv(s: Sys, t: Sys, k: nat, i: nat, n: nat)
    requires Inv(s) && Good(t.cache) && HeldStep(s, t, k, i, n)
    ensures Inv(t)
  {
    assert CallOk(s.cache, s.calls[k]);
    forall l | 0 <= l < |t.calls|
      ensures CallOk(t.cache, t.calls[l])
    {
      assert CallOk(s.cache, s.calls[l]);
      if l != k && !s.calls[l].Idle? {
        OtherBuffer(s, i, n, s.calls[l]);
        assert !Locks(s.calls[l], i) by {
          OneAtATime(s, k, l, i);
        }
      }
    }
    hide Good;
    assert t.calls == s.calls[k := Holding(i, n)];
    forall j | 0 <= j < NBUF
      ensures t.cache.buf[j].refcnt == Claims(t.calls, j)
    {
      ClaimsUpdate(s.calls, k, Holding(i, n), j);
    }
    OneHolderKept(s, t, k);
  }

  lemma OneAtATime(s: Sys, k: nat, l: nat, i: nat)
    requires |s.cache.buf| == NBUF && OneHolder(s) && k < |s.calls| && l < |s.calls| && k != l && Locks(s.calls[k], i)
    ensures !Locks(s.calls[l], i)
  {
  }

  lemma FinishInv(s: Sys, k: nat)
    requires Inv(s) && Enabled(s, Finish(k))
    ensures Inv(Next(s, Finish(k)))
    // bread returns the latest contents of the block
    ensures var t, c := Next(s, Finish(k)), s.calls[k];
      c.i < |t.cache.buf| && c.n < |t.cache.view| && t.cache.buf[c.i].data == t.cache.view[c.n]
  {
    var t, c := Next(s, Finish(k)), s.calls[k];
    assert CallOk(s.cache, c);
    FinishGood(s.cache, c.i);
    if !s.cache.buf[c.i].valid {
      FillGood(s.cache, c.i);
    }
    assert HeldStep(s, t, k, c.i, c.n);
    HeldStepInv(s, t, k, c.i, c.n);
  }

  lemma HolderInv(s: Sys, e: Event)
    requires Inv(s) && Enabled(s, e) && (e.Change? || e.LogWrite? || e.Write?)
    ensures Inv(Next(s, e))
  {
    var t, c := Next(s, e), s.calls[e.k];
    assert CallOk(s.cache, c);
    match e {
      case Change(_, data) => ModifyGood(s.cache, c.i, data);
      case LogWrite(_) => PinGood(s.cache, c.i);
      case Write(_) => BwriteGood(s.cache, c.i);
    }
    assert HeldStep(s, t, e.k, c.i, c.n);
    HeldStepInv(s, t, e.k, c.i, c.n);
  }

  // The holder gives up the lock, but not yet its reference.
  ghost predicate UnlockStep(s: Sys, t: Sys, k: nat, i: nat, n: nat) {
    && |s.cache.buf| == NBUF && k < |s.calls| && i < NBUF && Locks(s.calls[k], i) && s.calls[k].n == n
    && t.cache == Unlock(s.cache, i) && t.calls == s.calls[k := Leaving(i, n)]
  }

  lemma UnlockCalls(s: Sys, t: Sys, k: nat, i: nat, n: nat)
    requires UnlockStep(s, t, k, i, n) && OneHolder(s)
    requires forall l :: 0 <= l < |s.calls| ==> CallOk(s.cache, s.calls[l])
    ensures forall l :: 0 <= l < |t.calls| ==> CallOk(t.cache, t.calls[l])
  {
    forall l | 0 <= l < |t.calls|
      ensures CallOk(t.cache, t.calls[l])
    {
      assert CallOk(s.cache, s.calls[l]);
      if l != k {
        OneAtATime(s, k, l, i);
      }
    }
  }

  lemma UnlockCounted(s: Sys, t: Sys, k: nat, i: nat, n: nat)
    requires UnlockStep(s, t, k, i, n) && Counted(s)
    ensures Counted(t)
  {
    forall j | 0 <= j < NBUF
      ensures t.cache.buf[j].refcnt == Claims(t.calls, j)
    {
      ClaimsUpdate(s.calls, k, Leaving(i, n), j);
    }
  }

  lemma UnlockOneHolder(s: Sys, t: Sys, k: nat, i: nat, n: nat)
    requires UnlockStep(s, t, k, i, n) && OneHolder(s)
    ensures OneHolder(t)
  {
    forall j | 0 <= j < NBUF && t.cache.buf[j].locked
      ensures Held(t.calls, j)
    {
      assert j != i && Held(s.calls, j);
      var l :| 0 <= l < |s.calls| && Locks(s.calls[l], j);
      assert Locks(t.calls[l], j);
    }
  }

  lemma UnlockInv(s: Sys, k: nat)
    requires Inv(s) && Enabled(s, Unlocking(k))
    ensures Inv(Next(s, Unlocking(k)))
  {
    var t, c := Next(s, Unlocking(k)), s.calls[k];
    assert CallOk(s.cache, c);
    UnlockGood(s.cache, c.i);
    assert UnlockStep(s, t, k, c.i, c.n);
    hide Good, CallOk, Counted, OneHolder, UnlockStep;
    UnlockCalls(s, t, k, c.i, c.n);
    UnlockCounted(s, t, k, c.i, c.n);
    UnlockOneHolder(s, t, k, c.i, c.n);
  }

  // Whoever has the lock has a reference of its own.
  lemma TwoReferences(s: Sys, k: nat, i: nat)
    requires |s.cache.buf| == NBUF && Counted(s) && OneHolder(s) && i < NBUF
    requires k < |s.calls| && On(s.calls[k], i) && !Locks(s.calls[k], i)
    ensures s.cache.buf[i].refcnt > if s.cache.buf[i].locked then 1 else 0
  {
    ClaimsSome(s.calls, k, i);
    if s.cache.buf[i].locked {
      assert Held(s.calls, i);
      var l :| 0 <= l < |s.calls| && Locks(s.calls[l], i);
      OtherClaim(s.calls, k, l, i);
    }
  }

  lemma OtherClaim(calls: seq<Call>, k: nat, l: nat, i: nat)
    requires k < |calls| && l < |calls| && l != k && On(calls[k], i) && On(calls[l], i)
    ensures Claims(calls, i) > 1
  {
    ClaimsUpdate(calls, k, Idle, i);
    ClaimsSome(calls[k := Idle], l, i);
  }

  lemma ReleaseInv(s: Sys, k: nat)
    requires Inv(s) && Enabled(s, Release(k))
    ensures Inv(Next(s, Release(k)))
  {
    var t, c := Next(s, Release(k)), s.calls[k];
    assert CallOk(s.cache, c);
    TwoReferences(s, k, c.i);
    DropGood(s.cache, c.i);
    hide Good;
    forall l | 0 <= l < |t.calls|
      ensures CallOk(t.cache, t.calls[l])
    {
      assert CallOk(s.cache, s.calls[l]);
    }
    forall j | 0 <= j < NBUF
      ensures t.cache.buf[j].refcnt == Claims(t.calls, j)
    {
      ClaimsUpdate(s.calls, k, Idle, j);
    }
    OneHolderKept(s, t, k);
  }

  lemma StepInv(s: Sys, e: Event)
    requires Inv(s) && Enabled(s, e)
    ensures Inv(Next(s, e))
  {
    hide Inv, Next, Enabled;
    match e
    case Claim(k, n) => ClaimInv(s, k, n);
    case Acquire(k) => AcquireInv(s, k);
    case Finish(k) => FinishInv(s, k);
    case Change(_, _) => HolderInv(s, e);
    case LogWrite(_) => HolderInv(s, e);
    case Write(_) => HolderInv(s, e);
    case Unlocking(k) => UnlockInv(s, k);
    case Release(k) => ReleaseInv(s, k);
  }

  // ---- runs -------------------------------------------------------------

  ghost predicate Run(s: Sys, es: seq<Event>)
    requires Inv(s)
    decreases |es|
  {
    es == [] || (Enabled(s, es[0]) && (StepInv(s, es[0]); Run(Next(s, es[0]), es[1..])))
  }

  // So in every reachable state the cache is coherent, the reference counts are the
  // numbers of calls, and a lock has one holder.
  ghost function After(s: Sys, es: seq<Event>): (t: Sys)
    requires Inv(s) && Run(s, es)
    ensures Inv(t) && |t.calls| == |s.calls|
    decreases |es|
  {
    if es == [] then s else (StepInv(s, es[0]); After(Next(s, es[0]), es[1..]))
  }

  // Until it is released, a claimed buffer is neither recycled nor given to another
  // block, whatever the other processes do.
  lemma {:induction false} ClaimKept(s: Sys, es: seq<Event>, k: nat)
    requires Inv(s) && Run(s, es) && k < |s.calls| && !s.calls[k].Idle? && Release(k) !in es
    ensures var t := After(s, es);
      && !t.calls[k].Idle? && t.calls[k].i == s.calls[k].i < |t.cache.buf| && t.calls[k].n == s.calls[k].n
      && Holds(t.cache.buf[s.calls[k].i], s.calls[k].n) && !Recyclable(t.cache.buf[s.calls[k].i])
    decreases |es|
  {
    if es == [] {
      assert CallOk(s.cache, s.calls[k]);
      ClaimsSome(s.calls, k, s.calls[k].i);
    } else {
      StepInv(s, es[0]);
      StepKeeps(s, es[0], k);
      ClaimKept(Next(s, es[0]), es[1..], k);
    }
  }

  lemma StepKeeps(s: Sys, e: Event, k: nat)
    requires Inv(s) && Enabled(s, e) && k < |s.calls| && !s.calls[k].Idle? && e != Release(k)
    ensures var t := Next(s, e);
      |t.calls| == |s.calls| && !t.calls[k].Idle? && t.calls[k].i == s.calls[k].i && t.calls[k].n == s.calls[k].n
  {
    hide Good, CallOk, BufferCache.Claim;
  }

  // What a step does to the contents of the blocks, and to the disk: to its clients the
  // cache is a map from blocks to contents, which log_write and bwrite change.
  lemma StepFlat(s: Sys, e: Event)
    requires Inv(s) && Enabled(s, e)
    ensures var t, c := Next(s, e), s.calls[e.k];
      && t.cache.view ==
         (if e.LogWrite? || e.Write? then s.cache.view[c.n := s.cache.buf[c.i].data] else s.cache.view)
      && t.cache.disk == if e.Write? then s.cache.disk[c.n := s.cache.buf[c.i].data] else s.cache.disk
  {
    assert CallOk(s.cache, s.calls[e.k]);
    match e
    case Claim(_, n) => ClaimKeeps(s.cache, n);
    case Finish(_) => FinishReads(s.cache, s.calls[e.k].i);
    case _ =>
  }

  // A buffer that is not valid is not dirty, so bread writes nothing.
  lemma FinishReads(c: Cache, i: nat)
    requires Good(c) && i < NBUF && c.buf[i].locked
    ensures c.buf[i].blockno < |c.disk|
    ensures var e := BufferCache.Finish(c, i);
      && e.disk == c.disk && e.view == c.view && |e.buf| == NBUF
      && (forall j :: 0 <= j < NBUF && j != i ==> e.buf[j] == c.buf[j])
      && (c.buf[i].dirty ==> e.buf[i] == c.buf[i])
  {
    FinishGood(c, i);
  }

  // Buffer i keeps the latest contents of block n, which log_write has pinned.
  ghost predicate PinnedAt(s: Sys, i: nat, n: nat) {
    i < |s.cache.buf| && Holds(s.cache.buf[i], n) && s.cache.buf[i].dirty
  }

  // No call writes block n home.
  ghost predicate NeverWrites(s: Sys, es: seq<Event>, n: nat)
    requires Inv(s) && Run(s, es)
    decreases |es|
  {
    es != [] ==>
      && (es[0].Write? ==> s.calls[es[0].k].n != n)
      && (StepInv(s, es[0]); NeverWrites(Next(s, es[0]), es[1..], n))
  }

  // A logged block stays in the cache, and its old contents on the disk, until commit
  // writes it, whatever is read and released in the meantime.
  lemma {:induction false} PinnedKept(s: Sys, es: seq<Event>, i: nat, n: nat)
    requires Inv(s) && Run(s, es) && NeverWrites(s, es, n) && PinnedAt(s, i, n)
    ensures var t := After(s, es);
      PinnedAt(t, i, n) && n < |s.cache.disk| == |t.cache.disk| && t.cache.disk[n] == s.cache.disk[n]
    decreases |es|
  {
    if es == [] {
      PinnedBlock(s, i, n);
    } else {
      StepInv(s, es[0]);
      PinnedStep(s, es[0], i, n);
      PinnedKept(Next(s, es[0]), es[1..], i, n);
    }
  }

  lemma PinnedBlock(s: Sys, i: nat, n: nat)
    requires Inv(s) && PinnedAt(s, i, n)
    ensures i < NBUF && n < |s.cache.disk| && !Recyclable(s.cache.buf[i])
  {
  }

  lemma PinnedStep(s: Sys, e: Event, i: nat, n: nat)
    requires Inv(s) && Enabled(s, e) && PinnedAt(s, i, n) && (e.Write? ==> s.calls[e.k].n != n)
    ensures var t := Next(s, e);
      PinnedAt(t, i, n) && n < |s.cache.disk| == |t.cache.disk| && t.cache.disk[n] == s.cache.disk[n]
  {
    StepFlat(s, e);
    PinnedBlock(s, i, n);
    var c := s.calls[e.k];
    assert CallOk(s.cache, c);
    match e
    case Claim(_, m) => ClaimKeeps(s.cache, m);
    case Finish(_) => FinishReads(s.cache, c.i);
    case _ =>
  }

  // A release beside another claim leaves the buffer where it is on the ring.
  lemma ReleaseShared(s: Sys, k: nat, l: nat)
    requires Inv(s) && Enabled(s, Release(k)) && l < |s.calls| && l != k && On(s.calls[l], s.calls[k].i)
    ensures var t := Next(s, Release(k));
      && t.cache.order == s.cache.order && t.cache.freed == s.cache.freed
      && s.calls[k].i < |t.cache.buf| && t.cache.buf[s.calls[k].i].refcnt > 0
  {
    var i := s.calls[k].i;
    assert CallOk(s.cache, s.calls[k]);
    OtherClaim(s.calls, k, l, i);
  }

  // A waiter is kept by a holder, and by nobody else; so it can go on when that one
  // releases.
  lemma WaiterHasHolder(s: Sys, k: nat)
    requires Inv(s) && k < |s.calls| && s.calls[k].Waiting? && !Enabled(s, Acquire(k))
    ensures exists l :: 0 <= l < |s.calls| && l != k && Locks(s.calls[l], s.calls[k].i)
  {
    assert CallOk(s.cache, s.calls[k]);
    assert Held(s.calls, s.calls[k].i);
  }

  // Such a run: two calls on one block, the second while the first has it.
  lemma TwoOnOneBlock(d: Disk)
    requires |d| > 0
    ensures var s := Init(d, 2);
      && Inv(s) && Enabled(s, Claim(0, 0))
      && var t := Next(s, Claim(0, 0));
      && Inv(t) && Enabled(t, Acquire(0))
      && var u := Next(t, Acquire(0));
      && Inv(u) && Enabled(u, Claim(1, 0))
      && var v := Next(u, Claim(1, 0));
      && v.calls[0].Locking? && v.calls[1].Waiting? && v.calls[0].i == v.calls[1].i
      && v.calls[0].i < |v.cache.buf| && v.cache.buf[v.calls[0].i].refcnt == 2
  {
    var s := Init(d, 2);
    InitInv(d, 2);
    BootRoom(d);
    var t := Next(s, Claim(0, 0));
    StepInv(s, Claim(0, 0));
    ClaimKeeps(s.cache, 0);
    var i := BreadSlot(s.cache, 0);
    var u := Next(t, Acquire(0));
    StepInv(t, Acquire(0));
    SlotUnique(u.cache.buf, i, 0);
    ClaimKeeps(u.cache, 0);
  }

  lemma BootRoom(d: Disk)
    ensures Good(Boot(d)) && BreadSlot(Boot(d), 0) < NBUF
    ensures Boot(d).buf[BreadSlot(Boot(d), 0)] == UNUSED
  {
    BootGood(d);
    BreadPanics(Boot(d), 0);
    assert Recyclable(Boot(d).buf[0]);
  }

  // ---- the order of the ring --------------------------------------------

  // The last claim on buffer i is given back.
  ghost predicate FallsIdle(s: Sys, e: Event, i: nat)
    requires Inv(s) && Enabled(s, e)
  {
    Claims(s.calls, i) > 0 && Claims(Next(s, e).calls, i) == 0
  }

  // When that happened last, if it had at time last before the events es, of which the
  // first takes the time from now to now + 1; 0 if never.
  ghost function IdleSince(s: Sys, es: seq<Event>, i: nat, now: nat, last: nat): nat
    requires Inv(s) && Run(s, es)
    decreases |es|
  {
    if es == [] then last
    else
      StepInv(s, es[0]);
      IdleSince(Next(s, es[0]), es[1..], i, now + 1, if FallsIdle(s, es[0], i) then now + 1 else last)
  }

  // The cache knows which of two buffers has been idle for longer.
  ghost predicate Knows(c: Cache, last: seq<nat>, now: nat) {
    && |c.freed| == |last| == NBUF
    && (forall i :: 0 <= i < NBUF ==> last[i] <= now && c.freed[i] <= c.clock)
    && (forall i, j :: 0 <= i < NBUF && 0 <= j < NBUF ==> (c.freed[i] <= c.freed[j] <==> last[i] <= last[j]))
  }

  ghost function IdleTimes(s: Sys, e: Event, last: seq<nat>, now: nat): seq<nat>
    requires Inv(s) && Enabled(s, e) && |last| == NBUF
  {
    seq(NBUF, i requires 0 <= i < NBUF => if FallsIdle(s, e, i) then now + 1 else last[i])
  }

  // A release that leaves no claim on its buffer puts it first and keeps the others in
  // their order; nothing else moves a buffer.
  lemma RingMoves(s: Sys, e: Event)
    requires Inv(s) && Enabled(s, e)
    ensures var t := Next(s, e);
      && |t.cache.order| == |s.cache.order| == NBUF
      && if exists i :: 0 <= i < NBUF && FallsIdle(s, e, i) then
           && FallsIdle(s, e, t.cache.order[0])
           && exists k :: 0 <= k < NBUF && s.cache.order[k] == t.cache.order[0]
                && t.cache.order[1..] == s.cache.order[..k] + s.cache.order[k + 1..]
         else t.cache.order == s.cache.order
  {
    StepInv(s, e);
    var t, c := Next(s, e), s.calls[e.k];
    assert CallOk(s.cache, c);
    FallsOnly(s, e);
    match e
    case Claim(_, n) => ClaimKeeps(s.cache, n);
    case Release(k) =>
      if s.cache.buf[c.i].refcnt == 1 {
        var m := IndexOf(s.cache.order, c.i);
        assert t.cache.order == [c.i] + (s.cache.order[..m] + s.cache.order[m + 1..]);
      }
    case _ =>
  }

  // A buffer falls idle by the release of its only claim.
  lemma FallsOnly(s: Sys, e: Event)
    requires Inv(s) && Enabled(s, e)
    ensures |s.cache.buf| == NBUF
    ensures forall i :: 0 <= i < NBUF ==>
      (FallsIdle(s, e, i) <==> e.Release? && s.calls[e.k].i == i && s.cache.buf[i].refcnt == 1)
  {
    StepInv(s, e);
    var t, c := Next(s, e), s.calls[e.k];
    assert CallOk(s.cache, c);
    forall i | 0 <= i < NBUF
      ensures FallsIdle(s, e, i) <==> e.Release? && c.i == i && s.cache.buf[i].refcnt == 1
    {
      assert s.cache.buf[i].refcnt == Claims(s.calls, i);
      ClaimsUpdate(s.calls, e.k, t.calls[e.k], i);
      assert t.calls == s.calls[e.k := t.calls[e.k]];
    }
  }

  lemma KnowsStep(s: Sys, e: Event, last: seq<nat>, now: nat)
    requires Inv(s) && Enabled(s, e) && Knows(s.cache, last, now)
    ensures Knows(Next(s, e).cache, IdleTimes(s, e, last, now), now + 1)
  {
    FallsOnly(s, e);
    StepFreed(s, e);
    hide Inv, Next, Enabled, FallsIdle;
  }

  // Only such a release sets the time of a buffer, to one later than all others.
  lemma StepFreed(s: Sys, e: Event)
    requires Inv(s) && Enabled(s, e)
    ensures var c, t := s.cache, Next(s, e).cache;
      if e.Release? && s.calls[e.k].i < |c.buf| && c.buf[s.calls[e.k].i].refcnt == 1 then
        && t.clock == c.clock + 1 && s.calls[e.k].i < |c.freed|
        && t.freed == c.freed[s.calls[e.k].i := c.clock + 1]
      else t.clock == c.clock && t.freed == c.freed
  {
    assert CallOk(s.cache, s.calls[e.k]);
    match e
    case Claim(_, n) => ClaimKeeps(s.cache, n);
    case Release(k) => TwoReferences(s, k, s.calls[k].i);
    case _ =>
  }

  lemma {:induction false} KnowsRun(s: Sys, es: seq<Event>, last: seq<nat>, now: nat) returns (ts: seq<nat>)
    requires Inv(s) && Run(s, es) && Knows(s.cache, last, now)
    ensures Knows(After(s, es).cache, ts, now + |es|)
    ensures forall i :: 0 <= i < NBUF ==> ts[i] == IdleSince(s, es, i, now, last[i])
    decreases |es|
  {
    if es == [] {
      ts := last;
    } else {
      StepInv(s, es[0]);
      KnowsStep(s, es[0], last, now);
      ts := KnowsRun(Next(s, es[0]), es[1..], IdleTimes(s, es[0], last, now), now + 1);
    }
  }

  // A claim of a block that is not cached takes, of the buffers that it may take, one that
  // has been idle for longest, never having been claimed counting as longest of all.
  lemma LeastRecentlyUsed(d: Disk, ncalls: nat, es: seq<Event>, k: nat, n: nat)
    requires Inv(Init(d, ncalls)) && Run(Init(d, ncalls), es)
    requires var s := After(Init(d, ncalls), es);
      Enabled(s, Claim(k, n)) && forall j :: 0 <= j < NBUF ==> !Holds(s.cache.buf[j], n)
    ensures var s0 := Init(d, ncalls);
      var s := After(s0, es);
      var i := Next(s, Claim(k, n)).calls[k].i;
      && i < NBUF && Claims(s.calls, i) == 0 && !s.cache.buf[i].dirty
      && forall j :: 0 <= j < NBUF && Claims(s.calls, j) == 0 && !s.cache.buf[j].dirty ==>
           IdleSince(s0, es, i, 0, 0) <= IdleSince(s0, es, j, 0, 0)
  {
    var s0 := Init(d, ncalls);
    var s := After(s0, es);
    var ts := KnowsRun(s0, es, seq(NBUF, _ => 0), 0);
    var i := BreadSlot(s.cache, n);
    assert i == Victim(s.cache.buf, s.cache.order);
    forall j | 0 <= j < NBUF && Claims(s.calls, j) == 0 && !s.cache.buf[j].dirty
      ensures IdleSince(s0, es, i, 0, 0) <= IdleSince(s0, es, j, 0, 0)
    {
      assert s.cache.buf[j].refcnt == Claims(s.calls, j);
      RecyclesLeastRecent(s.cache, j);
    }
    assert Recyclable(s.cache.buf[i]) && s.cache.buf[i].refcnt == Claims(s.calls, i);
  }
}
