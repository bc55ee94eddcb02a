/** What the buffer cache does, as functions on its state: NBUF buffers in the
    order in which they were last released, over a disk that is read and written
    one block at a time. */
module BufferCache {
  import opened Params
  import opened Blocks

  const ROOTDEV: nat := 1

  // struct buf; the flags B_VALID and B_DIRTY are the first two fields.
  datatype Buf = Buf(valid: bool, dirty: bool, dev: nat, blockno: nat, locked: bool, refcnt: nat, data: Block)

  const UNUSED := Buf(false, false, 0, 0, false, 0, seq(WORDS, _ => 0))

  datatype Cache = Cache(
    buf: seq<Buf>,
    order: seq<nat>,  // buffers from head.next to head.prev
    freed: seq<nat>,  // when each refcnt last fell to zero; 0 if it never has
    clock: nat,
    disk: Disk,
    view: Disk)       // the latest contents of every block

  predicate Holds(b: Buf, n: nat) {
    b.dev == ROOTDEV && b.blockno == n
  }

  // The buffer that caches block n; |buf| if there is none.
  function SlotOf(buf: seq<Buf>, n: nat): (i: nat)
    ensures i <= |buf|
    ensures i < |buf| ==> Holds(buf[i], n)
    ensures forall j :: 0 <= j < i ==> !Holds(buf[j], n)
  {
    if buf == [] || Holds(buf[0], n) then 0 else 1 + SlotOf(buf[1..], n)
  }

  predicate Recyclable(b: Buf) {
    b.refcnt == 0 && !b.dirty
  }

  // The last recyclable buffer among the first k of the order; |buf| if there is none.
  function LastRecyclable(buf: seq<Buf>, order: seq<nat>, k: nat): (i: nat)
    requires k <= |order| && forall j :: 0 <= j < |order| ==> order[j] < |buf|
    ensures i <= |buf|
    ensures i < |buf| ==> i in order && Recyclable(buf[i])
    ensures i == |buf| ==> forall j :: 0 <= j < k ==> !Recyclable(buf[order[j]])
  {
    if k == 0 then |buf|
    else if Recyclable(buf[order[k - 1]]) then order[k - 1]
    else LastRecyclable(buf, order, k - 1)
  }

  // The recyclable buffer nearest the end of the order.
  function Victim(buf: seq<Buf>, order: seq<nat>): (i: nat)
    requires forall j :: 0 <= j < |order| ==> order[j] < |buf|
    ensures i <= |buf|
  {
    LastRecyclable(buf, order, |order|)
  }

  // ---- the invariant ----------------------------------------------------

  ghost predicate Permutation(order: seq<nat>) {
    && |order| == NBUF
    && (forall i :: 0 <= i < NBUF ==> order[i] < NBUF)
    && (forall i, j :: 0 <= i < j < NBUF ==> order[i] != order[j])
    && (forall i :: 0 <= i < NBUF ==> i in order)
  }

  ghost predicate Recency(order: seq<nat>, freed: seq<nat>, clock: nat)
    requires Permutation(order) && |freed| == NBUF
  {
    && (forall i, j :: 0 <= i < j < NBUF ==> freed[order[i]] >= freed[order[j]])
    && (forall i :: 0 <= i < NBUF ==> freed[i] <= clock)
  }

  // No block of ROOTDEV is held by two buffers.
  ghost predicate OneEach(buf: seq<Buf>) {
    forall i, j :: 0 <= i < j < |buf| && buf[i].dev == ROOTDEV && buf[j].dev == ROOTDEV ==>
      buf[i].blockno != buf[j].blockno
  }

  ghost predicate Coherent(buf: seq<Buf>, disk: Disk, view: Disk) {
    && |view| == |disk|
    && (forall i :: 0 <= i < |buf| ==>
          var b := buf[i];
          && (b.dev == ROOTDEV ==> b.blockno < |disk|)
          && (b.valid || b.refcnt > 0 ==> b.dev == ROOTDEV)
          && (b.dirty ==> b.valid)
          && (b.locked ==> b.refcnt > 0)
          // a buffer nobody has locked shows the latest contents
          && (b.valid && !b.locked ==> b.data == view[b.blockno]))
    // and the disk is behind only on blocks pinned by B_DIRTY
    && (forall n :: 0 <= n < |disk| && disk[n] != view[n] ==>
          SlotOf(buf, n) < |buf| && buf[SlotOf(buf, n)].dirty)
  }

  ghost predicate Good(c: Cache) {
    && |c.buf| == NBUF && |c.freed| == NBUF && Permutation(c.order)
    && Recency(c.order, c.freed, c.clock)
    && OneEach(c.buf)
    && Coherent(c.buf, c.disk, c.view)
  }

  function Boot(d: Disk): Cache {
    Cache(seq(NBUF, _ => UNUSED), seq(NBUF, i requires 0 <= i < NBUF => NBUF - 1 - i), seq(NBUF, _ => 0), 0, d, d)
  }

  lemma BootGood(d: Disk)
    ensures Good(Boot(d))
  {
    var c := Boot(d);
    forall i | 0 <= i < NBUF
      ensures i in c.order
    {
      assert c.order[NBUF - 1 - i] == i;
    }
  }

  // ---- the operations ---------------------------------------------------

  // iderw on a buffer that is not valid.
  function Fill(c: Cache, i: nat): Cache
    requires i < |c.buf| && c.buf[i].blockno < |c.disk|
  {
    c.(buf := c.buf[i := c.buf[i].(valid := true, data := c.disk[c.buf[i].blockno])])
  }

  // iderw: a dirty buffer is written, any other is read.
  function Iderw(c: Cache, i: nat): Cache
    requires i < |c.buf| && c.buf[i].blockno < |c.disk|
  {
    if c.buf[i].dirty then
      c.(buf := c.buf[i := c.buf[i].(valid := true, dirty := false)], disk := c.disk[c.buf[i].blockno := c.buf[i].data])
    else Fill(c, i)
  }

  // The buffer that bread(ROOTDEV, n) returns; NBUF when bget panics.
  function BreadSlot(c: Cache, n: nat): (i: nat)
    requires forall k :: 0 <= k < |c.order| ==> c.order[k] < |c.buf|
    ensures i <= |c.buf|
  {
    if SlotOf(c.buf, n) < |c.buf| then SlotOf(c.buf, n) else Victim(c.buf, c.order)
  }

  // The part of bget under bcache.lock: the block's buffer gets one more reference, or
  // another buffer is reassigned to the block.
  function Claim(c: Cache, n: nat): Cache
    requires forall k :: 0 <= k < |c.order| ==> c.order[k] < |c.buf|
  {
    var i := BreadSlot(c, n);
    if i == |c.buf| then c
    else if SlotOf(c.buf, n) < |c.buf| then c.(buf := c.buf[i := c.buf[i].(refcnt := c.buf[i].refcnt + 1)])
    else Recycle(c, i, n)
  }

  function Recycle(c: Cache, i: nat, n: nat): Cache
    requires i < |c.buf|
  {
    c.(buf := c.buf[i := Buf(false, false, ROOTDEV, n, c.buf[i].locked, 1, c.buf[i].data)])
  }

  // acquiresleep, when it returns.
  function Acquire(c: Cache, i: nat): Cache
    requires i < |c.buf|
  {
    c.(buf := c.buf[i := c.buf[i].(locked := true)])
  }

  // The end of bread: a buffer that is not valid is read.
  function Finish(c: Cache, i: nat): Cache
    requires i < |c.buf| && c.buf[i].blockno < |c.disk|
  {
    if c.buf[i].valid then c else Fill(c, i)
  }

  // bread when no other process has the buffer locked, or until none has.
  function Bread(c: Cache, n: nat): Cache
    requires n < |c.disk|
    requires forall k :: 0 <= k < |c.order| ==> c.order[k] < |c.buf|
  {
    var i := BreadSlot(c, n);
    if i == |c.buf| then c else Finish(Acquire(Claim(c, n), i), i)
  }

  // bwrite of a locked buffer: straight to the disk.
  function Bwrite(c: Cache, i: nat): Cache
    requires i < |c.buf| && c.buf[i].blockno < |c.disk| == |c.view|
  {
    var n := c.buf[i].blockno;
    c.(buf := c.buf[i := c.buf[i].(valid := true, dirty := false)],
       disk := c.disk[n := c.buf[i].data],
       view := c.view[n := c.buf[i].data])
  }

  // log_write's effect on a locked buffer: it stays in the cache.
  function Pin(c: Cache, i: nat): Cache
    requires i < |c.buf| && c.buf[i].blockno < |c.view|
  {
    c.(buf := c.buf[i := c.buf[i].(dirty := true)],
       view := c.view[c.buf[i].blockno := c.buf[i].data])
  }

  // The holder of a locked buffer changes its data.
  function Modify(c: Cache, i: nat, data: Block): Cache
    requires i < |c.buf|
  {
    c.(buf := c.buf[i := c.buf[i].(data := data)])
  }

  function ToFront(order: seq<nat>, i: nat): (r: seq<nat>)
    requires i in order
  {
    var k := IndexOf(order, i);
    [i] + (order[..k] + order[k + 1..])
  }

  function IndexOf(s: seq<nat>, x: nat): (k: nat)
    requires x in s
    ensures k < |s| && s[k] == x
  {
    if s[0] == x then 0 else 1 + IndexOf(s[1..], x)
  }

  // brelse: first releasesleep,
  function Unlock(c: Cache, i: nat): Cache
    requires i < |c.buf|
  {
    c.(buf := c.buf[i := c.buf[i].(locked := false)])
  }

  // then, under bcache.lock, the reference; the last one moves the buffer to the front.
  function Drop(c: Cache, i: nat): Cache
    requires i < |c.buf| == |c.freed| && c.buf[i].refcnt > 0 && i in c.order
  {
    var d := c.(buf := c.buf[i := c.buf[i].(refcnt := c.buf[i].refcnt - 1)]);
    if c.buf[i].refcnt > 1 then d
    else d.(order := ToFront(c.order, i), freed := c.freed[i := c.clock + 1], clock := c.clock + 1)
  }

  function Brelse(c: Cache, i: nat): Cache
    requires i < |c.buf| == |c.freed| && c.buf[i].refcnt > 0 && i in c.order
  {
    Drop(Unlock(c, i), i)
  }

  // ---- each operation keeps the invariant -------------------------------

  // What a change of one buffer must respect to keep the cache coherent.
  lemma SlotUnique(buf: seq<Buf>, i: nat, n: nat)
    requires OneEach(buf) && i < |buf| && Holds(buf[i], n)
    ensures SlotOf(buf, n) == i
  {
  }

  lemma SlotKept(buf: seq<Buf>, i: nat, b: Buf, n: nat)
    requires i < |buf| && Holds(b, n) == Holds(buf[i], n) && OneEach(buf)
    ensures SlotOf(buf[i := b], n) == SlotOf(buf, n)
  {
    var e := buf[i := b];
    var j, k := SlotOf(e, n), SlotOf(buf, n);
    assert forall m :: 0 <= m < |buf| ==> Holds(e[m], n) == Holds(buf[m], n);
    assert !(j < k) && !(k < j);
  }

  // Changing a buffer without changing which block it holds.
  lemma GoodAfterUpdate(c: Cache, i: nat, b: Buf, disk: Disk, view: Disk)
    requires Good(c) && i < NBUF && c.buf[i].dev == ROOTDEV
    requires b.dev == ROOTDEV && b.blockno == c.buf[i].blockno
    requires |disk| == |view| == |c.disk|
    requires forall n :: 0 <= n < |disk| && n != b.blockno ==> disk[n] == c.disk[n] && view[n] == c.view[n]
    requires b.dirty || disk[b.blockno] == view[b.blockno]
    requires b.dirty ==> b.valid
    requires b.locked ==> b.refcnt > 0
    requires b.valid && !b.locked ==> b.data == view[b.blockno]
    ensures Good(c.(buf := c.buf[i := b], disk := disk, view := view))
  {
    var e := c.buf[i := b];
    forall n | 0 <= n < |disk| && disk[n] != view[n]
      ensures SlotOf(e, n) < |e| && e[SlotOf(e, n)].dirty
    {
      SlotKept(c.buf, i, b, n);
      if n == b.blockno {
        SlotUnique(e, i, n);
      }
    }
    assert OneEach(e);
    forall j | 0 <= j < |e| && j != i && c.buf[j].dev == ROOTDEV
      ensures c.buf[j].blockno != b.blockno
    {
    }
  }

  lemma RecycleGood(c: Cache, i: nat, n: nat)
    requires Good(c) && i < NBUF && Recyclable(c.buf[i]) && n < |c.disk|
    requires SlotOf(c.buf, n) == NBUF
    ensures Good(Recycle(c, i, n))
  {
    var e := Recycle(c, i, n).buf;
    forall m | 0 <= m < |c.disk| && c.disk[m] != c.view[m]
      ensures SlotOf(e, m) < |e| && e[SlotOf(e, m)].dirty
    {
      var k := SlotOf(c.buf, m);
      assert k != i && m != n;
      assert Holds(e[k], m);
      SlotUnique(e, k, m);
    }
  }

  // One more reference, whether or not the buffer is locked.
  lemma CountGood(c: Cache, i: nat)
    requires Good(c) && i < NBUF && c.buf[i].dev == ROOTDEV
    ensures Good(c.(buf := c.buf[i := c.buf[i].(refcnt := c.buf[i].refcnt + 1)]))
  {
    var b := c.buf[i];
    if !b.dirty && c.disk[b.blockno] != c.view[b.blockno] {
      SlotUnique(c.buf, i, b.blockno);
    }
    GoodAfterUpdate(c, i, b.(refcnt := b.refcnt + 1), c.disk, c.view);
  }

  // The claim keeps the cache invariant, for a buffer that another process has locked too.
  lemma ClaimGood(c: Cache, n: nat)
    requires Good(c) && n < |c.disk|
    ensures Good(Claim(c, n))
  {
    hide Coherent, Recency, OneEach;
    var i := BreadSlot(c, n);
    if SlotOf(c.buf, n) < NBUF {
      CountGood(c, i);
    } else if i < NBUF {
      RecycleGood(c, i, n);
    }
  }

  // It counts on the one buffer of the block, changes no contents, and takes no buffer
  // that is referenced or pinned.
  lemma ClaimKeeps(c: Cache, n: nat)
    requires Good(c) && n < |c.disk|
    ensures var i, e := BreadSlot(c, n), Claim(c, n);
      && e == c.(buf := e.buf) && |e.buf| == NBUF
      && (i < NBUF ==> Holds(e.buf[i], n) && e.buf[i].refcnt == c.buf[i].refcnt + 1
                       && e.buf[i].locked == c.buf[i].locked)
      && (i < NBUF && !Recyclable(c.buf[i]) ==> e.buf[i] == c.buf[i].(refcnt := c.buf[i].refcnt + 1))
      && (forall j :: 0 <= j < NBUF && j != i ==> e.buf[j] == c.buf[j])
  {
  }

  lemma AcquireGood(c: Cache, i: nat)
    requires Good(c) && i < NBUF && c.buf[i].refcnt > 0 && !c.buf[i].locked
    ensures Good(Acquire(c, i))
  {
    var b := c.buf[i];
    if !b.dirty && c.disk[b.blockno] != c.view[b.blockno] {
      SlotUnique(c.buf, i, b.blockno);
    }
    GoodAfterUpdate(c, i, b.(locked := true), c.disk, c.view);
  }

  // Reading a block that is not pinned gets its latest contents.
  lemma FillGood(c: Cache, i: nat)
    requires Good(c) && i < NBUF && c.buf[i].dev == ROOTDEV && !c.buf[i].valid
    ensures Good(Fill(c, i)) && c.disk[c.buf[i].blockno] == c.view[c.buf[i].blockno]
  {
    var b := c.buf[i];
    if c.disk[b.blockno] != c.view[b.blockno] {
      SlotUnique(c.buf, i, b.blockno);
    }
    GoodAfterUpdate(c, i, b.(valid := true, data := c.disk[b.blockno]), c.disk, c.view);
  }

  lemma FinishGood(c: Cache, i: nat)
    requires Good(c) && i < NBUF && c.buf[i].locked
    ensures c.buf[i].blockno < |c.disk| && Good(Finish(c, i))
  {
    if !c.buf[i].valid {
      FillGood(c, i);
    }
  }

  // Whoever gets the lock finds the latest contents, from the buffer or from the disk.
  lemma AcquirerSeesLatest(c: Cache, i: nat, n: nat)
    requires Good(c) && i < NBUF && c.buf[i].refcnt > 0 && !c.buf[i].locked && Holds(c.buf[i], n)
    ensures var e := Finish(Acquire(c, i), i);
      e.buf[i].valid && e.buf[i].data == c.view[n] == e.view[n] && Holds(e.buf[i], n)
  {
    AcquireGood(c, i);
    if !c.buf[i].valid {
      FillGood(Acquire(c, i), i);
    }
  }

  lemma BreadGood(c: Cache, n: nat)
    requires Good(c) && n < |c.disk|
    requires SlotOf(c.buf, n) < NBUF ==> !c.buf[SlotOf(c.buf, n)].locked
    ensures Good(Bread(c, n))
  {
    var i := BreadSlot(c, n);
    if i < NBUF {
      ClaimGood(c, n);
      ClaimKeeps(c, n);
      AcquireGood(Claim(c, n), i);
      FinishGood(Acquire(Claim(c, n), i), i);
    }
  }

  // bread returns the latest contents of the block and changes no block.
  lemma BreadLatest(c: Cache, n: nat)
    requires Good(c) && n < |c.disk|
    requires SlotOf(c.buf, n) < NBUF ==> !c.buf[SlotOf(c.buf, n)].locked
    ensures var i, e := BreadSlot(c, n), Bread(c, n);
      && e.view == c.view && e.disk == c.disk
      && e.order == c.order && e.freed == c.freed && e.clock == c.clock
      && (i < NBUF ==>
            && Holds(e.buf[i], n) && e.buf[i].valid && e.buf[i].locked && e.buf[i].data == c.view[n]
            && e.buf[i].refcnt == c.buf[i].refcnt + 1 && e.buf[i].dirty == c.buf[i].dirty)
      && (forall j :: 0 <= j < NBUF && j != i ==> e.buf[j] == c.buf[j])
  {
    var i := BreadSlot(c, n);
    ClaimKeeps(c, n);
    if i < NBUF {
      ClaimGood(c, n);
      AcquirerSeesLatest(Claim(c, n), i, n);
    }
  }

  // and panics exactly when the block is not cached and every buffer is in use.
  lemma BreadPanics(c: Cache, n: nat)
    requires Good(c)
    ensures BreadSlot(c, n) == NBUF <==>
      SlotOf(c.buf, n) == NBUF && forall j :: 0 <= j < NBUF ==> !Recyclable(c.buf[j])
  {
    forall j | 0 <= j < NBUF && BreadSlot(c, n) == NBUF
      ensures !Recyclable(c.buf[j])
    {
      assert j in c.order;
    }
  }

  // The blocks whose buffers may not be recycled.
  ghost function InUse(buf: seq<Buf>): set<nat> {
    set i | 0 <= i < |buf| && !Recyclable(buf[i]) :: buf[i].blockno
  }

  // That is, when NBUF blocks are pinned or referenced.
  lemma BreadPanicsFull(c: Cache, n: nat)
    requires Good(c)
    ensures |InUse(c.buf)| <= NBUF
    ensures BreadSlot(c, n) == NBUF <==> SlotOf(c.buf, n) == NBUF && |InUse(c.buf)| == NBUF
  {
    BreadPanics(c, n);
    InUseCount(c.buf, NBUF);
    assert InUse(c.buf) == InUse(c.buf[..NBUF]);
    if forall j :: 0 <= j < NBUF ==> !Recyclable(c.buf[j]) {
      Pigeonhole(c.buf, NBUF, InUse(c.buf));
    }
  }

  lemma {:induction false} InUseCount(buf: seq<Buf>, k: nat)
    requires k <= |buf|
    ensures |InUse(buf[..k])| <= k
    ensures |InUse(buf[..k])| == k ==> forall j :: 0 <= j < k ==> !Recyclable(buf[j])
  {
    if k == 0 {
      assert InUse(buf[..0]) == {};
    } else {
      InUseCount(buf, k - 1);
      InUseLast(buf, k - 1);
      hide InUse, Recyclable;
    }
  }

  lemma InUseLast(buf: seq<Buf>, k: nat)
    requires k < |buf|
    ensures InUse(buf[..k + 1]) == InUse(buf[..k]) + if Recyclable(buf[k]) then {} else {buf[k].blockno}
  {
    hide Recyclable;
    var a, b := InUse(buf[..k + 1]), InUse(buf[..k]);
    forall m | m in b
      ensures m in a
    {
      var i :| 0 <= i < k && !Recyclable(buf[..k][i]) && buf[..k][i].blockno == m;
      assert buf[..k + 1][i] == buf[..k][i];
    }
    assert buf[..k + 1][k] == buf[k];
    forall m | m in a
      ensures m in b || (!Recyclable(buf[k]) && m == buf[k].blockno)
    {
      var i :| 0 <= i < k + 1 && !Recyclable(buf[..k + 1][i]) && buf[..k + 1][i].blockno == m;
      assert i < k ==> buf[..k][i] == buf[..k + 1][i];
    }
  }

  // bget takes, among the clean unreferenced buffers, one that was released
  // longest ago; never-used buffers (freed 0) go first.
  lemma {:induction false} VictimIsOldest(c: Cache, k: nat)
    requires Good(c) && k <= NBUF
    ensures var i := LastRecyclable(c.buf, c.order, k);
      forall j :: 0 <= j < k && Recyclable(c.buf[c.order[j]]) ==>
        i < NBUF && Recyclable(c.buf[i]) && c.freed[i] <= c.freed[c.order[j]]
  {
    if k > 0 {
      VictimIsOldest(c, k - 1);
    }
  }

  lemma RecyclesLeastRecent(c: Cache, j: nat)
    requires Good(c) && j < NBUF && Recyclable(c.buf[j])
    ensures var i := Victim(c.buf, c.order);
      i < NBUF && Recyclable(c.buf[i]) && c.freed[i] <= c.freed[j]
  {
    VictimIsOldest(c, NBUF);
    assert j in c.order;
    var k :| 0 <= k < NBUF && c.order[k] == j;
  }

  // A held buffer may be changed; only log_write or bwrite makes it the latest.
  lemma ModifyGood(c: Cache, i: nat, data: Block)
    requires Good(c) && i < NBUF && c.buf[i].locked
    ensures Good(Modify(c, i, data))
  {
    var b := c.buf[i];
    if !b.dirty && c.disk[b.blockno] != c.view[b.blockno] {
      SlotUnique(c.buf, i, b.blockno);
    }
    GoodAfterUpdate(c, i, b.(data := data), c.disk, c.view);
  }

  lemma BwriteGood(c: Cache, i: nat)
    requires Good(c) && i < NBUF && c.buf[i].locked
    ensures Good(Bwrite(c, i))
  {
    var b := c.buf[i];
    GoodAfterUpdate(c, i, b.(valid := true, dirty := false), c.disk[b.blockno := b.data], c.view[b.blockno := b.data]);
  }

  lemma PinGood(c: Cache, i: nat)
    requires Good(c) && i < NBUF && c.buf[i].locked && c.buf[i].valid
    ensures Good(Pin(c, i))
  {
    var b := c.buf[i];
    GoodAfterUpdate(c, i, b.(dirty := true), c.disk, c.view[b.blockno := b.data]);
  }

  // Where the buffer at place j was before the one at place k moved to the front, and
  // where the one at place j is after that.
  function Before(k: nat, j: nat): nat {
    if j == 0 then k else if j <= k then j - 1 else j
  }

  function Behind(k: nat, j: nat): nat {
    if j < k then j + 1 else if j == k then 0 else j
  }

  lemma ToFrontShape(order: seq<nat>, i: nat)
    requires i in order
    ensures var r, k := ToFront(order, i), IndexOf(order, i);
      && |r| == |order| && k < |order| && order[k] == i
      && forall j :: 0 <= j < |order| ==> r[j] == order[Before(k, j)]
  {
  }

  lemma ToFrontPermutes(order: seq<nat>, i: nat)
    requires Permutation(order) && i < NBUF
    ensures Permutation(ToFront(order, i))
  {
    assert i in order;
    ToFrontShape(order, i);
    var r, k := ToFront(order, i), IndexOf(order, i);
    hide ToFront, IndexOf;
    forall x | 0 <= x < NBUF
      ensures x in r
    {
      assert x in order;
      var j :| 0 <= j < NBUF && order[j] == x;
      assert r[Behind(k, j)] == order[Before(k, Behind(k, j))];
    }
    forall a, b | 0 <= a < b < NBUF
      ensures r[a] != r[b]
    {
      var a', b' := Before(k, a), Before(k, b);
      assert a' != b' && r[a] == order[a'] && r[b] == order[b'];
    }
  }

  lemma RecencyToFront(order: seq<nat>, freed: seq<nat>, clock: nat, i: nat)
    requires Permutation(order) && |freed| == NBUF && Recency(order, freed, clock) && i < NBUF
    ensures Permutation(ToFront(order, i)) && Recency(ToFront(order, i), freed[i := clock + 1], clock + 1)
  {
    assert i in order;
    ToFrontShape(order, i);
    ToFrontPermutes(order, i);
    var r, k, f := ToFront(order, i), IndexOf(order, i), freed[i := clock + 1];
    hide ToFront, IndexOf;
    forall a, b | 0 <= a < b < NBUF
      ensures f[r[a]] >= f[r[b]]
    {
      var a', b' := Before(k, a), Before(k, b);
      assert r[a] == order[a'] && r[b] == order[b'] && r[a] != r[b];
      assert a > 0 ==> a' < b' && freed[order[a']] >= freed[order[b']];
    }
  }

  // The lock is given up after the modification has been logged or written.
  lemma UnlockGood(c: Cache, i: nat)
    requires Good(c) && i < NBUF && c.buf[i].locked
    requires c.buf[i].valid ==> c.buf[i].data == c.view[c.buf[i].blockno]
    ensures Good(Unlock(c, i))
  {
    var b := c.buf[i];
    if !b.dirty && c.disk[b.blockno] != c.view[b.blockno] {
      SlotUnique(c.buf, i, b.blockno);
    }
    GoodAfterUpdate(c, i, b.(locked := false), c.disk, c.view);
  }

  // The reference may be given back while another process, which has its own, has the lock.
  lemma DropGood(c: Cache, i: nat)
    requires Good(c) && i < NBUF && c.buf[i].refcnt > if c.buf[i].locked then 1 else 0
    ensures Good(Drop(c, i))
  {
    var b := c.buf[i];
    if !b.dirty && c.disk[b.blockno] != c.view[b.blockno] {
      SlotUnique(c.buf, i, b.blockno);
    }
    GoodAfterUpdate(c, i, b.(refcnt := b.refcnt - 1), c.disk, c.view);
    RecencyToFront(c.order, c.freed, c.clock, i);
    hide ToFront, Permutation, OneEach, Coherent;
  }

  lemma BrelseGood(c: Cache, i: nat)
    requires Good(c) && i < NBUF && c.buf[i].locked
    requires c.buf[i].valid ==> c.buf[i].data == c.view[c.buf[i].blockno]
    ensures Good(Brelse(c, i))
  {
    UnlockGood(c, i);
    DropGood(Unlock(c, i), i);
  }

  // ---- pinned and held buffers ------------------------------------------

  // The blocks that log_write has pinned.
  ghost function Pins(buf: seq<Buf>): set<nat> {
    set i | 0 <= i < |buf| && buf[i].dirty :: buf[i].blockno
  }

  // The buffers of held are locked by one process; what other processes have claimed or
  // locked are buffers of the blocks in foreign.
  ghost predicate HeldBy(c: Cache, held: set<nat>, foreign: set<nat>) {
    forall j :: 0 <= j < |c.buf| ==>
      && (j in held ==> c.buf[j].locked)
      && (c.buf[j].refcnt > (if j in held then 1 else 0) ==> c.buf[j].blockno in foreign)
  }

  lemma PinnedSlot(c: Cache, n: nat)
    requires Good(c) && n in Pins(c.buf)
    ensures SlotOf(c.buf, n) < NBUF && c.buf[SlotOf(c.buf, n)].dirty && n < |c.disk|
  {
    var i :| 0 <= i < NBUF && c.buf[i].dirty && c.buf[i].blockno == n;
    SlotUnique(c.buf, i, n);
  }

  lemma NotPinnedOnDisk(c: Cache, n: nat)
    requires Good(c) && n < |c.disk| && n !in Pins(c.buf)
    ensures c.disk[n] == c.view[n]
  {
  }

  // A miss finds a buffer whenever the blocks pinned or in use number fewer than
  // NBUF.
  lemma RoomForMiss(c: Cache, blocks: set<nat>)
    requires Good(c) && |blocks| < NBUF
    requires forall i :: 0 <= i < NBUF && !Recyclable(c.buf[i]) ==> c.buf[i].blockno in blocks
    ensures exists i :: 0 <= i < NBUF && Recyclable(c.buf[i])
  {
    if forall i :: 0 <= i < NBUF ==> !Recyclable(c.buf[i]) {
      Pigeonhole(c.buf, NBUF, blocks);
    }
  }

  lemma {:induction false} Pigeonhole(buf: seq<Buf>, k: nat, blocks: set<nat>)
    requires OneEach(buf) && k <= |buf|
    requires forall i :: 0 <= i < k ==> buf[i].dev == ROOTDEV && buf[i].blockno in blocks
    ensures k <= |blocks|
  {
    if k > 0 {
      Pigeonhole(buf, k - 1, blocks - {buf[k - 1].blockno});
    }
  }

  // Two sets of buffers pin the same blocks when they agree on the dirty ones.
  lemma SamePins(buf: seq<Buf>, e: seq<Buf>)
    requires |buf| == |e|
    requires forall j :: 0 <= j < |e| ==>
      e[j].dirty == buf[j].dirty && (buf[j].dirty ==> e[j].blockno == buf[j].blockno)
    ensures Pins(e) == Pins(buf)
  {
    forall m | m in Pins(buf)
      ensures m in Pins(e)
    {
      var j :| 0 <= j < |buf| && buf[j].dirty && buf[j].blockno == m;
      assert e[j].dirty && e[j].blockno == m;
    }
  }

  // The blocks in the buffers held.
  ghost function HeldBlocks(buf: seq<Buf>, held: set<nat>): set<nat> {
    set j | j in held && j < |buf| :: buf[j].blockno
  }

  // A process that holds the buffers held gets a buffer for block n, which no other
  // process is using.
  lemma RoomAlone(c: Cache, n: nat, held: set<nat>, foreign: set<nat>)
    requires Good(c) && HeldBy(c, held, foreign) && n < |c.disk|
    requires forall j :: 0 <= j < NBUF && j in held ==> c.buf[j].blockno != n
    requires n !in foreign && (n in Pins(c.buf) || |Pins(c.buf) + HeldBlocks(c.buf, held) + foreign| < NBUF)
    ensures BreadSlot(c, n) < NBUF && BreadSlot(c, n) !in held
    ensures SlotOf(c.buf, n) < NBUF ==> !c.buf[SlotOf(c.buf, n)].locked
  {
    BreadPanics(c, n);
    if n in Pins(c.buf) {
      PinnedSlot(c, n);
    } else {
      RoomForMiss(c, Pins(c.buf) + HeldBlocks(c.buf, held) + foreign);
    }
  }

  lemma BreadAlone(c: Cache, n: nat, held: set<nat>, foreign: set<nat>)
    requires Good(c) && HeldBy(c, held, foreign) && n < |c.disk|
    requires BreadSlot(c, n) < NBUF && BreadSlot(c, n) !in held && n !in foreign
    requires SlotOf(c.buf, n) < NBUF ==> !c.buf[SlotOf(c.buf, n)].locked
    ensures var e := Bread(c, n);
      HeldBy(e, held + {BreadSlot(c, n)}, foreign) && Pins(e.buf) == Pins(c.buf)
  {
    BreadLatest(c, n);
    SamePins(c.buf, Bread(c, n).buf);
  }

  // brelse by the holder.
  lemma BrelseAlone(c: Cache, i: nat, held: set<nat>, foreign: set<nat>)
    requires Good(c) && HeldBy(c, held, foreign) && i in held && i < NBUF
    requires c.buf[i].valid ==> c.buf[i].data == c.view[c.buf[i].blockno]
    ensures var e := Brelse(c, i);
      && Good(e) && HeldBy(e, held - {i}, foreign) && Pins(e.buf) == Pins(c.buf)
      && e.view == c.view && e.disk == c.disk
      && forall j :: 0 <= j < NBUF && j != i ==> e.buf[j] == c.buf[j]
  {
    BrelseGood(c, i);
    SamePins(c.buf, Brelse(c, i).buf);
  }

  // What Good says of the sizes.
  lemma Sizes(c: Cache)
    requires Good(c)
    ensures |c.buf| == NBUF && forall k :: 0 <= k < |c.order| ==> c.order[k] < |c.buf|
  {
  }

  // Overwriting a held buffer and writing it through unpins its block.
  lemma WriteThrough(c: Cache, i: nat, held: set<nat>, foreign: set<nat>, data: Block)
    requires Good(c) && HeldBy(c, held, foreign) && i in held && i < NBUF && c.buf[i].valid
    ensures var n, e := c.buf[i].blockno, Bwrite(Modify(c, i, data), i);
      && Good(e) && HeldBy(e, held, foreign) && Pins(e.buf) == Pins(c.buf) - {n}
      && e.view == c.view[n := data] && e.disk == c.disk[n := data]
      && e.buf[i].valid && e.buf[i].data == data && e.buf[i].blockno == n
      && forall j :: 0 <= j < NBUF && j != i ==> e.buf[j] == c.buf[j]
  {
    ModifyGood(c, i, data);
    BwriteGood(Modify(c, i, data), i);
    var e := Bwrite(Modify(c, i, data), i);
    Unpins(c, i, e.buf);
    hide OneEach, Coherent, Pins, Permutation, Recency;
  }

  lemma Unpins(c: Cache, i: nat, buf: seq<Buf>)
    requires Good(c) && i < NBUF == |buf| && c.buf[i].valid && !buf[i].dirty
    requires forall j :: 0 <= j < NBUF && j != i ==> buf[j] == c.buf[j]
    ensures Pins(buf) == Pins(c.buf) - {c.buf[i].blockno}
  {
    var n := c.buf[i].blockno;
    forall m | m in Pins(c.buf) - {n}
      ensures m in Pins(buf)
    {
      var j :| 0 <= j < NBUF && c.buf[j].dirty && c.buf[j].blockno == m;
      assert buf[j].dirty && buf[j].blockno == m;
    }
    forall m | m in Pins(buf)
      ensures m in Pins(c.buf) - {n}
    {
      var j :| 0 <= j < NBUF && buf[j].dirty && buf[j].blockno == m;
      assert j != i && c.buf[j].dev == ROOTDEV == c.buf[i].dev;
    }
  }

  // A modified buffer that is logged pins its block.
  lemma PinAlone(c: Cache, i: nat)
    requires Good(c) && i < NBUF && c.buf[i].locked && c.buf[i].valid
    ensures Pins(Pin(c, i).buf) == Pins(c.buf) + {c.buf[i].blockno}
  {
    var e := Pin(c, i);
    assert e.buf[i].dirty;
    forall m | m in Pins(c.buf)
      ensures m in Pins(e.buf)
    {
      var j :| 0 <= j < NBUF && c.buf[j].dirty && c.buf[j].blockno == m;
      assert e.buf[j].dirty && e.buf[j].blockno == m;
    }
  }
}
