/** log.c over the buffer cache: transactions, commit and recovery. */
module Log {
  import opened Params
  import opened Sets
  import opened Blocks
  import opened LogDisk
  import opened BufferCache
  import B = Bcache

  // What the disk goes through in the first j writes of a commit that starts at d.
  ghost function CommitTrace(g: Geometry, d: Disk, lh: seq<nat>, cache: Disk, j: nat): (t: seq<Disk>)
    requires ValidGeometry(g, |d|) && ValidBlocks(g, |d|, lh)
    requires |cache| == |d| && j <= 2 * |lh| + 2
    ensures |t| == j && forall k :: 0 <= k < j ==> t[k] == CommitAt(g, d, lh, cache, k + 1)
  {
    if j == 0 then [] else CommitTrace(g, d, lh, cache, j - 1) + [CommitAt(g, d, lh, cache, j)]
  }

  // And in the first j writes of a recovery.
  ghost function RecoverTrace(g: Geometry, d: Disk, lh: seq<nat>, j: nat): (t: seq<Disk>)
    requires ValidGeometry(g, |d|) && ValidBlocks(g, |d|, lh) && j <= |lh| + 1
    ensures |t| == j && forall k :: 0 <= k < j ==> t[k] == RecoverAt(g, d, lh, k + 1)
  {
    if j == 0 then [] else RecoverTrace(g, d, lh, j - 1) + [RecoverAt(g, d, lh, j)]
  }

  // Every disk contents in t recovers to one of two home states.
  ghost predicate AllOrNothing(g: Geometry, t: seq<Disk>, before: Disk, after: Disk) {
    forall i :: 0 <= i < |t| ==>
      && ValidHeader(g, t[i])
      && (SameHome(g, Recovered(g, t[i]), before) || SameHome(g, Recovered(g, t[i]), after))
  }

  lemma NothingWritten(g: Geometry, before: Disk, after: Disk)
    ensures AllOrNothing(g, [], before, after)
  {
  }

  lemma CommitTraceAtomic(g: Geometry, d: Disk, lh: seq<nat>, cache: Disk)
    requires ValidHeader(g, d) && Pending(g, d) == [] && ValidBlocks(g, |d|, lh) && DiffersOnlyIn(g, d, cache, lh)
    ensures AllOrNothing(g, CommitTrace(g, d, lh, cache, 2 * |lh| + 2), d, cache)
  {
    var t := CommitTrace(g, d, lh, cache, 2 * |lh| + 2);
    forall i | 0 <= i < |t|
      ensures ValidHeader(g, t[i])
      ensures SameHome(g, Recovered(g, t[i]), d) || SameHome(g, Recovered(g, t[i]), cache)
    {
      CommitAtProgress(g, d, lh, cache, i + 1);
      CrashDuringCommit(g, d, CommitAt(g, d, lh, cache, i + 1), lh, cache, i + 1);
    }
  }

  lemma CommitLogStep(g: Geometry, d: Disk, lh: seq<nat>, cache: Disk, k: nat)
    requires ValidGeometry(g, |d|) && ValidBlocks(g, |d|, lh) && |cache| == |d| && k < |lh|
    ensures CommitAt(g, d, lh, cache, 0) == d && CommitTrace(g, d, lh, cache, 0) == []
    ensures g.start + k + 1 < |d| && lh[k] < |d|
    ensures CommitAt(g, d, lh, cache, k + 1) == CommitAt(g, d, lh, cache, k)[g.start + k + 1 := cache[lh[k]]]
    ensures CommitTrace(g, d, lh, cache, k + 1) == CommitTrace(g, d, lh, cache, k) + [CommitAt(g, d, lh, cache, k + 1)]
  {
  }

  // The header write of a commit, after the blocks of the log are written.
  lemma CommitHeaderStep(g: Geometry, d: Disk, lh: seq<nat>, cache: Disk)
    requires ValidHeader(g, d) && Pending(g, d) == [] && ValidBlocks(g, |d|, lh) && DiffersOnlyIn(g, d, cache, lh)
    ensures |cache| == |d|
    ensures var e := CommitAt(g, d, lh, cache, |lh|);
      && g.start < |e| == |d| == |cache| && |lh| <= LOGSIZE && (forall k :: 0 <= k < |lh| ==> lh[k] < UINT)
      && CommitAt(g, d, lh, cache, |lh| + 1) == e[g.start := EncodeHeader(e[g.start], lh)]
    ensures CommitTrace(g, d, lh, cache, |lh| + 1) ==
            CommitTrace(g, d, lh, cache, |lh|) + [CommitAt(g, d, lh, cache, |lh| + 1)]
  {
    hide EncodeHeader, DecodeHeader;
  }

  // What the whole of a commit leaves.
  lemma CommitEnds(g: Geometry, d: Disk, lh: seq<nat>, cache: Disk)
    requires ValidHeader(g, d) && Pending(g, d) == [] && ValidBlocks(g, |d|, lh) && DiffersOnlyIn(g, d, cache, lh)
    ensures var e := CommitAt(g, d, lh, cache, 2 * |lh| + 2);
      ValidHeader(g, e) && Pending(g, e) == [] && SameHome(g, e, cache)
    ensures AllOrNothing(g, CommitTrace(g, d, lh, cache, 2 * |lh| + 2), d, cache)
  {
    hide CommitAt, CommitProgress, AllOrNothing, CommitTrace;
    CommitAtProgress(g, d, lh, cache, 2 * |lh| + 2);
    CommitFacts(g, d, CommitAt(g, d, lh, cache, 2 * |lh| + 2), lh, cache, 2 * |lh| + 2);
    CommitTraceAtomic(g, d, lh, cache);
  }

  // Past the header write, commit does what recovery would do.
  lemma {:induction false} CommitInstalls(g: Geometry, d: Disk, lh: seq<nat>, cache: Disk, k: nat)
    requires ValidGeometry(g, |d|) && ValidBlocks(g, |d|, lh)
    requires |cache| == |d| && k <= |lh| + 1
    ensures var c := CommitAt(g, d, lh, cache, |lh| + 1);
      && CommitAt(g, d, lh, cache, |lh| + 1 + k) == RecoverAt(g, c, lh, k)
      && CommitTrace(g, d, lh, cache, |lh| + 1 + k)
        == CommitTrace(g, d, lh, cache, |lh| + 1) + RecoverTrace(g, c, lh, k)
  {
    if k > 0 {
      CommitInstalls(g, d, lh, cache, k - 1);
    }
  }

  // read_head's loop: the block numbers named by header block h.
  method CopyIn(h: Block) returns (lh: seq<nat>)
    requires h[0] <= LOGSIZE
    ensures lh == DecodeHeader(h)
  {
    var n: nat := h[0];
    lh := [];
    var i := 0;
    while i < n
      invariant 0 <= i <= n && |lh| == i
      invariant forall k :: 0 <= k < i ==> lh[k] == h[k + 1]
    {
      lh := lh + [h[i + 1]];
      i := i + 1;
    }
  }

  // write_head's loop: lh over the header block was.
  method CopyOut(was: Block, lh: seq<nat>) returns (h: Block)
    requires |lh| <= LOGSIZE
    requires forall k :: 0 <= k < |lh| ==> lh[k] < UINT
    ensures h == EncodeHeader(was, lh)
  {
    h := was[0 := |lh|];
    var i := 0;
    while i < |lh|
      invariant 0 <= i <= |lh|
      invariant forall k :: 0 <= k < WORDS ==> h[k] == if k == 0 then |lh| else if k <= i then lh[k - 1] else was[k]
    {
      h := h[i + 1 := lh[i]];
      i := i + 1;
    }
  }

  class Log {
    const g: Geometry          // log.start, log.size
    const bc: B.Bcache
    var outstanding: int
    var committing: bool
    var lh: seq<nat>           // log.lh: block[0 .. n)
    ghost var foreign: set<nat> // blocks that processes outside any operation may be reading

    // The cache under the log: pinned are exactly the blocks of the transaction.
    ghost predicate Valid()
      reads this, bc, bc.buf, bc.next, bc.prev
    {
      && bc.Valid()
      && ValidGeometry(g, |bc.disk|) && g.size <= NBUF
      && ValidBlocks(g, |bc.disk|, lh)
      && bc.Pinned() == Elements(lh)
    }

    // No operation is holding a buffer, and nobody but the commit uses the log's blocks.
    ghost predicate Quiet()
      reads this, bc, bc.buf, bc.next, bc.prev
    {
      bc.Alone({}, foreign) && forall n :: n in foreign ==> !InLog(g, n)
    }

    // The blocks of the transaction and those being read leave a buffer to copy with. A
    // commit would wait for a reader of one of its own blocks.
    ghost predicate Roomy()
      reads this
    {
      Elements(lh) !! foreign && |Elements(lh) + foreign| < NBUF
    }

    // What Valid says of the parts that do not depend on the header in memory.
    ghost predicate Sound()
      reads this, bc, bc.buf, bc.next, bc.prev
    {
      && bc.Valid()
      && ValidGeometry(g, |bc.disk|) && g.size <= NBUF
    }

    // The disk holds no committed transaction, and all but the blocks of the
    // current one are up to date on it.
    ghost predicate Clean()
      reads this, bc
    {
      ValidHeader(g, bc.disk) && Pending(g, bc.disk) == []
    }

    // initlog, on a cache that has just been set up.
    constructor (g: Geometry, bc: B.Bcache)
      requires bc.Valid() && HeldBy(bc.State(), {}, {}) && bc.Pinned() == {}
      requires ValidHeader(g, bc.disk) && g.size <= NBUF
      modifies bc, bc.buf, bc.next, bc.prev
      ensures this.g == g && this.bc == bc
      ensures Valid() && Quiet() && Clean() && lh == [] && outstanding == 0 && !committing
      ensures bc.disk == bc.view == old(Recovered(g, bc.disk))
      ensures bc.trace == old(bc.trace) + old(RecoverTrace(g, bc.disk, Pending(g, bc.disk), |Pending(g, bc.disk)| + 1))
    {
      this.g := g;
      this.bc := bc;
      outstanding, committing, lh, foreign := 0, false, [], {};
      new;
      hide Good, B.Linked, HeldBy, Pins, Recovered, RecoverTrace, ValidGeometry, Pending, ValidHeader;
      RecoverFromLog();
    }

    method ReadHead()
      requires Sound() && Quiet() && bc.Pinned() == {} && foreign == {}
      requires ValidHeader(g, bc.disk)
      modifies this`lh, bc, bc.buf, bc.next, bc.prev
      ensures Sound() && Quiet() && bc.Pinned() == {}
      ensures bc.disk == old(bc.disk) && bc.view == old(bc.view) && bc.trace == old(bc.trace)
      ensures lh == Pending(g, bc.disk)
    {
      NotPinnedOnDisk(bc.State(), g.start);
      var b := bc.ReadAlone(g.start, {}, foreign);
      var h := bc.buf[b].data;
      lh := CopyIn(h);
      bc.ReleaseAlone(b, {b}, foreign);
      assert {b} - {b} == {};
    }

    method WriteHead()
      requires Sound() && Quiet() && |bc.Pinned() + foreign| < NBUF && g.start !in bc.Pinned()
      requires ValidBlocks(g, |bc.disk|, lh)
      modifies bc, bc.buf, bc.next, bc.prev
      ensures Sound() && Quiet() && bc.Pinned() == old(bc.Pinned())
      ensures bc.disk == old(bc.disk)[g.start := EncodeHeader(old(bc.disk)[g.start], lh)]
      ensures bc.view == old(bc.view)[g.start := bc.disk[g.start]]
      ensures bc.trace == old(bc.trace) + [bc.disk]
    {
      hide Good, B.Linked, HeldBy, Pins;
      NotPinnedOnDisk(bc.State(), g.start);
      var b := bc.ReadAlone(g.start, {}, foreign);
      ghost var was := bc.buf[b].data;
      var h := CopyOut(bc.buf[b].data, lh);
      bc.WriteAlone(b, h, {b}, foreign);
      bc.ReleaseAlone(b, {b}, foreign);
      assert {b} - {b} == {};
    }

    // How far write_log has got: the first k blocks of a commit that began with
    // disk d, latest contents v and history t.
    ghost predicate Logged(d: Disk, v: Disk, t: seq<Disk>, k: nat)
      reads this, bc
    {
      && ValidGeometry(g, |d|) && ValidBlocks(g, |d|, lh) && |d| == |v| && k <= |lh|
      && SameHome(g, bc.view, v)
      && bc.disk == CommitAt(g, d, lh, v, k)
      && bc.trace == t + CommitTrace(g, d, lh, v, k)
    }

    // Copies cache blocks to the log.
    method WriteLog(ghost d: Disk, ghost v: Disk, ghost t: seq<Disk>)
      requires Valid() && Quiet() && Roomy()
      requires d == bc.disk && v == bc.view && t == bc.trace
      modifies bc, bc.buf, bc.next, bc.prev
      ensures Valid() && Quiet() && Logged(d, v, t, |lh|)
    {
      assert t + CommitTrace(g, d, lh, v, 0) == t;
      var tail := 0;
      while tail < |lh|
        invariant 0 <= tail <= |lh| && Valid() && Quiet() && Logged(d, v, t, tail)
      {
        CopyToLog(tail, d, v, t);
        tail := tail + 1;
      }
    }

    method CopyToLog(tail: nat, ghost d: Disk, ghost v: Disk, ghost t: seq<Disk>)
      requires Valid() && Quiet() && tail < |lh| && Roomy() && Logged(d, v, t, tail)
      modifies bc, bc.buf, bc.next, bc.prev
      ensures Valid() && Quiet() && Logged(d, v, t, tail + 1)
    {
      hide Good, B.Linked, HeldBy, Pins, B.Bcache.Alone, B.Bcache.Valid, B.Bcache.State, B.Bcache.Pinned;
      hide CommitAt, CommitTrace;
      CommitLogStep(g, d, lh, v, tail);
      ghost var u := CommitTrace(g, d, lh, v, tail);
      CopyBlockToLog(tail);
      assert (t + u) + [bc.disk] == t + (u + [bc.disk]);
    }

    method CopyBlockToLog(tail: nat)
      requires Valid() && Quiet() && tail < |lh| && Roomy()
      modifies bc, bc.buf, bc.next, bc.prev
      ensures Valid() && Quiet()
      ensures bc.disk == old(bc.disk)[g.start + tail + 1 := old(bc.view)[lh[tail]]]
      ensures bc.view == old(bc.view)[g.start + tail + 1 := old(bc.view)[lh[tail]]]
      ensures bc.trace == old(bc.trace) + [bc.disk]
    {
      hide Good, B.Linked, HeldBy, Pins, Distinct, B.Bcache.Alone, B.Bcache.Valid, B.Bcache.State, B.Bcache.Pinned;
      ElementsCount(lh);
      assert lh[tail] in Elements(lh);
      var to, from := bc.ReadTwo(g.start + tail + 1, lh[tail], foreign);
      bc.WriteAlone(to, bc.buf[from].data, {to, from}, foreign);
      assert {to, from} == {from, to};
      bc.ReleaseTwo(from, to, foreign);
    }

    // Copies committed blocks from the log to their home locations.
    method InstallTrans()
      requires Sound() && Quiet() && Roomy() && ValidBlocks(g, |bc.disk|, lh)
      requires bc.Pinned() <= Elements(lh)
      modifies bc, bc.buf, bc.next, bc.prev
      ensures Sound() && Quiet() && bc.Pinned() == {}
      ensures bc.disk == RecoverAt(g, old(bc.disk), lh, |lh|)
      ensures bc.trace == old(bc.trace) + RecoverTrace(g, old(bc.disk), lh, |lh|)
    {
      hide Good, B.Linked, HeldBy, Pins, B.Bcache.Alone, B.Bcache.Valid, B.Bcache.State, B.Bcache.Pinned;
      ghost var d, t := bc.disk, bc.trace;
      var tail := 0;
      while tail < |lh|
        invariant 0 <= tail <= |lh| && Sound() && Quiet() && ValidBlocks(g, |bc.disk|, lh)
        invariant bc.Pinned() <= Elements(lh[tail..])
        invariant |bc.disk| == |d| && bc.disk == RecoverAt(g, d, lh, tail)
        invariant bc.trace == t + RecoverTrace(g, d, lh, tail)
      {
        assert Elements(lh[tail..]) <= Elements(lh);
        assert Elements(lh[tail..]) - {lh[tail]} <= Elements(lh[tail + 1..]);
        ghost var u := RecoverTrace(g, d, lh, tail);
        CopyHome(tail);
        tail := tail + 1;
        assert (t + u) + [bc.disk] == t + (u + [bc.disk]);
      }
      assert Elements(lh[|lh|..]) == {};
    }

    method CopyHome(tail: nat)
      requires Sound() && Quiet() && tail < |lh| && Roomy() && ValidBlocks(g, |bc.disk|, lh)
      requires bc.Pinned() <= Elements(lh)
      modifies bc, bc.buf, bc.next, bc.prev
      ensures Sound() && Quiet() && bc.Pinned() == old(bc.Pinned()) - {lh[tail]}
      ensures bc.disk == old(bc.disk)[lh[tail] := old(bc.disk)[g.start + tail + 1]]
      ensures bc.trace == old(bc.trace) + [bc.disk]
    {
      hide Good, B.Linked, HeldBy, Pins, B.Bcache.Alone, B.Bcache.Valid, B.Bcache.State, B.Bcache.Pinned;
      hide Roomy, Elements, Distinct, HomeBlocks, ValidBlocks, ValidGeometry;
      CanInstall(tail);
      var lbuf, dbuf := bc.ReadTwo(g.start + tail + 1, lh[tail], foreign);
      bc.WriteAlone(dbuf, bc.buf[lbuf].data, {lbuf, dbuf}, foreign);
      bc.ReleaseTwo(lbuf, dbuf, foreign);
    }

    // The log block and the home block can be read; the log block is never pinned.
    lemma CanInstall(tail: nat)
      requires Sound() && Quiet() && tail < |lh| && Roomy() && ValidBlocks(g, |bc.disk|, lh)
      requires bc.Pinned() <= Elements(lh)
      ensures var m, n := g.start + tail + 1, lh[tail];
        && m < |bc.disk| == |bc.view| && n < |bc.disk| && m != n
        && m !in foreign && n !in foreign && |bc.Pinned() + foreign| < NBUF
        && (n in bc.Pinned() || |bc.Pinned() + {m} + foreign| < NBUF)
        && bc.view[m] == bc.disk[m]
    {
      hide Good, B.Linked, HeldBy, Pins, B.Bcache.Pinned;
      RoomToInstall(tail);
      LogBlockOnDisk(tail);
    }

    lemma LogBlockOnDisk(tail: nat)
      requires Sound() && tail < |lh| && ValidBlocks(g, |bc.disk|, lh) && bc.Pinned() <= Elements(lh)
      ensures |bc.view| == |bc.disk| && bc.view[g.start + tail + 1] == bc.disk[g.start + tail + 1]
    {
      ghost var c, n := bc.State(), g.start + tail + 1;
      assert Good(c) && n !in Pins(c.buf) && |c.view| == |c.disk| && n < |c.disk|;
      hide Good, B.Linked, B.Bcache.Valid, Pins, Elements;
      NotPinnedOnDisk(c, n);
    }

    // NBUF leaves room for the pinned blocks, those being read, a log block and a home block.
    lemma RoomToInstall(tail: nat)
      requires Sound() && tail < |lh| && Roomy() && bc.Pinned() <= Elements(lh)
      ensures |bc.Pinned() + foreign| < NBUF && lh[tail] !in foreign
      ensures lh[tail] in bc.Pinned() || |bc.Pinned() + {g.start + tail + 1} + foreign| < NBUF
    {
      var pins, all, to := bc.Pinned(), Elements(lh), {g.start + tail + 1};
      SubsetCount(pins + foreign, all + foreign);
      assert lh[tail] in all;
      if lh[tail] !in pins {
        SubsetCount(pins + foreign, all + foreign - {lh[tail]});
        assert pins + to + foreign == (pins + foreign) + to;
      }
    }

    // At boot nobody reads yet.
    lemma RoomAtBoot()
      requires Sound() && foreign == {} && ValidBlocks(g, |bc.disk|, lh)
      ensures Roomy()
    {
      ElementsCount(lh);
      assert Elements(lh) + foreign == Elements(lh);
    }

    method RecoverFromLog()
      requires Sound() && Quiet() && bc.Pinned() == {} && foreign == {}
      requires ValidHeader(g, bc.disk)
      modifies this`lh, bc, bc.buf, bc.next, bc.prev
      ensures Valid() && Quiet() && Clean() && lh == []
      ensures bc.disk == bc.view == old(Recovered(g, bc.disk))
      ensures bc.trace == old(bc.trace) + old(RecoverTrace(g, bc.disk, Pending(g, bc.disk), |Pending(g, bc.disk)| + 1))
    {
      hide Good, B.Linked, HeldBy, Pins;
      RecoveredShape(g, bc.disk);
      ReadHead();
      RoomAtBoot();
      InstallAndClear();
      UnpinnedView();
    }

    // With nothing pinned the disk is up to date.
    lemma UnpinnedView()
      requires Sound() && bc.Pinned() == {}
      ensures bc.disk == bc.view
    {
      forall b | 0 <= b < |bc.disk|
        ensures bc.disk[b] == bc.view[b]
      {
        NotPinnedOnDisk(bc.State(), b);
      }
    }

    lemma PinnedDiffer()
      requires Valid()
      ensures DiffersOnlyIn(g, bc.disk, bc.view, lh)
    {
      forall b | 0 <= b < |bc.disk| && !InLog(g, b) && b !in lh
        ensures bc.disk[b] == bc.view[b]
      {
        NotPinnedOnDisk(bc.State(), b);
      }
    }

    method Commit()
      requires Valid() && Quiet() && Clean() && Roomy()
      modifies this`lh, bc, bc.buf, bc.next, bc.prev
      ensures Valid() && Quiet() && Clean() && lh == []
      ensures SameHome(g, bc.disk, old(bc.view)) && bc.view == bc.disk
      ensures old(lh) != [] ==>
                bc.trace == old(bc.trace) + CommitTrace(g, old(bc.disk), old(lh), old(bc.view), 2 * |old(lh)| + 2)
      ensures old(lh) == [] ==> bc.trace == old(bc.trace) && bc.disk == old(bc.disk)
      ensures AllOrNothing(g, bc.trace[|old(bc.trace)|..], old(bc.disk), old(bc.view))
    {
      hide Good, B.Linked, HeldBy, Pins, B.Bcache.Alone, CommitAt, CommitTrace, AllOrNothing, Recovered,
        ValidGeometry, Pending, ValidHeader;
      PinnedDiffer();
      ghost var d, v, t := bc.disk, bc.view, lh;
      if |lh| > 0 {
        CommitWrites();
        CommitEnds(g, d, t, v);
        assert bc.trace[|old(bc.trace)|..] == CommitTrace(g, d, t, v, 2 * |t| + 2);
      } else {
        assert Elements(lh) == {};
        UnpinnedView();
        assert bc.trace[|old(bc.trace)|..] == [];
        NothingWritten(g, d, v);
      }
    }

    // commit() of a transaction that has blocks.
    method CommitWrites()
      requires Valid() && Quiet() && Clean() && Roomy() && DiffersOnlyIn(g, bc.disk, bc.view, lh)
      modifies this`lh, bc, bc.buf, bc.next, bc.prev
      ensures Sound() && Quiet() && bc.Pinned() == {} && lh == [] && bc.view == bc.disk
      ensures bc.disk == CommitAt(g, old(bc.disk), old(lh), old(bc.view), 2 * |old(lh)| + 2)
      ensures bc.trace == old(bc.trace) + CommitTrace(g, old(bc.disk), old(lh), old(bc.view), 2 * |old(lh)| + 2)
    {
      hide Good, B.Linked, HeldBy, Pins, Elements, Distinct, B.Bcache.Alone;
      hide CommitTrace, RecoverTrace, CommitAt, RecoverAt;
      CommitInstalls(g, bc.disk, lh, bc.view, |lh| + 1);
      ghost var t, u := bc.trace, CommitTrace(g, bc.disk, lh, bc.view, |lh| + 1);
      WriteLogAndHead();
      ghost var v := RecoverTrace(g, bc.disk, lh, |lh| + 1);
      InstallAndClear();
      assert (t + u) + v == t + (u + v);
      UnpinnedView();
    }

    lemma HeadNotPinned()
      requires Valid()
      ensures g.start !in bc.Pinned() && ValidBlocks(g, |bc.disk|, lh)
    {
    }

    // Up to the header write, the commit point.
    method WriteLogAndHead()
      requires Valid() && Quiet() && Clean() && Roomy() && DiffersOnlyIn(g, bc.disk, bc.view, lh)
      modifies bc, bc.buf, bc.next, bc.prev
      ensures Valid() && Quiet() && |bc.disk| == |old(bc.disk)|
      ensures bc.disk == CommitAt(g, old(bc.disk), lh, old(bc.view), |lh| + 1)
      ensures bc.trace == old(bc.trace) + CommitTrace(g, old(bc.disk), lh, old(bc.view), |lh| + 1)
    {
      hide Good, B.Linked, HeldBy, Pins, B.Bcache.Alone, CommitAt, CommitTrace, EncodeHeader;
      hide ValidHeader, Pending, DiffersOnlyIn, SameHome, InLog, Distinct, B.Bcache.Valid, B.Bcache.Pinned;
      CommitHeaderStep(g, bc.disk, lh, bc.view);
      ghost var d, v, t := bc.disk, bc.view, bc.trace;
      ghost var e, u := CommitAt(g, d, lh, v, |lh|), CommitTrace(g, d, lh, v, |lh|);
      WriteLog(d, v, t);
      HeadNotPinned();
      WriteHead();
      assert bc.disk == e[g.start := EncodeHeader(e[g.start], lh)];
      assert (t + u) + [bc.disk] == t + (u + [bc.disk]);
    }

    // After it: what recovery does too.
    method InstallAndClear()
      requires Sound() && Quiet() && Roomy() && ValidBlocks(g, |bc.disk|, lh)
      requires bc.Pinned() <= Elements(lh)
      modifies this`lh, bc, bc.buf, bc.next, bc.prev
      ensures Sound() && Quiet() && bc.Pinned() == {} && lh == []
      ensures bc.disk == RecoverAt(g, old(bc.disk), old(lh), |old(lh)| + 1)
      ensures bc.trace == old(bc.trace) + RecoverTrace(g, old(bc.disk), old(lh), |old(lh)| + 1)
    {
      hide Good, B.Linked, HeldBy, Pins, Elements, B.Bcache.Alone;
      InstallTrans();
      lh := [];
      WriteHead();
    }

    // ---- operations -------------------------------------------------------

    // One pass of begin_op's loop with the lock held; otherwise the caller sleeps.
    method TryBeginOp() returns (admitted: bool)
      requires Valid()
      modifies this`outstanding
      ensures Valid()
      ensures admitted <==> Admits(committing, |lh|, old(outstanding))
      ensures outstanding == if admitted then old(outstanding) + 1 else old(outstanding)
    {
      admitted := false;
      if committing {
        return;
      } else if |lh| + (outstanding + 1) * MAXOPBLOCKS > LOGSIZE {
        return;
      }
      outstanding := outstanding + 1;
      admitted := true;
    }

    // log_write of the held buffer b; false stands for a panic.
    method LogWrite(b: nat) returns (ok: bool)
      requires Valid() && b < NBUF && bc.buf[b].locked && bc.buf[b].valid
      requires bc.buf[b].blockno < |bc.disk| && !InLog(g, bc.buf[b].blockno)
      modifies this`lh, bc.buf, bc`view
      ensures Valid()
      ensures ok <==> !TooBig(g, |old(lh)|) && outstanding >= 1
      ensures !ok ==> lh == old(lh) && bc.State() == old(bc.State())
      ensures ok ==> lh == Absorb(old(lh), old(bc.buf[b].blockno)) && bc.State() == Pin(old(bc.State()), b)
      ensures bc.disk == old(bc.disk) && bc.trace == old(bc.trace)
    {
      if |lh| >= LOGSIZE || |lh| >= g.size - 1 {
        return false;
      }
      if outstanding < 1 {
        return false;
      }
      var n := bc.buf[b].blockno;
      var i := 0;
      while i < |lh|
        invariant 0 <= i <= |lh| && n !in lh[..i]
      {
        if lh[i] == n {
          break;
        }
        i := i + 1;
      }
      assert lh[..|lh|] == lh;
      AbsorbValid(g, |bc.disk|, lh, n);
      PinAlone(bc.State(), b);
      ElementsAbsorb(lh, n);
      ghost var s := bc.State();
      assert bc.Pinned() == Pins(s.buf) && s.buf[b] == bc.buf[b];
      lh := if i == |lh| then lh + [n] else lh[i := n];
      assert lh == Absorb(old(lh), n);
      bc.Pin(b);
      assert bc.buf[..] == Pin(s, b).buf;
      ok := true;
    }

    // end_op without the wakeups. The panic is reported as false; during the commit
    // processes outside any operation may be reading.
    method EndOp() returns (ok: bool)
      requires Valid() && Clean()
      requires outstanding == 1 && !committing ==> Quiet() && Roomy()
      modifies this`lh, this`outstanding, this`committing, bc, bc.buf, bc.next, bc.prev
      ensures Valid() && Clean()
      ensures ok <==> !old(committing)
      ensures outstanding == old(outstanding) - 1 && committing == old(committing)
      ensures !ok || outstanding != 0 ==> lh == old(lh) && bc.disk == old(bc.disk) && bc.trace == old(bc.trace)
      ensures ok && outstanding == 0 ==> lh == [] && SameHome(g, bc.disk, old(bc.view)) && bc.view == bc.disk
      ensures |old(bc.trace)| <= |bc.trace|
      ensures AllOrNothing(g, bc.trace[|old(bc.trace)|..], old(bc.disk), old(bc.view))
    {
      hide Good, B.Linked, HeldBy, Pins, Elements, Distinct, Recovered, ValidGeometry, Pending, ValidHeader,
        B.Bcache.Alone;
      outstanding := outstanding - 1;
      if committing {
        return false;
      }
      ok := true;
      if outstanding == 0 {
        committing := true;
        Commit();
        committing := false;
      }
    }
  }

  lemma ElementsAbsorb(lh: seq<nat>, n: nat)
    ensures Elements(Absorb(lh, n)) == Elements(lh) + {n}
  {
    var e := Absorb(lh, n);
    assert n in e;
    forall x | x in Elements(lh)
      ensures x in Elements(e)
    {
      var i :| 0 <= i < |lh| && lh[i] == x;
      assert e[i] == x;
    }
  }
}
