/** What one turn of the loops of readi, writei, itrunc and filewrite does, and what they
    leave when they are done. */
module FileSteps {
  import opened Params
  import opened Bytes
  import opened Files
  import opened FileData
  import opened FileWrite

  lemma MappedAlready(s: Fs, i: nat, bn: nat)
    requires Inv(s) && i < |s.inodes| && bn < MAXFILE && FileBlock(s, i, bn) != 0
    ensures Mapped(s, s, i, bn)
  {
  }

  // The least block that is not marked is free, as the blocks without file data are marked.
  lemma UnmarkedFree(s: Fs, b: nat)
    requires Inv(s) && b < s.sb.size && !Bit(s.bitmap, b)
    ensures Free(s, b)
  {
  }

  lemma InBitmapBlock(q: nat, bi: nat)
    requires bi < BPB
    ensures (BPB * q + bi) % 8 == bi % 8 && (BPB * q + bi) / BPB == q
  {
    SameBit(BSIZE * q, bi);
    Quotient(q, bi);
  }

  lemma SameBit(x: nat, bi: nat)
    ensures (8 * x + bi) % 8 == bi % 8
  {
  }

  lemma Quotient(q: nat, bi: nat)
    requires bi < BPB
    ensures (BPB * q + bi) / BPB == q
  {
  }

  ghost predicate Full(s: Fs)
    requires Shape(s)
  {
    forall b :: 0 <= b < s.sb.size ==> Bit(s.bitmap, b)
  }

  lemma EmptySlot(s: Fs, i: nat, k: nat)
    requires Shape(s) && i < |s.inodes| && k < NSLOTS && Slot(s, i, k) == 0
    requires k > INDIRECT ==> s.inodes[i].addrs[INDIRECT] != 0
    ensures Vacant(s, i, k)
  {
  }

  // A fresh indirect block has no entries.
  lemma IndirectAppears(s: Fs, i: nat, a: nat, bn: nat)
    requires Inv(s) && Vacant(s, i, INDIRECT) && Free(s, a) && NDIRECT <= bn < MAXFILE
    ensures var u := Filled(s, i, INDIRECT, a);
      && Inv(u) && Shape(u) && |u.inodes| == |s.inodes| && Vacant(u, i, bn + 1)
      && u.inodes[i].addrs[INDIRECT] == a == Slot(u, i, INDIRECT) && a != 0
      && WordAt(u.data[a], bn - NDIRECT) == 0
  {
    AssignInv(s, i, INDIRECT, a);
    AssignSlots(s, i, INDIRECT, a);
    AssignFrame(s, i, INDIRECT, a);
    hide Inv, WordAt, Zeros, Bit, SetBit;
    var u := Filled(s, i, INDIRECT, a);
    assert Slot(u, i, bn + 1) == 0;
  }

  // The blocks logged by bmap, as they are owned afterwards.
  lemma MappedTouches(s: Fs, t: Fs, i: nat, bn: nat, b: nat)
    requires Mapped(s, t, i, bn) && Shape(t) && FileBlock(t, i, bn) == b
    ensures b in Touched(t, i, bn, bn + 1)
    ensures Slot(t, i, INDIRECT) != 0 ==> Slot(t, i, INDIRECT) in Touched(t, i, bn, bn + 1)
    ensures forall c: nat :: c < t.sb.size ==> t.sb.bmapstart + c / BPB in Touched(t, i, bn, bn + 1)
  {
    hide Slot, Inv, Shape;
  }

  // The state inside itrunc: the slots in done are freed, and the pointers among them cleared.
  ghost predicate Freeing(s: Fs, t: Fs, i: nat, done: set<nat>) {
    && Inv(s) && Shape(s) && t == s.(bitmap := t.bitmap, inodes := t.inodes)
    && i < |s.inodes| == |t.inodes| && |t.inodes[i].addrs| == NDIRECT + 1
    && (forall j :: 0 <= j < |s.inodes| && j != i ==> t.inodes[j] == s.inodes[j])
    && (forall k: nat :: k <= INDIRECT ==> t.inodes[i].addrs[k] == if k in done then 0 else s.inodes[i].addrs[k])
    && FreedBits(s, t.bitmap, i, done)
  }

  predicate IsSlot(k: nat) {
    k < NSLOTS
  }

  // Slots 0 .. n - 1, and all but slot l.
  ghost function SlotsTo(n: nat): set<nat> {
    set k: nat | k < n && IsSlot(k)
  }

  ghost function SlotsBut(l: nat): set<nat> {
    set k: nat | k < NSLOTS && IsSlot(k) && k != l
  }

  lemma AllSlots()
    ensures SlotsTo(NSLOTS) == SlotsBut(INDIRECT) + {INDIRECT}
  {
  }

  lemma DirectSlot(s: Fs, i: nat, k: nat)
    requires Shape(s) && i < |s.inodes| && k <= INDIRECT
    ensures |s.inodes[i].addrs| == NDIRECT + 1 && Slot(s, i, k) == s.inodes[i].addrs[k]
  {
  }

  lemma EntrySlot(s: Fs, i: nat, j: nat)
    requires Shape(s) && i < |s.inodes| && j < NINDIRECT && Slot(s, i, INDIRECT) != 0
    ensures |s.inodes[i].addrs| == NDIRECT + 1
    ensures s.inodes[i].addrs[INDIRECT] < |s.data| && IsBlock(s.data[s.inodes[i].addrs[INDIRECT]])
    ensures Slot(s, i, INDIRECT + 1 + j) == WordAt(s.data[s.inodes[i].addrs[INDIRECT]], j)
  {
    hide WordAt;
  }

  // Without an indirect block there is nothing left to free.
  lemma NoEntries(s: Fs, bitmap: seq<bv8>, i: nat)
    requires Inv(s) && Shape(s) && i < |s.inodes| && Slot(s, i, INDIRECT) == 0
      && FreedBits(s, bitmap, i, SlotsTo(NDIRECT))
    ensures FreedBits(s, bitmap, i, SlotsTo(NSLOTS))
  {
    hide Bit, WordAt;
    assert forall c :: c in s.owner && s.owner[c].0 == i ==> s.owner[c].1 in SlotsTo(NDIRECT) by {
      forall c | c in s.owner && s.owner[c].0 == i
        ensures s.owner[c].1 < NDIRECT
      {
        assert Slot(s, i, s.owner[c].1) == c != 0;
      }
    }
  }

  // The free map has changed at the blocks of file i only, which are free now.
  ghost predicate FreesFile(s: Fs, bitmap: seq<bv8>, i: nat) {
    && |bitmap| == |s.bitmap|
    && forall c :: 0 <= c < s.sb.size && c / 8 < |bitmap| ==>
         (Bit(bitmap, c) <==> Bit(s.bitmap, c) && !(c in s.owner && s.owner[c].0 == i))
  }

  lemma AllFreed(s: Fs, bitmap: seq<bv8>, i: nat)
    requires Inv(s) && FreedBits(s, bitmap, i, SlotsTo(NSLOTS))
    ensures FreesFile(s, bitmap, i)
  {
    hide Bit, Slot;
  }

  // A file system with no file data: only the blocks without any are marked.
  lemma FreshInv(s: Fs)
    requires Shape(s) && s.owner == map[] && s.dinodes == s.inodes
    requires forall i :: 0 <= i < |s.inodes| ==> s.inodes[i] == EmptyInode()
    requires forall b :: 0 <= b < s.sb.size ==> (Bit(s.bitmap, b) <==> b < s.sb.nmeta)
    ensures Inv(s) && forall i :: 0 <= i < |s.inodes| ==> NoHoles(s, i) && Content(s, i) == []
  {
    hide Bit, WordAt;
    forall i, k | 0 <= i < |s.inodes| && 0 <= k < NSLOTS
      ensures Slot(s, i, k) == 0
    {
      assert s.inodes[i].addrs[INDIRECT] == 0;
    }
    CoveringZero();
  }

  // itrunc empties file i and leaves the contents of the others alone.
  lemma TruncatedContent(s: Fs, i: nat, bitmap: seq<bv8>)
    requires Inv(s) && i < |s.inodes| && FreesFile(s, bitmap, i)
    ensures var t := Truncated(s, i, bitmap);
      && Inv(t) && |t.inodes| == |s.inodes| && NoHoles(t, i) && Content(t, i) == [] && t.dinodes[i] == t.inodes[i]
      && forall j :: 0 <= j < |s.inodes| && j != i ==>
           Content(t, j) == Content(s, j) && (NoHoles(s, j) ==> NoHoles(t, j))
  {
    InvShape(s);
    TruncatedInv(s, i, bitmap, SlotsTo(NSLOTS));
    hide Inv, Slot, Shape, Covering, FreesFile;
    var t := Truncated(s, i, bitmap);
    InvShape(t);
    assert Covering(0) == 0 by { CoveringZero(); }
    forall j | 0 <= j < |s.inodes| && j != i
      ensures Content(t, j) == Content(s, j) && (NoHoles(s, j) ==> NoHoles(t, j))
    {
      assert forall x :: 0 <= x < MAXFILE ==> FileBlock(t, j, x) == FileBlock(s, j, x);
    }
    assert forall x :: 0 <= x < MAXFILE ==> FileBlock(t, i, x) == 0;
  }

  lemma CoveringZero()
    ensures Covering(0) == 0
  {
  }

  lemma Emptied(s: Fs, t: Fs, i: nat)
    requires Freeing(s, t, i, SlotsTo(NSLOTS))
    ensures t.inodes[i].(size := 0) == EmptyInode()
    ensures t.inodes[i := EmptyInode()] == s.inodes[i := EmptyInode()]
    ensures forall k: nat :: k < NSLOTS ==> k in SlotsTo(NSLOTS)
  {
    hide Inv, Shape, FreedBits;
    assert t.inodes[i].addrs == EmptyInode().addrs;
  }

  // Nothing that any file holds differs, and no other file's pointers.
  ghost predicate Same(s0: Fs, s: Fs, i: nat) {
    && Inv(s0) && Inv(s) && Frame(s0, s, i) && OthersKept(s0, s, i)
    && forall j, pos :: 0 <= j < |s0.inodes| && 0 <= pos < MAXBYTES ==> ByteAt(s, j, pos) == ByteAt(s0, j, pos)
  }

  lemma SameRefl(s: Fs, i: nat)
    requires Inv(s) && i < |s.inodes|
    ensures Same(s, s, i) && Shape(s)
  {
  }

  lemma SameStep(s0: Fs, s: Fs, t: Fs, i: nat, bn: nat)
    requires Same(s0, s, i) && Mapped(s, t, i, bn)
    ensures Same(s0, t, i) && Shape(s) && Shape(t) && |s.inodes| == |t.inodes| == |s0.inodes| && i < |t.inodes|
    ensures bn < MAXFILE && FileBlock(t, i, bn) != 0 && (FileBlock(s, i, bn) != 0 ==> t == s)
    ensures t.inodes[i].size == s.inodes[i].size
  {
    hide Inv, Slot, Shape, ByteAt, DataKept;
    InvShape(s0);
    InvShape(s);
    InvShape(t);
    forall j, pos | 0 <= j < |s0.inodes| && 0 <= pos < MAXBYTES
      ensures ByteAt(t, j, pos) == ByteAt(s0, j, pos)
    {
      MappedBytes(s, t, i, bn, j, pos);
      assert ByteAt(s, j, pos) == ByteAt(s0, j, pos);
    }
  }

  lemma SameInv(s0: Fs, s: Fs, i: nat)
    requires Same(s0, s, i)
    ensures Inv(s) && Shape(s) && |s.inodes| == |s0.inodes| && i < |s.inodes|
  {
  }

  lemma BlockThere(s: Fs, i: nat, pos: nat)
    requires Shape(s) && i < |s.inodes| && NoHoles(s, i) && pos < s.inodes[i].size
    ensures FileBlock(s, i, pos / BSIZE) != 0
  {
    hide Slot;
  }

  // n bytes of file i from position p.
  ghost function Stretch(s: Fs, i: nat, p: nat, n: nat): (c: seq<Byte>)
    requires Shape(s) && i < |s.inodes| && p + n <= MAXBYTES
    ensures |c| == n
  {
    seq<Byte>(n, q requires 0 <= q < n => ByteAt(s, i, p + q))
  }

  lemma StretchSplit(s: Fs, i: nat, p: nat, n: nat, m: nat)
    requires Shape(s) && i < |s.inodes| && p + n + m <= MAXBYTES
    ensures Stretch(s, i, p, n) + Stretch(s, i, p + n, m) == Stretch(s, i, p, n + m)
  {
    hide ByteAt, Shape;
  }

  lemma StretchRange(s: Fs, i: nat, off: nat, n: nat)
    requires Shape(s) && i < |s.inodes| && off <= s.inodes[i].size
    ensures s.inodes[i].size <= MAXBYTES
    ensures Range(Content(s, i), off, n) ==
            Stretch(s, i, off, if off + n > s.inodes[i].size then s.inodes[i].size - off else n)
  {
    hide ByteAt;
  }

  // What one turn of the loop of readi copies.
  lemma ReadChunk(s0: Fs, t: Fs, i: nat, p: nat, m: nat)
    requires Same(s0, t, i) && Shape(s0) && Shape(t) && i < |s0.inodes| && i < |t.inodes|
    requires p + m <= MAXBYTES && 0 < m && p % BSIZE + m <= BSIZE && FileBlock(t, i, p / BSIZE) != 0
    ensures var b := FileBlock(t, i, p / BSIZE);
      b < |t.data| && |t.data[b]| == BSIZE && t.data[b][p % BSIZE..p % BSIZE + m] == Stretch(s0, i, p, m)
  {
    hide Slot, OthersKept, Frame, Inv;
    InvShape(t);
    SlotOwner(t, i, FileSlot(p / BSIZE));
    var b := FileBlock(t, i, p / BSIZE);
    var part := t.data[b][p % BSIZE..p % BSIZE + m];
    forall q | 0 <= q < m
      ensures part[q] == ByteAt(s0, i, p + q)
    {
      InBlock(p, m, p + q);
      assert ByteAt(t, i, p + q) == ByteAt(s0, i, p + q);
    }
  }

  // writei refuses a start past the end, a sum that wraps, and an end past the largest file.
  predicate Accepts(size: nat, off: nat, n: nat) {
    off <= size && off + n < UINT && off + n <= MAXBYTES
  }

  // writei(ip, src, off, |src|) took s0 to t.
  ghost predicate Written(s0: Fs, t: Fs, i: nat, off: nat, src: seq<Byte>) {
    && Inv(s0) && Inv(t) && t.sb == s0.sb && i < |s0.inodes| == |t.inodes|
    && off <= s0.inodes[i].size && Content(t, i) == Splice(Content(s0, i), off, src)
    && (forall j :: 0 <= j < |s0.inodes| && j != i ==>
          t.inodes[j] == s0.inodes[j] && t.dinodes[j] == s0.dinodes[j] && Content(t, j) == Content(s0, j))
    && (forall j :: 0 <= j < |s0.inodes| && NoHoles(s0, j) ==> NoHoles(t, j))
    && (NoHoles(s0, i) && s0.dinodes[i] == s0.inodes[i] ==> t.dinodes[i] == t.inodes[i])
  }

  lemma WroteWritten(s0: Fs, s: Fs, i: nat, off: nat, src: seq<Byte>)
    requires Wrote(s0, s, i, off, src, |src|) && i < |s0.inodes| && off <= s0.inodes[i].size
    ensures i < |s.inodes| && i < |s.dinodes|
    ensures Written(s0, Finished(s, i, off + |src|), i, off, src)
  {
    hide Inv, Slot, NoHoles, Splice, BytesWritten, Content;
    WroteContent(s0, s, i, off, src);
    InvShape(s);
    FinishedSlots(s, i, off + |src|);
    var t := Finished(s, i, off + |src|);
    forall j | 0 <= j < |s0.inodes| && NoHoles(s0, j)
      ensures NoHoles(t, j)
    {
      if j == i {
        WroteNoHoles(s0, s, i, off, src);
      } else {
        WroteOthers(s0, s, i, off, src, j);
      }
    }
    if NoHoles(s0, i) {
      WroteNoHoles(s0, s, i, off, src);
    }
  }

  lemma WroteFacts(s0: Fs, s: Fs, i: nat, off: nat, src: seq<Byte>, tot: nat)
    requires Wrote(s0, s, i, off, src, tot)
    ensures Inv(s) && Shape(s) && Shape(s0) && i < |s.inodes| == |s0.inodes| && i < |s.dinodes| && tot <= |src|
    ensures s.inodes[i].size == s0.inodes[i].size
  {
  }

  lemma PutChunkIs(t: Fs, i: nat, off: nat, src: seq<Byte>, tot: nat)
    requires Stepping(t, i, off, |src|, tot) && Shape(t)
    ensures var p, m, b := off + tot, Chunk(off, tot, |src|), FileBlock(t, i, (off + tot) / BSIZE);
      && b < |t.data| && p % BSIZE + m <= |t.data[b]| && tot + m <= |src|
      && PutChunk(t, i, off, src, tot) == t.(data := t.data[b := Overwrite(t.data[b], p % BSIZE, src[tot..tot + m])])
  {
    hide Slot, Inv, Shape, Overwrite;
    ChunkBounds(off, tot, |src|);
    SlotOwner(t, i, FileSlot((off + tot) / BSIZE));
    InvShape(t);
    ShapeBlock(t, FileBlock(t, i, (off + tot) / BSIZE));
  }

  lemma ShapeBlock(t: Fs, b: nat)
    requires Shape(t) && b < |t.data|
    ensures |t.data[b]| == BSIZE
  {
  }

  // The blocks logged so far stay among those the write touches.
  lemma TouchedChunk(s0: Fs, s: Fs, t: Fs, i: nat, off: nat, src: seq<Byte>, tot: nat)
    requires Wrote(s0, s, i, off, src, tot) && Mapped(s, t, i, Reached(off, tot)) && Shape(s)
    requires Stepping(t, i, off, |src|, tot) && Shape(t) && Reached(off, tot) == (off + tot) / BSIZE
    ensures var u := PutChunk(t, i, off, src, tot); var lo, bn := off / BSIZE, Reached(off, tot);
      && Shape(u) && i < |s.inodes| && i < |u.inodes| && bn < MAXFILE && lo <= bn
      && Touched(s, i, lo, bn) <= Touched(u, i, lo, bn + 1)
      && Touched(t, i, bn, bn + 1) <= Touched(u, i, lo, bn + 1)
      && FileBlock(t, i, bn) in Touched(u, i, lo, bn + 1)
  {
    hide Slot, Inv, Shape, Touched, Overwrite, SlotsKept, DataKept, BytesWritten, OthersKept, Grown, NoHoles;
    PutChunkSlots(t, i, off, src, tot);
    PutChunkIs(t, i, off, src, tot);
    TouchedStep(s, t, PutChunk(t, i, off, src, tot), i, off / BSIZE, Reached(off, tot));
  }

  lemma FinishedTouched(s: Fs, i: nat, end: nat, lo: nat, hi: nat)
    requires Inv(s) && Shape(s) && i < |s.inodes| && end <= MAXBYTES && hi <= MAXFILE
    ensures i < |s.dinodes| && Shape(Finished(s, i, end)) && i < |Finished(s, i, end).inodes|
    ensures Touched(Finished(s, i, end), i, lo, hi) == Touched(s, i, lo, hi)
  {
    hide Inv, Slot, ByteAt;
    FinishedSlots(s, i, end);
    assert forall x :: lo <= x < hi ==> FileBlock(Finished(s, i, end), i, x) == FileBlock(s, i, x);
  }

  lemma ReachedBound(off: nat, n: nat)
    requires off + n <= MAXBYTES
    ensures Reached(off, n) <= MAXFILE
  {
  }

  function Range(c: seq<Byte>, off: nat, n: nat): seq<Byte>
    requires off <= |c|
  {
    if off + n > |c| then c[off..] else c[off..off + n]
  }

  lemma NothingFreed(s: Fs, i: nat)
    requires Inv(s)
    ensures FreedBits(s, s.bitmap, i, {})
  {
    hide Bit, Slot;
  }

  lemma InBitmap(sb: Layout, b: nat)
    requires b < sb.size
    ensures sb.bmapstart + b / BPB in BitmapBlocks(sb)
  {
  }

  // max in filewrite
  const CHUNK := (MAXOPBLOCKS - 1 - 1 - 2) / 2 * BSIZE

  // The most whole blocks of data that leave a transaction within MAXOPBLOCKS, with a block
  // of the free map for each, one for the inode, one for the indirect block, and two for
  // bytes that do not start and end with a block.
  lemma ChunkIs()
    ensures CHUNK == 1536 && CHUNK % BSIZE == 0
    ensures 2 * (CHUNK / BSIZE) + 4 <= MAXOPBLOCKS < 2 * (CHUNK / BSIZE + 1) + 4
  {
  }

  // How many bytes filewrite gets into the file: all of them, or the chunks that fit.
  function Complete(size: nat, off: nat, n: int): nat
  {
    if n <= 0 || off > size || off > MAXBYTES then 0
    else if off + n <= MAXBYTES then n
    else (MAXBYTES - off) / CHUNK * CHUNK
  }

  // All of them exactly when the offset is in the file and they end within its bound.
  lemma CompleteIff(size: nat, off: nat, n: nat)
    requires size <= MAXBYTES
    ensures Complete(size, off, n) == n <==> n == 0 || (off <= size && off + n <= MAXBYTES)
  {
  }

  // A write that is too long by one byte still fills most of an empty file.
  lemma CompleteInPart()
    ensures 0 < Complete(0, 0, MAXBYTES + 1) < MAXBYTES + 1
  {
  }

  ghost predicate Progress(s0: Fs, s: Fs, i: nat, off: nat, addr: seq<Byte>, k: nat) {
    && Inv(s) && k <= |addr|
    && (k == 0 ==> s == s0)
    && (k > 0 ==> Written(s0, s, i, off, addr[..k]) && off + k <= MAXBYTES)
  }

  // Position by position: src from off on, and what was there elsewhere.
  lemma SpliceAt(c: seq<Byte>, off: nat, src: seq<Byte>)
    requires off <= |c|
    ensures |Splice(c, off, src)| == if off + |src| > |c| then off + |src| else |c|
    ensures forall k :: 0 <= k < |Splice(c, off, src)| ==>
      Splice(c, off, src)[k] == if off <= k < off + |src| then src[k - off] else c[k]
  {
  }

  // What is written is read back.
  lemma RangeOfSplice(c: seq<Byte>, off: nat, src: seq<Byte>)
    requires off <= |c|
    ensures off <= |Splice(c, off, src)| && Range(Splice(c, off, src), off, |src|) == src
  {
  }

  lemma RangeAt(c: seq<Byte>, off: nat, n: nat)
    requires off <= |c|
    ensures |Range(c, off, n)| == if off + n > |c| then |c| - off else n
    ensures forall k :: 0 <= k < |Range(c, off, n)| ==> Range(c, off, n)[k] == c[off + k]
  {
  }

  lemma SpliceTwice(c: seq<Byte>, off: nat, a: seq<Byte>, b: seq<Byte>)
    requires off <= |c|
    ensures off + |a| <= |Splice(c, off, a)|
    ensures Splice(Splice(c, off, a), off + |a|, b) == Splice(c, off, a + b)
  {
  }

  lemma WrittenTwice(s0: Fs, s: Fs, t: Fs, i: nat, off: nat, a: seq<Byte>, b: seq<Byte>)
    requires Written(s0, s, i, off, a) && Written(s, t, i, off + |a|, b)
    ensures Written(s0, t, i, off, a + b)
  {
    hide Inv, Shape, Content, Splice, NoHoles;
    InvShape(s0);
    InvShape(s);
    InvShape(t);
    SpliceTwice(Content(s0, i), off, a, b);
  }

  lemma ProgressFacts(s0: Fs, s: Fs, i: nat, off: nat, addr: seq<Byte>, k: nat)
    requires Progress(s0, s, i, off, addr, k) && i < |s0.inodes|
    ensures Inv(s) && Shape(s) && i < |s.inodes| && s.sb == s0.sb && k <= |addr|
    ensures s.inodes[i].size <= MAXBYTES
    ensures k > 0 ==> off + k <= s.inodes[i].size && off <= MAXBYTES && Shape(s0) && off <= s0.inodes[i].size
  {
    hide Slot, ByteAt, NoHoles, Splice;
    if k > 0 {
      InvShape(s0);
      SpliceTwice(Content(s0, i), off, addr[..k], []);
    }
  }

  // The chunk just written joins those before it.
  lemma Advance(s0: Fs, s: Fs, t: Fs, i: nat, off: nat, addr: seq<Byte>, k: nat, m: nat)
    requires Progress(s0, s, i, off, addr, k) && k + m <= |addr| && 0 < m && off + k + m <= MAXBYTES
    requires Written(s, t, i, off + k, addr[k..k + m])
    ensures Progress(s0, t, i, off, addr, k + m)
  {
    hide Inv, Slot, NoHoles, Content, Splice, Written;
    WrittenInv(s, t, i, off + k, addr[k..k + m]);
    assert addr[..k] + addr[k..k + m] == addr[..k + m];
    if k == 0 {
      assert addr[k..k + m] == addr[..m];
    } else {
      WrittenTwice(s0, s, t, i, off, addr[..k], addr[k..k + m]);
    }
  }

  lemma WrittenInv(s: Fs, t: Fs, i: nat, off: nat, src: seq<Byte>)
    requires Written(s, t, i, off, src)
    ensures Inv(t) && t.sb == s.sb && i < |s.inodes| == |t.inodes|
  {
    hide Inv, Slot, NoHoles, Content, Splice;
  }

  lemma CompleteStops(size0: nat, size: nat, off: nat, n: int, k: nat, q: nat)
    requires k < n && k == CHUNK * q
    requires k > 0 ==> off + k <= size && off <= size0
    requires k == 0 ==> size == size0
    requires size <= MAXBYTES && !Accepts(size, off + k, if n - k > CHUNK then CHUNK else n - k)
    ensures Complete(size0, off, n) == k
  {
  }
}
