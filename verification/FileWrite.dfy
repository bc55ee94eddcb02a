/** What the loop of writei keeps: the bytes written so far are in the file, every other
    byte of every file is where it was, and no hole appears. */
module FileWrite {
  import opened Sets
  import opened Params
  import opened Bytes
  import opened Files
  import opened FileData

  const MAXBYTES := MAXFILE * BSIZE
  const BPB := 8 * BSIZE
  const IPB := 8

  // The most blocks that one transaction of filewrite logs.
  const WRITEBLOCKS := 7

  // Blocks from off / BSIZE up to this one, not included, are done after tot bytes.
  function Reached(off: nat, tot: nat): nat {
    if tot == 0 then off / BSIZE else Covering(off + tot)
  }

  // How many bytes the next step writes.
  function Chunk(off: nat, tot: nat, n: nat): nat
    requires tot < n
  {
    var room := BSIZE - (off + tot) % BSIZE;
    if n - tot < room then n - tot else room
  }

  ghost predicate BytesWritten(s0: Fs, s: Fs, i: nat, off: nat, src: seq<Byte>, tot: nat)
    requires Shape(s0) && Shape(s) && |s.inodes| == |s0.inodes| && tot <= |src|
  {
    forall j, pos :: 0 <= j < |s.inodes| && 0 <= pos < MAXBYTES ==>
      ByteAt(s, j, pos) == if j == i && off <= pos < off + tot then src[pos - off] else ByteAt(s0, j, pos)
  }

  ghost predicate OthersKept(s0: Fs, s: Fs, i: nat)
    requires Shape(s0) && Shape(s) && |s.inodes| == |s0.inodes|
  {
    forall j, k :: 0 <= j < |s.inodes| && 0 <= k < NSLOTS && j != i ==> Slot(s, j, k) == Slot(s0, j, k)
  }

  // A file without holes has none either way, and none of its pointers changes while it
  // need not grow.
  ghost predicate Grown(s0: Fs, s: Fs, i: nat, end: nat)
    requires Shape(s0) && Shape(s) && |s.inodes| == |s0.inodes| && i < |s.inodes|
  {
    var size := s0.inodes[i].size;
    && Dense(s, i, Covering(if end < size then size else end))
    && (end <= size ==> s.inodes == s0.inodes)
  }

  ghost predicate Wrote(s0: Fs, s: Fs, i: nat, off: nat, src: seq<Byte>, tot: nat) {
    && Inv(s0) && Inv(s) && Frame(s0, s, i) && tot <= |src| && off + |src| <= MAXBYTES
    && BytesWritten(s0, s, i, off, src, tot) && OthersKept(s0, s, i)
    && (NoHoles(s0, i) ==> Grown(s0, s, i, off + tot))
    && (forall x :: off / BSIZE <= x < Reached(off, tot) && x < MAXFILE ==> FileBlock(s, i, x) != 0)
  }

  lemma WroteNothing(s: Fs, i: nat, off: nat, src: seq<Byte>)
    requires Inv(s) && i < |s.inodes| && off <= s.inodes[i].size && off + |src| <= MAXBYTES
    ensures Wrote(s, s, i, off, src, 0)
  {
    hide Inv, Slot, Shape;
  }

  // ---- arithmetic of blocks ---------------------------------------------

  lemma InBlock(p: nat, m: nat, pos: nat)
    requires p % BSIZE + m <= BSIZE
    ensures pos / BSIZE == p / BSIZE && p % BSIZE <= pos % BSIZE < p % BSIZE + m <==> p <= pos < p + m
    ensures p <= pos < p + m ==> pos % BSIZE - p % BSIZE == pos - p
  {
  }

  lemma ChunkBounds(off: nat, tot: nat, n: nat)
    requires tot < n && (tot == 0 || (off + tot) % BSIZE == 0)
    ensures var m := Chunk(off, tot, n); var p := off + tot;
      && 0 < m <= n - tot && p % BSIZE + m <= BSIZE
      && Reached(off, tot) == p / BSIZE && Reached(off, tot + m) == Covering(p + m) == p / BSIZE + 1
      && (tot + m == n || (off + tot + m) % BSIZE == 0)
  {
  }

  // ---- one step ---------------------------------------------------------

  // Whether the loop of writei can take a step.
  ghost predicate Stepping(t: Fs, i: nat, off: nat, n: nat, tot: nat) {
    && Inv(t) && i < |t.inodes| && tot < n && off + n <= MAXBYTES && (tot == 0 || (off + tot) % BSIZE == 0)
    && FileBlock(t, i, (off + tot) / BSIZE) != 0
  }

  // One turn of the loop: as much of src as fits goes into the block.
  ghost function PutChunk(t: Fs, i: nat, off: nat, src: seq<Byte>, tot: nat): Fs
    requires Stepping(t, i, off, |src|, tot)
  {
    var p, m := off + tot, Chunk(off, tot, |src|);
    ChunkBounds(off, tot, |src|);
    SlotOwner(t, i, FileSlot(p / BSIZE));
    Put(t, FileBlock(t, i, p / BSIZE), p % BSIZE, src[tot..tot + m])
  }

  // bmap leaves every byte of every file as it was.
  lemma MapStep(s0: Fs, s: Fs, t: Fs, i: nat, off: nat, src: seq<Byte>, tot: nat)
    requires Wrote(s0, s, i, off, src, tot) && Mapped(s, t, i, Reached(off, tot))
    ensures Shape(s0) && Shape(t) && Frame(s0, t, i)
    ensures BytesWritten(s0, t, i, off, src, tot) && OthersKept(s0, t, i)
    ensures forall x :: off / BSIZE <= x <= Reached(off, tot) && x < MAXFILE ==> FileBlock(t, i, x) != 0
  {
    hide Inv, Shape, Slot, DataKept, NoHoles, Grown, ByteAt;
    InvShape(s0);
    InvShape(s);
    InvShape(t);
    var bn := Reached(off, tot);
    forall j, pos | 0 <= j < |s.inodes| && 0 <= pos < MAXBYTES
      ensures ByteAt(t, j, pos) == ByteAt(s, j, pos)
    {
      MappedBytes(s, t, i, bn, j, pos);
    }
    forall x | off / BSIZE <= x <= bn && x < MAXFILE
      ensures FileBlock(t, i, x) != 0
    {
      if x < bn {
        MappedElsewhere(s, t, i, bn, i, x);
      }
    }
  }

  lemma PutStep(s0: Fs, t: Fs, i: nat, off: nat, src: seq<Byte>, tot: nat)
    requires Shape(s0) && Frame(s0, t, i) && Stepping(t, i, off, |src|, tot) && Shape(t)
    requires BytesWritten(s0, t, i, off, src, tot)
    ensures var u := PutChunk(t, i, off, src, tot);
      && Shape(u) && tot + Chunk(off, tot, |src|) <= |src| && Frame(s0, u, i)
      && BytesWritten(s0, u, i, off, src, tot + Chunk(off, tot, |src|))
  {
    hide Inv, Shape, Slot, ByteAt, FileBlock, Overwrite;
    var p, m := off + tot, Chunk(off, tot, |src|);
    ChunkBounds(off, tot, |src|);
    var part := src[tot..tot + m];
    PutBytes(t, i, p / BSIZE, p % BSIZE, part, i, 0);
    var u := PutChunk(t, i, off, src, tot);
    forall j, pos | 0 <= j < |u.inodes| && 0 <= pos < MAXBYTES
      ensures ByteAt(u, j, pos) == if j == i && off <= pos < p + m then src[pos - off] else ByteAt(s0, j, pos)
    {
      PutBytes(t, i, p / BSIZE, p % BSIZE, part, j, pos);
      InBlock(p, m, pos);
    }
  }

  lemma PutChunkSlots(t: Fs, i: nat, off: nat, src: seq<Byte>, tot: nat)
    requires Stepping(t, i, off, |src|, tot) && Shape(t)
    ensures var u := PutChunk(t, i, off, src, tot);
      && Inv(u) && Shape(u) && u.inodes == t.inodes
      && forall j, k :: 0 <= j < |t.inodes| && 0 <= k < NSLOTS ==> Slot(u, j, k) == Slot(t, j, k)
  {
    hide Slot, Overwrite, Shape, Inv;
    var p, m := off + tot, Chunk(off, tot, |src|);
    ChunkBounds(off, tot, |src|);
    var b := FileBlock(t, i, p / BSIZE);
    SlotOwner(t, i, FileSlot(p / BSIZE));
    assert Holds(t, b);
    PutSlots(t, b, p % BSIZE, src[tot..tot + m]);
    PutInv(t, b, p % BSIZE, src[tot..tot + m]);
  }

  function Max(a: nat, b: nat): nat {
    if a < b then b else a
  }

  lemma GrowArith(size: nat, off: nat, tot: nat, m: nat)
    requires off <= size && 0 < m && (off + tot) % BSIZE + m <= BSIZE && (tot == 0 || (off + tot) % BSIZE == 0)
    ensures var nb, bn := Covering(Max(size, off + tot)), (off + tot) / BSIZE;
      && bn <= nb
      && Covering(Max(size, off + tot + m)) == (if bn == nb then nb + 1 else nb)
      && (off + tot + m <= size ==> bn < nb)
  {
  }

  lemma GrowStep(s0: Fs, s: Fs, t: Fs, u: Fs, i: nat, off: nat, tot: nat, m: nat)
    requires Shape(s0) && Shape(s) && Shape(u) && |s.inodes| == |s0.inodes| == |u.inodes| && i < |s.inodes|
    requires Mapped(s, t, i, (off + tot) / BSIZE)
    requires u.inodes == t.inodes
    requires forall k :: 0 <= k < NSLOTS ==> Slot(u, i, k) == Slot(t, i, k)
    requires off <= s0.inodes[i].size
    requires 0 < m && (off + tot) % BSIZE + m <= BSIZE && (tot == 0 || (off + tot) % BSIZE == 0)
    requires Grown(s0, s, i, off + tot)
    ensures Grown(s0, u, i, off + tot + m)
  {
    hide Slot, Inv, Shape, Mapped, Covering, Dense;
    var size, bn := s0.inodes[i].size, (off + tot) / BSIZE;
    GrowArith(size, off, tot, m);
    var nb := Covering(Max(size, off + tot));
    MappedShape(s, t, i, bn);
    MappedDense(s, t, i, bn, nb);
    SameDense(t, u, i, if bn == nb then nb + 1 else nb);
  }

  lemma MappedShape(s: Fs, t: Fs, i: nat, bn: nat)
    requires Mapped(s, t, i, bn)
    ensures Shape(s) && Shape(t) && |t.inodes| == |s.inodes| && bn < MAXFILE
  {
  }

  lemma SameDense(s: Fs, t: Fs, i: nat, nb: nat)
    requires Shape(s) && Shape(t) && |t.inodes| == |s.inodes| && i < |s.inodes| && Dense(s, i, nb)
    requires forall k :: 0 <= k < NSLOTS ==> Slot(t, i, k) == Slot(s, i, k)
    ensures Dense(t, i, nb)
  {
    hide Slot, Shape;
    assert forall x :: 0 <= x < MAXFILE ==> FileBlock(t, i, x) == FileBlock(s, i, x);
  }

  // One turn of the loop of writei.
  lemma WriteStep(s0: Fs, s: Fs, t: Fs, i: nat, off: nat, src: seq<Byte>, tot: nat)
    requires Wrote(s0, s, i, off, src, tot) && Mapped(s, t, i, (off + tot) / BSIZE)
    requires off <= s0.inodes[i].size && tot < |src| && (tot == 0 || (off + tot) % BSIZE == 0)
    ensures Stepping(t, i, off, |src|, tot)
    ensures tot + Chunk(off, tot, |src|) <= |src|
    ensures Wrote(s0, PutChunk(t, i, off, src, tot), i, off, src, tot + Chunk(off, tot, |src|))
  {
    hide Inv, Shape, Slot, SlotsKept, DataKept, NoHoles, Grown, ByteAt, PutChunk, BytesWritten;
    var m := Chunk(off, tot, |src|);
    ChunkBounds(off, tot, |src|);
    MapStep(s0, s, t, i, off, src, tot);
    PutStep(s0, t, i, off, src, tot);
    PutChunkSlots(t, i, off, src, tot);
    var u := PutChunk(t, i, off, src, tot);
    InvShape(s);
    if NoHoles(s0, i) {
      GrowStep(s0, s, t, u, i, off, tot, m);
    }
    forall x | off / BSIZE <= x < Reached(off, tot + m) && x < MAXFILE
      ensures FileBlock(u, i, x) != 0
    {
      assert FileBlock(u, i, x) == FileBlock(t, i, x);
    }
  }

  // ---- the end of writei ------------------------------------------------

  function Resized(s: Fs, i: nat, z: nat): Fs
    requires i < |s.inodes|
  {
    s.(inodes := s.inodes[i := s.inodes[i].(size := z)])
  }

  // iupdate
  function Saved(s: Fs, i: nat): Fs
    requires i < |s.inodes| && i < |s.dinodes|
  {
    s.(dinodes := s.dinodes[i := s.inodes[i]])
  }

  function Finished(s: Fs, i: nat, end: nat): Fs
    requires i < |s.inodes| && i < |s.dinodes|
  {
    if end > s.inodes[i].size then Saved(Resized(s, i, end), i) else s
  }

  // Blocks depend on the pointers only, not on the size or on what iupdate saves.
  lemma FinishedSlots(s: Fs, i: nat, end: nat)
    requires Inv(s) && i < |s.inodes| && end <= MAXBYTES
    ensures var t := Finished(s, i, end);
      && Inv(t) && Shape(s) && Shape(t) && |t.inodes| == |s.inodes|
      && (forall j, k :: 0 <= j < |s.inodes| && 0 <= k < NSLOTS ==> Slot(t, j, k) == Slot(s, j, k))
      && (forall j, pos :: 0 <= j < |s.inodes| && 0 <= pos < MAXBYTES ==> ByteAt(t, j, pos) == ByteAt(s, j, pos))
  {
    var t := Finished(s, i, end);
    assert Shape(t);
    forall j, k | 0 <= j < |s.inodes| && 0 <= k < NSLOTS
      ensures Slot(t, j, k) == Slot(s, j, k)
    {
    }
    hide Slot, Bit;
  }

  // The whole of writei on a byte sequence: src is spliced in at off, and nothing else
  // that any file holds changes.
  lemma WroteContent(s0: Fs, s: Fs, i: nat, off: nat, src: seq<Byte>)
    requires Wrote(s0, s, i, off, src, |src|) && off <= s0.inodes[i].size
    ensures var t := Finished(s, i, off + |src|);
      && Shape(s0) && Shape(t) && |t.inodes| == |s0.inodes|
      && Content(t, i) == Splice(Content(s0, i), off, src)
      && forall j :: 0 <= j < |s0.inodes| && j != i ==> t.inodes[j] == s0.inodes[j] && Content(t, j) == Content(s0, j)
  {
    hide Inv, Slot, ByteAt, NoHoles, OthersKept, Content, Splice;
    FinishedSlots(s, i, off + |src|);
    InvShape(s0);
    WroteOwn(s0, s, i, off, src);
    forall j | 0 <= j < |s0.inodes| && j != i
      ensures Content(Finished(s, i, off + |src|), j) == Content(s0, j)
    {
      WroteOther(s0, s, i, off, src, j);
    }
  }

  lemma WroteOwn(s0: Fs, s: Fs, i: nat, off: nat, src: seq<Byte>)
    requires Wrote(s0, s, i, off, src, |src|) && off <= s0.inodes[i].size
    ensures var t := Finished(s, i, off + |src|);
      Shape(s0) && Shape(t) && i < |t.inodes| && Content(t, i) == Splice(Content(s0, i), off, src)
  {
    hide Inv, Slot, ByteAt, NoHoles, OthersKept;
    FinishedSlots(s, i, off + |src|);
    InvShape(s0);
    var t := Finished(s, i, off + |src|);
    forall pos | 0 <= pos < t.inodes[i].size
      ensures Content(t, i)[pos] == Splice(Content(s0, i), off, src)[pos]
    {
      assert ByteAt(t, i, pos) == ByteAt(s, i, pos);
    }
  }

  lemma WroteOther(s0: Fs, s: Fs, i: nat, off: nat, src: seq<Byte>, j: nat)
    requires Wrote(s0, s, i, off, src, |src|) && j < |s0.inodes| && j != i
    ensures var t := Finished(s, i, off + |src|);
      Shape(s0) && Shape(t) && j < |t.inodes| && t.inodes[j] == s0.inodes[j] && Content(t, j) == Content(s0, j)
  {
    hide Inv, Slot, ByteAt, NoHoles, OthersKept;
    FinishedSlots(s, i, off + |src|);
    InvShape(s0);
    var t := Finished(s, i, off + |src|);
    forall pos | 0 <= pos < s0.inodes[j].size
      ensures Content(t, j)[pos] == Content(s0, j)[pos]
    {
      assert ByteAt(t, j, pos) == ByteAt(s, j, pos);
    }
  }

  // A file without holes still has none, and what iupdate saved of it is still exact
  // although iupdate runs only when the file grows.
  lemma WroteNoHoles(s0: Fs, s: Fs, i: nat, off: nat, src: seq<Byte>)
    requires Wrote(s0, s, i, off, src, |src|) && off <= s0.inodes[i].size && NoHoles(s0, i)
    ensures var t := Finished(s, i, off + |src|);
      Shape(t) && i < |t.inodes| && NoHoles(t, i) && (s0.dinodes[i] == s0.inodes[i] ==> t.dinodes[i] == t.inodes[i])
  {
    hide Inv, Slot, ByteAt, BytesWritten, OthersKept, Dense, Covering;
    FinishedSlots(s, i, off + |src|);
    InvShape(s0);
    SameDense(s, Finished(s, i, off + |src|), i, Covering(Max(s0.inodes[i].size, off + |src|)));
  }

  lemma WroteOthers(s0: Fs, s: Fs, i: nat, off: nat, src: seq<Byte>, j: nat)
    requires Wrote(s0, s, i, off, src, |src|) && off <= s0.inodes[i].size && j < |s0.inodes| && j != i && NoHoles(s0, j)
    ensures Shape(Finished(s, i, off + |src|)) && j < |s.inodes| && NoHoles(Finished(s, i, off + |src|), j)
  {
    hide Inv, Slot, ByteAt, BytesWritten, Dense, Covering;
    FinishedSlots(s, i, off + |src|);
    InvShape(s0);
    SameDense(s0, Finished(s, i, off + |src|), j, Covering(s0.inodes[j].size));
  }

  // ---- the blocks a write logs ------------------------------------------

  ghost function BitmapBlocks(sb: Layout): set<nat> {
    set b: nat | b < sb.size :: sb.bmapstart + b / BPB
  }

  ghost function IndirectBlock(s: Fs, i: nat): set<nat>
    requires Shape(s) && i < |s.inodes|
  {
    if Slot(s, i, INDIRECT) == 0 then {} else {Slot(s, i, INDIRECT)}
  }

  // Free map blocks, the indirect block, and data blocks lo up to hi.
  ghost function Touched(s: Fs, i: nat, lo: nat, hi: nat): set<nat>
    requires Shape(s) && i < |s.inodes| && hi <= MAXFILE
  {
    BitmapBlocks(s.sb) + IndirectBlock(s, i) + (set x: nat | lo <= x < hi :: FileBlock(s, i, x))
  }

  lemma TouchedStep(s: Fs, t: Fs, u: Fs, i: nat, lo: nat, bn: nat)
    requires Mapped(s, t, i, bn) && lo <= bn && Shape(u) && u.sb == t.sb && |u.inodes| == |t.inodes|
    requires Shape(s) && forall x :: lo <= x < bn ==> FileBlock(s, i, x) != 0
    requires forall k :: 0 <= k < NSLOTS ==> Slot(u, i, k) == Slot(t, i, k)
    ensures Shape(t)
    ensures Touched(s, i, lo, bn) <= Touched(u, i, lo, bn + 1)
    ensures Touched(t, i, bn, bn + 1) <= Touched(u, i, lo, bn + 1)
    ensures FileBlock(t, i, bn) in Touched(u, i, lo, bn + 1)
  {
    hide Inv, Slot, Shape, DataKept;
    InvShape(t);
    forall x: nat | lo <= x <= bn
      ensures FileBlock(u, i, x) == FileBlock(t, i, x)
      ensures x < bn ==> FileBlock(u, i, x) == FileBlock(s, i, x)
    {
      if x < bn {
        MappedElsewhere(s, t, i, bn, i, x);
      }
    }
  }

  // A write of a few blocks logs at most seven: one of the free map, the indirect block,
  // four of data and the inode's.
  lemma TouchedCount(s: Fs, i: nat, off: nat, n: nat, iblock: nat)
    requires Shape(s) && i < |s.inodes| && s.sb.size <= BPB && 0 < n <= 3 * BSIZE && off + n <= MAXBYTES
    ensures Reached(off, n) <= MAXFILE
    ensures |Touched(s, i, off / BSIZE, Reached(off, n)) + {iblock}| <= WRITEBLOCKS
  {
    hide Slot, Shape;
    var lo := off / BSIZE;
    assert Reached(off, n) <= lo + 4;
    var data := set x: nat | lo <= x < Reached(off, n) :: FileBlock(s, i, x);
    var f := (x: nat) => if x < MAXFILE then FileBlock(s, i, x) else 0;
    SubsetCount(data, {f(lo), f(lo + 1), f(lo + 2), f(lo + 3)});
    FourBlocks(f(lo), f(lo + 1), f(lo + 2), f(lo + 3));
    SubsetCount(BitmapBlocks(s.sb), {s.sb.bmapstart});
  }
  lemma FourBlocks(a: nat, b: nat, c: nat, d: nat)
    ensures |{a, b, c, d}| <= 4
  {
    assert {a, b, c, d} == {a} + {b} + {c} + {d};
  }
}
