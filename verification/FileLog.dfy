/** What a transaction must log: every block that it changes. A block that is not given to
    log_write is not pinned, and commit does not write it. */
module FileLog {
  import opened Params
  import opened Bytes
  import opened Files
  import opened FileData
  import opened FileWrite
  import opened FileSteps

  // From s to t no block has changed but those logged: blocks of data and pointers, blocks
  // of the free map, of which byte k has the bits from 8 * k on, and blocks of inodes.
  ghost predicate Logs(s: Fs, t: Fs, logged: set<nat>) {
    && t.sb == s.sb && |t.data| == |s.data| && |t.bitmap| == |s.bitmap| && |t.dinodes| == |s.dinodes|
    && (forall b :: 0 <= b < |s.data| && t.data[b] != s.data[b] ==> b in logged)
    && (forall k :: 0 <= k < |s.bitmap| && t.bitmap[k] != s.bitmap[k] ==> s.sb.bmapstart + 8 * k / BPB in logged)
    && (forall j :: 0 <= j < |s.dinodes| && t.dinodes[j] != s.dinodes[j] ==> s.sb.inodestart + j / IPB in logged)
  }

  // The blocks of file i that the bytes from off up to off + n lie in are logged, also where
  // they hold what they held before.
  ghost predicate Covers(s: Fs, i: nat, off: nat, n: nat, logged: set<nat>)
    requires Shape(s) && i < |s.inodes|
  {
    forall x :: off / BSIZE <= x < Reached(off, n) && x < MAXFILE ==> FileBlock(s, i, x) in logged
  }

  // In terms of the bits of the free map.
  lemma LogsBits(s: Fs, t: Fs, logged: set<nat>, b: nat)
    requires Logs(s, t, logged) && b / 8 < |s.bitmap| && Bit(t.bitmap, b) != Bit(s.bitmap, b)
    ensures s.sb.bmapstart + b / BPB in logged
  {
    ByteOfBit(b);
  }

  lemma ByteOfBit(b: nat)
    ensures 8 * (b / 8) / BPB == b / BPB
  {
  }

  lemma LogsNothing(s: Fs, logged: set<nat>)
    ensures Logs(s, s, logged)
  {
  }

  lemma LogsThen(s: Fs, t: Fs, u: Fs, a: set<nat>, b: set<nat>)
    requires Logs(s, t, a) && Logs(t, u, b) && a <= b
    ensures Logs(s, u, b)
  {
  }

  lemma LogsAlloc(s: Fs, b: nat, logged: set<nat>)
    requires b / 8 < |s.bitmap| && b < |s.data| && s.sb.bmapstart + b / BPB in logged && b in logged
    ensures Logs(s, Alloc(s, b), logged)
  {
    ByteOfBit(b);
    hide Zeros, Mask;
  }

  lemma LogsClear(s: Fs, b: nat, logged: set<nat>)
    requires b / 8 < |s.bitmap| && s.sb.bmapstart + b / BPB in logged
    ensures Logs(s, s.(bitmap := ClearBit(s.bitmap, b)), logged)
  {
    ByteOfBit(b);
    hide Mask;
  }

  // bmap that fills one slot.
  lemma LogsFilled(s: Fs, i: nat, k: nat, b: nat, logged: set<nat>)
    requires Inv(s) && Free(s, b) && Vacant(s, i, k)
    requires s.sb.bmapstart + b / BPB in logged && b in logged
    requires k > INDIRECT ==> s.inodes[i].addrs[INDIRECT] in logged
    ensures Logs(s, Filled(s, i, k, b), logged)
  {
    ByteOfBit(b);
    hide Zeros, Mask, SetWord, Slot, Inv;
    InvShape(s);
  }

  // The block bn that bmap has found, and writei filled and logged, joins those before it.
  lemma CoversStep(s0: Fs, s: Fs, t: Fs, i: nat, off: nat, src: seq<Byte>, tot: nat, a: set<nat>, b: set<nat>)
    requires Wrote(s0, s, i, off, src, tot) && Mapped(s, t, i, Reached(off, tot)) && Shape(s) && i < |s.inodes|
    requires Stepping(t, i, off, |src|, tot) && Shape(t) && Reached(off, tot) == (off + tot) / BSIZE
    requires Covers(s, i, off, tot, a) && a <= b && i < |t.inodes| && FileBlock(t, i, Reached(off, tot)) in b
    ensures var u := PutChunk(t, i, off, src, tot);
      Shape(u) && i < |u.inodes| && Covers(u, i, off, tot + Chunk(off, tot, |src|), b)
  {
    hide Slot, Inv, Shape, SlotsKept, DataKept, BytesWritten, OthersKept, Grown, NoHoles, PutChunk;
    ChunkBounds(off, tot, |src|);
    PutChunkSlots(t, i, off, src, tot);
    var u, bn := PutChunk(t, i, off, src, tot), Reached(off, tot);
    forall x | off / BSIZE <= x <= bn && x < MAXFILE
      ensures FileBlock(u, i, x) in b
    {
      assert FileBlock(u, i, x) == FileBlock(t, i, x);
      if x < bn {
        MappedElsewhere(s, t, i, bn, i, x);
      }
    }
  }

  lemma LogsChunk(t: Fs, i: nat, off: nat, src: seq<Byte>, tot: nat, logged: set<nat>)
    requires Stepping(t, i, off, |src|, tot) && Shape(t) && FileBlock(t, i, (off + tot) / BSIZE) in logged
    ensures Logs(t, PutChunk(t, i, off, src, tot), logged)
  {
    hide Slot, Inv, Shape, Overwrite;
    PutChunkIs(t, i, off, src, tot);
  }

  lemma CoversNothing(s: Fs, i: nat, off: nat, logged: set<nat>)
    requires Shape(s) && i < |s.inodes|
    ensures Covers(s, i, off, 0, logged)
  {
  }

  // The size is set, and the inode saved if it has grown.
  lemma LogsFinished(s: Fs, i: nat, end: nat, logged: set<nat>)
    requires i < |s.inodes| && i < |s.dinodes|
    requires end > s.inodes[i].size ==> s.sb.inodestart + i / IPB in logged
    ensures Logs(s, Finished(s, i, end), logged)
  {
  }

  lemma CoversFinished(s: Fs, i: nat, end: nat, off: nat, n: nat, a: set<nat>, b: set<nat>)
    requires Inv(s) && Shape(s) && i < |s.inodes| && end <= MAXBYTES && Covers(s, i, off, n, a) && a <= b
    ensures i < |s.dinodes| && Shape(Finished(s, i, end)) && i < |Finished(s, i, end).inodes|
    ensures Covers(Finished(s, i, end), i, off, n, b)
  {
    hide Inv, Slot, ByteAt;
    FinishedSlots(s, i, end);
    forall x | off / BSIZE <= x < Reached(off, n) && x < MAXFILE
      ensures FileBlock(Finished(s, i, end), i, x) in b
    {
      assert FileBlock(Finished(s, i, end), i, x) == FileBlock(s, i, x);
    }
  }

  lemma LogsMore(s: Fs, t: Fs, a: set<nat>, b: set<nat>)
    requires Logs(s, t, a) && a <= b
    ensures Logs(s, t, b)
  {
  }

  // bfree, after which a pointer in memory may be cleared.
  lemma LogsFreed(s: Fs, t: Fs, inodes: seq<Inode>, b: nat, logged: set<nat>)
    requires b / 8 < |s.bitmap| && s.sb.bmapstart + b / BPB in logged
    requires t == s.(bitmap := ClearBit(s.bitmap, b), inodes := inodes)
    ensures Logs(s, t, logged)
  {
    LogsClear(s, b, logged);
    hide ClearBit;
  }

  lemma LogsTruncated(s: Fs, u: Fs, i: nat, logged: set<nat>)
    requires Logs(s, u, logged) && i < |s.inodes| == |s.dinodes| && u.data == s.data && u.dinodes == s.dinodes
    requires s.sb.inodestart + i / IPB in logged
    ensures Logs(s, Truncated(s, i, u.bitmap), logged)
  {
    hide EmptyInode;
  }

  // One transaction of filewrite, for n bytes at off: it logs all that it changes, and the
  // blocks of its bytes unless writei refuses them.
  ghost predicate Transaction(s: Fs, t: Fs, i: nat, off: nat, n: nat, logged: set<nat>) {
    && Shape(t) && i < |s.inodes| && i < |t.inodes| && Logs(s, t, logged)
    && (Accepts(s.inodes[i].size, off, n) ==> Covers(t, i, off, n, logged))
  }

  // The transactions of filewrite follow each other, a chunk of the bytes each.
  ghost predicate Transactions(states: seq<Fs>, i: nat, off: nat, n: int, ops: seq<set<nat>>) {
    && |states| == |ops| + 1
    && forall x :: 0 <= x < |ops| ==>
         && 0 < n - CHUNK * x
         && Transaction(states[x], states[x + 1], i, off + CHUNK * x, ChunkSize(n - CHUNK * x), ops[x])
  }

  lemma OneMore(states: seq<Fs>, i: nat, off: nat, n: int, ops: seq<set<nat>>, t: Fs, logged: set<nat>)
    requires Transactions(states, i, off, n, ops) && 0 < n - CHUNK * |ops|
    requires Transaction(states[|ops|], t, i, off + CHUNK * |ops|, ChunkSize(n - CHUNK * |ops|), logged)
    ensures Transactions(states + [t], i, off, n, ops + [logged])
    ensures (states + [t])[0] == states[0] && (states + [t])[|ops| + 1] == t
  {
    hide Transaction;
  }

  lemma NoTransaction(s: Fs, i: nat, off: nat, n: int)
    ensures Transactions([s], i, off, n, [])
  {
  }

  function ChunkSize(n: int): nat
    requires n > 0
  {
    if n > CHUNK then CHUNK else n
  }
}
