/** Inodes, their block pointers and the free map: what the functions of fs.c do to
    them, and the ownership of blocks that they keep. */
module Files {
  import opened Params
  import opened Bytes

  const NDIRECT := 12
  const NINDIRECT := BSIZE / 4
  const MAXFILE := NDIRECT + NINDIRECT

  // The pointers of an inode: slots 0 .. 11 are direct, slot 12 points to the
  // indirect block, and slots 13 .. 140 are the words of that block.
  const INDIRECT := NDIRECT
  const NSLOTS := NDIRECT + 1 + NINDIRECT

  datatype Inode = Inode(size: nat, addrs: seq<nat>)

  // The super block, as far as blocks are concerned: the first nmeta blocks hold no
  // file data.
  datatype Layout = Layout(size: nat, nmeta: nat, inodestart: nat, bmapstart: nat)

  datatype Fs = Fs(
    sb: Layout,
    bitmap: seq<bv8>,             // the bytes of the free map
    data: seq<seq<Byte>>,         // block contents, as bread returns them
    inodes: seq<Inode>,           // in memory
    dinodes: seq<Inode>,          // on disk
    owner: map<nat, (nat, nat)>)  // the inode and slot that point to each block in use

  ghost predicate Shape(s: Fs) {
    && 0 < s.sb.nmeta <= s.sb.size < UINT
    && |s.data| == s.sb.size && s.sb.size <= 8 * |s.bitmap|
    && (forall b :: 0 <= b < |s.data| ==> IsBlock(s.data[b]))
    && |s.inodes| == |s.dinodes|
    && (forall i :: 0 <= i < |s.inodes| ==> |s.inodes[i].addrs| == NDIRECT + 1 && s.inodes[i].size <= MAXFILE * BSIZE)
    && (forall i, k :: 0 <= i < |s.inodes| && 0 <= k <= NDIRECT ==> s.inodes[i].addrs[k] < s.sb.size)
  }

  // The block that slot k of inode i points to; 0 if none.
  ghost function Slot(s: Fs, i: nat, k: nat): nat
    requires Shape(s) && i < |s.inodes| && k < NSLOTS
  {
    var addrs := s.inodes[i].addrs;
    if k <= INDIRECT then addrs[k]
    else if addrs[INDIRECT] == 0 then 0
    else WordAt(s.data[addrs[INDIRECT]], k - INDIRECT - 1)
  }

  // Every block in use is pointed to by exactly one slot, and a block is marked in the
  // free map exactly when it holds no file data by layout or is in use.
  ghost predicate Inv(s: Fs) {
    && Shape(s)
    && (forall b :: b in s.owner ==>
          && s.sb.nmeta <= b < s.sb.size && s.owner[b].0 < |s.inodes| && s.owner[b].1 < NSLOTS
          && Slot(s, s.owner[b].0, s.owner[b].1) == b)
    && (forall i, k :: 0 <= i < |s.inodes| && 0 <= k < NSLOTS && Slot(s, i, k) != 0 ==>
          Slot(s, i, k) in s.owner && s.owner[Slot(s, i, k)] == (i, k))
    && (forall b :: 0 <= b < s.sb.size ==> (Bit(s.bitmap, b) <==> b < s.sb.nmeta || b in s.owner))
  }

  lemma InvShape(s: Fs)
    requires Inv(s)
    ensures Shape(s)
  {
  }

  // ---- balloc and bmap --------------------------------------------------

  ghost predicate Free(s: Fs, b: nat)
    requires Shape(s)
  {
    s.sb.nmeta <= b < s.sb.size && !Bit(s.bitmap, b)
  }

  // Block b is marked and zeroed.
  function Alloc(s: Fs, b: nat): Fs
    requires b / 8 < |s.bitmap| && b < |s.data|
  {
    s.(bitmap := SetBit(s.bitmap, b), data := s.data[b := Zeros()])
  }

  // Slot k of inode i is set to b.
  function Assign(s: Fs, i: nat, k: nat, b: nat): Fs
    requires i < |s.inodes| && k < NSLOTS && |s.inodes[i].addrs| == NDIRECT + 1 && b < UINT
    requires k > INDIRECT ==> s.inodes[i].addrs[INDIRECT] < |s.data| && IsBlock(s.data[s.inodes[i].addrs[INDIRECT]])
  {
    var ip := s.inodes[i];
    var t := s.(owner := s.owner[b := (i, k)]);
    if k <= INDIRECT then t.(inodes := s.inodes[i := ip.(addrs := ip.addrs[k := b])])
    else
      var a := ip.addrs[INDIRECT];
      t.(data := s.data[a := SetWord(s.data[a], k - INDIRECT - 1, b)])
  }

  // An empty slot that could be filled.
  ghost predicate Vacant(s: Fs, i: nat, k: nat)
    requires Shape(s)
  {
    && i < |s.inodes| && k < NSLOTS && Slot(s, i, k) == 0
    && (k > INDIRECT ==> s.inodes[i].addrs[INDIRECT] != 0)
  }

  // bmap fills an empty slot with a block that was free.
  ghost function Filled(s: Fs, i: nat, k: nat, b: nat): Fs
    requires Inv(s) && Free(s, b) && Vacant(s, i, k)
  {
    Assign(Alloc(s, b), i, k, b)
  }

  // Zeroing a block that nothing points to changes no slot.
  lemma AllocSlots(s: Fs, b: nat)
    requires Inv(s) && Free(s, b)
    ensures Shape(Alloc(s, b))
    ensures forall i, k :: 0 <= i < |s.inodes| && 0 <= k < NSLOTS ==> Slot(Alloc(s, b), i, k) == Slot(s, i, k)
  {
    forall i, k | 0 <= i < |s.inodes| && 0 <= k < NSLOTS
      ensures Slot(Alloc(s, b), i, k) == Slot(s, i, k)
    {
      var a := Slot(s, i, INDIRECT);
      assert a != 0 ==> a in s.owner && a != b;
    }
  }

  lemma AssignSlots(s: Fs, i: nat, k: nat, b: nat)
    requires Inv(s) && Free(s, b) && Vacant(s, i, k)
    ensures var t := Filled(s, i, k, b);
      && Shape(t)
      && forall j, l :: 0 <= j < |s.inodes| && 0 <= l < NSLOTS ==>
           Slot(t, j, l) == if (j, l) == (i, k) then b else Slot(s, j, l)
  {
    AssignShape(s, i, k, b);
    var t := Filled(s, i, k, b);
    hide Inv, Slot, Shape, Filled, Free;
    forall j, l | 0 <= j < |s.inodes| && 0 <= l < NSLOTS
      ensures Slot(t, j, l) == if (j, l) == (i, k) then b else Slot(s, j, l)
    {
      AssignSlotAt(s, i, k, b, j, l);
    }
  }

  lemma AssignShape(s: Fs, i: nat, k: nat, b: nat)
    requires Inv(s) && Free(s, b) && Vacant(s, i, k)
    ensures Shape(Filled(s, i, k, b)) && Shape(Alloc(s, b))
    ensures |Filled(s, i, k, b).inodes| == |s.inodes|
  {
    AllocSlots(s, b);
    hide Slot, Bit, Zeros, SetBit, WordAt;
  }

  lemma AssignSlotAt(s: Fs, i: nat, k: nat, b: nat, j: nat, l: nat)
    requires Inv(s) && Free(s, b) && Vacant(s, i, k) && j < |s.inodes| && l < NSLOTS
    ensures var t := Filled(s, i, k, b);
      Shape(t) && |t.inodes| == |s.inodes| && Slot(t, j, l) == if (j, l) == (i, k) then b else Slot(s, j, l)
  {
    hide Bit, SetBit, WordAt, SetWord, Zeros;
    AssignShape(s, i, k, b);
    AllocSlots(s, b);
    var a, c := Slot(s, i, INDIRECT), Slot(s, j, INDIRECT);
    if k > INDIRECT {
      assert a in s.owner && a != b;
      if l > INDIRECT {
        if j == i {
          SetWordAt(Alloc(s, b).data[a], k - INDIRECT - 1, b, l - INDIRECT - 1);
        } else {
          assert c != 0 ==> c in s.owner && c != a;
        }
      }
    } else if l > INDIRECT && j == i && k == INDIRECT {
      ZeroWords(l - INDIRECT - 1);
    }
  }

  // Filling an empty slot with a free block keeps every block's ownership, and the
  // contents of every block that a file has.
  lemma AssignInv(s: Fs, i: nat, k: nat, b: nat)
    requires Inv(s) && Free(s, b) && Vacant(s, i, k)
    ensures Inv(Filled(s, i, k, b))
  {
    var t := Filled(s, i, k, b);
    AssignSlots(s, i, k, b);
    AssignBits(s, i, k, b);
    AssignOwner(s, t, i, k, b);
  }

  lemma AssignOwner(s: Fs, t: Fs, i: nat, k: nat, b: nat)
    requires Inv(s) && Free(s, b) && Vacant(s, i, k) && Shape(t)
    requires t.sb == s.sb && |t.inodes| == |s.inodes| && t.owner == s.owner[b := (i, k)]
    requires forall j, l :: 0 <= j < |s.inodes| && 0 <= l < NSLOTS ==>
      Slot(t, j, l) == if (j, l) == (i, k) then b else Slot(s, j, l)
    requires forall c :: 0 <= c < s.sb.size ==> (Bit(t.bitmap, c) <==> c < s.sb.nmeta || c in t.owner)
    ensures Inv(t)
  {
    hide Slot, Bit;
    forall j, l | 0 <= j < |s.inodes| && 0 <= l < NSLOTS && Slot(t, j, l) != 0
      ensures Slot(t, j, l) in t.owner && t.owner[Slot(t, j, l)] == (j, l)
    {
    }
  }

  lemma AssignBits(s: Fs, i: nat, k: nat, b: nat)
    requires Inv(s) && Free(s, b) && Vacant(s, i, k)
    ensures var t := Filled(s, i, k, b);
      && |t.bitmap| == |s.bitmap|
      && forall c :: 0 <= c < s.sb.size ==> (Bit(t.bitmap, c) <==> c < s.sb.nmeta || c in t.owner)
  {
    hide Slot, Bit, SetBit, SetWord, Zeros;
    forall c | 0 <= c < s.sb.size
      ensures Bit(SetBit(s.bitmap, b), c) <==> c < s.sb.nmeta || c == b || c in s.owner
    {
      SetBitAt(s.bitmap, b, c);
    }
  }

  // Blocks of file data: those whose owner is not an indirect pointer.
  ghost predicate Holds(s: Fs, b: nat) {
    b in s.owner && s.owner[b].1 != INDIRECT
  }

  lemma AssignData(s: Fs, i: nat, k: nat, b: nat)
    requires Inv(s) && Free(s, b) && Vacant(s, i, k)
    ensures var t := Filled(s, i, k, b);
      && (forall c: nat :: Holds(s, c) ==> Holds(t, c) && t.data[c] == s.data[c])
      && t.data[b] == Zeros()
  {
    var t := Filled(s, i, k, b);
    var a := Slot(s, i, INDIRECT);
    assert k > INDIRECT ==> a in s.owner && s.owner[a] == (i, INDIRECT) && a != b;
  }

  // ---- file contents ----------------------------------------------------

  // The slot of the bn-th block of a file.
  function FileSlot(bn: nat): nat
    requires bn < MAXFILE
  {
    if bn < NDIRECT then bn else bn + 1
  }

  ghost function FileBlock(s: Fs, i: nat, bn: nat): nat
    requires Shape(s) && i < |s.inodes| && bn < MAXFILE
  {
    Slot(s, i, FileSlot(bn))
  }

  // The first twelve pointers are in the inode, the others in order in the indirect block.
  lemma FileBlockIs(s: Fs, i: nat, bn: nat)
    requires Shape(s) && i < |s.inodes| && bn < MAXFILE
    ensures |s.inodes[i].addrs| == 13 && NDIRECT == 12 && MAXFILE == 140
    ensures bn < 12 ==> FileBlock(s, i, bn) == s.inodes[i].addrs[bn]
    ensures var a := s.inodes[i].addrs[12];
      && a < |s.data|
      && (bn >= 12 ==> FileBlock(s, i, bn) == if a == 0 then 0 else WordAt(s.data[a], bn - 12))
  {
    hide WordAt;
  }

  // Blocks a file of n bytes covers.
  function Covering(n: nat): nat {
    (n + BSIZE - 1) / BSIZE
  }

  // The first nb blocks of file i are there, and no others; so is the indirect block
  // if one of them needs it.
  ghost predicate Dense(s: Fs, i: nat, nb: nat)
    requires Shape(s) && i < |s.inodes|
  {
    && (forall bn :: 0 <= bn < MAXFILE ==> (FileBlock(s, i, bn) != 0 <==> bn < nb))
    && (Slot(s, i, INDIRECT) != 0 <==> nb > NDIRECT)
  }

  ghost predicate NoHoles(s: Fs, i: nat)
    requires Shape(s) && i < |s.inodes|
  {
    Dense(s, i, Covering(s.inodes[i].size))
  }

  // A byte of file data; a block that is not there reads as zeros.
  ghost function ByteAt(s: Fs, i: nat, pos: nat): Byte
    requires Shape(s) && i < |s.inodes| && pos < MAXFILE * BSIZE
  {
    var b := FileBlock(s, i, pos / BSIZE);
    if 0 < b < |s.data| then s.data[b][pos % BSIZE] else 0
  }

  ghost function Content(s: Fs, i: nat): (c: seq<Byte>)
    requires Shape(s) && i < |s.inodes|
    ensures |c| == s.inodes[i].size
  {
    seq(s.inodes[i].size, pos requires 0 <= pos < s.inodes[i].size => ByteAt(s, i, pos))
  }

  // The contents after src is written at off.
  function Splice(c: seq<Byte>, off: nat, src: seq<Byte>): (r: seq<Byte>)
    requires off <= |c|
  {
    c[..off] + src + (if off + |src| < |c| then c[off + |src|..] else [])
  }

  // Bytes of file data from offset at of block b are replaced by src.
  function Put(s: Fs, b: nat, at: nat, src: seq<Byte>): Fs
    requires b < |s.data| && at + |src| <= |s.data[b]|
  {
    s.(data := s.data[b := Overwrite(s.data[b], at, src)])
  }

  lemma PutSlots(s: Fs, b: nat, at: nat, src: seq<Byte>)
    requires Inv(s) && Holds(s, b) && at + |src| <= BSIZE
    ensures Shape(Put(s, b, at, src))
    ensures forall i, k :: 0 <= i < |s.inodes| && 0 <= k < NSLOTS ==> Slot(Put(s, b, at, src), i, k) == Slot(s, i, k)
  {
    forall i, k | 0 <= i < |s.inodes| && 0 <= k < NSLOTS
      ensures Slot(Put(s, b, at, src), i, k) == Slot(s, i, k)
    {
      var a := Slot(s, i, INDIRECT);
      assert a != 0 ==> s.owner[a] == (i, INDIRECT) && a != b;
    }
  }

  lemma PutInv(s: Fs, b: nat, at: nat, src: seq<Byte>)
    requires Inv(s) && Holds(s, b) && at + |src| <= BSIZE
    ensures Inv(Put(s, b, at, src))
  {
    PutSlots(s, b, at, src);
    hide Slot, Bit, Overwrite;
  }

  // ---- itrunc -----------------------------------------------------------

  // The slots of inode i in done have had their blocks freed.
  ghost predicate FreedBits(s: Fs, bitmap: seq<bv8>, i: nat, done: set<nat>) {
    && |bitmap| == |s.bitmap|
    && forall c :: 0 <= c < s.sb.size && c / 8 < |bitmap| ==>
         (Bit(bitmap, c) <==> Bit(s.bitmap, c) && !(c in s.owner && s.owner[c].0 == i && s.owner[c].1 in done))
  }

  // A block about to be freed is still marked: "freeing free block" is unreachable.
  lemma FreeOne(s: Fs, bitmap: seq<bv8>, i: nat, k: nat, done: set<nat>)
    requires Inv(s) && FreedBits(s, bitmap, i, done) && i < |s.inodes| && k < NSLOTS && k !in done
    ensures Slot(s, i, k) == 0 ==> FreedBits(s, bitmap, i, done + {k})
    ensures Slot(s, i, k) != 0 ==>
      && Slot(s, i, k) < s.sb.size && Slot(s, i, k) / 8 < |bitmap| && Bit(bitmap, Slot(s, i, k))
      && FreedBits(s, ClearBit(bitmap, Slot(s, i, k)), i, done + {k})
  {
    var b := Slot(s, i, k);
    if b != 0 {
      assert s.owner[b] == (i, k);
      forall c | 0 <= c < s.sb.size
        ensures Bit(ClearBit(bitmap, b), c) <==>
          Bit(s.bitmap, c) && !(c in s.owner && s.owner[c].0 == i && s.owner[c].1 in done + {k})
      {
        ClearBitAt(bitmap, b, c);
        assert c in s.owner && s.owner[c] == (i, k) ==> Slot(s, i, k) == c;
      }
    } else {
      assert forall c :: c in s.owner ==> s.owner[c] != (i, k);
    }
  }

  function EmptyInode(): Inode {
    Inode(0, seq(NDIRECT + 1, _ => 0))
  }

  // Inode i has no blocks left; theirs are free.
  ghost function Truncated(s: Fs, i: nat, bitmap: seq<bv8>): Fs
    requires i < |s.inodes| == |s.dinodes|
  {
    s.(bitmap := bitmap, inodes := s.inodes[i := EmptyInode()], dinodes := s.dinodes[i := EmptyInode()],
       owner := map b | b in s.owner && s.owner[b].0 != i :: s.owner[b])
  }

  lemma TruncatedSlots(s: Fs, i: nat, bitmap: seq<bv8>)
    requires Inv(s) && i < |s.inodes| && |bitmap| == |s.bitmap|
    ensures Shape(Truncated(s, i, bitmap))
    ensures forall j, k :: 0 <= j < |s.inodes| && 0 <= k < NSLOTS ==>
      Slot(Truncated(s, i, bitmap), j, k) == if j == i then 0 else Slot(s, j, k)
  {
    hide WordAt, Bit;
    assert Shape(Truncated(s, i, bitmap));
  }

  lemma TruncatedInv(s: Fs, i: nat, bitmap: seq<bv8>, done: set<nat>)
    requires Inv(s) && i < |s.inodes| && FreedBits(s, bitmap, i, done)
    requires forall k :: 0 <= k < NSLOTS ==> k in done
    ensures Inv(Truncated(s, i, bitmap))
    ensures forall j, k :: 0 <= j < |s.inodes| && 0 <= k < NSLOTS ==>
      Slot(Truncated(s, i, bitmap), j, k) == if j == i then 0 else Slot(s, j, k)
  {
    hide Slot, Bit, WordAt;
    var t := Truncated(s, i, bitmap);
    TruncatedSlots(s, i, bitmap);
    forall j, k | 0 <= j < |s.inodes| && 0 <= k < NSLOTS && Slot(t, j, k) != 0
      ensures Slot(t, j, k) in t.owner && t.owner[Slot(t, j, k)] == (j, k)
    {
    }
  }
}
