/** How the contents of files move under block mapping and block writes. */
module FileData {
  import opened Params
  import opened Bytes
  import opened Files

  // Only the pointers of inode i in memory, block contents and the free map differ.
  ghost predicate Frame(s: Fs, t: Fs, i: nat) {
    && t.sb == s.sb && |t.inodes| == |s.inodes| && t.dinodes == s.dinodes && i < |s.inodes|
    && t.inodes[i].size == s.inodes[i].size
    && (forall j :: 0 <= j < |s.inodes| && j != i ==> t.inodes[j] == s.inodes[j])
  }

  // Only slot bn of file i, and its indirect pointer if it was empty, differ.
  ghost predicate SlotsKept(s: Fs, t: Fs, i: nat, bn: nat)
    requires Shape(s) && Shape(t) && Frame(s, t, i) && bn < MAXFILE
  {
    && (forall j, k :: 0 <= j < |s.inodes| && 0 <= k < NSLOTS && !(j == i && (k == FileSlot(bn) || k == INDIRECT)) ==>
          Slot(t, j, k) == Slot(s, j, k))
    && (Slot(s, i, INDIRECT) != 0 ==> Slot(t, i, INDIRECT) == Slot(s, i, INDIRECT))
    && (Slot(t, i, INDIRECT) != 0 <==> Slot(s, i, INDIRECT) != 0 || bn >= NDIRECT)
  }

  ghost predicate DataKept(s: Fs, t: Fs)
    requires Inv(s) && Inv(t) && t.sb == s.sb
  {
    forall c: nat :: Holds(s, c) ==> Holds(t, c) && t.data[c] == s.data[c]
  }

  // bmap(ip, bn) took s to t: the block is there, and nothing else that a file holds
  // has changed.
  ghost predicate Mapped(s: Fs, t: Fs, i: nat, bn: nat) {
    && Inv(s) && Inv(t) && Frame(s, t, i) && bn < MAXFILE
    && SlotsKept(s, t, i, bn) && DataKept(s, t)
    && (FileBlock(s, i, bn) != 0 ==> t == s)
    && FileBlock(t, i, bn) != 0
    && (FileBlock(s, i, bn) == 0 ==> t.data[FileBlock(t, i, bn)] == Zeros())
  }

  lemma SlotOwner(s: Fs, i: nat, k: nat)
    requires Inv(s) && i < |s.inodes| && k < NSLOTS && Slot(s, i, k) != 0
    ensures Slot(s, i, k) in s.owner && s.owner[Slot(s, i, k)] == (i, k) && Slot(s, i, k) < |s.data|
  {
  }

  // One slot filled: the direct block, or the entry of an indirect block that is there.
  lemma MapOne(s: Fs, i: nat, bn: nat, b: nat)
    requires Inv(s) && i < |s.inodes| && bn < MAXFILE && Free(s, b) && Vacant(s, i, FileSlot(bn))
    ensures var t := Filled(s, i, FileSlot(bn), b);
      Mapped(s, t, i, bn) && Shape(t) && FileBlock(t, i, bn) == b
  {
    hide Slot, SetWord, SetBit, Bit, Zeros, WordAt, Holds, Filled;
    var k := FileSlot(bn);
    var t := Filled(s, i, k, b);
    AssignFrame(s, i, k, b);
    AssignInv(s, i, k, b);
    AssignSlots(s, i, k, b);
    AssignData(s, i, k, b);
    VacantIndirect(s, i, bn);
    OneSlotKept(s, t, i, bn, b);
  }

  lemma AssignFrame(s: Fs, i: nat, k: nat, b: nat)
    requires Inv(s) && Free(s, b) && Vacant(s, i, k)
    ensures Frame(s, Filled(s, i, k, b), i)
    ensures b != 0
  {
    hide Slot, SetWord, SetBit, Bit, Zeros, WordAt;
  }

  lemma VacantIndirect(s: Fs, i: nat, bn: nat)
    requires Inv(s) && bn < MAXFILE && Vacant(s, i, FileSlot(bn))
    ensures bn >= NDIRECT ==> Slot(s, i, INDIRECT) != 0
    ensures FileBlock(s, i, bn) == 0
  {
  }

  lemma OneSlotKept(s: Fs, t: Fs, i: nat, bn: nat, b: nat)
    requires Shape(s) && Shape(t) && Frame(s, t, i) && bn < MAXFILE
    requires bn >= NDIRECT ==> Slot(s, i, INDIRECT) != 0
    requires forall j, l :: 0 <= j < |s.inodes| && 0 <= l < NSLOTS ==>
      Slot(t, j, l) == if (j, l) == (i, FileSlot(bn)) then b else Slot(s, j, l)
    ensures SlotsKept(s, t, i, bn)
    ensures FileBlock(t, i, bn) == b
  {
    hide Slot, Shape;
    assert Slot(t, i, INDIRECT) == Slot(s, i, INDIRECT);
  }

  // The indirect block and then one of its entries.
  lemma MapTwo(s: Fs, i: nat, bn: nat, a: nat, b: nat)
    requires Inv(s) && i < |s.inodes| && NDIRECT <= bn < MAXFILE
    requires Slot(s, i, INDIRECT) == 0 && Free(s, a)
    requires Vacant(s, i, INDIRECT)
    requires var u := Filled(s, i, INDIRECT, a);
      Inv(u) && Free(u, b)
    ensures var u := Filled(s, i, INDIRECT, a);
      && Vacant(u, i, FileSlot(bn))
      && var t := Filled(u, i, FileSlot(bn), b);
         Mapped(s, t, i, bn) && Shape(t) && FileBlock(t, i, bn) == b
  {
    hide Bit, SetBit, Zeros, Mapped;
    var u := Filled(s, i, INDIRECT, a);
    assert Vacant(s, i, INDIRECT) && Slot(s, i, FileSlot(bn)) == 0;
    AssignSlots(s, i, INDIRECT, a);
    AssignData(s, i, INDIRECT, a);
    assert u.inodes[i].addrs[INDIRECT] != 0;
    hide Slot;
    MapOne(u, i, bn, b);
    MapThen(s, u, Filled(u, i, FileSlot(bn), b), i, bn);
  }

  // The indirect block appears, and then bn is mapped through it.
  lemma MapThen(s: Fs, u: Fs, t: Fs, i: nat, bn: nat)
    requires Inv(s) && Mapped(u, t, i, bn) && bn >= NDIRECT && |u.inodes| == |s.inodes|
    requires u.sb == s.sb && u.dinodes == s.dinodes && u.inodes[i].size == s.inodes[i].size
    requires Slot(s, i, INDIRECT) == 0 && FileBlock(s, i, bn) == 0
    requires forall j :: 0 <= j < |s.inodes| && j != i ==> u.inodes[j] == s.inodes[j]
    requires forall j, k :: 0 <= j < |s.inodes| && 0 <= k < NSLOTS && !(j == i && k == INDIRECT) ==>
      Slot(u, j, k) == Slot(s, j, k)
    requires forall c: nat :: Holds(s, c) ==> Holds(u, c) && u.data[c] == s.data[c]
    ensures Mapped(s, t, i, bn)
  {
    hide Slot, Zeros;
    forall j, k | 0 <= j < |s.inodes| && 0 <= k < NSLOTS && !(j == i && (k == FileSlot(bn) || k == INDIRECT))
      ensures Slot(t, j, k) == Slot(s, j, k)
    {
      assert Slot(t, j, k) == Slot(u, j, k);
    }
  }

  // Mapping a block changes no byte of any file: what was not there is there now as zeros.
  lemma MappedBytes(s: Fs, t: Fs, i: nat, bn: nat, j: nat, pos: nat)
    requires Mapped(s, t, i, bn) && j < |s.inodes| && pos < MAXFILE * BSIZE
    ensures ByteAt(t, j, pos) == ByteAt(s, j, pos)
  {
    var x := pos / BSIZE;
    if FileBlock(s, j, x) != 0 {
      MappedThere(s, t, i, bn, j, x);
    } else if (j, x) != (i, bn) {
      MappedElsewhere(s, t, i, bn, j, x);
    }
    hide Inv, Slot, Frame, SlotsKept, DataKept, Shape;
  }

  lemma MappedThere(s: Fs, t: Fs, i: nat, bn: nat, j: nat, x: nat)
    requires Mapped(s, t, i, bn) && j < |s.inodes| && x < MAXFILE && FileBlock(s, j, x) != 0
    ensures var b := FileBlock(s, j, x);
      FileBlock(t, j, x) == b && b < |s.data| && b < |t.data| && t.data[b] == s.data[b]
  {
    SlotOwner(s, j, FileSlot(x));
    if (j, x) != (i, bn) {
      MappedElsewhere(s, t, i, bn, j, x);
    }
    hide Inv, Slot;
    assert Holds(s, FileBlock(s, j, x));
  }

  lemma MappedElsewhere(s: Fs, t: Fs, i: nat, bn: nat, j: nat, x: nat)
    requires Mapped(s, t, i, bn) && j < |s.inodes| && x < MAXFILE && (j, x) != (i, bn)
    ensures FileBlock(t, j, x) == FileBlock(s, j, x)
  {
    hide Slot, Inv, Shape;
    assert j == i ==> FileSlot(x) != FileSlot(bn) && FileSlot(x) != INDIRECT;
  }

  lemma MappedDense(s: Fs, t: Fs, i: nat, bn: nat, nb: nat)
    requires Mapped(s, t, i, bn) && Dense(s, i, nb) && bn <= nb
    ensures Dense(t, i, if bn == nb then nb + 1 else nb)
    ensures bn < nb ==> t == s
  {
    if bn == nb {
      forall x: nat | x < MAXFILE
        ensures FileBlock(t, i, x) != 0 <==> x <= nb
      {
        if x != bn {
          MappedElsewhere(s, t, i, bn, i, x);
        }
      }
    }
    hide Slot, Inv;
  }

  // Overwriting part of one block of a file changes those bytes of that file only.
  lemma PutBytes(s: Fs, i: nat, bn: nat, at: nat, src: seq<Byte>, j: nat, pos: nat)
    requires Inv(s) && i < |s.inodes| && bn < MAXFILE && FileBlock(s, i, bn) != 0 && at + |src| <= BSIZE
    requires j < |s.inodes| && pos < MAXFILE * BSIZE
    ensures FileBlock(s, i, bn) < |s.data| && |s.data[FileBlock(s, i, bn)]| == BSIZE
    ensures var t := Put(s, FileBlock(s, i, bn), at, src);
      && Shape(t)
      && ByteAt(t, j, pos) ==
         if j == i && pos / BSIZE == bn && at <= pos % BSIZE < at + |src| then src[pos % BSIZE - at]
         else ByteAt(s, j, pos)
  {
    var b := FileBlock(s, i, bn);
    SlotOwner(s, i, FileSlot(bn));
    if FileBlock(s, j, pos / BSIZE) != 0 {
      SlotOwner(s, j, FileSlot(pos / BSIZE));
    }
    PutSlots(s, b, at, src);
    hide Slot;
  }
}
