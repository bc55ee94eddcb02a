/** What a block is to the file layer: bytes, words of four bytes, and the bits of the
    free map. */
module Bytes {
  import opened Params

  type Byte = b: int | 0 <= b < 256

  // A block of bytes.
  predicate IsBlock(b: seq<Byte>) {
    |b| == BSIZE
  }

  function Zeros(): (b: seq<Byte>)
    ensures IsBlock(b) && forall i :: 0 <= i < BSIZE ==> b[i] == 0
  {
    seq(BSIZE, _ => 0)
  }

  // ---- memmove ----------------------------------------------------------

  // src copied over b from offset at.
  function Overwrite(b: seq<Byte>, at: nat, src: seq<Byte>): (r: seq<Byte>)
    requires at + |src| <= |b|
    ensures |r| == |b|
    ensures forall i :: 0 <= i < |b| ==> r[i] == if at <= i < at + |src| then src[i - at] else b[i]
  {
    b[..at] + src + b[at + |src|..]
  }

  // ---- words ------------------------------------------------------------

  // ((uint*)b)[i] on a little-endian machine.
  function WordAt(b: seq<Byte>, i: nat): Word
    requires IsBlock(b) && i < BSIZE / 4
  {
    var b0: int, b1: int, b2: int, b3: int := b[4 * i], b[4 * i + 1], b[4 * i + 2], b[4 * i + 3];
    b0 + 0x100 * b1 + 0x1_0000 * b2 + 0x100_0000 * b3
  }

  function SetWord(b: seq<Byte>, i: nat, w: Word): (r: seq<Byte>)
    requires IsBlock(b) && i < BSIZE / 4
    ensures IsBlock(r)
  {
    b[4 * i := w % 0x100][4 * i + 1 := w / 0x100 % 0x100]
     [4 * i + 2 := w / 0x1_0000 % 0x100][4 * i + 3 := w / 0x100_0000]
  }

  lemma SplitWord(w: Word)
    ensures w % 0x100 + 0x100 * (w / 0x100 % 0x100) + 0x1_0000 * (w / 0x1_0000 % 0x100)
      + 0x100_0000 * (w / 0x100_0000) == w
  {
  }

  // A word that is stored is read back, and no other word changes.
  lemma SetWordAt(b: seq<Byte>, i: nat, w: Word, j: nat)
    requires IsBlock(b) && i < BSIZE / 4 && j < BSIZE / 4
    ensures WordAt(SetWord(b, i, w), j) == if j == i then w else WordAt(b, j)
  {
    var r := SetWord(b, i, w);
    if j == i {
      SplitWord(w);
    } else {
      assert r[4 * j] == b[4 * j] && r[4 * j + 1] == b[4 * j + 1];
      assert r[4 * j + 2] == b[4 * j + 2] && r[4 * j + 3] == b[4 * j + 3];
    }
  }

  // The least byte of a word comes first.
  lemma LittleEndian(b: seq<Byte>, i: nat, w: Word)
    requires IsBlock(b) && i < BSIZE / 4
    ensures var r := SetWord(b, i, w);
      && |r| == |b| && r[4 * i] == w % 0x100 && r[4 * i + 1] == w / 0x100 % 0x100
      && r[4 * i + 2] == w / 0x1_0000 % 0x100 && r[4 * i + 3] == w / 0x100_0000
      && forall k :: 0 <= k < |b| && k / 4 != i ==> r[k] == b[k]
  {
  }

  lemma ZeroWords(i: nat)
    requires i < BSIZE / 4
    ensures WordAt(Zeros(), i) == 0
  {
  }

  // ---- bits -------------------------------------------------------------

  // 1 << k, for k < 8
  function Mask(k: nat): bv8 {
    match k
    case 0 => 0x01 case 1 => 0x02 case 2 => 0x04 case 3 => 0x08
    case 4 => 0x10 case 5 => 0x20 case 6 => 0x40 case _ => 0x80
  }

  // The least bit of a byte comes first.
  lemma MaskIs(k: nat)
    requires k < 8
    ensures Mask(k) == 1 << k
    ensures Mask(k) as int == if k == 0 then 1 else 2 * Mask(k - 1) as int
  {
  }

  predicate Test(x: bv8, k: nat) {
    x & Mask(k) != 0
  }

  function Set(x: bv8, k: nat): bv8 {
    x | Mask(k)
  }

  function Clear(x: bv8, k: nat): bv8 {
    x & !Mask(k)
  }

  lemma SetMask(x: bv8, k: nat, l: nat)
    requires k < 8 && l < 8
    ensures Test(Set(x, k), l) <==> l == k || Test(x, l)
  {
  }

  lemma ClearMask(x: bv8, k: nat, l: nat)
    requires k < 8 && l < 8
    ensures Test(Clear(x, k), l) <==> l != k && Test(x, l)
  {
  }

  // The bit of block b in the free map.
  predicate Bit(bits: seq<bv8>, b: nat)
    requires b / 8 < |bits|
  {
    Test(bits[b / 8], b % 8)
  }

  function SetBit(bits: seq<bv8>, b: nat): (r: seq<bv8>)
    requires b / 8 < |bits|
    ensures |r| == |bits|
  {
    bits[b / 8 := Set(bits[b / 8], b % 8)]
  }

  function ClearBit(bits: seq<bv8>, b: nat): (r: seq<bv8>)
    requires b / 8 < |bits|
    ensures |r| == |bits|
  {
    bits[b / 8 := Clear(bits[b / 8], b % 8)]
  }

  // Marking a block used or free changes the bit of no other block.
  lemma SetBitAt(bits: seq<bv8>, b: nat, c: nat)
    requires b / 8 < |bits| && c / 8 < |bits|
    ensures Bit(SetBit(bits, b), c) <==> c == b || Bit(bits, c)
  {
    hide Test, Set;
    SetMask(bits[b / 8], b % 8, c % 8);
    BitsDiffer(b, c);
  }

  lemma ClearBitAt(bits: seq<bv8>, b: nat, c: nat)
    requires b / 8 < |bits| && c / 8 < |bits|
    ensures Bit(ClearBit(bits, b), c) <==> c != b && Bit(bits, c)
  {
    hide Test, Clear;
    ClearMask(bits[b / 8], b % 8, c % 8);
    BitsDiffer(b, c);
  }

  lemma BitsDiffer(b: nat, c: nat)
    ensures b == c || b / 8 != c / 8 || b % 8 != c % 8
  {
  }
}
