/** The free list of the allocator as a sequence of blocks in address order, in units
    of one header. The first block is base: it has no units and lies below the heap. */
module FreeList {
  datatype Blk = Blk(addr: nat, size: nat)

  predicate Within(u: nat, b: Blk) {
    b.addr <= u < b.addr + b.size
  }

  ghost function Units(b: Blk): (s: set<nat>)
    ensures forall u: nat :: u in s <==> Within(u, b)
  {
    set u: nat | u < b.addr + b.size && Within(u, b)
  }

  ghost function FreeUnits(bs: seq<Blk>): set<nat> {
    if bs == [] then {} else Units(bs[0]) + FreeUnits(bs[1..])
  }

  // Address-ordered, and no block touches the next.
  ghost predicate Apart(bs: seq<Blk>) {
    forall i :: 0 <= i < |bs| - 1 ==> bs[i].addr + bs[i].size < bs[i + 1].addr
  }

  ghost predicate NonEmpty(bs: seq<Blk>) {
    forall i :: 0 <= i < |bs| ==> bs[i].size >= 1
  }

  // One address-ordered list in which adjacent free blocks have always been merged.
  ghost predicate Ordered(base: nat, bs: seq<Blk>) {
    bs != [] && bs[0] == Blk(base, 0) && NonEmpty(bs[1..]) && Apart(bs)
  }

  // b lies in the gap after bs[k].
  ghost predicate InGap(bs: seq<Blk>, k: nat, b: Blk) {
    && k < |bs| && b.size >= 1
    && bs[k].addr < b.addr && bs[k].addr + bs[k].size <= b.addr
    && (k + 1 < |bs| ==> b.addr + b.size <= bs[k + 1].addr)
  }

  predicate TouchesNext(bs: seq<Blk>, k: nat, b: Blk) {
    k + 1 < |bs| && b.addr + b.size == bs[k + 1].addr
  }

  predicate TouchesPrev(bs: seq<Blk>, k: nat, b: Blk)
    requires k < |bs|
  {
    bs[k].addr + bs[k].size == b.addr
  }

  // The middle of the list after b, in the gap after bs[k], is freed: bs[k] and b,
  // merged with each other and with the next block where they touch.
  function Merged(bs: seq<Blk>, k: nat, b: Blk): (m: seq<Blk>)
    requires k < |bs|
  {
    var c := if TouchesNext(bs, k, b) then Blk(b.addr, b.size + bs[k + 1].size) else b;
    if TouchesPrev(bs, k, b) then [Blk(bs[k].addr, bs[k].size + c.size)] else [bs[k], c]
  }

  function Insert(bs: seq<Blk>, k: nat, b: Blk): seq<Blk>
    requires k < |bs|
  {
    bs[..k] + Merged(bs, k, b) + (if TouchesNext(bs, k, b) then bs[k + 2..] else bs[k + 1..])
  }

  // The list after n units are cut off the upper end of bs[j].
  function Take(bs: seq<Blk>, j: nat, n: nat): seq<Blk>
    requires j < |bs| && n <= bs[j].size
  {
    bs[..j] + (if bs[j].size == n then [] else [Blk(bs[j].addr, bs[j].size - n)]) + bs[j + 1..]
  }

  function Taken(bs: seq<Blk>, j: nat, n: nat): Blk
    requires j < |bs| && n <= bs[j].size
  {
    Blk(bs[j].addr + bs[j].size - n, n)
  }

  // ---- concatenation ----------------------------------------------------

  lemma {:induction false} UnitsConcat(a: seq<Blk>, b: seq<Blk>)
    ensures FreeUnits(a + b) == FreeUnits(a) + FreeUnits(b)
  {
    if a == [] {
      assert a + b == b;
    } else {
      assert (a + b)[1..] == a[1..] + b;
      UnitsConcat(a[1..], b);
    }
  }

  lemma ApartConcat(a: seq<Blk>, b: seq<Blk>)
    requires Apart(a) && Apart(b)
    requires a != [] && b != [] ==> a[|a| - 1].addr + a[|a| - 1].size < b[0].addr
    ensures Apart(a + b)
  {
  }

  lemma ApartSlice(bs: seq<Blk>, i: nat, j: nat)
    requires Apart(bs) && i <= j <= |bs|
    ensures Apart(bs[i..j])
  {
    var s := bs[i..j];
    assert forall k :: 0 <= k < |s| ==> s[k] == bs[i + k];
    forall k | 0 <= k < |s| - 1
      ensures s[k].addr + s[k].size < s[k + 1].addr
    {
      assert bs[i + k].addr + bs[i + k].size < bs[i + k + 1].addr;
    }
  }

  lemma SplitUnits(addr: nat, m: nat, n: nat)
    ensures Units(Blk(addr, m + n)) == Units(Blk(addr, m)) + Units(Blk(addr + m, n))
    ensures Units(Blk(addr, m)) !! Units(Blk(addr + m, n))
  {
  }

  // Blocks of an ordered list are apart however far from each other.
  lemma {:induction false} ApartFar(bs: seq<Blk>, i: nat, j: nat)
    requires Apart(bs) && i < j < |bs|
    ensures bs[i].addr + bs[i].size < bs[j].addr
    decreases j
  {
    if i + 1 < j {
      ApartFar(bs, i, j - 1);
    }
    assert bs[j - 1].addr + bs[j - 1].size < bs[j - 1 + 1].addr;
  }

  lemma {:induction false} UnitsMember(bs: seq<Blk>, u: nat)
    ensures u in FreeUnits(bs) <==> exists i :: 0 <= i < |bs| && Within(u, bs[i])
  {
    if bs != [] {
      UnitsMember(bs[1..], u);
      if exists i :: 0 <= i < |bs| && Within(u, bs[i]) {
        var i :| 0 <= i < |bs| && Within(u, bs[i]);
        assert i > 0 ==> bs[1..][i - 1] == bs[i];
      }
      if u in FreeUnits(bs) && u !in Units(bs[0]) {
        var i :| 0 <= i < |bs[1..]| && Within(u, bs[1..][i]);
        assert bs[i + 1] == bs[1..][i];
      }
    }
  }

  // ---- free -------------------------------------------------------------

  // Freeing b keeps the list ordered with adjacent blocks merged.
  lemma InsertOrdered(base: nat, bs: seq<Blk>, k: nat, b: Blk)
    requires Ordered(base, bs) && InGap(bs, k, b)
    ensures Ordered(base, Insert(bs, k, b))
  {
    var m := Merged(bs, k, b);
    var next := if TouchesNext(bs, k, b) then k + 2 else k + 1;
    ApartSlice(bs, 0, k);
    ApartSlice(bs, next, |bs|);
    if k > 0 {
      assert bs[k - 1].addr + bs[k - 1].size < bs[k - 1 + 1].addr;
    }
    if next < |bs| {
      assert bs[next - 1].addr + bs[next - 1].size < bs[next - 1 + 1].addr;
    }
    ApartConcat(bs[..k], m);
    ApartConcat(bs[..k] + m, bs[next..]);
    assert NonEmpty(m[1..]) && (k > 0 ==> NonEmpty(m)) by {
      assert k > 0 ==> bs[1..][k - 1] == bs[k];
    }
    TailNonEmpty(bs, k, m, next);
  }

  // Replacing blocks k .. next by others leaves no empty block but the first.
  lemma TailNonEmpty(bs: seq<Blk>, k: nat, m: seq<Blk>, next: nat)
    requires (k > 0 || m != []) && k < next <= |bs|
    requires NonEmpty(bs[1..]) && (m != [] ==> NonEmpty(m[1..])) && (k > 0 ==> NonEmpty(m))
    ensures NonEmpty((bs[..k] + m + bs[next..])[1..])
  {
    var r := bs[..k] + m + bs[next..];
    forall i | 1 <= i < |r|
      ensures r[i].size >= 1
    {
      if i < k {
        assert r[i] == bs[1..][i - 1];
      } else if i < k + |m| {
        assert r[i] == m[i - k];
        assert i - k > 0 ==> m[1..][i - k - 1] == m[i - k];
      } else {
        assert r[i] == bs[1..][i - k - |m| + next - 1];
      }
    }
  }

  // and the free units grow by exactly those of b.
  lemma InsertUnits(bs: seq<Blk>, k: nat, b: Blk)
    requires InGap(bs, k, b)
    ensures FreeUnits(Insert(bs, k, b)) == FreeUnits(bs) + Units(b)
  {
    var m := Merged(bs, k, b);
    var next := if TouchesNext(bs, k, b) then k + 2 else k + 1;
    UnitsConcat(bs[..k], m);
    UnitsConcat(bs[..k] + m, bs[next..]);
    assert bs == (bs[..k] + bs[k..next]) + bs[next..];
    UnitsConcat(bs[..k], bs[k..next]);
    UnitsConcat(bs[..k] + bs[k..next], bs[next..]);
    MergedUnits(bs, k, b);
  }

  lemma MergedUnits(bs: seq<Blk>, k: nat, b: Blk)
    requires InGap(bs, k, b)
    ensures var next := if TouchesNext(bs, k, b) then k + 2 else k + 1;
      FreeUnits(Merged(bs, k, b)) == FreeUnits(bs[k..next]) + Units(b)
  {
    var c := if TouchesNext(bs, k, b) then Blk(b.addr, b.size + bs[k + 1].size) else b;
    assert FreeUnits([bs[k]]) == Units(bs[k]);
    assert FreeUnits([c]) == Units(c);
    assert [bs[k], c] == [bs[k]] + [c];
    UnitsConcat([bs[k]], [c]);
    if TouchesNext(bs, k, b) {
      assert FreeUnits([bs[k + 1]]) == Units(bs[k + 1]);
      assert bs[k..k + 2] == [bs[k]] + [bs[k + 1]];
      UnitsConcat([bs[k]], [bs[k + 1]]);
      SplitUnits(b.addr, b.size, bs[k + 1].size);
    } else {
      assert bs[k..k + 1] == [bs[k]];
    }
    if TouchesPrev(bs, k, b) {
      SplitUnits(bs[k].addr, bs[k].size, c.size);
      var d := Blk(bs[k].addr, bs[k].size + c.size);
      assert FreeUnits([d]) == Units(d);
    }
  }

  // Every block off the list lies in a gap.
  lemma FindGap(base: nat, bs: seq<Blk>, b: Blk) returns (k: nat)
    requires Ordered(base, bs) && b.size >= 1 && base < b.addr
    requires FreeUnits(bs) !! Units(b)
    ensures InGap(bs, k, b)
  {
    k := LastBelow(bs, b.addr, |bs|);
    UnitsMember(bs, b.addr);
    assert b.addr in Units(b);
    assert !Within(b.addr, bs[k]);
    if k + 1 < |bs| {
      UnitsMember(bs, bs[k + 1].addr);
      assert bs[1..][k] == bs[k + 1];
      assert Within(bs[k + 1].addr, bs[k + 1]);
    }
  }

  // The last of the first n blocks that starts below a.
  lemma {:induction false} LastBelow(bs: seq<Blk>, a: nat, n: nat) returns (k: nat)
    requires 1 <= n <= |bs| && bs[0].addr < a
    ensures k < n && bs[k].addr < a && (k + 1 < n ==> bs[k + 1].addr >= a)
  {
    if bs[n - 1].addr < a {
      k := n - 1;
    } else {
      k := LastBelow(bs, a, n - 1);
    }
  }

  // The gap of a block is unique.
  lemma GapUnique(base: nat, bs: seq<Blk>, b: Blk, j: nat, k: nat)
    requires Ordered(base, bs) && InGap(bs, j, b) && InGap(bs, k, b)
    ensures j == k
  {
    if j < k {
      if j + 1 < k {
        ApartFar(bs, j + 1, k);
      }
    } else if k < j {
      if k + 1 < j {
        ApartFar(bs, k + 1, j);
      }
    }
  }

  // ---- malloc -----------------------------------------------------------

  lemma TakeOrdered(base: nat, bs: seq<Blk>, j: nat, n: nat)
    requires Ordered(base, bs) && 1 <= j < |bs| && 1 <= n <= bs[j].size
    ensures Ordered(base, Take(bs, j, n))
  {
    var m := if bs[j].size == n then [] else [Blk(bs[j].addr, bs[j].size - n)];
    ApartSlice(bs, 0, j);
    ApartSlice(bs, j + 1, |bs|);
    assert bs[j - 1].addr + bs[j - 1].size < bs[j - 1 + 1].addr;
    if j + 1 < |bs| {
      assert bs[j].addr + bs[j].size < bs[j + 1].addr;
    }
    ApartConcat(bs[..j], m);
    ApartConcat(bs[..j] + m, bs[j + 1..]);
    TailNonEmpty(bs, j, m, j + 1);
  }

  lemma OneUnits(b: Blk)
    ensures FreeUnits([b]) == Units(b)
  {
    assert [b][1..] == [];
  }

  lemma TakeUnits(bs: seq<Blk>, j: nat, n: nat)
    requires Apart(bs) && j < |bs| && n <= bs[j].size
    ensures Units(Taken(bs, j, n)) <= FreeUnits(bs)
    ensures FreeUnits(Take(bs, j, n)) == FreeUnits(bs) - Units(Taken(bs, j, n))
  {
    hide Units, FreeUnits, Apart;
    var a, b, c := bs[..j], bs[j], bs[j + 1..];
    var low, t := Blk(b.addr, b.size - n), Taken(bs, j, n);
    assert bs == a + [b] + c;
    SplitUnits(b.addr, b.size - n, n);
    OwnUnits(bs, j);
    TakeSides(a, b, c, low, t);
  }

  lemma TakeSides(a: seq<Blk>, b: Blk, c: seq<Blk>, low: Blk, t: Blk)
    requires Units(b) !! FreeUnits(a) && Units(b) !! FreeUnits(c)
    requires Units(b) == Units(low) + Units(t) && Units(low) !! Units(t)
    ensures Units(t) <= FreeUnits(a + [b] + c)
    ensures FreeUnits(a + [low] + c) == FreeUnits(a + [b] + c) - Units(t)
    ensures low.size == 0 ==> FreeUnits(a + [] + c) == FreeUnits(a + [b] + c) - Units(t)
  {
    OneUnits(b);
    OneUnits(low);
    assert low.size == 0 ==> Units(low) == {};
    assert FreeUnits([]) == {};
    hide Units, FreeUnits;
    UnitsConcat3(a, [b], c);
    UnitsConcat3(a, [low], c);
    UnitsConcat3(a, [], c);
    Carve(FreeUnits(a), Units(low), FreeUnits(c), Units(t));
  }

  lemma UnitsConcat3(a: seq<Blk>, m: seq<Blk>, c: seq<Blk>)
    ensures FreeUnits(a + m + c) == FreeUnits(a) + FreeUnits(m) + FreeUnits(c)
  {
    UnitsConcat(a, m);
    UnitsConcat(a + m, c);
  }

  lemma Carve(a: set<nat>, low: set<nat>, c: set<nat>, t: set<nat>)
    requires low !! t && low + t !! a && low + t !! c
    ensures a + low + c == a + (low + t) + c - t
    ensures t <= a + (low + t) + c
  {
  }

  // No other block has any unit of bs[j].
  lemma OwnUnits(bs: seq<Blk>, j: nat)
    requires Apart(bs) && j < |bs|
    ensures Units(bs[j]) !! FreeUnits(bs[..j]) && Units(bs[j]) !! FreeUnits(bs[j + 1..])
  {
    forall u | u in Units(bs[j])
      ensures u !in FreeUnits(bs[..j]) && u !in FreeUnits(bs[j + 1..])
    {
      UnitsMember(bs[..j], u);
      UnitsMember(bs[j + 1..], u);
      forall i | 0 <= i < |bs| && i != j
        ensures !Within(u, bs[i])
      {
        if i < j {
          ApartFar(bs, i, j);
        } else {
          ApartFar(bs, j, i);
        }
      }
    }
  }

  // ---- counting ---------------------------------------------------------

  function Total(bs: seq<Blk>): nat {
    if bs == [] then 0 else bs[0].size + Total(bs[1..])
  }

  lemma {:induction false} UnitsCount(addr: nat, n: nat)
    ensures |Units(Blk(addr, n))| == n
  {
    if n == 0 {
      assert Units(Blk(addr, n)) == {};
    } else {
      SplitUnits(addr, n - 1, 1);
      assert Units(Blk(addr + (n - 1), 1)) == {addr + (n - 1)};
      UnitsCount(addr, n - 1);
    }
  }

  lemma {:induction false} FreeTotal(bs: seq<Blk>)
    requires Apart(bs)
    ensures |FreeUnits(bs)| == Total(bs)
  {
    if bs != [] {
      ApartSlice(bs, 1, |bs|);
      FreeTotal(bs[1..]);
      UnitsCount(bs[0].addr, bs[0].size);
      OwnUnits(bs, 0);
    }
  }
}
