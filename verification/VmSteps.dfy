/** What allocuvm, deallocuvm, mappages and copyuvm do in one turn of their loops, and what
    they leave when they are done. */
module VmSteps {
  import opened Paging
  import opened PagingSteps
  import opened Spaces

  const PGSIZE := 4096
  const KERNBASE := 0x8000_0000

  // PGROUNDUP, for addresses up to KERNBASE
  function Up(x: nat): nat {
    (x + PGSIZE - 1) / PGSIZE * PGSIZE
  }

  // The first page at or after address x.
  function UpPage(x: nat): nat {
    (x + PGSIZE - 1) / PGSIZE
  }

  // It is the least page that has no byte before x.
  lemma UpPageIs(x: nat)
    ensures (UpPage(x) - 1) * PGSIZE < x <= UpPage(x) * PGSIZE == Up(x)
  {
  }

  // After walkpgdir with alloc: the table for page vpn is there.
  function Prepared(m: Memory, d: nat, vpn: nat): Memory
    requires Inv(m) && Is(m, d, Directory) && vpn < PAGES && d < |m.frames|
    requires Present(m.frames[d][vpn / ENTRIES]) || m.freelist != []
  {
    if Present(m.frames[d][vpn / ENTRIES]) then m
    else
      TakenInv(m);
      WithTable(m, d, vpn)
  }

  lemma PreparedOk(m: Memory, d: nat, vpn: nat, e: Entry)
    requires Inv(m) && Is(m, d, Directory) && vpn < PAGES && d < |m.frames|
    requires Present(m.frames[d][vpn / ENTRIES]) || m.freelist != []
    ensures Changed(m, Prepared(m, d, vpn), d, {}, 0, 0) && HasTable(Prepared(m, d, vpn), d, vpn)
    ensures Lookup(m, d, vpn) == None && Present(e) && (vpn < USERPAGES ==> Is(m, e.frame, Other)) ==>
      CanAdd(Prepared(m, d, vpn), d, vpn, e)
  {
    if Present(m.frames[d][vpn / ENTRIES]) {
      ChangedNothing(m, d);
    } else {
      WithTableChanged(m, d, vpn);
      assert SamePage(m, Prepared(m, d, vpn), d, vpn);
    }
  }

  lemma NoTable(m: Memory, d: nat, vpn: nat, v: nat)
    requires Inv(m) && Is(m, d, Directory) && vpn < PAGES && v < PAGES && v / ENTRIES == vpn / ENTRIES
    requires d < |m.frames| && !Present(m.frames[d][vpn / ENTRIES])
    ensures Lookup(m, d, v) == None
  {
  }

  // ---- what the operations do -------------------------------------------

  ghost predicate Unmapped(m: Memory, d: nat, lo: nat, hi: nat)
    requires Shape(m) && d < |m.frames|
  {
    forall v :: lo <= v < hi && v < PAGES ==> Lookup(m, d, v) == None
  }

  predicate AllZero(words: seq<Entry>) {
    |words| == ENTRIES && forall j :: 0 <= j < ENTRIES ==> words[j] == Entry(0, 0)
  }

  // Pages lo up to hi are there, full of zeros, and the user can read and write them.
  ghost predicate ZeroPages(m: Memory, d: nat, lo: nat, hi: nat)
    requires Shape(m) && d < |m.frames|
  {
    forall v :: lo <= v < hi && v < PAGES ==>
      && Lookup(m, d, v).Some? && Lookup(m, d, v).value.flags == PTE_P | PTE_W | PTE_U
      && Allowed(m, d, v) == Access(true, true)
      && Lookup(m, d, v).value.frame < |m.frames| && AllZero(m.frames[Lookup(m, d, v).value.frame])
  }

  // Nothing was mapped from lo to hi before, and nothing is after: the old translation.
  lemma Restored(s: Memory, t: Memory, d: nat, x: set<nat>, lo: nat, hi: nat)
    requires Changed(s, t, d, x, lo, hi) && Shape(s) && Shape(t) && Unmapped(s, d, lo, hi) && Unmapped(t, d, lo, hi)
    ensures Changed(s, t, d, x, 0, 0)
  {
    hide Inv, Within, Lookup;
    forall v | 0 <= v < PAGES
      ensures SamePage(s, t, d, v)
    {
      if lo <= v < hi {
        assert Lookup(s, d, v) == None && Lookup(t, d, v) == None;
      }
    }
  }

  lemma UnmappedKept(s: Memory, t: Memory, d: nat, x: set<nat>, lo: nat, hi: nat, a: nat, b: nat)
    requires Changed(s, t, d, x, a, b) && Shape(s) && Shape(t) && d < |s.frames| && d < |t.frames|
    requires Unmapped(s, d, lo, hi) && (b <= lo || hi <= a || b <= a)
    ensures Unmapped(t, d, lo, hi)
  {
    hide Inv, Within, Lookup;
    forall v | lo <= v < hi && v < PAGES
      ensures Lookup(t, d, v) == None
    {
      assert SamePage(s, t, d, v);
    }
  }

  // Lookup in terms of the table that walkpgdir finds.
  lemma LookupHere(m: Memory, d: nat, v: nat)
    requires Inv(m) && Shape(m) && Is(m, d, Directory) && v < PAGES && d < |m.frames|
    ensures |m.frames[d]| == ENTRIES
    ensures !Present(m.frames[d][v / ENTRIES]) ==> Lookup(m, d, v) == None
    ensures Present(m.frames[d][v / ENTRIES]) ==>
      var k := m.frames[d][v / ENTRIES].frame;
      && k < |m.frames| && |m.frames[k]| == ENTRIES
      && Lookup(m, d, v) == if Present(m.frames[k][v % ENTRIES]) then Some(m.frames[k][v % ENTRIES]) else None
  {
    assert PdeOk(m, d, v / ENTRIES);
  }

  lemma SkipTable(m: Memory, d: nat, v: nat, lo: nat)
    requires Inv(m) && Shape(m) && Is(m, d, Directory) && v < PAGES && d < |m.frames|
    requires !Present(m.frames[d][v / ENTRIES]) && Unmapped(m, d, lo, v)
    ensures Unmapped(m, d, lo, (v / ENTRIES + 1) * ENTRIES)
    ensures v < (v / ENTRIES + 1) * ENTRIES
  {
    hide Lookup, Inv;
    forall w | lo <= w < (v / ENTRIES + 1) * ENTRIES && w < PAGES
      ensures Lookup(m, d, w) == None
    {
      if w >= v {
        NoTable(m, d, v, w);
      }
    }
  }

  lemma UnmappedOne(m: Memory, d: nat, lo: nat, v: nat)
    requires Shape(m) && d < |m.frames| && Unmapped(m, d, lo, v) && v < PAGES && Lookup(m, d, v) == None
    ensures Unmapped(m, d, lo, v + 1)
  {
    hide Lookup;
  }

  // A page that is there is dropped.
  lemma FreedStep(s: Memory, m: Memory, d: nat, v: nat, lo: nat, hi: nat)
    requires Changed(s, m, d, {}, lo, hi) && Inv(m) && Shape(m) && Is(m, d, Directory) && d < |m.frames|
    requires lo <= v < hi <= USERPAGES && Lookup(m, d, v).Some? && Unmapped(m, d, lo, v)
    ensures HasTable(m, d, v) && Is(m, Lookup(m, d, v).value.frame, Page(d, v))
    ensures m.first <= Lookup(m, d, v).value.frame < |m.frames| && TableOf(m, d, v) != Lookup(m, d, v).value.frame
    ensures var n := Freed(m, d, v);
      Changed(s, n, d, {}, lo, hi) && Shape(n) && d < |n.frames| && Unmapped(n, d, lo, v + 1)
  {
    FreedChanged(m, d, v);
    TableAt(m, d, v);
    var n := Freed(m, d, v);
    ChangedShape(m, n, d, {}, v, v + 1);
    hide Inv, Within, Lookup, PagesSame, Freed;
    UnmappedKept(m, n, d, {}, lo, v, v, v + 1);
    UnmappedOne(n, d, lo, v);
    ChangedWider(m, n, d, {}, v, v + 1, lo, hi);
    ChangedTrans(s, m, n, d, {}, {}, lo, hi);
    var none: set<nat> := {};
    assert none + none == none;
  }

  lemma UnmappedLess(m: Memory, d: nat, lo: nat, b: nat, hi: nat)
    requires Shape(m) && d < |m.frames| && Unmapped(m, d, lo, b)
    ensures Unmapped(m, d, lo, if b < hi then b else hi)
  {
    hide Lookup;
  }

  // The order in which the code does it: the frame is freed, then the entry cleared.
  lemma FreedIs(m: Memory, d: nat, v: nat)
    requires Inv(m) && Shape(m) && HasTable(m, d, v) && Lookup(m, d, v).Some? && d < |m.frames| && v < PAGES
    requires Lookup(m, d, v).value.frame < |m.frames| && TableOf(m, d, v) != Lookup(m, d, v).value.frame
    ensures var f, k := Lookup(m, d, v).value.frame, TableOf(m, d, v);
      && k < |m.frames| && |m.frames[k]| == ENTRIES
      && Freed(m, d, v) ==
         var n := Given(m.(owner := m.owner[f := Other]), f);
         n.(frames := n.frames[k := m.frames[k][v % ENTRIES := Entry(0, 0)]])
  {
    TableAt(m, d, v);
    var f, k := Lookup(m, d, v).value.frame, TableOf(m, d, v);
    var e := m.frames[k][v % ENTRIES := Entry(0, 0)];
    assert m.frames[k := e][f := Junk()] == m.frames[f := Junk()][k := e];
  }

  lemma NoZeroPages(m: Memory, d: nat, lo: nat)
    requires Shape(m) && d < |m.frames|
    ensures ZeroPages(m, d, lo, lo)
  {
  }

  lemma FewerZeroPages(m: Memory, d: nat, lo: nat, b: nat, hi: nat)
    requires Shape(m) && d < |m.frames| && ZeroPages(m, d, lo, b) && (hi <= b || hi <= lo)
    ensures ZeroPages(m, d, lo, hi)
  {
    hide Lookup;
  }

  // deallocuvm has undone what allocuvm did.
  lemma Undone(s: Memory, m: Memory, t: Memory, d: nat, x: set<nat>, lo: nat, hi: nat)
    requires Changed(s, m, d, x, lo, hi) && (Changed(m, t, d, {}, lo, hi) || (t == m && lo >= hi))
    requires Shape(s) && Shape(t) && d < |t.frames| && Unmapped(s, d, lo, hi) && Unmapped(t, d, lo, hi)
    ensures Changed(s, t, d, x, 0, 0)
  {
    hide Inv, Within, PagesSame, Lookup, Unmapped;
    if t != m {
      ChangedTrans(s, m, t, d, x, {}, lo, hi);
      assert x + {} == x;
    }
    Restored(s, t, d, x, lo, hi);
  }

  // A frame taken from the free list, and not mapped yet.
  lemma InFlight(s: Memory, m: Memory, n: Memory, d: nat, f: nat, lo: nat, hi: nat)
    requires Changed(s, m, d, {}, lo, hi) && Changed(m, n, d, {f}, 0, 0) && f !in m.owner && Is(n, f, Other)
    requires Shape(m) && Shape(n) && d < |m.frames| && d < |n.frames|
    ensures Changed(s, n, d, {f}, lo, hi) && (f in s.owner ==> Of(s, f, d))
  {
    hide Inv, PagesSame, Lookup;
    ChangedWider(m, n, d, {f}, 0, 0, lo, hi);
    ChangedTrans(s, m, n, d, {}, {f}, lo, hi);
    assert {} + {f} == {f};
  }

  // It is given back.
  lemma GiveBack(s: Memory, u: Memory, d: nat, f: nat)
    requires Changed(s, u, d, {f}, 0, 0) && (f in s.owner ==> Of(s, f, d)) && Is(u, f, Other)
    ensures u.first <= f < |u.frames| && Shape(Given(u, f)) && d < |Given(u, f).frames|
    ensures Changed(s, Given(u, f), d, {}, 0, 0)
  {
    GivenInv(u, f);
    var n := Given(u, f);
    forall v | 0 <= v < PAGES
      ensures SamePage(s, n, d, v)
    {
      assert SamePage(s, u, d, v);
      UserFrame(s, d, v);
      UserFrame(u, d, v);
      assert PdeOk(u, d, v / ENTRIES);
    }
    hide Inv;
  }

  lemma GiveBackFresh(m: Memory, n: Memory, d: nat, f: nat)
    requires Changed(m, n, d, {f}, 0, 0) && f !in m.owner && Is(n, f, Other)
    ensures n.first <= f < |n.frames| && Changed(m, Given(n, f), d, {}, 0, 0)
  {
    GiveBack(m, n, d, f);
  }

  lemma OtherKept(s: Memory, t: Memory, d: nat, x: set<nat>, f: nat)
    requires Within(s, t, d, x) && Is(s, f, Other)
    ensures Is(t, f, Other) && f < |s.frames| == |t.frames| && t.frames[f] == s.frames[f]
  {
    hide Accounted;
  }

  // A frame is taken, filled with words, and mapped at v.
  lemma MapFresh(m: Memory, d: nat, v: nat, words: seq<Entry>, flags: bv12)
    requires Inv(m) && Is(m, d, Directory) && d < |m.frames| && m.freelist != [] && v < USERPAGES
    requires Lookup(m, d, v) == None && |words| == ENTRIES && flags & PTE_P != 0
    ensures m.freelist[0] < |m.frames| && m.freelist[0] !in m.owner
    ensures var f := m.freelist[0];
      var m1 := SetFrame(Taken(m), f, words);
      && Inv(m1) && Is(m1, d, Directory) && Shape(m1) && d < |m1.frames| && Lookup(m1, d, v) == None
      && Is(m1, f, Other) && Changed(m, m1, d, {f}, 0, 0)
      && (Present(m1.frames[d][v / ENTRIES]) || m1.freelist != [] ==>
            var e := Entry(f, flags);
            CanAdd(Prepared(m1, d, v), d, v, e) &&
            var n := AddPage(Prepared(m1, d, v), d, v, e);
            && Changed(m, n, d, {}, v, v + 1) && Shape(n) && d < |n.frames|
            && Lookup(n, d, v) == Some(e) && f < |n.frames| && n.frames[f] == words)
  {
    hide PagesSame, Lookup, Prepared, AddPage, Within;
    TakeFrame(m, d, words);
    var f := m.freelist[0];
    var m1, e := SetFrame(Taken(m), f, words), Entry(f, flags);
    ChangedShape(m, m1, d, {f}, 0, 0);
    assert SamePage(m, m1, d, v) by {
      SamePageAt(m, m1, d, {f}, v);
    }
    if Present(m1.frames[d][v / ENTRIES]) || m1.freelist != [] {
      PreparedOk(m1, d, v, e);
      var m2 := Prepared(m1, d, v);
      OtherKept(m1, m2, d, {}, f);
      ChangedTrans(m, m1, m2, d, {f}, {}, 0, 0);
      assert {f} + {} == {f};
      AddPageChanged(m, m2, d, v, e, {f});
    }
  }

  lemma SamePageAt(s: Memory, t: Memory, d: nat, x: set<nat>, v: nat)
    requires Changed(s, t, d, x, 0, 0) && Shape(s) && Shape(t) && v < PAGES
    ensures d < |s.frames| && d < |t.frames| && SamePage(s, t, d, v)
  {
    hide Inv, Within, Lookup;
  }

  // A zeroed frame is mapped at v.
  lemma AllocStep(s: Memory, m: Memory, d: nat, v: nat, lo: nat, hi: nat)
    requires Changed(s, m, d, {}, lo, hi) && Shape(m) && d < |m.frames| && m.freelist != []
    requires lo <= v < hi <= USERPAGES && ZeroPages(m, d, lo, v) && Unmapped(m, d, v, hi)
    ensures m.freelist[0] < |m.frames|
    ensures var f := m.freelist[0];
      var m1 := SetFrame(Taken(m), f, Zeros());
      && Inv(m1) && Is(m1, d, Directory) && Shape(m1) && d < |m1.frames| && Lookup(m1, d, v) == None
      && (Present(m1.frames[d][v / ENTRIES]) || m1.freelist != [] ==>
            var e := Entry(f, PTE_W | PTE_U | PTE_P);
            CanAdd(Prepared(m1, d, v), d, v, e) &&
            var n := AddPage(Prepared(m1, d, v), d, v, e);
            && Changed(s, n, d, {}, lo, hi) && Shape(n) && d < |n.frames|
            && ZeroPages(n, d, lo, v + 1) && Unmapped(n, d, v + 1, hi))
  {
    hide PagesSame, Lookup, Prepared, AddPage, Within, Inv, Shape;
    ChangedShape(s, m, d, {}, lo, hi);
    UnmappedSplit(m, d, v, hi);
    MapFresh(m, d, v, Zeros(), PTE_W | PTE_U | PTE_P);
    var f := m.freelist[0];
    var m1, e := SetFrame(Taken(m), f, Zeros()), Entry(f, PTE_W | PTE_U | PTE_P);
    if Present(m1.frames[d][v / ENTRIES]) || m1.freelist != [] {
      var n := AddPage(Prepared(m1, d, v), d, v, e);
      ChangedShape(m, n, d, {}, v, v + 1);
      OneZeroPage(n, d, v, e);
      AllocStepDone(s, m, n, d, v, lo, hi);
    }
  }

  lemma OneZeroPage(n: Memory, d: nat, v: nat, e: Entry)
    requires Inv(n) && Is(n, d, Directory)
    requires Shape(n) && d < |n.frames| && v < PAGES && Lookup(n, d, v) == Some(e)
    requires e.flags == PTE_W | PTE_U | PTE_P && e.frame < |n.frames| && n.frames[e.frame] == Zeros()
    ensures ZeroPages(n, d, v, v + 1)
  {
    hide Lookup, Allowed, Inv;
    AllowedBy(n, d, v);
    UserFlags();
    assert AllZero(Zeros());
  }

  lemma UserFlags()
    ensures var flags := PTE_W | PTE_U | PTE_P;
      flags & PTE_U != 0 && flags & PTE_W != 0 && flags == PTE_P | PTE_W | PTE_U
  {
  }

  // Under another state of its tables a page with the same entry allows the same.
  lemma AllowedSame(m: Memory, n: Memory, d: nat, e: nat, v: nat)
    requires Inv(m) && Inv(n) && Is(m, d, Directory) && Is(n, e, Directory) && v < PAGES
    requires d < |m.frames| && e < |n.frames| && Lookup(m, d, v).Some? && Lookup(n, e, v).Some?
    requires Lookup(n, e, v).value.flags == Lookup(m, d, v).value.flags
    ensures Allowed(n, e, v) == Allowed(m, d, v)
  {
    AllowedBy(m, d, v);
    AllowedBy(n, e, v);
    hide Allowed, Lookup;
  }

  lemma AllocStepDone(s: Memory, m: Memory, n: Memory, d: nat, v: nat, lo: nat, hi: nat)
    requires Changed(s, m, d, {}, lo, hi) && Changed(m, n, d, {}, v, v + 1)
    requires Shape(m) && Shape(n) && d < |m.frames| && d < |n.frames|
    requires lo <= v < hi <= USERPAGES && ZeroPages(m, d, lo, v) && Unmapped(m, d, v, hi)
    requires ZeroPages(n, d, v, v + 1)
    ensures Changed(s, n, d, {}, lo, hi)
    ensures ZeroPages(n, d, lo, v + 1) && Unmapped(n, d, v + 1, hi)
  {
    hide Inv, Within, Lookup, Allowed, AllZero;
    ChangedShape(m, n, d, {}, v, v + 1);
    forall w | lo <= w <= v
      ensures Lookup(n, d, w).Some? && Lookup(n, d, w).value.flags == PTE_P | PTE_W | PTE_U
      ensures Allowed(n, d, w) == Access(true, true)
      ensures Lookup(n, d, w).value.frame < |n.frames| && AllZero(n.frames[Lookup(n, d, w).value.frame])
    {
      if w < v {
        assert SamePage(m, n, d, w);
        AllowedSame(m, n, d, d, w);
      }
    }
    UnmappedKept(m, n, d, {}, v + 1, hi, v, v + 1);
    ChangedWider(m, n, d, {}, v, v + 1, lo, hi);
    ChangedTrans(s, m, n, d, {}, {}, lo, hi);
    var none: set<nat> := {};
    assert none + none == none;
  }

  // ---- the kernel's part ------------------------------------------------

  // A row of kmap: n pages from page vpn on, at the frames from frame on.
  datatype Region = Region(vpn: nat, n: nat, frame: nat, perm: bv12)

  ghost predicate KernelMap(kmap: seq<Region>) {
    && (forall r :: r in kmap ==> USERPAGES <= r.vpn && 0 < r.n && r.vpn + r.n <= PAGES)
    && forall i, j :: 0 <= i < j < |kmap| ==>
         kmap[i].vpn + kmap[i].n <= kmap[j].vpn || kmap[j].vpn + kmap[j].n <= kmap[i].vpn
  }

  ghost predicate RegionMapped(m: Memory, d: nat, r: Region, n: nat)
    requires Shape(m) && d < |m.frames|
  {
    forall v :: r.vpn <= v < r.vpn + n && v < PAGES ==>
      Lookup(m, d, v) == Some(Entry(r.frame + (v - r.vpn), r.perm | PTE_P))
  }

  lemma RegionKept(s: Memory, t: Memory, d: nat, r: Region, n: nat, lo: nat, hi: nat)
    requires Changed(s, t, d, {}, lo, hi) && Shape(s) && Shape(t) && d < |s.frames| && d < |t.frames|
    requires RegionMapped(s, d, r, n) && (r.vpn + n <= lo || hi <= r.vpn)
    ensures RegionMapped(t, d, r, n)
  {
    hide Inv, Within, Lookup;
    forall v | r.vpn <= v < r.vpn + n && v < PAGES
      ensures Lookup(t, d, v) == Some(Entry(r.frame + (v - r.vpn), r.perm | PTE_P))
    {
      assert SamePage(s, t, d, v);
    }
  }

  lemma PermPresent(perm: bv12)
    ensures (perm | PTE_P) & PTE_P != 0
  {
  }

  // One more page of a region is mapped.
  lemma RegionStep(s: Memory, m: Memory, d: nat, r: Region, k: nat)
    requires Changed(s, m, d, {}, r.vpn, r.vpn + r.n) && Shape(m) && d < |m.frames|
    requires USERPAGES <= r.vpn && r.vpn + r.n <= PAGES && k < r.n
    requires RegionMapped(m, d, r, k) && Unmapped(m, d, r.vpn + k, r.vpn + r.n)
    ensures Inv(m) && Is(m, d, Directory) && Lookup(m, d, r.vpn + k) == None
    ensures var v, e := r.vpn + k, Entry(r.frame + k, r.perm | PTE_P);
      Present(e) && (Present(m.frames[d][v / ENTRIES]) || m.freelist != [] ==>
        CanAdd(Prepared(m, d, v), d, v, e) &&
        var n := AddPage(Prepared(m, d, v), d, v, e);
        && Changed(s, n, d, {}, r.vpn, r.vpn + r.n) && Shape(n) && d < |n.frames|
        && RegionMapped(n, d, r, k + 1) && Unmapped(n, d, v + 1, r.vpn + r.n))
  {
    hide PagesSame, Lookup, Prepared, AddPage, Within, Inv, RegionMapped, Unmapped;
    ChangedShape(s, m, d, {}, r.vpn, r.vpn + r.n);
    var v, e := r.vpn + k, Entry(r.frame + k, r.perm | PTE_P);
    PermPresent(r.perm);
    UnmappedSplit(m, d, v, r.vpn + r.n);
    if Present(m.frames[d][v / ENTRIES]) || m.freelist != [] {
      PreparedOk(m, d, v, e);
      AddPageChanged(m, Prepared(m, d, v), d, v, e, {});
      var n := AddPage(Prepared(m, d, v), d, v, e);
      RegionKept(m, n, d, r, k, v, v + 1);
      OneMorePage(n, d, r, k);
      UnmappedKept(m, n, d, {}, v + 1, r.vpn + r.n, v, v + 1);
      ChangedWider(m, n, d, {}, v, v + 1, r.vpn, r.vpn + r.n);
      ChangedTrans(s, m, n, d, {}, {}, r.vpn, r.vpn + r.n);
      var none: set<nat> := {};
      assert none + none == none;
    }
  }

  lemma UnmappedSplit(m: Memory, d: nat, lo: nat, hi: nat)
    requires Shape(m) && d < |m.frames| && Unmapped(m, d, lo, hi) && lo < hi && lo < PAGES
    ensures Lookup(m, d, lo) == None && Unmapped(m, d, lo + 1, hi)
  {
    hide Lookup;
  }

  lemma OneMorePage(m: Memory, d: nat, r: Region, k: nat)
    requires Shape(m) && d < |m.frames| && RegionMapped(m, d, r, k) && r.vpn + k < PAGES
    requires Lookup(m, d, r.vpn + k) == Some(Entry(r.frame + k, r.perm | PTE_P))
    ensures RegionMapped(m, d, r, k + 1)
  {
    hide Lookup;
  }

  lemma NoRegion(m: Memory, d: nat, r: Region)
    requires Shape(m) && d < |m.frames|
    ensures RegionMapped(m, d, r, 0)
  {
  }

  lemma SameSelf(s: Memory)
    requires Inv(s)
    ensures Same(s, s)
  {
  }

  lemma BesideFacts(s: Memory, t: Memory, d: nat)
    requires Beside(s, t, d)
    ensures Inv(s) && Inv(t) && Is(t, d, Directory) && Shape(t) && d < |t.frames| && d !in s.owner
  {
  }

  lemma DrainedOther(s: Memory, t: Memory, d: nat)
    requires Draining(s, t, d, ENTRIES)
    ensures Is(t, d, Other)
  {
  }

  ghost predicate AllMapped(m: Memory, d: nat, kmap: seq<Region>, i: nat)
    requires Shape(m) && d < |m.frames| && i <= |kmap|
  {
    forall k :: 0 <= k < i ==> RegionMapped(m, d, kmap[k], kmap[k].n)
  }

  ghost predicate NoneMapped(m: Memory, d: nat, kmap: seq<Region>, i: nat)
    requires Shape(m) && d < |m.frames|
  {
    forall k :: i <= k < |kmap| ==> Unmapped(m, d, kmap[k].vpn, kmap[k].vpn + kmap[k].n)
  }

  lemma KmapStep(s: Memory, t: Memory, d: nat, kmap: seq<Region>, i: nat)
    requires KernelMap(kmap) && i < |kmap| && Changed(s, t, d, {}, kmap[i].vpn, kmap[i].vpn + kmap[i].n)
    requires Shape(s) && Shape(t) && d < |s.frames| && d < |t.frames| && Unmapped(s, d, 0, USERPAGES)
    requires AllMapped(s, d, kmap, i) && NoneMapped(s, d, kmap, i + 1)
    ensures Unmapped(t, d, 0, USERPAGES) && NoneMapped(t, d, kmap, i + 1)
    ensures RegionMapped(t, d, kmap[i], kmap[i].n) ==> AllMapped(t, d, kmap, i + 1)
  {
    hide Inv, Within, Lookup, PagesSame, Unmapped, RegionMapped;
    var lo, hi := kmap[i].vpn, kmap[i].vpn + kmap[i].n;
    assert kmap[i] in kmap;
    UnmappedKept(s, t, d, {}, 0, USERPAGES, lo, hi);
    forall k | i < k < |kmap|
      ensures Unmapped(t, d, kmap[k].vpn, kmap[k].vpn + kmap[k].n)
    {
      UnmappedKept(s, t, d, {}, kmap[k].vpn, kmap[k].vpn + kmap[k].n, lo, hi);
    }
    forall k | 0 <= k < i
      ensures RegionMapped(t, d, kmap[k], kmap[k].n)
    {
      RegionKept(s, t, d, kmap[k], kmap[k].n, lo, hi);
    }
  }

  // ---- copyuvm ----------------------------------------------------------

  // The first n pages under d, in t, are copies of those under p in s: the same flags,
  // allowing the same, and the same contents, on frames that s did not use.
  ghost predicate Copied(s: Memory, t: Memory, p: nat, d: nat, n: nat)
    requires Shape(s) && Shape(t) && p < |s.frames| && d < |t.frames|
  {
    forall v :: 0 <= v < n && v < USERPAGES ==> CopiedPage(s, t, p, d, v)
  }

  ghost predicate CopiedPage(s: Memory, t: Memory, p: nat, d: nat, v: nat)
    requires Shape(s) && Shape(t) && p < |s.frames| && d < |t.frames| && v < USERPAGES
  {
    && Lookup(s, p, v).Some? && Lookup(t, d, v).Some?
    && var e, c := Lookup(s, p, v).value, Lookup(t, d, v).value;
    && c.flags == e.flags && e.frame < |s.frames| && c.frame < |t.frames| && t.frames[c.frame] == s.frames[e.frame]
    && c.frame !in s.owner && Allowed(t, d, v) == Allowed(s, p, v)
  }

  lemma CopiedNone(s: Memory, t: Memory, p: nat, d: nat)
    requires Shape(s) && Shape(t) && p < |s.frames| && d < |t.frames|
    ensures Copied(s, t, p, d, 0)
  {
  }

  // One more page is copied.
  lemma CopyStep(s: Memory, m: Memory, n: Memory, p: nat, d: nat, v: nat, e: Entry, c: Entry)
    requires Beside(s, m, d) && Shape(s) && Shape(m) && p < |s.frames| && d < |m.frames| && Copied(s, m, p, d, v)
    requires Is(s, p, Directory)
    requires v < USERPAGES && Changed(m, n, d, {}, v, v + 1) && Shape(n) && d < |n.frames|
      && Unmapped(m, d, v, USERPAGES)
    requires Lookup(s, p, v) == Some(e) && Lookup(n, d, v) == Some(c) && c.flags == e.flags && c.frame !in m.owner
    requires e.frame < |s.frames| && c.frame < |n.frames| && n.frames[c.frame] == s.frames[e.frame]
    ensures Beside(s, n, d) && Copied(s, n, p, d, v + 1) && Unmapped(n, d, v + 1, USERPAGES)
  {
    BesideThen(s, m, n, d, v, v + 1);
    UnmappedSplit(m, d, v, USERPAGES);
    UnmappedKept(m, n, d, {}, v + 1, USERPAGES, v, v + 1);
    assert c.frame !in s.owner by {
      BesideOwned(s, m, d, c.frame);
    }
    CopiedAllow(s, m, n, p, d, v);
    hide Inv, Within, Lookup, Beside, Allowed;
    forall w | 0 <= w < v
      ensures CopiedPage(s, n, p, d, w)
    {
      assert CopiedPage(s, m, p, d, w) && SamePage(m, n, d, w);
      AllowedSame(m, n, d, d, w);
    }
  }

  lemma CopiedAllow(s: Memory, m: Memory, n: Memory, p: nat, d: nat, v: nat)
    requires Beside(s, m, d) && Shape(s) && p < |s.frames| && Is(s, p, Directory) && v < USERPAGES
    requires Changed(m, n, d, {}, v, v + 1) && Lookup(s, p, v).Some? && Shape(n) && d < |n.frames|
    requires Lookup(n, d, v).Some? && Lookup(n, d, v).value.flags == Lookup(s, p, v).value.flags
    ensures Allowed(n, d, v) == Allowed(s, p, v) && Inv(m) && Inv(n) && Is(m, d, Directory) && Is(n, d, Directory)
  {
    BesideFacts(s, m, d);
    ChangedShape(m, n, d, {}, v, v + 1);
    AllowedSame(s, n, p, d, v);
  }

  lemma BesideOwned(s: Memory, t: Memory, d: nat, f: nat)
    requires Beside(s, t, d) && f !in t.owner
    ensures f !in s.owner
  {
  }

  // The parent finds its page, and in it what it held.
  lemma ParentPage(s: Memory, m: Memory, p: nat, d: nat, v: nat)
    requires Beside(s, m, d) && Is(s, p, Directory) && v < USERPAGES && Shape(s) && p < |s.frames|
      && Lookup(s, p, v).Some?
    ensures Shape(m) && Is(m, p, Directory) && p < |m.frames| && Lookup(m, p, v) == Lookup(s, p, v)
    ensures HasTable(m, p, v) && Present(Lookup(s, p, v).value)
    ensures var f := Lookup(s, p, v).value.frame;
      f < |s.frames| && f < |m.frames| && m.frames[f] == s.frames[f] && |m.frames[f]| == ENTRIES
  {
    BesideSame(s, m, d, p, v);
    PageAt(m, p, v);
    InvShape(m, p);
  }
}
