/** How many frames it takes to map pages: one for each page of the user's part, and one for
    each page table that is not there yet. */
module Demand {
  import opened Sets
  import opened Paging
  import opened PagingSteps
  import Spaces
  import opened VmSteps

  // The directory entries that point to a table.
  function Tables(m: Memory, d: nat): set<nat>
    requires d < |m.frames|
  {
    set i | 0 <= i < |m.frames[d]| && Present(m.frames[d][i])
  }

  // The directory entries for the pages from lo up to hi.
  function Span(lo: nat, hi: nat): set<nat> {
    if lo < hi then Interval(lo / ENTRIES, (hi - 1) / ENTRIES + 1) else {}
  }

  function Interval(lo: nat, hi: nat): (r: set<nat>)
    ensures forall i :: i in r <==> lo <= i < hi
    ensures lo <= hi ==> |r| == hi - lo
    decreases hi - lo
  {
    if lo < hi then {lo} + Interval(lo + 1, hi) else {}
  }

  // The free frames that are left when pages lo up to hi are mapped, each in a frame from
  // the free list if per is 1.
  function Spare(m: Memory, d: nat, lo: nat, hi: nat, per: nat): int
    requires d < |m.frames|
  {
    |m.freelist| - |Span(lo, hi) - Tables(m, d)| - (if lo < hi then per * (hi - lo) else 0)
  }

  // From m to n page v has been mapped, taking per frames for itself.
  ghost predicate Took(m: Memory, n: Memory, d: nat, v: nat, per: nat) {
    && d < |m.frames| && d < |n.frames| && Tables(n, d) == Tables(m, d) + {v / ENTRIES}
    && |n.freelist| + per + (if v / ENTRIES in Tables(m, d) then 0 else 1) == |m.freelist|
  }

  lemma SpanStep(lo: nat, hi: nat, t: set<nat>)
    requires lo < hi
    ensures var i := lo / ENTRIES;
      |Span(lo, hi) - t| == |Span(lo + 1, hi) - (t + {i})| + if i in t then 0 else 1
  {
    var i := lo / ENTRIES;
    SpanSplit(lo, hi);
    hide Span;
    Split(Span(lo, hi), Span(lo + 1, hi), i, t);
  }

  lemma SpanSplit(lo: nat, hi: nat)
    requires lo < hi
    ensures Span(lo, hi) == Span(lo + 1, hi) + {lo / ENTRIES}
  {
    var i := lo / ENTRIES;
    assert (lo + 1) / ENTRIES == i || (lo + 1) / ENTRIES == i + 1;
    assert lo + 1 < hi ==> (lo + 1) / ENTRIES <= (hi - 1) / ENTRIES;
  }

  lemma Split(a: set<nat>, b: set<nat>, i: nat, t: set<nat>)
    requires a == b + {i}
    ensures |a - t| == |b - (t + {i})| + if i in t then 0 else 1
  {
    var rest := b - (t + {i});
    assert a - t == if i in t then rest else rest + {i};
  }

  lemma TookSpare(m: Memory, n: Memory, d: nat, v: nat, hi: nat, per: nat)
    requires Took(m, n, d, v, per) && v < hi && per <= 1
    ensures Spare(n, d, v + 1, hi, per) == Spare(m, d, v, hi, per)
  {
    hide Tables, Span;
    SpanStep(v, hi, Tables(m, d));
  }

  lemma NoSpan(m: Memory, d: nat, lo: nat, hi: nat, per: nat)
    requires d < |m.frames| && hi <= lo
    ensures Spare(m, d, lo, hi, per) == |m.freelist|
  {
  }

  // ---- one page ---------------------------------------------------------

  lemma MapTook(m: Memory, d: nat, v: nat, e: Entry)
    requires Inv(m) && Is(m, d, Directory) && v < PAGES && d < |m.frames|
    requires Present(m.frames[d][v / ENTRIES]) || m.freelist != []
    requires CanAdd(Prepared(m, d, v), d, v, e)
    ensures Took(m, AddPage(Prepared(m, d, v), d, v, e), d, v, 0)
  {
    PrepareTook(m, d, v);
    EntryTook(Prepared(m, d, v), d, v, e);
    hide Inv, Lookup, Prepared, AddPage, Tables, HasTable;
  }

  lemma PrepareTook(m: Memory, d: nat, v: nat)
    requires Inv(m) && Is(m, d, Directory) && v < PAGES && d < |m.frames|
    requires Present(m.frames[d][v / ENTRIES]) || m.freelist != []
    ensures Took(m, Prepared(m, d, v), d, v, 0)
  {
    if m.freelist != [] {
      TakenInv(m);
    }
    hide Lookup;
  }

  // The entry is in the table, not in the directory.
  lemma EntryTook(m: Memory, d: nat, v: nat, e: Entry)
    requires CanAdd(m, d, v, e) && d < |m.frames|
    ensures var n := AddPage(m, d, v, e);
      d < |n.frames| && Tables(n, d) == Tables(m, d) && n.freelist == m.freelist
  {
    TableAt(m, d, v);
    assert AddPage(m, d, v, e).frames[d] == m.frames[d];
    hide Inv, Lookup;
  }

  // A region of the kernel's part, up to page v.
  lemma RegionTook(m: Memory, n: Memory, d: nat, lo: nat, v: nat, t: set<nat>)
    requires Took(m, n, d, v, 0) && lo <= v && Tables(m, d) == t + Span(lo, v)
    ensures Tables(n, d) == t + Span(lo, v + 1)
  {
    hide Tables;
  }

  lemma EmptySpan(lo: nat)
    ensures Span(lo, lo) == {}
  {
  }

  // Without a frame for the table there was one too few for the pages up to hi.
  lemma MapShort(m: Memory, d: nat, v: nat, hi: nat, per: nat)
    requires d < |m.frames| && v < hi && v / ENTRIES < |m.frames[d]|
    requires m.freelist == [] && !Present(m.frames[d][v / ENTRIES]) && per <= 1
    ensures Spare(m, d, v, hi, per) < 0
  {
    hide Span;
    SpanStep(v, hi, Tables(m, d));
  }

  // A frame is taken for the page first.
  lemma PageTook(m: Memory, n: Memory, d: nat, v: nat, words: seq<Entry>)
    requires m.freelist != [] && m.freelist[0] < |m.frames| && d != m.freelist[0] && d < |m.frames|
    requires Took(SetFrame(Taken(m), m.freelist[0], words), n, d, v, 0)
    ensures Took(m, n, d, v, 1)
  {
  }

  lemma PageShort(m: Memory, d: nat, v: nat, hi: nat)
    requires d < |m.frames| && v < hi && m.freelist == []
    ensures Spare(m, d, v, hi, 1) < 0
  {
  }

  lemma TableShort(m: Memory, d: nat, v: nat, hi: nat, words: seq<Entry>)
    requires m.freelist != [] && m.freelist[0] < |m.frames| && d != m.freelist[0] && d < |m.frames|
    requires v < hi && v / ENTRIES < |m.frames[d]| && !Present(m.frames[d][v / ENTRIES])
    requires SetFrame(Taken(m), m.freelist[0], words).freelist == []
    ensures Spare(m, d, v, hi, 1) < 0
  {
    SpanStep(v, hi, Tables(m, d));
    assert |m.freelist| == 1;
  }

  // ---- a new address space ----------------------------------------------

  // The directory entries that the first n rows of kmap take up.
  function KernelTables(kmap: seq<Region>, n: nat): set<nat>
    requires n <= |kmap|
  {
    if n == 0 then {}
    else KernelTables(kmap, n - 1) + Span(kmap[n - 1].vpn, kmap[n - 1].vpn + kmap[n - 1].n)
  }

  lemma {:induction false} KernelTablesGrow(kmap: seq<Region>, i: nat, n: nat)
    requires i <= n <= |kmap|
    ensures KernelTables(kmap, i) <= KernelTables(kmap, n)
    ensures |KernelTables(kmap, i)| <= |KernelTables(kmap, n)|
  {
    hide Span;
    if i < n {
      KernelTablesGrow(kmap, i, n - 1);
      SubsetCount(KernelTables(kmap, n - 1), KernelTables(kmap, n));
    }
  }

  lemma Union(a: set<nat>, b: set<nat>)
    ensures |a + b| == |a| + |b - a|
  {
    assert a + b == a + (b - a);
  }

  lemma NoTables(m: Memory, kmap: seq<Region>)
    requires m.freelist != [] && m.freelist[0] < |m.frames|
    ensures var n := Spaces.NewDir(m);
      && m.freelist[0] < |n.frames| && Tables(n, m.freelist[0]) == KernelTables(kmap, 0)
      && |n.freelist| + 1 + |KernelTables(kmap, 0)| == |m.freelist|
  {
  }

  // One more row of kmap: the frames its new tables take, or do not find.
  lemma RowSpare(m: Memory, d: nat, kmap: seq<Region>, k: nat)
    requires d < |m.frames| && k < |kmap| && Tables(m, d) == KernelTables(kmap, k)
    ensures Tables(m, d) + Span(kmap[k].vpn, kmap[k].vpn + kmap[k].n) == KernelTables(kmap, k + 1)
    ensures Spare(m, d, kmap[k].vpn, kmap[k].vpn + kmap[k].n, 0)
      == |m.freelist| + |KernelTables(kmap, k)| - |KernelTables(kmap, k + 1)|
    ensures |KernelTables(kmap, k + 1)| <= |KernelTables(kmap, |kmap|)|
  {
    hide Span, Tables;
    Union(KernelTables(kmap, k), Span(kmap[k].vpn, kmap[k].vpn + kmap[k].n));
    KernelTablesGrow(kmap, k + 1, |kmap|);
  }

  lemma {:induction false} KernelTablesHigh(kmap: seq<Region>, n: nat)
    requires KernelMap(kmap) && n <= |kmap|
    ensures forall i :: i in KernelTables(kmap, n) ==> USER <= i < ENTRIES
  {
    if n > 0 {
      KernelTablesHigh(kmap, n - 1);
      assert kmap[n - 1] in kmap;
    }
  }

  // What fork needs for n pages of memory: a directory, the kernel's tables, the pages
  // and their tables.
  function ForkNeeds(kmap: seq<Region>, n: nat): nat {
    1 + |KernelTables(kmap, |kmap|)| + n + (n + ENTRIES - 1) / ENTRIES
  }

  lemma NeedsKernel(kmap: seq<Region>, n: nat)
    ensures ForkNeeds(kmap, n) >= 1 + |KernelTables(kmap, |kmap|)|
  {
  }

  lemma CopySpare(m: Memory, d: nat, kmap: seq<Region>, n: nat)
    requires KernelMap(kmap) && d < |m.frames| && n <= USERPAGES
    requires Tables(m, d) == KernelTables(kmap, |kmap|)
    ensures Spare(m, d, 0, n, 1) == |m.freelist| + 1 + |KernelTables(kmap, |kmap|)| - ForkNeeds(kmap, n)
  {
    KernelTablesHigh(kmap, |kmap|);
    if n > 0 {
      assert Span(0, n) - Tables(m, d) == Interval(0, (n - 1) / ENTRIES + 1);
    }
  }
}
