/** How single steps on page tables compose: what stays the same while one directory
    changes. */
module PagingSteps {
  import opened Paging

  // Only directory d, its tables and its pages differ: every other use, and the contents
  // of every frame in it, is the same, and no use is new but for the frames in extra.
  ghost predicate Within(s: Memory, t: Memory, d: nat, extra: set<nat>) {
    && Inv(s) && Inv(t) && t.first == s.first && |t.frames| == |s.frames| && Is(s, d, Directory) && Is(t, d, Directory)
    && (forall f :: f in s.owner && !Of(s, f, d) ==> Is(t, f, s.owner[f]) && t.frames[f] == s.frames[f])
    && (forall f :: f in t.owner && !Of(t, f, d) ==> f in extra || Is(s, f, t.owner[f]))
  }

  // Page v under d is the same frame, with the same flags and contents.
  predicate SamePage(s: Memory, t: Memory, d: nat, v: nat)
    requires d < |s.frames| && d < |t.frames| && v < PAGES
    requires forall f :: 0 <= f < |s.frames| ==> |s.frames[f]| == ENTRIES
    requires forall f :: 0 <= f < |t.frames| ==> |t.frames[f]| == ENTRIES
  {
    && Lookup(t, d, v) == Lookup(s, d, v)
    && (v < USERPAGES && Lookup(s, d, v).Some? ==>
          var f := Lookup(s, d, v).value.frame;
          f < |s.frames| && f < |t.frames| && t.frames[f] == s.frames[f])
  }

  // So are all pages but those from lo up to hi.
  ghost predicate PagesSame(s: Memory, t: Memory, d: nat, lo: nat, hi: nat)
    requires Shape(s) && Shape(t) && d < |s.frames| && d < |t.frames|
  {
    forall v :: 0 <= v < PAGES && !(lo <= v < hi) ==> SamePage(s, t, d, v)
  }

  ghost predicate Changed(s: Memory, t: Memory, d: nat, extra: set<nat>, lo: nat, hi: nat) {
    Within(s, t, d, extra) && d < |s.frames| && d < |t.frames| && PagesSame(s, t, d, lo, hi)
  }

  lemma InvShape(m: Memory, d: nat)
    requires Inv(m) && Is(m, d, Directory)
    ensures Shape(m) && d < |m.frames|
  {
  }

  lemma ChangedShape(s: Memory, t: Memory, d: nat, extra: set<nat>, lo: nat, hi: nat)
    requires Changed(s, t, d, extra, lo, hi)
    ensures Inv(s) && Inv(t) && Shape(s) && Shape(t) && Is(s, d, Directory) && Is(t, d, Directory)
    ensures d < |t.frames| == |s.frames|
    ensures t.first == s.first
  {
  }

  lemma ChangedNothing(s: Memory, d: nat)
    requires Inv(s) && Is(s, d, Directory)
    ensures Changed(s, s, d, {}, 0, 0)
  {
    forall v | 0 <= v < PAGES
      ensures SamePage(s, s, d, v)
    {
      UserFrame(s, d, v);
    }
  }

  lemma UserFrame(s: Memory, d: nat, v: nat)
    requires Inv(s) && Is(s, d, Directory) && v < PAGES
    ensures d < |s.frames| && (v < USERPAGES && Lookup(s, d, v).Some? ==>
      Is(s, Lookup(s, d, v).value.frame, Page(d, v)) && Lookup(s, d, v).value.frame < |s.frames|)
  {
    if v < USERPAGES && Lookup(s, d, v).Some? {
      PageAt(s, d, v);
    }
  }

  lemma ChangedTrans(s: Memory, t: Memory, u: Memory, d: nat, x: set<nat>, y: set<nat>, lo: nat, hi: nat)
    requires Changed(s, t, d, x, lo, hi) && Changed(t, u, d, y, lo, hi)
    ensures Changed(s, u, d, x + y, lo, hi)
  {
    hide Inv, Lookup;
    ChangedShape(s, t, d, x, lo, hi);
    ChangedShape(t, u, d, y, lo, hi);
    forall v | 0 <= v < PAGES && !(lo <= v < hi)
      ensures SamePage(s, u, d, v)
    {
      assert SamePage(s, t, d, v) && SamePage(t, u, d, v);
    }
    forall f | f in s.owner && !Of(s, f, d)
      ensures Is(u, f, s.owner[f]) && u.frames[f] == s.frames[f]
    {
      assert Is(t, f, s.owner[f]);
    }
    forall f | f in u.owner && !Of(u, f, d)
      ensures f in x + y || Is(s, f, u.owner[f])
    {
      assert f in y || Is(t, f, u.owner[f]);
    }
  }

  lemma ChangedWider(s: Memory, t: Memory, d: nat, x: set<nat>, lo: nat, hi: nat, lo': nat, hi': nat)
    requires Changed(s, t, d, x, lo, hi) && (lo >= hi || (lo' <= lo && hi <= hi'))
    ensures Changed(s, t, d, x, lo', hi')
  {
    hide Inv, Within, SamePage;
  }

  // Other directories translate as before, to frames with the contents they had.
  lemma OthersSame(s: Memory, t: Memory, d: nat, x: set<nat>, c: nat, v: nat)
    requires Within(s, t, d, x) && Is(s, c, Directory) && c != d && v < PAGES
    ensures Shape(s) && Shape(t) && c < |s.frames| && c < |t.frames|
    ensures SamePage(s, t, c, v)
  {
    InvShape(s, c);
    assert Is(t, c, Directory) && t.frames[c] == s.frames[c];
    assert PdeOk(s, c, v / ENTRIES);
    UserFrame(s, c, v);
  }

  // ---- walkpgdir --------------------------------------------------------

  function SetFrame(m: Memory, f: nat, words: seq<Entry>): Memory
    requires f < |m.frames|
  {
    m.(frames := m.frames[f := words])
  }

  // A zeroed frame from the free list is the new table for page vpn.
  function WithTable(m: Memory, d: nat, vpn: nat): Memory
    requires m.freelist != [] && m.freelist[0] < |m.frames| && d < |m.frames| && d != m.freelist[0]
      && vpn / ENTRIES < |m.frames[d]|
  {
    var t := m.freelist[0];
    AddTable(SetFrame(Taken(m), t, Zeros()), d, vpn / ENTRIES, t)
  }

  // A frame is taken and filled.
  lemma TakeFrame(m: Memory, d: nat, words: seq<Entry>)
    requires Inv(m) && Is(m, d, Directory) && m.freelist != [] && |words| == ENTRIES
    ensures m.freelist[0] < |m.frames| && m.freelist[0] !in m.owner && m.freelist[0] >= m.first
    ensures var n := SetFrame(Taken(m), m.freelist[0], words);
      Changed(m, n, d, {m.freelist[0]}, 0, 0) && Is(n, m.freelist[0], Other)
  {
    TakenInv(m);
    var f := m.freelist[0];
    var n := SetFrame(Taken(m), f, words);
    assert Shape(n) && Accounted(n);
    SameUses(m, n);
    forall v | 0 <= v < PAGES
      ensures SamePage(m, n, d, v)
    {
      UserFrame(m, d, v);
      assert PdeOk(m, d, v / ENTRIES);
    }
  }

  lemma WithTableChanged(m: Memory, d: nat, vpn: nat)
    requires Inv(m) && Is(m, d, Directory) && m.freelist != [] && vpn < PAGES
    requires d < |m.frames| && |m.frames[d]| == ENTRIES && !Present(m.frames[d][vpn / ENTRIES])
    ensures m.freelist[0] < |m.frames| && d != m.freelist[0]
    ensures Changed(m, WithTable(m, d, vpn), d, {}, 0, 0) && HasTable(WithTable(m, d, vpn), d, vpn)
  {
    TakeFrame(m, d, Zeros());
    var t := m.freelist[0];
    var n := SetFrame(Taken(m), t, Zeros());
    assert n.frames[t] == Zeros() && n.frames[d] == m.frames[d];
    AddTableInv(n, d, vpn / ENTRIES, t);
    var r := WithTable(m, d, vpn);
    forall v | 0 <= v < PAGES
      ensures SamePage(m, r, d, v)
    {
      AddTableLookup(n, d, vpn / ENTRIES, t, d, v);
      assert SamePage(m, n, d, v);
      UserFrame(m, d, v);
    }
  }

  // ---- one page ---------------------------------------------------------

  // The frame of the page was in flight; now it is a page of d.
  lemma AddPageChanged(s: Memory, m: Memory, d: nat, vpn: nat, e: Entry, x: set<nat>)
    requires CanAdd(m, d, vpn, e) && Changed(s, m, d, x, 0, 0)
    requires vpn < USERPAGES ==> x == {e.frame} && e.frame !in s.owner
    requires vpn >= USERPAGES ==> x == {}
    ensures Changed(s, AddPage(m, d, vpn, e), d, {}, vpn, vpn + 1)
    ensures Shape(AddPage(m, d, vpn, e)) && d < |AddPage(m, d, vpn, e).frames| == |m.frames|
    ensures Lookup(AddPage(m, d, vpn, e), d, vpn) == Some(e)
    ensures vpn < USERPAGES ==> e.frame < |m.frames| && AddPage(m, d, vpn, e).frames[e.frame] == m.frames[e.frame]
  {
    AddPageInv(m, d, vpn, e);
    AddPageLookup(m, d, vpn, e, d, vpn);
    TableAt(m, d, vpn);
    var n := AddPage(m, d, vpn, e);
    forall v | 0 <= v < PAGES && v != vpn
      ensures SamePage(s, n, d, v)
    {
      AddPageLookup(m, d, vpn, e, d, v);
      assert SamePage(s, m, d, v);
      UserFrame(m, d, v);
      UserFrame(s, d, v);
    }
    AddPageWithin(s, m, d, vpn, e, x);
  }

  lemma AddPageWithin(s: Memory, m: Memory, d: nat, vpn: nat, e: Entry, x: set<nat>)
    requires CanAdd(m, d, vpn, e) && Within(s, m, d, x) && Inv(AddPage(m, d, vpn, e))
    requires vpn < USERPAGES ==> x == {e.frame} && e.frame !in s.owner
    requires vpn >= USERPAGES ==> x == {}
    ensures Within(s, AddPage(m, d, vpn, e), d, {})
  {
    TableAt(m, d, vpn);
    hide Inv;
  }

  // A user page is unmapped and its frame freed.
  function Freed(m: Memory, d: nat, vpn: nat): Memory
    requires Inv(m) && HasTable(m, d, vpn) && Lookup(m, d, vpn).Some? && Lookup(m, d, vpn).value.frame < |m.frames|
  {
    Given(DropPage(m, d, vpn), Lookup(m, d, vpn).value.frame)
  }

  lemma FreedChanged(m: Memory, d: nat, vpn: nat)
    requires Inv(m) && Is(m, d, Directory) && vpn < USERPAGES && d < |m.frames| && Lookup(m, d, vpn).Some?
    ensures HasTable(m, d, vpn) && Lookup(m, d, vpn).value.frame < |m.frames|
    ensures Is(m, Lookup(m, d, vpn).value.frame, Page(d, vpn))
    ensures Changed(m, Freed(m, d, vpn), d, {}, vpn, vpn + 1) && Lookup(Freed(m, d, vpn), d, vpn) == None
  {
    PageAt(m, d, vpn);
    TableAt(m, d, vpn);
    DropPageInv(m, d, vpn);
    DropPageLookup(m, d, vpn, d, vpn);
    var n, f := DropPage(m, d, vpn), Lookup(m, d, vpn).value.frame;
    GivenInv(n, f);
    var r := Freed(m, d, vpn);
    forall v | 0 <= v < PAGES
      ensures Lookup(r, d, v) == Lookup(n, d, v)
      ensures v != vpn ==> SamePage(m, r, d, v)
    {
      DropPageLookup(m, d, vpn, d, v);
      assert PdeOk(n, d, v / ENTRIES);
      UserFrame(m, d, v);
    }
  }
}
