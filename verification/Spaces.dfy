/** Whole address spaces: a new directory beside the others, and one that goes. */
module Spaces {
  import opened Paging
  import opened PagingSteps

  // t has all that s has, unchanged, and more only under d, which is new.
  ghost predicate Beside(s: Memory, t: Memory, d: nat) {
    && Inv(s) && Inv(t) && t.first == s.first && |t.frames| == |s.frames| && d !in s.owner && Is(t, d, Directory)
    && (forall f :: f in s.owner ==> Is(t, f, s.owner[f]) && t.frames[f] == s.frames[f])
    && (forall f :: f in t.owner && !Of(t, f, d) ==> Is(s, f, t.owner[f]))
  }

  // The same frames are in use, for the same, with the same contents; so the free list
  // has the same frames too.
  ghost predicate Same(s: Memory, t: Memory) {
    && Inv(s) && Inv(t) && t.first == s.first && |t.frames| == |s.frames| && t.owner == s.owner
    && forall f :: f in s.owner ==> t.frames[f] == s.frames[f]
  }

  // Directory d is gone, with its tables and its pages; all else is as it was.
  ghost predicate Gone(s: Memory, t: Memory, d: nat) {
    && Inv(s) && Inv(t) && t.first == s.first && |t.frames| == |s.frames|
    && (forall f :: f in s.owner && !Of(s, f, d) ==> Is(t, f, s.owner[f]) && t.frames[f] == s.frames[f])
    && (forall f :: f in t.owner ==> Is(s, f, t.owner[f]) && !Of(s, f, d))
  }

  // Each frame of it is on the free list, once.
  lemma GoneFreed(s: Memory, t: Memory, d: nat, f: nat)
    requires Gone(s, t, d) && f in s.owner && Of(s, f, d)
    ensures f in t.freelist && multiset(t.freelist)[f] == 1
  {
    assert f !in t.owner;
    Once(t.freelist, f);
  }

  lemma {:induction false} Once(s: seq<nat>, x: nat)
    requires x in s && forall i, j :: 0 <= i < j < |s| ==> s[i] != s[j]
    ensures multiset(s)[x] == 1
  {
    assert s == [s[0]] + s[1..];
    if s[0] == x {
      assert x !in s[1..];
    } else {
      Once(s[1..], x);
    }
  }

  lemma SameFree(s: Memory, t: Memory)
    requires Same(s, t)
    ensures forall f :: f in s.freelist <==> f in t.freelist
  {
    hide PdeOk, PteOk, TableOk, PageOk;
    forall f
      ensures f in s.freelist <==> f in t.freelist
    {
    }
  }

  // ---- a new directory --------------------------------------------------

  function NewDir(m: Memory): Memory
    requires m.freelist != [] && m.freelist[0] < |m.frames|
  {
    SetUse(SetFrame(Taken(m), m.freelist[0], Zeros()), m.freelist[0], Directory)
  }

  lemma NewDirTables(m: Memory, n: Memory)
    requires Inv(m) && m.freelist != [] && n == NewDir(m)
    ensures forall k :: IsTable(n, k) ==> TableOk(n, k)
    ensures forall k, j :: IsTable(n, k) && 0 <= j < ENTRIES ==> PteOk(n, k, j)
  {
    forall k | IsTable(n, k)
      ensures TableOk(n, k)
    {
      assert IsTable(m, k) && TableOk(m, k);
    }
    forall k, j | IsTable(n, k) && 0 <= j < ENTRIES
      ensures PteOk(n, k, j)
    {
      assert IsTable(m, k) && PteOk(m, k, j);
    }
  }

  lemma NewDirPages(m: Memory, n: Memory)
    requires Inv(m) && m.freelist != [] && n == NewDir(m)
    ensures forall p :: IsPage(n, p) ==> PageOk(n, p)
  {
    forall p | IsPage(n, p)
      ensures PageOk(n, p)
    {
      assert IsPage(m, p) && PageOk(m, p);
      TableAt(m, m.owner[p].dir, m.owner[p].vpn);
    }
  }

  lemma NewDirBeside(m: Memory)
    requires Inv(m) && m.freelist != []
    ensures m.freelist[0] < |m.frames| && Beside(m, NewDir(m), m.freelist[0])
    ensures Shape(NewDir(m)) && forall v :: 0 <= v < PAGES ==> Lookup(NewDir(m), m.freelist[0], v) == None
  {
    TakenInv(m);
    var n, d := NewDir(m), m.freelist[0];
    assert Shape(n) && Accounted(n);
    forall c, i | Is(n, c, Directory) && 0 <= i < ENTRIES
      ensures PdeOk(n, c, i)
    {
      assert c != d ==> Is(m, c, Directory) && PdeOk(m, c, i);
    }
    NewDirTables(m, n);
    NewDirPages(m, n);
    NewDirOf(m, n, d);
  }

  lemma NewDirOf(m: Memory, n: Memory, d: nat)
    requires Inv(m) && Inv(n) && d !in m.owner && n.owner == m.owner[d := Directory]
    ensures forall f :: f in n.owner && !Of(n, f, d) ==> Is(m, f, n.owner[f])
  {
    hide Inv;
  }

  lemma InRange(s: Memory)
    requires Inv(s)
    ensures forall f :: f in s.owner ==> f < |s.frames|
  {
  }

  lemma NothingOf(s: Memory, d: nat, f: nat)
    requires Inv(s) && d !in s.owner && f in s.owner
    ensures !Of(s, f, d)
  {
    assert IsTable(s, f) ==> TableOk(s, f);
    assert IsPage(s, f) ==> PageOk(s, f);
  }

  lemma BesideThen(s: Memory, t: Memory, u: Memory, d: nat, lo: nat, hi: nat)
    requires Beside(s, t, d) && Changed(t, u, d, {}, lo, hi)
    ensures Beside(s, u, d)
  {
    hide Inv, PagesSame;
    InRange(s);
    forall f | f in s.owner
      ensures Is(u, f, s.owner[f]) && u.frames[f] == s.frames[f]
    {
      NothingOf(s, d, f);
      assert Is(t, f, s.owner[f]) && !Of(t, f, d);
    }
    forall f | f in u.owner && !Of(u, f, d)
      ensures Is(s, f, u.owner[f])
    {
      assert Is(t, f, u.owner[f]);
    }
  }

  lemma BesideGone(s: Memory, t: Memory, u: Memory, d: nat)
    requires Beside(s, t, d) && Gone(t, u, d)
    ensures Same(s, u)
  {
    hide Inv;
    InRange(s);
    forall f | f in s.owner
      ensures Is(u, f, s.owner[f]) && u.frames[f] == s.frames[f]
    {
      NothingOf(s, d, f);
      assert Is(t, f, s.owner[f]) && !Of(t, f, d);
    }
    forall f | f in u.owner
      ensures Is(s, f, u.owner[f])
    {
      assert Is(t, f, u.owner[f]) && !Of(t, f, d);
    }
  }

  // The other directories find the same pages, with the same contents.
  lemma BesideSame(s: Memory, t: Memory, d: nat, c: nat, v: nat)
    requires Beside(s, t, d) && Is(s, c, Directory) && v < PAGES
    ensures Shape(s) && Shape(t) && c < |s.frames| && c < |t.frames| && SamePage(s, t, c, v)
  {
    InvShape(s, c);
    assert Is(t, c, Directory);
    assert PdeOk(s, c, v / ENTRIES);
    UserFrame(s, c, v);
  }

  // ---- freevm -----------------------------------------------------------

  lemma PageFound(m: Memory, p: nat)
    requires Inv(m) && IsPage(m, p)
    ensures m.owner[p].vpn < USERPAGES && m.owner[p].dir < |m.frames| && Lookup(m, m.owner[p].dir, m.owner[p].vpn).Some?
  {
    assert PageOk(m, p);
  }

  lemma NoPagesLeft(m: Memory, d: nat)
    requires Inv(m) && Is(m, d, Directory) && d < |m.frames|
    requires forall v :: 0 <= v < USERPAGES ==> Lookup(m, d, v) == None
    ensures forall p :: IsPage(m, p) ==> m.owner[p].dir != d
  {
    forall p | IsPage(m, p)
      ensures m.owner[p].dir != d
    {
      PageFound(m, p);
    }
  }

  // The loop of freevm over the directory, when the tables before entry i are freed.
  ghost predicate Draining(s: Memory, t: Memory, d: nat, i: nat) {
    && Inv(s) && Inv(t) && t.first == s.first && |t.frames| == |s.frames| && Is(s, d, Directory)
    && Is(t, d, Other) && t.frames[d] == s.frames[d]
    && (forall f :: f in s.owner && !Of(s, f, d) ==> Is(t, f, s.owner[f]) && t.frames[f] == s.frames[f])
    && (forall f :: IsTable(s, f) && s.owner[f].dir == d && s.owner[f].index >= i ==> Is(t, f, Other))
    && (forall f :: f in t.owner && f != d ==>
          (Is(s, f, t.owner[f]) && !Of(s, f, d)) || (IsTable(s, f) && s.owner[f].dir == d && s.owner[f].index >= i))
  }

  lemma DrainStart(s: Memory, d: nat)
    requires Inv(s) && Is(s, d, Directory) && forall p :: IsPage(s, p) ==> s.owner[p].dir != d
    ensures Draining(s, Dissolved(s, d), d, 0)
  {
    DissolvedInv(s, d);
    hide Inv;
  }

  lemma DrainSkip(s: Memory, t: Memory, d: nat, i: nat)
    requires Draining(s, t, d, i) && i < ENTRIES
    ensures d < |t.frames| && |t.frames[d]| == ENTRIES
    ensures !Present(t.frames[d][i]) ==> Draining(s, t, d, i + 1)
  {
    InvShape(s, d);
    assert forall f :: IsTable(s, f) ==> TableOk(s, f);
    hide Inv;
  }

  lemma DrainFree(s: Memory, t: Memory, d: nat, i: nat)
    requires Draining(s, t, d, i) && i < ENTRIES && d < |t.frames| && |t.frames[d]| == ENTRIES
      && Present(t.frames[d][i])
    ensures var f := t.frames[d][i].frame;
      Is(t, f, Other) && t.first <= f < |t.frames| && Draining(s, Given(t, f), d, i + 1)
  {
    InvShape(s, d);
    assert PdeOk(s, d, i);
    var f := t.frames[d][i].frame;
    assert Is(s, f, Table(d, i));
    GivenInv(t, f);
    OnlyTable(s, d, i, f);
    hide Inv;
  }

  lemma OnlyTable(s: Memory, d: nat, i: nat, f: nat)
    requires Inv(s) && Is(s, f, Table(d, i))
    ensures forall g :: IsTable(s, g) && s.owner[g].dir == d && s.owner[g].index == i ==> g == f
  {
    assert IsTable(s, f) && TableOk(s, f);
    forall g | IsTable(s, g) && s.owner[g].dir == d && s.owner[g].index == i
      ensures g == f
    {
      assert TableOk(s, g);
    }
  }

  lemma Drained(s: Memory, t: Memory, d: nat)
    requires Draining(s, t, d, ENTRIES)
    ensures t.first <= d < |t.frames| && Gone(s, Given(t, d), d)
  {
    GivenInv(t, d);
    assert forall f :: IsTable(s, f) ==> TableOk(s, f);
    hide Inv;
  }

  lemma GoneAfter(s: Memory, t: Memory, u: Memory, d: nat, lo: nat, hi: nat)
    requires Changed(s, t, d, {}, lo, hi) && Gone(t, u, d)
    ensures Gone(s, u, d)
  {
    hide Inv, PagesSame;
    InRange(s);
    forall f | f in s.owner && !Of(s, f, d)
      ensures Is(u, f, s.owner[f]) && u.frames[f] == s.frames[f]
    {
      assert Is(t, f, s.owner[f]) && !Of(t, f, d);
    }
    forall f | f in u.owner
      ensures Is(s, f, u.owner[f]) && !Of(s, f, d)
    {
      assert Is(t, f, u.owner[f]) && !Of(t, f, d);
    }
  }
}
