/** Page directories and page tables in physical frames, and what each frame is used for. */
module Paging {
  const ENTRIES := 1024
  const USER := 512          // directory entries below KERNBASE
  const PAGES := ENTRIES * ENTRIES
  const USERPAGES := USER * ENTRIES

  // A 32-bit entry: the frame in its high 20 bits, the flags in its low 12.
  datatype Entry = Entry(frame: nat, flags: bv12)

  const PTE_P: bv12 := 0x001
  const PTE_W: bv12 := 0x002
  const PTE_U: bv12 := 0x004

  predicate Present(e: Entry) {
    e.flags & PTE_P != 0
  }

  // Other: taken from the free list for something else, or not yet put to use.
  datatype Role = Directory | Table(dir: nat, index: nat) | Page(dir: nat, vpn: nat) | Other

  datatype Option<T> = None | Some(value: T)

  // frames[f] are the 1024 words of frame f; the frames from first on are managed.
  datatype Memory = Memory(first: nat, frames: seq<seq<Entry>>, freelist: seq<nat>, owner: map<nat, Role>)

  function Zeros(): seq<Entry> {
    seq(ENTRIES, _ => Entry(0, 0))
  }

  // ---- the invariant ----------------------------------------------------

  ghost predicate Shape(m: Memory) {
    && (forall f :: 0 <= f < |m.frames| ==> |m.frames[f]| == ENTRIES)
    && (forall f :: f in m.owner ==> m.first <= f < |m.frames|)
  }

  // Every managed frame is on the free list, once, or has a use.
  ghost predicate Accounted(m: Memory) {
    && (forall i :: 0 <= i < |m.freelist| ==> m.first <= m.freelist[i] < |m.frames| && m.freelist[i] !in m.owner)
    && (forall i, j :: 0 <= i < j < |m.freelist| ==> m.freelist[i] != m.freelist[j])
    && (forall f :: m.first <= f < |m.frames| ==> f in m.owner || f in m.freelist)
  }

  predicate Is(m: Memory, f: nat, r: Role) {
    f in m.owner && m.owner[f] == r
  }

  predicate IsTable(m: Memory, t: nat) {
    t in m.owner && m.owner[t].Table?
  }

  predicate IsPage(m: Memory, p: nat) {
    p in m.owner && m.owner[p].Page?
  }

  // An entry of directory d points to its own table, and leaves it to the table what the
  // user may do.
  ghost predicate PdeOk(m: Memory, d: nat, i: nat)
    requires Shape(m) && d < |m.frames| && i < ENTRIES
  {
    Present(m.frames[d][i]) ==>
      && Is(m, m.frames[d][i].frame, Table(d, i))
      && m.frames[d][i].flags & PTE_W != 0 && m.frames[d][i].flags & PTE_U != 0
  }

  // A table is pointed to by its directory.
  ghost predicate TableOk(m: Memory, t: nat)
    requires Shape(m) && IsTable(m, t)
  {
    var Table(d, i) := m.owner[t];
    i < ENTRIES && Is(m, d, Directory) && Present(m.frames[d][i]) && m.frames[d][i].frame == t
  }

  // An entry of a user table points to its own page.
  ghost predicate PteOk(m: Memory, t: nat, j: nat)
    requires Shape(m) && IsTable(m, t) && j < ENTRIES
  {
    m.owner[t].index < USER && Present(m.frames[t][j]) ==>
      Is(m, m.frames[t][j].frame, Page(m.owner[t].dir, m.owner[t].index * ENTRIES + j))
  }

  // A page is pointed to by its table.
  ghost predicate PageOk(m: Memory, p: nat)
    requires Shape(m) && IsPage(m, p)
  {
    var Page(d, vpn) := m.owner[p];
    && vpn < USERPAGES && Is(m, d, Directory) && Present(m.frames[d][vpn / ENTRIES])
    && var t := m.frames[d][vpn / ENTRIES].frame;
       t < |m.frames| && Present(m.frames[t][vpn % ENTRIES]) && m.frames[t][vpn % ENTRIES].frame == p
  }

  ghost predicate Inv(m: Memory) {
    && Shape(m) && Accounted(m)
    && (forall d, i :: Is(m, d, Directory) && 0 <= i < ENTRIES ==> PdeOk(m, d, i))
    && (forall t :: IsTable(m, t) ==> TableOk(m, t))
    && (forall t, j :: IsTable(m, t) && 0 <= j < ENTRIES ==> PteOk(m, t, j))
    && (forall p :: IsPage(m, p) ==> PageOk(m, p))
  }

  // What the processor finds for page vpn under directory d.
  function Lookup(m: Memory, d: nat, vpn: nat): Option<Entry>
    requires d < |m.frames| && vpn < PAGES && (forall f :: 0 <= f < |m.frames| ==> |m.frames[f]| == ENTRIES)
  {
    var pde := m.frames[d][vpn / ENTRIES];
    if Present(pde) && pde.frame < |m.frames| then
      var pte := m.frames[pde.frame][vpn % ENTRIES];
      if Present(pte) then Some(pte) else None
    else None
  }

  // What the processor allows on a page that is there: reading and writing by the user need
  // the flag in the directory entry and in the table entry, both.
  datatype Access = Access(user: bool, write: bool)

  function Allowed(m: Memory, d: nat, vpn: nat): Access
    requires d < |m.frames| && vpn < PAGES && (forall f :: 0 <= f < |m.frames| ==> |m.frames[f]| == ENTRIES)
    requires Lookup(m, d, vpn).Some?
  {
    var pde, pte := m.frames[d][vpn / ENTRIES], Lookup(m, d, vpn).value;
    Access(pde.flags & PTE_U != 0 && pte.flags & PTE_U != 0, pde.flags & PTE_W != 0 && pte.flags & PTE_W != 0)
  }

  // So the flags of the table entry decide.
  lemma AllowedBy(m: Memory, d: nat, vpn: nat)
    requires Inv(m) && Is(m, d, Directory) && vpn < PAGES && d < |m.frames| && Lookup(m, d, vpn).Some?
    ensures var flags := Lookup(m, d, vpn).value.flags;
      Allowed(m, d, vpn) == Access(flags & PTE_U != 0, flags & PTE_W != 0)
  {
    assert PdeOk(m, d, vpn / ENTRIES);
  }

  // ---- kalloc and kfree -------------------------------------------------

  function Taken(m: Memory): Memory
    requires m.freelist != []
  {
    m.(freelist := m.freelist[1..], owner := m.owner[m.freelist[0] := Other])
  }

  // memset with 1s
  function Junk(): seq<Entry> {
    seq(ENTRIES, _ => Entry(0x01010, 0x101))
  }

  function Given(m: Memory, f: nat): Memory
    requires f < |m.frames|
  {
    m.(freelist := [f] + m.freelist, owner := map g | g in m.owner && g != f :: m.owner[g],
       frames := m.frames[f := Junk()])
  }

  // Contents and uses of the frames in s are the same in t, but for those of directory d.
  predicate Of(m: Memory, f: nat, d: nat) {
    f == d || (f in m.owner && (m.owner[f].Table? || m.owner[f].Page?) && m.owner[f].dir == d)
  }

  lemma TakenInv(m: Memory)
    requires Inv(m) && m.freelist != []
    ensures Inv(Taken(m))
    ensures m.freelist[0] !in m.owner && m.first <= m.freelist[0] < |m.frames|
  {
    var t, f := Taken(m), m.freelist[0];
    assert Accounted(t) by {
      forall g | m.first <= g < |m.frames|
        ensures g in t.owner || g in t.freelist
      {
        if g in m.freelist && g != f {
          var i :| 0 <= i < |m.freelist| && m.freelist[i] == g;
          assert t.freelist[i - 1] == g;
        }
      }
    }
    SameUses(m, t);
  }

  // Frames have been taken or given back as Other; nothing else has changed.
  lemma SameUses(m: Memory, t: Memory)
    requires Inv(m) && Shape(t) && Accounted(t) && |t.frames| == |m.frames|
    requires forall f :: f in m.owner && m.owner[f] != Other ==>
      f in t.owner && t.owner[f] == m.owner[f] && t.frames[f] == m.frames[f]
    requires forall f :: f in t.owner && t.owner[f] != Other ==> f in m.owner && t.owner[f] == m.owner[f]
    ensures Inv(t)
  {
    forall d, i | Is(t, d, Directory) && 0 <= i < ENTRIES
      ensures PdeOk(t, d, i)
    {
      assert Is(m, d, Directory) && PdeOk(m, d, i);
    }
    forall k | IsTable(t, k)
      ensures TableOk(t, k)
    {
      assert IsTable(m, k) && TableOk(m, k);
    }
    forall k, j | IsTable(t, k) && 0 <= j < ENTRIES
      ensures PteOk(t, k, j)
    {
      assert IsTable(m, k) && PteOk(m, k, j);
    }
    forall p | IsPage(t, p)
      ensures PageOk(t, p)
    {
      assert IsPage(m, p) && PageOk(m, p);
      var d, vpn := m.owner[p].dir, m.owner[p].vpn;
      assert PdeOk(m, d, vpn / ENTRIES);
    }
  }

  lemma GivenInv(m: Memory, f: nat)
    requires Inv(m) && Is(m, f, Other)
    ensures Inv(Given(m, f))
  {
    var t := Given(m, f);
    assert Accounted(t) by {
      forall g | m.first <= g < |m.frames|
        ensures g in t.owner || g in t.freelist
      {
        if g in m.freelist {
          var i :| 0 <= i < |m.freelist| && m.freelist[i] == g;
          assert t.freelist[i + 1] == g;
        } else if g == f {
          assert t.freelist[0] == g;
        }
      }
    }
    SameUses(m, t);
  }

  // Memory after kinit: every managed frame is on the free list.
  lemma FreshInv(m: Memory)
    requires (forall f :: 0 <= f < |m.frames| ==> |m.frames[f]| == ENTRIES) && m.owner == map[]
    requires forall i :: 0 <= i < |m.freelist| ==> m.first <= m.freelist[i] < |m.frames|
    requires forall i, j :: 0 <= i < j < |m.freelist| ==> m.freelist[i] != m.freelist[j]
    requires forall f :: m.first <= f < |m.frames| ==> f in m.freelist
    ensures Inv(m)
  {
  }

  // ---- one entry --------------------------------------------------------

  function SetEntry(m: Memory, f: nat, j: nat, e: Entry): Memory
    requires f < |m.frames| && j < |m.frames[f]|
  {
    m.(frames := m.frames[f := m.frames[f][j := e]])
  }

  function SetUse(m: Memory, f: nat, r: Role): Memory {
    m.(owner := m.owner[f := r])
  }

  // The table of page vpn under d.
  function TableOf(m: Memory, d: nat, vpn: nat): nat
    requires d < |m.frames| && vpn / ENTRIES < |m.frames[d]|
  {
    m.frames[d][vpn / ENTRIES].frame
  }

  ghost predicate HasTable(m: Memory, d: nat, vpn: nat)
    requires Inv(m)
  {
    Is(m, d, Directory) && vpn < PAGES && Present(m.frames[d][vpn / ENTRIES])
  }

  lemma TableAt(m: Memory, d: nat, vpn: nat)
    requires Inv(m) && HasTable(m, d, vpn)
    ensures var k := TableOf(m, d, vpn);
      Is(m, k, Table(d, vpn / ENTRIES)) && k < |m.frames| && |m.frames[k]| == ENTRIES
  {
    assert PdeOk(m, d, vpn / ENTRIES);
  }

  // The directory entry for vpn is pointed to the frame t, which is full of zeros.
  function AddTable(m: Memory, d: nat, i: nat, t: nat): Memory
    requires d < |m.frames| && i < |m.frames[d]|
  {
    SetUse(SetEntry(m, d, i, Entry(t, PTE_P | PTE_W | PTE_U)), t, Table(d, i))
  }

  lemma AddTableInv(m: Memory, d: nat, i: nat, t: nat)
    requires Inv(m) && Is(m, d, Directory) && i < ENTRIES && !Present(m.frames[d][i])
    requires Is(m, t, Other) && m.frames[t] == Zeros()
    ensures Inv(AddTable(m, d, i, t))
  {
    var n := AddTable(m, d, i, t);
    assert Shape(n) && Accounted(n);
    forall c, j | Is(n, c, Directory) && 0 <= j < ENTRIES
      ensures PdeOk(n, c, j)
    {
      assert Is(m, c, Directory) && PdeOk(m, c, j);
    }
    forall k | IsTable(n, k)
      ensures TableOk(n, k)
    {
      assert k != t ==> IsTable(m, k) && TableOk(m, k);
    }
    forall k, j | IsTable(n, k) && 0 <= j < ENTRIES
      ensures PteOk(n, k, j)
    {
      assert k != t ==> IsTable(m, k) && PteOk(m, k, j);
    }
    forall p | IsPage(n, p)
      ensures PageOk(n, p)
    {
      assert IsPage(m, p) && PageOk(m, p);
      assert PdeOk(m, m.owner[p].dir, m.owner[p].vpn / ENTRIES);
    }
  }

  lemma AddTableLookup(m: Memory, d: nat, i: nat, t: nat, c: nat, v: nat)
    requires Inv(m) && Is(m, d, Directory) && i < ENTRIES && !Present(m.frames[d][i])
    requires Is(m, t, Other) && m.frames[t] == Zeros() && Is(m, c, Directory) && v < PAGES
    ensures Shape(AddTable(m, d, i, t)) && |AddTable(m, d, i, t).frames| == |m.frames|
    ensures Lookup(AddTable(m, d, i, t), c, v) == Lookup(m, c, v)
  {
    assert PdeOk(m, c, v / ENTRIES);
  }

  // The page is entered in its table.
  function AddPage(m: Memory, d: nat, vpn: nat, e: Entry): Memory
    requires Inv(m) && HasTable(m, d, vpn)
  {
    TableAt(m, d, vpn);
    var n := SetEntry(m, TableOf(m, d, vpn), vpn % ENTRIES, e);
    if vpn < USERPAGES then SetUse(n, e.frame, Page(d, vpn)) else n
  }

  ghost predicate CanAdd(m: Memory, d: nat, vpn: nat, e: Entry) {
    && Inv(m) && HasTable(m, d, vpn) && Lookup(m, d, vpn) == None && Present(e)
    && (vpn < USERPAGES ==> Is(m, e.frame, Other))
  }

  lemma AddPageInv(m: Memory, d: nat, vpn: nat, e: Entry)
    requires CanAdd(m, d, vpn, e)
    ensures Inv(AddPage(m, d, vpn, e))
  {
    TableAt(m, d, vpn);
    var n := AddPage(m, d, vpn, e);
    assert Shape(n) && Accounted(n);
    forall c, j | Is(n, c, Directory) && 0 <= j < ENTRIES
      ensures PdeOk(n, c, j)
    {
      assert Is(m, c, Directory) && PdeOk(m, c, j);
    }
    AddPageTables(m, d, vpn, e);
    AddPagePages(m, d, vpn, e);
  }

  lemma AddPageTables(m: Memory, d: nat, vpn: nat, e: Entry)
    requires CanAdd(m, d, vpn, e) && Shape(AddPage(m, d, vpn, e))
    ensures forall h :: IsTable(AddPage(m, d, vpn, e), h) ==> TableOk(AddPage(m, d, vpn, e), h)
    ensures forall h, j :: IsTable(AddPage(m, d, vpn, e), h) && 0 <= j < ENTRIES ==> PteOk(AddPage(m, d, vpn, e), h, j)
  {
    TableAt(m, d, vpn);
    var n := AddPage(m, d, vpn, e);
    forall h | IsTable(n, h)
      ensures TableOk(n, h)
    {
      assert IsTable(m, h) && TableOk(m, h);
    }
    forall h, j | IsTable(n, h) && 0 <= j < ENTRIES
      ensures PteOk(n, h, j)
    {
      assert IsTable(m, h) && PteOk(m, h, j);
    }
  }

  lemma AddPagePages(m: Memory, d: nat, vpn: nat, e: Entry)
    requires CanAdd(m, d, vpn, e) && Shape(AddPage(m, d, vpn, e))
    ensures forall p :: IsPage(AddPage(m, d, vpn, e), p) ==> PageOk(AddPage(m, d, vpn, e), p)
  {
    TableAt(m, d, vpn);
    var n := AddPage(m, d, vpn, e);
    forall p | IsPage(n, p)
      ensures PageOk(n, p)
    {
      if IsPage(m, p) && p != e.frame {
        assert PageOk(m, p);
        TableAt(m, m.owner[p].dir, m.owner[p].vpn);
      }
    }
  }

  lemma AddPageLookup(m: Memory, d: nat, vpn: nat, e: Entry, c: nat, v: nat)
    requires CanAdd(m, d, vpn, e) && Is(m, c, Directory) && v < PAGES
    ensures Shape(AddPage(m, d, vpn, e)) && |AddPage(m, d, vpn, e).frames| == |m.frames|
    ensures Lookup(AddPage(m, d, vpn, e), c, v) == if (c, v) == (d, vpn) then Some(e) else Lookup(m, c, v)
  {
    TableAt(m, d, vpn);
    assert PdeOk(m, c, v / ENTRIES);
  }

  // The entry of a user page is cleared.
  function DropPage(m: Memory, d: nat, vpn: nat): Memory
    requires Inv(m) && HasTable(m, d, vpn)
  {
    TableAt(m, d, vpn);
    SetUse(SetEntry(m, TableOf(m, d, vpn), vpn % ENTRIES, Entry(0, 0)),
           m.frames[TableOf(m, d, vpn)][vpn % ENTRIES].frame, Other)
  }

  lemma PageAt(m: Memory, d: nat, vpn: nat)
    requires Inv(m) && Is(m, d, Directory) && vpn < USERPAGES && Lookup(m, d, vpn).Some?
    ensures HasTable(m, d, vpn) && Is(m, Lookup(m, d, vpn).value.frame, Page(d, vpn))
  {
    TableAt(m, d, vpn);
    assert PteOk(m, TableOf(m, d, vpn), vpn % ENTRIES);
  }

  lemma DropPageInv(m: Memory, d: nat, vpn: nat)
    requires Inv(m) && Is(m, d, Directory) && vpn < USERPAGES && Lookup(m, d, vpn).Some?
    ensures HasTable(m, d, vpn) && Inv(DropPage(m, d, vpn))
  {
    PageAt(m, d, vpn);
    TableAt(m, d, vpn);
    var n, k, q := DropPage(m, d, vpn), TableOf(m, d, vpn), Lookup(m, d, vpn).value.frame;
    assert Shape(n) && Accounted(n);
    forall c, j | Is(n, c, Directory) && 0 <= j < ENTRIES
      ensures PdeOk(n, c, j)
    {
      assert Is(m, c, Directory) && PdeOk(m, c, j);
    }
    forall h | IsTable(n, h)
      ensures TableOk(n, h)
    {
      assert IsTable(m, h) && TableOk(m, h);
    }
    forall h, j | IsTable(n, h) && 0 <= j < ENTRIES
      ensures PteOk(n, h, j)
    {
      assert IsTable(m, h) && PteOk(m, h, j);
    }
    forall p | IsPage(n, p)
      ensures PageOk(n, p)
    {
      assert IsPage(m, p) && PageOk(m, p);
      TableAt(m, m.owner[p].dir, m.owner[p].vpn);
    }
  }

  lemma DropPageLookup(m: Memory, d: nat, vpn: nat, c: nat, v: nat)
    requires Inv(m) && Is(m, d, Directory) && vpn < USERPAGES && Lookup(m, d, vpn).Some? && Is(m, c, Directory)
      && v < PAGES
    ensures HasTable(m, d, vpn) && Shape(DropPage(m, d, vpn)) && |DropPage(m, d, vpn).frames| == |m.frames|
    ensures Lookup(DropPage(m, d, vpn), c, v) == if (c, v) == (d, vpn) then None else Lookup(m, c, v)
  {
    PageAt(m, d, vpn);
    TableAt(m, d, vpn);
    assert PdeOk(m, c, v / ENTRIES);
  }

  // Directory d and its tables stop being that; they still hold what they held.
  function Dissolved(m: Memory, d: nat): Memory {
    m.(owner := map f | f in m.owner :: if Of(m, f, d) then Other else m.owner[f])
  }

  lemma DissolvedInv(m: Memory, d: nat)
    requires Inv(m) && Is(m, d, Directory) && forall p :: IsPage(m, p) ==> m.owner[p].dir != d
    ensures Inv(Dissolved(m, d))
  {
    var n := Dissolved(m, d);
    assert Shape(n) && Accounted(n);
    forall c, j | Is(n, c, Directory) && 0 <= j < ENTRIES
      ensures PdeOk(n, c, j)
    {
      assert Is(m, c, Directory) && PdeOk(m, c, j);
    }
    forall h | IsTable(n, h)
      ensures TableOk(n, h)
    {
      assert IsTable(m, h) && TableOk(m, h);
    }
    forall h, j | IsTable(n, h) && 0 <= j < ENTRIES
      ensures PteOk(n, h, j)
    {
      assert IsTable(m, h) && PteOk(m, h, j);
    }
    forall p | IsPage(n, p)
      ensures PageOk(n, p)
    {
      assert IsPage(m, p) && PageOk(m, p);
    }
  }
}
