/** malloc and free: a circular free list threaded through block headers, from section
    8.7 of The C Programming Language, second edition. Addresses count units of one
    header. All of them lie below KERNBASE, so sums of an address and a size do not
    wrap. */
module Umalloc {
  import opened Params
  import opened FreeList

  const HEADER := 8      // sizeof(Header)
  const MINCORE := 4096  // the fewest units morecore asks for

  datatype Header = Header(ptr: nat, size: nat)

  // What sbrk returns when asked for more.
  datatype Core = NoCore | Core(addr: nat)

  // Units for a request, header included, in 32-bit unsigned arithmetic.
  function UnitsFor(nbytes: nat): nat
    requires nbytes < UINT
  {
    (nbytes + HEADER - 1) % UINT / HEADER + 1
  }

  function CoreUnits(nunits: nat): nat {
    if nunits < MINCORE then MINCORE else nunits
  }

  // The int that sbrk is given for nu units.
  function SbrkArgument(nu: nat): int {
    var bytes := nu * HEADER % UINT;
    if bytes < UINT / 2 then bytes else bytes - UINT
  }

  // morecore takes at least 32768 bytes at a time, and never less than it is asked for.
  lemma CoreEnough(nunits: nat)
    ensures CoreUnits(nunits) >= nunits && CoreUnits(nunits) * HEADER >= 32768
    ensures CoreUnits(nunits) == nunits || CoreUnits(nunits) * HEADER == 32768
  {
  }

  // The units hold the bytes asked for unless the rounding wraps around; then they
  // hold none at all.
  lemma UnitsSuffice(nbytes: nat)
    requires nbytes < UINT
    ensures (UnitsFor(nbytes) - 1) * HEADER >= nbytes <==> nbytes <= UINT - HEADER
    ensures nbytes > UINT - HEADER ==> UnitsFor(nbytes) == 1
    ensures nbytes <= UINT - HEADER ==> (UnitsFor(nbytes) - 2) * HEADER < nbytes
  {
  }

  lemma UnitsTooFew()
    ensures UnitsFor(0xffff_fff9) == 1
  {
  }

  // sbrk is asked for the bytes that morecore goes on to use exactly for requests
  // short of 2^31 bytes, and for the few whose rounding wraps; in between its
  // argument is zero or negative.
  lemma SbrkGrows(nbytes: nat)
    requires nbytes < UINT
    ensures var nu := CoreUnits(UnitsFor(nbytes));
      SbrkArgument(nu) == nu * HEADER <==> nbytes <= UINT / 2 - 2 * HEADER || nbytes > UINT - HEADER
    ensures var nu := CoreUnits(UnitsFor(nbytes));
      !(nbytes <= UINT / 2 - 2 * HEADER || nbytes > UINT - HEADER) ==> SbrkArgument(nu) <= 0
  {
  }

  // ---- the circular list ------------------------------------------------

  // Where a path through bs that then goes to end begins.
  function First(bs: seq<Blk>, end: nat): nat {
    if bs == [] then end else bs[0].addr
  }

  // The headers in memory lead from block to block of bs, and then to end.
  ghost predicate Path(mem: map<nat, Header>, bs: seq<Blk>, end: nat) {
    bs == [] || (
      && bs[0].addr in mem && mem[bs[0].addr] == Header(First(bs[1..], end), bs[0].size)
      && Path(mem, bs[1..], end))
  }

  // They form one cycle through the blocks of bs, in their order.
  ghost predicate Linked(mem: map<nat, Header>, bs: seq<Blk>) {
    bs != [] && Path(mem, bs, bs[0].addr)
  }

  lemma {:induction false} PathConcat(mem: map<nat, Header>, a: seq<Blk>, b: seq<Blk>, end: nat)
    ensures Path(mem, a + b, end) <==> Path(mem, a, First(b, end)) && Path(mem, b, end)
    ensures First(a + b, end) == First(a, First(b, end))
  {
    if a == [] {
      assert a + b == b;
    } else {
      assert (a + b)[1..] == a[1..] + b;
      PathConcat(mem, a[1..], b, end);
    }
  }

  lemma {:induction false} PathFrame(mem: map<nat, Header>, m: map<nat, Header>, bs: seq<Blk>, end: nat)
    requires Path(mem, bs, end)
    requires forall i :: 0 <= i < |bs| && bs[i].addr in mem ==> bs[i].addr in m && m[bs[i].addr] == mem[bs[i].addr]
    ensures Path(m, bs, end)
  {
    if bs != [] {
      assert forall i :: 0 <= i < |bs[1..]| ==> bs[1..][i] == bs[i + 1];
      PathFrame(mem, m, bs[1..], end);
    }
  }

  lemma {:induction false} PathAt(mem: map<nat, Header>, bs: seq<Blk>, end: nat, i: nat)
    requires Path(mem, bs, end) && i < |bs|
    ensures bs[i].addr in mem && mem[bs[i].addr] == Header(First(bs[i + 1..], end), bs[i].size)
  {
    if i > 0 {
      PathAt(mem, bs[1..], end, i - 1);
      assert bs[1..][i - 1 + 1..] == bs[i + 1..];
    }
  }

  // The block after bs[i] on the cycle.
  function After(bs: seq<Blk>, i: nat): nat
    requires i < |bs|
  {
    bs[if i + 1 < |bs| then i + 1 else 0].addr
  }

  lemma LinkedAt(mem: map<nat, Header>, bs: seq<Blk>, i: nat)
    requires Linked(mem, bs) && i < |bs|
    ensures bs[i].addr in mem && mem[bs[i].addr] == Header(After(bs, i), bs[i].size)
  {
    PathAt(mem, bs, bs[0].addr, i);
  }

  // Replacing the blocks i .. j of the cycle by others that begin where they did.
  lemma Relink(mem: map<nat, Header>, m: map<nat, Header>, bs: seq<Blk>, i: nat, j: nat, c: seq<Blk>)
    requires Linked(mem, bs) && i <= j <= |bs| && c != []
    requires j > i && c[0].addr == bs[i].addr
    requires Path(m, c, First(bs[j..], bs[0].addr))
    requires forall x :: (0 <= x < i || j <= x < |bs|) && bs[x].addr in mem ==>
      bs[x].addr in m && m[bs[x].addr] == mem[bs[x].addr]
    ensures Linked(m, bs[..i] + c + bs[j..])
  {
    var a, b, end := bs[..i], bs[j..], bs[0].addr;
    assert bs == a + (bs[i..j] + b);
    assert First(bs[i..j] + b, end) == c[0].addr && First(c + b, end) == c[0].addr;
    assert bs[..i] + c + bs[j..] == a + (c + b);
    assert (a + (c + b))[0].addr == end;
    hide Path;
    PathConcat(mem, a, bs[i..j] + b, end);
    PathConcat(mem, bs[i..j], b, end);
    assert Path(m, a, c[0].addr) by {
      PathFrame(mem, m, a, c[0].addr);
    }
    assert Path(m, b, end) by {
      assert forall x :: 0 <= x < |b| ==> b[x] == bs[j + x];
      PathFrame(mem, m, b, end);
    }
    PathConcat(m, c, b, end);
    PathConcat(m, a, c + b, end);
  }

  lemma Increasing(bs: seq<Blk>)
    requires Apart(bs)
    ensures forall i, j :: 0 <= i < j < |bs| ==> bs[i].addr + bs[i].size < bs[j].addr
  {
    forall i, j | 0 <= i < j < |bs|
      ensures bs[i].addr + bs[i].size < bs[j].addr
    {
      ApartFar(bs, i, j);
    }
  }

  // The blocks up to a gap lie below it, and the others above.
  lemma GapSides(base: nat, bs: seq<Blk>, k: nat, b: Blk)
    requires Ordered(base, bs) && InGap(bs, k, b)
    ensures k < |bs| && bs[0].addr < b.addr
    ensures forall i :: 0 <= i < |bs| ==> (bs[i].addr < b.addr <==> i <= k)
    ensures forall i :: 0 <= i < |bs| - 1 ==> bs[i].addr < bs[i + 1].addr
    ensures forall i :: 0 < i < |bs| ==> bs[0].addr < bs[i].addr
    ensures forall i :: 0 <= i < |bs| ==> bs[i].addr != b.addr
  {
    Increasing(bs);
  }

  // The assignments of free once p = bs[k] is found.
  function Spliced(mem: map<nat, Header>, p: nat, bp: nat): (m: map<nat, Header>)
    requires p in mem && bp in mem && mem[p].ptr in mem && p != bp
  {
    var q := mem[p].ptr;
    var m1 := if bp + mem[bp].size == q then mem[bp := Header(mem[q].ptr, mem[bp].size + mem[q].size)]
              else mem[bp := Header(q, mem[bp].size)];
    if p + m1[p].size == bp then m1[p := Header(m1[bp].ptr, m1[p].size + m1[bp].size)]
    else m1[p := Header(bp, m1[p].size)]
  }

  // They free b: the cycle then goes through the list with b merged into it.
  lemma SplicedLinked(base: nat, mem: map<nat, Header>, bs: seq<Blk>, k: nat, b: Blk)
    requires Ordered(base, bs) && Linked(mem, bs) && InGap(bs, k, b)
    requires b.addr in mem && mem[b.addr].size == b.size
    ensures bs[k].addr in mem && mem[bs[k].addr].ptr in mem && bs[k].addr != b.addr
    ensures Linked(Spliced(mem, bs[k].addr, b.addr), Insert(bs, k, b))
  {
    var next := if TouchesNext(bs, k, b) then k + 2 else k + 1;
    LinkedAt(mem, bs, k);
    if k + 1 < |bs| {
      LinkedAt(mem, bs, k + 1);
    } else {
      LinkedAt(mem, bs, 0);
    }
    MergedPath(base, mem, bs, k, b);
    var m := Spliced(mem, bs[k].addr, b.addr);
    Increasing(bs);
    Relink(mem, m, bs, k, next, Merged(bs, k, b));
  }

  lemma MergedPath(base: nat, mem: map<nat, Header>, bs: seq<Blk>, k: nat, b: Blk)
    requires Ordered(base, bs) && InGap(bs, k, b)
    requires b.addr in mem && mem[b.addr].size == b.size
    requires bs[k].addr in mem && mem[bs[k].addr] == Header(After(bs, k), bs[k].size)
    requires After(bs, k) in mem
    requires k + 1 < |bs| ==> mem[bs[k + 1].addr] == Header(After(bs, k + 1), bs[k + 1].size)
    ensures var next := if TouchesNext(bs, k, b) then k + 2 else k + 1;
      Path(Spliced(mem, bs[k].addr, b.addr), Merged(bs, k, b), First(bs[next..], base))
  {
    Increasing(bs);
    var m, c := Spliced(mem, bs[k].addr, b.addr), Merged(bs, k, b);
    assert c[1..] == if |c| == 1 then [] else [c[1]];
    assert |c| == 2 ==> c[1..][1..] == [];
    assert TouchesNext(bs, k, b) ==> mem[bs[k].addr].ptr == bs[k + 1].addr;
  }

  // The assignments of malloc that cut n units off p = bs[j], found from prevp.
  function Cut(mem: map<nat, Header>, prevp: nat, p: nat, n: nat): (m: map<nat, Header>)
    requires prevp in mem && p in mem && mem[p].size >= n
  {
    if mem[p].size == n then mem[prevp := Header(mem[p].ptr, mem[prevp].size)]
    else
      var rest := mem[p].size - n;
      var m1 := mem[p := Header(mem[p].ptr, rest)];
      var t := p + rest;
      m1[t := Header(if t in m1 then m1[t].ptr else 0, n)]
  }

  lemma CutLinked(base: nat, mem: map<nat, Header>, bs: seq<Blk>, j: nat, n: nat)
    requires Ordered(base, bs) && Linked(mem, bs) && 1 <= j < |bs| && 1 <= n <= bs[j].size
    ensures bs[j - 1].addr in mem && bs[j].addr in mem && mem[bs[j].addr].size >= n
    ensures var m, t := Cut(mem, bs[j - 1].addr, bs[j].addr, n), Taken(bs, j, n);
      Linked(m, Take(bs, j, n)) && t.addr in m && m[t.addr].size == n
  {
    LinkedAt(mem, bs, j - 1);
    LinkedAt(mem, bs, j);
    Increasing(bs);
    if bs[j].size == n {
      UnlinkLinked(mem, bs, j);
      assert Take(bs, j, n) == bs[..j] + bs[j + 1..];
    } else {
      ShrinkLinked(mem, bs, j, n);
    }
  }

  lemma UnlinkLinked(mem: map<nat, Header>, bs: seq<Blk>, j: nat)
    requires Linked(mem, bs) && 1 <= j < |bs|
    requires forall x :: 0 <= x < |bs| && x != j - 1 ==> bs[x].addr != bs[j - 1].addr
    requires bs[j - 1].addr in mem && mem[bs[j - 1].addr].size == bs[j - 1].size
    requires bs[j].addr in mem && mem[bs[j].addr].ptr == After(bs, j)
    ensures Linked(mem[bs[j - 1].addr := Header(mem[bs[j].addr].ptr, mem[bs[j - 1].addr].size)], bs[..j] + bs[j + 1..])
  {
    var m := mem[bs[j - 1].addr := Header(mem[bs[j].addr].ptr, mem[bs[j - 1].addr].size)];
    var c := [bs[j - 1]];
    assert c[1..] == [];
    Relink(mem, m, bs, j - 1, j + 1, c);
    assert bs[..j - 1] + c + bs[j + 1..] == bs[..j] + bs[j + 1..];
  }

  lemma ShrinkLinked(mem: map<nat, Header>, bs: seq<Blk>, j: nat, n: nat)
    requires Linked(mem, bs) && 1 <= j < |bs| && n < bs[j].size
    requires forall x :: 0 <= x < |bs| ==>
      bs[x].addr != bs[j].addr + bs[j].size - n && (x != j ==> bs[x].addr != bs[j].addr)
    requires bs[j - 1].addr in mem && bs[j].addr in mem && mem[bs[j].addr] == Header(After(bs, j), bs[j].size)
    ensures Linked(Cut(mem, bs[j - 1].addr, bs[j].addr, n), Take(bs, j, n))
  {
    var c := [Blk(bs[j].addr, bs[j].size - n)];
    assert c[1..] == [];
    Relink(mem, Cut(mem, bs[j - 1].addr, bs[j].addr, n), bs, j, j + 1, c);
  }

  // The units with an owner are those of the live blocks.
  ghost predicate OwnedBy(live: map<nat, nat>, owner: map<nat, nat>) {
    && (forall u :: u in owner ==> owner[u] in live && Within(u, Blk(owner[u], live[owner[u]])))
    && (forall a, u: nat :: a in live && Within(u, Blk(a, live[a])) ==> u in owner && owner[u] == a)
  }

  // Free and live blocks are pairwise disjoint and make up the arena; owner gives
  // the live block of each unit that has one.
  ghost predicate PartitionOf(base: nat, free: set<nat>, live: map<nat, nat>, owner: map<nat, nat>, arena: set<nat>) {
    && free !! owner.Keys && free + owner.Keys == arena
    && (forall u :: u in arena ==> base < u)
    && OwnedBy(live, owner)
  }

  ghost function Owned(owner: map<nat, nat>, b: Blk): (o: map<nat, nat>)
    ensures o.Keys == owner.Keys + Units(b)
    ensures forall u :: u in o ==> o[u] == if Within(u, b) then b.addr else owner[u]
  {
    map u | u in owner.Keys + Units(b) :: if Within(u, b) then b.addr else owner[u]
  }

  // A live block becomes free, a free stretch becomes a live block, and the arena
  // grows by a live block: the partition stays one.
  lemma FreeBlock(base: nat, free: set<nat>, live: map<nat, nat>, owner: map<nat, nat>, arena: set<nat>, a: nat)
    requires PartitionOf(base, free, live, owner, arena) && a in live
    ensures PartitionOf(base, free + Units(Blk(a, live[a])), live - {a}, owner - Units(Blk(a, live[a])), arena)
  {
  }

  lemma UseBlock(base: nat, free: set<nat>, live: map<nat, nat>, owner: map<nat, nat>, arena: set<nat>, b: Blk)
    requires PartitionOf(base, free, live, owner, arena) && Units(b) <= free && b.size >= 1
    requires forall a :: a in live ==> live[a] >= 1
    ensures b.addr !in live
    ensures PartitionOf(base, free - Units(b), live[b.addr := b.size], Owned(owner, b), arena)
  {
    assert b.addr in live ==> Within(b.addr, Blk(b.addr, live[b.addr]));
    assert b.addr in live ==> b.addr in owner.Keys;
    assert b.addr in Units(b);
  }

  lemma NewBlock(base: nat, free: set<nat>, live: map<nat, nat>, owner: map<nat, nat>, arena: set<nat>, b: Blk)
    requires PartitionOf(base, free, live, owner, arena) && b.size >= 1
    requires base < b.addr && forall u :: u in arena ==> u < b.addr
    requires forall a :: a in live ==> live[a] >= 1
    ensures b.addr !in live
    ensures PartitionOf(base, free, live[b.addr := b.size], Owned(owner, b), arena + Units(b))
  {
    assert b.addr in live ==> Within(b.addr, Blk(b.addr, live[b.addr]));
    assert b.addr in live ==> b.addr in owner.Keys;
    assert b.addr !in arena;
  }

  // Memory, freep, the free blocks (base first), the sizes of the blocks handed out by
  // header address, the live block of each unit that has one, and the units obtained
  // from sbrk.
  datatype State = State(
    mem: map<nat, Header>, freep: nat,
    bs: seq<Blk>, live: map<nat, nat>, owner: map<nat, nat>, arena: set<nat>)

  // freep is 0 before the first call and else the address of a free block.
  ghost predicate Started(s: State) {
    s.freep != 0 && Linked(s.mem, s.bs) && exists f :: 0 <= f < |s.bs| && s.bs[f].addr == s.freep
  }

  ghost predicate ValidState(base: nat, s: State) {
    && 0 < base && Ordered(base, s.bs)
    && (Started(s) || (s.freep == 0 && s.bs == [Blk(base, 0)] && s.live == map[]))
    && (forall a :: a in s.live ==> a in s.mem && s.mem[a].size == s.live[a] && s.live[a] >= 1)
    && PartitionOf(base, FreeUnits(s.bs), s.live, s.owner, s.arena)
  }

  // A live block is off the free list, above base.
  lemma LiveOffList(base: nat, s: State, bp: nat)
    requires ValidState(base, s) && bp in s.live
    ensures Started(s) && base < bp && s.live[bp] >= 1 && bp in s.mem
    ensures FreeUnits(s.bs) !! Units(Blk(bp, s.live[bp]))
    ensures forall i :: 0 <= i < |s.bs| ==> s.bs[i].addr != bp
  {
    assert Within(bp, Blk(bp, s.live[bp]));
    assert bp in s.owner && bp in s.arena;
    forall i | 0 <= i < |s.bs|
      ensures s.bs[i].addr != bp
    {
      UnitsMember(s.bs, bp);
      assert i > 0 ==> s.bs[1..][i - 1] == s.bs[i];
    }
  }

  lemma ListedAbove(base: nat, bs: seq<Blk>, k: nat)
    requires Ordered(base, bs) && k < |bs|
    ensures bs[k].addr >= base
  {
    if k > 0 {
      ApartFar(bs, 0, k);
    }
  }

  // The block before a gap stays on the list, at the same address.
  lemma StillThere(bs: seq<Blk>, k: nat, b: Blk)
    requires k < |bs|
    ensures k < |Insert(bs, k, b)| && Insert(bs, k, b)[k].addr == bs[k].addr
  {
  }

  ghost function Some(live: map<nat, nat>): (a: nat)
    requires live != map[]
    ensures a in live
  {
    var a :| a in live;
    a
  }

  // The sizes of the live blocks, headers included.
  ghost function LiveTotal(live: map<nat, nat>): nat
    decreases |live|
  {
    if live == map[] then 0 else live[Some(live)] + LiveTotal(live - {Some(live)})
  }

  lemma OwnedUnits(live: map<nat, nat>, owner: map<nat, nat>, a: nat)
    requires OwnedBy(live, owner) && a in live
    ensures Units(Blk(a, live[a])) <= owner.Keys
    ensures OwnedBy(live - {a}, owner - Units(Blk(a, live[a])))
  {
    var us := Units(Blk(a, live[a]));
    forall u: nat
      ensures u in us <==> u in owner && owner[u] == a
    {
      assert u in us <==> Within(u, Blk(a, live[a]));
    }
  }

  lemma Without(owner: map<nat, nat>, us: set<nat>)
    requires us <= owner.Keys
    ensures |owner.Keys| == |(owner - us).Keys| + |us|
  {
    assert (owner - us).Keys == owner.Keys - us;
  }

  lemma {:induction false} LiveCount(live: map<nat, nat>, owner: map<nat, nat>)
    requires OwnedBy(live, owner)
    ensures |owner.Keys| == LiveTotal(live)
    decreases |live|
  {
    if live == map[] {
      assert owner.Keys == {};
    } else {
      var a := Some(live);
      var us := Units(Blk(a, live[a]));
      OwnedUnits(live, owner, a);
      UnitsCount(a, live[a]);
      hide OwnedBy, Units;
      Without(owner, us);
      LiveCount(live - {a}, owner - us);
    }
  }

  lemma PartitionCount(base: nat, free: set<nat>, live: map<nat, nat>, owner: map<nat, nat>, arena: set<nat>)
    requires PartitionOf(base, free, live, owner, arena)
    ensures |arena| == |free| + |owner.Keys|
  {
    var used := owner.Keys;
    assert arena == free + used && free !! used;
    hide PartitionOf;
  }

  // The sizes of the free blocks and of the live ones add up to the units obtained from
  // sbrk.
  lemma Conservation(base: nat, s: State)
    requires ValidState(base, s)
    ensures Total(s.bs) + LiveTotal(s.live) == |s.arena|
  {
    assert OwnedBy(s.live, s.owner);
    hide PartitionOf, OwnedBy, Apart, Units, FreeUnits, Total, LiveTotal, Started;
    PartitionCount(base, FreeUnits(s.bs), s.live, s.owner, s.arena);
    FreeTotal(s.bs);
    LiveCount(s.live, s.owner);
  }

  // ---- what each call leaves --------------------------------------------

  // The live block at bp, which lies in the gap after bs[k], is freed.
  ghost function Freed(s: State, bp: nat, k: nat): State
    requires bp in s.live && k < |s.bs|
    requires var p := s.bs[k].addr; p in s.mem && bp in s.mem && s.mem[p].ptr in s.mem && p != bp
  {
    var b := Blk(bp, s.live[bp]);
    State(Spliced(s.mem, s.bs[k].addr, bp), s.bs[k].addr,
          Insert(s.bs, k, b), s.live - {bp}, s.owner - Units(b), s.arena)
  }

  lemma FreedValid(base: nat, s: State, bp: nat) returns (k: nat)
    requires ValidState(base, s) && bp in s.live
    ensures Started(s) && InGap(s.bs, k, Blk(bp, s.live[bp]))
    ensures var p := s.bs[k].addr; p in s.mem && bp in s.mem && s.mem[p].ptr in s.mem && p != bp
    ensures ValidState(base, Freed(s, bp, k)) && Started(Freed(s, bp, k))
  {
    var b := Blk(bp, s.live[bp]);
    LiveOffList(base, s, bp);
    k := FindGap(base, s.bs, b);
    SplicedLinked(base, s.mem, s.bs, k, b);
    InsertOrdered(base, s.bs, k, b);
    InsertUnits(s.bs, k, b);
    StillThere(s.bs, k, b);
    ListedAbove(base, s.bs, k);
    FreeBlock(base, FreeUnits(s.bs), s.live, s.owner, s.arena, bp);
    var t := Freed(s, bp, k);
    forall a | a in t.live
      ensures a in t.mem && t.mem[a] == s.mem[a]
    {
      LiveOffList(base, s, a);
      LinkedAt(s.mem, s.bs, k);
    }
    hide Ordered, Insert, InGap, Linked, Spliced, FreeUnits, PartitionOf, Units, Apart;
  }

  // New core becomes a block, as if it had been handed out.
  ghost function Adopted(s: State, hp: nat, nu: nat): State {
    var b := Blk(hp, nu);
    s.(mem := s.mem[hp := Header(if hp in s.mem then s.mem[hp].ptr else 0, nu)],
       live := s.live[hp := nu], owner := Owned(s.owner, b), arena := s.arena + Units(b))
  }

  lemma AdoptedValid(base: nat, s: State, hp: nat, nu: nat)
    requires ValidState(base, s) && Started(s) && nu >= 1
    requires base < hp && forall u :: u in s.arena ==> u < hp
    ensures hp !in s.live && s.live[hp := nu] - {hp} == s.live
    ensures ValidState(base, Adopted(s, hp, nu)) && Started(Adopted(s, hp, nu))
  {
    NewBlock(base, FreeUnits(s.bs), s.live, s.owner, s.arena, Blk(hp, nu));
    assert FreeUnits(s.bs) <= s.arena;
    NotListed(base, s.bs, hp);
    hide Ordered, FreeUnits, PartitionOf, Owned, Units, Path;
    PathFrame(s.mem, Adopted(s, hp, nu).mem, s.bs, s.bs[0].addr);
  }

  // No free block starts at an address above base and above all free units.
  lemma NotListed(base: nat, bs: seq<Blk>, hp: nat)
    requires Ordered(base, bs) && base < hp && forall u :: u in FreeUnits(bs) ==> u < hp
    ensures forall i :: 0 <= i < |bs| ==> bs[i].addr != hp
  {
    forall i | 1 <= i < |bs|
      ensures bs[i].addr != hp
    {
      assert bs[1..][i - 1] == bs[i];
      UnitsMember(bs, bs[i].addr);
      assert Within(bs[i].addr, bs[i]);
    }
  }

  // n units are cut off bs[j] and handed out.
  ghost function CutOff(s: State, j: nat, n: nat): State
    requires 1 <= j < |s.bs| && n <= s.bs[j].size
    requires s.bs[j - 1].addr in s.mem && s.bs[j].addr in s.mem && s.mem[s.bs[j].addr].size >= n
  {
    var t := Taken(s.bs, j, n);
    State(Cut(s.mem, s.bs[j - 1].addr, s.bs[j].addr, n), s.bs[j - 1].addr,
          Take(s.bs, j, n), s.live[t.addr := n], Owned(s.owner, t), s.arena)
  }

  // The headers of live blocks are not touched.
  lemma CutBesideLive(base: nat, s: State, j: nat, n: nat, a: nat)
    requires ValidState(base, s) && Started(s) && 1 <= j < |s.bs| && 1 <= n <= s.bs[j].size && a in s.live
    requires s.bs[j - 1].addr in s.mem && s.bs[j].addr in s.mem && s.mem[s.bs[j].addr].size == s.bs[j].size
    requires Units(Taken(s.bs, j, n)) <= FreeUnits(s.bs)
    ensures a in s.mem && a != Taken(s.bs, j, n).addr
    ensures var m := Cut(s.mem, s.bs[j - 1].addr, s.bs[j].addr, n); a in m && m[a] == s.mem[a]
  {
    LiveOffList(base, s, a);
    hide ValidState, Started, FreeUnits;
    var t := Taken(s.bs, j, n);
    assert t.addr in Units(t);
    assert a in Units(Blk(a, s.live[a]));
  }

  lemma CutOffParts(base: nat, s: State, j: nat, n: nat)
    requires ValidState(base, s) && Started(s) && 1 <= j < |s.bs| && 1 <= n <= s.bs[j].size
    ensures s.bs[j - 1].addr in s.mem && s.bs[j].addr in s.mem && s.mem[s.bs[j].addr].size == s.bs[j].size
    ensures Taken(s.bs, j, n).addr !in s.live && Units(Taken(s.bs, j, n)) <= FreeUnits(s.bs)
    ensures var r := CutOff(s, j, n);
      && Ordered(base, r.bs) && Linked(r.mem, r.bs) && PartitionOf(base, FreeUnits(r.bs), r.live, r.owner, r.arena)
      && j - 1 < |r.bs| && r.bs[j - 1].addr == r.freep >= base
  {
    LinkedAt(s.mem, s.bs, j);
    CutLinked(base, s.mem, s.bs, j, n);
    TakeOrdered(base, s.bs, j, n);
    TakeUnits(s.bs, j, n);
    ListedAbove(base, s.bs, j - 1);
    hide PartitionOf, Linked, Ordered;
    UseBlock(base, FreeUnits(s.bs), s.live, s.owner, s.arena, Taken(s.bs, j, n));
  }

  lemma CutOffValid(base: nat, s: State, j: nat, n: nat)
    requires ValidState(base, s) && Started(s) && 1 <= j < |s.bs| && 1 <= n <= s.bs[j].size
    ensures s.bs[j - 1].addr in s.mem && s.bs[j].addr in s.mem && s.mem[s.bs[j].addr].size == s.bs[j].size
    ensures Taken(s.bs, j, n).addr !in s.live && Units(Taken(s.bs, j, n)) <= FreeUnits(s.bs)
    ensures ValidState(base, CutOff(s, j, n)) && Started(CutOff(s, j, n))
  {
    hide Ordered, Take, Linked, FreeUnits, PartitionOf, Owned, Units;
    CutOffParts(base, s, j, n);
    var r, t := CutOff(s, j, n), Taken(s.bs, j, n);
    assert t.addr in r.mem && r.mem[t.addr].size == n;
    hide Cut;
    forall a | a in s.live
      ensures a != t.addr && a in r.mem && r.mem[a] == s.mem[a]
    {
      CutBesideLive(base, s, j, n, a);
    }
  }

  // The first call sets up base.
  lemma SetUp(base: nat, s: State)
    requires ValidState(base, s) && s.freep == 0
    ensures var t := s.(mem := s.mem[base := Header(base, 0)], freep := base);
      ValidState(base, t) && Started(t)
  {
    var t := s.(mem := s.mem[base := Header(base, 0)], freep := base);
    assert t.bs[1..] == [] && t.bs[0].addr == base;
    assert Linked(t.mem, t.bs);
  }

  // ---- the allocator ----------------------------------------------------

  // Strictly between blocks f and j on the cycle, going forward from f.
  predicate Between(f: nat, i: nat, j: nat) {
    if f < j then f < i < j else i > f || i < j
  }

  // bs[j] is the first block after bs[f] on the cycle that holds n units.
  ghost predicate NextFit(bs: seq<Blk>, f: nat, j: nat, n: nat) {
    && f < |bs| && j < |bs| && bs[j].size >= n
    && forall i :: 0 <= i < |bs| && Between(f, i, j) ==> bs[i].size < n
  }

  ghost predicate SomeFit(bs: seq<Blk>, n: nat) {
    exists i :: 0 <= i < |bs| && bs[i].size >= n
  }

  // Where malloc starts to search mid, the free list bs as it is then: after the block at
  // freep, which is start, or after the block f that core b from sbrk was put behind.
  ghost predicate StartsAt(bs: seq<Blk>, start: nat, mid: seq<Blk>, f: nat) {
    mid == bs && f < |bs| && bs[f].addr == start
  }

  ghost predicate GrownAt(bs: seq<Blk>, b: Blk, mid: seq<Blk>, f: nat) {
    InGap(bs, f, b) && mid == Insert(bs, f, b)
  }

  // The first block from there on is the only one that next fit can hand out.
  lemma NextFitUnique(bs: seq<Blk>, f: nat, i: nat, j: nat, n: nat)
    requires NextFit(bs, f, i, n) && NextFit(bs, f, j, n)
    ensures i == j
  {
    assert i != j ==> Between(f, i, j) || Between(f, j, i);
  }

  lemma GrownFits(bs: seq<Blk>, k: nat, b: Blk, n: nat)
    requires InGap(bs, k, b) && b.size >= n
    ensures SomeFit(Insert(bs, k, b), n)
  {
    var r, c := Insert(bs, k, b), Merged(bs, k, b);
    assert r[k + |c| - 1] == c[|c| - 1];
  }

  function NextIndex(bs: seq<Blk>, i: nat): nat {
    if i + 1 < |bs| then i + 1 else 0
  }

  // What malloc keeps from block to block: p = bs[i] follows prevp, and no block
  // passed since freep = bs[f] holds n units.
  ghost predicate Scanning(s: State, prevp: nat, p: nat, f: nat, i: nat, n: nat) {
    && f < |s.bs| && s.freep == s.bs[f].addr && i < |s.bs| && p == s.bs[i].addr
    && prevp == s.bs[if i > 0 then i - 1 else |s.bs| - 1].addr
    && p in s.mem && s.mem[p] == Header(s.bs[NextIndex(s.bs, i)].addr, s.bs[i].size)
    && forall x :: 0 <= x < |s.bs| && Between(f, x, i) ==> s.bs[x].size < n
  }

  lemma AtFreep(s: State) returns (f: nat)
    requires Started(s)
    ensures f < |s.bs| && s.bs[f].addr == s.freep && StartsAt(s.bs, s.freep, s.bs, f)
  {
    f :| f < |s.bs| && s.bs[f].addr == s.freep;
  }

  lemma StartScan(base: nat, s: State, f: nat, n: nat)
    requires ValidState(base, s) && Started(s) && f < |s.bs| && s.freep == s.bs[f].addr
    ensures s.freep in s.mem && Scanning(s, s.freep, s.mem[s.freep].ptr, f, NextIndex(s.bs, f), n)
    ensures s.bs[0].size == 0
  {
    LinkedAt(s.mem, s.bs, f);
    LinkedAt(s.mem, s.bs, NextIndex(s.bs, f));
  }

  lemma Advance(s: State, prevp: nat, p: nat, f: nat, i: nat, n: nat)
    requires Started(s) && Scanning(s, prevp, p, f, i, n)
    requires s.bs[i].size < n && p != s.freep
    ensures i != f && Scanning(s, p, s.mem[p].ptr, f, NextIndex(s.bs, i), n)
  {
    hide Linked;
    LinkedAt(s.mem, s.bs, NextIndex(s.bs, i));
  }

  lemma FitNotBase(base: nat, s: State, i: nat, n: nat)
    requires ValidState(base, s) && i < |s.bs| && s.bs[i].size >= n >= 1
    ensures i >= 1
  {
  }

  // Back at freep with nothing found, no block holds n units.
  lemma ScannedAll(base: nat, s: State, prevp: nat, p: nat, f: nat, i: nat, n: nat)
    requires ValidState(base, s) && Scanning(s, prevp, p, f, i, n) && s.bs[i].size < n && p == s.freep
    ensures !SomeFit(s.bs, n)
  {
    Increasing(s.bs);
    assert i == f;
    forall x | 0 <= x < |s.bs|
      ensures s.bs[x].size < n
    {
      assert x == f || Between(f, x, i);
    }
  }

  class Heap {
    const base: nat
    var mem: map<nat, Header>  // the headers stored in memory
    var freep: nat
    ghost var bs: seq<Blk>
    ghost var live: map<nat, nat>
    ghost var owner: map<nat, nat>
    ghost var arena: set<nat>

    ghost function S(): State
      reads this
    {
      State(mem, freep, bs, live, owner, arena)
    }

    ghost predicate Valid()
      reads this
    {
      ValidState(base, S())
    }

    constructor (base: nat)
      requires base > 0
      ensures Valid() && this.base == base && S() == State(map[], 0, [Blk(base, 0)], map[], map[], {})
    {
      this.base := base;
      mem, freep := map[], 0;
      bs, live, owner, arena := [Blk(base, 0)], map[], map[], {};
    }

    // The search of free: p such that the block at bp goes between p and its
    // successor. It never takes more than one trip round the cycle.
    method FindPlace(bp: nat, ghost k: nat, ghost b: Blk) returns (p: nat, ghost steps: nat)
      requires Valid() && Started(S()) && b.addr == bp && InGap(bs, k, b)
      ensures p == bs[k].addr && steps < |bs|
    {
      ghost var f: nat :| f < |bs| && bs[f].addr == freep;
      ghost var i := f;
      GapSides(base, bs, k, b);
      assert Linked(mem, bs);
      hide ValidState, Ordered, Linked, InGap;
      p, steps := freep, 0;
      LinkedAt(mem, bs, i);
      while !(bp > p && bp < mem[p].ptr)
        invariant 0 <= i < |bs| && p == bs[i].addr && p in mem && mem[p].ptr == After(bs, i)
        invariant steps + (if i <= k then k - i else |bs| - i + k) < |bs|
        decreases if i <= k then k - i else |bs| - i + k
      {
        if p >= mem[p].ptr && (bp > p || bp < mem[p].ptr) {
          break;
        }
        p := mem[p].ptr;
        i := if i + 1 < |bs| then i + 1 else 0;
        steps := steps + 1;
        LinkedAt(mem, bs, i);
      }
    }

    method Free(ap: nat) returns (ghost k: nat)
      requires Valid() && ap >= 1 && ap - 1 in live
      modifies this
      ensures Valid() && Started(S()) && InGap(old(bs), k, Blk(ap - 1, old(live)[ap - 1]))
      ensures var p := old(bs)[k].addr;
        && p in old(mem) && ap - 1 in old(mem) && old(mem)[p].ptr in old(mem) && p != ap - 1
        && S() == Freed(old(S()), ap - 1, k)
    {
      var bp := ap - 1;
      k := FreedValid(base, S(), bp);
      hide ValidState, Started, InGap;
      ghost var s, b := S(), Blk(bp, live[bp]);
      var p, steps := FindPlace(bp, k, b);
      Splice(p, bp);
      ghost var t := Freed(s, bp, k);
      bs, live, owner := t.bs, t.live, t.owner;
    }

    // The assignments of free, for a block that goes between p and its successor.
    method Splice(p: nat, bp: nat)
      requires p in mem && bp in mem && mem[p].ptr in mem && p != bp
      modifies this`mem, this`freep
      ensures mem == Spliced(old(mem), p, bp) && freep == p
    {
      if bp + mem[bp].size == mem[p].ptr {
        mem := mem[bp := Header(mem[bp].ptr, mem[bp].size + mem[mem[p].ptr].size)];
        mem := mem[bp := Header(mem[mem[p].ptr].ptr, mem[bp].size)];
      } else {
        mem := mem[bp := Header(mem[p].ptr, mem[bp].size)];
      }
      if p + mem[p].size == bp {
        mem := mem[p := Header(mem[p].ptr, mem[p].size + mem[bp].size)];
        mem := mem[p := Header(mem[bp].ptr, mem[p].size)];
      } else {
        mem := mem[p := Header(bp, mem[p].size)];
      }
      freep := p;
    }

    // morecore(nunits), when sbrk returns core; 0 when it fails.
    method Morecore(nunits: nat, core: Core) returns (p: nat, ghost k: nat)
      requires Valid() && Started(S())
      requires core.Core? ==> base < core.addr && forall u :: u in arena ==> u < core.addr
      modifies this
      ensures Valid() && Started(S()) && live == old(live)
      ensures core.NoCore? ==> p == 0 && S() == old(S())
      ensures core.Core? ==>
                var b := Blk(core.addr, CoreUnits(nunits));
                && p == freep != 0 && k < |bs| && freep == bs[k].addr
                && GrownAt(old(bs), b, bs, k) && SomeFit(bs, nunits) && arena == old(arena) + Units(b)
    {
      if core.NoCore? {
        return 0, 0;
      }
      var hp, nu := core.addr, CoreUnits(nunits);
      AdoptedValid(base, S(), hp, nu);
      ghost var bs0, b := bs, Blk(hp, nu);
      ghost var t := Adopted(S(), hp, nu);
      mem := mem[hp := Header(if hp in mem then mem[hp].ptr else 0, nu)];
      live, owner, arena := t.live, t.owner, t.arena;
      hide ValidState;
      k := Free(hp + 1);
      p := freep;
      GrownFits(bs0, k, b, nunits);
      StillThere(bs0, k, b);
    }

    // Cuts n units off p = bs[j].
    method TakeFrom(prevp: nat, p: nat, ghost j: nat, n: nat) returns (r: nat)
      requires Valid() && Started(S()) && 1 <= j < |bs| && 1 <= n <= bs[j].size
      requires p == bs[j].addr && prevp == bs[j - 1].addr
      modifies this
      ensures Valid() && Started(S())
      ensures bs == Take(old(bs), j, n) && freep == prevp && arena == old(arena)
      ensures r == Taken(old(bs), j, n).addr + 1 && r - 1 !in old(live) && live == old(live)[r - 1 := n]
    {
      hide ValidState, Started, Take, Owned, Linked, Ordered;
      CutOffValid(base, S(), j, n);
      ghost var t, m := CutOff(S(), j, n), mem;
      var q := p;
      if mem[p].size == n {
        mem := mem[prevp := Header(mem[p].ptr, mem[prevp].size)];
      } else {
        mem := mem[p := Header(mem[p].ptr, mem[p].size - n)];
        q := p + mem[p].size;
        mem := mem[q := Header(if q in mem then mem[q].ptr else 0, n)];
      }
      r := q + 1;
      assert mem == Cut(m, prevp, p, n);
      freep, bs, live, owner := prevp, t.bs, t.live, t.owner;
      assert S() == t;
    }

    // core is what sbrk will return if it is called; it cannot be core of the size that
    // morecore uses if sbrk is asked for another. The result is 0 or the address after a
    // header; mid is the free list the block is cut from, and f where the search begins.
    method Malloc(nbytes: nat, core: Core) returns (r: nat, ghost mid: seq<Blk>, ghost f: nat)
      requires Valid() && nbytes < UINT
      requires core.Core? ==> SbrkArgument(CoreUnits(UnitsFor(nbytes))) == CoreUnits(UnitsFor(nbytes)) * HEADER
      requires core.Core? ==> base < core.addr && forall u :: u in arena ==> u < core.addr
      modifies this
      ensures Valid() && Started(S())
      // sbrk is called only when no free block is large enough
      ensures SomeFit(old(bs), UnitsFor(nbytes)) || core.NoCore? ==>
                StartsAt(old(bs), if old(freep) == 0 then base else old(freep), mid, f) && arena == old(arena)
      ensures !SomeFit(old(bs), UnitsFor(nbytes)) && core.Core? ==>
                var b := Blk(core.addr, CoreUnits(UnitsFor(nbytes)));
                GrownAt(old(bs), b, mid, f) && arena == old(arena) + Units(b)
      ensures r == 0 <==> !SomeFit(old(bs), UnitsFor(nbytes)) && core.NoCore?
      ensures r == 0 ==> bs == old(bs) && live == old(live)
      ensures r != 0 ==> HandedOutOf(mid, bs, freep, r, f, UnitsFor(nbytes))
      ensures r != 0 ==> r - 1 !in old(live) && live == old(live)[r - 1 := UnitsFor(nbytes)]
    {
      var nunits := UnitsFor(nbytes);
      if freep == 0 {
        SetUp(base, S());
        mem := mem[base := Header(base, 0)];
        freep := base;
      }
      hide ValidState, Started, GrownAt, StartsAt, SomeFit, HandedOutOf;
      r, mid, f := Search(nunits, core);
    }

    // malloc's loop ends: bs[i] holds nunits.
    method HandOut(prevp: nat, p: nat, ghost f: nat, ghost i: nat, nunits: nat) returns (r: nat)
      requires Valid() && Started(S()) && nunits >= 1
      requires Scanning(S(), prevp, p, f, i, nunits) && mem[p].size >= nunits
      modifies this
      ensures Valid() && Started(S()) && arena == old(arena) && r != 0
      ensures SomeFit(old(bs), nunits) && HandedOutOf(old(bs), bs, freep, r, f, nunits)
      ensures r - 1 !in old(live) && live == old(live)[r - 1 := nunits]
    {
      FitNotBase(base, S(), i, nunits);
      ghost var mid := bs;
      r := TakeFrom(prevp, p, i, nunits);
      assert HandedOut(mid, bs, freep, r, f, i, nunits);
    }

    // malloc's loop is back at freep: it asks for core, and goes on after that.
    method Refill(nunits: nat, core: Core) returns (p: nat, ghost k: nat)
      requires Valid() && Started(S())
      requires core.Core? ==> base < core.addr && forall u :: u in arena ==> u < core.addr
      modifies this
      ensures Valid() && Started(S()) && live == old(live)
      ensures core.NoCore? ==> p == 0 && S() == old(S())
      ensures core.Core? ==>
                var b := Blk(core.addr, CoreUnits(nunits));
                && p == freep != 0 && p in mem && GrownAt(old(bs), b, bs, k) && SomeFit(bs, nunits)
                && Scanning(S(), p, mem[p].ptr, k, NextIndex(bs, k), nunits) && arena == old(arena) + Units(b)
    {
      p, k := Morecore(nunits, core);
      if p != 0 {
        StartScan(base, S(), k, nunits);
      }
    }

    // malloc's loop, from freep.
    method Search(nunits: nat, core: Core) returns (r: nat, ghost mid: seq<Blk>, ghost f: nat)
      requires Valid() && Started(S()) && nunits >= 1
      requires core.Core? ==> base < core.addr && forall u :: u in arena ==> u < core.addr
      modifies this
      ensures Valid() && Started(S())
      ensures SomeFit(old(bs), nunits) || core.NoCore? ==> StartsAt(old(bs), old(freep), mid, f) && arena == old(arena)
      ensures !SomeFit(old(bs), nunits) && core.Core? ==>
                var b := Blk(core.addr, CoreUnits(nunits));
                GrownAt(old(bs), b, mid, f) && arena == old(arena) + Units(b)
      ensures r == 0 <==> !SomeFit(old(bs), nunits) && core.NoCore?
      ensures r == 0 ==> bs == old(bs) && live == old(live)
      ensures r != 0 ==> HandedOutOf(mid, bs, freep, r, f, nunits)
      ensures r != 0 ==> r - 1 !in old(live) && live == old(live)[r - 1 := nunits]
    {
      hide ValidState, Started, GrownAt, StartsAt, SomeFit, Between, HandedOutOf;
      ghost var bs0, live0, arena0, start := bs, live, arena, freep;
      f := AtFreep(S());
      ghost var i: nat := NextIndex(bs, f);
      StartScan(base, S(), f, nunits);
      var prevp := freep;
      var p := mem[prevp].ptr;
      ghost var asked := false;
      ghost var b := Blk(if core.Core? then core.addr else 0, CoreUnits(nunits));
      while true
        invariant Valid() && Started(S()) && live == live0
        invariant Scanning(S(), prevp, p, f, i, nunits)
        invariant !asked ==> bs == bs0 && StartsAt(bs0, start, bs, f) && arena == arena0
        invariant asked ==> core.Core? && !SomeFit(bs0, nunits) && SomeFit(bs, nunits)
        invariant asked ==> GrownAt(bs0, b, bs, f) && arena == arena0 + Units(b)
        decreases if asked then 0 else 1, if i <= f then f - i else |bs| - i + f
      {
        if mem[p].size >= nunits {
          mid := bs;
          r := HandOut(prevp, p, f, i, nunits);
          return;
        }
        if p == freep {
          ghost var k;
          ScannedAll(base, S(), prevp, p, f, i, nunits);
          p, k := Refill(nunits, core);
          if p == 0 {
            return 0, bs, f;
          }
          f, i, asked := k, NextIndex(bs, k), true;
        } else {
          Advance(S(), prevp, p, f, i, nunits);
          i := NextIndex(bs, i);
        }
        prevp := p;
        p := mem[p].ptr;
      }
    }
  }

  // n units of the next block that holds them are handed out at r, header first: the last
  // ones of the block.
  ghost predicate HandedOut(mid: seq<Blk>, bs: seq<Blk>, freep: nat, r: nat, f: nat, j: nat, n: nat) {
    && 1 <= j && NextFit(mid, f, j, n)
    && bs == Take(mid, j, n) && freep == mid[j - 1].addr && r == mid[j].addr + mid[j].size - n + 1
  }

  ghost predicate HandedOutOf(mid: seq<Blk>, bs: seq<Blk>, freep: nat, r: nat, f: nat, n: nat) {
    exists j: nat :: HandedOut(mid, bs, freep, r, f, j, n)
  }
}
