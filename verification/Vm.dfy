/** vm.c and kalloc.c: frames are taken, mapped, copied and given back, in place. */
module Vm {
  import opened Paging
  import opened PagingSteps
  import opened Spaces
  import opened VmSteps
  import opened Demand

  class PhysicalMemory {
    const first: nat
    var frames: seq<seq<Entry>>
    var freelist: seq<nat>
    ghost var owner: map<nat, Role>

    ghost function S(): Memory
      reads this
    {
      Memory(first, frames, freelist, owner)
    }

    // A memory that nobody uses, with its managed frames on the free list.
    constructor (first: nat, frames: seq<seq<Entry>>, freelist: seq<nat>)
      ensures S() == Memory(first, frames, freelist, map[])
    {
      this.first, this.frames, this.freelist, this.owner := first, frames, freelist, map[];
    }

    method Kalloc() returns (ok: bool, f: nat)
      modifies `freelist, `owner
      ensures ok <==> old(freelist) != []
      ensures ok ==> f == old(freelist)[0] && S() == Taken(old(S()))
      ensures !ok ==> S() == old(S())
    {
      if freelist == [] {
        return false, 0;
      }
      f := freelist[0];
      freelist := freelist[1..];
      owner := owner[f := Other];
      return true, f;
    }

    // kfree panics for a frame that is not managed.
    method Kfree(f: nat)
      requires first <= f < |frames| && Is(S(), f, Other)
      modifies `frames, `freelist, `owner
      ensures S() == Given(old(S()), f)
      ensures freelist == [f] + old(freelist) && |frames| == |old(frames)|
      ensures |frames[f]| == ENTRIES && forall j :: 0 <= j < ENTRIES ==> frames[f][j] == Entry(0x01010, 0x101)
    {
      frames := frames[f := Junk()];
      freelist := [f] + freelist;
      owner := map g | g in owner && g != f :: owner[g];
    }

    // The table that holds the entry of page vpn, if it is there or can be made.
    method Walkpgdir(d: nat, vpn: nat, alloc: bool) returns (ok: bool, k: nat)
      requires Inv(S()) && Is(S(), d, Directory) && vpn < PAGES && d < |frames|
      modifies `frames, `freelist, `owner
      ensures ok <==> Present(old(frames)[d][vpn / ENTRIES]) || (alloc && old(freelist) != [])
      ensures ok ==> S() == Prepared(old(S()), d, vpn)
      ensures ok ==> d < |frames| && vpn / ENTRIES < |frames[d]| && k == TableOf(S(), d, vpn)
      ensures !ok || !alloc ==> S() == old(S())
    {
      if frames[d][vpn / ENTRIES].flags & PTE_P != 0 {
        return true, frames[d][vpn / ENTRIES].frame;
      }
      if !alloc {
        return false, 0;
      }
      if freelist != [] {
        TakenInv(S());
      }
      ok, k := Kalloc();
      if !ok {
        return false, 0;
      }
      frames := frames[k := Zeros()];
      frames := frames[d := frames[d][vpn / ENTRIES := Entry(k, PTE_P | PTE_W | PTE_U)]];
      owner := owner[k := Table(d, vpn / ENTRIES)];
    }

    // One turn of the loop of mappages. A page that is there already would be a panic.
    method MapPage(d: nat, vpn: nat, e: Entry) returns (ok: bool)
      requires Inv(S()) && Is(S(), d, Directory) && vpn < PAGES && d < |frames| && Present(e)
      requires Lookup(S(), d, vpn) == None && (vpn < USERPAGES ==> Is(S(), e.frame, Other))
      modifies `frames, `freelist, `owner
      ensures ok <==> Present(old(frames)[d][vpn / ENTRIES]) || old(freelist) != []
      ensures ok ==>
        CanAdd(Prepared(old(S()), d, vpn), d, vpn, e) && S() == AddPage(Prepared(old(S()), d, vpn), d, vpn, e)
      ensures ok ==> Took(old(S()), S(), d, vpn, 0)
      ensures !ok ==> S() == old(S())
    {
      hide Inv, Lookup, Took;
      ghost var m := S();
      InvShape(m, d);
      if Present(frames[d][vpn / ENTRIES]) || freelist != [] {
        PreparedOk(m, d, vpn, e);
        TableAt(Prepared(m, d, vpn), d, vpn);
        MapTook(m, d, vpn, e);
      }
      var k;
      ok, k := Walkpgdir(d, vpn, true);
      if ok {
        frames := frames[k := frames[k][vpn % ENTRIES := e]];
        if vpn < USERPAGES {
          owner := owner[e.frame := Page(d, vpn)];
        }
      }
    }

    // Pages are unmapped and their frames freed, from newsz up to oldsz.
    method Deallocuvm(d: nat, oldsz: nat, newsz: nat) returns (r: nat)
      requires Inv(S()) && Is(S(), d, Directory) && oldsz <= KERNBASE && first > 0
      modifies `frames, `freelist, `owner
      ensures newsz >= oldsz ==> r == oldsz && S() == old(S())
      ensures newsz < oldsz ==> r == newsz && Changed(old(S()), S(), d, {}, UpPage(newsz), UpPage(oldsz))
      ensures newsz < oldsz ==> Shape(S()) && d < |frames| && Unmapped(S(), d, UpPage(newsz), UpPage(oldsz))
    {
      hide Inv, Shape, Lookup, Within, PagesSame, Freed;
      if newsz >= oldsz {
        return oldsz;
      }
      ghost var s, lo, hi := S(), UpPage(newsz), UpPage(oldsz);
      InvShape(s, d);
      ChangedNothing(s, d);
      ChangedWider(s, s, d, {}, 0, 0, lo, hi);
      var a := Up(newsz);
      while a < oldsz
        invariant a % PGSIZE == 0 && lo <= a / PGSIZE && Changed(s, S(), d, {}, lo, hi) && Shape(S()) && d < |frames|
        invariant Unmapped(S(), d, lo, if a / PGSIZE < hi then a / PGSIZE else hi)
        decreases oldsz - a
      {
        a := DeallocPage(d, a, s, lo, hi);
      }
      return newsz;
    }

    // One turn of its loop.
    method DeallocPage(d: nat, at: nat, ghost s: Memory, ghost lo: nat, ghost hi: nat) returns (a: nat)
      requires at % PGSIZE == 0 && lo <= at / PGSIZE < hi <= USERPAGES && first > 0
      requires Changed(s, S(), d, {}, lo, hi) && Shape(S()) && d < |frames| && Unmapped(S(), d, lo, at / PGSIZE)
      modifies `frames, `freelist, `owner
      ensures a % PGSIZE == 0 && at < a
      ensures Changed(s, S(), d, {}, lo, hi) && Shape(S()) && d < |frames|
      ensures Unmapped(S(), d, lo, if a / PGSIZE < hi then a / PGSIZE else hi)
    {
      hide Inv, Shape, Within, PagesSame, Freed, Lookup, Unmapped;
      a := at;
      ghost var m, v := S(), at / PGSIZE;
      ChangedShape(s, m, d, {}, lo, hi);
      LookupHere(m, d, v);
      var ok, k := Walkpgdir(d, a / PGSIZE, false);
      if !ok {
        SkipTable(m, d, v, lo);
        a := (a / PGSIZE / ENTRIES + 1) * ENTRIES * PGSIZE - PGSIZE;
      } else if frames[k][a / PGSIZE % ENTRIES].flags & PTE_P != 0 {
        FreedStep(s, m, d, v, lo, hi);
        FreedIs(m, d, v);
        var f := frames[k][a / PGSIZE % ENTRIES].frame;
        assert f != 0;
        owner := owner[f := Other];
        Kfree(f);
        frames := frames[k := frames[k][a / PGSIZE % ENTRIES := Entry(0, 0)]];
      } else {
        UnmappedOne(m, d, lo, v);
      }
      a := a + PGSIZE;
      UnmappedLess(S(), d, lo, a / PGSIZE, hi);
    }

    // Fresh pages, zeroed, from oldsz up to newsz; ok is false, and the translation is as
    // it was, exactly if there are too few free frames for them and their tables. Nothing
    // may be mapped in between before.
    method Allocuvm(d: nat, oldsz: nat, newsz: nat) returns (ok: bool, r: nat)
      requires Inv(S()) && Is(S(), d, Directory) && first > 0 && Shape(S()) && d < |frames|
      requires newsz < KERNBASE ==> Unmapped(S(), d, UpPage(oldsz), UpPage(newsz))
      modifies `frames, `freelist, `owner
      ensures newsz >= KERNBASE ==> !ok && r == 0 && S() == old(S())
      ensures newsz < oldsz && newsz < KERNBASE ==> ok && r == oldsz && S() == old(S())
      ensures Shape(S()) && d < |frames|
      ensures oldsz <= newsz < KERNBASE && ok ==>
        r == newsz && Changed(old(S()), S(), d, {}, UpPage(oldsz), UpPage(newsz))
        && ZeroPages(S(), d, UpPage(oldsz), UpPage(newsz))
      ensures !ok ==> r == 0 && Changed(old(S()), S(), d, {}, 0, 0)
      ensures oldsz <= newsz < KERNBASE ==> (ok <==> old(Spare(S(), d, UpPage(oldsz), UpPage(newsz), 1)) >= 0)
    {
      hide Inv, Shape, Within, PagesSame, Lookup, Unmapped, ZeroPages, Spare;
      ghost var s, lo, hi := S(), UpPage(oldsz), UpPage(newsz);
      ChangedNothing(s, d);
      if newsz >= KERNBASE {
        return false, 0;
      }
      if newsz < oldsz {
        return true, oldsz;
      }
      ChangedWider(s, s, d, {}, 0, 0, lo, hi);
      NoZeroPages(s, d, lo);
      var a := Up(oldsz);
      while a < newsz
        invariant a % PGSIZE == 0 && lo <= a / PGSIZE && (a / PGSIZE <= hi || a / PGSIZE == lo)
        invariant Changed(s, S(), d, {}, lo, hi) && Shape(S()) && d < |frames|
        invariant ZeroPages(S(), d, lo, a / PGSIZE) && Unmapped(S(), d, a / PGSIZE, hi)
        invariant Spare(S(), d, a / PGSIZE, hi, 1) == Spare(s, d, lo, hi, 1)
        decreases newsz - a
      {
        ok := AllocPage(d, a, s, lo, oldsz, newsz);
        if !ok {
          return false, 0;
        }
        a := a + PGSIZE;
      }
      FewerZeroPages(S(), d, lo, a / PGSIZE, hi);
      NoSpan(S(), d, a / PGSIZE, hi, 1);
      return true, newsz;
    }

    // One turn of its loop; without memory, what it has mapped is undone.
    method AllocPage(d: nat, a: nat, ghost s: Memory, ghost lo: nat, oldsz: nat, newsz: nat) returns (ok: bool)
      requires a % PGSIZE == 0 && lo == UpPage(oldsz) && lo <= a / PGSIZE < UpPage(newsz) <= USERPAGES && first > 0
      requires oldsz <= newsz <= KERNBASE
      requires Changed(s, S(), d, {}, lo, UpPage(newsz)) && Shape(s) && Unmapped(s, d, lo, UpPage(newsz))
      requires Shape(S()) && d < |frames| && ZeroPages(S(), d, lo, a / PGSIZE)
        && Unmapped(S(), d, a / PGSIZE, UpPage(newsz))
      modifies `frames, `freelist, `owner
      ensures Shape(S()) && d < |frames|
      ensures ok ==>
        && Changed(s, S(), d, {}, lo, UpPage(newsz))
        && ZeroPages(S(), d, lo, a / PGSIZE + 1) && Unmapped(S(), d, a / PGSIZE + 1, UpPage(newsz))
      ensures !ok ==> Changed(s, S(), d, {}, 0, 0)
      ensures ok ==>
        Spare(S(), d, a / PGSIZE + 1, UpPage(newsz), 1) == old(Spare(S(), d, a / PGSIZE, UpPage(newsz), 1))
      ensures !ok ==> old(Spare(S(), d, a / PGSIZE, UpPage(newsz), 1)) < 0
    {
      hide Inv, Shape, Within, PagesSame, Lookup, ZeroPages, Prepared, AddPage, Took, Spare;
      ghost var m, v, hi := S(), a / PGSIZE, UpPage(newsz);
      ChangedShape(s, m, d, {}, lo, hi);
      LookupHere(m, d, v);
      var r, mem;
      ok, mem := Kalloc();
      if !ok {
        PageShort(m, d, v, hi);
        r := Deallocuvm(d, newsz, oldsz);
        Undone(s, m, S(), d, {}, lo, hi);
        return false;
      }
      TakeFrame(m, d, Zeros());
      AllocStep(s, m, d, v, lo, hi);
      frames := frames[mem := Zeros()];
      ghost var m1 := S();
      InFlight(s, m, m1, d, mem, lo, hi);
      ok := MapPage(d, a / PGSIZE, Entry(mem, PTE_W | PTE_U | PTE_P));
      if !ok {
        TableShort(m, d, v, hi, Zeros());
        r := Deallocuvm(d, newsz, oldsz);
        Undone(s, m1, S(), d, {mem}, lo, hi);
        OtherKept(m1, S(), d, {}, mem);
        GiveBack(s, S(), d, mem);
        Kfree(mem);
        return false;
      }
      PageTook(m, S(), d, v, Zeros());
      TookSpare(m, S(), d, v, hi, 1);
    }

    // mappages for a region of the kernel's part. It fails exactly for want of tables.
    method Mappages(d: nat, r: Region) returns (ok: bool)
      requires Inv(S()) && Is(S(), d, Directory) && Shape(S()) && d < |frames|
      requires USERPAGES <= r.vpn && 0 < r.n && r.vpn + r.n <= PAGES && Unmapped(S(), d, r.vpn, r.vpn + r.n)
      modifies `frames, `freelist, `owner
      ensures Changed(old(S()), S(), d, {}, r.vpn, r.vpn + r.n) && Shape(S()) && d < |frames|
      ensures ok ==> RegionMapped(S(), d, r, r.n)
      ensures ok <==> old(Spare(S(), d, r.vpn, r.vpn + r.n, 0)) >= 0
      ensures ok ==>
        && |freelist| == old(Spare(S(), d, r.vpn, r.vpn + r.n, 0))
        && Tables(S(), d) == old(Tables(S(), d)) + Span(r.vpn, r.vpn + r.n)
    {
      hide Inv, Shape, Within, PagesSame, Lookup, Prepared, AddPage, Unmapped, RegionMapped, Took, Spare, Tables;
      hide Span, CanAdd;
      EmptySpan(r.vpn);
      ghost var s := S();
      ChangedNothing(s, d);
      ChangedWider(s, s, d, {}, 0, 0, r.vpn, r.vpn + r.n);
      NoRegion(s, d, r);
      var k := 0;
      while true
        invariant 0 <= k < r.n && Changed(s, S(), d, {}, r.vpn, r.vpn + r.n) && Shape(S()) && d < |frames|
        invariant RegionMapped(S(), d, r, k) && Unmapped(S(), d, r.vpn + k, r.vpn + r.n)
        invariant Spare(S(), d, r.vpn + k, r.vpn + r.n, 0) == Spare(s, d, r.vpn, r.vpn + r.n, 0)
        invariant Tables(S(), d) == Tables(s, d) + Span(r.vpn, r.vpn + k)
        decreases r.n - k
      {
        RegionStep(s, S(), d, r, k);
        ghost var m := S();
        LookupHere(m, d, r.vpn + k);
        ok := MapPage(d, r.vpn + k, Entry(r.frame + k, r.perm | PTE_P));
        if !ok {
          MapShort(m, d, r.vpn + k, r.vpn + r.n, 0);
          return false;
        }
        TookSpare(m, S(), d, r.vpn + k, r.vpn + r.n, 0);
        RegionTook(m, S(), d, r.vpn, r.vpn + k, Tables(s, d));
        NoSpan(S(), d, r.vpn + r.n, r.vpn + r.n, 0);
        if k == r.n - 1 {
          return true;
        }
        k := k + 1;
      }
    }

    // A directory with the kernel's part only; without memory for it nothing is lost.
    method Setupkvm(kmap: seq<Region>) returns (ok: bool, d: nat)
      requires Inv(S()) && KernelMap(kmap) && first > 0
      modifies `frames, `freelist, `owner
      ensures ok ==> Beside(old(S()), S(), d) && Shape(S()) && d < |frames|
      ensures ok ==> Unmapped(S(), d, 0, USERPAGES) && AllMapped(S(), d, kmap, |kmap|)
      ensures !ok ==> Same(old(S()), S())
      ensures ok <==> |old(freelist)| >= 1 + |KernelTables(kmap, |kmap|)|
      ensures ok ==>
        && Tables(S(), d) == KernelTables(kmap, |kmap|)
        && |freelist| + 1 + |KernelTables(kmap, |kmap|)| == |old(freelist)|
    {
      hide Inv, Shape, Within, PagesSame, Lookup, RegionMapped, Beside, Same, Gone, Changed, Tables, Spare;
      hide KernelTables, Span;
      ghost var s := S();
      SameSelf(s);
      if freelist != [] {
        NewDirBeside(s);
        NoTables(s, kmap);
      }
      ok, d := Kalloc();
      if !ok {
        return false, 0;
      }
      frames := frames[d := Zeros()];
      owner := owner[d := Directory];
      assert S() == NewDir(s);
      BesideFacts(s, S(), d);
      var k := 0;
      while k < |kmap|
        invariant 0 <= k <= |kmap| && Beside(s, S(), d) && Shape(S()) && d < |frames|
        invariant Unmapped(S(), d, 0, USERPAGES) && AllMapped(S(), d, kmap, k) && NoneMapped(S(), d, kmap, k)
        invariant Tables(S(), d) == KernelTables(kmap, k)
        invariant |freelist| + 1 + |KernelTables(kmap, k)| == |s.freelist|
      {
        ghost var m := S();
        assert kmap[k] in kmap;
        BesideFacts(s, m, d);
        RowSpare(m, d, kmap, k);
        ok := Mappages(d, kmap[k]);
        BesideThen(s, m, S(), d, kmap[k].vpn, kmap[k].vpn + kmap[k].n);
        if !ok {
          ghost var t := S();
          BesideFacts(s, t, d);
          Freevm(d);
          BesideGone(s, t, S(), d);
          return false, 0;
        }
        KmapStep(m, S(), d, kmap, k);
        k := k + 1;
      }
      return true, d;
    }

    // The user pages, the tables and the directory, each given back once.
    method Freevm(d: nat)
      requires Inv(S()) && Is(S(), d, Directory) && first > 0
      modifies `frames, `freelist, `owner
      ensures Gone(old(S()), S(), d)
    {
      hide Inv, Shape, Within, PagesSame, Lookup, Gone, Draining, Changed;
      ghost var s0 := S();
      var r := Deallocuvm(d, KERNBASE, 0);
      ghost var s := S();
      ChangedShape(s0, s, d, {}, 0, USERPAGES);
      NoPagesLeft(s, d);
      owner := Dissolved(s, d).owner;
      DrainStart(s, d);
      var i := 0;
      while i < ENTRIES
        invariant 0 <= i <= ENTRIES && Draining(s, S(), d, i)
      {
        DrainSkip(s, S(), d, i);
        if frames[d][i].flags & PTE_P != 0 {
          DrainFree(s, S(), d, i);
          Kfree(frames[d][i].frame);
        }
        i := i + 1;
      }
      Drained(s, S(), d);
      DrainedOther(s, S(), d);
      Kfree(d);
      GoneAfter(s0, s, S(), d, 0, USERPAGES);
    }

    // A copy of the first sz bytes of an address space, on frames of its own; without
    // enough free frames, and only then, it fails, and nothing is lost. A page that is
    // not there would be a panic.
    method Copyuvm(pgdir: nat, sz: nat, kmap: seq<Region>) returns (ok: bool, d: nat)
      requires Inv(S()) && Is(S(), pgdir, Directory) && KernelMap(kmap) && first > 0 && sz <= KERNBASE
      requires Shape(S()) && pgdir < |frames| && forall v :: 0 <= v < UpPage(sz) ==> Lookup(S(), pgdir, v).Some?
      modifies `frames, `freelist, `owner
      ensures ok ==> Beside(old(S()), S(), d) && Shape(old(S())) && Shape(S()) && pgdir < |old(frames)| && d < |frames|
      ensures ok ==> Copied(old(S()), S(), pgdir, d, UpPage(sz)) && Unmapped(S(), d, UpPage(sz), USERPAGES)
      ensures !ok ==> Same(old(S()), S())
      ensures ok <==> |old(freelist)| >= ForkNeeds(kmap, UpPage(sz))
    {
      hide Inv, Shape, Within, PagesSame, Lookup, Beside, Same, Gone, Changed, Unmapped, Copied, AllMapped, Spare;
      hide ForkNeeds, KernelTables, KernelMap, Tables;
      NeedsKernel(kmap, UpPage(sz));
      ghost var s := S();
      ok, d := Setupkvm(kmap);
      if !ok {
        return false, 0;
      }
      CopiedNone(s, S(), pgdir, d);
      CopySpare(S(), d, kmap, UpPage(sz));
      var i := 0;
      while i < sz
        invariant i % PGSIZE == 0 && i / PGSIZE <= UpPage(sz) && Beside(s, S(), d) && Shape(S()) && d < |frames|
        invariant Copied(s, S(), pgdir, d, i / PGSIZE) && Unmapped(S(), d, i / PGSIZE, USERPAGES)
        invariant Spare(S(), d, i / PGSIZE, UpPage(sz), 1) == |s.freelist| - ForkNeeds(kmap, UpPage(sz))
        decreases sz - i
      {
        ok := CopyPage(pgdir, d, i / PGSIZE, s, UpPage(sz));
        if !ok {
          return false, 0;
        }
        i := i + PGSIZE;
      }
      assert i / PGSIZE == UpPage(sz);
      NoSpan(S(), d, UpPage(sz), UpPage(sz), 1);
      return true, d;
    }

    // One turn of its loop; without memory the new directory is freed.
    method CopyPage(pgdir: nat, d: nat, v: nat, ghost s: Memory, ghost hi: nat) returns (ok: bool)
      requires Beside(s, S(), d) && Is(s, pgdir, Directory) && v < USERPAGES && first > 0 && v < hi
      requires Shape(s) && Shape(S()) && pgdir < |s.frames| && d < |frames| && Lookup(s, pgdir, v).Some?
      requires Copied(s, S(), pgdir, d, v) && Unmapped(S(), d, v, USERPAGES)
      modifies `frames, `freelist, `owner
      ensures ok ==>
        && Beside(s, S(), d) && Shape(S()) && d < |frames|
        && Copied(s, S(), pgdir, d, v + 1) && Unmapped(S(), d, v + 1, USERPAGES)
      ensures !ok ==> Same(s, S())
      ensures ok ==> Spare(S(), d, v + 1, hi, 1) == old(Spare(S(), d, v, hi, 1))
      ensures !ok ==> old(Spare(S(), d, v, hi, 1)) < 0
    {
      hide Inv, Shape, Within, PagesSame, Lookup, Beside, Same, Gone, Changed, Unmapped, Copied, Prepared, AddPage;
      hide Took, Spare;
      ghost var m := S();
      BesideFacts(s, m, d);
      ParentPage(s, m, pgdir, d, v);
      LookupHere(m, pgdir, v);
      LookupHere(m, d, v);
      UnmappedSplit(m, d, v, USERPAGES);
      var k, mem;
      ok, k := Walkpgdir(pgdir, v, false);
      var e := frames[k][v % ENTRIES];
      ok, mem := Kalloc();
      if !ok {
        PageShort(m, d, v, hi);
        Freevm(d);
        BesideGone(s, m, S(), d);
        return false;
      }
      MapFresh(m, d, v, m.frames[e.frame], e.flags);
      frames := frames[mem := frames[e.frame]];
      ghost var m1 := S();
      ok := MapPage(d, v, Entry(mem, e.flags));
      if !ok {
        TableShort(m, d, v, hi, m.frames[e.frame]);
        GiveBackFresh(m, m1, d, mem);
        Kfree(mem);
        ghost var t := S();
        BesideThen(s, m, t, d, 0, 0);
        BesideFacts(s, t, d);
        Freevm(d);
        BesideGone(s, t, S(), d);
        return false;
      }
      CopyStep(s, m, S(), pgdir, d, v, e, Entry(mem, e.flags));
      PageTook(m, S(), d, v, m.frames[e.frame]);
      TookSpare(m, S(), d, v, hi, 1);
    }
  }
}
