/** bcache: the buffers, and the ring through head that orders them. The link
    fields of struct buf are kept in two arrays; index NBUF is bcache.head. */
module Bcache {
  import opened Params
  import opened Blocks
  import opened BufferCache

  const HEAD := NBUF

  // The ring, from head round to head again.
  ghost function Cycle(order: seq<nat>): seq<nat> {
    [HEAD] + order + [HEAD]
  }

  // next and prev are each other's inverses along the ring.
  ghost predicate Linked(next: seq<nat>, prev: seq<nat>, order: seq<nat>) {
    && |next| == |prev| == NBUF + 1
    && (forall i :: 0 <= i < |order| ==> order[i] < NBUF)
    && (forall i, j :: 0 <= i < j < |order| ==> order[i] != order[j])
    && var c := Cycle(order);
    forall i :: 0 <= i < |c| - 1 ==> next[c[i]] == c[i + 1] && prev[c[i + 1]] == c[i]
  }

  lemma LinkedSize(next: seq<nat>, prev: seq<nat>, order: seq<nat>)
    requires Linked(next, prev, order)
    ensures |next| == |prev| == NBUF + 1
  {
  }

  // Every element reached along next is reached back along prev.
  lemma LinksInverse(next: seq<nat>, prev: seq<nat>, order: seq<nat>, i: nat)
    requires Linked(next, prev, order) && Permutation(order) && i <= NBUF
    ensures next[i] <= NBUF && prev[i] <= NBUF && prev[next[i]] == i && next[prev[i]] == i
  {
    var c := Cycle(order);
    if i == HEAD {
      assert next[c[0]] == c[1] && prev[c[|c| - 1]] == c[|c| - 2];
      assert prev[c[1]] == c[0] && next[c[|c| - 2]] == c[|c| - 1];
    } else {
      assert i in order;
      var k :| 0 <= k < |order| && order[k] == i;
      assert c[k + 1] == i;
      assert next[c[k]] == c[k + 1] && prev[c[k + 1]] == c[k];
      assert next[c[k + 1]] == c[k + 2] && prev[c[k + 2]] == c[k + 1];
    }
  }

  // The four assignments that put b behind head.
  lemma InsertFirst(next: seq<nat>, prev: seq<nat>, order: seq<nat>, b: nat)
    requires Linked(next, prev, order) && b < NBUF && b !in order
    ensures var n1, p1 := next[b := next[HEAD]], prev[b := HEAD];
      && n1[HEAD] <= NBUF
      && Linked(n1[HEAD := b], p1[n1[HEAD] := b], [b] + order)
  {
    var c, e := Cycle(order), Cycle([b] + order);
    assert next[c[0]] == c[1];
    assert forall i :: 2 <= i < |e| ==> e[i] == c[i - 1];
    var next', prev' := next[b := next[HEAD]][HEAD := b], prev[b := HEAD][c[1] := b];
    forall i | 0 <= i < |e| - 1
      ensures next'[e[i]] == e[i + 1] && prev'[e[i + 1]] == e[i]
    {
      if i >= 2 {
        assert next[c[i - 1]] == c[i] && prev[c[i]] == c[i - 1];
        assert c[i - 1] == order[i - 2];
        assert c[i] != c[1] by {
          assert c[1] == order[0];
          assert c[i] == if i - 1 < |order| then order[i - 1] else HEAD;
        }
      }
    }
  }

  // The two assignments that take order[k] off the ring.
  lemma Unlink(next: seq<nat>, prev: seq<nat>, order: seq<nat>, k: nat)
    requires Linked(next, prev, order) && k < |order|
    ensures var b := order[k];
      && next[b] <= NBUF && prev[b] <= NBUF
      && Linked(next[prev[b] := next[b]], prev[next[b] := prev[b]], order[..k] + order[k + 1..])
  {
    var b, c := order[k], Cycle(order);
    var rest := order[..k] + order[k + 1..];
    var e := Cycle(rest);
    assert c[k + 1] == b;
    assert next[c[k]] == c[k + 1] && prev[c[k + 1]] == c[k];
    assert next[c[k + 1]] == c[k + 2] && prev[c[k + 2]] == c[k + 1];
    var next', prev' := next[c[k] := c[k + 2]], prev[c[k + 2] := c[k]];
    forall i | 0 <= i < |e| - 1
      ensures next'[e[i]] == e[i + 1] && prev'[e[i + 1]] == e[i]
    {
      var m := if i <= k then i else i + 1;
      assert e[i] == c[m] && e[i + 1] == c[if i < k then i + 1 else i + 2];
      assert next[c[m]] == c[m + 1] && prev[c[m + 1]] == c[m];
      if i != k {
        assert c[m] != c[k];
        assert c[m + 1] != c[k + 2];
      }
    }
  }

  // A buffer that was not locked, or has been recycled, can be locked when it is claimed.
  lemma BreadUnlocked(c: Cache, n: nat)
    requires Good(c) && n < |c.disk| && (SlotOf(c.buf, n) < NBUF ==> !c.buf[SlotOf(c.buf, n)].locked)
    ensures var i := BreadSlot(c, n);
      |c.buf| == NBUF && |BufferCache.Claim(c, n).buf| == NBUF
      && (i < NBUF ==> BufferCache.Claim(c, n).buf[i].refcnt > 0 && !BufferCache.Claim(c, n).buf[i].locked)
  {
  }

  class Bcache {
    const buf: array<Buf>
    const next: array<nat>
    const prev: array<nat>
    var disk: Disk  // what memide keeps
    ghost var order: seq<nat>
    ghost var freed: seq<nat>
    ghost var clock: nat
    ghost var view: Disk
    ghost var trace: seq<Disk>  // every contents the disk has had, oldest first

    ghost function State(): Cache
      reads this, buf
    {
      Cache(buf[..], order, freed, clock, disk, view)
    }

    ghost predicate Valid()
      reads this, buf, next, prev
    {
      && next != prev
      && Linked(next[..], prev[..], order)
      && Good(State())
      && trace != [] && trace[|trace| - 1] == disk
    }

    // binit, over a disk with contents d.
    constructor (d: Disk)
      ensures Valid() && fresh(buf) && fresh(next) && fresh(prev)
      ensures State() == Boot(d) && trace == [d]
    {
      buf := new Buf[NBUF](_ => UNUSED);
      next := new nat[NBUF + 1](_ => NBUF);
      prev := new nat[NBUF + 1](_ => NBUF);
      disk, view, trace, freed, clock := d, d, [d], seq(NBUF, _ => 0), 0;
      order := [];
      new;
      var b := 0;
      while b < NBUF
        invariant 0 <= b <= NBUF
        invariant order == seq(b, i requires 0 <= i < b => b - 1 - i)
        invariant Linked(next[..], prev[..], order)
        invariant disk == view == d && trace == [d] && clock == 0 && freed == seq(NBUF, _ => 0)
        invariant buf[..] == seq(NBUF, _ => UNUSED)
      {
        PutFirst(b);
        b := b + 1;
      }
      assert State() == Boot(d);
      BootGood(d);
    }

    // Is the block already cached?
    method FindCached(n: nat) returns (b: nat)
      requires Valid()
      ensures b == SlotOf(buf[..], n)
    {
      ghost var c := Cycle(order);
      assert next[c[0]] == c[1];
      ghost var i := 1;
      b := next[HEAD];
      while b != HEAD
        invariant 1 <= i <= NBUF + 1 && b == c[i]
        invariant forall j :: 0 <= j < i - 1 ==> !Holds(buf[order[j]], n)
        decreases NBUF + 1 - i
      {
        assert b == order[i - 1];
        if buf[b].dev == ROOTDEV && buf[b].blockno == n {
          SlotUnique(buf[..], b, n);
          return;
        }
        assert next[c[i]] == c[i + 1];
        b := next[b];
        i := i + 1;
      }
      assert i == NBUF + 1;
      ghost var s := SlotOf(buf[..], n);
      assert s < NBUF ==> s in order;
    }

    // The clean unreferenced buffer nearest the end of the ring.
    method FindVictim() returns (b: nat)
      requires Valid()
      ensures b == Victim(buf[..], order)
    {
      assert Permutation(order) && buf.Length == NBUF;
      hide Good;
      ghost var c := Cycle(order);
      assert prev[c[NBUF + 1]] == c[NBUF];
      ghost var i := NBUF;
      b := prev[HEAD];
      while b != HEAD
        invariant 0 <= i <= NBUF && b == c[i]
        invariant Victim(buf[..], order) == LastRecyclable(buf[..], order, i)
        decreases i
      {
        assert b == order[i - 1];
        if buf[b].refcnt == 0 && !buf[b].dirty {
          return;
        }
        assert prev[c[i]] == c[i - 1];
        b := prev[b];
        i := i - 1;
      }
      assert i == 0;
    }

    // bget(ROOTDEV, n), under bcache.lock; the result NBUF stands for the panic
    // "bget: no buffers". Another process may have the buffer locked.
    method Claim(n: nat) returns (b: nat)
      requires Valid() && n < |disk|
      modifies buf
      ensures Valid() && b == old(BreadSlot(State(), n)) && State() == BufferCache.Claim(old(State()), n)
    {
      ghost var c := State();
      Sizes(c);
      ClaimGood(c, n);
      hide Good, Linked, SlotOf, Victim;
      b := FindCached(n);
      if b < NBUF {
        buf[b] := buf[b].(refcnt := buf[b].refcnt + 1);
        assert buf[..] == BufferCache.Claim(c, n).buf;
      } else {
        b := FindVictim();
        if b == NBUF {
          return;
        }
        buf[b] := Buf(false, false, ROOTDEV, n, buf[b].locked, 1, buf[b].data);
        assert buf[..] == BufferCache.Claim(c, n).buf;
      }
    }

    // acquiresleep of a claimed buffer, once no other process has it locked.
    method Acquire(b: nat)
      requires Valid() && b < NBUF && buf[b].refcnt > 0 && !buf[b].locked
      modifies buf
      ensures Valid() && State() == BufferCache.Acquire(old(State()), b)
    {
      AcquireGood(State(), b);
      buf[b] := buf[b].(locked := true);
      assert State() == BufferCache.Acquire(old(State()), b);
    }

    // The end of bread.
    method Finish(b: nat)
      requires Valid() && b < NBUF && buf[b].locked
      modifies buf, this`disk, this`trace
      ensures old(buf[b].blockno) < |old(disk)| && Valid() && trace == old(trace)
      ensures State() == BufferCache.Finish(old(State()), b)
    {
      FinishGood(State(), b);
      hide Coherent, Recency, OneEach, Linked;
      if !buf[b].valid {
        Iderw(b);
      }
    }

    // bread of a block that no other process has locked.
    method Bread(n: nat) returns (b: nat)
      requires Valid() && n < |disk|
      requires SlotOf(buf[..], n) < NBUF ==> !buf[SlotOf(buf[..], n)].locked
      modifies buf, this`disk, this`trace
      ensures Valid() && b == old(BreadSlot(State(), n)) && trace == old(trace)
      ensures State() == BufferCache.Bread(old(State()), n)
    {
      ghost var c := State();
      ClaimKeeps(c, n);
      BreadUnlocked(c, n);
      hide Good, Linked;
      b := Claim(n);
      if b < NBUF {
        Acquire(b);
        Finish(b);
      }
    }

    // Its panics are for a buffer that is not locked, that is valid and clean, or whose
    // block is on another device or off the disk.
    method Iderw(b: nat)
      requires b < buf.Length && buf[b].locked && (buf[b].dirty || !buf[b].valid)
      requires buf[b].dev == ROOTDEV && buf[b].blockno < |disk|
      modifies buf, this`disk, this`trace
      ensures State() == BufferCache.Iderw(old(State()), b)
      ensures trace == if old(buf[b].dirty) then old(trace) + [disk] else old(trace)
    {
      if buf[b].dirty {
        buf[b] := buf[b].(dirty := false);
        disk := disk[buf[b].blockno := buf[b].data];
        trace := trace + [disk];
      } else {
        buf[b] := buf[b].(data := disk[buf[b].blockno]);
      }
      buf[b] := buf[b].(valid := true);
      assert buf[..] == BufferCache.Iderw(old(State()), b).buf;
    }

    method Bwrite(b: nat)
      requires Valid() && b < NBUF && buf[b].locked
      modifies buf, this`disk, this`view, this`trace
      ensures Valid() && State() == BufferCache.Bwrite(old(State()), b)
      ensures trace == old(trace) + [disk]
    {
      BwriteGood(State(), b);
      ghost var s := State();
      view := view[buf[b].blockno := buf[b].data];
      buf[b] := buf[b].(dirty := true);
      Iderw(b);
      assert State() == BufferCache.Bwrite(s, b);
    }

    // The holder of a buffer replaces its data.
    method Modify(b: nat, data: Block)
      requires Valid() && b < NBUF && buf[b].locked
      modifies buf
      ensures Valid() && State() == BufferCache.Modify(old(State()), b, data)
    {
      ModifyGood(State(), b, data);
      buf[b] := buf[b].(data := data);
      assert State() == BufferCache.Modify(old(State()), b, data);
    }

    // B_DIRTY, set by log_write.
    method Pin(b: nat)
      requires Valid() && b < NBUF && buf[b].locked && buf[b].valid
      modifies buf, this`view
      ensures Valid() && State() == BufferCache.Pin(old(State()), b)
    {
      PinGood(State(), b);
      buf[b] := buf[b].(dirty := true);
      view := view[buf[b].blockno := buf[b].data];
      assert State() == BufferCache.Pin(old(State()), b);
    }

    // Puts b behind head.
    method PutFirst(b: nat)
      requires next != prev && Linked(next[..], prev[..], order) && b < NBUF && b !in order
      modifies next, prev, this`order
      ensures order == [b] + old(order) && Linked(next[..], prev[..], order)
    {
      hide Linked;
      ghost var n: seq<nat>, p: seq<nat> := next[..], prev[..];
      LinkedSize(n, p, order);
      InsertFirst(n, p, order, b);
      next[b] := next[HEAD];
      prev[b] := HEAD;
      prev[next[HEAD]] := b;
      next[HEAD] := b;
      assert next[..] == n[b := n[HEAD]][HEAD := b] && prev[..] == p[b := HEAD][n[HEAD] := b];
      order := [b] + order;
    }

    // Takes b off the ring and puts it behind head.
    method MoveToFront(b: nat)
      requires next != prev && Linked(next[..], prev[..], order) && Permutation(order) && b < NBUF
      modifies next, prev, this`order
      ensures order == ToFront(old(order), b) && Linked(next[..], prev[..], order)
    {
      ghost var k, n, p := IndexOf(order, b), next[..], prev[..];
      ghost var rest := order[..k] + order[k + 1..];
      Unlink(n, p, order, k);
      LinksInverse(n, p, order, b);
      assert |rest| == NBUF - 1 && b !in rest;
      hide Linked, Permutation, IndexOf;
      prev[next[b]] := prev[b];
      next[prev[b]] := next[b];
      assert next[..] == n[p[b] := n[b]] && prev[..] == p[n[b] := p[b]];
      order := rest;
      PutFirst(b);
    }

    method Brelse(b: nat)
      requires Valid() && b < NBUF && buf[b].locked
      requires buf[b].valid ==> buf[b].data == view[buf[b].blockno]
      modifies buf, next, prev, this`order, this`freed, this`clock
      ensures Valid() && State() == BufferCache.Brelse(old(State()), b)
    {
      assert buf[b].refcnt > 0;
      hide Good, Linked;
      Unlock(b);
      Drop(b);
    }

    // releasesleep
    method Unlock(b: nat)
      requires Valid() && b < NBUF && buf[b].locked
      requires buf[b].valid ==> buf[b].data == view[buf[b].blockno]
      modifies buf
      ensures Valid() && State() == BufferCache.Unlock(old(State()), b)
    {
      UnlockGood(State(), b);
      buf[b] := buf[b].(locked := false);
      assert State() == BufferCache.Unlock(old(State()), b);
    }

    // The rest of brelse, under bcache.lock; another process may have the lock by now.
    method Drop(b: nat)
      requires Valid() && b < NBUF && buf[b].refcnt > if buf[b].locked then 1 else 0
      modifies buf, next, prev, this`order, this`freed, this`clock
      ensures Valid() && State() == BufferCache.Drop(old(State()), b)
    {
      DropGood(State(), b);
      ghost var s := State();
      buf[b] := buf[b].(refcnt := buf[b].refcnt - 1);
      if buf[b].refcnt == 0 {
        MoveToFront(b);
        clock := clock + 1;
        freed := freed[b := clock];
      }
      assert State() == BufferCache.Drop(s, b);
    }

    // ---- the cache as the process of a commit sees it ---------------------

    // It has locked the buffers held; other processes use buffers of the blocks in foreign.
    ghost predicate Alone(held: set<nat>, foreign: set<nat>)
      reads this, buf, next, prev
    {
      Valid() && HeldBy(State(), held, foreign)
    }

    ghost function Pinned(): set<nat>
      reads buf
    {
      Pins(buf[..])
    }

    // The buffer b, held, shows block n with contents data.
    ghost predicate Shows(b: nat, n: nat, data: Block)
      reads this, buf
    {
      b < NBUF == buf.Length && Holds(buf[b], n) && buf[b].valid && buf[b].data == data
    }

    method ReadAlone(n: nat, ghost held: set<nat>, ghost foreign: set<nat>) returns (b: nat)
      requires Alone(held, foreign) && n < |disk|
      requires forall j :: 0 <= j < NBUF && j in held ==> buf[j].blockno != n
      requires n !in foreign && (n in Pinned() || |Pinned() + HeldBlocks(buf[..], held) + foreign| < NBUF)
      modifies buf, this`disk, this`trace
      ensures disk == old(disk) && trace == old(trace)
      ensures b !in held && Alone(held + {b}, foreign) && Pinned() == old(Pinned())
      ensures Shows(b, n, view[n])
      ensures forall j :: 0 <= j < NBUF && j != b ==> buf[j] == old(buf[j])
    {
      hide Linked, Coherent, Recency, OneEach, HeldBy, Pins, HeldBlocks, Recycle, Fill, Victim, BufferCache.Acquire,
        BufferCache.Claim, BufferCache.Finish;
      RoomAlone(State(), n, held, foreign);
      BreadAlone(State(), n, held, foreign);
      BreadLatest(State(), n);
      ghost var e := BufferCache.Bread(State(), n);
      b := Bread(n);
      assert buf[..] == e.buf && forall j :: 0 <= j < NBUF ==> buf[j] == e.buf[j];
    }

    method WriteAlone(b: nat, data: Block, ghost held: set<nat>, ghost foreign: set<nat>)
      requires Alone(held, foreign) && b in held && b < NBUF && buf[b].valid
      modifies buf, this`disk, this`view, this`trace
      ensures Alone(held, foreign) && Pinned() == old(Pinned()) - {old(buf[b].blockno)}
      ensures old(buf[b].blockno) < |old(disk)| == |old(view)|
      ensures disk == old(disk)[old(buf[b].blockno) := data]
      ensures view == old(view)[old(buf[b].blockno) := data]
      ensures trace == old(trace) + [disk]
      ensures Shows(b, old(buf[b].blockno), data)
      ensures forall j :: 0 <= j < NBUF && j != b ==> buf[j] == old(buf[j])
    {
      WriteThrough(State(), b, held, foreign, data);
      ghost var e := BufferCache.Bwrite(BufferCache.Modify(State(), b, data), b);
      Modify(b, data);
      Bwrite(b);
      assert buf[..] == e.buf && forall j :: 0 <= j < NBUF ==> buf[j] == e.buf[j];
    }

    method ReleaseAlone(b: nat, ghost held: set<nat>, ghost foreign: set<nat>)
      requires Alone(held, foreign) && b in held && b < NBUF
      requires buf[b].valid && buf[b].blockno < |view| && buf[b].data == view[buf[b].blockno]
      modifies buf, next, prev, this`order, this`freed, this`clock
      ensures Alone(held - {b}, foreign) && Pinned() == old(Pinned())
      ensures forall j :: 0 <= j < NBUF && j != b ==> buf[j] == old(buf[j])
    {
      BrelseAlone(State(), b, held, foreign);
      ghost var e := BufferCache.Brelse(State(), b);
      Brelse(b);
      assert buf[..] == e.buf && forall j :: 0 <= j < NBUF ==> buf[j] == e.buf[j];
    }

    // Two blocks held at once, the first of them not pinned.
    method ReadTwo(m: nat, n: nat, ghost foreign: set<nat>) returns (a: nat, b: nat)
      requires Alone({}, foreign) && m < |disk| && n < |disk| && m != n
      requires m !in foreign && n !in foreign && |Pinned() + foreign| < NBUF
      requires n in Pinned() || |Pinned() + {m} + foreign| < NBUF
      modifies buf, this`disk, this`trace
      ensures disk == old(disk) && trace == old(trace)
      ensures a != b && Alone({a, b}, foreign) && Pinned() == old(Pinned())
      ensures Shows(a, m, view[m]) && Shows(b, n, view[n])
    {
      hide Good, Linked, HeldBy, Pins;
      assert HeldBlocks(buf[..], {}) == {};
      a := ReadAlone(m, {}, foreign);
      assert HeldBlocks(buf[..], {a}) == {m};
      assert {} + {a} == {a};
      b := ReadAlone(n, {a}, foreign);
      assert {a} + {b} == {a, b};
    }

    method ReleaseTwo(a: nat, b: nat, ghost foreign: set<nat>)
      requires Alone({a, b}, foreign) && a != b && a < NBUF && b < NBUF
      requires buf[a].valid && buf[a].blockno < |view| && buf[a].data == view[buf[a].blockno]
      requires buf[b].valid && buf[b].blockno < |view| && buf[b].data == view[buf[b].blockno]
      modifies buf, next, prev, this`order, this`freed, this`clock
      ensures Alone({}, foreign) && Pinned() == old(Pinned())
    {
      ReleaseAlone(a, {a, b}, foreign);
      assert {a, b} - {a} == {b};
      ReleaseAlone(b, {b}, foreign);
      assert {b} - {b} == {};
    }
  }
}
