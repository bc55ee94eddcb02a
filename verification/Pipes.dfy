/** Pipes: the ring of 512 bytes with counters that wrap, as a queue; and the processes
    that sleep on it. A stretch of code that holds the lock of the pipe is one step. */
module Pipes {
  import opened Params

  const PIPESIZE := 512

  // All bytes ever accepted by writes and returned by reads, and the two open flags.
  datatype Channel = Channel(written: string, taken: string, readopen: bool, writeopen: bool)

  predicate Fifo(c: Channel) {
    c.taken <= c.written && |c.written| - |c.taken| <= PIPESIZE
  }

  function Queued(c: Channel): nat
    requires Fifo(c)
  {
    |c.written| - |c.taken|
  }

  function Min(a: int, b: int): int {
    if a < b then a else b
  }

  // ---- one turn of a writer and of a reader -----------------------------

  // How a turn ends: the call returns, or its process sleeps.
  datatype Outcome = Return(value: int) | Sleep

  // How many bytes a turn of pipewrite puts into the ring.
  function Room(c: Channel, todo: nat): nat
    requires Fifo(c)
  {
    Min(todo, PIPESIZE - Queued(c))
  }

  function WriteOutcome(c: Channel, addr: string, done: nat, killed: bool): Outcome
    requires Fifo(c) && done <= |addr|
  {
    if done + Room(c, |addr| - done) == |addr| then Return(|addr|)
    else if !c.readopen || killed then Return(-1)
    else Sleep
  }

  function AfterWrite(c: Channel, addr: string, done: nat): (d: Channel)
    requires Fifo(c) && done <= |addr|
    ensures Fifo(d)
  {
    c.(written := c.written + addr[done..done + Room(c, |addr| - done)])
  }

  // How many bytes a turn of piperead takes.
  function Available(c: Channel, n: nat): nat
    requires Fifo(c)
  {
    Min(n, Queued(c))
  }

  function ReadOutcome(c: Channel, n: nat, killed: bool): Outcome
    requires Fifo(c)
  {
    if Queued(c) == 0 && c.writeopen then (if killed then Return(-1) else Sleep)
    else Return(Available(c, n))
  }

  function AfterRead(c: Channel, n: nat): (d: Channel)
    requires Fifo(c)
    ensures Fifo(d)
  {
    c.(taken := c.written[..|c.taken| + Available(c, n)])
  }

  // ---- the ring ---------------------------------------------------------

  // The ring holds what is written and not taken, each byte at its position modulo 512,
  // and the counters are the two lengths modulo 2^32.
  ghost predicate Holds(data: seq<char>, nread: Word, nwrite: Word, c: Channel) {
    && |data| == PIPESIZE && Fifo(c)
    && nread == |c.taken| % UINT && nwrite == |c.written| % UINT
    && forall k :: |c.taken| <= k < |c.written| ==> data[k % PIPESIZE] == c.written[k]
  }

  // 512 divides 2^32, so wrapping a counter does not disturb the ring.
  lemma WrapIndex(x: nat)
    ensures x % UINT % PIPESIZE == x % PIPESIZE
  {
    assert x == UINT * (x / UINT) + x % UINT;
    assert UINT * (x / UINT) == PIPESIZE * (0x80_0000 * (x / UINT));
    SameRemainder(0x80_0000 * (x / UINT), x % UINT);
  }

  lemma SameRemainder(q: nat, r: nat)
    ensures (PIPESIZE * q + r) % PIPESIZE == r % PIPESIZE
  {
  }

  lemma WrapStep(x: nat)
    ensures (x % UINT + 1) % UINT == (x + 1) % UINT
  {
  }

  lemma WrapApart(x: nat, y: nat)
    requires x <= y <= x + PIPESIZE
    ensures x % UINT == y % UINT <==> x == y
    ensures (x % UINT + PIPESIZE) % UINT == y % UINT <==> y == x + PIPESIZE
  {
  }

  lemma SlotsApart(x: nat, y: nat)
    requires x < y < x + PIPESIZE
    ensures x % PIPESIZE != y % PIPESIZE
  {
  }

  // The tests of the code say what they mean, whatever the counters have wrapped to.
  lemma Tests(data: seq<char>, nread: Word, nwrite: Word, c: Channel)
    requires Holds(data, nread, nwrite, c)
    ensures nread == nwrite <==> Queued(c) == 0
    ensures nwrite == (nread + PIPESIZE) % UINT <==> Queued(c) == PIPESIZE
  {
    WrapApart(|c.taken|, |c.written|);
  }

  lemma PutHolds(data: seq<char>, nread: Word, nwrite: Word, c: Channel, x: char)
    requires Holds(data, nread, nwrite, c) && Queued(c) < PIPESIZE
    ensures Holds(data[nwrite % PIPESIZE := x], nread, (nwrite + 1) % UINT, c.(written := c.written + [x]))
  {
    var n := |c.written|;
    WrapIndex(n);
    WrapStep(n);
    forall k | |c.taken| <= k < n
      ensures k % PIPESIZE != n % PIPESIZE
    {
      SlotsApart(k, n);
    }
  }

  lemma GetHolds(data: seq<char>, nread: Word, nwrite: Word, c: Channel)
    requires Holds(data, nread, nwrite, c) && Queued(c) > 0
    ensures data[nread % PIPESIZE] == c.written[|c.taken|]
    ensures Holds(data, (nread + 1) % UINT, nwrite, c.(taken := c.written[..|c.taken| + 1]))
  {
    WrapIndex(|c.taken|);
    WrapStep(|c.taken|);
  }

  // struct pipe
  class PipeBuffer {
    const data: array<char>
    var nread: Word
    var nwrite: Word
    var readopen: bool
    var writeopen: bool
    ghost var written: string
    ghost var taken: string

    ghost function Chan(): Channel
      reads this
    {
      Channel(written, taken, readopen, writeopen)
    }

    ghost predicate Valid()
      reads this, data
    {
      data.Length == PIPESIZE && Holds(data[..], nread, nwrite, Chan())
    }

    constructor ()
      ensures Valid() && Chan() == Channel("", "", true, true) && fresh(data)
    {
      data := new char[PIPESIZE](_ => '\0');
      nread, nwrite, readopen, writeopen, written, taken := 0, 0, true, true, "", "";
    }

    // pipewrite from the moment it has the lock, with done bytes of addr accepted
    // before, until it releases the lock. wake: whether it wakes the readers.
    method Write(addr: string, done: nat, killed: bool) returns (i: nat, outcome: Outcome, wake: bool)
      requires Valid() && done <= |addr|
      modifies this`nwrite, this`written, data
      ensures Valid() && Fifo(old(Chan())) && Chan() == AfterWrite(old(Chan()), addr, done)
      ensures i == done + Room(old(Chan()), |addr| - done) && outcome == WriteOutcome(old(Chan()), addr, done, killed)
      ensures wake <==> outcome != Return(-1)
      // as many of the bytes as there is room for
      ensures done <= i <= |addr| && written == old(written) + addr[done..i]
      ensures i == |addr| || |written| - |taken| == PIPESIZE
      ensures outcome.Sleep? ==> i < |addr| && readopen && !killed
      ensures outcome == Return(|addr|) <==> i == |addr|
    {
      hide Holds;
      HoldsFifo(data[..], nread, nwrite, Chan());
      ghost var c := Chan();
      i := done;
      while i < |addr|
        invariant done <= i <= |addr| && Valid() && i - done <= PIPESIZE - Queued(c)
        invariant Chan() == c.(written := c.written + addr[done..i])
      {
        Tests(data[..], nread, nwrite, Chan());
        if nwrite == (nread + PIPESIZE) % UINT {
          if !readopen || killed {
            return i, Return(-1), false;
          }
          return i, Sleep, true;
        }
        PutHolds(data[..], nread, nwrite, Chan(), addr[i]);
        data[nwrite % PIPESIZE] := addr[i];
        nwrite := (nwrite + 1) % UINT;
        written := written + [addr[i]];
        assert addr[done..i] + [addr[i]] == addr[done..i + 1];
        i := i + 1;
      }
      return i, Return(|addr|), true;
    }

    // piperead from the moment it has the lock until it releases it; out is what it
    // copies. wake: whether it wakes the writers.
    method Read(n: nat, killed: bool) returns (out: string, outcome: Outcome, wake: bool)
      requires Valid()
      modifies this`nread, this`taken
      ensures Valid() && Fifo(old(Chan())) && outcome == ReadOutcome(old(Chan()), n, killed)
      ensures Chan() == if wake then AfterRead(old(Chan()), n) else old(Chan())
      ensures old(taken) + out == taken && (wake ==> outcome == Return(|out|))
      ensures wake <==> !(Queued(old(Chan())) == 0 && old(writeopen))
      // as many bytes as are wanted and there, the oldest first
      ensures taken <= written && written == old(written)
      ensures wake ==> |out| == n || (|out| <= n && taken == written)
      ensures outcome.Sleep? <==> |old(taken)| == |old(written)| && writeopen && !killed
    {
      hide Holds;
      HoldsFifo(data[..], nread, nwrite, Chan());
      Tests(data[..], nread, nwrite, Chan());
      ghost var c := Chan();
      out := "";
      if nread == nwrite && writeopen {
        return out, if killed then Return(-1) else Sleep, false;
      }
      var i := 0;
      while i < n
        invariant i <= n && Valid() && i == |out| <= Queued(c) && taken == c.taken + out
        invariant Chan() == c.(taken := c.written[..|c.taken| + i])
      {
        Tests(data[..], nread, nwrite, Chan());
        if nread == nwrite {
          break;
        }
        GetHolds(data[..], nread, nwrite, Chan());
        var x := data[nread % PIPESIZE];
        out := out + [x];
        assert written[..|taken| + 1] == taken + [x];
        taken := taken + [x];
        nread := (nread + 1) % UINT;
        i := i + 1;
      }
      return out, Return(i), true;
    }
  }

  lemma HoldsFifo(data: seq<char>, nread: Word, nwrite: Word, c: Channel)
    requires Holds(data, nread, nwrite, c)
    ensures Fifo(c)
  {
  }
}
