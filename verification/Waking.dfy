/** The virtual runtime that wakeup1 gives to the processes it wakes: a tick less than the least
    one, in words that may wrap. */
module Waking {
  import opened Params
  import opened Scheduler

  // What a woken process of weight w gets, if the least runtime of a runnable process is in
  // the words high and low. The numbers are unsigned: the test for a negative one fails.
  function WokenHigh(found: bool, high: Word): Word {
    if found then high else 0
  }

  function WokenLow(found: bool, low: Word, w: int): Word
    requires w > 0
  {
    if found then (low - 1024000 / w) % UINT else 0
  }

  // It comes before every runnable process, or beside it, exactly if the low word of the
  // least runtime is not smaller than what one tick adds. Otherwise the low word wraps, and
  // it comes after the least one by more than three times what the low word should hold.
  lemma WokenFirst(ps: seq<Proc>, least: nat, p: Proc)
    requires Ready(ps) && least < NPROC && ps[least].state == Runnable && Normal(p)
    requires forall k :: 0 <= k < NPROC && ps[k].state == Runnable ==> !Compare(ps[least], ps[k])
    ensures p.weight > 0
    ensures var q := p.(high := WokenHigh(true, ps[least].high), low := WokenLow(true, ps[least].low, p.weight));
      && ((forall k :: 0 <= k < NPROC && ps[k].state == Runnable ==> !Compare(q, ps[k]))
          <==> Increment(p) <= ps[least].low)
      && (Increment(p) <= ps[least].low ==> Vruntime(q) + Increment(p) == Vruntime(ps[least]))
      && (Increment(p) > ps[least].low ==> Vruntime(q) > Vruntime(ps[least]) + 3 * LIMB)
  {
    NormalWeight(p);
    IncrementBound(p.weight);
    var low := WokenLow(true, ps[least].low, p.weight);
    assert Increment(p) <= ps[least].low ==> low == ps[least].low - Increment(p);
    assert Increment(p) > ps[least].low ==> low == ps[least].low - Increment(p) + UINT;
    hide Normal, WeightOf, WokenLow;
    var q := p.(high := WokenHigh(true, ps[least].high), low := low);
    if Increment(p) > ps[least].low {
      assert Compare(q, ps[least]);
    }
  }

  // wakeup1: asleep says which slots sleep on the channel.
  method Wake(procs: array<Proc>, asleep: seq<bool>)
    requires procs.Length == NPROC == |asleep|
    requires forall k :: 0 <= k < NPROC && asleep[k] ==> procs[k].state == Away && procs[k].weight > 0
    modifies procs
    ensures forall k :: 0 <= k < NPROC && !asleep[k] ==> procs[k] == old(procs[k])
    ensures (forall k :: 0 <= k < NPROC ==> old(procs[k]).state != Runnable) ==>
              forall k :: 0 <= k < NPROC && asleep[k] ==>
                procs[k] == old(procs[k]).(state := Runnable, high := 0, low := 0)
    ensures forall least :: 0 <= least < NPROC && LeastWords(old(procs[..]), least) ==>
              forall k :: 0 <= k < NPROC && asleep[k] ==>
                var p, l := old(procs[k]), old(procs[..])[least];
                procs[k] == p.(state := Runnable, high := l.high, low := (l.low - 1024000 / p.weight) % UINT)
  {
    ghost var ps := procs[..];
    var found, high, low := Floor(procs);
    var p := 0;
    while p < NPROC
      invariant 0 <= p <= NPROC
      invariant forall k :: 0 <= k < NPROC ==>
        procs[k] == if k < p && asleep[k] then
                      ps[k].(state := Runnable, high := WokenHigh(found, high),
                             low := WokenLow(found, low, ps[k].weight))
                    else ps[k]
    {
      if asleep[p] {
        procs[p] := procs[p].(state := Runnable);
        procs[p] := procs[p].(high := if found then high else 0);
        procs[p] := procs[p].(low := if found then (low - 1024000 / procs[p].weight) % UINT else 0);
      }
      p := p + 1;
    }
  }

  // No runnable process has smaller words than ps[least], which is runnable.
  ghost predicate LeastWords(ps: seq<Proc>, least: nat) {
    && least < |ps| && ps[least].state == Runnable
    && forall k :: 0 <= k < |ps| && ps[k].state == Runnable ==> !Compare(ps[least], ps[k])
  }

  // The first loop of wakeup1.
  method Floor(procs: array<Proc>) returns (found: bool, high: Word, low: Word)
    requires procs.Length == NPROC
    ensures found <==> exists k :: 0 <= k < NPROC && procs[k].state == Runnable
    ensures forall least :: 0 <= least < NPROC && LeastWords(procs[..], least) ==>
              high == procs[least].high && low == procs[least].low
  {
    found, high, low := false, 0, 0;
    ghost var m: nat := 0;
    var p := 0;
    while p < NPROC
      invariant 0 <= p <= NPROC
      invariant found <==> exists k :: 0 <= k < p && procs[k].state == Runnable
      invariant found ==> m < p && procs[m].state == Runnable && high == procs[m].high && low == procs[m].low
      invariant found ==> forall k :: 0 <= k < p && procs[k].state == Runnable ==> !Compare(procs[m], procs[k])
    {
      if procs[p].state == Runnable {
        if !found {
          high, low, found, m := procs[p].high, procs[p].low, true, p;
        }
        if high > procs[p].high {
          high, low, m := procs[p].high, procs[p].low, p;
        } else if high == procs[p].high && low > procs[p].low {
          low, m := procs[p].low, p;
        }
      }
      p := p + 1;
    }
  }
}
