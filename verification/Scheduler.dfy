/** The scheduler of proc.c and the clock tick of trap.c, on one processor: virtual
    runtimes in two words, least runtime first. */
module Scheduler {
  import opened Params
  import opened Fairness

  const LIMB := 1000000000

  const WEIGHTS: seq<int> := [
    88761, 71755, 56483, 46273, 36291, 29154, 23254, 18705, 14949, 11916,
    9548, 7620, 6100, 4904, 3906, 3121, 2501, 1991, 1586, 1277,
    1024, 820, 655, 526, 423, 335, 272, 215, 172, 137,
    110, 87, 70, 56, 45, 36, 29, 23, 18, 15]

  datatype State = Runnable | Running | Away

  datatype Proc = Proc(state: State, nice: nat, weight: int, high: Word, low: Word,
                       aruntime: Word, prev: Word, slice: Word)

  function WeightOf(nice: nat): int
    requires nice < 40
  {
    WEIGHTS[nice]
  }

  predicate Normal(p: Proc) {
    p.nice < 40 && p.weight == WeightOf(p.nice) && p.low < LIMB
  }

  // The number that the two words stand for.
  function Vruntime(p: Proc): nat {
    p.high * LIMB + p.low
  }

  // What one tick adds to it.
  function Increment(p: Proc): nat
    requires Normal(p)
  {
    WeightBounds(p.nice);
    1024000 / p.weight
  }

  lemma WeightBounds(nice: nat)
    requires nice < 40
    ensures 15 <= WeightOf(nice) <= 88761
  {
  }

  lemma NormalWeight(p: Proc)
    requires Normal(p)
    ensures 15 <= p.weight <= 88761
  {
    WeightBounds(p.nice);
  }

  // compare_vruntime: whether p1 comes after p2.
  function Compare(p1: Proc, p2: Proc): bool {
    if p1.high > p2.high then true
    else if p1.high < p2.high then false
    else p1.low > p2.low
  }

  // Comparing the words is comparing the numbers, as long as the low word is normalised.
  lemma CompareIff(p1: Proc, p2: Proc)
    requires Normal(p1) && Normal(p2)
    ensures Compare(p1, p2) <==> Vruntime(p1) > Vruntime(p2)
  {
    if p1.high > p2.high {
      LimbApart(p1.high, p2.high);
    } else if p1.high < p2.high {
      LimbApart(p2.high, p1.high);
    }
  }

  lemma LimbApart(a: nat, b: nat)
    requires a > b
    ensures a * LIMB >= b * LIMB + LIMB
  {
  }

  // The clock interrupt for the running process; yield if its slice is used up.
  function Ticked(p: Proc): Proc
    requires Normal(p)
  {
    WeightBounds(p.nice);
    var aruntime := (p.aruntime + 1000) % UINT;
    var temp := (aruntime - p.prev) % UINT;
    var low := (p.low + 1024000 / p.weight) % UINT;
    var q := p.(aruntime := aruntime, low := low);
    var r := if low / LIMB != 0 then q.(low := low % LIMB, high := (p.high + 1) % UINT) else q;
    if temp >= p.slice then r.(prev := aruntime, state := Runnable) else r
  }

  // A tick adds exactly the increment, carrying from one word to the other, and with a
  // slice of 0 the process yields at once.
  lemma TickedAdds(p: Proc)
    requires Normal(p) && p.high + 1 < UINT
    ensures Normal(Ticked(p)) && Vruntime(Ticked(p)) == Vruntime(p) + Increment(p)
    ensures Ticked(p).weight == p.weight && Ticked(p).high <= p.high + 1
    ensures p.slice == 0 ==> Ticked(p).state == Runnable
  {
    WeightBounds(p.nice);
    IncrementBound(p.weight);
    var low := p.low + 1024000 / p.weight;
    if low >= LIMB {
      assert low / LIMB == 1 && low % LIMB == low - LIMB;
    }
  }

  lemma IncrementBound(w: int)
    requires w >= 15
    ensures 0 <= 1024000 / w <= 68266
  {
  }

  // ---- nice -------------------------------------------------------------

  // The default nice value has weight 1024, and each step up divides the weight by about
  // 1.25, to within a factor of 1.19 and one of 1.29.
  lemma NiceSteps(n: nat)
    requires n < 39
    ensures WeightOf(20) == 1024
    ensures 119 * WeightOf(n + 1) <= 100 * WeightOf(n) <= 129 * WeightOf(n + 1)
  {
  }

  // A tick adds 1024000 divided by the weight, to the next integer below; so the larger
  // nice is, the faster virtual time runs.
  lemma IncrementIs(p: Proc)
    requires Normal(p)
    ensures Increment(p) == 1024000 / WEIGHTS[p.nice]
    ensures Increment(p) * WEIGHTS[p.nice] <= 1024000 < (Increment(p) + 1) * WEIGHTS[p.nice]
  {
    WeightBounds(p.nice);
    Quotient(1024000, p.weight);
  }

  lemma Quotient(n: nat, w: int)
    requires w > 0
    ensures n / w * w <= n < (n / w + 1) * w
  {
  }

  lemma {:induction false} NicerRunsSlower(a: nat, b: nat)
    requires a < b < 40
    ensures 0 < 1024000 / WEIGHTS[a] < 1024000 / WEIGHTS[b]
    decreases b
  {
    NicerStep(b - 1);
    if a < b - 1 {
      NicerRunsSlower(a, b - 1);
    }
  }

  lemma NicerStep(n: nat)
    requires n < 39
    ensures 0 < 1024000 / WEIGHTS[n] < 1024000 / WEIGHTS[n + 1]
  {
  }

  // ---- a slice ----------------------------------------------------------

  // m ticks in a row.
  function Ticks(p: Proc, m: nat): (q: Proc)
    requires Normal(p) && p.high + m < UINT
    ensures Normal(q) && q.high <= p.high + m && q.weight == p.weight && q.nice == p.nice && q.slice == p.slice
  {
    if m == 0 then p
    else
      var q := Ticks(p, m - 1);
      TickedAdds(q);
      Ticked(q)
  }

  // A process that is switched to runs until the ticks, of 1000 units each, make up its
  // slice, and is preempted by that one.
  lemma {:induction false} RunsItsSlice(p: Proc, m: nat)
    requires Normal(p) && p.state == Running && p.aruntime == p.prev && p.high + m < UINT && 1000 * m < UINT
    requires m > 0 ==> 1000 * (m - 1) < p.slice
    ensures var q := Ticks(p, m);
      && q.aruntime == (p.aruntime + 1000 * m) % UINT
      && (m == 0 || 1000 * m < p.slice ==> q.state == Running && q.prev == p.prev)
      && (m > 0 && 1000 * m >= p.slice ==> q.state == Runnable && q.prev == q.aruntime)
  {
    if m > 0 {
      hide Normal, Vruntime, Ticked;
      RunsItsSlice(p, m - 1);
      TickCounts(Ticks(p, m - 1));
      WrapAdd(p.aruntime, 1000 * (m - 1), 1000);
      WrapSub(p.aruntime, 1000 * m);
    }
  }

  lemma TickCounts(p: Proc)
    requires Normal(p)
    ensures var q, ran := Ticked(p), (p.aruntime + 1000) % UINT;
      && q.aruntime == ran
      && if (ran - p.prev) % UINT >= p.slice then q.state == Runnable && q.prev == ran
         else q.state == p.state && q.prev == p.prev
  {
  }

  // The slice of a process of weight w among runnable ones of weight total: the quotient is
  // one of integers.
  function SliceOf(w: int, total: int): int
    requires total > 0
  {
    10000 * (w / total)
  }

  // A process alone gets ten ticks in a row; beside any other it gets a slice of 0, and so
  // one tick.
  lemma AloneOrShared(p: Proc, total: int)
    requires Normal(p) && p.state == Running && p.aruntime == p.prev && p.high + 10 < UINT
    requires total >= p.weight > 0
    ensures total == p.weight ==>
      var q := p.(slice := 10000);
      && SliceOf(p.weight, total) == 10000
      && (forall m: nat {:trigger Ticks(q, m)} :: m < 10 ==> Ticks(q, m).state == Running)
      && Ticks(q, 10).state == Runnable
    ensures total > p.weight ==> SliceOf(p.weight, total) == 0
  {
    NormalWeight(p);
    var q := p.(slice := 10000);
    hide Ticked;
    if total == p.weight {
      forall m: nat | m < 10
        ensures Ticks(q, m).state == Running
      {
        RunsItsSlice(q, m);
      }
      RunsItsSlice(q, 10);
    } else {
      SmallQuotient(p.weight, total);
    }
  }

  lemma WrapAdd(a: nat, b: nat, c: nat)
    ensures ((a + b) % UINT + c) % UINT == (a + b + c) % UINT
  {
  }

  lemma WrapSub(a: Word, b: nat)
    requires b < UINT
    ensures ((a + b) % UINT - a) % UINT == b
  {
  }

  // ---- the table --------------------------------------------------------

  ghost function Runnables(ps: seq<Proc>): set<nat> {
    set i: nat | i < |ps| && ps[i].state == Runnable
  }

  ghost predicate Ready(ps: seq<Proc>) {
    |ps| == NPROC && forall i :: 0 <= i < |ps| && ps[i].state == Runnable ==> Normal(ps[i])
  }

  ghost function Vruntimes(ps: seq<Proc>): (v: seq<nat>)
    ensures |v| == |ps|
  {
    seq(|ps|, i requires 0 <= i < |ps| => Vruntime(ps[i]))
  }

  ghost function Increments(ps: seq<Proc>): (d: seq<nat>)
    ensures |d| == |ps|
  {
    seq(|ps|, i requires 0 <= i < |ps| => if Normal(ps[i]) then Increment(ps[i]) else 0)
  }

  // Dispatched with a slice of 0, the process runs one tick.
  function OneTick(p: Proc): Proc
    requires Normal(p)
  {
    Ticked(p.(weight := WeightOf(p.nice), state := Running, slice := 0))
  }

  lemma OneTickAdds(p: Proc)
    requires Normal(p) && p.high + 1 < UINT
    ensures var q := OneTick(p);
      && Normal(q) && q.state == Runnable && Increment(q) == Increment(p) && q.high <= p.high + 1
      && Vruntime(q) == Vruntime(p) + Increment(p)
  {
    TickedAdds(p.(weight := WeightOf(p.nice), state := Running, slice := 0));
  }

  // ps has become qs by the ticks in order, each given to a process of least runtime, out
  // of n for which the high words do not overflow.
  ghost predicate Ran(ps: seq<Proc>, qs: seq<Proc>, order: seq<nat>, n: nat) {
    && Ready(ps) && Ready(qs) && |order| <= n && Runnables(qs) == Runnables(ps) && Increments(qs) == Increments(ps)
    && Schedule(Vruntimes(ps), Increments(ps), Runnables(ps), order)
    && Vruntimes(qs) == After(Vruntimes(ps), Increments(ps), order)
    && forall i :: 0 <= i < NPROC && qs[i].state == Runnable ==> qs[i].high + n - |order| < UINT
  }

  lemma ReadyLength(ps: seq<Proc>)
    requires Ready(ps)
    ensures |ps| == NPROC
  {
  }

  lemma RunNothing(ps: seq<Proc>)
    requires Ready(ps)
    ensures forall n: nat :: (forall i :: 0 <= i < NPROC && ps[i].state == Runnable ==> ps[i].high + n < UINT) ==>
      Ran(ps, ps, [], n)
  {
    assert Vruntimes(ps) == After(Vruntimes(ps), Increments(ps), []);
  }

  lemma RanRunnable(ps: seq<Proc>, qs: seq<Proc>, order: seq<nat>, n: nat, a: nat, b: nat)
    requires Ran(ps, qs, order, n) && a < NPROC && b < NPROC
    requires |ps| == NPROC && ps[a].state == Runnable && ps[b].state == Runnable
    ensures |qs| == NPROC && qs[a].state == Runnable && qs[b].state == Runnable
  {
    assert a in Runnables(ps) && b in Runnables(ps);
  }

  lemma RunStep(ps: seq<Proc>, qs: seq<Proc>, order: seq<nat>, n: nat, i: nat)
    requires Ran(ps, qs, order, n) && |order| < n && Least(Vruntimes(qs), Runnables(qs), i)
    ensures i < |qs| && Normal(qs[i])
    ensures Ran(ps, qs[i := OneTick(qs[i])], order + [i], n)
  {
    hide Schedule, After, Normal, Vruntime, Increment, OneTick;
    var rs := qs[i := OneTick(qs[i])];
    OneTickAdds(qs[i]);
    ScheduleAppend(Vruntimes(ps), Increments(ps), Runnables(ps), order, i);
    AfterAppend(Vruntimes(ps), Increments(ps), order, i);
    assert Runnables(rs) == Runnables(qs);
    assert Increments(rs) == Increments(qs);
    assert Vruntimes(rs) == Vruntimes(qs)[i := Vruntimes(qs)[i] + Increments(qs)[i]];
  }

  // Over any number of ticks the greatest and least runtimes stay within the larger of
  // the first gap and the largest increment.
  lemma Gap(ps: seq<Proc>, qs: seq<Proc>, order: seq<nat>, n: nat, b: nat)
    requires Ran(ps, qs, order, n) && GapAtMost(Vruntimes(ps), Runnables(ps), b)
    requires forall i :: i in Runnables(ps) && i < NPROC ==> Increments(ps)[i] <= b
    ensures GapAtMost(Vruntimes(qs), Runnables(qs), b)
  {
    GapBound(Vruntimes(ps), Increments(ps), Runnables(ps), order, b);
  }

  // In the numbers of the table of weights: what two processes are given, weighted by their
  // nice values, differs by at most twice the gap, however long they run.
  lemma ShareByNice(ps: seq<Proc>, qs: seq<Proc>, order: seq<nat>, n: nat, b: nat, i: nat, j: nat)
    requires Ran(ps, qs, order, n) && GapAtMost(Vruntimes(ps), Runnables(ps), b)
    requires forall k :: k in Runnables(ps) && k < NPROC ==> Increments(ps)[k] <= b
    requires i < |ps| == NPROC && j < NPROC && ps[i].state == Runnable && ps[j].state == Runnable
    ensures ps[i].nice < 40 && ps[j].nice < 40
    ensures Count(order, i) * (1024000 / WEIGHTS[ps[i].nice]) - Count(order, j) * (1024000 / WEIGHTS[ps[j].nice])
      <= 2 * b
  {
    IncrementIs(ps[i]);
    IncrementIs(ps[j]);
    assert Increments(ps)[i] == Increment(ps[i]) && Increments(ps)[j] == Increment(ps[j]);
    hide Schedule, Increment, WeightOf, Vruntimes, After;
    Share(Vruntimes(ps), Increments(ps), Runnables(ps), order, b, i, j);
  }

  // So a process with a smaller nice value falls behind another by a bounded number of
  // ticks only, even after arbitrarily many.
  lemma NicerNotBehind(ps: seq<Proc>, qs: seq<Proc>, order: seq<nat>, n: nat, b: nat, i: nat, j: nat)
    requires Ran(ps, qs, order, n) && GapAtMost(Vruntimes(ps), Runnables(ps), b)
    requires forall k :: k in Runnables(ps) && k < NPROC ==> Increments(ps)[k] <= b
    requires i < |ps| == NPROC && j < NPROC && ps[i].state == Runnable && ps[j].state == Runnable
    requires ps[i].nice < ps[j].nice
    ensures (Count(order, j) - Count(order, i)) * (1024000 / WEIGHTS[ps[i].nice]) <= 2 * b
  {
    hide Ran, GapAtMost;
    ShareByNice(ps, qs, order, n, b, j, i);
    NicerRunsSlower(ps[i].nice, ps[j].nice);
    Scaled(Count(order, j), 1024000 / WEIGHTS[ps[i].nice], 1024000 / WEIGHTS[ps[j].nice]);
    Difference(Count(order, j), Count(order, i), 1024000 / WEIGHTS[ps[i].nice]);
  }

  lemma Scaled(n: nat, x: nat, y: nat)
    requires x <= y
    ensures n * x <= n * y
  {
  }

  lemma Difference(m: nat, n: nat, x: nat)
    ensures (m - n) * x == m * x - n * x
  {
  }

  ghost predicate Two(ps: seq<Proc>) {
    exists a, b :: 0 <= a < b < |ps| && ps[a].state == Runnable && ps[b].state == Runnable
  }

  lemma TotalExceeds(ps: seq<Proc>, i: nat, total: int)
    requires Ready(ps) && Two(ps) && i < |ps| && ps[i].state == Runnable
    requires forall a, b :: 0 <= a < b < |ps| && ps[a].state == Runnable && ps[b].state == Runnable ==>
      ps[a].weight + ps[b].weight <= total
    ensures 0 < ps[i].weight < total && ps[i].weight / total == 0
  {
    hide WeightOf, Normal;
    var a, b :| 0 <= a < b < |ps| && ps[a].state == Runnable && ps[b].state == Runnable;
    var other := if a == i then b else a;
    NormalWeight(ps[i]);
    NormalWeight(ps[other]);
    SmallQuotient(ps[i].weight, total);
  }

  lemma SmallQuotient(w: int, total: int)
    requires 0 <= w < total
    ensures w / total == 0
  {
  }

  class Cpu {
    const procs: array<Proc>

    constructor (procs: array<Proc>)
      ensures this.procs == procs
    {
      this.procs := procs;
    }

    // The scan for the least runtime, starting from a runnable slot, and the sum of the
    // weights of the runnable processes.
    method Pick(p: nat) returns (least: nat, total: int)
      requires Ready(procs[..]) && p < NPROC && procs[p].state == Runnable
      ensures least < NPROC && procs[least].state == Runnable
        && Least(Vruntimes(procs[..]), Runnables(procs[..]), least)
      ensures total < UINT && forall a :: 0 <= a < NPROC && procs[a].state == Runnable ==> procs[a].weight <= total
      ensures forall a, b :: 0 <= a < b < NPROC && procs[a].state == Runnable && procs[b].state == Runnable ==>
        procs[a].weight + procs[b].weight <= total
    {
      hide Normal, Vruntime, Compare;
      least, total := p, 0;
      var t := 0;
      while t < NPROC
        invariant t <= NPROC && least < NPROC && procs[least].state == Runnable
        invariant forall j :: 0 <= j < t && procs[j].state == Runnable ==> Vruntime(procs[least]) <= Vruntime(procs[j])
        invariant 0 <= total <= t * 88761
        invariant forall a :: 0 <= a < t && procs[a].state == Runnable ==> procs[a].weight <= total
        invariant forall a, b :: 0 <= a < b < t && procs[a].state == Runnable && procs[b].state == Runnable ==>
          procs[a].weight + procs[b].weight <= total
      {
        if procs[t].state == Runnable {
          NormalWeight(procs[t]);
          total := (total + procs[t].weight) % UINT;
          CompareIff(procs[least], procs[t]);
          if Compare(procs[least], procs[t]) {
            least := t;
          }
        }
        t := t + 1;
      }
    }

    // One turn of the scheduler that finds a process: it is switched to, and runs until
    // the tick at which it yields. With another runnable process its slice is 0.
    method RunLeast(p: nat) returns (i: nat)
      requires Ready(procs[..]) && p < NPROC && procs[p].state == Runnable && Two(procs[..])
      modifies procs
      ensures i < NPROC && Least(Vruntimes(old(procs[..])), Runnables(old(procs[..])), i)
      ensures Normal(old(procs[..])[i]) && procs[..] == old(procs[..])[i := OneTick(old(procs[..])[i])]
    {
      hide Vruntimes, Least, Ticked, Vruntime, WeightOf, Runnables, Two;
      var total;
      i, total := Pick(p);
      TotalExceeds(procs[..], i, total);
      var q := procs[i].(weight := WeightOf(procs[i].nice), state := Running);
      q := q.(slice := SliceOf(q.weight, total));
      procs[i] := Ticked(q);
    }

    // The scheduler for n ticks.
    method Run(n: nat) returns (order: seq<nat>)
      requires Ready(procs[..]) && forall i :: 0 <= i < NPROC && procs[i].state == Runnable ==> procs[i].high + n < UINT
      requires Two(procs[..])
      modifies procs
      ensures |order| == n && Ran(old(procs[..]), procs[..], order, n)
    {
      hide Ready, Vruntimes, Increments, Schedule, After, Least, OneTick, Normal;
      order := [];
      ghost var ps := procs[..];
      ReadyLength(ps);
      ghost var a, b :| 0 <= a < b < |ps| && ps[a].state == Runnable && ps[b].state == Runnable;
      RunNothing(ps);
      var p: nat := 0;
      while |order| < n
        invariant |order| <= n && p <= NPROC && Ready(procs[..]) && procs.Length == NPROC
        invariant Ran(ps, procs[..], order, n)
        decreases n - |order|, if p <= a then a - p else NPROC + 1 + a - p
      {
        RanRunnable(ps, procs[..], order, n, a, b);
        if p == NPROC {
          p := 0;
        } else if procs[p].state != Runnable {
          p := p + 1;
        } else {
          ghost var qs := procs[..];
          p := RunLeast(p);
          RunStep(ps, qs, order, n, p);
          order := order + [p];
          p := p + 1;
        }
      }
    }
  }
}
