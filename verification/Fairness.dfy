/** Least virtual runtime first: what it guarantees over any number of ticks. */
module Fairness {

  // v[i] is the virtual runtime of slot i and d[i] what one tick adds to it; live has the
  // slots that are always ready.
  ghost predicate Least(v: seq<nat>, live: set<nat>, i: nat) {
    i in live && i < |v| && forall j :: j in live && j < |v| ==> v[i] <= v[j]
  }

  // The slots in order ran one tick each, every one a least one when it was chosen.
  ghost predicate Schedule(v: seq<nat>, d: seq<nat>, live: set<nat>, order: seq<nat>)
    requires |d| == |v|
    decreases |order|
  {
    order == [] ||
    (Least(v, live, order[0]) && Schedule(v[order[0] := v[order[0]] + d[order[0]]], d, live, order[1..]))
  }

  ghost function Count(order: seq<nat>, i: nat): nat {
    if order == [] then 0 else (if order[0] == i then 1 else 0) + Count(order[1..], i)
  }

  // The runtimes after the ticks in order.
  ghost function After(v: seq<nat>, d: seq<nat>, order: seq<nat>): (r: seq<nat>)
    requires |d| == |v|
    ensures |r| == |v|
  {
    seq(|v|, i requires 0 <= i < |v| => v[i] + Count(order, i) * d[i])
  }

  ghost predicate GapAtMost(v: seq<nat>, live: set<nat>, b: nat) {
    forall i, j :: i in live && j in live && i < |v| && j < |v| ==> v[i] - v[j] <= b
  }

  lemma AfterCons(v: seq<nat>, d: seq<nat>, i: nat, rest: seq<nat>)
    requires |d| == |v| && i < |v|
    ensures After(v[i := v[i] + d[i]], d, rest) == After(v, d, [i] + rest)
  {
    assert ([i] + rest)[1..] == rest;
    assert Count([i] + rest, i) * d[i] == Count(rest, i) * d[i] + d[i];
  }

  // No two runtimes are ever further apart than they were at first, or than one tick of
  // one process.
  lemma {:induction false} GapBound(v: seq<nat>, d: seq<nat>, live: set<nat>, order: seq<nat>, b: nat)
    requires |d| == |v| && Schedule(v, d, live, order) && GapAtMost(v, live, b)
    requires forall i :: i in live && i < |d| ==> d[i] <= b
    ensures GapAtMost(After(v, d, order), live, b)
    decreases |order|
  {
    if order == [] {
      assert After(v, d, order) == v;
    } else {
      var i := order[0];
      GapBound(v[i := v[i] + d[i]], d, live, order[1..], b);
      AfterCons(v, d, i, order[1..]);
      assert order == [i] + order[1..];
    }
  }

  // Ticks are shared in proportion to the weights: a tick of slot i counts d[i], and what
  // two slots are given differs by at most twice the gap, however long they run.
  lemma Share(v: seq<nat>, d: seq<nat>, live: set<nat>, order: seq<nat>, b: nat, i: nat, j: nat)
    requires |d| == |v| && Schedule(v, d, live, order) && GapAtMost(v, live, b)
    requires forall i :: i in live && i < |d| ==> d[i] <= b
    requires i in live && j in live && i < |v| && j < |v|
    ensures Count(order, i) * d[i] - Count(order, j) * d[j] <= 2 * b
  {
    GapBound(v, d, live, order, b);
    var r := After(v, d, order);
    assert r[i] - r[j] <= b && v[j] - v[i] <= b;
  }

  // So a slot cannot be passed over for long: while i waits, no other gets more than 2b.
  lemma NotStarved(v: seq<nat>, d: seq<nat>, live: set<nat>, order: seq<nat>, b: nat, i: nat, j: nat)
    requires |d| == |v| && Schedule(v, d, live, order) && GapAtMost(v, live, b)
    requires forall i :: i in live && i < |d| ==> d[i] <= b
    requires i in live && j in live && i < |v| && j < |v| && i !in order
    ensures Count(order, j) * d[j] <= 2 * b
  {
    NeverRan(order, i);
    Share(v, d, live, order, b, j, i);
  }

  lemma {:induction false} NeverRan(order: seq<nat>, i: nat)
    requires i !in order
    ensures Count(order, i) == 0
  {
    if order != [] {
      NeverRan(order[1..], i);
    }
  }

  lemma {:induction false} CountAppend(order: seq<nat>, i: nat, j: nat)
    ensures Count(order + [i], j) == Count(order, j) + if i == j then 1 else 0
  {
    if order == [] {
    } else {
      CountAppend(order[1..], i, j);
      assert (order + [i])[1..] == order[1..] + [i];
    }
  }

  lemma AfterAppend(v: seq<nat>, d: seq<nat>, order: seq<nat>, i: nat)
    requires |d| == |v| && i < |v|
    ensures After(v, d, order + [i]) == After(v, d, order)[i := After(v, d, order)[i] + d[i]]
  {
    var r, q := After(v, d, order), After(v, d, order + [i]);
    forall j | 0 <= j < |v|
      ensures q[j] == if j == i then r[j] + d[j] else r[j]
    {
      CountAppend(order, i, j);
      OneMore(Count(order, j), d[j]);
    }
  }

  lemma OneMore(n: nat, d: nat)
    ensures (n + 1) * d == n * d + d
  {
  }

  lemma {:induction false} ScheduleAppend(v: seq<nat>, d: seq<nat>, live: set<nat>, order: seq<nat>, i: nat)
    requires |d| == |v| && Schedule(v, d, live, order) && Least(After(v, d, order), live, i)
    ensures Schedule(v, d, live, order + [i])
    decreases |order|
  {
    if order == [] {
      assert After(v, d, order) == v;
    } else {
      var k := order[0];
      assert order == [k] + order[1..] && (order + [i])[1..] == order[1..] + [i];
      AfterCons(v, d, k, order[1..]);
      ScheduleAppend(v[k := v[k] + d[k]], d, live, order[1..], i);
    }
  }
}
