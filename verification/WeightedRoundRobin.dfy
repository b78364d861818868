/**
 Smooth weighted round robin: every selection raises each current weight by its weight, picks the first
 greatest and lowers that one by the total.
 */
module WeightedRoundRobin {
  import opened Basics

  function Sum(s: seq<int>): int { if s == [] then 0 else s[0] + Sum(s[1..]) }

  function Zeros(n: nat): (z: seq<int>)
    ensures |z| == n && forall i :: 0 <= i < n ==> z[i] == 0
  {
    seq(n, _ => 0)
  }

  // ---------------------------------------------------------------- sums

  lemma {:induction false} SumUpdate(s: seq<int>, k: nat, x: int)
    requires k < |s|
    ensures Sum(s[k := x]) == Sum(s) - s[k] + x
    decreases |s|
  {
    if k == 0 {
      assert s[k := x][1..] == s[1..];
    } else {
      assert s[k := x][1..] == s[1..][k - 1 := x];
      SumUpdate(s[1..], k - 1, x);
    }
  }

  lemma {:induction false} SumAdd(a: seq<int>, b: seq<int>, c: seq<int>)
    requires |a| == |b| == |c| && forall i :: 0 <= i < |a| ==> c[i] == a[i] + b[i]
    ensures Sum(c) == Sum(a) + Sum(b)
    decreases |a|
  {
    if a != [] { SumAdd(a[1..], b[1..], c[1..]); }
  }

  lemma {:induction false} SumZeros(s: seq<int>)
    requires forall i :: 0 <= i < |s| ==> s[i] == 0
    ensures Sum(s) == 0
    decreases |s|
  {
    if s != [] { SumZeros(s[1..]); }
  }

  /** A positive sum has a positive term. */
  lemma {:induction false} SumPositive(s: seq<int>) returns (k: nat)
    requires Sum(s) > 0
    ensures k < |s| && s[k] > 0
    decreases |s|
  {
    if s[0] > 0 { return 0; }
    k := SumPositive(s[1..]);
    k := k + 1;
  }

  /** Terms that are not above others, with the same sum, are the others. */
  lemma {:induction false} SumEqual(a: seq<int>, b: seq<int>)
    requires |a| == |b| && Sum(a) == Sum(b) && forall i :: 0 <= i < |a| ==> a[i] <= b[i]
    ensures a == b
    decreases |a|
  {
    if a != [] {
      SumBelow(a[1..], b[1..]);
      SumEqual(a[1..], b[1..]);
      assert a == [a[0]] + a[1..] && b == [b[0]] + b[1..];
    }
  }

  lemma {:induction false} SumBelow(a: seq<int>, b: seq<int>)
    requires |a| == |b| && forall i :: 0 <= i < |a| ==> a[i] <= b[i]
    ensures Sum(a) <= Sum(b)
    decreases |a|
  {
    if a != [] { SumBelow(a[1..], b[1..]); }
  }

  // ---------------------------------------------------------------- one selection

  function Raised(w: seq<int>, cur: seq<int>): (r: seq<int>)
    requires |w| == |cur|
    ensures |r| == |w| && forall i :: 0 <= i < |w| ==> r[i] == cur[i] + w[i]
  {
    seq(|w|, i requires 0 <= i < |w| => cur[i] + w[i])
  }

  /** m is the first index of a greatest element. */
  predicate FirstMax(s: seq<int>, m: nat) {
    && m < |s|
    && (forall i :: 0 <= i < |s| ==> s[i] <= s[m])
    && (forall i :: 0 <= i < m ==> s[i] < s[m])
  }

  /** Picks of a run so far, and the current weights they leave. */
  datatype State = State(cur: seq<int>, picks: seq<int>, k: nat)

  function Start(n: nat): State { State(Zeros(n), Zeros(n), 0) }

  ghost predicate Next(w: seq<int>, s: State, t: State, m: nat)
    requires |w| == |s.cur| == |s.picks|
  {
    && FirstMax(Raised(w, s.cur), m)
    && t == State(Raised(w, s.cur)[m := Raised(w, s.cur)[m] - Sum(w)], s.picks[m := s.picks[m] + 1], s.k + 1)
  }

  // ---------------------------------------------------------------- what every selection keeps

  /** Current weights are what was added less what was taken, sum to zero and stay above minus the total. */
  ghost predicate Balanced(w: seq<int>, s: State) {
    && |w| == |s.cur| == |s.picks| && Sum(w) > 0
    && (forall i :: 0 <= i < |w| ==> w[i] >= 0 && s.picks[i] >= 0)
    && (forall i :: 0 <= i < |w| ==> s.cur[i] == s.k * w[i] - Sum(w) * s.picks[i])
    && (forall i :: 0 <= i < |w| ==> s.cur[i] > -Sum(w))
    && Sum(s.cur) == 0 && Sum(s.picks) == s.k
  }

  lemma StartBalanced(w: seq<int>)
    requires Sum(w) > 0 && forall i :: 0 <= i < |w| ==> w[i] >= 0
    ensures Balanced(w, Start(|w|))
  {
    SumZeros(Zeros(|w|));
  }

  /** The pick is positive after the raise, so no weightless instance is picked, and balance is kept. */
  lemma NextBalanced(w: seq<int>, s: State, t: State, m: nat)
    requires Balanced(w, s) && Next(w, s, t, m)
    ensures Balanced(w, t) && m < |w| && w[m] > 0 && t.k == s.k + 1
  {
    var r := Raised(w, s.cur);
    SumAdd(s.cur, w, r);
    var p := SumPositive(r);
    assert r[m] > 0;
    SumUpdate(r, m, r[m] - Sum(w));
    SumUpdate(s.picks, m, s.picks[m] + 1);
    NotWeightless(s.k, w[m], Sum(w), s.picks[m], s.cur[m]);
    forall i | 0 <= i < |w| ensures t.cur[i] == t.k * w[i] - Sum(w) * t.picks[i] {
      Distribute(s.k, w[i], Sum(w), s.picks[i]);
    }
  }

  lemma Distribute(k: int, w: int, total: int, p: int)
    ensures (k + 1) * w == k * w + w && total * (p + 1) == total * p + total
  {
  }

  lemma NotWeightless(k: int, w: int, total: int, p: int, cur: int)
    requires cur == k * w - total * p && total > 0 && p >= 0 && cur + w > 0 && w >= 0
    ensures w > 0
  {
  }

  // ---------------------------------------------------------------- fairness

  /** A whole number of rounds: every instance got exactly its share, and all current weights are zero again. */
  lemma RoundsAreFair(w: seq<int>, s: State, n: nat)
    requires Balanced(w, s) && s.k == n * Sum(w)
    ensures forall i :: 0 <= i < |w| ==> s.picks[i] == n * w[i] && s.cur[i] == 0
  {
    var share := seq(|w|, i requires 0 <= i < |w| => n * w[i]);
    SumScaled(w, n, share);
    forall i | 0 <= i < |w| ensures s.picks[i] <= share[i] {
      AtMostShare(n, Sum(w), w[i], s.picks[i], s.cur[i]);
    }
    SumEqual(s.picks, share);
    forall i | 0 <= i < |w| ensures s.cur[i] == 0 {
      ShareIsZero(n, Sum(w), w[i]);
    }
  }

  lemma ShareIsZero(n: int, total: int, w: int)
    ensures (n * total) * w - total * (n * w) == 0
  {
  }

  lemma AtMostShare(n: int, total: int, w: int, p: int, cur: int)
    requires total > 0 && cur == (n * total) * w - total * p && cur > -total
    ensures p <= n * w
  {
    ShareIsZero(n, total, w);
    var x := n * w - p + 1;
    assert total * x == total * (n * w) - total * p + total;
    PositiveFactor(total, x);
  }

  lemma PositiveFactor(a: int, x: int)
    requires a > 0 && a * x > 0
    ensures x > 0
  {
  }

  lemma {:induction false} SumScaled(w: seq<int>, n: int, s: seq<int>)
    requires |s| == |w| && forall i :: 0 <= i < |w| ==> s[i] == n * w[i]
    ensures Sum(s) == n * Sum(w)
    decreases |w|
  {
    if w != [] {
      SumScaled(w[1..], n, s[1..]);
      assert n * Sum(w) == n * w[0] + n * Sum(w[1..]);
    }
  }

  /** The state after selecting ms in turn from the start, if the rule selects exactly those. */
  ghost predicate IsRun(w: seq<int>, ms: seq<nat>, s: State)
    decreases |ms|
  {
    if ms == [] then s == Start(|w|)
    else exists r: State ::
      IsRun(w, ms[..|ms| - 1], r) && |r.cur| == |r.picks| == |w| && Next(w, r, s, ms[|ms| - 1])
  }

  function Count(ms: seq<nat>, i: nat): nat {
    if ms == [] then 0 else Count(ms[..|ms| - 1], i) + if ms[|ms| - 1] == i then 1 else 0
  }

  lemma {:induction false} RunBalanced(w: seq<int>, ms: seq<nat>, s: State)
    requires Sum(w) > 0 && (forall i :: 0 <= i < |w| ==> w[i] >= 0) && IsRun(w, ms, s)
    ensures Balanced(w, s) && s.k == |ms|
    ensures forall i :: 0 <= i < |ms| ==> ms[i] < |w| && w[ms[i]] > 0
    decreases |ms|
  {
    hide Balanced, Sum, Next;
    if ms == [] {
      StartBalanced(w);
    } else {
      var m, rest := ms[|ms| - 1], ms[..|ms| - 1];
      var r: State :| IsRun(w, rest, r) && |r.cur| == |r.picks| == |w| && Next(w, r, s, m);
      RunBalanced(w, rest, r);
      NextBalanced(w, r, s, m);
      assert forall i :: 0 <= i < |ms| ==> ms[i] == if i < |rest| then rest[i] else m;
    }
  }

  lemma {:induction false} RunCounts(w: seq<int>, ms: seq<nat>, s: State)
    requires IsRun(w, ms, s)
    ensures |s.picks| == |w| && forall i :: 0 <= i < |w| ==> s.picks[i] == Count(ms, i)
    decreases |ms|
  {
    hide Next;
    if ms != [] {
      var m, rest := ms[|ms| - 1], ms[..|ms| - 1];
      var r: State :| IsRun(w, rest, r) && |r.cur| == |r.picks| == |w| && Next(w, r, s, m);
      RunCounts(w, rest, r);
      NextPicks(w, r, s, m);
    }
  }

  lemma NextPicks(w: seq<int>, s: State, t: State, m: nat)
    requires |w| == |s.cur| == |s.picks| && Next(w, s, t, m)
    ensures m < |w| && t.picks == s.picks[m := s.picks[m] + 1]
  {
  }

  /** Exact fairness: n times the total weight of selections select every instance n times its weight. */
  lemma RunIsFair(w: seq<int>, ms: seq<nat>, s: State, n: nat)
    requires Sum(w) > 0 && (forall i :: 0 <= i < |w| ==> w[i] >= 0) && IsRun(w, ms, s) && |ms| == n * Sum(w)
    ensures forall i :: 0 <= i < |w| ==> Count(ms, i) == n * w[i] && s.cur[i] == 0
  {
    RunBalanced(w, ms, s);
    RunCounts(w, ms, s);
    RoundsAreFair(w, s, n);
  }

  // ---------------------------------------------------------------- the balancer

  class WeightedRR {
    const weights: array<int>
    const currentWeight: array<int>
    const totalWeight: int
    ghost var picks: seq<int>
    ghost var k: nat

    ghost function At(): State
      reads this, currentWeight
    {
      State(currentWeight[..], picks, k)
    }

    ghost predicate Valid()
      reads this, weights, currentWeight
    {
      && weights != currentWeight && weights.Length == currentWeight.Length == |picks|
      && (forall i :: 0 <= i < weights.Length ==> weights[i] >= 0)
      && totalWeight == Sum(weights[..])
      && (totalWeight > 0 ==> Balanced(weights[..], At()))
    }

    /** Negative weights count as zero. */
    constructor (given: seq<int>)
      ensures Valid() && weights.Length == |given| && k == 0 && picks == Zeros(|given|)
      ensures forall i :: 0 <= i < |given| ==> weights[i] == if given[i] < 0 then 0 else given[i]
      ensures fresh(weights) && fresh(currentWeight)
    {
      var w := new int[|given|](i => 0);
      var c := new int[|given|](i => 0);
      var total := 0;
      for i := 0 to |given|
        invariant forall j :: 0 <= j < i ==> w[j] == if given[j] < 0 then 0 else given[j]
        invariant total == Sum(w[..i]) && (forall j :: 0 <= j < |given| ==> c[j] == 0) && w != c
      {
        var wt := given[i];
        if wt < 0 { wt := 0; }
        w[i] := wt;
        total := total + wt;
        assert w[..i + 1] == w[..i] + [wt];
        SumAppend(w[..i], wt);
      }
      assert w[..|given|] == w[..];
      weights, currentWeight, totalWeight := w, c, total;
      picks, k := Zeros(|given|), 0;
      new;
      assert At() == Start(|given|);
      if totalWeight > 0 { StartBalanced(weights[..]); }
    }

    /** One selection; nothing is selected from an empty list, a list of another length or without weights. */
    method Select<T>(list: seq<T>) returns (r: Option<T>, ghost m: nat)
      requires Valid()
      modifies this, currentWeight
      ensures Valid()
      ensures r == None <==> list == [] || |list| != weights.Length || totalWeight <= 0
      ensures r == None ==> At() == old(At())
      ensures r != None ==> m < |list| && r == Some(list[m]) && Next(weights[..], old(At()), At(), m) && weights[m] > 0
    {
      m := 0;
      if |list| == 0 { return None, 0; }
      if |list| != weights.Length { return None, 0; }
      if totalWeight <= 0 { return None, 0; }
      ghost var w, s := weights[..], At();
      assert |s.cur| == |s.picks| == |w|;
      var maxIdx := Raise();
      hide Balanced, Sum, FirstMax;
      currentWeight[maxIdx] := currentWeight[maxIdx] - totalWeight;
      picks, k := picks[maxIdx := picks[maxIdx] + 1], k + 1;
      assert currentWeight[..] == Raised(w, s.cur)[maxIdx := Raised(w, s.cur)[maxIdx] - totalWeight];
      assert Next(w, s, At(), maxIdx);
      NextBalanced(w, s, At(), maxIdx);
      return Some(list[maxIdx]), maxIdx;
    }

    /** The selection loop: raises all current weights and finds the first greatest. */
    method Raise() returns (maxIdx: int)
      requires weights.Length == currentWeight.Length > 0 && weights != currentWeight
      modifies currentWeight
      ensures 0 <= maxIdx < weights.Length
      ensures currentWeight[..] == Raised(weights[..], old(currentWeight[..])) && FirstMax(currentWeight[..], maxIdx)
    {
      maxIdx := -1;
      for i := 0 to weights.Length
        invariant -1 <= maxIdx < i && (maxIdx == -1 <==> i == 0)
        invariant forall j :: 0 <= j < i ==> currentWeight[j] == old(currentWeight[j]) + weights[j]
        invariant forall j :: i <= j < weights.Length ==> currentWeight[j] == old(currentWeight[j])
        invariant maxIdx >= 0 ==> forall j :: 0 <= j < i ==> currentWeight[j] <= currentWeight[maxIdx]
        invariant forall j :: 0 <= j < maxIdx ==> currentWeight[j] < currentWeight[maxIdx]
      {
        currentWeight[i] := currentWeight[i] + weights[i];
        if maxIdx == -1 || currentWeight[i] > currentWeight[maxIdx] { maxIdx := i; }
      }
    }
  }

  lemma {:induction false} SumAppend(s: seq<int>, x: int)
    ensures Sum(s + [x]) == Sum(s) + x
    decreases |s|
  {
    if s == [] {
      assert (s + [x])[1..] == [];
    } else {
      assert (s + [x])[1..] == s[1..] + [x];
      SumAppend(s[1..], x);
    }
  }
}
