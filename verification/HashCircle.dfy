/**
 Scores on a circle: distances clockwise, the next score from a point, the previous one, and which
 points have a given score as their next.
 */
module HashCircle {
  /** The largest 32-bit integer is the length of the circle. */
  const M: int := 0x7FFF_FFFF

  type Score = x: int | 0 <= x < M

  /** How far it is clockwise from a to b. */
  function Dist(a: Score, b: Score): (d: nat)
    ensures d < M
  {
    if a <= b then b - a else b - a + M
  }

  function Incr(s: Score): Score { if s == M - 1 then 0 else s + 1 }

  function Decr(s: Score): Score { if s == 0 then M - 1 else s - 1 }

  /** c is the first score met clockwise from s on, s included. */
  ghost predicate IsCeil(keys: set<Score>, s: Score, c: Score) {
    c in keys && forall k :: k in keys ==> Dist(s, c) <= Dist(s, k)
  }

  /** c is the first score met counter-clockwise from s on, s included. */
  ghost predicate IsFloor(keys: set<Score>, s: Score, c: Score) {
    c in keys && forall k :: k in keys ==> Dist(c, s) <= Dist(k, s)
  }

  lemma {:induction false} HasCeil(keys: set<Score>, s: Score)
    requires keys != {}
    ensures exists c :: IsCeil(keys, s, c)
    decreases |keys|
  {
    var k :| k in keys;
    if keys == {k} {
      assert IsCeil(keys, s, k);
    } else {
      var rest := keys - {k};
      assert keys == rest + {k};
      HasCeil(rest, s);
      var c :| IsCeil(rest, s, c);
      assert IsCeil(keys, s, if Dist(s, k) < Dist(s, c) then k else c);
    }
  }

  ghost function Ceil(keys: set<Score>, s: Score): (c: Score)
    requires keys != {}
    ensures IsCeil(keys, s, c)
  {
    HasCeil(keys, s);
    var c :| IsCeil(keys, s, c);
    c
  }

  lemma CeilIs(keys: set<Score>, s: Score, c: Score)
    requires IsCeil(keys, s, c)
    ensures keys != {} && Ceil(keys, s) == c
  {
  }

  // ---------------------------------------------------------------- the arc of one score

  /** The score before v, if there is another one at all. */
  ghost predicate IsLast(keys: set<Score>, v: Score, last: Score) {
    last in keys && last != v && forall k :: k in keys && k != v ==> Dist(last, v) <= Dist(k, v)
  }

  /** The floor of the point before v is the score before v, or v itself if v is alone. */
  lemma FloorBefore(keys: set<Score>, v: Score, last: Score)
    requires v in keys && IsFloor(keys, Decr(v), last)
    ensures last != v ==> IsLast(keys, v, last)
    ensures last == v ==> keys == {v}
  {
  }

  /** Without v, the points of its arc go to the score after it. */
  lemma ArcGoesOn(keys: set<Score>, v: Score, next: Score, s: Score)
    requires v in keys && IsCeil(keys, Incr(v), next) && next != v && IsCeil(keys, s, v)
    ensures IsCeil(keys - {v}, s, next)
  {
  }

  lemma CeilAfter(keys: set<Score>, v: Score, next: Score)
    requires v in keys && IsCeil(keys, Incr(v), next)
    ensures next == v ==> keys == {v}
  {
  }

  /** Points outside the arc of v do not notice whether v is there. */
  lemma ArcOutside(keys: set<Score>, v: Score, s: Score, c: Score)
    requires c != v
    ensures IsCeil(keys, s, c) ==> IsCeil(keys - {v}, s, c)
    ensures IsCeil(keys - {v}, s, c) && v in keys && !IsCeil(keys, s, v) ==> IsCeil(keys, s, c)
  {
  }

  // ---------------------------------------------------------------- the arithmetic of migration

  /** Whether a data score is taken over by a new virtual node at v, as migrateIn computes it. */
  function TakenOver(lastScore: Score, v: Score, nextScore: Score, dataScore: Score): bool {
    var patternOne := lastScore > v;
    var patternTwo := nextScore < v;
    var last := (if patternOne then lastScore - M else lastScore) - (if patternTwo then M else 0);
    var virtual := if patternTwo then v - M else v;
    var shifted := if patternOne && dataScore > last + M then dataScore - M else dataScore;
    var data := if patternTwo then shifted - M else shifted;
    !(data <= last || data > virtual)
  }

  lemma TakenOverIsArc(keys: set<Score>, last: Score, v: Score, next: Score, s: Score)
    requires v in keys && IsLast(keys, v, last) && IsCeil(keys, Incr(v), next) && next != v
    ensures TakenOver(last, v, next, s) <==> IsCeil(keys, s, v)
  {
  }

  /** Whether a data score is given up when the virtual node at v goes, as migrateOut computes it. */
  function GivenUp(lastScore: Score, v: Score, dataScore: Score): bool {
    var pattern := lastScore > v;
    var last := if pattern then lastScore - M else lastScore;
    var data := if pattern && dataScore > last + M then dataScore - M else dataScore;
    !(data <= last || data > v)
  }

  lemma GivenUpIsArc(keys: set<Score>, last: Score, v: Score, s: Score)
    requires v in keys && IsLast(keys, v, last)
    ensures GivenUp(last, v, s) <==> IsCeil(keys, s, v)
  {
  }
}
