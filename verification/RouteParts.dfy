/**
 Route patterns and request paths as lists of segments: splitting at slashes, dropping empty segments and
 stopping behind a wildcard; and joining segments to a canonical pattern again.
 */
module RouteParts {

  type Parts = seq<string>

  /** Splitting at every slash, as strings.Split does. */
  function Split(s: string): (r: Parts)
    ensures |r| > 0
  {
    if s == "" then [""]
    else if s[0] == '/' then [""] + Split(s[1..])
    else var r := Split(s[1..]); [[s[0]] + r[0]] + r[1..]
  }

  function Join(ps: Parts): string {
    if ps == [] then "" else if |ps| == 1 then ps[0] else ps[0] + "/" + Join(ps[1..])
  }

  predicate IsStar(part: string) { part != "" && part[0] == '*' }

  predicate IsWild(part: string) { part != "" && (part[0] == ':' || part[0] == '*') }

  /** The segments that count: the nonempty ones up to the first wildcard. */
  function Filter(vs: Parts): Parts {
    if vs == [] then []
    else if vs[0] == "" then Filter(vs[1..])
    else if IsStar(vs[0]) then [vs[0]]
    else [vs[0]] + Filter(vs[1..])
  }

  function Parse(pattern: string): Parts { Filter(Split(pattern)) }

  method ParsePattern(pattern: string) returns (parts: Parts)
    ensures parts == Parse(pattern)
  {
    var vs := Split(pattern);
    parts := [];
    for i := 0 to |vs|
      invariant parts + Filter(vs[i..]) == Filter(vs)
    {
      assert vs[i..][1..] == vs[i + 1..];
      if vs[i] != "" {
        parts := parts + [vs[i]];
        if IsStar(vs[i]) { return; }
      }
    }
  }

  // ---------------------------------------------------------------- canonical patterns

  predicate PartOk(part: string) { part != "" && '/' !in part }

  /** Nonempty segments without slashes, a wildcard only at the end. */
  ghost predicate Proper(ps: Parts) {
    && (forall i :: 0 <= i < |ps| ==> PartOk(ps[i]))
    && (forall i :: 0 <= i < |ps| - 1 ==> !IsStar(ps[i]))
  }

  lemma {:induction false} SplitHasNoSlash(s: string)
    ensures forall i :: 0 <= i < |Split(s)| ==> '/' !in Split(s)[i]
    decreases |s|
  {
    if s != "" { SplitHasNoSlash(s[1..]); }
  }

  lemma {:induction false} FilterIsProper(vs: Parts)
    requires forall i :: 0 <= i < |vs| ==> '/' !in vs[i]
    ensures Proper(Filter(vs))
    decreases |vs|
  {
    if vs != [] {
      FilterIsProper(vs[1..]);
      if vs[0] != "" && !IsStar(vs[0]) {
        var r := [vs[0]] + Filter(vs[1..]);
        assert forall i :: 0 < i < |r| ==> r[i] == Filter(vs[1..])[i - 1];
      }
    }
  }

  lemma ParseIsProper(pattern: string)
    ensures Proper(Parse(pattern))
  {
    SplitHasNoSlash(pattern);
    FilterIsProper(Split(pattern));
  }

  lemma {:induction false} SplitPart(a: string, b: string)
    requires '/' !in a
    ensures Split(a + "/" + b) == [a] + Split(b)
    ensures Split(a) == [a]
    decreases |a|
  {
    if a == "" {
      assert a + "/" + b == "/" + b;
      assert ("/" + b)[1..] == b;
    } else {
      SplitPart(a[1..], b);
      assert (a + "/" + b)[1..] == a[1..] + "/" + b;
      assert [a[0]] + a[1..] == a;
    }
  }

  lemma {:induction false} JoinSplits(ps: Parts)
    requires Proper(ps) && ps != []
    ensures Filter(Split(Join(ps))) == ps
    decreases |ps|
  {
    SplitPart(ps[0], Join(ps[1..]));
    if |ps| == 1 {
      assert ps == [ps[0]];
    } else {
      assert forall i :: 0 <= i < |ps[1..]| ==> ps[1..][i] == ps[i + 1];
      JoinSplits(ps[1..]);
      assert ([ps[0]] + Split(Join(ps[1..])))[1..] == Split(Join(ps[1..]));
      assert ps == [ps[0]] + ps[1..];
    }
  }

  function Canonical(ps: Parts): string { "/" + Join(ps) }

  /** A canonical pattern parses back to its segments. */
  lemma RoundTrip(ps: Parts)
    requires Proper(ps)
    ensures Parse(Canonical(ps)) == ps
  {
    assert Canonical(ps)[1..] == Join(ps);
    assert ([""] + Split(Join(ps)))[1..] == Split(Join(ps));
    if ps != [] {
      JoinSplits(ps);
    } else {
      assert Split("") == [""];
      assert Filter([""]) == Filter([""][1..]);
    }
  }

  lemma CanonicalInjective(ps: Parts, qs: Parts)
    requires Proper(ps) && Proper(qs) && Canonical(ps) == Canonical(qs)
    ensures ps == qs
  {
    RoundTrip(ps);
    RoundTrip(qs);
  }

  // ---------------------------------------------------------------- matching

  /** A pattern matches segments one by one; a wildcard matches one or more to the end. */
  predicate Matches(ps: Parts, segs: Parts) {
    if ps == [] then segs == []
    else if segs == [] then false
    else if IsStar(ps[0]) then true
    else (ps[0] == segs[0] || IsWild(ps[0])) && Matches(ps[1..], segs[1..])
  }

  lemma {:induction false} MatchesLength(ps: Parts, segs: Parts)
    requires Proper(ps) && Matches(ps, segs)
    ensures |ps| <= |segs|
    decreases |ps|
  {
    if ps != [] && segs != [] {
      if IsStar(ps[0]) {
        assert |ps| == 1;
      } else {
        assert forall i :: 0 <= i < |ps[1..]| ==> ps[1..][i] == ps[i + 1];
        MatchesLength(ps[1..], segs[1..]);
      }
    }
  }
}
