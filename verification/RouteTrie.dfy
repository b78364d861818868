/**
 The route trie: children of a node have different parts; a search tries the child with the very segment
 first, then the wild ones, and backtracks.
 */
module RouteTrie {
  import opened Basics
  import opened RouteParts

  datatype Node = Node(pattern: string, part: string, children: seq<Node>)

  // ---------------------------------------------------------------- the operations

  /** The index of the child with a part, or the number of children. */
  function MatchChild(cs: seq<Node>, part: string): (i: nat)
    ensures i <= |cs| && (forall j :: 0 <= j < i ==> cs[j].part != part) && (i < |cs| ==> cs[i].part == part)
  {
    if cs == [] then 0 else if cs[0].part == part then 0 else 1 + MatchChild(cs[1..], part)
  }

  function Insert(n: Node, pattern: string, ps: Parts): (m: Node)
    ensures m.part == n.part
    decreases |ps|
  {
    if ps == [] then n.(pattern := pattern)
    else
      var i := MatchChild(n.children, ps[0]);
      if i == |n.children| then
        n.(children := n.children + [Insert(Node("", ps[0], []), pattern, ps[1..])])
      else
        n.(children := n.children[i := Insert(n.children[i], pattern, ps[1..])])
  }

  function Exact(cs: seq<Node>, part: string): seq<Node> {
    if cs == [] then [] else if cs[0].part == part then [cs[0]] + Exact(cs[1..], part) else Exact(cs[1..], part)
  }

  function Wild(cs: seq<Node>, part: string): seq<Node> {
    if cs == [] then []
    else if cs[0].part != part && IsWild(cs[0].part) then [cs[0]] + Wild(cs[1..], part)
    else Wild(cs[1..], part)
  }

  /** The children to try for a segment, in order. */
  function MatchChildren(cs: seq<Node>, part: string): seq<Node> { Exact(cs, part) + Wild(cs, part) }

  /** The pattern of the node found. */
  function Search(n: Node, segs: Parts): Option<string>
    decreases |segs|, 0
  {
    if segs == [] || IsStar(n.part) then
      if n.pattern == "" then None else Some(n.pattern)
    else SearchAny(MatchChildren(n.children, segs[0]), segs[1..])
  }

  function SearchAny(cs: seq<Node>, segs: Parts): Option<string>
    decreases |segs|, 1 + |cs|
  {
    if cs == [] then None
    else
      var r := Search(cs[0], segs);
      if r.Some? then r else SearchAny(cs[1..], segs)
  }

  // ---------------------------------------------------------------- what a trie holds

  /** The trie has pattern p at the end of path qs. */
  predicate Holds(n: Node, qs: Parts, p: string)
    decreases |qs|
  {
    if qs == [] then n.pattern == p && p != ""
    else exists c :: c in n.children && c.part == qs[0] && Holds(c, qs[1..], p)
  }

  ghost predicate UniqueParts(cs: seq<Node>) {
    forall i, j :: 0 <= i < j < |cs| ==> cs[i].part != cs[j].part
  }

  /** Different children have different parts, nonempty ones, and nothing is below a wildcard. */
  ghost predicate NodeOk(n: Node) {
    && UniqueParts(n.children) && (IsStar(n.part) ==> n.children == [])
    && forall c :: c in n.children ==> c.part != "" && NodeOk(c)
  }

  lemma {:induction false} InsertOk(n: Node, pattern: string, ps: Parts)
    requires NodeOk(n) && Proper(ps) && (IsStar(n.part) ==> ps == [])
    ensures NodeOk(Insert(n, pattern, ps))
    decreases |ps|
  {
    if ps != [] {
      var i, m, rest := MatchChild(n.children, ps[0]), Insert(n, pattern, ps), ps[1..];
      assert forall j :: 0 <= j < |rest| ==> rest[j] == ps[j + 1];
      assert IsStar(ps[0]) ==> rest == [];
      if i == |n.children| {
        InsertOk(Node("", ps[0], []), pattern, rest);
      } else {
        assert n.children[i] in n.children;
        InsertOk(n.children[i], pattern, rest);
      }
      forall c | c in m.children ensures c.part != "" && NodeOk(c) {
        var j :| 0 <= j < |m.children| && m.children[j] == c;
        if j < |n.children| && j != i { assert c == n.children[j] && c in n.children; }
      }
    }
  }

  /** Inserting adds one pattern at its path and changes nothing else. */
  lemma {:induction false} InsertHolds(n: Node, pattern: string, ps: Parts, qs: Parts, p: string)
    requires NodeOk(n) && pattern != ""
    ensures Holds(Insert(n, pattern, ps), qs, p) <==> if qs == ps then p == pattern else Holds(n, qs, p)
    decreases |ps|
  {
    if ps != [] && qs != [] {
      var i, m := MatchChild(n.children, ps[0]), Insert(n, pattern, ps);
      if qs[0] != ps[0] {
        OtherChildren(n, m, i, qs, p);
      } else {
        var before := if i == |n.children| then Node("", ps[0], []) else n.children[i];
        assert i < |n.children| ==> before in n.children;
        InsertHolds(before, pattern, ps[1..], qs[1..], p);
        assert m.children[i] == Insert(before, pattern, ps[1..]);
        TheChild(m, i, qs, p);
        assert qs == ps <==> qs[1..] == ps[1..] by {
          assert qs == [qs[0]] + qs[1..] && ps == [ps[0]] + ps[1..];
        }
        if i < |n.children| {
          TheChild(n, i, qs, p);
        } else {
          assert !Holds(before, qs[1..], p);
        }
      }
    }
  }

  /** A path goes through the child with its first part. */
  lemma TheChild(n: Node, i: nat, qs: Parts, p: string)
    requires i < |n.children| && qs != [] && n.children[i].part == qs[0]
    requires forall j :: 0 <= j < |n.children| && j != i ==> n.children[j].part != qs[0]
    ensures Holds(n, qs, p) <==> Holds(n.children[i], qs[1..], p)
  {
  }

  lemma OtherChildren(n: Node, m: Node, i: nat, qs: Parts, p: string)
    requires i <= |n.children| && qs != []
    requires |m.children| == if i == |n.children| then i + 1 else |n.children|
    requires forall j :: 0 <= j < |n.children| && j != i ==> m.children[j] == n.children[j]
    requires m.children[i].part != qs[0] && (i < |n.children| ==> n.children[i].part != qs[0])
    ensures Holds(m, qs, p) <==> Holds(n, qs, p)
  {
  }

  // ---------------------------------------------------------------- searching

  lemma {:induction false} ExactAre(cs: seq<Node>, part: string)
    ensures forall c :: c in Exact(cs, part) <==> c in cs && c.part == part
    decreases |cs|
  {
    if cs != [] { ExactAre(cs[1..], part); }
  }

  lemma {:induction false} WildAre(cs: seq<Node>, part: string)
    ensures forall c :: c in Wild(cs, part) <==> c in cs && c.part != part && IsWild(c.part)
    decreases |cs|
  {
    if cs != [] { WildAre(cs[1..], part); }
  }

  lemma CandidatesAre(cs: seq<Node>, part: string)
    ensures forall c :: c in MatchChildren(cs, part) <==> c in cs && (c.part == part || IsWild(c.part))
  {
    ExactAre(cs, part);
    WildAre(cs, part);
  }

  /** The search tries all candidates. */
  lemma {:induction false} SearchAnyIs(cs: seq<Node>, segs: Parts)
    ensures match SearchAny(cs, segs)
            case Some(p) => exists c :: c in cs && Search(c, segs) == Some(p)
            case None => forall c :: c in cs ==> Search(c, segs) == None
    decreases |cs|
  {
    if cs != [] {
      SearchAnyIs(cs[1..], segs);
      if Search(cs[0], segs).Some? { assert cs[0] in cs; }
    }
  }

  /** What is found is held at a path that matches. */
  lemma {:induction false} SearchSound(n: Node, segs: Parts)
    requires Search(n, segs).Some?
    ensures var p := Search(n, segs).value;
            if IsStar(n.part) then Holds(n, [], p) else exists qs :: Holds(n, qs, p) && Matches(qs, segs)
    decreases |segs|
  {
    var p := Search(n, segs).value;
    if segs == [] || IsStar(n.part) {
      assert Holds(n, [], p) && (segs == [] ==> Matches([], segs));
    } else {
      var cs := MatchChildren(n.children, segs[0]);
      SearchAnyIs(cs, segs[1..]);
      var c :| c in cs && Search(c, segs[1..]) == Some(p);
      CandidatesAre(n.children, segs[0]);
      SearchSound(c, segs[1..]);
      var rest :| Holds(c, rest, p) && (IsStar(c.part) || Matches(rest, segs[1..]));
      var qs := [c.part] + rest;
      assert qs[1..] == rest;
      assert Holds(n, qs, p) && (c.part != "" ==> Matches(qs, segs));
      assert c.part == "" ==> segs[0] == "" && Matches(qs, segs);
    }
  }

  /** If a path that matches is held, something is found. */
  lemma {:induction false} SearchComplete(n: Node, segs: Parts, qs: Parts, p: string)
    requires NodeOk(n) && Holds(n, qs, p) && (if IsStar(n.part) then qs == [] else Matches(qs, segs))
    ensures Search(n, segs).Some?
    decreases |segs|
  {
    if segs != [] && !IsStar(n.part) {
      var cs := MatchChildren(n.children, segs[0]);
      var c :| c in n.children && c.part == qs[0] && Holds(c, qs[1..], p);
      CandidatesAre(n.children, segs[0]);
      assert c in cs;
      if IsStar(c.part) {
        assert qs[1..] == [] by { StarIsLast(c, qs[1..], p); }
      }
      SearchComplete(c, segs[1..], qs[1..], p);
      SearchAnyIs(cs, segs[1..]);
    }
  }

  lemma StarIsLast(c: Node, qs: Parts, p: string)
    requires NodeOk(c) && IsStar(c.part) && Holds(c, qs, p)
    ensures qs == []
  {
  }
}
