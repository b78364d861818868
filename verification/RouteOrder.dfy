/**
 Which of several matching patterns a search finds: at the first segment where two of them differ, one that
 has the very segment goes before a wild one, and of two wild ones the one whose beginning was registered first.
 */
module RouteOrder {
  import opened Basics
  import opened RouteParts
  import opened RouteTrie

  // ---------------------------------------------------------------- the order of registration

  /** Some registered pattern begins like this. */
  ghost predicate Seen(l: seq<Parts>, a: Parts) { exists i :: 0 <= i < |l| && a <= l[i] }

  /** The pattern at i begins with a, and none up to there with b. */
  ghost predicate BeforeAt(l: seq<Parts>, a: Parts, b: Parts, i: nat) {
    i < |l| && a <= l[i] && forall j :: 0 <= j <= i ==> !(b <= l[j])
  }

  /** A pattern that begins with a was registered before any that begins with b. */
  ghost predicate Before(l: seq<Parts>, a: Parts, b: Parts) { exists i: nat :: BeforeAt(l, a, b, i) }

  /** At the first segment where they differ, qs goes before rs. */
  ghost predicate BetterAt(l: seq<Parts>, segs: Parts, qs: Parts, rs: Parts, k: nat) {
    && k < |qs| && k < |rs| && k < |segs| && qs[..k] == rs[..k] && qs[k] != rs[k]
    && (qs[k] == segs[k] || (rs[k] != segs[k] && Before(l, qs[..k + 1], rs[..k + 1])))
  }

  ghost predicate Better(l: seq<Parts>, segs: Parts, qs: Parts, rs: Parts) {
    exists k: nat :: BetterAt(l, segs, qs, rs, k)
  }

  /** Of two different patterns, not each goes before the other. */
  lemma BetterIsStrict(l: seq<Parts>, segs: Parts, qs: Parts, rs: Parts)
    requires Better(l, segs, qs, rs)
    ensures !Better(l, segs, rs, qs)
  {
  }

  /** Nothing goes before the pattern that has all the segments themselves. */
  lemma VeryPathIsBest(l: seq<Parts>, segs: Parts, qs: Parts)
    ensures !Better(l, segs, qs, segs)
  {
  }

  /** The patterns that begin with a part, without it. */
  function Tails(l: seq<Parts>, part: string): seq<Parts> {
    if l == [] then []
    else
      var rest := Tails(l[..|l| - 1], part);
      var ps := l[|l| - 1];
      if ps != [] && ps[0] == part then rest + [ps[1..]] else rest
  }

  lemma {:induction false} TailsSeen(l: seq<Parts>, part: string, a: Parts)
    ensures Seen(Tails(l, part), a) <==> Seen(l, [part] + a)
    decreases |l|
  {
    if l != [] {
      var before, ps := l[..|l| - 1], l[|l| - 1];
      TailsSeen(before, part, a);
      SeenMore(before, ps, [part] + a);
      SeenMore(Tails(before, part), if ps != [] then ps[1..] else [], a);
      assert l == before + [ps];
      PrefixStep(part, a, ps);
    }
  }

  lemma PrefixStep(part: string, a: Parts, ps: Parts)
    ensures [part] + a <= ps <==> ps != [] && ps[0] == part && a <= ps[1..]
  {
    if ps != [] && ps[0] == part && a <= ps[1..] {
      assert ps == [ps[0]] + ps[1..];
    }
    if [part] + a <= ps {
      assert ([part] + a)[1..] == a && ps[..|a| + 1][1..] == ps[1..][..|a|];
    }
  }

  lemma SeenMore(l: seq<Parts>, ps: Parts, a: Parts)
    ensures Seen(l + [ps], a) <==> Seen(l, a) || a <= ps
  {
    if Seen(l, a) {
      var i :| 0 <= i < |l| && a <= l[i];
      assert (l + [ps])[i] == l[i];
    }
    assert (l + [ps])[|l|] == ps;
  }

  lemma BeforeMore(l: seq<Parts>, ps: Parts, a: Parts, b: Parts)
    requires Before(l, a, b)
    ensures Before(l + [ps], a, b)
  {
    var i: nat :| BeforeAt(l, a, b, i);
    assert forall j :: 0 <= j <= i ==> (l + [ps])[j] == l[j];
    assert BeforeAt(l + [ps], a, b, i);
  }

  /** What is new comes after what was seen. */
  lemma BeforeNew(l: seq<Parts>, a: Parts, b: Parts)
    requires Seen(l, a) && !Seen(l, b)
    ensures Before(l, a, b)
  {
    var i :| 0 <= i < |l| && a <= l[i];
    assert BeforeAt(l, a, b, i);
  }

  /** Order among the tails is order among the patterns. */
  lemma {:induction false} TailsBefore(l: seq<Parts>, part: string, a: Parts, b: Parts)
    requires Before(Tails(l, part), a, b)
    ensures Before(l, [part] + a, [part] + b)
    decreases |l|
  {
    var before, ps := l[..|l| - 1], l[|l| - 1];
    assert l == before + [ps];
    var ts, rest := Tails(l, part), Tails(before, part);
    var i: nat :| BeforeAt(ts, a, b, i);
    if i < |rest| {
      assert forall j :: 0 <= j <= i ==> ts[j] == rest[j];
      assert BeforeAt(rest, a, b, i);
      TailsBefore(before, part, a, b);
      BeforeMore(before, ps, [part] + a, [part] + b);
    } else {
      assert ts == rest + [ps[1..]];
      PrefixStep(part, a, ps);
      PrefixStep(part, b, ps);
      assert !Seen(rest, b) by {
        assert forall j :: 0 <= j < |rest| ==> ts[j] == rest[j];
      }
      TailsSeen(before, part, b);
      assert forall j :: 0 <= j < |before| ==> l[j] == before[j];
      assert BeforeAt(l, [part] + a, [part] + b, |before|);
    }
  }

  // ---------------------------------------------------------------- tries in that order

  ghost predicate HasPart(cs: seq<Node>, x: string) { exists c :: c in cs && c.part == x }

  /** The children's parts are those that were seen. */
  ghost predicate PartsSeen(cs: seq<Node>, l: seq<Parts>) {
    forall x {:trigger Seen(l, [x])} {:trigger HasPart(cs, x)} :: Seen(l, [x]) <==> HasPart(cs, x)
  }

  /** They stand in the order in which they were seen. */
  ghost predicate PartsInOrder(cs: seq<Node>, l: seq<Parts>) {
    forall i, j :: 0 <= i < j < |cs| ==> Before(l, [cs[i].part], [cs[j].part])
  }

  /** Children stand in the order in which their beginnings were registered, at every node. */
  ghost predicate Ordered(n: Node, l: seq<Parts>) {
    && PartsSeen(n.children, l) && PartsInOrder(n.children, l)
    && forall c :: c in n.children ==> Ordered(c, Tails(l, c.part))
  }

  lemma EmptyOrdered(pattern: string, part: string)
    ensures Ordered(Node(pattern, part, []), [])
  {
  }

  lemma TailsMore(l: seq<Parts>, ps: Parts, part: string)
    ensures Tails(l + [ps], part) == if ps != [] && ps[0] == part then Tails(l, part) + [ps[1..]] else Tails(l, part)
  {
    assert (l + [ps])[..|l|] == l;
  }

  lemma SeenAny(l: seq<Parts>)
    ensures Seen(l, []) <==> l != []
  {
    if l != [] { assert [] <= l[0]; }
  }

  /** Nothing is below a part that was not seen. */
  lemma NoTails(l: seq<Parts>, part: string)
    requires !Seen(l, [part])
    ensures Tails(l, part) == []
  {
    TailsSeen(l, part, []);
    assert [part] + [] == [part];
    SeenAny(Tails(l, part));
  }

  /** Registering a further pattern keeps the order. */
  lemma {:induction false} InsertOrdered(n: Node, l: seq<Parts>, pattern: string, ps: Parts)
    requires Ordered(n, l)
    ensures Ordered(Insert(n, pattern, ps), l + [ps])
    decreases |ps|
  {
    hide PartsSeen, PartsInOrder;
    if ps == [] {
      forall c | c in n.children ensures Ordered(c, Tails(l + [ps], c.part)) { TailsMore(l, ps, c.part); }
      SamePartsOrdered(n.children, n.children, l, ps);
    } else {
      var i, m := MatchChild(n.children, ps[0]), Insert(n, pattern, ps);
      InsertChildren(n, l, pattern, ps, i);
      InsertParts(n, pattern, ps, i);
      if i < |n.children| {
        SamePartsOrdered(n.children, m.children, l, ps);
      } else {
        NewPartOrdered(n.children, m.children, l, ps);
      }
    }
  }

  lemma SeenFirst(l: seq<Parts>, ps: Parts, x: string)
    ensures Seen(l + [ps], [x]) <==> Seen(l, [x]) || (ps != [] && ps[0] == x)
  {
    SeenMore(l, ps, [x]);
    PrefixStep(x, [], ps);
    assert [x] + [] == [x];
  }

  lemma SameParts(cs: seq<Node>, ds: seq<Node>, x: string)
    requires |ds| == |cs| && forall j :: 0 <= j < |cs| ==> ds[j].part == cs[j].part
    ensures HasPart(cs, x) <==> HasPart(ds, x)
  {
    if HasPart(cs, x) {
      var j :| 0 <= j < |cs| && cs[j].part == x;
      assert ds[j] in ds;
    }
    if HasPart(ds, x) {
      var j :| 0 <= j < |ds| && ds[j].part == x;
      assert cs[j] in cs;
    }
  }

  /** A pattern that begins with a known part changes nothing. */
  lemma SamePartsOrdered(cs: seq<Node>, ds: seq<Node>, l: seq<Parts>, ps: Parts)
    requires PartsSeen(cs, l) && PartsInOrder(cs, l) && (ps != [] ==> HasPart(cs, ps[0]))
    requires |ds| == |cs| && forall j :: 0 <= j < |cs| ==> ds[j].part == cs[j].part
    ensures PartsSeen(ds, l + [ps]) && PartsInOrder(ds, l + [ps])
  {
    hide Seen, Before, HasPart;
    forall x ensures Seen(l + [ps], [x]) <==> HasPart(ds, x) {
      SeenFirst(l, ps, x);
      SameParts(cs, ds, x);
    }
    forall i, j | 0 <= i < j < |ds| ensures Before(l + [ps], [ds[i].part], [ds[j].part]) {
      BeforeMore(l, ps, [cs[i].part], [cs[j].part]);
    }
  }

  /** A part that is new goes to the end. */
  lemma NewPartOrdered(cs: seq<Node>, ds: seq<Node>, l: seq<Parts>, ps: Parts)
    requires PartsSeen(cs, l) && PartsInOrder(cs, l) && ps != [] && !HasPart(cs, ps[0])
    requires |ds| == |cs| + 1 && ds[|cs|].part == ps[0] && forall j :: 0 <= j < |cs| ==> ds[j].part == cs[j].part
    ensures PartsSeen(ds, l + [ps]) && PartsInOrder(ds, l + [ps])
  {
    hide Seen, Before;
    var es := ds[..|cs|];
    forall x ensures Seen(l + [ps], [x]) <==> HasPart(ds, x) {
      SeenFirst(l, ps, x);
      SameParts(cs, es, x);
      assert ds == es + [ds[|cs|]];
    }
    forall i, j | 0 <= i < j < |ds| ensures Before(l + [ps], [ds[i].part], [ds[j].part]) {
      assert cs[i] in cs;
      assert HasPart(cs, cs[i].part);
      if j == |cs| { BeforeNew(l, [cs[i].part], [ps[0]]); }
      BeforeMore(l, ps, [ds[i].part], [ds[j].part]);
    }
  }

  lemma InsertChildren(n: Node, l: seq<Parts>, pattern: string, ps: Parts, i: nat)
    requires Ordered(n, l) && ps != [] && i == MatchChild(n.children, ps[0])
    ensures var m := Insert(n, pattern, ps); forall c :: c in m.children ==> Ordered(c, Tails(l + [ps], c.part))
    decreases |ps|, 0
  {
    hide Seen, Before, Tails, PartsInOrder;
    var m := Insert(n, pattern, ps);
    PartsDiffer(n, l);
    var before := if i == |n.children| then Node("", ps[0], []) else n.children[i];
    if i == |n.children| {
      assert !HasPart(n.children, ps[0]);
      NoTails(l, ps[0]);
      EmptyOrdered("", ps[0]);
    } else {
      assert before in n.children;
    }
    InsertOrdered(before, Tails(l, ps[0]), pattern, ps[1..]);
    TailsMore(l, ps, ps[0]);
    forall c | c in m.children ensures Ordered(c, Tails(l + [ps], c.part)) {
      var j :| 0 <= j < |m.children| && m.children[j] == c;
      TailsMore(l, ps, c.part);
      if j != i { assert c == n.children[j] && c in n.children; }
    }
  }

  lemma PartsDiffer(n: Node, l: seq<Parts>)
    requires Ordered(n, l)
    ensures UniqueParts(n.children)
  {
    forall i, j | 0 <= i < j < |n.children| ensures n.children[i].part != n.children[j].part {
      assert Before(l, [n.children[i].part], [n.children[j].part]);
    }
  }

  lemma InsertParts(n: Node, pattern: string, ps: Parts, i: nat)
    requires ps != [] && i == MatchChild(n.children, ps[0])
    ensures var m := Insert(n, pattern, ps);
            && |m.children| == (if i == |n.children| then i + 1 else |n.children|)
            && m.children[i].part == ps[0] && (i < |n.children| <==> HasPart(n.children, ps[0]))
            && forall j :: 0 <= j < |n.children| ==> m.children[j].part == n.children[j].part
  {
  }

  // ---------------------------------------------------------------- what a search prefers

  lemma {:induction false} SearchAnyFirst(cs: seq<Node>, segs: Parts) returns (i: nat)
    requires SearchAny(cs, segs).Some?
    ensures i < |cs| && Search(cs[i], segs) == SearchAny(cs, segs)
    ensures forall j :: 0 <= j < i ==> Search(cs[j], segs) == None
    decreases |cs|
  {
    if Search(cs[0], segs).Some? {
      i := 0;
    } else {
      var k := SearchAnyFirst(cs[1..], segs);
      i := k + 1;
    }
  }

  /** Wild children are tried in the order in which they stand. */
  lemma {:induction false} WildOrder(cs: seq<Node>, part: string, i: nat, j: nat) returns (a: nat, b: nat)
    requires i < j < |Wild(cs, part)|
    ensures a < b < |cs| && cs[a] == Wild(cs, part)[i] && cs[b] == Wild(cs, part)[j]
    decreases |cs|
  {
    if cs[0].part != part && IsWild(cs[0].part) {
      if i == 0 {
        WildAre(cs[1..], part);
        assert Wild(cs[1..], part)[j - 1] in Wild(cs[1..], part);
        var k :| 0 <= k < |cs[1..]| && cs[1..][k] == Wild(cs[1..], part)[j - 1];
        a, b := 0, k + 1;
      } else {
        var x, y := WildOrder(cs[1..], part, i - 1, j - 1);
        a, b := x + 1, y + 1;
      }
    } else {
      var x, y := WildOrder(cs[1..], part, i, j);
      a, b := x + 1, y + 1;
    }
  }

  /** A candidate that is tried earlier has the very segment, or both are wild and it was registered first. */
  lemma CandidatesOrdered(n: Node, l: seq<Parts>, part: string, i: nat, j: nat)
    requires Ordered(n, l) && i < j < |MatchChildren(n.children, part)|
    ensures var cs := MatchChildren(n.children, part);
            cs[j].part != part && (cs[i].part == part || Before(l, [cs[i].part], [cs[j].part]))
  {
    hide Exact, Wild, Before, PartsSeen;
    var cs, e, w := MatchChildren(n.children, part), Exact(n.children, part), Wild(n.children, part);
    ExactAre(n.children, part);
    WildAre(n.children, part);
    PartsDiffer(n, l);
    ExactOne(n.children, part);
    assert i < |e| ==> cs[i] in e;
    assert cs[j] == w[j - |e|] && cs[j] in w;
    if i >= |e| {
      var a, b := WildOrder(n.children, part, i - |e|, j - |e|);
    }
  }

  lemma {:induction false} ExactOne(cs: seq<Node>, part: string)
    requires UniqueParts(cs)
    ensures |Exact(cs, part)| <= 1
    decreases |cs|
  {
    if cs != [] {
      ExactOne(cs[1..], part);
      ExactAre(cs[1..], part);
      assert forall c :: c in cs[1..] ==> c.part != cs[0].part;
      assert Exact(cs[1..], part) != [] ==> Exact(cs[1..], part)[0] in cs[1..];
    }
  }

  ghost predicate Leads(n: Node, qs: Parts, segs: Parts) { if IsStar(n.part) then qs == [] else Matches(qs, segs) }

  /** What is found goes before every other pattern that matches. */
  lemma {:induction false} SearchBest(n: Node, l: seq<Parts>, segs: Parts) returns (qs: Parts)
    requires NodeOk(n) && Ordered(n, l) && Search(n, segs).Some?
    ensures Holds(n, qs, Search(n, segs).value) && Leads(n, qs, segs)
    ensures forall rs, r :: Holds(n, rs, r) && Leads(n, rs, segs) ==> rs == qs || Better(l, segs, qs, rs)
    decreases |segs|
  {
    if segs == [] || IsStar(n.part) {
      qs := [];
    } else {
      var cs := MatchChildren(n.children, segs[0]);
      var i := SearchAnyFirst(cs, segs[1..]);
      var c := cs[i];
      CandidatesAre(n.children, segs[0]);
      assert c in cs;
      var rest := SearchBest(c, Tails(l, c.part), segs[1..]);
      qs := [c.part] + rest;
      assert qs[1..] == rest;
      forall rs, r | Holds(n, rs, r) && Leads(n, rs, segs) ensures rs == qs || Better(l, segs, qs, rs) {
        BestOf(n, l, segs, i, rest, rs, r);
      }
    }
  }

  lemma BestOf(n: Node, l: seq<Parts>, segs: Parts, i: nat, rest: Parts, rs: Parts, r: string)
    requires NodeOk(n) && Ordered(n, l) && segs != [] && !IsStar(n.part) && i < |MatchChildren(n.children, segs[0])|
    requires Holds(n, rs, r) && Matches(rs, segs)
    requires var cs := MatchChildren(n.children, segs[0]);
             && (forall j :: 0 <= j < i ==> Search(cs[j], segs[1..]) == None)
             && forall ts, t :: Holds(cs[i], ts, t) && Leads(cs[i], ts, segs[1..]) ==>
                  ts == rest || Better(Tails(l, cs[i].part), segs[1..], rest, ts)
    ensures var qs := [MatchChildren(n.children, segs[0])[i].part] + rest; rs == qs || Better(l, segs, qs, rs)
  {
    hide Search, NodeOk, Ordered, Holds, Matches, MatchChildren, Better, Leads, Tails;
    var cs := MatchChildren(n.children, segs[0]);
    var j := HeldBelow(n, segs, rs, r);
    if j < i {
      EarlierFinds(cs[j], segs[1..], rs[1..], r);
    }
    assert rs == [rs[0]] + rs[1..];
    if j == i {
      if rs[1..] != rest { BetterStep(l, segs, cs[i].part, rest, rs[1..]); }
    } else {
      EarlierIsBetter(n, l, segs, i, j, rest, rs[1..]);
    }
  }

  /** The candidate at which a matching pattern is held. */
  lemma HeldBelow(n: Node, segs: Parts, rs: Parts, r: string) returns (j: nat)
    requires NodeOk(n) && segs != [] && !IsStar(n.part) && Holds(n, rs, r) && Matches(rs, segs)
    ensures var cs := MatchChildren(n.children, segs[0]);
            && j < |cs| && rs != [] && cs[j].part == rs[0] && NodeOk(cs[j])
            && Holds(cs[j], rs[1..], r) && Leads(cs[j], rs[1..], segs[1..])
  {
    hide NodeOk, MatchChildren;
    var cs := MatchChildren(n.children, segs[0]);
    var d :| d in n.children && d.part == rs[0] && Holds(d, rs[1..], r);
    CandidatesAre(n.children, segs[0]);
    assert d in cs;
    j :| 0 <= j < |cs| && cs[j] == d;
    ChildOk(n, d);
    if IsStar(d.part) { StarIsLast(d, rs[1..], r); }
  }

  lemma EarlierFinds(n: Node, segs: Parts, rs: Parts, r: string)
    requires NodeOk(n) && Holds(n, rs, r) && Leads(n, rs, segs)
    ensures Search(n, segs).Some?
  {
    SearchComplete(n, segs, rs, r);
  }

  lemma EarlierIsBetter(n: Node, l: seq<Parts>, segs: Parts, i: nat, j: nat, qs: Parts, rs: Parts)
    requires Ordered(n, l) && segs != [] && i < j < |MatchChildren(n.children, segs[0])|
    ensures var cs := MatchChildren(n.children, segs[0]); Better(l, segs, [cs[i].part] + qs, [cs[j].part] + rs)
  {
    hide Ordered, MatchChildren, Before;
    var cs := MatchChildren(n.children, segs[0]);
    var q, r := [cs[i].part] + qs, [cs[j].part] + rs;
    CandidatesOrdered(n, l, segs[0], i, j);
    PartsOfCandidates(n, l, segs[0], i, j);
    assert q[..1] == [cs[i].part] && r[..1] == [cs[j].part] && q[..0] == r[..0];
    assert BetterAt(l, segs, q, r, 0);
  }

  lemma ChildOk(n: Node, c: Node)
    requires NodeOk(n) && c in n.children
    ensures NodeOk(c)
  {
  }

  lemma PartsOfCandidates(n: Node, l: seq<Parts>, part: string, i: nat, j: nat)
    requires Ordered(n, l) && i < j < |MatchChildren(n.children, part)|
    ensures MatchChildren(n.children, part)[i].part != MatchChildren(n.children, part)[j].part
  {
    CandidatesOrdered(n, l, part, i, j);
  }

  lemma BetterStep(l: seq<Parts>, segs: Parts, part: string, qs: Parts, rs: Parts)
    requires segs != [] && Better(Tails(l, part), segs[1..], qs, rs)
    ensures Better(l, segs, [part] + qs, [part] + rs)
  {
    var k: nat :| BetterAt(Tails(l, part), segs[1..], qs, rs, k);
    var q, r := [part] + qs, [part] + rs;
    assert q[..k + 1] == [part] + qs[..k] && r[..k + 1] == [part] + rs[..k];
    assert q[..k + 2] == [part] + qs[..k + 1] && r[..k + 2] == [part] + rs[..k + 1];
    if qs[k] != segs[1..][k] { TailsBefore(l, part, qs[..k + 1], rs[..k + 1]); }
    assert BetterAt(l, segs, q, r, k + 1);
  }
}
