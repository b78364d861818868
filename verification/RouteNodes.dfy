/**
 The trie as objects that are changed in place: inserting and searching agree with module RouteTrie.
 */
module RouteNodes {
  import opened Basics
  import opened RouteParts
  import opened RouteTrie

  class TrieNode {
    var pattern: string
    const part: string
    var children: seq<TrieNode>
    const isWild: bool
    /** This node and all below it. */
    ghost var Repr: set<TrieNode>

    ghost predicate Valid()
      reads this, Repr
      decreases Repr
    {
      && this in Repr && isWild == IsWild(part)
      && (forall c :: c in children ==> c in Repr && c.Repr < Repr && this !in c.Repr && c.Valid())
      && (forall i, j :: 0 <= i < j < |children| ==> children[i].Repr !! children[j].Repr)
    }

    /** The tree of values from this node on. */
    ghost function Tree(): Node
      requires Valid()
      reads this, Repr
      decreases Repr, 0
    {
      Node(pattern, part, Trees(children))
    }

    ghost function Trees(cs: seq<TrieNode>): (ts: seq<Node>)
      requires this in Repr && forall c :: c in cs ==> c in Repr && c.Repr < Repr && c.Valid()
      reads this, Repr
      ensures |ts| == |cs| && forall i :: 0 <= i < |cs| ==> ts[i] == cs[i].Tree()
      decreases Repr, 0, cs
    {
      if cs == [] then [] else [cs[0].Tree()] + Trees(cs[1..])
    }

    constructor (part: string)
      ensures Valid() && fresh(Repr) && this.part == part && Tree() == Node("", part, [])
    {
      this.part, pattern, children, isWild := part, "", [], IsWild(part);
      Repr := {this};
    }

    /** The index of the child with a part, or the number of children. */
    method Child(part: string) returns (i: nat)
      requires Valid()
      ensures i == MatchChild(Tree().children, part) <= |children|
    {
      i := 0;
      while i < |children| && children[i].part != part
        invariant 0 <= i <= |children| && forall j :: 0 <= j < i ==> children[j].part != part
      {
        i := i + 1;
      }
    }

    method Insert(pattern: string, parts: Parts, height: nat)
      requires Valid() && height <= |parts|
      modifies Repr
      ensures Valid() && fresh(Repr - old(Repr)) && old(Repr) <= Repr
      ensures Tree() == RouteTrie.Insert(old(Tree()), pattern, parts[height..])
      decreases |parts| - height, 0
    {
      hide Valid, Tree, RouteTrie.Insert, MatchChild;
      Apart(this);
      if |parts| == height {
        assert parts[height..] == [];
        InsertNothing(Tree(), pattern);
        SetPattern(pattern);
        return;
      }
      InsertStep(Tree(), pattern, parts, height);
      var part := parts[height];
      var i := Child(part);
      if i == |children| {
        var child := new TrieNode(part);
        child.Insert(pattern, parts, height + 1);
        Adopt(child);
      } else {
        InsertBelow(i, pattern, parts, height + 1);
      }
    }

    method SetPattern(pattern: string)
      requires Valid()
      modifies this`pattern
      ensures Valid() && Tree() == old(Tree()).(pattern := pattern)
    {
      hide Valid, Tree;
      ghost var t := Tree();
      Apart(this);
      this.pattern := pattern;
      assert forall c :: c in children ==> c.Valid() && c.Tree() == old(c.Tree());
      Together(this, t.children);
    }

    /** Appends a child that has nothing to do with this node yet. */
    method Adopt(child: TrieNode)
      requires Valid() && child.Valid() && child.Repr !! Repr
      modifies this
      ensures Valid() && Repr == old(Repr) + child.Repr
      ensures child.Valid() && Tree() == old(Tree()).(children := old(Tree()).children + [child.Tree()])
    {
      hide Valid, Tree;
      ghost var cs, t := children, Tree();
      Apart(this);
      Apart(child);
      children := children + [child];
      Repr := Repr + child.Repr;
      assert forall c :: c in cs ==> c.Valid() && c.Tree() == old(c.Tree());
      assert forall c :: c in children ==> c in cs || c == child;
      Together(this, t.children + [child.Tree()]);
    }

    /** Inserts below the i-th child; the others are not touched. */
    method InsertBelow(i: nat, pattern: string, parts: Parts, height: nat)
      requires Valid() && i < |children| && height <= |parts|
      modifies Repr
      ensures Valid() && fresh(Repr - old(Repr)) && old(Repr) <= Repr
      ensures |old(Tree()).children| == old(|children|)
      ensures Tree() == old(Tree()).(children :=
                old(Tree()).children[i := RouteTrie.Insert(old(Tree()).children[i], pattern, parts[height..])])
      decreases |parts| - height, 1
    {
      hide Valid, Tree, RouteTrie.Insert;
      ghost var t := Tree();
      Apart(this);
      Alone(this, i);
      var child := children[i];
      ghost var others := set j | 0 <= j < |children| && j != i :: children[j];
      child.Insert(pattern, parts, height);
      assert forall c :: c in others ==> c.Valid() && c.Tree() == old(c.Tree()) && c.Repr == old(c.Repr);
      Repr := Repr + child.Repr;
      assert forall j :: 0 <= j < |children| && j != i ==> children[j] in others;
      Together(this, t.children[i := child.Tree()]);
    }

    /** The children to try for a segment: the one with that very part, then the wild ones. */
    method Candidates(part: string) returns (cs: seq<TrieNode>)
      requires Valid()
      ensures forall c :: c in cs ==> c in children && c.Valid()
      ensures |cs| == |MatchChildren(Tree().children, part)|
      ensures forall i :: 0 <= i < |cs| ==> cs[i].Valid() && cs[i].Tree() == MatchChildren(Tree().children, part)[i]
    {
      hide Valid, Tree, Exact, Wild;
      Apart(this);
      ghost var ts := Tree().children;
      cs := [];
      NoneMatch(part);
      for i := 0 to |children|
        invariant forall c :: c in cs ==> c in children && c.Valid()
        invariant Same(cs, Exact(ts[..i], part))
      {
        assert ts[..i + 1] == ts[..i] + [ts[i]];
        ExactMore(ts[..i], ts[i], part);
        Apart(children[i]);
        if children[i].part == part { cs := cs + [children[i]]; }
      }
      assert ts[..|children|] == ts;
      ghost var exact := Exact(ts, part);
      for i := 0 to |children|
        invariant forall c :: c in cs ==> c in children && c.Valid()
        invariant Same(cs, exact + Wild(ts[..i], part))
      {
        assert ts[..i + 1] == ts[..i] + [ts[i]];
        WildMore(ts[..i], ts[i], part);
        Apart(children[i]);
        if children[i].part != part && children[i].isWild { cs := cs + [children[i]]; }
      }
    }

    method Search(parts: Parts, height: nat) returns (r: TrieNode?)
      requires Valid() && height <= |parts|
      ensures match RouteTrie.Search(Tree(), parts[height..])
              case None => r == null
              case Some(p) => r != null && r.pattern == p
      decreases |parts| - height
    {
      hide Valid, Tree, MatchChildren, SearchAny;
      Apart(this);
      if |parts| == height || (|this.part| > 0 && this.part[0] == '*') {
        if pattern == "" { return null; }
        return this;
      }
      var part := parts[height];
      assert parts[height..][0] == part && parts[height..][1..] == parts[height + 1..];
      var cs := Candidates(part);
      ghost var ts := MatchChildren(Tree().children, part);
      ghost var goal := SearchAny(ts, parts[height + 1..]);
      for i := 0 to |cs|
        invariant SearchAny(ts[i..], parts[height + 1..]) == goal
      {
        r := cs[i].Search(parts, height + 1);
        SearchAnyStep(ts[i..], parts[height + 1..]);
        assert ts[i..][1..] == ts[i + 1..];
        if r != null { return; }
      }
      SearchAnyStep(ts[|cs|..], parts[height + 1..]);
      return null;
    }
  }

  /** These nodes are these values. */
  ghost predicate Same(cs: seq<TrieNode>, ts: seq<Node>)
    requires forall c :: c in cs ==> c.Valid()
    reads cs, set c, x | c in cs && x in c.Repr :: x
  {
    |cs| == |ts| && forall i :: 0 <= i < |cs| ==> cs[i].Tree() == ts[i]
  }

  lemma NoneMatch(part: string)
    ensures Exact([], part) == [] && Wild([], part) == []
  {
  }

  lemma {:induction false} ExactMore(ts: seq<Node>, t: Node, part: string)
    ensures Exact(ts + [t], part) == if t.part == part then Exact(ts, part) + [t] else Exact(ts, part)
    decreases |ts|
  {
    if ts == [] {
      assert ts + [t] == [t];
    } else {
      assert (ts + [t])[1..] == ts[1..] + [t];
      ExactMore(ts[1..], t, part);
    }
  }

  lemma {:induction false} WildMore(ts: seq<Node>, t: Node, part: string)
    ensures Wild(ts + [t], part) == if t.part != part && IsWild(t.part) then Wild(ts, part) + [t] else Wild(ts, part)
    decreases |ts|
  {
    if ts == [] {
      assert ts + [t] == [t];
    } else {
      assert (ts + [t])[1..] == ts[1..] + [t];
      WildMore(ts[1..], t, part);
    }
  }

  lemma SearchAnyStep(ts: seq<Node>, segs: Parts)
    ensures SearchAny(ts, segs) ==
            if ts == [] then None
            else if RouteTrie.Search(ts[0], segs).Some? then RouteTrie.Search(ts[0], segs)
            else SearchAny(ts[1..], segs)
  {
  }

  /** What the parts of a valid node are. */
  lemma Apart(n: TrieNode)
    requires n.Valid()
    ensures n in n.Repr && n.isWild == IsWild(n.part)
    ensures forall c :: c in n.children ==> c in n.Repr && c.Repr < n.Repr && n !in c.Repr && c.Valid() && c in c.Repr
    ensures forall i, j :: 0 <= i < j < |n.children| ==> n.children[i].Repr !! n.children[j].Repr
    ensures n.Tree().pattern == n.pattern && n.Tree().part == n.part && |n.Tree().children| == |n.children|
    ensures forall i :: 0 <= i < |n.children| ==> n.Tree().children[i] == n.children[i].Tree()
  {
  }

  /** Valid children that are apart from each other make a valid node. */
  lemma Together(n: TrieNode, ts: seq<Node>)
    requires n in n.Repr && n.isWild == IsWild(n.part)
    requires forall c :: c in n.children ==> c in n.Repr && c.Repr < n.Repr && n !in c.Repr && c.Valid()
    requires forall i, j :: 0 <= i < j < |n.children| ==> n.children[i].Repr !! n.children[j].Repr
    requires |ts| == |n.children| && forall i :: 0 <= i < |ts| ==> ts[i] == n.children[i].Tree()
    ensures n.Valid() && n.Tree() == Node(n.pattern, n.part, ts)
  {
  }

  /** The other children share nothing with the i-th. */
  lemma Alone(n: TrieNode, i: nat)
    requires n.Valid() && i < |n.children|
    ensures forall j :: 0 <= j < |n.children| && j != i ==> n.children[j].Repr !! n.children[i].Repr
  {
  }

  lemma InsertNothing(n: Node, pattern: string)
    ensures RouteTrie.Insert(n, pattern, []) == n.(pattern := pattern)
  {
  }

  /** Inserting at a height, in terms of the parts from there on. */
  lemma InsertStep(n: Node, pattern: string, parts: Parts, height: nat)
    requires height < |parts|
    ensures var i := MatchChild(n.children, parts[height]);
            RouteTrie.Insert(n, pattern, parts[height..]) ==
            if i == |n.children| then
              n.(children := n.children + [RouteTrie.Insert(Node("", parts[height], []), pattern, parts[height + 1..])])
            else
              n.(children := n.children[i := RouteTrie.Insert(n.children[i], pattern, parts[height + 1..])])
  {
  }
}
