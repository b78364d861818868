/**
 The in-process hash ring: a skiplist of scores with the names at each score, the number of virtual nodes
 per node, and the record of data keys per node.
 */
module HashSkiplist {
  import opened HashNames
  import opened HashCircle
  import opened HashOwners

  class VirtualNode {
    const score: Score
    var nodeIDs: seq<string>
    var nexts: seq<VirtualNode?>

    constructor (score: Score, nodeIDs: seq<string>, height: nat)
      ensures this.score == score && this.nodeIDs == nodeIDs && nexts == seq(height, _ => null)
    {
      this.score, this.nodeIDs, nexts := score, nodeIDs, seq(height, _ => null);
    }
  }

  ghost predicate UniqueScores(s: set<VirtualNode>) {
    forall x, y :: x in s && y in s && x.score == y.score ==> x == y
  }

  class SkiplistHashRing {
    const root: VirtualNode
    var nodeToReplicas: map<string, nat>
    var nodeToDataKey: Data
    ghost var nodes: set<VirtualNode>
    ghost var ring: Ring

    /** x comes before y; the root before every node. */
    ghost predicate Before(x: VirtualNode, y: VirtualNode) { x == root || x.score < y.score }

    /** On level l, x is followed by the next node of s that is that tall. */
    ghost predicate LinkOk(s: set<VirtualNode>, x: VirtualNode, l: nat)
      requires l < |x.nexts|
      reads x, s
    {
      var n := x.nexts[l];
      if n == null then forall y :: y in s && Before(x, y) ==> |y.nexts| <= l
      else
        && n in s && Before(x, n) && l < |n.nexts|
        && forall y :: y in s && Before(x, y) && y.score < n.score ==> |y.nexts| <= l
    }

    ghost predicate LevelOk(s: set<VirtualNode>, l: nat)
      reads s, root
    {
      forall x {:trigger LinkOk(s, x, l)} :: x in s + {root} && l < |x.nexts| ==> LinkOk(s, x, l)
    }

    ghost predicate LevelsOk(s: set<VirtualNode>)
      reads s, root
    {
      forall l: nat {:trigger LevelOk(s, l)} :: LevelOk(s, l)
    }

    ghost predicate NodesOk(s: set<VirtualNode>)
      reads s, root
    {
      && root !in s
      && (forall x :: x in s ==> 1 <= |x.nexts| <= |root.nexts|)
      && UniqueScores(s)
    }

    /** The root is not taller than needed, so a ring without scores has no levels. */
    ghost predicate Trimmed(s: set<VirtualNode>)
      reads s, root
    {
      root.nexts == [] || exists x :: x in s && |x.nexts| == |root.nexts|
    }

    /** The nodes hold exactly the names of the ring. */
    ghost predicate Holds(s: set<VirtualNode>, r: Ring)
      reads s`nodeIDs
    {
      && (forall x :: x in s ==> x.score in r && r[x.score] == x.nodeIDs)
      && (forall v :: v in r ==> exists x :: x in s && x.score == v)
    }

    ghost predicate Valid()
      reads this`nodes, this`ring, nodes, root
    {
      NodesOk(nodes) && LevelsOk(nodes) && Holds(nodes, ring) && Trimmed(nodes)
    }

    constructor ()
      ensures Valid() && ring == map[] && nodeToReplicas == map[] && nodeToDataKey == map[] && fresh(root) && nodes == {}
    {
      root := new VirtualNode(0, [], 0);
      nodeToReplicas, nodeToDataKey, nodes, ring := map[], map[], {}, map[];
    }

    // -------------------------------------------------------------- searching

    ghost predicate At(x: VirtualNode, score: Score)
      reads this`nodes
    {
      x == root || (x in nodes && x.score < score)
    }

    /** Moves right on level l while the next score is smaller. */
    method Advance(start: VirtualNode, score: Score, l: nat) returns (x: VirtualNode)
      requires NodesOk(nodes) && LevelOk(nodes, l) && At(start, score) && l < |start.nexts|
      ensures At(x, score) && l < |x.nexts| && (x.nexts[l] != null ==> score <= x.nexts[l].score)
    {
      x := start;
      while x.nexts[l] != null && x.nexts[l].score < score
        invariant At(x, score) && l < |x.nexts|
        decreases set y | y in nodes && Before(x, y)
      {
        NextIsAfter(x, l);
        x := x.nexts[l];
      }
    }

    lemma NextIsNode(x: VirtualNode, l: nat)
      requires LevelOk(nodes, l) && (x == root || x in nodes) && l < |x.nexts| && x.nexts[l] != null
      ensures x.nexts[l] in nodes && l < |x.nexts[l].nexts|
    {
      assert LinkOk(nodes, x, l);
    }

    /** Down to level 0 by the levels: the last place before a score. */
    method Descend(score: Score) returns (x: VirtualNode)
      requires NodesOk(nodes) && LevelsOk(nodes) && 0 < |root.nexts|
      ensures At(x, score) && 0 < |x.nexts| && (x.nexts[0] != null ==> score <= x.nexts[0].score)
    {
      hide LinkOk;
      x := root;
      var l := |root.nexts|;
      while l > 0
        invariant 0 <= l <= |x.nexts| && At(x, score) && 0 < |x.nexts|
        invariant l == 0 ==> (x.nexts[0] != null ==> score <= x.nexts[0].score)
      {
        l := l - 1;
        assert LevelOk(nodes, l);
        x := Advance(x, score, l);
      }
    }

    /** Between a place and its successor on level 0 there is no score. */
    lemma GapOnLevelZero(x: VirtualNode, score: Score)
      requires NodesOk(nodes) && LevelOk(nodes, 0) && Holds(nodes, ring) && At(x, score) && 0 < |x.nexts|
      requires x.nexts[0] != null ==> score <= x.nexts[0].score
      ensures x.nexts[0] == null ==> forall v :: v in ring ==> v < score
      ensures x.nexts[0] != null ==> x.nexts[0].score in ring
      ensures x.nexts[0] != null ==> forall v :: v in ring && v >= score ==> x.nexts[0].score <= v
      ensures if x == root then forall v :: v in ring ==> v >= score
              else x.score in ring && forall v :: v in ring && v < score ==> v <= x.score
    {
      assert LinkOk(nodes, x, 0);
      forall v | v in ring
        ensures x.nexts[0] == null ==> v < score
        ensures x.nexts[0] != null && v >= score ==> x.nexts[0].score <= v
        ensures x == root ==> v >= score
        ensures x != root && v < score ==> v <= x.score
      {
        var y :| y in nodes && y.score == v;
      }
    }

    method Get(score: Score) returns (x: VirtualNode?)
      requires Valid()
      ensures x != null <==> score in ring
      ensures x != null ==> x in nodes && x.score == score && x.nodeIDs == ring[score]
    {
      hide LinkOk;
      var move, l := root, |root.nexts|;
      while l > 0
        invariant 0 <= l <= |move.nexts| && At(move, score)
        invariant l == 0 && root.nexts != [] ==> score !in ring
      {
        l := l - 1;
        assert LevelOk(nodes, l);
        move := Advance(move, score, l);
        if move.nexts[l] != null && move.nexts[l].score == score {
          NextIsNode(move, l);
          return move.nexts[l];
        }
        if l == 0 { GapOnLevelZero(move, score); }
      }
      if root.nexts == [] { NoLevels(); }
      return null;
    }

    lemma NoLevels()
      requires NodesOk(nodes) && Holds(nodes, ring) && root.nexts == []
      ensures ring == map[]
    {
    }

    lemma RootLinked()
      requires Valid() && root.nexts != []
      ensures LevelOk(nodes, 0) && root.nexts[0] != null && root.nexts[0] in nodes && 0 < |root.nexts[0].nexts|
    {
      var x :| x in nodes && |x.nexts| == |root.nexts|;
      assert LevelOk(nodes, 0) && LinkOk(nodes, root, 0);
    }

    /** The next score clockwise, -1 if the ring is empty. */
    method Ceiling(score: Score) returns (r: int)
      requires Valid()
      ensures r == -1 <==> ring == map[]
      ensures r != -1 ==> 0 <= r < M && IsCeil(ring.Keys, score, r)
    {
      hide LinkOk;
      if |root.nexts| == 0 {
        NoLevels();
        return -1;
      }
      RootLinked();
      var move := Descend(score);
      GapOnLevelZero(move, score);
      if move.nexts[0] != null { return move.nexts[0].score; }
      GapOnLevelZero(root, 0);
      return root.nexts[0].score;
    }

    /** The previous score, -1 if the ring is empty. */
    method Floor(score: Score) returns (r: int)
      requires Valid()
      ensures r == -1 <==> ring == map[]
      ensures r != -1 ==> 0 <= r < M && IsFloor(ring.Keys, score, r)
    {
      hide LinkOk;
      if |root.nexts| == 0 {
        NoLevels();
        return -1;
      }
      RootLinked();
      var move := Descend(score);
      GapOnLevelZero(move, score);
      if move.nexts[0] != null && move.nexts[0].score == score { return score; }
      if move != root { return move.score; }
      r := Last();
    }

    /** The greatest score. */
    method Last() returns (r: int)
      requires Valid()
      ensures r == -1 <==> ring == map[]
      ensures r != -1 ==> 0 <= r < M && r in ring && forall v :: v in ring ==> v <= r
    {
      hide LinkOk;
      if |root.nexts| == 0 {
        NoLevels();
        return -1;
      }
      var move: VirtualNode := root;
      var l := |root.nexts|;
      RootLinked();
      while l > 0
        invariant 0 <= l <= |move.nexts| && (move == root || move in nodes) && 0 < |move.nexts|
        invariant l == 0 ==> move.nexts[0] == null
      {
        l := l - 1;
        assert LevelOk(nodes, l);
        while move.nexts[l] != null
          invariant l < |move.nexts| && (move == root || move in nodes)
          decreases set y | y in nodes && Before(move, y)
        {
          NextIsAfter(move, l);
          move := move.nexts[l];
        }
      }
      Greatest(move);
      return move.score;
    }

    lemma NextIsAfter(x: VirtualNode, l: nat)
      requires LevelOk(nodes, l) && NodesOk(nodes) && (x == root || x in nodes) && l < |x.nexts| && x.nexts[l] != null
      ensures var n := x.nexts[l];
              && n in nodes && l < |n.nexts| && Before(x, n)
              && (set y | y in nodes && Before(n, y)) < (set y | y in nodes && Before(x, y))
    {
      assert LinkOk(nodes, x, l);
      var n := x.nexts[l];
      var left, right := set y | y in nodes && Before(n, y), set y | y in nodes && Before(x, y);
      assert left <= right && n in right && n !in left;
    }

    lemma Greatest(x: VirtualNode)
      requires Valid() && 0 < |root.nexts| && (x == root || x in nodes) && 0 < |x.nexts| && x.nexts[0] == null
      ensures x != root && x.score in ring && forall v :: v in ring ==> v <= x.score
    {
      RootLinked();
      assert LinkOk(nodes, x, 0);
      forall v | v in ring ensures v <= x.score {
        var y :| y in nodes && y.score == v;
      }
    }

    // -------------------------------------------------------------- levels that stay

    /** Heights stay, and so do the links of level l. */
    twostate predicate SameLevel(s: set<VirtualNode>, l: nat)
      reads s, root
    {
      forall x :: x in s + {root} ==>
        |x.nexts| == old(|x.nexts|) && (l < |x.nexts| ==> x.nexts[l] == old(x.nexts[l]))
    }

    twostate lemma LevelsKept(s: set<VirtualNode>)
      ensures forall l: nat {:trigger LevelOk(s, l)} :: old(LevelOk(s, l)) && SameLevel(s, l) ==> LevelOk(s, l)
    {
      forall l: nat | old(LevelOk(s, l)) && SameLevel(s, l) ensures LevelOk(s, l) {
        forall x | x in s + {root} && l < |x.nexts| ensures LinkOk(s, x, l) {
          assert old(LinkOk(s, x, l));
        }
      }
    }

    // -------------------------------------------------------------- inserting

    /** Where the new node belongs on level l. */
    ghost predicate Gap(move: VirtualNode, n: VirtualNode, l: nat)
      reads this, move, n
    {
      && n !in nodes && n != root && l < |n.nexts|
      && At(move, n.score) && l < |move.nexts|
      && (move.nexts[l] != null ==> n.score <= move.nexts[l].score)
    }

    method LinkAt(move: VirtualNode, n: VirtualNode, l: nat)
      requires NodesOk(nodes) && LevelOk(nodes, l) && Gap(move, n, l)
      requires forall y :: y in nodes ==> y.score != n.score
      modifies move`nexts, n`nexts
      ensures n.nexts == old(n.nexts)[l := old(move.nexts[l])] && move.nexts == old(move.nexts)[l := n]
      ensures LevelOk(nodes + {n}, l)
    {
      hide UniqueScores, LinkOk;
      OthersFit(move, n, l);
      FollowsMove(move, n, l);
      ghost var s, succ := nodes + {n}, move.nexts[l];
      n.nexts := n.nexts[l := move.nexts[l]];
      move.nexts := move.nexts[l := n];
      LinksKept(s);
      BothLinked(move, n, l, succ);
    }

    /** A link that is not changed stays right while the heights stay. */
    twostate lemma LinksKept(s: set<VirtualNode>)
      ensures (forall x :: x in s ==> |x.nexts| == old(|x.nexts|)) ==>
                forall x, l: nat {:trigger LinkOk(s, x, l)} ::
                  x in s + {root} && l < |x.nexts| && l < old(|x.nexts|) && x.nexts[l] == old(x.nexts[l]) && old(LinkOk(s, x, l))
                  ==> LinkOk(s, x, l)
    {
    }

    /** With n among the nodes, the links of all but the place before n are still right. */
    lemma OthersFit(move: VirtualNode, n: VirtualNode, l: nat)
      requires NodesOk(nodes) && LevelOk(nodes, l) && Gap(move, n, l) && forall y :: y in nodes ==> y.score != n.score
      ensures forall x {:trigger LinkOk(nodes + {n}, x, l)} ::
                x in nodes + {root} && x != move && l < |x.nexts| ==> LinkOk(nodes + {n}, x, l)
    {
      assert LinkOk(nodes, move, l);
      forall x | x in nodes + {root} && x != move && l < |x.nexts| ensures LinkOk(nodes + {n}, x, l) {
        assert LinkOk(nodes, x, l);
        if x != root && Before(move, x) {
          assert n.score < x.score;
        } else {
          assert Before(x, move);
          assert x.nexts[l] != null && x.nexts[l].score < n.score;
        }
      }
    }

    /** succ is what follows the place where n belongs. */
    ghost predicate Follows(move: VirtualNode, n: VirtualNode, l: nat, succ: VirtualNode?)
      reads this, nodes
    {
      if succ == null then forall y :: y in nodes && Before(move, y) ==> |y.nexts| <= l
      else succ in nodes && n.score < succ.score && l < |succ.nexts| &&
           forall y :: y in nodes && Before(move, y) && y.score < succ.score ==> |y.nexts| <= l
    }

    lemma FollowsMove(move: VirtualNode, n: VirtualNode, l: nat)
      requires LevelOk(nodes, l) && Gap(move, n, l) && forall y :: y in nodes ==> y.score != n.score
      ensures Follows(move, n, l, move.nexts[l])
    {
      assert LinkOk(nodes, move, l);
    }

    lemma BothLinked(move: VirtualNode, n: VirtualNode, l: nat, succ: VirtualNode?)
      requires n !in nodes && n != root && l < |n.nexts| && At(move, n.score) && l < |move.nexts|
      requires move.nexts[l] == n && n.nexts[l] == succ && (forall y :: y in nodes ==> y.score != n.score)
      requires Follows(move, n, l, succ)
      ensures LinkOk(nodes + {n}, move, l) && LinkOk(nodes + {n}, n, l)
    {
    }

    /** Linking on one level leaves the others as they are. */
    method LinkOnly(move: VirtualNode, n: VirtualNode, l: nat)
      requires NodesOk(nodes) && Gap(move, n, l)
      requires forall y :: y in nodes ==> y.score != n.score
      requires forall k: nat {:trigger LevelOk(nodes, k)} :: k <= l ==> LevelOk(nodes, k)
      requires forall k: nat {:trigger LevelOk(nodes + {n}, k)} :: l < k ==> LevelOk(nodes + {n}, k)
      modifies move`nexts, n`nexts
      ensures |n.nexts| == old(|n.nexts|) && |move.nexts| == old(|move.nexts|) && NodesOk(nodes)
      ensures forall k: nat {:trigger LevelOk(nodes, k)} :: k < l ==> LevelOk(nodes, k)
      ensures forall k: nat {:trigger LevelOk(nodes + {n}, k)} :: l <= k ==> LevelOk(nodes + {n}, k)
    {
      hide LinkOk;
      assert LevelOk(nodes, l);
      LinkAt(move, n, l);
      LevelsKept(nodes);
      LevelsKept(nodes + {n});
    }

    /** Above its height a new node changes nothing. */
    lemma LevelAbove(n: VirtualNode, l: nat)
      requires LevelOk(nodes, l) && |n.nexts| <= l
      ensures LevelOk(nodes + {n}, l)
    {
      forall x | x in nodes + {n} + {root} && l < |x.nexts| ensures LinkOk(nodes + {n}, x, l) {
        assert LinkOk(nodes, x, l);
      }
    }

    /** The root reaches at least the given height; the added levels are empty. */
    method GrowRoot(height: nat)
      requires NodesOk(nodes) && LevelsOk(nodes)
      modifies root`nexts
      ensures NodesOk(nodes) && LevelsOk(nodes)
      ensures |root.nexts| == if old(|root.nexts|) < height then height else old(|root.nexts|)
    {
      if |root.nexts| < height {
        root.nexts := root.nexts + seq(height - |root.nexts|, _ => null);
      }
      forall l: nat ensures LevelOk(nodes, l) {
        assert old(LevelOk(nodes, l));
        forall x | x in nodes + {root} && l < |x.nexts| ensures LinkOk(nodes, x, l) {
          if l < old(|x.nexts|) { assert old(LinkOk(nodes, x, l)); }
        }
      }
    }

    /** Links the node n into every level up to its height, from the top down. */
    method LinkAll(n: VirtualNode)
      requires NodesOk(nodes) && LevelsOk(nodes)
      requires n !in nodes && n != root && 1 <= |n.nexts| <= |root.nexts|
      requires forall y :: y in nodes ==> y.score != n.score
      modifies (set y | y in nodes)`nexts, root`nexts, n`nexts
      ensures NodesOk(nodes + {n}) && LevelsOk(nodes + {n}) && |root.nexts| == old(|root.nexts|)
      ensures forall x :: x in nodes + {n} ==> |x.nexts| == old(|x.nexts|)
    {
      hide LinkOk, LevelOk;
      var move, l := root, |n.nexts|;
      forall k: nat | l <= k ensures LevelOk(nodes + {n}, k) {
        assert LevelOk(nodes, k);
        LevelAbove(n, k);
      }
      while l > 0
        invariant 0 <= l <= |n.nexts| && l <= |move.nexts| && At(move, n.score)
        invariant NodesOk(nodes) && |root.nexts| == old(|root.nexts|)
        invariant forall x :: x in nodes + {n} ==> |x.nexts| == old(|x.nexts|)
        invariant forall k: nat {:trigger LevelOk(nodes, k)} :: k < l ==> LevelOk(nodes, k)
        invariant forall k: nat {:trigger LevelOk(nodes + {n}, k)} :: l <= k ==> LevelOk(nodes + {n}, k)
      {
        l := l - 1;
        assert LevelOk(nodes, l);
        move := Advance(move, n.score, l);
        LinkOnly(move, n, l);
      }
    }

    /** Adds a name at a score; a new score gets a node of whatever height is drawn. */
    method Add(score: Score, nodeID: string, height: nat)
      requires Valid() && 1 <= height
      modifies this`nodes, this`ring, nodes, root`nexts
      ensures Valid() && ring == AddTo(old(ring), score, nodeID) && fresh(nodes - old(nodes))
    {
      hide LevelsOk, LevelOk, LinkOk;
      var x := Get(score);
      if x != null {
        if nodeID in x.nodeIDs { return; }
        SetNames(x, x.nodeIDs + [nodeID]);
      } else {
        Insert(score, nodeID, height);
      }
    }

    twostate lemma SameLinks()
      requires nodes == old(nodes) && old(LevelsOk(nodes))
      requires forall x :: x in nodes + {root} ==> x.nexts == old(x.nexts)
      ensures LevelsOk(nodes)
    {
      hide LevelOk;
      LevelsKept(nodes);
      forall l: nat ensures LevelOk(nodes, l) {
        assert old(LevelOk(nodes, l)) && SameLevel(nodes, l);
      }
    }

    method Insert(score: Score, nodeID: string, height: nat)
      requires Valid() && 1 <= height && score !in ring
      modifies this`nodes, this`ring, nodes, root`nexts
      ensures Valid() && ring == old(ring)[score := [nodeID]] && fresh(nodes - old(nodes))
    {
      hide LevelsOk, UniqueScores, Holds;
      HoldsNot(score);
      var n := LinkNew(score, nodeID, height);
      HoldsMore(n);
      nodes, ring := nodes + {n}, ring[score := [nodeID]];
      assert n in nodes && |n.nexts| == height;
    }

    lemma HoldsNot(score: Score)
      requires Holds(nodes, ring) && score !in ring
      ensures forall y :: y in nodes ==> y.score != score
    {
    }

    lemma HoldsMore(n: VirtualNode)
      requires Holds(nodes, ring) && n.score !in ring
      ensures Holds(nodes + {n}, ring[n.score := n.nodeIDs])
    {
    }

    method LinkNew(score: Score, nodeID: string, height: nat) returns (n: VirtualNode)
      requires Valid() && 1 <= height && forall y :: y in nodes ==> y.score != score
      modifies (set y | y in nodes)`nexts, root`nexts
      ensures fresh(n) && n.score == score && n.nodeIDs == [nodeID] && |n.nexts| == height
      ensures NodesOk(nodes + {n}) && LevelsOk(nodes + {n}) && Trimmed(nodes + {n}) && Holds(nodes, ring)
    {
      hide LevelsOk, UniqueScores;
      GrowRoot(height);
      n := new VirtualNode(score, [nodeID], height);
      LinkAll(n);
      assert n in nodes + {n} && |n.nexts| == height;
      if |root.nexts| > height {
        ghost var x :| x in nodes && old(|x.nexts|) == |root.nexts|;
        assert x in nodes + {n};
      }
    }

    // -------------------------------------------------------------- removing

    /** The place before n on a level that n reaches links to n. */
    lemma LeadsTo(move: VirtualNode, n: VirtualNode, l: nat)
      requires NodesOk(nodes) && LevelOk(nodes, l) && n in nodes && At(move, n.score) && l < |move.nexts|
      requires move.nexts[l] != null ==> n.score <= move.nexts[l].score
      ensures move.nexts[l] != null && move.nexts[l].score == n.score <==> l < |n.nexts|
      ensures l < |n.nexts| ==> move.nexts[l] == n
    {
      assert LinkOk(nodes, move, l);
    }

    /** Only the place before n links to n. */
    lemma OnlyOneLeadsTo(move: VirtualNode, n: VirtualNode, l: nat, x: VirtualNode)
      requires NodesOk(nodes) && LevelOk(nodes, l) && n in nodes && At(move, n.score) && l < |move.nexts| && move.nexts[l] == n
      requires x in nodes + {root} && l < |x.nexts| && x != move
      ensures x.nexts[l] != n
    {
      assert LinkOk(nodes, move, l) && LinkOk(nodes, x, l);
    }

    /** Below or at its level nothing leads to a node that is not tall enough. */
    lemma LevelShort(n: VirtualNode, l: nat)
      requires LevelOk(nodes, l) && n in nodes && |n.nexts| <= l
      ensures LevelOk(nodes - {n}, l)
    {
      forall x | x in nodes - {n} + {root} && l < |x.nexts| ensures LinkOk(nodes - {n}, x, l) {
        assert LinkOk(nodes, x, l);
      }
    }

    /** Without n, the links of all but the place before n are still right. */
    lemma OthersUnlinked(move: VirtualNode, n: VirtualNode, l: nat)
      requires NodesOk(nodes) && LevelOk(nodes, l) && n in nodes && l < |n.nexts|
      requires At(move, n.score) && l < |move.nexts| && move.nexts[l] == n
      ensures forall x {:trigger LinkOk(nodes - {n}, x, l)} ::
                x in nodes - {n} + {root} && x != move && l < |x.nexts| ==> LinkOk(nodes - {n}, x, l)
    {
      forall x | x in nodes - {n} + {root} && x != move && l < |x.nexts| ensures LinkOk(nodes - {n}, x, l) {
        assert LinkOk(nodes, x, l);
        OnlyOneLeadsTo(move, n, l, x);
      }
    }

    /** What follows n comes next after the place before n. */
    ghost predicate Passed(move: VirtualNode, n: VirtualNode, l: nat, succ: VirtualNode?)
      reads this, nodes
    {
      && (forall y :: y in nodes && Before(move, y) && y.score < n.score ==> |y.nexts| <= l)
      && if succ == null then forall y :: y in nodes && n.score < y.score ==> |y.nexts| <= l
         else succ in nodes && n.score < succ.score && l < |succ.nexts| &&
              forall y :: y in nodes && n.score < y.score && y.score < succ.score ==> |y.nexts| <= l
    }

    lemma PassedBefore(move: VirtualNode, n: VirtualNode, l: nat)
      requires NodesOk(nodes) && LevelOk(nodes, l) && n in nodes && l < |n.nexts|
      requires At(move, n.score) && l < |move.nexts| && move.nexts[l] == n
      ensures Passed(move, n, l, n.nexts[l])
    {
      assert LinkOk(nodes, move, l) && LinkOk(nodes, n, l);
    }

    lemma MoveUnlinked(move: VirtualNode, n: VirtualNode, l: nat, succ: VirtualNode?)
      requires NodesOk(nodes) && n in nodes && At(move, n.score) && l < |move.nexts| && move.nexts[l] == succ
      requires Passed(move, n, l, succ)
      ensures LinkOk(nodes - {n}, move, l)
    {
    }

    method UnlinkAt(move: VirtualNode, n: VirtualNode, l: nat)
      requires NodesOk(nodes) && LevelOk(nodes, l) && n in nodes && l < |n.nexts|
      requires At(move, n.score) && l < |move.nexts| && move.nexts[l] == n
      modifies move`nexts
      ensures move.nexts == old(move.nexts)[l := n.nexts[l]]
      ensures LevelOk(nodes - {n}, l)
    {
      hide UniqueScores, LinkOk;
      PassedBefore(move, n, l);
      OthersUnlinked(move, n, l);
      ghost var s := nodes - {n};
      move.nexts := move.nexts[l := n.nexts[l]];
      MoveUnlinked(move, n, l, n.nexts[l]);
      LinksKept(s);
    }

    method UnlinkOnly(move: VirtualNode, n: VirtualNode, l: nat)
      requires NodesOk(nodes) && n in nodes && l < |n.nexts|
      requires At(move, n.score) && l < |move.nexts| && move.nexts[l] == n
      requires forall k: nat {:trigger LevelOk(nodes, k)} :: k <= l ==> LevelOk(nodes, k)
      requires forall k: nat {:trigger LevelOk(nodes - {n}, k)} :: l < k ==> LevelOk(nodes - {n}, k)
      modifies move`nexts
      ensures |move.nexts| == old(|move.nexts|) && NodesOk(nodes)
      ensures forall k: nat {:trigger LevelOk(nodes, k)} :: k < l ==> LevelOk(nodes, k)
      ensures forall k: nat {:trigger LevelOk(nodes - {n}, k)} :: l <= k ==> LevelOk(nodes - {n}, k)
    {
      hide LinkOk;
      assert LevelOk(nodes, l);
      UnlinkAt(move, n, l);
      LevelsKept(nodes);
      LevelsKept(nodes - {n});
    }

    /** Takes n out of every level, from the top down. */
    method Unlink(n: VirtualNode)
      requires NodesOk(nodes) && LevelsOk(nodes) && n in nodes
      modifies (set y | y in nodes)`nexts, root`nexts
      ensures NodesOk(nodes - {n}) && LevelsOk(nodes - {n}) && |root.nexts| == old(|root.nexts|)
      ensures forall x :: x in nodes ==> |x.nexts| == old(|x.nexts|)
    {
      hide LinkOk, LevelOk;
      var move, l := root, |root.nexts|;
      forall k: nat | l <= k ensures LevelOk(nodes - {n}, k) {
        assert LevelOk(nodes, k);
        LevelShort(n, k);
      }
      while l > 0
        invariant 0 <= l <= |move.nexts| && At(move, n.score)
        invariant NodesOk(nodes) && |root.nexts| == old(|root.nexts|)
        invariant forall x :: x in nodes ==> |x.nexts| == old(|x.nexts|)
        invariant forall k: nat {:trigger LevelOk(nodes, k)} :: k < l ==> LevelOk(nodes, k)
        invariant forall k: nat {:trigger LevelOk(nodes - {n}, k)} :: l <= k ==> LevelOk(nodes - {n}, k)
      {
        l := l - 1;
        assert LevelOk(nodes, l);
        move := Advance(move, n.score, l);
        LeadsTo(move, n, l);
        if move.nexts[l] == null || move.nexts[l].score > n.score {
          LevelShort(n, l);
          continue;
        }
        UnlinkOnly(move, n, l);
      }
    }

    /** Cuts the root at its first empty level; no node reaches above. */
    method Trim()
      requires NodesOk(nodes) && LevelsOk(nodes)
      modifies root`nexts
      ensures NodesOk(nodes) && LevelsOk(nodes) && Trimmed(nodes)
    {
      var level := 0;
      while level < |root.nexts| && root.nexts[level] != null
        invariant 0 <= level <= |root.nexts|
        invariant forall k :: 0 <= k < level ==> root.nexts[k] != null
      {
        level := level + 1;
      }
      assert LevelOk(nodes, level);
      assert level < |root.nexts| ==> LinkOk(nodes, root, level);
      if level > 0 {
        assert LevelOk(nodes, level - 1) && LinkOk(nodes, root, level - 1);
      }
      ghost var tallest := if level > 0 then root.nexts[level - 1] else null;
      root.nexts := root.nexts[..level];
      forall l: nat ensures LevelOk(nodes, l) {
        assert old(LevelOk(nodes, l));
        forall x | x in nodes + {root} && l < |x.nexts| ensures LinkOk(nodes, x, l) {
          assert old(LinkOk(nodes, x, l));
        }
      }
      assert level > 0 ==> tallest in nodes && |tallest.nexts| == |root.nexts|;
    }

    lemma HoldsLess(n: VirtualNode)
      requires Holds(nodes, ring) && NodesOk(nodes) && n in nodes
      ensures Holds(nodes - {n}, ring - {n.score})
    {
    }

    method Drop(n: VirtualNode)
      requires Valid() && n in nodes
      modifies this`nodes, this`ring, (set y | y in nodes)`nexts, root`nexts
      ensures Valid() && ring == old(ring) - {n.score} && nodes == old(nodes) - {n}
    {
      hide LevelsOk, NodesOk, Trimmed, Holds;
      HoldsLess(n);
      Unlink(n);
      nodes, ring := nodes - {n}, ring - {n.score};
      Trim();
    }

    /** Removes a name from a score, and what is recorded under that very name; fails if it is not there. */
    method Rem(score: Score, nodeID: string) returns (ok: bool)
      requires Valid()
      modifies this`nodes, this`ring, this`nodeToDataKey, nodes, root`nexts
      ensures Valid() && nodes <= old(nodes)
      ensures ok <==> score in old(ring) && nodeID in old(ring)[score]
      ensures ring == if ok then RemoveFrom(old(ring), score, nodeID) else old(ring)
      ensures nodeToDataKey == if ok then old(nodeToDataKey) - {nodeID} else old(nodeToDataKey)
    {
      hide LevelsOk, LevelOk, LinkOk, UniqueScores, Trimmed;
      var x := Get(score);
      if x == null { return false; }
      var index := 0;
      while index < |x.nodeIDs| && x.nodeIDs[index] != nodeID
        invariant 0 <= index <= |x.nodeIDs| && forall i :: 0 <= i < index ==> x.nodeIDs[i] != nodeID
      {
        index := index + 1;
      }
      if index == |x.nodeIDs| { return false; }
      nodeToDataKey := nodeToDataKey - {nodeID};
      if |x.nodeIDs| > 1 {
        WithoutAt(x.nodeIDs, index);
        SetNames(x, x.nodeIDs[..index] + x.nodeIDs[index + 1..]);
        return true;
      }
      Drop(x);
      return true;
    }

    method SetNames(x: VirtualNode, names: seq<string>)
      requires Valid() && x in nodes
      modifies this`ring, x`nodeIDs
      ensures Valid() && ring == old(ring)[x.score := names]
    {
      x.nodeIDs := names;
      ring := ring[x.score := names];
      SameLinks();
    }

    /** The names at a score. */
    method Node(score: Score) returns (names: seq<string>, ok: bool)
      requires Valid()
      ensures ok <==> score in ring
      ensures ok ==> names == ring[score]
    {
      var x := Get(score);
      if x == null { return [], false; }
      return x.nodeIDs, true;
    }

    method DataKeys(nodeID: string) returns (keys: set<string>)
      ensures keys == KeysOf(nodeToDataKey, nodeID)
    {
      keys := if nodeID in nodeToDataKey then nodeToDataKey[nodeID] else {};
    }

    method AddNodeToDataKeys(nodeID: string, keys: set<string>)
      modifies this`nodeToDataKey
      ensures nodeToDataKey == Record(old(nodeToDataKey), nodeID, keys)
      ensures forall d, x :: Recorded(nodeToDataKey, d, x) <==>
                Recorded(old(nodeToDataKey), d, x) || (x == nodeID && d in keys)
    {
      var known := if nodeID in nodeToDataKey then nodeToDataKey[nodeID] else {};
      nodeToDataKey := nodeToDataKey[nodeID := known + keys];
    }

    method DeleteNodeToDataKeys(nodeID: string, keys: set<string>)
      modifies this`nodeToDataKey
      ensures nodeToDataKey == Forget(old(nodeToDataKey), nodeID, keys)
      ensures forall d, x :: Recorded(nodeToDataKey, d, x) <==>
                Recorded(old(nodeToDataKey), d, x) && !(x == nodeID && d in keys)
    {
      if nodeID !in nodeToDataKey { return; }
      var left := nodeToDataKey[nodeID] - keys;
      assert forall d :: d in left <==> d in nodeToDataKey[nodeID] && d !in keys;
      nodeToDataKey := if left == {} then nodeToDataKey - {nodeID} else nodeToDataKey[nodeID := left];
    }
  }
}
