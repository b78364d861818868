/**
 The memtable: a skiplist of nodes linked level by level, whatever heights are drawn for them.
 */
module LsmMemtable {
  import opened LsmCodec
  import opened LsmOrder
  import opened LsmWal

  // ---------------------------------------------------------------- the specification: a map

  type Table = map<Bytes, Bytes>

  /** The bytes of all keys and values. */
  ghost function Total(m: Table): nat
    decreases |m|
  {
    if m == map[] then 0
    else
      assert |m| == |m.Keys| && m.Keys != {};
      var k :| k in m;
      assert (m - {k}).Keys == m.Keys - {k};
      |k| + |m[k]| + Total(m - {k})
  }

  lemma {:induction false} TotalWithout(m: Table, k: Bytes)
    requires k in m
    ensures Total(m) == |k| + |m[k]| + Total(m - {k})
    decreases |m|
  {
    var j :| j in m && Total(m) == |j| + |m[j]| + Total(m - {j});
    if j != k {
      assert (m - {j}).Keys == m.Keys - {j} && (m - {k}).Keys == m.Keys - {k};
      TotalWithout(m - {j}, k);
      TotalWithout(m - {k}, j);
      assert m - {j} - {k} == m - {k} - {j};
    }
  }

  /** Adding or replacing an entry. */
  lemma TotalWith(m: Table, k: Bytes, v: Bytes)
    ensures Total(m[k := v]) + (if k in m then |k| + |m[k]| else 0) == Total(m) + |k| + |v|
  {
    var m' := m[k := v];
    TotalWithout(m', k);
    if k in m {
      TotalWithout(m, k);
      assert m' - {k} == m - {k};
    } else {
      assert m' - {k} == m;
    }
  }

  /** The map after a sequence of Puts: the last write of a key wins. */
  function Replay(m: Table, kvs: seq<KV>): Table
    decreases |kvs|
  {
    if kvs == [] then m else Replay(m[kvs[0].key := kvs[0].value], kvs[1..])
  }

  // ---------------------------------------------------------------- nodes and links

  class SkipNode {
    var nexts: seq<SkipNode?>
    const key: Bytes
    var value: Bytes

    constructor (height: nat, key: Bytes, value: Bytes)
      ensures this.key == key && this.value == value && nexts == seq(height, _ => null)
    {
      nexts, this.key, this.value := seq(height, _ => null), key, value;
    }
  }

  ghost function KeysOf(s: set<SkipNode>): set<Bytes> { set x | x in s :: x.key }

  ghost predicate UniqueKeys(s: set<SkipNode>) {
    forall x, y :: x in s && y in s && x.key == y.key ==> x == y
  }

  lemma KeysAbsent(s: set<SkipNode>, key: Bytes)
    requires key !in KeysOf(s)
    ensures forall y :: y in s ==> y.key != key
  {
  }

  class Skiplist {
    const head: SkipNode
    var entriesCnt: nat
    var size: int
    ghost var nodes: set<SkipNode>
    ghost var contents: Table

    /** x comes before y; the head before every node. */
    ghost predicate Before(x: SkipNode, y: SkipNode) {
      x == head || Less(x.key, y.key)
    }

    /** On level l, x is followed by the next node of s that is that tall. */
    ghost predicate LinkOk(s: set<SkipNode>, x: SkipNode, l: nat)
      requires l < |x.nexts|
      reads x`nexts, s`nexts
    {
      var n := x.nexts[l];
      if n == null then forall y :: y in s && Before(x, y) ==> |y.nexts| <= l
      else
        && n in s && Before(x, n) && l < |n.nexts|
        && forall y :: y in s && Before(x, y) && Less(y.key, n.key) ==> |y.nexts| <= l
    }

    ghost predicate LevelOk(s: set<SkipNode>, l: nat)
      reads s`nexts, head`nexts
    {
      forall x {:trigger LinkOk(s, x, l)} :: x in s + {head} && l < |x.nexts| ==> LinkOk(s, x, l)
    }

    ghost predicate LevelsOk(s: set<SkipNode>)
      reads s`nexts, head`nexts
    {
      forall l: nat {:trigger LevelOk(s, l)} :: LevelOk(s, l)
    }

    ghost predicate NodesOk(s: set<SkipNode>)
      reads s`nexts, head`nexts
    {
      && head !in s
      && (forall x :: x in s ==> 1 <= |x.nexts| <= |head.nexts|)
      && UniqueKeys(s)
    }

    /** The nodes hold exactly the entries of the map. */
    ghost predicate Holds(s: set<SkipNode>, m: Table)
      reads s
    {
      m.Keys == KeysOf(s) && forall x :: x in s ==> x.key in m && m[x.key] == x.value
    }

    ghost predicate Valid()
      reads this, nodes, head
    {
      && NodesOk(nodes)
      && LevelsOk(nodes)
      && Holds(nodes, contents)
      && entriesCnt == |nodes| == |contents|
      && size == Total(contents)
    }

    constructor ()
      ensures Valid() && contents == map[] && fresh(head) && nodes == {}
    {
      head := new SkipNode(0, [], []);
      entriesCnt, size, nodes, contents := 0, 0, {}, map[];
    }

    /** A place from which the search for key goes on: the head or a node with a smaller key. */
    ghost predicate At(x: SkipNode, key: Bytes)
      reads this
    {
      x == head || (x in nodes && Less(x.key, key))
    }

    /** Moves right on level l while the next key is smaller. */
    method Advance(start: SkipNode, key: Bytes, l: nat) returns (x: SkipNode)
      requires NodesOk(nodes) && LevelOk(nodes, l) && At(start, key) && l < |start.nexts|
      ensures At(x, key) && l < |x.nexts| && (x.nexts[l] != null ==> AtMost(key, x.nexts[l].key))
      ensures x == start || Before(start, x)
    {
      x := start;
      while x.nexts[l] != null && Less(x.nexts[l].key, key)
        invariant At(x, key) && l < |x.nexts|
        invariant x == start || (x != head && Before(start, x))
        decreases set y | y in nodes && Before(x, y)
      {
        assert LinkOk(nodes, x, l);
        ghost var x0 := x;
        x := x.nexts[l];
        LessIsOrder(x0, x, start);
      }
      if x.nexts[l] != null {
        NotBoth(x.nexts[l].key, key);
      }
    }

    /** Moving on drops the node reached, and what was before stays before. */
    lemma LessIsOrder(x: SkipNode, n: SkipNode, start: SkipNode)
      requires NodesOk(nodes) && n in nodes && (x == head || x in nodes) && Before(x, n)
      requires x == start || (x != head && Before(start, x))
      ensures Before(start, n)
      ensures (set y | y in nodes && Before(n, y)) < (set y | y in nodes && Before(x, y))
    {
      if start != head && x != start {
        LessTrans(start.key, x.key, n.key);
      }
      forall y | y in nodes && Before(n, y) ensures Before(x, y) {
        if x != head {
          LessTrans(x.key, n.key, y.key);
        }
      }
      NotBoth(n.key, n.key);
      var left, right := set y | y in nodes && Before(n, y), set y | y in nodes && Before(x, y);
      assert left <= right && n in right && n !in left;
    }

    method GetNode(key: Bytes) returns (r: SkipNode?)
      requires Valid()
      ensures r != null <==> key in contents
      ensures r != null ==> r in nodes && r.key == key
    {
      hide Less, Total, LinkOk;
      var move, l := head, |head.nexts|;
      while l > 0
        invariant 0 <= l <= |move.nexts| && At(move, key)
        invariant l == 0 ==> forall y :: y in nodes ==> y.key != key
      {
        l := l - 1;
        assert LevelOk(nodes, l);
        move := Advance(move, key, l);
        if move.nexts[l] != null && move.nexts[l].key == key {
          NextIsNode(move, l);
          return move.nexts[l];
        }
        if l == 0 {
          NotOnLevelZero(move, key);
        }
      }
      assert forall y :: y in nodes ==> y.key != key;
      return null;
    }

    lemma NextIsNode(x: SkipNode, l: nat)
      requires LevelOk(nodes, l) && (x == head || x in nodes) && l < |x.nexts| && x.nexts[l] != null
      ensures x.nexts[l] in nodes && l < |x.nexts[l].nexts|
    {
      assert LinkOk(nodes, x, l);
    }

    /** Between a place and its successor on level 0 there is nothing. */
    lemma NotOnLevelZero(x: SkipNode, key: Bytes)
      requires NodesOk(nodes) && LevelOk(nodes, 0) && At(x, key) && 0 < |x.nexts|
      requires x.nexts[0] != null ==> Less(key, x.nexts[0].key)
      ensures forall y :: y in nodes ==> y.key != key
    {
      assert LinkOk(nodes, x, 0);
      forall y | y in nodes ensures y.key != key {
        if y.key == key {
          assert Before(x, y);
        }
      }
    }

    method Get(key: Bytes) returns (value: Bytes, ok: bool)
      requires Valid()
      ensures ok <==> key in contents
      ensures ok ==> value == contents[key]
    {
      var x := GetNode(key);
      if x != null { return x.value, true; }
      return [], false;
    }

    // -------------------------------------------------------------- inserting

    /** Heights stay, and so do the links of level l. */
    twostate predicate SameLevel(s: set<SkipNode>, l: nat)
      reads s, head
    {
      forall x :: x in s + {head} ==>
        |x.nexts| == old(|x.nexts|) && (l < |x.nexts| ==> x.nexts[l] == old(x.nexts[l]))
    }

    twostate lemma LevelsKept(s: set<SkipNode>)
      ensures forall l: nat {:trigger LevelOk(s, l)} :: old(LevelOk(s, l)) && SameLevel(s, l) ==> LevelOk(s, l)
    {
      hide Less;
      forall l: nat | old(LevelOk(s, l)) && SameLevel(s, l) ensures LevelOk(s, l) {
        forall x | x in s + {head} && l < |x.nexts| ensures LinkOk(s, x, l) {
          assert old(LinkOk(s, x, l));
        }
      }
    }

    /** Above its height a new node changes nothing. */
    lemma LevelAbove(n: SkipNode, l: nat)
      requires LevelOk(nodes, l) && |n.nexts| <= l
      ensures LevelOk(nodes + {n}, l)
    {
      hide Less;
      forall x | x in nodes + {n} + {head} && l < |x.nexts| ensures LinkOk(nodes + {n}, x, l) {
        assert LinkOk(nodes, x, l);
      }
    }

    /** Where the new node belongs on level l. */
    ghost predicate Gap(move: SkipNode, n: SkipNode, l: nat)
      reads this, move, n
    {
      && n !in nodes && n != head && l < |n.nexts|
      && At(move, n.key) && l < |move.nexts|
      && (move.nexts[l] != null ==> Less(n.key, move.nexts[l].key))
    }

    method LinkAt(move: SkipNode, n: SkipNode, l: nat)
      requires NodesOk(nodes) && LevelOk(nodes, l) && Gap(move, n, l)
      requires forall y :: y in nodes ==> y.key != n.key
      modifies move, n
      ensures n.nexts == old(n.nexts)[l := old(move.nexts[l])] && move.nexts == old(move.nexts)[l := n]
      ensures n.value == old(n.value) && move.value == old(move.value)
      ensures LevelOk(nodes + {n}, l)
    {
      hide Less;
      ghost var succ := move.nexts[l];
      assert LinkOk(nodes, move, l);
      n.nexts := n.nexts[l := move.nexts[l]];
      move.nexts := move.nexts[l := n];
      ghost var s := nodes + {n};
      forall x | x in s + {head} && l < |x.nexts| ensures LinkOk(s, x, l) {
        if x == move {
          MoveLinked(move, n, l, succ);
        } else if x == n {
          NewLinked(move, n, l, succ);
        } else {
          assert old(LinkOk(nodes, x, l));
          assert LinkOk(nodes, x, l);
          OthersLinked(move, n, l, succ, x);
        }
      }
    }

    /** Linking on one level leaves the others as they are. */
    method LinkOnly(move: SkipNode, n: SkipNode, l: nat)
      requires NodesOk(nodes) && Gap(move, n, l)
      requires forall y :: y in nodes ==> y.key != n.key
      requires forall k: nat {:trigger LevelOk(nodes, k)} :: k <= l ==> LevelOk(nodes, k)
      requires forall k: nat {:trigger LevelOk(nodes + {n}, k)} :: l < k ==> LevelOk(nodes + {n}, k)
      modifies move, n
      ensures |n.nexts| == old(|n.nexts|) && |move.nexts| == old(|move.nexts|)
      ensures n.value == old(n.value) && move.value == old(move.value) && NodesOk(nodes)
      ensures forall k: nat {:trigger LevelOk(nodes, k)} :: k < l ==> LevelOk(nodes, k)
      ensures forall k: nat {:trigger LevelOk(nodes + {n}, k)} :: l <= k ==> LevelOk(nodes + {n}, k)
    {
      hide Less, LinkOk;
      assert LevelOk(nodes, l);
      LinkAt(move, n, l);
      LevelsKept(nodes);
      LevelsKept(nodes + {n});
    }

    /** succ is the node that followed move on level l. */
    ghost predicate Followed(move: SkipNode, l: nat, succ: SkipNode?)
      reads this, nodes, move
    {
      if succ == null then forall y :: y in nodes && Before(move, y) ==> |y.nexts| <= l
      else succ in nodes && Before(move, succ) && l < |succ.nexts| &&
           forall y :: y in nodes && Before(move, y) && Less(y.key, succ.key) ==> |y.nexts| <= l
    }

    ghost predicate Linked(move: SkipNode, n: SkipNode, l: nat, succ: SkipNode?)
      reads this, nodes, move, n
    {
      && n !in nodes && n != head && l < |n.nexts| && At(move, n.key) && l < |move.nexts|
      && move.nexts[l] == n && n.nexts[l] == succ
      && Followed(move, l, succ)
      && (succ != null ==> Less(n.key, succ.key))
      && (forall y :: y in nodes ==> y.key != n.key)
    }

    lemma MoveLinked(move: SkipNode, n: SkipNode, l: nat, succ: SkipNode?)
      requires Linked(move, n, l, succ)
      ensures LinkOk(nodes + {n}, move, l)
    {
      hide Less;
      NotBoth(n.key, n.key);
      forall y | y in nodes + {n} && Before(move, y) && Less(y.key, n.key) ensures |y.nexts| <= l {
        if succ != null {
          LessTrans(y.key, n.key, succ.key);
        }
      }
    }

    lemma NewLinked(move: SkipNode, n: SkipNode, l: nat, succ: SkipNode?)
      requires Linked(move, n, l, succ)
      ensures LinkOk(nodes + {n}, n, l)
    {
      hide Less;
      NotBoth(n.key, n.key);
      forall y | y in nodes && Before(n, y) ensures Before(move, y) {
        if move != head {
          LessTrans(move.key, n.key, y.key);
        }
      }
    }

    /** A tall node behind move is behind the new node. */
    lemma BehindMove(move: SkipNode, n: SkipNode, l: nat, succ: SkipNode?, x: SkipNode)
      requires Linked(move, n, l, succ) && x in nodes && l < |x.nexts| && Before(move, x)
      ensures Less(n.key, x.key)
    {
      hide Less;
      NotBoth(x.key, succ.key);
      AtMostTrans(n.key, succ.key, x.key);
    }

    /** A tall node before move stops at or before move. */
    lemma BeforeMove(move: SkipNode, n: SkipNode, l: nat, succ: SkipNode?, x: SkipNode)
      requires NodesOk(nodes) && Linked(move, n, l, succ) && move != head
      requires x in nodes + {head} && x != move && l < |x.nexts| && LinkOk(nodes, x, l)
      requires x == head || !Before(move, x)
      ensures x.nexts[l] != null && Less(x.nexts[l].key, n.key)
    {
      hide Less;
      if x != head {
        NotBoth(move.key, x.key);
      }
      assert Before(x, move);
      NotBoth(move.key, x.nexts[l].key);
      AtMostTrans(x.nexts[l].key, move.key, n.key);
    }

    lemma OthersLinked(move: SkipNode, n: SkipNode, l: nat, succ: SkipNode?, x: SkipNode)
      requires NodesOk(nodes) && Linked(move, n, l, succ)
      requires x in nodes + {head} && x != move && x != n && l < |x.nexts| && LinkOk(nodes, x, l)
      ensures LinkOk(nodes + {n}, x, l)
    {
      hide Less;
      if x != head && Before(move, x) {
        BehindMove(move, n, l, succ, x);
        NotBoth(n.key, x.key);
      } else {
        BeforeMove(move, n, l, succ, x);
        NotBoth(x.nexts[l].key, n.key);
      }
    }

    /** The head reaches at least the given height; the added levels are empty. */
    method GrowHead(height: nat)
      requires NodesOk(nodes) && LevelsOk(nodes)
      modifies head
      ensures NodesOk(nodes) && LevelsOk(nodes)
      ensures |head.nexts| >= height
    {
      hide Less;
      if |head.nexts| < height {
        head.nexts := head.nexts + seq(height + 1 - |head.nexts|, _ => null);
      }
      forall l: nat ensures LevelOk(nodes, l) {
        assert old(LevelOk(nodes, l));
        forall x | x in nodes + {head} && l < |x.nexts| ensures LinkOk(nodes, x, l) {
          if l < old(|x.nexts|) {
            assert old(LinkOk(nodes, x, l));
          }
        }
      }
    }

    lemma NodesMore(n: SkipNode)
      requires NodesOk(nodes) && n !in nodes && n != head && 1 <= |n.nexts| <= |head.nexts|
      requires forall y :: y in nodes ==> y.key != n.key
      ensures NodesOk(nodes + {n})
    {
    }

    /** Links the node n into every level up to its height, from the top down. */
    method LinkAll(n: SkipNode)
      requires NodesOk(nodes) && LevelsOk(nodes)
      requires n !in nodes && n != head && 1 <= |n.nexts| <= |head.nexts|
      requires forall y :: y in nodes ==> y.key != n.key
      modifies nodes, head, n
      ensures NodesOk(nodes + {n}) && LevelsOk(nodes + {n})
      ensures forall x :: x in nodes + {n} ==> x.value == old(x.value)
    {
      hide Less, LinkOk, LevelOk, NodesOk;
      var move, l := head, |n.nexts|;
      forall k: nat | l <= k ensures LevelOk(nodes + {n}, k) {
        assert LevelOk(nodes, k);
        LevelAbove(n, k);
      }
      while l > 0
        invariant 0 <= l <= |n.nexts| && l <= |move.nexts| && At(move, n.key)
        invariant NodesOk(nodes) && |n.nexts| == old(|n.nexts|) <= |head.nexts|
        invariant forall k: nat {:trigger LevelOk(nodes, k)} :: k < l ==> LevelOk(nodes, k)
        invariant forall k: nat {:trigger LevelOk(nodes + {n}, k)} :: l <= k ==> LevelOk(nodes + {n}, k)
        invariant forall x :: x in nodes + {n} ==> x.value == old(x.value)
      {
        l := l - 1;
        assert LevelOk(nodes, l);
        move := Advance(move, n.key, l);
        if move.nexts[l] != null {
          NextIsNode(move, l);
        }
        LinkOnly(move, n, l);
      }
      NodesMore(n);
    }

    method Replace(x: SkipNode, value: Bytes)
      requires Valid() && x in nodes
      modifies this`size, this`contents, x`value
      ensures Valid() && contents == old(contents)[x.key := value]
    {
      hide Less, Total, LevelsOk, NodesOk, KeysOf, UniqueKeys;
      OthersDiffer(x);
      TotalWith(contents, x.key, value);
      size := size + |value| - |x.value|;
      x.value := value;
      contents := contents[x.key := value];
      assert contents.Keys == old(contents).Keys;
    }

    lemma OthersDiffer(x: SkipNode)
      requires NodesOk(nodes) && x in nodes
      ensures forall y :: y in nodes && y != x ==> y.key != x.key
    {
    }

    lemma HoldsMore(s: set<SkipNode>, m: Table, n: SkipNode)
      requires Holds(s, m) && n.key !in m && n !in s && |s| == |m|
      ensures Holds(s + {n}, m[n.key := n.value]) && |s + {n}| == |m[n.key := n.value]| == |m| + 1
    {
    }

    lemma HeadApart()
      requires NodesOk(nodes)
      ensures head !in nodes
    {
    }

    method LinkNew(key: Bytes, value: Bytes, height: nat) returns (n: SkipNode)
      requires Valid() && 1 <= height && key !in contents
      modifies nodes, head
      ensures fresh(n) && n.key == key && n.value == value
      ensures NodesOk(nodes + {n}) && LevelsOk(nodes + {n}) && Holds(nodes + {n}, contents[key := value])
      ensures |nodes + {n}| == |contents[key := value]| == |contents| + 1
    {
      hide Less, Total, LevelsOk, KeysOf, NodesOk, UniqueKeys;
      HeadApart();
      KeysAbsent(nodes, key);
      GrowHead(height);
      n := new SkipNode(height, key, value);
      LinkAll(n);
      HoldsMore(nodes, contents, n);
    }

    method Insert(key: Bytes, value: Bytes, height: nat)
      requires Valid() && 1 <= height && key !in contents
      modifies this, nodes, head
      ensures Valid() && contents == old(contents)[key := value] && fresh(nodes - old(nodes))
    {
      hide Less, Total, LevelsOk, Holds, NodesOk, KeysOf, UniqueKeys;
      TotalWith(contents, key, value);
      var n := LinkNew(key, value, height);
      size, entriesCnt := size + |key| + |value|, entriesCnt + 1;
      nodes, contents := nodes + {n}, contents[key := value];
    }

    /** Insertion or replacement; the height is whatever the source of randomness gives. */
    method Put(key: Bytes, value: Bytes, height: nat)
      requires Valid() && 1 <= height
      modifies this, nodes, head
      ensures Valid() && contents == old(contents)[key := value] && fresh(nodes - old(nodes))
    {
      hide Less, Total, LinkOk, LevelOk;
      var x := GetNode(key);
      if x != null {
        Replace(x, value);
      } else {
        Insert(key, value, height);
      }
    }

    /** The entries in key order: a strictly sorted list of exactly the map's entries. */
    method All() returns (kvs: seq<KV>)
      requires Valid()
      ensures Sorted(kvs) && Entries(kvs, contents) && |kvs| == |contents|
    {
      hide Less, Total, LinkOk, LevelOk, NodesOk, Holds, Sorted, Entries;
      kvs := [];
      NothingListed(contents);
      if |head.nexts| == 0 {
        NoNodes();
        return;
      }
      var move: SkipNode := head;
      ghost var seen: set<SkipNode> := {};
      assert LevelOk(nodes, 0);
      while move.nexts[0] != null
        invariant 0 < |move.nexts| && (move == head || move in nodes)
        invariant seen <= nodes && |kvs| == |seen| && Sorted(kvs) && Entries(kvs, contents)
        invariant forall y :: y in nodes ==> (y !in seen <==> Before(move, y))
        invariant if move == head then kvs == [] else kvs != [] && kvs[|kvs| - 1].key == move.key
        decreases nodes - seen
      {
        var n := move.nexts[0];
        NextIsLeast(move, n);
        SortedMore(kvs, KV(n.key, n.value));
        EntriesMore(kvs, n);
        kvs := kvs + [KV(n.key, n.value)];
        seen := seen + {n};
        move := n;
      }
      NothingBehind(move);
      assert seen == nodes;
    }

    lemma NoNodes()
      requires NodesOk(nodes) && |head.nexts| == 0
      ensures nodes == {}
    {
    }

    lemma EntriesMore(kvs: seq<KV>, n: SkipNode)
      requires Entries(kvs, contents) && Holds(nodes, contents) && n in nodes
      ensures Entries(kvs + [KV(n.key, n.value)], contents)
    {
    }

    lemma NothingBehind(x: SkipNode)
      requires NodesOk(nodes) && LevelOk(nodes, 0) && (x == head || x in nodes) && 0 < |x.nexts| && x.nexts[0] == null
      ensures forall y :: y in nodes ==> !Before(x, y)
    {
      assert LinkOk(nodes, x, 0);
    }

    /** What is behind n is exactly what is behind its predecessor, but n. */
    lemma NextIsLeast(x: SkipNode, n: SkipNode)
      requires NodesOk(nodes) && 0 < |x.nexts| && x.nexts[0] == n && LevelOk(nodes, 0) && (x == head || x in nodes)
      ensures n in nodes && 0 < |n.nexts| && Before(x, n)
      ensures forall y :: y in nodes ==> (Before(n, y) <==> Before(x, y) && y != n)
    {
      hide Less;
      assert LinkOk(nodes, x, 0);
      forall y | y in nodes ensures Before(n, y) <==> Before(x, y) && y != n {
        NotBoth(y.key, n.key);
        NotBoth(n.key, y.key);
        if Before(n, y) && x != head {
          LessTrans(x.key, n.key, y.key);
        }
      }
    }
  }

  /** These are entries of the map. */
  ghost predicate Entries(kvs: seq<KV>, m: Table) {
    forall i :: 0 <= i < |kvs| ==> kvs[i].key in m && m[kvs[i].key] == kvs[i].value
  }

  lemma NothingListed(m: Table)
    ensures Entries([], m) && Sorted([])
  {
  }

  lemma SortedMore(kvs: seq<KV>, kv: KV)
    requires Sorted(kvs) && (kvs != [] ==> Less(kvs[|kvs| - 1].key, kv.key))
    ensures Sorted(kvs + [kv])
  {
    hide Less;
    forall i | 0 <= i < |kvs| ensures Less(kvs[i].key, kv.key) {
      if i < |kvs| - 1 {
        LessTrans(kvs[i].key, kvs[|kvs| - 1].key, kv.key);
      }
    }
  }

  // ---------------------------------------------------------------- recovery

  lemma {:induction false} ReplayMore(m: Table, kvs: seq<KV>, kv: KV)
    ensures Replay(m, kvs + [kv]) == Replay(m, kvs)[kv.key := kv.value]
    decreases |kvs|
  {
    if kvs == [] {
      assert (kvs + [kv])[1..] == [];
    } else {
      assert (kvs + [kv])[1..] == kvs[1..] + [kv];
      ReplayMore(m[kvs[0].key := kvs[0].value], kvs[1..], kv);
    }
  }

  /** Puts everything a log holds; a damaged log restores nothing. */
  method RestoreToMemtable(body: Bytes, t: Skiplist, heights: nat -> nat) returns (r: Result<()>)
    requires t.Valid() && forall i :: 1 <= heights(i)
    modifies t, t.nodes, t.head
    ensures t.Valid()
    ensures match ReadWal(body)
            case Ok(kvs) => r == Ok(()) && t.contents == Replay(old(t.contents), kvs)
            case Err(e) => r == Err(e) && t.contents == old(t.contents)
  {
    hide ReadWal, Skiplist.Valid;
    var read := ReadAllRecords(body);
    if read.Err? { return Err(read.error); }
    var kvs := read.value;
    for i := 0 to |kvs|
      invariant t.Valid() && fresh(t.nodes - old(t.nodes))
      invariant t.contents == Replay(old(t.contents), kvs[..i])
    {
      t.Put(kvs[i].key, kvs[i].value, heights(i));
      ReplayMore(old(t.contents), kvs[..i], kvs[i]);
      assert kvs[..i + 1] == kvs[..i] + [kvs[i]];
    }
    assert kvs[..|kvs|] == kvs;
    return Ok(());
  }

  /** Logging each Put and replaying the log gives a memtable with the same contents. */
  method PutLogAndRestore(puts: seq<KV>, heights: nat -> nat, heights': nat -> nat)
    returns (t: Skiplist, restored: Skiplist, log: WALWriter)
    requires AllFit(puts) && (forall i :: 1 <= heights(i)) && (forall i :: 1 <= heights'(i))
    ensures t.Valid() && restored.Valid() && log.dest == Wal(puts)
    ensures t.contents == Replay(map[], puts) == restored.contents
  {
    hide Wal, WalRecord, Skiplist.Valid, ReadWal, Replay;
    assert Replay(map[], []) == map[] by { NothingReplayed(); }
    t := new Skiplist();
    log := new WALWriter();
    assert puts[..0] == [];
    EmptyWal();
    for i := 0 to |puts|
      invariant t.Valid() && fresh(t) && fresh(t.nodes) && fresh(t.head)
      invariant t.contents == Replay(map[], puts[..i]) && log.dest == Wal(puts[..i])
    {
      t.Put(puts[i].key, puts[i].value, heights(i));
      log.Write(puts[i].key, puts[i].value);
      ReplayMore(map[], puts[..i], puts[i]);
      WalMore(puts[..i], puts[i]);
      assert puts[..i + 1] == puts[..i] + [puts[i]];
    }
    assert puts[..|puts|] == puts;
    WalRoundTrip(puts);
    restored := new Skiplist();
    var _ := RestoreToMemtable(log.dest, restored, heights');
  }

  lemma NothingReplayed()
    ensures Replay(map[], []) == map[]
  {
  }

  lemma EmptyWal()
    ensures Wal([]) == []
  {
  }

  lemma {:induction false} WalMore(kvs: seq<KV>, kv: KV)
    ensures Wal(kvs + [kv]) == Wal(kvs) + WalRecord(kv)
    decreases |kvs|
  {
    hide WalRecord;
    if kvs == [] {
      assert (kvs + [kv])[1..] == [];
    } else {
      assert (kvs + [kv])[1..] == kvs[1..] + [kv];
      WalMore(kvs[1..], kv);
    }
  }
}
