/**
 The peer ring of the cache: hashes of virtual nodes in a sorted list, found by binary search. A hash that
 is taken already is skipped, so nodes may have fewer virtual nodes than asked for.
 */
module CacheRing {
  import opened Basics
  import opened HashNames

  type Hash = string -> nat
  type Owners = map<nat, string>

  // ---------------------------------------------------------------- what a lookup means

  /** k is the first hash from x on, around the circle. */
  ghost predicate IsSucc(ks: set<nat>, x: nat, k: nat) {
    && k in ks
    && if k >= x then forall y :: y in ks && y >= x ==> k <= y else forall y :: y in ks ==> y < x && k <= y
  }

  lemma SuccUnique(ks: set<nat>, x: nat, k: nat, l: nat)
    requires IsSucc(ks, x, k) && IsSucc(ks, x, l)
    ensures k == l
  {
  }

  lemma {:induction false} HasLeast(ks: set<nat>) returns (k: nat)
    requires ks != {}
    ensures k in ks && forall y :: y in ks ==> k <= y
    decreases |ks|
  {
    k :| k in ks;
    if y :| y in ks && y < k {
      assert ks == (ks - {k}) + {k};
      k := HasLeast(ks - {k});
      assert k <= y;
    }
  }

  lemma HasSucc(ks: set<nat>, x: nat)
    requires ks != {}
    ensures exists k :: IsSucc(ks, x, k)
  {
    var up := set y | y in ks && y >= x;
    if up != {} {
      var k := HasLeast(up);
      assert forall y :: y in ks && y >= x ==> y in up;
      assert IsSucc(ks, x, k);
    } else {
      var k := HasLeast(ks);
      assert k !in up && forall y :: y in ks ==> y !in up;
      assert IsSucc(ks, x, k);
    }
  }

  /** Who owns a point of the circle. */
  ghost function Owner(m: Owners, x: nat): string
    requires m != map[]
  {
    HasSucc(m.Keys, x);
    var k :| IsSucc(m.Keys, x, k);
    m[k]
  }

  lemma OwnerIs(m: Owners, x: nat, k: nat)
    requires IsSucc(m.Keys, x, k)
    ensures m != map[] && Owner(m, x) == m[k]
  {
    HasSucc(m.Keys, x);
    var l :| IsSucc(m.Keys, x, l) && Owner(m, x) == m[l];
    SuccUnique(m.Keys, x, k, l);
  }

  /** Hashes that come with a node give points to that node only, and hashes that go take theirs only. */
  lemma OwnersDiffer(m: Owners, m': Owners, node: string, x: nat)
    requires m != map[] && m.Keys <= m'.Keys && (forall k :: k in m ==> m'[k] == m[k])
    requires forall k :: k in m' && k !in m ==> m'[k] == node
    ensures m' != map[] && (Owner(m', x) == Owner(m, x) || Owner(m', x) == node)
  {
    var y :| y in m;
    assert y in m';
    HasSucc(m'.Keys, x);
    var k :| IsSucc(m'.Keys, x, k);
    OwnerIs(m', x, k);
    if k in m {
      assert IsSucc(m.Keys, x, k);
      OwnerIs(m, x, k);
    }
  }

  // ---------------------------------------------------------------- placing and taking out

  function Name(node: string, i: nat): string { node + "-" + Decimal(i) }

  /** The virtual nodes of a node from the i-th on, each at its hash unless that is taken. */
  function Place(m: Owners, h: Hash, node: string, i: nat, replicas: nat): Owners
    decreases replicas - i
  {
    if i >= replicas then m
    else Place(if h(Name(node, i)) in m then m else m[h(Name(node, i)) := node], h, node, i + 1, replicas)
  }

  function Displace(m: Owners, node: string): Owners { map k | k in m && m[k] != node :: m[k] }

  /** One of the node's virtual nodes from the i-th on has this hash. */
  ghost predicate Hits(h: Hash, node: string, i: nat, replicas: nat, k: nat) {
    exists j: nat :: i <= j < replicas && h(Name(node, j)) == k
  }

  /** Hashes that were taken keep their owner, and the node gets all others of its own. */
  ghost predicate Placed(m: Owners, m': Owners, h: Hash, node: string, i: nat, replicas: nat) {
    && (forall k :: k in m ==> k in m' && m'[k] == m[k])
    && (forall k :: k in m' && k !in m ==> m'[k] == node && Hits(h, node, i, replicas, k))
    && (forall k :: Hits(h, node, i, replicas, k) ==> k in m')
  }

  lemma {:induction false} PlaceIs(m: Owners, h: Hash, node: string, i: nat, replicas: nat)
    ensures Placed(m, Place(m, h, node, i, replicas), h, node, i, replicas)
    decreases replicas - i
  {
    if i < replicas {
      var k := h(Name(node, i));
      var m1 := if k in m then m else m[k := node];
      PlaceIs(m1, h, node, i + 1, replicas);
      HitsOneMore(h, node, i, replicas);
    }
  }

  lemma HitsOneMore(h: Hash, node: string, i: nat, replicas: nat)
    requires i < replicas
    ensures forall k :: Hits(h, node, i, replicas, k) <==> k == h(Name(node, i)) || Hits(h, node, i + 1, replicas, k)
  {
    assert h(Name(node, i)) == h(Name(node, i));
  }

  /** Adding a node changes an owner only to that node. */
  lemma AddMovesToNode(m: Owners, h: Hash, node: string, replicas: nat, x: nat)
    requires m != map[]
    ensures var m' := Place(m, h, node, 0, replicas);
            m' != map[] && (Owner(m', x) != Owner(m, x) ==> Owner(m', x) == node)
  {
    PlaceIs(m, h, node, 0, replicas);
    OwnersDiffer(m, Place(m, h, node, 0, replicas), node, x);
  }

  /** Removing a node changes only the owners of what it owned. */
  lemma RemoveMovesOwnOnly(m: Owners, node: string, x: nat)
    requires Displace(m, node) != map[]
    ensures m != map[] && (Owner(m, x) != node ==> Owner(Displace(m, node), x) == Owner(m, x))
  {
    var m' := Displace(m, node);
    OwnersDiffer(m', m, node, x);
  }

  /** Adding a new node and removing it again restores every owner. */
  lemma AddThenRemove(m: Owners, h: Hash, node: string, replicas: nat)
    requires forall k :: k in m ==> m[k] != node
    ensures Displace(Place(m, h, node, 0, replicas), node) == m
  {
    PlaceIs(m, h, node, 0, replicas);
  }

  // ---------------------------------------------------------------- the ring

  ghost predicate Ascending(s: seq<nat>) { forall i, j :: 0 <= i < j < |s| ==> s[i] < s[j] }

  /** The sorting routine of the standard library, for distinct numbers. */
  method SortInts(s: seq<nat>) returns (r: seq<nat>)
    requires Distinct(s)
    ensures Ascending(r) && Elems(r) == Elems(s)
  {
    r := [];
    for i := 0 to |s|
      invariant Ascending(r) && Elems(r) == Elems(s[..i])
    {
      var k := 0;
      while k < |r| && r[k] < s[i]
        invariant 0 <= k <= |r| && forall j :: 0 <= j < k ==> r[j] < s[i]
      {
        k := k + 1;
      }
      InsertOk(s, i, r, k);
      r := r[..k] + [s[i]] + r[k..];
    }
    assert s[..|s|] == s;
  }

  lemma InsertOk(s: seq<nat>, i: nat, r: seq<nat>, k: nat)
    requires Distinct(s) && i < |s| && Ascending(r) && Elems(r) == Elems(s[..i]) && k <= |r|
    requires (forall j :: 0 <= j < k ==> r[j] < s[i]) && (k < |r| ==> s[i] <= r[k])
    ensures var q := r[..k] + [s[i]] + r[k..]; Ascending(q) && Elems(q) == Elems(s[..i + 1])
  {
    var q := r[..k] + [s[i]] + r[k..];
    assert s[..i + 1] == s[..i] + [s[i]];
    forall j | 0 <= j < |r| ensures r[j] != s[i] {
      assert r[j] in Elems(s[..i]);
    }
    forall x ensures x in Elems(q) <==> x in Elems(s[..i + 1]) {
      assert x in q <==> x in r || x == s[i];
      assert x in Elems(r) <==> x in Elems(s[..i]);
      assert x in s[..i + 1] <==> x in s[..i] || x == s[i];
    }
  }

  /** The hashes listed for a node are those it owns. */
  ghost predicate Tied(m: Owners, nh: map<string, seq<nat>>) {
    && (forall n, k :: n in nh && k in nh[n] ==> k in m && m[k] == n)
    && (forall k :: k in m ==> m[k] in nh && k in nh[m[k]])
  }

  lemma TiedNew(m: Owners, nh: map<string, seq<nat>>, node: string)
    requires Tied(m, nh) && node !in nh
    ensures Tied(m, nh[node := []])
  {
  }

  lemma TiedMore(m: Owners, nh: map<string, seq<nat>>, node: string, hashes: seq<nat>, k: nat)
    requires Tied(m, nh[node := hashes]) && k !in m
    ensures Tied(m[k := node], nh[node := hashes + [k]])
  {
    var nh0, nh1 := nh[node := hashes], nh[node := hashes + [k]];
    forall n, x | n in nh1 && x in nh1[n] ensures x in m[k := node] && m[k := node][x] == n {
      assert n in nh0 && (x in nh0[n] || (n == node && x == k));
    }
  }

  /** A node that is not listed owns no hash, so adding and removing it restores the ring. */
  lemma NewNodeRestores(m: Owners, nh: map<string, seq<nat>>, h: Hash, node: string, replicas: nat)
    requires Tied(m, nh) && node !in nh
    ensures Displace(Place(m, h, node, 0, replicas), node) == m
  {
    AddThenRemove(m, h, node, replicas);
  }

  lemma TiedLess(m: Owners, nh: map<string, seq<nat>>, node: string)
    requires Tied(m, nh) && node in nh
    ensures m - Elems(nh[node]) == Displace(m, node) && Tied(Displace(m, node), nh - {node})
  {
  }

  class ConsistentHashMap {
    const h: Hash
    const replicas: nat
    var keys: seq<nat>
    var hashMap: Owners
    var nodeHashes: map<string, seq<nat>>
    var nodeCounts: map<string, nat>
    var totalRequests: nat

    /** Everything but the order of the hash list. */
    ghost predicate Consistent()
      reads this
    {
      && Distinct(keys) && Elems(keys) == hashMap.Keys
      && Tied(hashMap, nodeHashes)
      && nodeCounts.Keys == nodeHashes.Keys
    }

    ghost predicate Valid()
      reads this
    {
      Consistent() && Ascending(keys)
    }

    constructor (h: Hash, replicas: nat)
      ensures Valid() && hashMap == map[] && nodeHashes == map[] && this.h == h && this.replicas == replicas
    {
      this.h, this.replicas, keys, hashMap, nodeHashes, nodeCounts, totalRequests := h, replicas, [], map[], map[], map[], 0;
    }

    /** The owner of a key: the node at the first hash from the key's hash on; "" for an empty key or ring. */
    method Get(key: string) returns (node: string)
      requires Valid()
      modifies this`nodeCounts, this`totalRequests
      ensures Valid()
      ensures node == if key == "" || hashMap == map[] then "" else Owner(hashMap, h(key))
      ensures if key == "" || hashMap == map[] then totalRequests == old(totalRequests) && nodeCounts == old(nodeCounts)
              else totalRequests == old(totalRequests) + 1 && node in old(nodeCounts) &&
                   nodeCounts == old(nodeCounts)[node := old(nodeCounts)[node] + 1]
    {
      assert keys == [] ==> Elems(keys) == {};
      if key == "" { return ""; }
      if |keys| == 0 { return ""; }
      assert keys[0] in Elems(keys);
      var hash := h(key);
      var idx := Search(hash);
      FoundIsSucc(hash, idx);
      if idx == |keys| { idx := 0; }
      OwnerIs(hashMap, hash, keys[idx]);
      node := hashMap[keys[idx]];
      if node in nodeCounts { nodeCounts := nodeCounts[node := nodeCounts[node] + 1]; }
      totalRequests := totalRequests + 1;
    }

    /** Binary search for the first hash that is not below x. */
    method Search(x: nat) returns (i: nat)
      requires Ascending(keys)
      ensures i <= |keys| && (forall k :: 0 <= k < i ==> keys[k] < x) && (forall k :: i <= k < |keys| ==> keys[k] >= x)
    {
      i := 0;
      var j := |keys|;
      while i < j
        invariant 0 <= i <= j <= |keys|
        invariant (forall k :: 0 <= k < i ==> keys[k] < x) && (forall k :: j <= k < |keys| ==> keys[k] >= x)
      {
        var m := (i + j) / 2;
        if keys[m] < x { i := m + 1; } else { j := m; }
      }
    }

    /** What binary search finds, or the first hash if it finds none, is the successor. */
    lemma FoundIsSucc(x: nat, i: nat)
      requires Distinct(keys) && Ascending(keys) && Elems(keys) == hashMap.Keys && keys != [] && i <= |keys|
      requires (forall k :: 0 <= k < i ==> keys[k] < x) && (forall k :: i <= k < |keys| ==> keys[k] >= x)
      ensures IsSucc(hashMap.Keys, x, keys[if i == |keys| then 0 else i])
    {
      var j := if i == |keys| then 0 else i;
      assert keys[j] in Elems(keys);
      forall y | y in hashMap ensures (i < |keys| && y >= x ==> keys[j] <= y) && (i == |keys| ==> y < x && keys[j] <= y) {
        assert y in Elems(keys);
        var k :| 0 <= k < |keys| && keys[k] == y;
        assert j < k ==> keys[j] < keys[k];
      }
    }

    /** Places the virtual nodes of a node that is not there yet; the hash list is left unsorted. */
    method AddNodeLocked(node: string)
      requires Consistent()
      modifies this
      ensures Consistent()
      ensures hashMap == if node in old(nodeHashes) then old(hashMap) else Place(old(hashMap), h, node, 0, replicas)
      ensures nodeHashes.Keys == old(nodeHashes).Keys + {node}
      ensures nodeCounts == if node in old(nodeCounts) then old(nodeCounts) else old(nodeCounts)[node := 0]
      ensures totalRequests == old(totalRequests)
    {
      if node in nodeHashes { return; }
      hide Place, Name, Distinct, Elems, Tied;
      var hashes := [];
      TiedNew(hashMap, nodeHashes, node);
      ghost var goal := Place(hashMap, h, node, 0, replicas);
      var i := 0;
      while i < replicas
        invariant 0 <= i <= replicas && Place(hashMap, h, node, i, replicas) == goal
        invariant Distinct(keys) && Elems(keys) == hashMap.Keys && nodeHashes == old(nodeHashes)
        invariant nodeCounts == old(nodeCounts) && totalRequests == old(totalRequests)
        invariant Tied(hashMap, nodeHashes[node := hashes])
      {
        var hash := h(Name(node, i));
        PlaceStep(hashMap, h, node, i, replicas);
        if hash !in hashMap {
          AppendOk(keys, hash);
          TiedMore(hashMap, nodeHashes, node, hashes, hash);
          keys := keys + [hash];
          hashMap := hashMap[hash := node];
          hashes := hashes + [hash];
        }
        i := i + 1;
      }
      PlaceStep(hashMap, h, node, i, replicas);
      nodeHashes := nodeHashes[node := hashes];
      if node !in nodeCounts { nodeCounts := nodeCounts[node := 0]; }
    }

    /** Adds every named node, then sorts once. */
    method Add(nodes: seq<string>) returns (ok: bool)
      requires Valid()
      modifies this
      ensures Valid() && (ok <==> nodes != [])
      ensures forall k :: k in old(hashMap) ==> k in hashMap && hashMap[k] == old(hashMap)[k]
      ensures forall k :: k in hashMap && k !in old(hashMap) ==>
                exists p: nat :: FirstClaim(h, old(nodeHashes).Keys, replicas, nodes, p, k) && hashMap[k] == nodes[p]
      ensures forall k, p: nat :: Claims(h, old(nodeHashes).Keys, replicas, nodes, p, k) ==> k in hashMap
      ensures forall n :: n in nodeHashes <==> n in old(nodeHashes) || (n in nodes && n != "")
      ensures forall n :: n in nodeCounts ==> nodeCounts[n] == if n in old(nodeCounts) then old(nodeCounts)[n] else 0
    {
      hide Place, Distinct, Elems, Hits;
      if nodes == [] { return false; }
      AddAllIs(hashMap, nodeHashes.Keys, h, replicas, nodes);
      ghost var goal := AddAll(hashMap, nodeHashes.Keys, h, replicas, nodes);
      for i := 0 to |nodes|
        invariant Consistent() && AddAll(hashMap, nodeHashes.Keys, h, replicas, nodes[i..]) == goal
        invariant forall n :: n in nodeHashes <==> n in old(nodeHashes) || (n in nodes[..i] && n != "")
        invariant forall n :: n in nodeCounts ==> nodeCounts[n] == if n in old(nodeCounts) then old(nodeCounts)[n] else 0
      {
        if nodes[i] != "" { AddNodeLocked(nodes[i]); }
      }
      keys := SortInts(keys);
      AscendingDistinct(keys);
      return true;
    }

    /** Takes out a node's hashes; an unknown node or an empty name is an error. */
    method Remove(node: string) returns (ok: bool)
      requires Valid()
      modifies this
      ensures Valid() && (ok <==> node != "" && node in old(nodeHashes))
      ensures hashMap == if ok then Displace(old(hashMap), node) else old(hashMap)
      ensures nodeHashes == if ok then old(nodeHashes) - {node} else old(nodeHashes)
      ensures nodeCounts == (if ok then old(nodeCounts) - {node} else old(nodeCounts)) && totalRequests == old(totalRequests)
    {
      hide Tied, Distinct, Ascending, Displace;
      if node == "" || node !in nodeHashes { return false; }
      var hashes := nodeHashes[node];
      var toRemove: set<nat> := {};
      for i := 0 to |hashes|
        invariant toRemove == Elems(hashes[..i]) && hashMap == old(hashMap) - Elems(hashes[..i])
        invariant keys == old(keys) && nodeHashes == old(nodeHashes) && nodeCounts == old(nodeCounts)
        invariant totalRequests == old(totalRequests)
      {
        assert Elems(hashes[..i + 1]) == Elems(hashes[..i]) + {hashes[i]};
        hashMap := hashMap - {hashes[i]};
        toRemove := toRemove + {hashes[i]};
      }
      assert hashes[..|hashes|] == hashes;
      TiedLess(old(hashMap), nodeHashes, node);
      hide Elems, Distinct, Ascending, Tied, Filter;
      KeepFilter(keys, toRemove);
      keys := Keep(keys, toRemove);
      nodeHashes := nodeHashes - {node};
      nodeCounts := nodeCounts - {node};
      return true;
    }
  }

  /** The owners after adding nodes one by one; known nodes and empty names are passed over. */
  function AddAll(m: Owners, known: set<string>, h: Hash, replicas: nat, nodes: seq<string>): Owners
    decreases |nodes|
  {
    if nodes == [] then m
    else if nodes[0] == "" then AddAll(m, known, h, replicas, nodes[1..])
    else AddAll(if nodes[0] in known then m else Place(m, h, nodes[0], 0, replicas), known + {nodes[0]}, h, replicas, nodes[1..])
  }

  /** The p-th name is that of a new node with a virtual node at this hash. */
  ghost predicate Claims(h: Hash, known: set<string>, replicas: nat, nodes: seq<string>, p: nat, k: nat) {
    p < |nodes| && nodes[p] != "" && nodes[p] !in known && Hits(h, nodes[p], 0, replicas, k)
  }

  ghost predicate FirstClaim(h: Hash, known: set<string>, replicas: nat, nodes: seq<string>, p: nat, k: nat) {
    Claims(h, known, replicas, nodes, p, k) && forall q: nat :: q < p ==> !Claims(h, known, replicas, nodes, q, k)
  }

  /** A hash keeps its owner; a free one goes to the first new node in the list that has it. */
  lemma {:induction false} AddAllIs(m: Owners, known: set<string>, h: Hash, replicas: nat, nodes: seq<string>)
    ensures var m' := AddAll(m, known, h, replicas, nodes);
            && (forall k :: k in m ==> k in m' && m'[k] == m[k])
            && (forall k :: k in m' && k !in m ==>
                  exists p: nat :: FirstClaim(h, known, replicas, nodes, p, k) && m'[k] == nodes[p])
            && (forall k, p: nat :: Claims(h, known, replicas, nodes, p, k) ==> k in m')
    decreases |nodes|
  {
    hide Place, Hits;
    if nodes != [] {
      var node, rest := nodes[0], nodes[1..];
      var m1 := if node == "" || node in known then m else Place(m, h, node, 0, replicas);
      var known1 := if node == "" then known else known + {node};
      PlaceIs(m, h, node, 0, replicas);
      AddAllIs(m1, known1, h, replicas, rest);
      var m' := AddAll(m1, known1, h, replicas, rest);
      forall k | k in m' && k !in m
        ensures exists p: nat :: FirstClaim(h, known, replicas, nodes, p, k) && m'[k] == nodes[p]
      {
        if k in m1 {
          assert FirstClaim(h, known, replicas, nodes, 0, k);
        } else {
          var p: nat :| FirstClaim(h, known1, replicas, rest, p, k) && m'[k] == rest[p];
          LaterClaim(h, known, replicas, nodes, p, k);
          assert nodes[p + 1] == rest[p];
        }
      }
      forall k, p: nat | Claims(h, known, replicas, nodes, p, k) ensures k in m' {
        if nodes[p] == node {
          assert k in m1;
        } else {
          assert Claims(h, known1, replicas, rest, p - 1, k);
        }
      }
    }
  }

  lemma LaterClaim(h: Hash, known: set<string>, replicas: nat, nodes: seq<string>, p: nat, k: nat)
    requires nodes != []
    requires var known1 := if nodes[0] == "" then known else known + {nodes[0]};
             FirstClaim(h, known1, replicas, nodes[1..], p, k)
    requires !Claims(h, known, replicas, nodes, 0, k)
    ensures FirstClaim(h, known, replicas, nodes, p + 1, k)
  {
    hide Hits;
    var known1 := if nodes[0] == "" then known else known + {nodes[0]};
    forall q: nat | q < p + 1 ensures !Claims(h, known, replicas, nodes, q, k) {
      if q > 0 {
        assert !Claims(h, known1, replicas, nodes[1..], q - 1, k);
      }
    }
  }

  lemma PlaceStep(m: Owners, h: Hash, node: string, i: nat, replicas: nat)
    ensures Place(m, h, node, i, replicas) ==
            if i >= replicas then m
            else Place(if h(Name(node, i)) in m then m else m[h(Name(node, i)) := node], h, node, i + 1, replicas)
  {
  }

  lemma AppendOk(s: seq<nat>, x: nat)
    requires Distinct(s) && x !in Elems(s)
    ensures Distinct(s + [x]) && Elems(s + [x]) == Elems(s) + {x}
  {
    forall i | 0 <= i < |s| ensures s[i] != x { assert s[i] in Elems(s); }
  }

  lemma AscendingDistinct(s: seq<nat>)
    requires Ascending(s)
    ensures Distinct(s)
  {
  }

  function Filter(s: seq<nat>, drop: set<nat>): seq<nat> {
    if s == [] then [] else if s[0] in drop then Filter(s[1..], drop) else [s[0]] + Filter(s[1..], drop)
  }

  method Keep(s: seq<nat>, drop: set<nat>) returns (kept: seq<nat>)
    ensures kept == Filter(s, drop)
  {
    kept := [];
    for i := 0 to |s|
      invariant kept + Filter(s[i..], drop) == Filter(s, drop)
    {
      if s[i] !in drop { kept := kept + [s[i]]; }
    }
  }

  lemma {:induction false} KeepFilter(s: seq<nat>, drop: set<nat>)
    requires Ascending(s)
    ensures Ascending(Filter(s, drop)) && Distinct(Filter(s, drop))
    ensures forall x :: x in Filter(s, drop) <==> x in s && x !in drop
    ensures Elems(Filter(s, drop)) == Elems(s) - drop
    decreases |s|
  {
    if s != [] {
      KeepFilter(s[1..], drop);
      var f := Filter(s[1..], drop);
      forall i | 0 <= i < |f| ensures s[0] < f[i] { assert f[i] in s[1..]; }
    }
  }
}
