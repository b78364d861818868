/**
 Which virtual node names the nodes of a ring have.
 */
module HashMembers {
  import opened HashNames
  import opened HashCircle
  import opened HashOwners
  import opened HashLeaving

  /** raw is a virtual node name of some node. */
  ghost predicate IsName(n: map<string, nat>, raw: string) {
    exists id, i :: id in n && 0 <= i < n[id] && RawKey(id, i) == raw
  }

  ghost predicate NamesAre(n: map<string, nat>, placed: set<string>) {
    forall raw :: raw in placed <==> IsName(n, raw)
  }

  /** No node id is a virtual node name of another node. */
  ghost predicate NoClash(n: map<string, nat>) {
    forall id, i :: id in n && 0 <= i < n[id] ==> RawKey(id, i) !in n
  }

  ghost function Upto(id: string, k: nat): set<string> { set i | 0 <= i < k :: RawKey(id, i) }

  /** The ring when the first k names of a node have been added. */
  ghost function Joined(ring: Ring, h: Hash, id: string, k: nat): Ring
    decreases k
  {
    if k == 0 then ring else AddTo(Joined(ring, h, id, k - 1), h(RawKey(id, k - 1)), RawKey(id, k - 1))
  }

  lemma UptoMore(id: string, k: nat)
    ensures Upto(id, k + 1) == Upto(id, k) + {RawKey(id, k)}
  {
  }

  lemma NotUpto(id: string, k: nat)
    ensures RawKey(id, k) !in Upto(id, k)
  {
    if RawKey(id, k) in Upto(id, k) {
      var i :| 0 <= i < k && RawKey(id, k) == RawKey(id, i);
      RawInjective(id, k, id, i);
    }
  }

  lemma NamesJoin(n: map<string, nat>, placed: set<string>, id: string, k: nat)
    requires NamesAre(n, placed) && id !in n
    ensures NamesAre(n[id := k], placed + Upto(id, k))
  {
  }

  lemma NamesLeave(n: map<string, nat>, placed: set<string>, id: string)
    requires NamesAre(n, placed) && id in n
    ensures NamesAre(n - {id}, placed - Upto(id, n[id]))
    ensures forall raw :: raw in placed - Upto(id, n[id]) ==> NodeId(raw) != id && NodeId(raw) in n
    ensures Upto(id, n[id]) <= placed
  {
    var n', gone := n - {id}, Upto(id, n[id]);
    forall raw | raw in gone ensures raw in placed {
      var i :| 0 <= i < n[id] && raw == RawKey(id, i);
      assert IsName(n, raw);
    }
    forall raw | raw in placed - gone ensures IsName(n', raw) && NodeId(raw) != id && NodeId(raw) in n {
      var x, i :| x in n && 0 <= i < n[x] && RawKey(x, i) == raw;
      NodeIdOfRaw(x, i);
      assert x in n' && i < n'[x];
    }
    forall raw | IsName(n', raw) ensures raw in placed - gone {
      var x, i :| x in n' && 0 <= i < n'[x] && RawKey(x, i) == raw;
      assert x in n && i < n[x];
      if raw in gone {
        var j :| 0 <= j < n[id] && raw == RawKey(id, j);
        RawInjective(x, i, id, j);
      }
    }
  }

  lemma NameOf(n: map<string, nat>, placed: set<string>, raw: string)
    requires NamesAre(n, placed) && raw in placed
    ensures NodeId(raw) in n && exists i :: 0 <= i < n[NodeId(raw)] && raw == RawKey(NodeId(raw), i)
  {
    var x, i :| x in n && 0 <= i < n[x] && RawKey(x, i) == raw;
    NodeIdOfRaw(x, i);
  }

  /** Another node has names of its own. */
  lemma OtherStays(n: map<string, nat>, placed: set<string>, ring: Ring, h: Hash, a: string, b: string)
    requires NamesAre(n, placed) && RingOk(ring, h, placed) && b in n && b != a && n[b] > 0
    ensures Others(ring, a) != {}
  {
    var raw := RawKey(b, 0);
    assert IsName(n, raw);
    NodeIdOfRaw(b, 0);
    var l := ring[h(raw)];
    var i :| 0 <= i < |l| && l[i] == raw;
    assert HasOther(l, a);
    assert h(raw) in Others(ring, a);
  }

  /** The i-th name is still there; it is alone if it is the last one of the only node. */
  lemma NextName(n: map<string, nat>, p: set<string>, a: string, i: nat)
    requires NamesAre(n, p) && a in n && i < n[a]
    ensures var placed, raw := p - Upto(a, i), RawKey(a, i);
            && raw in placed && NodeId(raw) == a
            && (forall x :: x in placed ==> NodeId(x) in n)
            && ((forall x :: x in placed ==> NodeId(x) == a) && i == n[a] - 1 ==> placed == {raw})
  {
    hide NodeId, RawKey, Upto;
    var placed, raw := p - Upto(a, i), RawKey(a, i);
    assert IsName(n, raw);
    NotUpto(a, i);
    NodeIdOfRaw(a, i);
    forall x | x in placed ensures NodeId(x) in n && (NodeId(x) == a && i == n[a] - 1 ==> x == raw) {
      NameOf(n, p, x);
      var j :| 0 <= j < n[NodeId(x)] && x == RawKey(NodeId(x), j);
      InUpto(a, j, i);
    }
  }

  lemma InUpto(id: string, j: nat, i: nat)
    ensures j < i ==> RawKey(id, j) in Upto(id, i)
  {
  }

  /** Without other nodes, every name is the node's. */
  lemma AllMine(ring: Ring, h: Hash, placed: set<string>, a: string)
    requires RingOk(ring, h, placed)
    ensures Others(ring, a) == {} ==> forall x :: x in placed ==> NodeId(x) == a
  {
    if Others(ring, a) == {} {
      forall x | x in placed ensures NodeId(x) == a {
        var l := ring[h(x)];
        var i :| 0 <= i < |l| && l[i] == x;
        assert NodeId(x) != a ==> HasOther(l, a);
        assert HasOther(l, a) ==> h(x) in Others(ring, a);
      }
    }
  }

  lemma OnlyName(ring: Ring, h: Hash, placed: set<string>, raw: string)
    requires RingOk(ring, h, placed) && raw in placed
    ensures placed == {raw} ==> ring.Keys == {h(raw)} && |ring[h(raw)]| == 1
  {
    hide ListOk;
    NamePlaced(ring, h, placed, raw);
    if placed == {raw} {
      NamesPlaced(ring, h, placed, h(raw));
      var l := ring[h(raw)];
      if |l| > 1 { TwoNames(ring, h, placed, h(raw)); }
      forall v | v in ring ensures v == h(raw) {
        NamesPlaced(ring, h, placed, v);
        NameScore(ring, h, placed, v);
      }
    }
  }

  lemma TwoNames(ring: Ring, h: Hash, placed: set<string>, v: Score)
    requires RingOk(ring, h, placed) && v in ring && |ring[v]| > 1
    ensures ring[v][0] in placed && ring[v][1] in placed && ring[v][0] != ring[v][1]
  {
    assert ListOk(ring, h, placed, v);
  }

  lemma NameScore(ring: Ring, h: Hash, placed: set<string>, v: Score)
    requires RingOk(ring, h, placed) && v in ring
    ensures ring[v] != [] && h(ring[v][0]) == v
  {
    assert ListOk(ring, h, placed, v);
  }

  lemma UptoNone(id: string)
    ensures Upto(id, 0) == {}
  {
  }

  lemma NewName(n: map<string, nat>, placed: set<string>, id: string, i: nat)
    requires NamesAre(n, placed) && id !in n
    ensures RawKey(id, i) !in placed + Upto(id, i)
  {
    NotUpto(id, i);
    if RawKey(id, i) in placed {
      NameOf(n, placed, RawKey(id, i));
      NodeIdOfRaw(id, i);
    }
  }
}
