/**
 Rings, built through the cluster's own operations, at which removing a node goes wrong: the owners are
 wrong afterwards, the removal fails although another node is there, or a key is forgotten. And one at which a
 joining node is told to give keys to itself.
 */
module HashWitness {
  import opened HashNames
  import opened HashCircle
  import opened HashOwners
  import opened HashLeaving
  import opened HashMembers
  import opened HashRemoval
  import opened HashTasks
  import opened HashCluster

  /** Two nodes with one name each, and one key that has been asked for. */
  method Build(h: Hash, a: string, b: string) returns (c: ConsistentHash)
    requires a != b
    ensures fresh(c) && fresh(c.ring) && fresh(c.ring.nodes) && fresh(c.ring.root)
    ensures c.Valid() && c.h == h && c.ring.nodeToReplicas == map[a := 1, b := 1]
    ensures c.ring.ring == TwoNamed(h, a, b)
    ensures c.ring.ring != map[] &&
            forall d, x :: Recorded(c.ring.nodeToDataKey, d, x) <==> d == "k" && x == Owner(c.ring.ring, h("k"))
  {
    hide NodeId, RawKey, AddTo, Owner, Recorded, ConsistentHash.Valid;
    c := new ConsistentHash(h, 1);
    NoneKnown(c.ring.nodeToDataKey);
    JoinedOnce(c.ring.ring, h, a);
    var _, _ := c.AddNode(a, 1, _ => 1);
    JoinedOnce(c.ring.ring, h, b);
    var _, _ := c.AddNode(b, 1, _ => 1);
    NoRecords(c.ring.nodeToDataKey);
    TwoNamedIs(h, a, b);
    var _ := c.GetNode("k");
  }

  ghost function TwoNamed(h: Hash, a: string, b: string): Ring {
    AddTo(AddTo(map[], h(RawKey(a, 0)), RawKey(a, 0)), h(RawKey(b, 0)), RawKey(b, 0))
  }

  lemma TwoNamedIs(h: Hash, a: string, b: string)
    requires a != b
    ensures var v, w := h(RawKey(a, 0)), h(RawKey(b, 0));
            TwoNamed(h, a, b) == if v == w then map[v := [RawKey(a, 0), RawKey(b, 0)]]
                                 else map[v := [RawKey(a, 0)], w := [RawKey(b, 0)]]
    ensures TwoNamed(h, a, b) != map[]
  {
    hide RawKey, NodeId;
    NodeIdOfRaw(a, 0);
    NodeIdOfRaw(b, 0);
    var v, w, x, y := h(RawKey(a, 0)), h(RawKey(b, 0)), RawKey(a, 0), RawKey(b, 0);
    var first: Ring := AddTo(map[], v, x);
    assert first == map[v := [x]] && x != y;
    if v == w { assert [x] + [y] == [x, y]; }
  }

  lemma JoinedOnce(ring: Ring, h: Hash, id: string)
    ensures Joined(ring, h, id, 1) == AddTo(ring, h(RawKey(id, 0)), RawKey(id, 0))
  {
    assert Joined(ring, h, id, 0) == ring;
  }

  lemma NoneKnown(data: Data)
    requires data == map[]
    ensures forall d :: !Known(data, d)
  {
  }

  lemma NoRecords(data: Data)
    requires forall d :: !Known(data, d)
    ensures forall d, x :: !Recorded(data, d, x)
  {
    forall d, x ensures !Recorded(data, d, x) { assert Recorded(data, d, x) ==> Known(data, d); }
  }

  // ---------------------------------------------------------------- the owner is lost

  /** The second name at the score belongs to the empty id: the key stays where it is and the owner is wrong. */
  method EmptyIdLosesOwnership() returns (c: ConsistentHash, ok: bool)
    ensures ok && c.Settled() && !Owned(c.ring.ring, c.h, c.ring.nodeToDataKey)
  {
    hide NodeId, RawKey, TwoNamed, Owner, Recorded, FailsAt, Doomed, Owned, RingOk, NamesAre,
         ConsistentHash.Settled, After, DropsAt, SameKeys, NoClash, OnlyFrom, HasOtherNode, KeysOf, ToldOut, TellsNothing, Moves;
    var h: Hash := _ => 7;
    c := Build(h, "a", "");
    SameScore(h, "a", c.ring.nodeToDataKey);
    var went, _, _ := c.RemoveNode("a");
    ok := went;
  }

  lemma SameScore(h: Hash, a: string, data: Data)
    requires (forall s :: h(s) == 7) && a != "" && TwoNamed(h, a, "") != map[]
    requires forall d, x :: Recorded(data, d, x) <==> d == "k" && x == Owner(TwoNamed(h, a, ""), h("k"))
    ensures var ring := TwoNamed(h, a, "");
            !FailsAt(Placement(ring, data), h, a, 0) && Doomed(ring, h, data, a) != {}
  {
    hide NodeId, RawKey, Owner, FinalOwner;
    var ring, raw, other := TwoNamed(h, a, ""), RawKey(a, 0), RawKey("", 0);
    TwoNamedIs(h, a, "");
    NodeIdOfRaw(a, 0);
    NodeIdOfRaw("", 0);
    assert After(Placement(ring, data), h, a, 0).ring == ring;
    assert IsCeil(ring.Keys, 7, 7);
    OwnerIs(ring, 7, 7);
    assert Recorded(data, "k", a);
    assert NodeId(ring[7][1]) == "" && HasOther(ring[7], a);
    assert IsCeil(Others(ring, a), 7, 7);
    FinalOwnerIs(ring, a, 7, 7);
    assert FirstOther(ring[7], a) == FirstOther(ring[7][1..], a) == other;
    assert "k" in Doomed(ring, h, data, a);
  }

  // ---------------------------------------------------------------- the removal fails

  /** The walk from the only name at the score ends at the empty id: the removal fails although a node is left. */
  method EmptyIdStopsRemoval() returns (c: ConsistentHash, ok: bool)
    ensures !ok && "" in c.ring.nodeToReplicas
  {
    hide NodeId, RawKey, TwoNamed, Owner, Recorded, FailsAt, Doomed, Owned, RingOk, NamesAre,
         ConsistentHash.Settled, After, DropsAt, SameKeys, NoClash, OnlyFrom, HasOtherNode, KeysOf, ToldOut, TellsNothing, Moves;
    var h: Hash := s => if s == "a_0" then 10 else if s == "_0" then 20 else 5;
    c := Build(h, "a", "");
    Names();
    TwoScores(h, c.ring.nodeToDataKey);
    var went, _, _ := c.RemoveNode("a");
    ok := went;
  }

  lemma Names()
    ensures RawKey("a", 0) == "a_0" && RawKey("", 0) == "_0" && RawKey("a_0", 0) == "a_0_0"
    ensures RawKey("b", 0) == "b_0" && RawKey("b", 1) == "b_1"
  {
  }

  lemma TwoScores(h: Hash, data: Data)
    requires h(RawKey("a", 0)) == 10 && h(RawKey("", 0)) == 20 && h("k") == 5 && TwoNamed(h, "a", "") != map[]
    requires forall d, x :: Recorded(data, d, x) <==> d == "k" && x == Owner(TwoNamed(h, "a", ""), h("k"))
    ensures FailsAt(Placement(TwoNamed(h, "a", ""), data), h, "a", 0)
  {
    hide NodeId, RawKey, Owner;
    var ring := TwoNamed(h, "a", "");
    TwoNamedIs(h, "a", "");
    NodeIdOfRaw("a", 0);
    NodeIdOfRaw("", 0);
    assert After(Placement(ring, data), h, "a", 0) == Placement(ring, data);
    assert IsCeil(ring.Keys, 5, 10);
    OwnerIs(ring, 5, 10);
    assert Recorded(data, "k", "a");
    assert Stops(ring, "a") == {20};
  }

  // ---------------------------------------------------------------- a key is forgotten

  /** A node is named like a name of the one that leaves: its key is forgotten. */
  method NamesakeIsForgotten() returns (c: ConsistentHash, ok: bool, ghost before: Data)
    ensures ok && Known(before, "k") && !Known(c.ring.nodeToDataKey, "k")
  {
    hide NodeId, RawKey, TwoNamed, Owner, Recorded, FailsAt, Doomed, Owned, RingOk, NamesAre, Known,
         ConsistentHash.Valid, ConsistentHash.Settled, After, DropsAt, SameKeys, NoClash, OnlyFrom, HasOtherNode, KeysOf, ToldOut, TellsNothing, Moves;
    var h: Hash := s => if s == "a_0" then 10 else if s == "a_0_0" then 20 else 15;
    c := Build(h, "a", "a_0");
    before := c.ring.nodeToDataKey;
    Names();
    Namesake(h, before);
    var went, _, _ := c.RemoveNode("a");
    ok := went;
  }

  lemma Namesake(h: Hash, data: Data)
    requires h(RawKey("a", 0)) == 10 && h(RawKey("a_0", 0)) == 20 && h("k") == 15 && RawKey("a", 0) == "a_0"
    requires TwoNamed(h, "a", "a_0") != map[]
    requires forall d, x :: Recorded(data, d, x) <==> d == "k" && x == Owner(TwoNamed(h, "a", "a_0"), h("k"))
    ensures var s := Placement(TwoNamed(h, "a", "a_0"), data);
            !FailsAt(s, h, "a", 0) && Known(data, "k") && !Known(After(s, h, "a", 1).data, "k")
  {
    hide NodeId, RawKey, Owner;
    var ring := TwoNamed(h, "a", "a_0");
    var s := Placement(ring, data);
    TwoNamedIs(h, "a", "a_0");
    NodeIdOfRaw("a", 0);
    NodeIdOfRaw("a_0", 0);
    assert After(s, h, "a", 0) == s;
    assert IsCeil(ring.Keys, 15, 20);
    OwnerIs(ring, 15, 20);
    assert Recorded(data, "k", "a_0");
    assert forall d :: d in KeysOf(data, "a") ==> Recorded(data, d, "a");
    assert KeysOf(data, "a") == {};
    assert After(s, h, "a", 1) == Gone(s, h, "a", "a_0");
    assert Outgoing(ring, h, data, "a", 10) == {};
    assert After(s, h, "a", 1).data == data - {"a_0"};
    assert forall d, x :: Recorded(data - {"a_0"}, d, x) <==> Recorded(data, d, x) && x != "a_0";
  }

  // ---------------------------------------------------------------- a task that moves nothing

  /** The second name of a joining node comes before its first: the migrator is told to move a key from it to itself. */
  method ToldToItself() returns (tasks: seq<Task>)
    ensures exists i :: 0 <= i < |tasks| && tasks[i].from == tasks[i].to == "b"
  {
    hide NodeId, RawKey, Owner, Recorded, Owned, RingOk, NamesAre, ConsistentHash.Settled, AddTo, Known,
         SameKeys, TakesOwn, ToldIn;
    var h: Hash := s => if s == "a_0" then 100 else if s == "b_0" then 20 else if s == "b_1" then 10 else 5;
    var c := new ConsistentHash(h, 1);
    JoinedOnce(c.ring.ring, h, "a");
    Names();
    OneName(h);
    var _, _ := c.AddNode("a", 1, _ => 1);
    var node := c.GetNode("k");
    ghost var before := c.ring.nodeToDataKey;
    assert Recorded(before, "k", node.value);
    OwnArc(h, c.ring.ring, before, node.value);
    var _, told := c.AddNode("b", 2, _ => 1);
    ToldTo(before, c.ring.nodeToDataKey, "b", told);
    tasks := told;
  }

  lemma OneName(h: Hash)
    ensures AddTo(map[], h(RawKey("a", 0)), RawKey("a", 0)) == map[h(RawKey("a", 0)) := [RawKey("a", 0)]] != map[]
  {
    hide RawKey;
  }

  lemma OwnArc(h: Hash, ring: Ring, data: Data, x: string)
    requires h(RawKey("a", 0)) == 100 && h(RawKey("b", 0)) == 20 && h(RawKey("b", 1)) == 10 && h("k") == 5
    requires ring == map[100 := [RawKey("a", 0)]] && Recorded(data, "k", x)
    ensures TakesOwn(ring, h, data, "b", 1)
  {
    hide RawKey, NodeId, Owner;
    JoinedOnce(ring, h, "b");
    var r := Joined(ring, h, "b", 1);
    assert r == map[100 := [RawKey("a", 0)], 20 := [RawKey("b", 0)]];
    assert IsCeil(r.Keys, 10, 20);
    OwnerIs(r, 10, 20);
    NodeIdOfRaw("b", 0);
    assert Joined(ring, h, "b", 2) == AddTo(r, 10, RawKey("b", 1));
    assert Joined(ring, h, "b", 2).Keys == {100, 20, 10};
    assert Known(data, "k") && IsCeil(Joined(ring, h, "b", 2).Keys, h("k"), 10);
  }

  lemma ToldTo(first: Data, data: Data, id: string, tasks: seq<Task>)
    requires ToldIn(first, data, id, tasks)
    ensures forall i :: 0 <= i < |tasks| ==> tasks[i].to == id
  {
    forall i | 0 <= i < |tasks| ensures tasks[i].to == id { assert TaskIn(first, data, id, tasks[i]); }
  }
}
