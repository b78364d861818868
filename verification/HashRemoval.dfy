/**
 The removal of a node as a function: what ring and records are after each of its names has gone, when it
 fails, whose ownership is lost and which keys are forgotten.
 */
module HashRemoval {
  import opened HashNames
  import opened HashCircle
  import opened HashOwners
  import opened HashLeaving
  import opened HashMembers

  /** A ring and the data keys recorded with each node. */
  datatype Placement = Placement(ring: Ring, data: Data)

  /** The node has keys left, and the walk from the only name at a score ends at an id that reads as "no node". */
  ghost predicate Blocked(s: Placement, h: Hash, a: string, raw: string) {
    && KeysOf(s.data, a) != {}
    && h(raw) in s.ring && |s.ring[h(raw)]| == 1 && NodeId(s.ring[h(raw)][0]) == a && NextHeir(s.ring, a, h(raw)) == ""
  }

  /** A name goes: its keys are handed over and the record under the name itself is deleted. */
  ghost function Gone(s: Placement, h: Hash, a: string, raw: string): Placement {
    if h(raw) !in s.ring || s.ring[h(raw)] == [] then s else
    Placement(RemoveFrom(s.ring, h(raw), raw), Handed(s.ring, h, s.data, a, raw) - {raw})
  }

  /** The first i names of the node have gone. */
  ghost function After(s: Placement, h: Hash, a: string, i: nat): Placement
    decreases i
  {
    if i == 0 then s else Gone(After(s, h, a, i - 1), h, a, RawKey(a, i - 1))
  }

  /** The removal fails at the i-th name. */
  ghost predicate FailsAt(s: Placement, h: Hash, a: string, i: nat) {
    Blocked(After(s, h, a, i), h, a, RawKey(a, i))
  }

  /** A node named like the i-th name has keys when that name goes. */
  ghost predicate DropsAt(s: Placement, h: Hash, a: string, i: nat) {
    var t, raw := After(s, h, a, i), RawKey(a, i);
    h(raw) in t.ring && t.ring[h(raw)] != [] && KeysOf(Handed(t.ring, h, t.data, a, raw), raw) != {}
  }

  // ---------------------------------------------------------------- one name

  ghost predicate OnlyAt(data: Data, a: string) { forall d, x :: Recorded(data, d, x) ==> x == a }

  /** While a node leaves, its keys are where they may be. */
  ghost predicate OnWay(s: Placement, h: Hash, a: string) {
    if Others(s.ring, a) != {} then Leaving(s.ring, h, s.data, a) else OnlyAt(s.data, a)
  }

  lemma HandedOk(s: Placement, h: Hash, placed: set<string>, a: string, raw: string)
    requires RingOk(s.ring, h, placed) && raw in placed && NodeId(raw) == a && OnWay(s, h, a)
    requires h(raw) in s.ring && s.ring[h(raw)] != []
    ensures var t := Placement(RemoveFrom(s.ring, h(raw), raw), Handed(s.ring, h, s.data, a, raw));
            && Others(t.ring, a) == Others(s.ring, a) && OnWay(t, h, a)
            && Doomed(t.ring, h, t.data, a) == Doomed(s.ring, h, s.data, a)
            && (Others(s.ring, a) == {} ==> KeysOf(t.data, a) == KeysOf(s.data, a))
  {
    hide NodeId, RingOk, RemoveFrom, Others, Leaving, FinalOwner, Handed;
    NamePlaced(s.ring, h, placed, raw);
    FinalStays(s.ring, a, h(raw), raw);
    if Others(s.ring, a) != {} {
      if NodeId(s.ring[h(raw)][0]) == a {
        TakerIsHeir(s.ring, h, placed, a, raw);
        Handover(s.ring, h, placed, s.data, a, raw);
      } else {
        NotFirst(s.ring, h, placed, s.data, a, raw);
        NotHanded(s.ring, h, s.data, a, raw);
      }
      DoomedStay(s.ring, h, s.data, a, raw);
    } else {
      AllMine(s.ring, h, placed, a);
      HandedToItself(s.ring, h, placed, s.data, a, raw);
    }
  }

  lemma NotHanded(ring: Ring, h: Hash, data: Data, a: string, raw: string)
    requires h(raw) in ring && ring[h(raw)] != [] && NodeId(ring[h(raw)][0]) != a
    ensures Handed(ring, h, data, a, raw) == data
  {
  }

  /** A node that is alone on the ring keeps its keys. */
  lemma HandedToItself(ring: Ring, h: Hash, placed: set<string>, data: Data, a: string, raw: string)
    requires RingOk(ring, h, placed) && h(raw) in ring && ring[h(raw)] != []
    requires forall x :: x in placed ==> NodeId(x) == a
    ensures forall d, x :: Recorded(Handed(ring, h, data, a, raw), d, x) <==> Recorded(data, d, x)
    ensures KeysOf(Handed(ring, h, data, a, raw), a) == KeysOf(data, a)
  {
    hide NodeId;
    var v := h(raw);
    assert ListOk(ring, h, placed, v);
    if Stops(ring, a) != {} { assert ListOk(ring, h, placed, Ceil(Stops(ring, a), v)); }
    var to, keys := Taker(ring, a, v), Outgoing(ring, h, data, a, v);
    assert to == "" || to == a;
    forall d, x ensures Recorded(Handed(ring, h, data, a, raw), d, x) <==> Recorded(data, d, x) {
      MoveIs(data, keys, a, to, d, x);
    }
    assert forall d :: d in KeysOf(data, a) <==> Recorded(data, d, a);
    assert forall d :: d in KeysOf(Handed(ring, h, data, a, raw), a) <==> Recorded(Handed(ring, h, data, a, raw), d, a);
  }

  lemma GoneOk(s: Placement, h: Hash, placed: set<string>, a: string, raw: string)
    requires RingOk(s.ring, h, placed) && raw in placed && NodeId(raw) == a && raw != a && OnWay(s, h, a)
    ensures var t := Gone(s, h, a, raw);
            && RingOk(t.ring, h, placed - {raw}) && Others(t.ring, a) == Others(s.ring, a) && OnWay(t, h, a)
            && Doomed(t.ring, h, t.data, a) == Doomed(s.ring, h, s.data, a)
            && (Others(s.ring, a) == {} ==> KeysOf(t.data, a) == KeysOf(s.data, a))
            && (Others(s.ring, a) != {} ==> forall p :: FinalOwner(t.ring, a, p) == FinalOwner(s.ring, a, p))
  {
    hide NodeId, RingOk, RemoveFrom, Others, FinalOwner, Handed;
    NamePlaced(s.ring, h, placed, raw);
    FinalStays(s.ring, a, h(raw), raw);
    RemoveFromOk(s.ring, h, placed, raw);
    HandedOk(s, h, placed, a, raw);
    var t, data := Gone(s, h, a, raw), Handed(s.ring, h, s.data, a, raw);
    assert t.data == data - {raw};
    assert forall d, x :: Recorded(t.data, d, x) ==> Recorded(data, d, x);
  }

  // ---------------------------------------------------------------- all names

  /** After any number of its names, the keys are where they may be and the final owners are the same. */
  lemma {:induction false} AfterOk(s: Placement, h: Hash, n: map<string, nat>, p: set<string>, a: string, i: nat)
    requires NamesAre(n, p) && a in n && i <= n[a] && RingOk(s.ring, h, p) && OnWay(s, h, a)
    ensures var t := After(s, h, a, i);
            && RingOk(t.ring, h, p - Upto(a, i)) && Others(t.ring, a) == Others(s.ring, a) && OnWay(t, h, a)
            && Doomed(t.ring, h, t.data, a) == Doomed(s.ring, h, s.data, a)
            && (Others(s.ring, a) == {} ==> KeysOf(t.data, a) == KeysOf(s.data, a))
            && (Others(s.ring, a) != {} ==> forall c :: FinalOwner(t.ring, a, c) == FinalOwner(s.ring, a, c))
    decreases i
  {
    hide NodeId, RingOk, Others, FinalOwner, NamesAre, Upto, Gone, OnWay, Doomed, KeysOf;
    if i == 0 {
      UptoNone(a);
      assert p - {} == p;
    } else {
      AfterOk(s, h, n, p, a, i - 1);
      NextName(n, p, a, i - 1);
      UptoMore(a, i - 1);
      assert p - Upto(a, i) == p - Upto(a, i - 1) - {RawKey(a, i - 1)};
      assert |RawKey(a, i - 1)| > |a|;
      GoneOk(After(s, h, a, i - 1), h, p - Upto(a, i - 1), a, RawKey(a, i - 1));
    }
  }

  /** A single node with keys cannot go: its last name fails. */
  lemma LastFails(s: Placement, h: Hash, n: map<string, nat>, p: set<string>, a: string)
    requires NamesAre(n, p) && a in n && n[a] > 0 && RingOk(s.ring, h, p) && OnWay(s, h, a)
    requires Others(s.ring, a) == {} && KeysOf(s.data, a) != {}
    ensures FailsAt(s, h, a, n[a] - 1)
  {
    hide NodeId, RingOk, Others, FinalOwner, NamesAre, Upto, After, OnWay, Doomed, KeysOf, RawKey;
    var i := n[a] - 1;
    var t, raw, placed := After(s, h, a, i), RawKey(a, i), p - Upto(a, i);
    AfterOk(s, h, n, p, a, i);
    NextName(n, p, a, i);
    AllMine(t.ring, h, placed, a);
    OnlyName(t.ring, h, placed, raw);
    NamesPlaced(t.ring, h, placed, h(raw));
  }

  /** Without an empty node id, no removal fails as long as there is another node. */
  lemma NamedNeverFails(s: Placement, h: Hash, n: map<string, nat>, p: set<string>, a: string, i: nat)
    requires NamesAre(n, p) && a in n && i < n[a] && RingOk(s.ring, h, p) && OnWay(s, h, a)
    requires Others(s.ring, a) != {} && "" !in n
    ensures !FailsAt(s, h, a, i)
  {
    hide NodeId, RingOk, Others, FinalOwner, NamesAre, Upto, After, OnWay, Doomed, KeysOf, RawKey;
    var t, placed := After(s, h, a, i), p - Upto(a, i);
    AfterOk(s, h, n, p, a, i);
    NextName(n, p, a, i);
    OthersStop(t.ring, a);
    NamesPlaced(t.ring, h, placed, Ceil(Stops(t.ring, a), h(RawKey(a, i))));
  }

  /** Without an empty node id, no key is doomed. */
  lemma NamedNotDoomed(s: Placement, h: Hash, n: map<string, nat>, p: set<string>, a: string)
    requires NamesAre(n, p) && RingOk(s.ring, h, p) && "" !in n
    ensures Doomed(s.ring, h, s.data, a) == {}
  {
    hide NodeId, RingOk, NamesAre;
    forall d | d in Doomed(s.ring, h, s.data, a) ensures false {
      var c := Ceil(Others(s.ring, a), h(d));
      FirstOtherIs(s.ring[c], a);
      NamesPlaced(s.ring, h, p, c);
      NameOf(n, p, FirstOther(s.ring[c], a));
    }
  }

  /** A removal that goes through leaves the right owners exactly if no key should have gone to the empty id. */
  lemma OwnedAfter(s: Placement, h: Hash, n: map<string, nat>, p: set<string>, a: string)
    requires NamesAre(n, p) && a in n && n[a] > 0 && RingOk(s.ring, h, p) && OnWay(s, h, a)
    requires forall i :: 0 <= i < n[a] ==> !FailsAt(s, h, a, i)
    ensures var t := After(s, h, a, n[a]); Owned(t.ring, h, t.data) <==> Doomed(s.ring, h, s.data, a) == {}
    ensures RingOk(After(s, h, a, n[a]).ring, h, p - Upto(a, n[a]))
  {
    hide NodeId, RingOk, Others, FinalOwner, NamesAre, Upto, After, KeysOf, RawKey, FailsAt, FirstOther, Leaving;
    var t := After(s, h, a, n[a]);
    AfterOk(s, h, n, p, a, n[a]);
    NamesLeave(n, p, a);
    if Others(s.ring, a) != {} {
      LeavingEnds(t.ring, h, t.data, a, p - Upto(a, n[a]));
    } else {
      if KeysOf(s.data, a) != {} { LastFails(s, h, n, p, a); }
      NothingThere(t.data, a);
    }
  }

  lemma NothingThere(data: Data, a: string)
    requires OnlyAt(data, a) && KeysOf(data, a) == {}
    ensures forall d, x :: !Recorded(data, d, x)
  {
    forall d, x ensures !Recorded(data, d, x) { assert Recorded(data, d, x) ==> d in KeysOf(data, a); }
  }

  // ---------------------------------------------------------------- keys that are forgotten

  /** Each key is recorded with one node. */
  ghost predicate Once(data: Data) {
    forall d, x, y :: Recorded(data, d, x) && Recorded(data, d, y) ==> x == y
  }

  lemma HandedKeys(ring: Ring, h: Hash, data: Data, a: string, raw: string)
    requires Once(data) && h(raw) in ring && ring[h(raw)] != []
    ensures var data' := Handed(ring, h, data, a, raw);
            && SameKeys(data, data') && Once(data')
            && forall d, x :: x != a && Recorded(data, d, x) ==> Recorded(data', d, x)
  {
    hide NodeId, Taker, IsCeil, Move;
    var keys, to := Outgoing(ring, h, data, a, h(raw)), Taker(ring, a, h(raw));
    MoveKeepsKeys(data, keys, a, to);
    forall d, x ensures Recorded(Move(data, keys, a, to), d, x) <==> if d in keys then x == to else Recorded(data, d, x) {
      MoveIs(data, keys, a, to, d, x);
      assert d in keys ==> Recorded(data, d, a);
    }
  }

  lemma GoneKeys(s: Placement, h: Hash, a: string, raw: string)
    requires Once(s.data) && h(raw) in s.ring && s.ring[h(raw)] != []
    ensures var t := Gone(s, h, a, raw);
            && Once(t.data) && (forall d :: Known(t.data, d) ==> Known(s.data, d))
            && (SameKeys(s.data, t.data) <==> KeysOf(Handed(s.ring, h, s.data, a, raw), raw) == {})
            && (forall d, x :: x != a && x != raw && Recorded(s.data, d, x) ==> Recorded(t.data, d, x))
  {
    hide NodeId, Handed, RemoveFrom;
    HandedKeys(s.ring, h, s.data, a, raw);
    Forgotten(Handed(s.ring, h, s.data, a, raw), raw);
  }

  lemma Forgotten(data: Data, raw: string)
    requires Once(data)
    ensures forall d :: Known(data - {raw}, d) <==> Known(data, d) && d !in KeysOf(data, raw)
    ensures forall d :: d in KeysOf(data, raw) ==> Known(data, d)
    ensures Once(data - {raw})
  {
    assert forall d, x :: Recorded(data - {raw}, d, x) <==> Recorded(data, d, x) && x != raw;
    forall d ensures Known(data - {raw}, d) <==> Known(data, d) && d !in KeysOf(data, raw) {
      assert d in KeysOf(data, raw) <==> Recorded(data, d, raw);
      if x :| Recorded(data - {raw}, d, x) { assert Recorded(data, d, x) && x != raw; }
      if x :| Recorded(data, d, x) && x != raw { assert Recorded(data - {raw}, d, x); }
    }
    forall d | d in KeysOf(data, raw) ensures Known(data, d) { assert Recorded(data, d, raw); }
  }

  /** The removal forgets a key exactly if a node that has keys is named like a name that goes. */
  lemma {:induction false} KeysAfter(s: Placement, h: Hash, n: map<string, nat>, p: set<string>, a: string, i: nat)
    requires NamesAre(n, p) && a in n && i <= n[a] && RingOk(s.ring, h, p) && OnWay(s, h, a) && Once(s.data)
    ensures var t := After(s, h, a, i);
            && Once(t.data) && (forall d :: Known(t.data, d) ==> Known(s.data, d))
            && (SameKeys(s.data, t.data) <==> forall j :: 0 <= j < i ==> !DropsAt(s, h, a, j))
            && (forall d, x :: x != a && x !in Upto(a, i) && Recorded(s.data, d, x) ==> Recorded(t.data, d, x))
    decreases i
  {
    hide NodeId, RingOk, Others, FinalOwner, NamesAre, Upto, Gone, OnWay, Doomed, KeysOf, Once, Handed, Recorded, Known, RawKey;
    if i > 0 {
      var t, raw := After(s, h, a, i - 1), RawKey(a, i - 1);
      KeysAfter(s, h, n, p, a, i - 1);
      AfterOk(s, h, n, p, a, i - 1);
      NextName(n, p, a, i - 1);
      UptoMore(a, i - 1);
      NamePlaced(t.ring, h, p - Upto(a, i - 1), raw);
      GoneKeys(t, h, a, raw);
      assert DropsAt(s, h, a, i - 1) <==> KeysOf(Handed(t.ring, h, t.data, a, raw), raw) != {};
    }
  }

  /** Where no node is named like a name of another, nothing is forgotten. */
  lemma NoClashNoDrop(s: Placement, h: Hash, n: map<string, nat>, p: set<string>, a: string, i: nat)
    requires NamesAre(n, p) && NoClash(n) && a in n && i < n[a] && RingOk(s.ring, h, p) && OnWay(s, h, a)
    ensures !DropsAt(s, h, a, i)
  {
    hide NodeId, RingOk, NamesAre, Upto, RawKey, After, Handed, RemoveFrom;
    var t, raw, placed := After(s, h, a, i), RawKey(a, i), p - Upto(a, i);
    AfterOk(s, h, n, p, a, i);
    NextName(n, p, a, i);
    if h(raw) in t.ring && t.ring[h(raw)] != [] {
      HandedOk(t, h, placed, a, raw);
      RemoveFromOk(t.ring, h, placed, raw);
      var u := Placement(RemoveFrom(t.ring, h(raw), raw), Handed(t.ring, h, t.data, a, raw));
      forall d | Recorded(u.data, d, raw) ensures false {
        InNodes(u, h, n, placed - {raw}, a, d, raw);
      }
      assert forall d :: d in KeysOf(u.data, raw) ==> Recorded(u.data, d, raw);
    }
  }

  lemma InNodes(s: Placement, h: Hash, n: map<string, nat>, placed: set<string>, a: string, d: string, x: string)
    requires RingOk(s.ring, h, placed) && a in n && (forall y :: y in placed ==> NodeId(y) in n) && OnWay(s, h, a)
    requires Recorded(s.data, d, x)
    ensures x in n
  {
    hide NodeId, RingOk;
    if Others(s.ring, a) != {} {
      var c := Ceil(Others(s.ring, a), h(d));
      FirstOtherIs(s.ring[c], a);
      NamesPlaced(s.ring, h, placed, c);
    }
  }
}
