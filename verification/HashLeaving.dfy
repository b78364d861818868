/**
 A node leaves name by name. While it does, each key is recorded with the node that will own it in the
 end, or still with the leaving node as long as that one owns it.
 */
module HashLeaving {
  import opened HashNames
  import opened HashCircle
  import opened HashOwners

  /** The first name in a list that is not the leaving node's. */
  function FirstOther(l: seq<string>, a: string): string {
    if l == [] then "" else if NodeId(l[0]) != a then l[0] else FirstOther(l[1..], a)
  }

  predicate HasOther(l: seq<string>, a: string) { exists i :: 0 <= i < |l| && NodeId(l[i]) != a }

  lemma {:induction false} FirstOtherIs(l: seq<string>, a: string)
    requires HasOther(l, a)
    ensures FirstOther(l, a) in l && NodeId(FirstOther(l, a)) != a
  {
    if NodeId(l[0]) == a {
      var i :| 0 <= i < |l| && NodeId(l[i]) != a;
      assert NodeId(l[1..][i - 1]) != a;
      FirstOtherIs(l[1..], a);
    }
  }

  /** The scores that stay when all names of the node are gone. */
  ghost function Others(ring: Ring, a: string): set<Score> { set v | v in ring && HasOther(ring[v], a) }

  /** Who owns a point when all names of the node are gone. */
  ghost function FinalOwner(ring: Ring, a: string, s: Score): string
    requires Others(ring, a) != {}
  {
    NodeId(FirstOther(ring[Ceil(Others(ring, a), s)], a))
  }

  lemma FinalOwnerIs(ring: Ring, a: string, s: Score, c: Score)
    requires IsCeil(Others(ring, a), s, c)
    ensures Others(ring, a) != {} && FinalOwner(ring, a, s) == NodeId(FirstOther(ring[c], a)) != a
  {
    CeilIs(Others(ring, a), s, c);
    FirstOtherIs(ring[c], a);
  }

  /** Someone else's point is that one's for good. */
  lemma OwnerIsFinal(ring: Ring, a: string, s: Score)
    requires Others(ring, a) != {} && (forall v :: v in ring ==> ring[v] != [])
    ensures ring != map[] && FinalOwner(ring, a, s) != a
    ensures Owner(ring, s) != a ==> Owner(ring, s) == FinalOwner(ring, a, s)
  {
    var w :| w in Others(ring, a);
    assert w in ring;
    FinalOwnerIs(ring, a, s, Ceil(Others(ring, a), s));
    var c := Ceil(ring.Keys, s);
    if NodeId(ring[c][0]) != a {
      assert HasOther(ring[c], a);
      assert IsCeil(Others(ring, a), s, c);
      FinalOwnerIs(ring, a, s, c);
    }
  }

  /** The node may still have a point: it owns it, or the final owner has the id that reads as "no node". */
  ghost predicate Rests(ring: Ring, a: string, s: Score)
    requires Others(ring, a) != {}
  {
    FinalOwner(ring, a, s) == "" || (ring != map[] && Owner(ring, s) == a)
  }

  /** Every key is with its final owner, or still with the leaving node. */
  ghost predicate Leaving(ring: Ring, h: Hash, data: Data, a: string)
    requires Others(ring, a) != {}
  {
    forall d, x :: Recorded(data, d, x) ==> x == FinalOwner(ring, a, h(d)) || (x == a && Rests(ring, a, h(d)))
  }

  /** The keys of the node that will belong to the empty node id. */
  ghost function Doomed(ring: Ring, h: Hash, data: Data, a: string): set<string> {
    set d | d in KeysOf(data, a) && Others(ring, a) != {} && FinalOwner(ring, a, h(d)) == ""
  }

  lemma LeavingStarts(ring: Ring, h: Hash, data: Data, a: string, placed: set<string>)
    requires RingOk(ring, h, placed) && Owned(ring, h, data) && Others(ring, a) != {}
    ensures Leaving(ring, h, data, a)
  {
    forall v | v in ring ensures ring[v] != [] { assert ListOk(ring, h, placed, v); }
    forall d, x | Recorded(data, d, x) ensures x == FinalOwner(ring, a, h(d)) || (x == a && Rests(ring, a, h(d))) {
      OwnerIsFinal(ring, a, h(d));
    }
  }

  /** Once its names are gone, the ownership is right exactly if no key should have gone to the empty id. */
  lemma LeavingEnds(ring: Ring, h: Hash, data: Data, a: string, placed: set<string>)
    requires RingOk(ring, h, placed) && Others(ring, a) != {} && Leaving(ring, h, data, a)
    requires forall raw :: raw in placed ==> NodeId(raw) != a
    ensures Owned(ring, h, data) <==> Doomed(ring, h, data, a) == {}
  {
    forall v | v in ring ensures ring[v] != [] && NodeId(ring[v][0]) != a {
      assert ListOk(ring, h, placed, v);
      assert ring[v][0] in placed;
    }
    forall d, x | Recorded(data, d, x)
      ensures ring != map[] && (x == Owner(ring, h(d)) <==> d !in Doomed(ring, h, data, a) || x != a)
    {
      OwnerIsFinal(ring, a, h(d));
    }
    if d :| d in Doomed(ring, h, data, a) { assert Recorded(data, d, a); }
  }

  // ---------------------------------------------------------------- one name goes

  lemma {:induction false} FirstOtherWithout(l: seq<string>, a: string, raw: string)
    requires NodeId(raw) == a
    ensures FirstOther(Without(l, raw), a) == FirstOther(l, a)
    ensures HasOther(Without(l, raw), a) <==> HasOther(l, a)
    decreases |l|
  {
    if l != [] {
      FirstOtherWithout(l[1..], a, raw);
      HasOtherStep(l, a);
      HasOtherStep(Without(l, raw), a);
    }
  }

  lemma HasOtherStep(l: seq<string>, a: string)
    ensures HasOther(l, a) <==> l != [] && (NodeId(l[0]) != a || HasOther(l[1..], a))
  {
  }

  /** What is final does not change. */
  lemma FinalStays(ring: Ring, a: string, v: Score, raw: string)
    requires v in ring && NodeId(raw) == a && raw in ring[v]
    ensures var ring' := RemoveFrom(ring, v, raw);
            && Others(ring', a) == Others(ring, a)
            && (Others(ring, a) != {} ==> forall s :: FinalOwner(ring', a, s) == FinalOwner(ring, a, s))
  {
    var ring' := RemoveFrom(ring, v, raw);
    FirstOtherWithout(ring[v], a, raw);
    if |ring[v]| <= 1 {
      assert ring[v] == [raw];
      assert !HasOther(ring[v], a);
    }
    assert Others(ring', a) == Others(ring, a);
    if Others(ring, a) != {} {
      forall s ensures FinalOwner(ring', a, s) == FinalOwner(ring, a, s) {
        var c := Ceil(Others(ring, a), s);
        assert c in ring' && FirstOther(ring'[c], a) == FirstOther(ring[c], a);
      }
    }
  }

  /** Points that do not go to v keep their owner. */
  lemma OwnerElsewhere(ring: Ring, h: Hash, placed: set<string>, raw: string, s: Score)
    requires RingOk(ring, h, placed) && raw in placed && h(raw) in ring && ring != map[]
    requires !IsCeil(ring.Keys, s, h(raw))
    ensures var ring' := RemoveFrom(ring, h(raw), raw); ring' != map[] && Owner(ring', s) == Owner(ring, s)
  {
    var v := h(raw);
    var ring', c := RemoveFrom(ring, v, raw), Ceil(ring.Keys, s);
    assert ListOk(ring, h, placed, c);
    ArcOutside(ring.Keys, v, s, c);
    assert ring'.Keys == ring.Keys || ring'.Keys == ring.Keys - {v};
    OwnerIs(ring', s, c);
  }

  /** If the name is not first at its score, nobody notices. */
  lemma NotFirst(ring: Ring, h: Hash, placed: set<string>, data: Data, a: string, raw: string)
    requires RingOk(ring, h, placed) && raw in placed && NodeId(raw) == a && h(raw) in ring
    requires Others(ring, a) != {} && Leaving(ring, h, data, a)
    requires ring[h(raw)] != [] && NodeId(ring[h(raw)][0]) != a
    ensures var ring' := RemoveFrom(ring, h(raw), raw); Others(ring', a) != {} && Leaving(ring', h, data, a)
  {
    hide NodeId, FinalOwner, Others, Owner, Without;
    var ring' := RemoveFrom(ring, h(raw), raw);
    FinalStays(ring, a, h(raw), raw);
    FirstsStay(ring, h, placed, a, raw);
    forall d, x | Recorded(data, d, x) ensures x == FinalOwner(ring', a, h(d)) || (x == a && Rests(ring', a, h(d))) {
      if ring != map[] { OwnerSame(ring, ring', h(d)); }
    }
  }

  lemma FirstsStay(ring: Ring, h: Hash, placed: set<string>, a: string, raw: string)
    requires RingOk(ring, h, placed) && raw in placed && NodeId(raw) == a && h(raw) in ring
    requires ring[h(raw)] != [] && NodeId(ring[h(raw)][0]) != a
    ensures var ring' := RemoveFrom(ring, h(raw), raw);
            && ring'.Keys == ring.Keys
            && forall v :: v in ring ==> ring[v] != [] && ring'[v] != [] && ring'[v][0] == ring[v][0]
  {
    hide NodeId, Without;
    assert ListOk(ring, h, placed, h(raw));
    WithoutKeeps(ring[h(raw)], raw);
    forall v | v in ring ensures ring[v] != [] { assert ListOk(ring, h, placed, v); }
  }

  // ---------------------------------------------------------------- who takes over

  /** The keys of the node whose next score is v. */
  ghost function Outgoing(ring: Ring, h: Hash, data: Data, a: string, v: Score): set<string> {
    set d | d in KeysOf(data, a) && IsCeil(ring.Keys, h(d), v)
  }

  /** The scores at which the walk for another node ends: all but those with the node's name alone. */
  ghost function Stops(ring: Ring, a: string): set<Score> {
    set k | k in ring && ring[k] != [] && (|ring[k]| > 1 || NodeId(ring[k][0]) != a)
  }

  /** Where the walk from v ends: at the first such score, with its first other name or its second name. */
  ghost function NextHeir(ring: Ring, a: string, v: Score): string {
    if Stops(ring, a) == {} then "" else
    var l := ring[Ceil(Stops(ring, a), v)];
    if NodeId(l[0]) != a then NodeId(l[0]) else NodeId(l[1])
  }

  /** Who takes over from the first name of a score: the second name's node, or the next node on the ring. */
  ghost function Taker(ring: Ring, a: string, v: Score): string
    requires v in ring
  {
    if |ring[v]| > 1 then NodeId(ring[v][1]) else NextHeir(ring, a, v)
  }

  /** The records when a name is about to go; nothing moves to the empty id. */
  ghost function Handed(ring: Ring, h: Hash, data: Data, a: string, raw: string): Data
    requires h(raw) in ring && ring[h(raw)] != []
  {
    var keys, to := Outgoing(ring, h, data, a, h(raw)), Taker(ring, a, h(raw));
    if NodeId(ring[h(raw)][0]) != a || keys == {} || to == "" then data else Move(data, keys, a, to)
  }

  /** A node to which the points of v may go when its first name goes. */
  ghost predicate Heir(ring: Ring, a: string, v: Score, raw: string, to: string)
    requires v in ring && Others(ring, a) != {}
  {
    forall s {:trigger IsCeil(ring.Keys, s, v)} :: IsCeil(ring.Keys, s, v) ==>
      || to == FinalOwner(ring, a, s)
      || (to == a && RemoveFrom(ring, v, raw) != map[] && Owner(RemoveFrom(ring, v, raw), s) == a)
  }

  lemma Handover(ring: Ring, h: Hash, placed: set<string>, data: Data, a: string, raw: string)
    requires RingOk(ring, h, placed) && raw in placed && NodeId(raw) == a && h(raw) in ring
    requires ring[h(raw)] != [] && NodeId(ring[h(raw)][0]) == a
    requires Others(ring, a) != {} && Leaving(ring, h, data, a) && Heir(ring, a, h(raw), raw, Taker(ring, a, h(raw)))
    ensures var ring', data' := RemoveFrom(ring, h(raw), raw), Handed(ring, h, data, a, raw);
            Others(ring', a) != {} && Leaving(ring', h, data', a)
  {
    hide NodeId, FinalOwner, Others, Owner, Without, Taker, RingOk, RemoveFrom;
    var v, to := h(raw), Taker(ring, a, h(raw));
    var ring', data', keys := RemoveFrom(ring, v, raw), Handed(ring, h, data, a, raw), Outgoing(ring, h, data, a, v);
    NamePlaced(ring, h, placed, raw);
    FinalStays(ring, a, v, raw);
    forall d, x | Recorded(data', d, x) ensures x == FinalOwner(ring', a, h(d)) || (x == a && Rests(ring', a, h(d))) {
      MoveIs(data, keys, a, to, d, x);
      if !IsCeil(ring.Keys, h(d), v) && ring != map[] { OwnerElsewhere(ring, h, placed, raw, h(d)); }
    }
  }

  /** Only keys that will belong to another node leave the node. */
  lemma DoomedStay(ring: Ring, h: Hash, data: Data, a: string, raw: string)
    requires h(raw) in ring && ring[h(raw)] != [] && NodeId(raw) == a && raw in ring[h(raw)] && Others(ring, a) != {}
    requires NodeId(ring[h(raw)][0]) == a ==> Heir(ring, a, h(raw), raw, Taker(ring, a, h(raw)))
    ensures Doomed(RemoveFrom(ring, h(raw), raw), h, Handed(ring, h, data, a, raw), a) == Doomed(ring, h, data, a)
  {
    hide NodeId, FinalOwner, Others, Owner, Without, Taker, RemoveFrom;
    var v, to, keys := h(raw), Taker(ring, a, h(raw)), Outgoing(ring, h, data, a, h(raw));
    var data' := Handed(ring, h, data, a, raw);
    FinalStays(ring, a, v, raw);
    forall d | FinalOwner(ring, a, h(d)) == "" ensures d in KeysOf(data', a) <==> d in KeysOf(data, a) {
      MoveIs(data, keys, a, to, d, a);
    }
  }

  /** With several names at the score, the second one's node is an heir. */
  lemma SecondIsHeir(ring: Ring, h: Hash, placed: set<string>, a: string, raw: string)
    requires RingOk(ring, h, placed) && raw in placed && NodeId(raw) == a && h(raw) in ring
    requires Others(ring, a) != {} && |ring[h(raw)]| > 1 && NodeId(ring[h(raw)][0]) == a
    ensures Heir(ring, a, h(raw), raw, NodeId(ring[h(raw)][1]))
  {
    var v := h(raw);
    var ring', l := RemoveFrom(ring, v, raw), ring[v];
    var to := NodeId(l[1]);
    assert ListOk(ring, h, placed, v);
    WithoutKeeps(l, raw);
    assert ring'.Keys == ring.Keys && v in ring';
    forall s | IsCeil(ring.Keys, s, v) ensures to == FinalOwner(ring, a, s) || (to == a && Owner(ring', s) == a) {
      if to != a {
        assert HasOther(l, a);
        assert IsCeil(Others(ring, a), s, v);
        FinalOwnerIs(ring, a, s, v);
      } else {
        OwnerIs(ring', s, v);
      }
    }
  }

  // ---------------------------------------------------------------- the walk to the next node

  /** The walk from v has come to cur and passed nothing at which it ends. */
  ghost predicate Passed(ring: Ring, a: string, v: Score, cur: Score) {
    v in ring && cur in ring && forall k :: k in Stops(ring, a) ==> Dist(v, cur) < Dist(v, k)
  }

  /** One step further, the walk ends where it should, or has passed one more score; it does not come back to v. */
  lemma WalkGoesOn(ring: Ring, a: string, v: Score, cur: Score, next: Score)
    requires Passed(ring, a, v, cur) && Stops(ring, a) != {} && IsCeil(ring.Keys, Incr(cur), next)
    ensures Dist(v, cur) < Dist(v, next)
    ensures if next in Stops(ring, a) then next == Ceil(Stops(ring, a), v) else Passed(ring, a, v, next)
  {
    var w := Ceil(Stops(ring, a), v);
    assert Dist(v, cur) < Dist(v, w);
    assert Dist(Incr(cur), next) <= Dist(Incr(cur), w);
    forall k | k in Stops(ring, a) ensures Dist(v, next) <= Dist(v, k) {
      assert k in ring && Dist(Incr(cur), next) <= Dist(Incr(cur), k);
    }
    if next in Stops(ring, a) { CeilIs(Stops(ring, a), v, next); }
  }

  /** Where the walk ends, it has found an heir. */
  lemma WalkFinds(ring: Ring, h: Hash, placed: set<string>, a: string, raw: string)
    requires RingOk(ring, h, placed) && raw in placed && NodeId(raw) == a && h(raw) in ring
    requires Others(ring, a) != {} && |ring[h(raw)]| == 1
    ensures Heir(ring, a, h(raw), raw, NextHeir(ring, a, h(raw)))
  {
    hide NodeId, Without, FinalOwner, Owner, RingOk;
    var v, to := h(raw), NextHeir(ring, a, h(raw));
    OthersStop(ring, a);
    var c := Ceil(Stops(ring, a), v);
    forall s | IsCeil(ring.Keys, s, v)
      ensures to == FinalOwner(ring, a, s) || (to == a && RemoveFrom(ring, v, raw) != map[] && Owner(RemoveFrom(ring, v, raw), s) == a)
    {
      if to != a {
        StopIsFinal(ring, a, v, c, s, to);
      } else {
        AfterIsOwn(ring, h, placed, a, raw, c, s);
      }
    }
  }

  lemma OthersStop(ring: Ring, a: string)
    ensures Others(ring, a) <= Stops(ring, a)
  {
    hide NodeId;
  }

  lemma StopIsFinal(ring: Ring, a: string, v: Score, next: Score, s: Score, to: string)
    requires IsCeil(ring.Keys, s, v) && next in ring && ring[next] != [] && to != a
    requires forall k :: k in Others(ring, a) ==> Dist(v, next) <= Dist(v, k)
    requires if NodeId(ring[next][0]) != a then to == NodeId(ring[next][0])
             else |ring[next]| > 1 && to == NodeId(ring[next][1])
    ensures Others(ring, a) != {} && FinalOwner(ring, a, s) == to
  {
    assert HasOther(ring[next], a);
    forall k | k in Others(ring, a) ensures Dist(s, next) <= Dist(s, k) {
      assert k in ring && Dist(s, v) <= Dist(s, k) && Dist(s, v) <= Dist(s, next);
    }
    assert IsCeil(Others(ring, a), s, next);
    FinalOwnerIs(ring, a, s, next);
  }

  /** If the walk comes to a second name of the node itself, the node owns the points when the name has gone. */
  lemma AfterIsOwn(ring: Ring, h: Hash, placed: set<string>, a: string, raw: string, c: Score, s: Score)
    requires RingOk(ring, h, placed) && raw in placed && NodeId(raw) == a && h(raw) in ring && |ring[h(raw)]| == 1
    requires IsCeil(Stops(ring, a), h(raw), c) && NodeId(ring[c][0]) == a && IsCeil(ring.Keys, s, h(raw))
    ensures RemoveFrom(ring, h(raw), raw) != map[] && Owner(RemoveFrom(ring, h(raw), raw), s) == a
  {
    hide NodeId, Without, Owner;
    var v := h(raw);
    var ring' := RemoveFrom(ring, v, raw);
    assert ring[v] == [raw] by { assert ListOk(ring, h, placed, v); }
    assert v !in Stops(ring, a) && c != v;
    assert ring'.Keys == ring.Keys - {v};
    var after := Ceil(ring.Keys, Incr(v));
    assert after != v by { CeilAfter(ring.Keys, v, after); }
    ArcGoesOn(ring.Keys, v, after, s);
    assert Dist(Incr(v), after) <= Dist(Incr(v), c);
    assert Dist(v, after) <= Dist(v, c);
    assert ring[after] != [] by { assert ListOk(ring, h, placed, after); }
    assert after in Stops(ring, a) ==> after == c;
    OwnerIs(ring', s, after);
  }

  /** Whoever takes over from a first name may take over. */
  lemma TakerIsHeir(ring: Ring, h: Hash, placed: set<string>, a: string, raw: string)
    requires RingOk(ring, h, placed) && raw in placed && NodeId(raw) == a && h(raw) in ring
    requires Others(ring, a) != {} && ring[h(raw)] != [] && NodeId(ring[h(raw)][0]) == a
    ensures Heir(ring, a, h(raw), raw, Taker(ring, a, h(raw)))
  {
    if |ring[h(raw)]| > 1 { SecondIsHeir(ring, h, placed, a, raw); } else { WalkFinds(ring, h, placed, a, raw); }
  }
}
