/**
 A ring of virtual nodes, who owns a data key, and where data keys are recorded. The steps of adding and
 removing one virtual node, with the migration that goes with each, and what they do to the ownership.
 */
module HashOwners {
  import opened HashNames
  import opened HashCircle

  type Ring = map<Score, seq<string>>
  type Data = map<string, set<string>>
  type Hash = string -> Score

  // ---------------------------------------------------------------- rings

  ghost predicate ListOk(ring: Ring, h: Hash, placed: set<string>, v: Score)
    requires v in ring
  {
    && ring[v] != []
    && (forall i, j :: 0 <= i < j < |ring[v]| ==> ring[v][i] != ring[v][j])
    && (forall raw :: raw in ring[v] ==> raw in placed && h(raw) == v)
  }

  /** The ring holds exactly the placed names, each at its score, and no score is empty. */
  ghost predicate RingOk(ring: Ring, h: Hash, placed: set<string>) {
    && (forall v {:trigger ListOk(ring, h, placed, v)} :: v in ring ==> ListOk(ring, h, placed, v))
    && (forall raw :: raw in placed ==> h(raw) in ring && raw in ring[h(raw)])
  }

  lemma NamePlaced(ring: Ring, h: Hash, placed: set<string>, raw: string)
    requires RingOk(ring, h, placed) && raw in placed
    ensures h(raw) in ring && raw in ring[h(raw)]
  {
  }

  lemma NamesPlaced(ring: Ring, h: Hash, placed: set<string>, v: Score)
    requires RingOk(ring, h, placed) && v in ring
    ensures ring[v] != [] && forall i :: 0 <= i < |ring[v]| ==> ring[v][i] in placed
  {
    assert ListOk(ring, h, placed, v);
  }

  /** The node whose virtual node comes first at the next score. */
  ghost function Owner(ring: Ring, s: Score): string
    requires ring != map[]
  {
    var c := Ceil(ring.Keys, s);
    if ring[c] == [] then "" else NodeId(ring[c][0])
  }

  lemma OwnerIs(ring: Ring, s: Score, c: Score)
    requires IsCeil(ring.Keys, s, c) && ring[c] != []
    ensures ring != map[] && Owner(ring, s) == NodeId(ring[c][0])
  {
    CeilIs(ring.Keys, s, c);
  }

  /** Owners depend on the scores and on the first name of each only. */
  lemma OwnerSame(ring: Ring, ring': Ring, s: Score)
    requires ring != map[] && ring'.Keys == ring.Keys
    requires forall v :: v in ring ==> ring[v] != [] && ring'[v] != [] && NodeId(ring'[v][0]) == NodeId(ring[v][0])
    ensures ring' != map[] && Owner(ring', s) == Owner(ring, s)
  {
    var c := Ceil(ring.Keys, s);
    CeilIs(ring'.Keys, s, c);
  }

  function Without(l: seq<string>, raw: string): seq<string> {
    if l == [] then [] else if l[0] == raw then l[1..] else [l[0]] + Without(l[1..], raw)
  }

  lemma {:induction false} WithoutAt(l: seq<string>, k: nat)
    requires k < |l| && forall i :: 0 <= i < k ==> l[i] != l[k]
    ensures Without(l, l[k]) == l[..k] + l[k + 1..]
    decreases |l|
  {
    if k > 0 {
      WithoutAt(l[1..], k - 1);
      assert l[..k] + l[k + 1..] == [l[0]] + (l[1..][..k - 1] + l[1..][k..]);
    }
  }

  lemma WithoutKeeps(l: seq<string>, raw: string)
    requires raw in l && forall i, j :: 0 <= i < j < |l| ==> l[i] != l[j]
    ensures var l' := Without(l, raw);
            && |l'| == |l| - 1 && (forall i, j :: 0 <= i < j < |l'| ==> l'[i] != l'[j])
            && (forall x :: x in l' <==> x in l && x != raw)
            && (l' != [] ==> l'[0] == if l[0] == raw then l[1] else l[0])
  {
    hide Without;
    var k :| 0 <= k < |l| && l[k] == raw;
    WithoutAt(l, k);
    CutKeeps(l, k);
  }

  lemma CutKeeps(l: seq<string>, k: nat)
    requires k < |l| && forall i, j :: 0 <= i < j < |l| ==> l[i] != l[j]
    ensures var l' := l[..k] + l[k + 1..];
            && (forall i, j :: 0 <= i < j < |l'| ==> l'[i] != l'[j])
            && (forall x :: x in l' <==> x in l && x != l[k])
  {
    var l' := l[..k] + l[k + 1..];
    assert forall i :: 0 <= i < |l'| ==> l'[i] == l[if i < k then i else i + 1];
    forall x | x in l && x != l[k] ensures x in l' {
      var i :| 0 <= i < |l| && l[i] == x;
      assert l'[if i < k then i else i - 1] == x;
    }
  }

  /** The ring with one more name at a score. */
  function AddTo(ring: Ring, v: Score, raw: string): Ring {
    if v !in ring then ring[v := [raw]] else if raw in ring[v] then ring else ring[v := ring[v] + [raw]]
  }

  /** The ring with one name less at a score; a score without names goes. */
  function RemoveFrom(ring: Ring, v: Score, raw: string): Ring
    requires v in ring
  {
    if |ring[v]| > 1 then ring[v := Without(ring[v], raw)] else ring - {v}
  }

  lemma AddToOk(ring: Ring, h: Hash, placed: set<string>, raw: string)
    requires RingOk(ring, h, placed)
    ensures RingOk(AddTo(ring, h(raw), raw), h, placed + {raw})
  {
    var v := h(raw);
    var ring' := AddTo(ring, v, raw);
    forall w | w in ring' ensures ListOk(ring', h, placed + {raw}, w) {
      if w in ring { assert ListOk(ring, h, placed, w); }
    }
  }

  lemma RemoveFromOk(ring: Ring, h: Hash, placed: set<string>, raw: string)
    requires RingOk(ring, h, placed) && raw in placed
    ensures h(raw) in ring && RingOk(RemoveFrom(ring, h(raw), raw), h, placed - {raw})
  {
    var v := h(raw);
    assert ListOk(ring, h, placed, v);
    var ring', l := RemoveFrom(ring, v, raw), ring[v];
    WithoutKeeps(l, raw);
    assert |l| == 1 ==> l == [raw];
    if |l| > 1 { assert ListOk(ring', h, placed - {raw}, v); }
    forall w | w in ring' && w != v ensures ListOk(ring', h, placed - {raw}, w) {
      assert ListOk(ring, h, placed, w);
    }
  }

  // ---------------------------------------------------------------- records

  predicate Recorded(data: Data, d: string, x: string) { x in data && d in data[x] }

  function KeysOf(data: Data, x: string): set<string> { if x in data then data[x] else {} }

  /** The record of a set of keys taken from one node and given to another. */
  function Forget(data: Data, x: string, keys: set<string>): Data {
    if x !in data then data else if data[x] - keys == {} then data - {x} else data[x := data[x] - keys]
  }

  function Record(data: Data, x: string, keys: set<string>): Data {
    data[x := KeysOf(data, x) + keys]
  }

  function Move(data: Data, keys: set<string>, from: string, to: string): Data {
    Record(Forget(data, from, keys), to, keys)
  }

  lemma MoveIs(data: Data, keys: set<string>, from: string, to: string, d: string, x: string)
    ensures Recorded(Move(data, keys, from, to), d, x)
            <==> (x == to && d in keys) || (Recorded(data, d, x) && !(x == from && d in keys))
  {
    assert from in data ==> (d in data[from] - keys <==> d in data[from] && d !in keys);
  }

  ghost predicate Known(data: Data, d: string) { exists x :: Recorded(data, d, x) }

  ghost predicate SameKeys(data: Data, data': Data) {
    forall d :: Known(data, d) <==> Known(data', d)
  }

  /** Moving keys that were recorded at `from` loses no key and invents none. */
  lemma MoveKeepsKeys(data: Data, keys: set<string>, from: string, to: string)
    requires forall d :: d in keys ==> Recorded(data, d, from)
    ensures SameKeys(data, Move(data, keys, from, to))
  {
    var data' := Move(data, keys, from, to);
    forall d ensures Known(data, d) <==> Known(data', d) {
      if x :| Recorded(data, d, x) {
        MoveIs(data, keys, from, to, d, x);
        MoveIs(data, keys, from, to, d, to);
      } else if x :| Recorded(data', d, x) {
        MoveIs(data, keys, from, to, d, x);
      }
    }
  }

  lemma SameKeysTrans(a: Data, b: Data, c: Data)
    requires SameKeys(a, b) && SameKeys(b, c)
    ensures SameKeys(a, c)
  {
  }

  /** Every data key is recorded with its owner and nowhere else. */
  ghost predicate Owned(ring: Ring, h: Hash, data: Data) {
    forall d, x :: Recorded(data, d, x) ==> ring != map[] && x == Owner(ring, h(d))
  }

  // ---------------------------------------------------------------- one virtual node comes

  /** The keys of the node after v that v takes over. */
  function Incoming(h: Hash, keys: set<string>, last: Score, v: Score, next: Score): set<string> {
    set d | d in keys && TakenOver(last, v, next, h(d))
  }

  /** A further name at a taken score changes no owner. */
  lemma JoinScore(ring: Ring, h: Hash, placed: set<string>, data: Data, raw: string)
    requires RingOk(ring, h, placed) && Owned(ring, h, data) && h(raw) in ring
    ensures Owned(AddTo(ring, h(raw), raw), h, data)
  {
    var ring' := AddTo(ring, h(raw), raw);
    assert ring'.Keys == ring.Keys;
    forall v | v in ring ensures ring[v] != [] && ring'[v] != [] && ring'[v][0] == ring[v][0] {
      assert ListOk(ring, h, placed, v);
    }
    forall d, x | Recorded(data, d, x) ensures x == Owner(ring', h(d)) { OwnerSame(ring, ring', h(d)); }
  }

  /** A new score takes over exactly its arc, from the first node of the next score. */
  lemma NewScoreOwner(ring: Ring, h: Hash, placed: set<string>, raw: string, next: Score, s: Score)
    requires RingOk(ring, h, placed) && h(raw) !in ring && ring != map[]
    requires IsCeil(ring.Keys + {h(raw)}, Incr(h(raw)), next) && next != h(raw)
    ensures ring[next] != []
    ensures var v, ring' := h(raw), AddTo(ring, h(raw), raw);
            if IsCeil(ring'.Keys, s, v) then Owner(ring', s) == NodeId(raw) && Owner(ring, s) == NodeId(ring[next][0])
            else Owner(ring', s) == Owner(ring, s)
  {
    var v, ring' := h(raw), AddTo(ring, h(raw), raw);
    assert ring'.Keys == ring.Keys + {v} && ring'.Keys - {v} == ring.Keys;
    assert ListOk(ring, h, placed, next);
    if IsCeil(ring'.Keys, s, v) {
      ArcGoesOn(ring'.Keys, v, next, s);
      OwnerIs(ring, s, next);
      OwnerIs(ring', s, v);
    } else {
      var c := Ceil(ring.Keys, s);
      assert ListOk(ring, h, placed, c);
      ArcOutside(ring'.Keys, v, s, c);
      OwnerIs(ring', s, c);
    }
  }

  /** Migration into a new score keeps every key with its owner. */
  lemma NewScore(ring: Ring, h: Hash, placed: set<string>, data: Data, raw: string, last: Score, next: Score)
    requires RingOk(ring, h, placed) && Owned(ring, h, data) && h(raw) !in ring
    requires var ks, v := ring.Keys + {h(raw)}, h(raw);
             IsLast(ks, v, last) && IsCeil(ks, Incr(v), next) && next != v
    ensures next in ring && ring[next] != []
    ensures var from := NodeId(ring[next][0]);
            var keys := Incoming(h, KeysOf(data, from), last, h(raw), next);
            var data' := Move(data, keys, from, NodeId(raw));
            Owned(AddTo(ring, h(raw), raw), h, data') && SameKeys(data, data')
  {
    var ks, v := ring.Keys + {h(raw)}, h(raw);
    assert ListOk(ring, h, placed, next);
    var from, to := NodeId(ring[next][0]), NodeId(raw);
    var keys := Incoming(h, KeysOf(data, from), last, v, next);
    var data', ring' := Move(data, keys, from, to), AddTo(ring, v, raw);
    assert ring'.Keys == ks;
    MoveKeepsKeys(data, keys, from, to);
    forall d, x | Recorded(data', d, x) ensures x == Owner(ring', h(d)) {
      MoveIs(data, keys, from, to, d, x);
      TakenOverIsArc(ks, last, v, next, h(d));
      NewScoreOwner(ring, h, placed, raw, next, h(d));
    }
  }

  /** The very first score: there is nothing to own before. */
  lemma FirstScore(ring: Ring, h: Hash, data: Data, raw: string)
    requires ring == map[] && Owned(ring, h, data)
    ensures Owned(AddTo(ring, h(raw), raw), h, data)
  {
  }
}
