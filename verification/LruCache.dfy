/**
 One cache level as it is stored: an array of slots, the link array, a map from key to slot and a
 byte count. Every operation is proved to act on the recency list of module LruList.
 */
module LruCache {
  import opened Basics
  import opened LruLinks
  import opened LruList

  // ---------------------------------------------------------------- what relinking does to the list

  /** Slot number x holds `slot` now, under its key only. */
  function Reindexed(s: Level, x: nat, slot: Slot): map<string, nat>
    requires 1 <= x <= |s.slots|
  {
    (s.index - {s.slots[x - 1].k})[slot.k := x]
  }

  function ToFront(s: Level, k: nat, slot: Slot): Level
    requires 0 < k < |s.r| && 1 <= s.r[k] <= |s.slots|
  {
    Level(s.slots[s.r[k] - 1 := slot], Reindexed(s, s.r[k], slot), Moved(s.r, k),
          if k <= s.live then s.live else s.live + 1)
  }

  lemma ReindexedOk(s: Level, x: nat, slot: Slot)
    requires IndexOk(s) && 1 <= x <= |s.slots| && (slot.k in s.index ==> s.index[slot.k] == x)
    ensures IndexOk(s.(slots := s.slots[x - 1 := slot], index := Reindexed(s, x, slot)))
  {
    var t := s.(slots := s.slots[x - 1 := slot], index := Reindexed(s, x, slot));
    assert SlotIndexed(s, x);
    forall y: nat ensures SlotIndexed(t, y) { assert SlotIndexed(s, y); }
    forall k ensures KeySlotted(t, k) { assert KeySlotted(s, k); }
  }

  lemma MovedCovers(r: seq<nat>, k: nat, x: nat)
    requires 0 < k < |r| && x in r
    ensures x in Moved(r, k)
  {
  }

  /** A live entry written into slot k of the ring becomes the most recently used one. */
  lemma ToFrontRing(s: Level, k: nat, slot: Slot)
    requires RingOk(s) && 0 < k < |s.r| && 1 <= s.r[k] <= |s.slots| && slot.expireAt > 0
    ensures RingOk(ToFront(s, k, slot))
  {
    hide Moved;
    var t := ToFront(s, k, slot);
    SlotsArePositive(s);
    MovedSlots(s.r, k, |s.slots| + 1);
    forall x | 0 <= x <= |t.slots| ensures x in t.r { MovedCovers(s.r, k, x); }
    forall i: nat ensures LiveAt(t, i) {
      if 1 < i < |t.r| {
        var j := if i <= k then i - 1 else i;
        assert t.r[i] == s.r[j] && s.r[j] != s.r[k] && LiveAt(s, j);
      }
    }
  }

  lemma ToFrontView(s: Level, k: nat, slot: Slot)
    requires RingOk(s) && 0 < k < |s.r| && 1 <= s.r[k] <= |s.slots|
    requires slot.expireAt > 0 && RingOk(ToFront(s, k, slot))
    ensures View(ToFront(s, k, slot)) ==
              [Ent(slot.k, slot.v, slot.expireAt)]
              + (if k <= s.live then View(s)[..k - 1] + View(s)[k..] else View(s))
  {
    hide Moved, View, RingOk;
    RingLength(s);
    RingLength(ToFront(s, k, slot));
    var t, l := ToFront(s, k, slot), View(s);
    var l' := View(t);
    assert l'[0] == Ent(slot.k, slot.v, slot.expireAt);
    forall i | 0 < i < t.live ensures l'[i] == l[if i < k then i - 1 else i] {
      var j := if i < k then i else i + 1;
      assert t.r[i + 1] == s.r[j];
      RingDistinct(s, j, k);
    }
  }

  lemma RingDistinct(s: Level, i: nat, j: nat)
    requires RingOk(s) && i < |s.r| && j < |s.r|
    ensures i != j ==> s.r[i] != s.r[j]
  {
  }

  /** The slot after the last used one, put first. */
  function Fresh(s: Level, slot: Slot): Level
    requires s.r != []
  {
    Level(s.slots + [slot], s.index[slot.k := |s.slots| + 1], [0, |s.slots| + 1] + s.r[1..], s.live + 1)
  }

  lemma FreshOk(s: Level, slot: Slot)
    requires LevelOk(s) && slot.k !in s.index && slot.expireAt > 0
    ensures LevelOk(Fresh(s, slot))
  {
    var t := Fresh(s, slot);
    forall y: nat ensures SlotIndexed(t, y) { assert SlotIndexed(s, y); }
    forall k ensures KeySlotted(t, k) { assert KeySlotted(s, k); }
    assert forall i :: 1 < i < |t.r| ==> t.r[i] == s.r[i - 1];
    FreshSlots(s, slot);
    forall i: nat ensures LiveAt(t, i) {
      if 1 < i < |t.r| { assert LiveAt(s, i - 1); }
    }
  }

  lemma FreshSlots(s: Level, slot: Slot)
    requires RingOk(s)
    ensures var t := Fresh(s, slot); Slots(t.r, |t.slots| + 1) && forall x :: 0 <= x <= |t.slots| ==> x in t.r
  {
    var t, n := Fresh(s, slot), |s.slots| + 1;
    assert forall i :: 1 < i < |t.r| ==> t.r[i] == s.r[i - 1];
    forall x | 0 <= x <= n ensures x in t.r {
      if 0 < x < n {
        assert x in s.r;
        var i :| 0 <= i < |s.r| && s.r[i] == x;
        assert t.r[i + 1] == x;
      } else {
        assert t.r[0] == 0 && t.r[1] == n;
      }
    }
    forall i, j | 0 <= i < j < |t.r| ensures t.r[i] != t.r[j] {
      if i > 0 && j > 1 {
        assert t.r[j] == s.r[j - 1];
      } else {
        SlotsArePositive(s);
      }
    }
  }

  lemma FreshView(s: Level, slot: Slot)
    requires RingOk(s) && RingOk(Fresh(s, slot))
    ensures View(Fresh(s, slot)) == [Ent(slot.k, slot.v, slot.expireAt)] + View(s)
  {
  }

  /** Slot k of the ring moved right before the sentinel. */
  function MovedLast(r: seq<nat>, k: nat): (q: seq<nat>)
    requires 0 < k < |r|
    ensures |q| == |r| && q[0] == r[0] && q[|r| - 1] == r[k]
    ensures forall i :: 0 < i < k ==> q[i] == r[i]
    ensures forall i :: k <= i < |r| - 1 ==> q[i] == r[i + 1]
  {
    r[..k] + r[k + 1..] + [r[k]]
  }

  lemma MovedBackwards(r: seq<nat>, k: nat)
    requires 0 < k < |r|
    ensures Back(Moved(Back(r), |r| - k)) == MovedLast(r, k)
  {
  }

  function ToBack(s: Level, k: nat, v: Option<Value>): Level
    requires 0 < k < |s.r| && k <= s.live && 1 <= s.r[k] <= |s.slots|
  {
    Level(s.slots[s.r[k] - 1 := Slot(s.slots[s.r[k] - 1].k, v, 0)], s.index, MovedLast(s.r, k), s.live - 1)
  }

  /** A slot that dies goes behind all others, so tombstones stay last. */
  lemma ToBackOk(s: Level, k: nat, v: Option<Value>)
    requires LevelOk(s) && 0 < k <= s.live && 1 <= s.r[k] <= |s.slots|
    ensures LevelOk(ToBack(s, k, v))
  {
    hide MovedLast;
    var t := ToBack(s, k, v);
    forall y: nat ensures SlotIndexed(t, y) { assert SlotIndexed(s, y); }
    forall x ensures KeySlotted(t, x) { assert KeySlotted(s, x); }
    MovedLastSlots(s.r, k, |s.slots| + 1);
    forall i: nat ensures LiveAt(t, i) {
      if 0 < i < |t.r| - 1 {
        var j := if i < k then i else i + 1;
        assert t.r[i] == s.r[j] && LiveAt(s, j);
        RingDistinct(s, j, k);
      }
    }
  }

  lemma ToBackView(s: Level, k: nat, v: Option<Value>)
    requires RingOk(s) && 0 < k <= s.live && k < |s.r| && 1 <= s.r[k] <= |s.slots| && RingOk(ToBack(s, k, v))
    ensures View(ToBack(s, k, v)) == View(s)[..k - 1] + View(s)[k..]
  {
  }

  lemma RingLength(s: Level)
    requires RingOk(s)
    ensures |s.r| == |s.slots| + 1 && s.live <= |s.slots|
  {
  }

  lemma MovedLastSlots(r: seq<nat>, k: nat, size: nat)
    requires 0 < k < |r| && Slots(r, size)
    ensures Slots(MovedLast(r, k), size)
    ensures forall x :: x in r ==> x in MovedLast(r, k)
  {
  }

  // ---------------------------------------------------------------- the level

  function Size(e: Ent): nat { EntryBytes(e.key, e.val) }

  /** What a put of this key pushes out: the oldest live entry, if all slots are live with other keys. */
  function Evictee(l: seq<Ent>, cap: nat, key: string): Option<Ent> {
    if Find(l, key) == None && |l| == cap && cap > 0 then Some(l[cap - 1]) else None
  }

  function SizeOf(o: Option<Ent>): nat {
    match o
    case None => 0
    case Some(e) => Size(e)
  }

  /** The ring position of a known key, and whether it is live. */
  lemma Known(s: Level, key: string) returns (k: nat)
    requires LevelOk(s) && key in s.index
    ensures 0 < k < |s.r| && s.r[k] == s.index[key] && 1 <= s.r[k] <= |s.slots|
    ensures SlotAt(s, k).k == key && (k <= s.live <==> SlotAt(s, k).expireAt > 0)
    ensures Find(View(s), key) == if SlotAt(s, k).expireAt > 0 then Some(EntAt(s, k)) else None
    ensures SlotAt(s, k).expireAt <= 0 ==> Without(View(s), key) == View(s)
  {
    SlotsArePositive(s);
    k := PositionOf(s, key);
    FindIsLive(s, key);
    assert LiveAt(s, k);
  }

  lemma RingEnds(to: seq<nat>, from: seq<nat>, r: seq<nat>)
    requires Ring(to, from, r)
    ensures |r| > 0 && r[0] == 0 && from[0] == r[|r| - 1] && to[0] == (if |r| > 1 then r[1] else 0) < |to|
  {
  }

  lemma RingStep(to: seq<nat>, from: seq<nat>, r: seq<nat>, k: nat)
    requires Ring(to, from, r) && 0 < k < |r|
    ensures 0 < r[k] < |to| && from[r[k]] == r[k - 1] && to[r[k]] == if k + 1 < |r| then r[k + 1] else 0
  {
  }

  /** Writing a known key, live or tombstone. */
  lemma RenewIs(s: Level, k: nat, e: Ent, cap: nat)
    requires LevelOk(s) && e.key in s.index && 0 < k < |s.r| && s.r[k] == s.index[e.key]
    requires 1 <= s.r[k] <= |s.slots| <= cap && e.exp > 0
    ensures var t := ToFront(s, k, Slot(e.key, e.val, e.exp));
            && LevelOk(t) && t.index == s.index && View(t) == PutFront(View(s), cap, e)
            && Bytes(View(t)) == Bytes(View(s)) + Size(e) - SizeOf(Find(View(s), e.key))
            && Evictee(View(s), cap, e.key) == None
  {
    hide View, RingOk, Moved;
    var slot := Slot(e.key, e.val, e.exp);
    var t, l := ToFront(s, k, slot), View(s);
    assert KeySlotted(s, e.key);
    ReindexedOk(s, s.r[k], slot);
    ToFrontRing(s, k, slot);
    IndexIgnoresRing(s.(slots := t.slots, index := t.index), t);
    ToFrontView(s, k, slot);
    FindIsLive(s, e.key);
    RingLength(s);
    if k <= s.live { BytesWithoutAt(l, k - 1); }
    BytesOfConcat([e], Without(l, e.key));
    BytesOfOne(e);
  }

  lemma IndexIgnoresRing(s: Level, t: Level)
    requires IndexOk(s) && s.slots == t.slots && s.index == t.index
    ensures IndexOk(t)
  {
    forall x: nat ensures SlotIndexed(t, x) { assert SlotIndexed(s, x); }
    forall k ensures KeySlotted(t, k) { assert KeySlotted(s, k); }
  }

  lemma TailIsLive(s: Level, i: nat)
    requires LevelOk(s)
    ensures LiveAt(s, i)
  {
  }

  /** Writing an unknown key when all slots are used takes the last slot of the ring. */
  lemma ReplaceIs(s: Level, e: Ent, cap: nat)
    requires LevelOk(s) && e.key !in s.index && |s.slots| == cap && cap > 0 && e.exp > 0
    ensures |s.r| == cap + 1 && 1 <= s.r[cap] <= |s.slots|
    ensures var t := ToFront(s, cap, Slot(e.key, e.val, e.exp));
            && LevelOk(t) && View(t) == PutFront(View(s), cap, e)
            && Bytes(View(t)) == Bytes(View(s)) + Size(e) - SizeOf(Evictee(View(s), cap, e.key))
    ensures Evictee(View(s), cap, e.key) == if SlotAt(s, cap).expireAt > 0 then Some(EntAt(s, cap)) else None
  {
    hide View, RingOk, Moved, Bytes, IndexOk, Find, Without, PutFront;
    SlotsArePositive(s);
    RingLength(s);
    TailIsLive(s, cap);
    var slot := Slot(e.key, e.val, e.exp);
    var t, l := ToFront(s, cap, slot), View(s);
    ReindexedOk(s, s.r[cap], slot);
    ToFrontRing(s, cap, slot);
    IndexIgnoresRing(s.(slots := t.slots, index := t.index), t);
    ToFrontView(s, cap, slot);
    FindIsLive(s, e.key);
    FullPut(l, cap, e);
  }

  lemma PushedOutBytes(l: seq<Ent>, e: Ent)
    requires l != []
    ensures Bytes(([e] + l)[..|l|]) + Size(l[|l| - 1]) == Bytes(l) + Size(e)
  {
    hide Bytes;
    var n := |l| - 1;
    assert ([e] + l)[..|l|] == [e] + l[..n] && l == l[..n] + [l[n]];
    BytesOfConcat(l[..n], [l[n]]);
    BytesOfOne(l[n]);
    BytesOfOne(e);
    BytesOfConcat([e], l[..n]);
  }

  /** A put of a new key into a list that may be full. */
  lemma FullPut(l: seq<Ent>, cap: nat, e: Ent)
    requires |l| <= cap && cap > 0 && Find(l, e.key) == None && Without(l, e.key) == l
    ensures PutFront(l, cap, e) == [e] + (if cap <= |l| then l[..cap - 1] + l[cap..] else l)
    ensures Bytes(PutFront(l, cap, e)) == Bytes(l) + Size(e) - SizeOf(Evictee(l, cap, e.key))
  {
    hide Bytes, Find, Without;
    if cap == |l| {
      PushedOutBytes(l, e);
      PushedOut(l, e);
    } else {
      BytesOfConcat([e], l);
      BytesOfOne(e);
    }
  }

  lemma PushedOut(l: seq<Ent>, e: Ent)
    requires l != []
    ensures ([e] + l)[..|l|] == [e] + (l[..|l| - 1] + l[|l|..])
  {
  }

  lemma FreshIs(s: Level, e: Ent, cap: nat)
    requires LevelOk(s) && e.key !in s.index && |s.slots| < cap && e.exp > 0
    ensures var t := Fresh(s, Slot(e.key, e.val, e.exp));
            && LevelOk(t) && View(t) == PutFront(View(s), cap, e)
            && Bytes(View(t)) == Bytes(View(s)) + Size(e)
    ensures Evictee(View(s), cap, e.key) == None && s.live < cap
  {
    hide View, RingOk;
    var slot, l := Slot(e.key, e.val, e.exp), View(s);
    RingLength(s);
    FreshOk(s, slot);
    FreshView(s, slot);
    FindIsLive(s, e.key);
    BytesOfConcat([e], l);
    BytesOfOne(e);
  }

  /** A live slot becoming a tombstone takes its key out of the list. */
  lemma BuryIs(s: Level, k: nat, v: Option<Value>)
    requires LevelOk(s) && 0 < k <= s.live && k < |s.r| && 1 <= s.r[k] <= |s.slots|
    ensures var t, key := ToBack(s, k, v), SlotAt(s, k).k;
            && LevelOk(t) && View(t) == Without(View(s), key)
            && Find(View(s), key) == Some(EntAt(s, k)) && View(s)[k - 1] == EntAt(s, k)
            && Bytes(View(t)) == Bytes(View(s)) - Size(EntAt(s, k))
  {
    assert SlotIndexed(s, s.r[k]);
    hide View, RingOk, MovedLast;
    ToBackOk(s, k, v);
    ToBackView(s, k, v);
    FindIsLive(s, SlotAt(s, k).k);
    BytesWithoutAt(View(s), k - 1);
  }

  lemma TouchIs(l: seq<Ent>, cap: nat, e: Ent)
    requires |l| <= cap && Find(l, e.key) == Some(e)
    ensures PutFront(l, cap, e) == [e] + Without(l, e.key)
  {
    WithoutLength(l, e.key);
  }

  lemma {:induction false} WithoutLength(l: seq<Ent>, key: string)
    ensures |Without(l, key)| == |l| - if Find(l, key).Some? then 1 else 0
  {
    if l != [] && l[0].key != key { WithoutLength(l[1..], key); }
  }

  lemma LiveOrDead(s: Level, k: nat)
    requires LevelOk(s) && 0 < k < |s.r|
    ensures 1 <= s.r[k] <= |s.slots|
    ensures if k <= s.live then SlotAt(s, k).expireAt > 0 && View(s)[k - 1] == EntAt(s, k) else SlotAt(s, k).expireAt <= 0
  {
    SlotsArePositive(s);
    assert LiveAt(s, k);
  }

  /** Where the slot of a key is on the ring; a key without a live slot is not listed. */
  lemma WhereIs(s: Level, key: string) returns (k: nat)
    requires LevelOk(s)
    ensures key in s.index ==>
              && 0 < k < |s.r| && s.r[k] == s.index[key] && 1 <= s.r[k] <= |s.slots| && s.slots[s.r[k] - 1].k == key
              && (SlotAt(s, k).expireAt > 0 <==> k <= s.live)
    ensures (key in s.index ==> k > s.live) ==> Find(View(s), key) == None && Without(View(s), key) == View(s)
  {
    hide View, Find, Without;
    FindIsLive(s, key);
    k := 0;
    if key in s.index {
      assert KeySlotted(s, key);
      k := PositionOf(s, key);
      assert LiveAt(s, k);
    }
  }

  /** One more slot of the ring has been walked over. */
  lemma WalkMore(s: Level, k: nat, l: seq<Ent>)
    requires LevelOk(s) && 0 < k < |s.r| && l == View(s)[..if k - 1 < s.live then k - 1 else s.live]
    ensures 1 <= s.r[k] <= |s.slots|
    ensures (if SlotAt(s, k).expireAt > 0 then l + [EntAt(s, k)] else l) == View(s)[..if k < s.live then k else s.live]
  {
    hide View;
    LiveOrDead(s, k);
  }

  lemma WithoutLast(l: seq<Ent>)
    requires UniqueKeys(l) && l != []
    ensures Without(l, l[|l| - 1].key) == l[..|l| - 1]
  {
    FindAt(l, |l| - 1);
    assert l[..|l| - 1] + l[|l|..] == l[..|l| - 1];
  }

  lemma FreshRing(to: seq<nat>, from: seq<nat>, to': seq<nat>, from': seq<nat>, r: seq<nat>, x: nat)
    requires Ring(to, from, r) && x < |to| && x !in r && |to'| == |to| && |from'| == |from|
    requires forall y :: 0 <= y < |to| ==> to'[y] == if y == 0 then x else if y == x then to[0] else to[y]
    requires forall y :: 0 <= y < |to| ==> from'[y] == if y == x then 0 else if y == to[0] then x else from[y]
    ensures Ring(to', from', [0, x] + r[1..])
  {
    var q := [0, x] + r[1..];
    assert forall i :: 1 < i < |q| ==> q[i] == r[i - 1];
    assert r[|r| - 1] in r && to[r[0]] == if |r| > 1 then r[1] else 0;
    forall i, j | 0 <= i < j < |q| ensures q[i] != q[j] {
      if j > 1 { assert q[j] == r[j - 1] && r[0] != r[j - 1]; }
    }
    forall i | 0 <= i < |q| - 1 ensures to'[q[i]] == q[i + 1] {
      if i > 1 { assert q[i] == r[i - 1] && r[0] != r[i - 1]; }
    }
    forall i | 0 < i < |q| ensures from'[q[i]] == q[i - 1] {
      if i > 2 { assert q[i] == r[i - 1] && r[1] != r[i - 1]; }
    }
  }

  class Cache {
    const link: array2<nat>
    const m: array<Slot>
    var hashMap: map<string, nat>
    var bytes: int
    var nevict: nat
    var last: nat
    ghost var r: seq<nat>
    ghost var live: nat

    ghost function At(): Level
      reads this, m
    {
      Level(if last <= m.Length then m[..last] else [], hashMap, r, live)
    }

    ghost predicate Valid()
      reads this, link, m
    {
      && link.Length1 == 2 && link.Length0 == m.Length + 1 && 0 < m.Length && last <= m.Length
      && Ring(Column(link, N), Column(link, P), r)
      && LevelOk(At())
      && bytes == Bytes(View(At()))
    }

    /** The live entries, most recently used first. */
    ghost function Live(): (l: seq<Ent>)
      requires Valid()
      reads this, link, m
      ensures |l| <= m.Length && m.Length > 0 && UniqueKeys(l)
    {
      ViewUnique(At());
      View(At())
    }

    constructor (cap: nat)
      requires 0 < cap < 65535
      ensures Valid() && fresh(link) && fresh(m) && m.Length == cap && Live() == [] && nevict == 0
    {
      link := new nat[cap + 1, 2]((i, j) => 0);
      m := new Slot[cap](i => Slot("", None, 0));
      hashMap, bytes, nevict, last, r, live := map[], 0, 0, 0, [0], 0;
    }

    /** Moves the slot at ring position k to the front of the ring. */
    method Front(idx: nat, ghost k: nat)
      requires link.Length1 == 2 && Ring(Column(link, N), Column(link, P), r) && 0 < k < |r| && r[k] == idx
      modifies link, this`r
      ensures r == Moved(old(r), k) && Ring(Column(link, N), Column(link, P), r)
    {
      Adjust(link, idx, P, N, r, k);
      r := Moved(r, k);
    }

    /** Moves the slot at ring position k to the end of the ring. */
    method Rear(idx: nat, ghost k: nat)
      requires link.Length1 == 2 && Ring(Column(link, N), Column(link, P), r) && 0 < k < |r| && r[k] == idx
      modifies link, this`r
      ensures r == MovedLast(old(r), k) && Ring(Column(link, N), Column(link, P), r)
    {
      hide Back, Moved, MovedLast, Ring;
      ghost var b := Back(r);
      RingBack(Column(link, N), Column(link, P), r);
      assert b[|r| - k] == idx;
      Adjust(link, idx, N, P, b, |r| - k);
      RingBack(Column(link, P), Column(link, N), Moved(b, |r| - k));
      MovedBackwards(r, k);
      r := MovedLast(r, k);
    }

    /** The slot of a key, live or not; 0 if the key is unknown. */
    method Peek(key: string) returns (nd: Option<Slot>, idx: nat)
      requires Valid()
      ensures nd.Some? <==> key in hashMap
      ensures key in hashMap ==> idx == hashMap[key] && 1 <= idx <= last && nd == Some(m[idx - 1])
      ensures nd.Some? && nd.value.expireAt > 0 ==>
                Find(Live(), key) == Some(Ent(key, nd.value.v, nd.value.expireAt))
      ensures !(nd.Some? && nd.value.expireAt > 0) ==> Find(Live(), key) == None
    {
      FindIsLive(At(), key);
      if key in hashMap {
        ghost var k := PositionOf(At(), key);
        assert KeySlotted(At(), key) && LiveAt(At(), k);
        idx := hashMap[key];
        nd := Some(m[idx - 1]);
      } else {
        nd, idx := None, 0;
      }
    }

    method Put(key: string, val: Option<Value>, expireAt: int) returns (code: nat, evicted: Option<Ent>)
      requires Valid() && expireAt > 0
      modifies this, link, m
      ensures Valid() && Live() == PutFront(old(Live()), m.Length, Ent(key, val, expireAt))
      ensures evicted == Evictee(old(Live()), m.Length, key)
      ensures nevict == old(nevict) + (if evicted.Some? then 1 else 0)
      ensures code == if key in old(hashMap) then 0 else 1
    {
      if key in hashMap {
        Renew(key, val, expireAt);
        return 0, None;
      }
      if last == m.Length {
        evicted := Replace(key, val, expireAt);
        return 1, evicted;
      }
      Append(key, val, expireAt);
      return 1, None;
    }

    method Renew(key: string, val: Option<Value>, expireAt: int)
      requires Valid() && expireAt > 0 && key in hashMap
      modifies this, link, m
      ensures Valid() && Live() == PutFront(old(Live()), m.Length, Ent(key, val, expireAt))
      ensures nevict == old(nevict) && Evictee(old(Live()), m.Length, key) == None
    {
      hide IndexOk, RingOk, View, Ring, Moved, PutFront, Find, Bytes, UniqueKeys, Column;
      ghost var s := At();
      ghost var k := Known(s, key);
      RenewIs(s, k, Ent(key, val, expireAt), m.Length);
      var idx := hashMap[key];
      var nd := m[idx - 1];
      if nd.expireAt > 0 {
        bytes := bytes + EntryBytes(key, val) - EntryBytes(nd.k, nd.v);
      } else {
        bytes := bytes + EntryBytes(key, val);
      }
      m[idx - 1] := Slot(nd.k, val, expireAt);
      assert m[..last] == s.slots[idx - 1 := Slot(key, val, expireAt)];
      Front(idx, k);
      live := if k <= live then live else live + 1;
      assert At() == ToFront(s, k, Slot(key, val, expireAt));
    }

    method Replace(key: string, val: Option<Value>, expireAt: int) returns (evicted: Option<Ent>)
      requires Valid() && expireAt > 0 && key !in hashMap && last == m.Length
      modifies this, link, m
      ensures Valid() && Live() == PutFront(old(Live()), m.Length, Ent(key, val, expireAt))
      ensures evicted == Evictee(old(Live()), m.Length, key)
      ensures nevict == old(nevict) + (if evicted.Some? then 1 else 0)
    {
      hide IndexOk, RingOk, View, Ring, Moved, PutFront, Find, Bytes, UniqueKeys, Column, Evictee;
      ghost var s := At();
      ReplaceIs(s, Ent(key, val, expireAt), m.Length);
      RingEnds(Column(link, N), Column(link, P), r);
      assert Column(link, P)[0] == link[0, P];
      var idx := link[0, P];
      var tail := m[idx - 1];
      evicted := None;
      if tail.expireAt > 0 {
        bytes := bytes - EntryBytes(tail.k, tail.v);
        nevict := nevict + 1;
        evicted := Some(Ent(tail.k, tail.v, tail.expireAt));
      }
      hashMap := hashMap - {tail.k};
      bytes := bytes + EntryBytes(key, val);
      hashMap := hashMap[key := idx];
      m[idx - 1] := Slot(key, val, expireAt);
      assert hashMap == Reindexed(s, idx, Slot(key, val, expireAt));
      hide Reindexed;
      assert m[..last] == s.slots[idx - 1 := Slot(key, val, expireAt)];
      Front(idx, m.Length);
      live := if m.Length <= live then live else live + 1;
      assert At().slots == s.slots[idx - 1 := Slot(key, val, expireAt)];
      assert At() == ToFront(s, m.Length, Slot(key, val, expireAt));
    }

    method Append(key: string, val: Option<Value>, expireAt: int)
      requires Valid() && expireAt > 0 && key !in hashMap && last < m.Length
      modifies this, link, m
      ensures Valid() && Live() == PutFront(old(Live()), m.Length, Ent(key, val, expireAt))
      ensures nevict == old(nevict) && Evictee(old(Live()), m.Length, key) == None
    {
      hide IndexOk, RingOk, View, Ring, PutFront, Find, Bytes, UniqueKeys, Column, Evictee;
      ghost var s := At();
      FreshIs(s, Ent(key, val, expireAt), m.Length);
      EmptyIndex(s);
      RingSize(s);
      last := last + 1;
      LinkFresh(last, |hashMap| <= 0);
      m[last - 1] := Slot(key, val, expireAt);
      hashMap := hashMap[key := last];
      bytes := bytes + EntryBytes(key, val);
      live := live + 1;
      assert m[..last] == s.slots + [Slot(key, val, expireAt)];
      assert At() == Fresh(s, Slot(key, val, expireAt));
    }

    /** Links slot x, unlinked so far, right behind the sentinel. */
    method LinkFresh(x: nat, empty: bool)
      requires link.Length1 == 2 && Ring(Column(link, N), Column(link, P), r)
      requires x < link.Length0 && x !in r && (empty <==> r == [0])
      modifies link, this`r
      ensures r == [0, x] + old(r)[1..] && Ring(Column(link, N), Column(link, P), r)
    {
      hide Ring, Column;
      ghost var to, from := Column(link, N), Column(link, P);
      RingEnds(to, from, r);
      assert to[0] == link[0, N];
      if empty {
        link[0, P] := x;
      } else {
        link[link[0, N], P] := x;
      }
      link[x, P], link[x, N] := 0, link[0, N];
      link[0, N] := x;
      FreshRing(to, from, Column(link, N), Column(link, P), r, x);
      r := [0, x] + r[1..];
    }

    /** Forgets a live key and tells what it was bound to; the slot stays as a tombstone. */
    method Del(key: string) returns (ent: Option<Ent>)
      requires Valid()
      modifies this, link, m
      ensures Valid() && Live() == Without(old(Live()), key) && ent == Find(old(Live()), key)
      ensures nevict == old(nevict)
    {
      hide IndexOk, RingOk, View, Ring, Find, Without, Bytes, UniqueKeys, Column;
      ghost var k := WhereIs(At(), key);
      if key !in hashMap { return None; }
      var idx := hashMap[key];
      if m[idx - 1].expireAt <= 0 { return None; }
      ent := Bury(idx, k);
    }

    /** Turns the live slot at ring position k into a tombstone without a value. */
    method Bury(idx: nat, ghost k: nat) returns (ent: Option<Ent>)
      requires Valid() && 0 < k <= live && k < |r| && r[k] == idx && 1 <= idx <= last
      modifies this, link, m
      ensures Valid() && Live() == Without(old(Live()), old(m[idx - 1].k))
      ensures ent == Find(old(Live()), old(m[idx - 1].k)) && ent == Some(old(Live())[k - 1])
      ensures nevict == old(nevict)
    {
      hide IndexOk, RingOk, View, Ring, MovedLast, Find, Without, Bytes, UniqueKeys, Column;
      ghost var s := At();
      BuryIs(s, k, None);
      var nd := m[idx - 1];
      ent := Some(Ent(nd.k, nd.v, nd.expireAt));
      bytes := bytes - EntryBytes(nd.k, nd.v);
      m[idx - 1] := Slot(nd.k, None, 0);
      Rear(idx, k);
      live := live - 1;
      assert At() == ToBack(s, k, None);
    }

    /** The slot of the least recently used live entry, past all tombstones; 0 if there is none. */
    method Oldest() returns (idx: nat)
      requires Valid()
      ensures live < |r| && idx == if live == 0 then 0 else r[live]
    {
      hide IndexOk, RingOk, View, Ring, Find, Without, Bytes, UniqueKeys, Column;
      RingLength(At());
      RingEnds(Column(link, N), Column(link, P), r);
      idx := link[0, P];
      ghost var k := |r| - 1;
      if k > 0 { LiveOrDead(At(), k); }
      while idx != 0 && m[idx - 1].expireAt <= 0
        invariant live <= k < |r| && r[k] == idx <= last && (k == 0 <==> idx == 0)
        decreases k
      {
        LiveOrDead(At(), k);
        RingStep(Column(link, N), Column(link, P), r, k);
        idx := link[idx, P];
        k := k - 1;
        if k > 0 { LiveOrDead(At(), k); }
      }
      if k > 0 { LiveOrDead(At(), k); }
    }

    /** Evicts the least recently used live entry, if there is one. */
    method EvictOldest() returns (evicted: Option<Ent>)
      requires Valid()
      modifies this, link, m
      ensures Valid()
      ensures var l := old(Live());
              if l == [] then Live() == [] && evicted == None && nevict == old(nevict)
              else Live() == l[..|l| - 1] && evicted == Some(l[|l| - 1]) && nevict == old(nevict) + 1
    {
      hide IndexOk, RingOk, View, Ring, Find, Without, Bytes, Column;
      RingLength(At());
      var idx := Oldest();
      if live > 0 {
        LiveOrDead(At(), live);
        WithoutLast(Live());
      }
      if idx == 0 { return None; }
      evicted := Bury(idx, live);
      nevict := nevict + 1;
    }

    /** Uses the live slot of a key: it becomes the most recently used one, unchanged. */
    method Touch(idx: nat, ghost key: string)
      requires Valid() && key in hashMap && hashMap[key] == idx && Find(Live(), key).Some?
      modifies this, link
      ensures Valid() && Live() == [Find(old(Live()), key).value] + Without(old(Live()), key)
      ensures nevict == old(nevict)
    {
      hide IndexOk, RingOk, View, Ring, Moved, Find, Without, Bytes, UniqueKeys, Column;
      ghost var s := At();
      ghost var k := Known(s, key);
      ghost var e := EntAt(s, k);
      RenewIs(s, k, e, m.Length);
      TouchIs(View(s), m.Length, e);
      Front(idx, k);
      assert At() == ToFront(s, k, Slot(e.key, e.val, e.exp));
    }

    /** The live entries as a walk from the front meets them. */
    method Walk() returns (l: seq<Ent>)
      requires Valid()
      ensures l == Live()
    {
      hide LevelOk, IndexOk, RingOk, View, Ring, Find, Without, Bytes, UniqueKeys, Column, SlotAt, EntAt;
      ghost var s, all, to, from := At(), Live(), Column(link, N), Column(link, P);
      LevelLength(s);
      RingEnds(to, from, r);
      ghost var k := 1;
      l := [];
      var idx := link[0, N];
      while idx != 0
        invariant 1 <= k <= |r| && idx == (if k < |r| then r[k] else 0)
        invariant l == all[..if k - 1 < live then k - 1 else live]
        decreases |r| - k
      {
        RingStep(to, from, r, k);
        WalkMore(s, k, l);
        SlotIs(idx, k);
        if m[idx - 1].expireAt > 0 {
          l := l + [Ent(m[idx - 1].k, m[idx - 1].v, m[idx - 1].expireAt)];
        }
        idx := link[idx, N];
        k := k + 1;
      }
      if k < |r| { RingStep(to, from, r, k); }
    }

    lemma SlotIs(idx: nat, k: nat)
      requires Valid() && 0 < k < |r| && r[k] == idx && 1 <= idx <= last
      ensures SlotAt(At(), k) == m[idx - 1] && EntAt(At(), k) == Ent(m[idx - 1].k, m[idx - 1].v, m[idx - 1].expireAt)
    {
    }
  }

  lemma LevelLength(s: Level)
    requires LevelOk(s)
    ensures RingOk(s) && |s.r| == |s.slots| + 1 && s.live <= |s.slots| && |View(s)| == s.live
  {
  }

  lemma RingSize(s: Level)
    requires RingOk(s)
    ensures |s.slots| + 1 !in s.r && s.r != []
  {
  }

  lemma EmptyIndex(s: Level)
    requires LevelOk(s)
    ensures |s.index| == 0 <==> s.r == [0]
  {
    if s.slots == [] {
      forall k ensures k !in s.index { assert KeySlotted(s, k); }
      assert s.index == map[];
      assert s.r == [0];
    } else {
      assert SlotIndexed(s, 1);
    }
  }
}
