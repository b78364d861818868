/**
 One cache level by its meaning: the live entries, most recently used first, at most `cap` of them.
 Behind it, the slots of the level: which slot holds which key, in which order they are linked, and
 that all tombstones come last.
 */
module LruList {
  import opened Basics
  import opened LruLinks

  type Value = seq<bv8>

  datatype Ent = Ent(key: string, val: Option<Value>, exp: int)

  // ---------------------------------------------------------------- the list

  function EntryBytes(key: string, val: Option<Value>): nat {
    match val
    case None => |key|
    case Some(v) => |key| + |v|
  }

  function Bytes(l: seq<Ent>): nat {
    if l == [] then 0 else EntryBytes(l[0].key, l[0].val) + Bytes(l[1..])
  }

  ghost function KeyLengths(l: seq<Ent>): nat {
    if l == [] then 0 else |l[0].key| + KeyLengths(l[1..])
  }

  ghost function ValueLengths(l: seq<Ent>): nat {
    if l == [] then 0 else (if l[0].val.Some? then |l[0].val.value| else 0) + ValueLengths(l[1..])
  }

  /** The bytes of a list are the lengths of its keys and of the values it has. */
  lemma {:induction false} BytesAreLengths(l: seq<Ent>)
    ensures Bytes(l) == KeyLengths(l) + ValueLengths(l)
    decreases |l|
  {
    if l != [] {
      BytesAreLengths(l[1..]);
    }
  }

  function Find(l: seq<Ent>, key: string): Option<Ent> {
    if l == [] then None else if l[0].key == key then Some(l[0]) else Find(l[1..], key)
  }

  function Without(l: seq<Ent>, key: string): seq<Ent> {
    if l == [] then [] else if l[0].key == key then l[1..] else [l[0]] + Without(l[1..], key)
  }

  /** A new or renewed entry comes first; what no longer fits falls off the end. */
  function PutFront(l: seq<Ent>, cap: nat, e: Ent): seq<Ent> {
    var r := [e] + Without(l, e.key);
    if |r| > cap then r[..cap] else r
  }

  ghost predicate UniqueKeys(l: seq<Ent>) {
    forall i, j :: 0 <= i < j < |l| ==> l[i].key != l[j].key
  }

  lemma {:induction false} FindAt(l: seq<Ent>, k: nat)
    requires k < |l| && UniqueKeys(l)
    ensures Find(l, l[k].key) == Some(l[k]) && Without(l, l[k].key) == l[..k] + l[k + 1..]
    decreases |l|
  {
    if k > 0 {
      FindAt(l[1..], k - 1);
      assert l[..k] + l[k + 1..] == [l[0]] + (l[1..][..k - 1] + l[1..][k..]);
    }
  }

  lemma {:induction false} FindNothing(l: seq<Ent>, key: string)
    requires forall i :: 0 <= i < |l| ==> l[i].key != key
    ensures Find(l, key) == None && Without(l, key) == l
    decreases |l|
  {
    if l != [] {
      FindNothing(l[1..], key);
      assert [l[0]] + l[1..] == l;
    }
  }

  lemma {:induction false} BytesOfConcat(a: seq<Ent>, b: seq<Ent>)
    ensures Bytes(a + b) == Bytes(a) + Bytes(b)
    decreases |a|
  {
    if a == [] {
      assert a + b == b;
    } else {
      assert (a + b)[1..] == a[1..] + b;
      BytesOfConcat(a[1..], b);
    }
  }

  lemma BytesOfOne(e: Ent)
    ensures Bytes([e]) == EntryBytes(e.key, e.val)
  {
  }

  lemma BytesWithoutAt(l: seq<Ent>, k: nat)
    requires k < |l|
    ensures Bytes(l) == Bytes(l[..k] + l[k + 1..]) + EntryBytes(l[k].key, l[k].val)
  {
    hide Bytes, EntryBytes;
    assert l == l[..k] + ([l[k]] + l[k + 1..]);
    BytesOfConcat(l[..k], [l[k]] + l[k + 1..]);
    BytesOfConcat([l[k]], l[k + 1..]);
    BytesOfConcat(l[..k], l[k + 1..]);
    BytesOfOne(l[k]);
  }

  // ---------------------------------------------------------------- the slots

  datatype Slot = Slot(k: string, v: Option<Value>, expireAt: int)

  /** The used slots, the key index, the ring of links and how many of its first slots are live. */
  datatype Level = Level(slots: seq<Slot>, index: map<string, nat>, r: seq<nat>, live: nat)

  ghost predicate SlotIndexed(s: Level, x: nat) {
    1 <= x <= |s.slots| ==> s.slots[x - 1].k in s.index && s.index[s.slots[x - 1].k] == x
  }

  ghost predicate KeySlotted(s: Level, k: string) {
    k in s.index ==> 1 <= s.index[k] <= |s.slots| && s.slots[s.index[k] - 1].k == k
  }

  /** Keys and used slots, numbered from 1, correspond one to one. */
  ghost predicate IndexOk(s: Level) {
    && (forall x {:trigger SlotIndexed(s, x)} :: SlotIndexed(s, x))
    && (forall k {:trigger KeySlotted(s, k)} :: KeySlotted(s, k))
  }

  ghost predicate LiveAt(s: Level, i: nat) {
    0 < i < |s.r| && 1 <= s.r[i] <= |s.slots| ==> (s.slots[s.r[i] - 1].expireAt > 0 <==> i <= s.live)
  }

  /** The ring visits the sentinel and every used slot, live ones first. */
  ghost predicate RingOk(s: Level) {
    && |s.r| == |s.slots| + 1 && s.live <= |s.slots|
    && Slots(s.r, |s.slots| + 1)
    && (forall i :: 0 <= i <= |s.slots| ==> i in s.r)
    && (forall i {:trigger LiveAt(s, i)} :: LiveAt(s, i))
  }

  ghost predicate LevelOk(s: Level) { IndexOk(s) && RingOk(s) }

  /** The i-th slot of the ring. */
  function SlotAt(s: Level, i: nat): Slot
    requires 0 < i < |s.r| && 1 <= s.r[i] <= |s.slots|
  {
    s.slots[s.r[i] - 1]
  }

  function EntAt(s: Level, i: nat): Ent
    requires 0 < i < |s.r| && 1 <= s.r[i] <= |s.slots|
  {
    Ent(SlotAt(s, i).k, SlotAt(s, i).v, SlotAt(s, i).expireAt)
  }

  lemma SlotsArePositive(s: Level)
    requires RingOk(s)
    ensures forall i :: 0 < i < |s.r| ==> 1 <= s.r[i] <= |s.slots|
  {
    forall i | 0 < i < |s.r| ensures 1 <= s.r[i] { assert s.r[0] != s.r[i]; }
  }

  ghost function View(s: Level): (l: seq<Ent>)
    requires RingOk(s)
    ensures |l| == s.live
    ensures forall i :: 0 <= i < s.live ==> 1 <= s.r[i + 1] <= |s.slots| && l[i] == EntAt(s, i + 1)
  {
    SlotsArePositive(s);
    seq(s.live, i requires 0 <= i < s.live => EntAt(s, i + 1))
  }

  lemma ViewUnique(s: Level)
    requires LevelOk(s)
    ensures UniqueKeys(View(s))
  {
    SlotsArePositive(s);
    forall i, j | 0 <= i < j < s.live ensures View(s)[i].key != View(s)[j].key {
      assert s.r[i + 1] != s.r[j + 1];
      assert SlotIndexed(s, s.r[i + 1]) && SlotIndexed(s, s.r[j + 1]);
    }
  }

  /** Where the slot of a known key is in the ring. */
  lemma PositionOf(s: Level, key: string) returns (k: nat)
    requires LevelOk(s) && key in s.index
    ensures 0 < k < |s.r| && s.r[k] == s.index[key] && SlotAt(s, k).k == key
  {
    SlotsArePositive(s);
    assert KeySlotted(s, key);
    assert s.index[key] in s.r;
    k :| 0 <= k < |s.r| && s.r[k] == s.index[key];
  }

  /** A key is in the list exactly if its slot is live. */
  lemma FindIsLive(s: Level, key: string)
    requires LevelOk(s)
    ensures key !in s.index ==> Find(View(s), key) == None && Without(View(s), key) == View(s)
    ensures key in s.index ==>
              forall k :: 0 < k < |s.r| && s.r[k] == s.index[key] ==>
                if k <= s.live then Find(View(s), key) == Some(View(s)[k - 1]) &&
                                    Without(View(s), key) == View(s)[..k - 1] + View(s)[k..]
                else Find(View(s), key) == None && Without(View(s), key) == View(s)
  {
    SlotsArePositive(s);
    var l := View(s);
    ViewUnique(s);
    if key in s.index {
      forall k | 0 < k < |s.r| && s.r[k] == s.index[key]
        ensures if k <= s.live then Find(l, key) == Some(l[k - 1]) && Without(l, key) == l[..k - 1] + l[k..]
                else Find(l, key) == None && Without(l, key) == l
      {
        if k <= s.live {
          assert KeySlotted(s, key);
          FindAt(l, k - 1);
        } else {
          NotListed(s, key, k);
          FindNothing(l, key);
        }
      }
    } else {
      forall i | 0 <= i < |l| ensures l[i].key != key { assert SlotIndexed(s, s.r[i + 1]); }
      FindNothing(l, key);
    }
  }

  lemma NotListed(s: Level, key: string, k: nat)
    requires LevelOk(s) && key in s.index && s.live < k < |s.r| && s.r[k] == s.index[key]
    ensures forall i :: 0 <= i < s.live ==> View(s)[i].key != key
  {
    SlotsArePositive(s);
    forall i | 0 <= i < s.live ensures View(s)[i].key != key {
      assert s.r[i + 1] != s.r[k];
      assert SlotIndexed(s, s.r[i + 1]);
    }
  }
}
