/**
 One cache level over whole runs: it holds the keys in the order of their last use, each with what was put
 last, and a put that finds it full drops exactly the key that was not used for longest.
 */
module LruRuns {
  import opened Basics
  import opened LruList

  /** What is done to a level: a put, a hit, a deletion, an eviction. */
  datatype Use = Put(e: Ent) | Touch(key: string) | Del(key: string) | Evict

  function After(l: seq<Ent>, cap: nat, u: Use): seq<Ent> {
    match u
    case Put(e) => PutFront(l, cap, e)
    case Touch(k) => if Find(l, k).Some? then [Find(l, k).value] + Without(l, k) else l
    case Del(k) => Without(l, k)
    case Evict => if l == [] then l else l[..|l| - 1]
  }

  /** The level after a run of uses from the empty one. */
  function Run(us: seq<Use>, cap: nat): seq<Ent> {
    if us == [] then [] else After(Run(us[..|us| - 1], cap), cap, us[|us| - 1])
  }

  predicate Uses(u: Use, k: string) { (u.Put? && u.e.key == k) || (u.Touch? && u.key == k) }

  /** i is the last moment at which k was used. */
  ghost predicate UsedLast(us: seq<Use>, k: string, i: nat) {
    i < |us| && Uses(us[i], k) && forall j :: i < j < |us| ==> !Uses(us[j], k)
  }

  /** i is the last moment at which k was put. */
  ghost predicate PutLast(us: seq<Use>, e: Ent, i: nat) {
    i < |us| && us[i] == Put(e) && forall j :: i < j < |us| && us[j].Put? ==> us[j].e.key != e.key
  }

  /** k was used after x. */
  ghost predicate Later(us: seq<Use>, k: string, x: string) {
    exists i: nat, j: nat :: UsedLast(us, k, i) && UsedLast(us, x, j) && j < i
  }

  ghost function Keys(l: seq<Ent>): set<string> { set i | 0 <= i < |l| :: l[i].key }

  // ---------------------------------------------------------------- the order of last use

  ghost predicate HeldAt(l: seq<Ent>, us: seq<Use>, i: nat)
    requires i < |l|
  {
    (exists j: nat :: UsedLast(us, l[i].key, j)) && exists j: nat :: PutLast(us, l[i], j)
  }

  /** The list is in the order of last use, and its entries are those put last. */
  ghost predicate Recent(l: seq<Ent>, us: seq<Use>) {
    && UniqueKeys(l)
    && (forall i, j :: 0 <= i < j < |l| ==> Later(us, l[i].key, l[j].key))
    && (forall i {:trigger HeldAt(l, us, i)} :: 0 <= i < |l| ==> HeldAt(l, us, i))
  }

  lemma UsedMore(us: seq<Use>, u: Use, k: string, i: nat)
    ensures UsedLast(us, k, i) && !Uses(u, k) ==> UsedLast(us + [u], k, i)
    ensures Uses(u, k) ==> UsedLast(us + [u], k, |us|)
  {
    assert forall j :: 0 <= j < |us| ==> (us + [u])[j] == us[j];
    assert (us + [u])[|us|] == u;
  }

  lemma PutMore(us: seq<Use>, u: Use, e: Ent, i: nat)
    ensures PutLast(us, e, i) && !(u.Put? && u.e.key == e.key) ==> PutLast(us + [u], e, i)
    ensures u == Put(e) ==> PutLast(us + [u], e, |us|)
  {
    assert forall j :: 0 <= j < |us| ==> (us + [u])[j] == us[j];
    assert (us + [u])[|us|] == u;
  }

  lemma LaterMore(us: seq<Use>, u: Use, k: string, x: string)
    requires Later(us, k, x) && !Uses(u, k) && !Uses(u, x)
    ensures Later(us + [u], k, x)
  {
    var i: nat, j: nat :| UsedLast(us, k, i) && UsedLast(us, x, j) && j < i;
    UsedMore(us, u, k, i);
    UsedMore(us, u, x, j);
  }

  lemma LatestNow(us: seq<Use>, u: Use, k: string, x: string, j: nat)
    requires Uses(u, k) && !Uses(u, x) && UsedLast(us, x, j)
    ensures Later(us + [u], k, x)
  {
    UsedMore(us, u, k, |us|);
    UsedMore(us, u, x, j);
  }

  /** Entries of keys that are not used stay as they are. */
  lemma RestStays(l: seq<Ent>, us: seq<Use>, u: Use)
    requires Recent(l, us) && forall i :: 0 <= i < |l| ==> !Uses(u, l[i].key)
    ensures Recent(l, us + [u])
  {
    hide UsedLast, PutLast, Later, UniqueKeys;
    forall i, j | 0 <= i < j < |l| ensures Later(us + [u], l[i].key, l[j].key) {
      LaterMore(us, u, l[i].key, l[j].key);
    }
    forall i | 0 <= i < |l| ensures HeldAt(l, us + [u], i) {
      assert HeldAt(l, us, i);
      var a: nat :| UsedLast(us, l[i].key, a);
      var b: nat :| PutLast(us, l[i], b);
      UsedMore(us, u, l[i].key, a);
      PutMore(us, u, l[i], b);
    }
  }

  /** A part of the list in its order. */
  lemma PartStays(l: seq<Ent>, us: seq<Use>, k: nat)
    requires Recent(l, us) && k < |l|
    ensures Recent(l[..k] + l[k + 1..], us) && Recent(l[..k], us)
    ensures var r := l[..k] + l[k + 1..]; forall i :: 0 <= i < |r| ==> r[i].key != l[k].key
  {
    hide Later;
    var r := l[..k] + l[k + 1..];
    assert forall i :: 0 <= i < |r| ==> r[i] == l[if i < k then i else i + 1];
    forall i | 0 <= i < |r| ensures HeldAt(r, us, i) {
      var j := if i < k then i else i + 1;
      assert HeldAt(l, us, j) && r[i] == l[j];
    }
    forall i | 0 <= i < k ensures HeldAt(l[..k], us, i) { assert HeldAt(l, us, i); }
  }

  lemma WithoutStays(l: seq<Ent>, us: seq<Use>, key: string)
    requires Recent(l, us)
    ensures Recent(Without(l, key), us) && (forall i :: 0 <= i < |Without(l, key)| ==> Without(l, key)[i].key != key)
    ensures Find(l, key).Some? ==> exists k :: 0 <= k < |l| && l[k] == Find(l, key).value && l[k].key == key
    ensures Keys(Without(l, key)) == Keys(l) - {key}
    ensures Find(l, key).Some? <==> key in Keys(l)
    ensures |Without(l, key)| == if key in Keys(l) then |l| - 1 else |l|
  {
    hide Later, Find, Without;
    if k :| 0 <= k < |l| && l[k].key == key {
      FindAt(l, k);
      PartStays(l, us, k);
      KeysCut(l, k);
    } else {
      FindNothing(l, key);
    }
  }

  lemma KeysCut(l: seq<Ent>, k: nat)
    requires k < |l| && UniqueKeys(l)
    ensures Keys(l[..k] + l[k + 1..]) == Keys(l) - {l[k].key}
  {
    var r := l[..k] + l[k + 1..];
    assert forall i :: 0 <= i < |r| ==> r[i] == l[if i < k then i else i + 1];
    forall x | x in Keys(l) - {l[k].key} ensures x in Keys(r) {
      var i :| 0 <= i < |l| && l[i].key == x;
      assert r[if i < k then i else i - 1].key == x;
    }
  }

  /** What is used comes to the front. */
  lemma FrontStays(l: seq<Ent>, us: seq<Use>, u: Use, e: Ent)
    requires Recent(l, us) && (forall i :: 0 <= i < |l| ==> l[i].key != e.key)
    requires u == Put(e) || (u == Touch(e.key) && exists j: nat :: PutLast(us, e, j))
    ensures Recent([e] + l, us + [u])
  {
    hide PutLast, Later;
    RestStays(l, us, u);
    var r := [e] + l;
    forall i, j | 0 <= i < j < |r| ensures Later(us + [u], r[i].key, r[j].key) {
      if i == 0 {
        assert HeldAt(l, us, j - 1);
        var a: nat :| UsedLast(us, l[j - 1].key, a);
        LatestNow(us, u, e.key, l[j - 1].key, a);
      }
    }
    forall i | 0 <= i < |r| ensures HeldAt(r, us + [u], i) {
      if i == 0 {
        FrontHeld(l, us, u, e);
      } else {
        assert HeldAt(l, us + [u], i - 1) && r[i] == l[i - 1];
      }
    }
  }

  lemma FrontHeld(l: seq<Ent>, us: seq<Use>, u: Use, e: Ent)
    requires u == Put(e) || (u == Touch(e.key) && exists j: nat :: PutLast(us, e, j))
    ensures HeldAt([e] + l, us + [u], 0)
  {
    hide UsedLast, PutLast;
    var r := [e] + l;
    assert r[0] == e;
    UsedMore(us, u, e.key, |us|);
    if u == Put(e) {
      PutMore(us, u, e, 0);
    } else {
      var j: nat :| PutLast(us, e, j);
      PutMore(us, u, e, j);
    }
  }

  lemma PrefixStays(l: seq<Ent>, us: seq<Use>, k: nat)
    requires Recent(l, us) && k <= |l|
    ensures Recent(l[..k], us)
  {
    hide Later;
    forall i | 0 <= i < k ensures HeldAt(l[..k], us, i) { assert HeldAt(l, us, i); }
  }

  lemma StepRecent(l: seq<Ent>, us: seq<Use>, cap: nat, u: Use)
    requires Recent(l, us)
    ensures Recent(After(l, cap, u), us + [u])
  {
    hide Recent, Find, Without;
    match u {
      case Put(e) => {
        WithoutStays(l, us, e.key);
        FrontStays(Without(l, e.key), us, u, e);
        var r := [e] + Without(l, e.key);
        if |r| > cap { PrefixStays(r, us + [u], cap); }
      }
      case Touch(k) => {
        WithoutStays(l, us, k);
        if Find(l, k).Some? {
          TouchedWasPut(l, us, k);
          FrontStays(Without(l, k), us, u, Find(l, k).value);
        } else {
          KeysMiss(l, k);
          RestStays(l, us, u);
        }
      }
      case Del(k) => {
        WithoutStays(l, us, k);
        RestStays(Without(l, k), us, u);
      }
      case Evict => {
        if l != [] { PrefixStays(l, us, |l| - 1); }
        RestStays(After(l, cap, u), us, u);
      }
    }
  }

  lemma KeysMiss(l: seq<Ent>, k: string)
    requires k !in Keys(l)
    ensures forall i :: 0 <= i < |l| ==> l[i].key != k
  {
  }

  lemma TouchedWasPut(l: seq<Ent>, us: seq<Use>, k: string)
    requires Recent(l, us) && Find(l, k).Some?
    ensures Find(l, k).value.key == k && exists j: nat :: PutLast(us, Find(l, k).value, j)
  {
    hide PutLast, Later, Without, Find;
    WithoutStays(l, us, k);
    var i :| 0 <= i < |l| && l[i] == Find(l, k).value && l[i].key == k;
    assert HeldAt(l, us, i);
  }

  lemma {:induction false} RunIsRecent(us: seq<Use>, cap: nat)
    ensures Recent(Run(us, cap), us) && |Run(us, cap)| <= cap
    decreases |us|
  {
    if us != [] {
      var before, u := us[..|us| - 1], us[|us| - 1];
      RunIsRecent(before, cap);
      assert us == before + [u];
      hide Recent;
      StepRecent(Run(before, cap), before, cap, u);
      WithinCap(Run(before, cap), before, cap, u);
    }
  }

  lemma WithinCap(l: seq<Ent>, us: seq<Use>, cap: nat, u: Use)
    requires Recent(l, us) && |l| <= cap
    ensures |After(l, cap, u)| <= cap
  {
    hide Recent, Find, Without, Keys;
    if u.Touch? { WithoutStays(l, us, u.key); }
    if u.Del? { WithoutStays(l, us, u.key); }
  }

  // ---------------------------------------------------------------- the laws

  /** A listed entry is the one put last for its key, and the keys stand in the order of their last use. */
  lemma InOrderOfUse(us: seq<Use>, cap: nat, i: nat)
    requires i < |Run(us, cap)|
    ensures exists j: nat :: PutLast(us, Run(us, cap)[i], j)
    ensures forall j :: i < j < |Run(us, cap)| ==> Later(us, Run(us, cap)[i].key, Run(us, cap)[j].key)
  {
    hide Run, PutLast, Later;
    RunIsRecent(us, cap);
    assert HeldAt(Run(us, cap), us, i);
  }

  /** Nothing that is held was used less recently. */
  ghost predicate LeastRecent(us: seq<Use>, held: set<string>, k: string) {
    k in held && forall x :: x in held && x != k ==> Later(us, x, k)
  }

  lemma NotBoth(us: seq<Use>, k: string, x: string)
    ensures !(Later(us, k, x) && Later(us, x, k))
  {
  }

  /** The last of the list is the least recently used, and the only one. */
  lemma LastIsLeast(l: seq<Ent>, us: seq<Use>, k: string)
    requires Recent(l, us) && l != []
    ensures LeastRecent(us, Keys(l), k) <==> k == l[|l| - 1].key
  {
    hide Later, HeldAt;
    var last := l[|l| - 1].key;
    assert last in Keys(l);
    forall x | x in Keys(l) && x != last ensures Later(us, x, last) {
      var i :| 0 <= i < |l| && l[i].key == x;
    }
    if LeastRecent(us, Keys(l), k) && k != last {
      NotBoth(us, k, last);
    }
  }

  lemma KeysFront(l: seq<Ent>, e: Ent)
    ensures Keys([e] + l) == Keys(l) + {e.key}
  {
    var r := [e] + l;
    assert forall i :: 0 <= i < |l| ==> r[i + 1] == l[i];
    forall x | x in Keys(l) + {e.key} ensures x in Keys(r) {
      if x in Keys(l) {
        var i :| 0 <= i < |l| && l[i].key == x;
        assert r[i + 1].key == x;
      } else {
        assert r[0].key == x;
      }
    }
  }

  /**
   A put holds its key, and all that was held before; but if the key is new and there is no room, the least
   recently used key goes, and no other.
   */
  lemma LeastRecentGoes(us: seq<Use>, cap: nat, e: Ent, k: string)
    requires cap > 0
    ensures var held, held' := Keys(Run(us, cap)), Keys(Run(us + [Put(e)], cap));
            && e.key in held'
            && (k != e.key ==> (k in held' <==>
                  k in held && !(e.key !in held && |Run(us, cap)| == cap && LeastRecent(us, held, k))))
  {
    hide Recent, Find, Without, LeastRecent, Later, Keys;
    var l := Run(us, cap);
    assert (us + [Put(e)])[..|us|] == us;
    RunIsRecent(us, cap);
    WithoutStays(l, us, e.key);
    if e.key !in Keys(l) && |l| == cap {
      PutWhenFull(l, us, e);
      LastIsLeast(l, us, k);
    } else {
      KeysFront(Without(l, e.key), e);
    }
  }

  lemma PutWhenFull(l: seq<Ent>, us: seq<Use>, e: Ent)
    requires Recent(l, us) && l != [] && e.key !in Keys(l)
    ensures Keys(PutFront(l, |l|, e)) == Keys(l) - {l[|l| - 1].key} + {e.key}
  {
    hide HeldAt, Later;
    var k := |l| - 1;
    KeysMiss(l, e.key);
    FindNothing(l, e.key);
    assert PutFront(l, |l|, e) == [e] + l[..k];
    assert l[..k] + l[k + 1..] == l[..k];
    KeysCut(l, k);
    KeysFront(l[..k], e);
  }
}
