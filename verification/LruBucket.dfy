/**
 One bucket of the two-level store: everything under one lock. New entries live in the first level, an
 entry that is read again moves to the second, and a byte budget is kept by dropping the oldest entries
 of the first level, then of the second.
 */
module LruBucket {
  import opened Basics
  import opened LruList
  import C = LruCache

  const MAX_EXPIRE_AT: int := 0x7FFF_FFFF_FFFF_FFFF

  // ---------------------------------------------------------------- what the levels mean together

  datatype Binding = Binding(val: Option<Value>, exp: int)

  /** No entry is older than the last Set of its key, and no key is in both levels. */
  ghost predicate Faithful(l0: seq<Ent>, l1: seq<Ent>, truth: map<string, Binding>) {
    && UniqueKeys(l0) && UniqueKeys(l1)
    && (forall x, y :: x in l0 && y in l1 ==> x.key != y.key)
    && (forall x :: x in l0 || x in l1 ==> Bound(x, truth))
  }

  predicate Bound(e: Ent, truth: map<string, Binding>) {
    e.exp > 0 && e.key in truth && truth[e.key] == Binding(e.val, e.exp)
  }

  function Lookup(l0: seq<Ent>, l1: seq<Ent>, key: string): Option<Ent> {
    if Find(l0, key).Some? then Find(l0, key) else Find(l1, key)
  }

  /** Oldest entries of the first level, then of the second, go until the budget is kept. */
  function Fit(l0: seq<Ent>, l1: seq<Ent>, max: int): (f: (seq<Ent>, seq<Ent>))
    decreases |l0| + |l1|
  {
    if Bytes(l0) + Bytes(l1) <= max then (l0, l1)
    else if l0 != [] then Fit(l0[..|l0| - 1], l1, max)
    else if l1 != [] then Fit(l0, l1[..|l1| - 1], max)
    else (l0, l1)
  }

  function Kept(l0: seq<Ent>, l1: seq<Ent>, max: int): (seq<Ent>, seq<Ent>) {
    if max > 0 then Fit(l0, l1, max) else (l0, l1)
  }

  /** What fits is within the budget, keeps the most recent entries, and drops no entry without need. */
  lemma {:induction false} FitIs(l0: seq<Ent>, l1: seq<Ent>, max: int)
    requires max >= 0
    ensures var (f0, f1) := Fit(l0, l1, max);
            && Bytes(f0) + Bytes(f1) <= max
            && f0 <= l0 && f1 <= l1 && (f1 != l1 ==> f0 == [])
            && (f0 != l0 && f1 == l1 ==> Bytes(l0[..|f0| + 1]) + Bytes(f1) > max)
            && (f1 != l1 ==> Bytes(l1[..|f1| + 1]) > max)
    decreases |l0| + |l1|
  {
    if Bytes(l0) + Bytes(l1) > max {
      if l0 != [] {
        var m0 := l0[..|l0| - 1];
        FitIs(m0, l1, max);
        var (f0, f1) := Fit(m0, l1, max);
        assert f0 == m0 ==> l0[..|f0| + 1] == l0;
        assert f0 != m0 ==> l0[..|f0| + 1] == m0[..|f0| + 1];
      } else if l1 != [] {
        var m1 := l1[..|l1| - 1];
        FitIs(l0, m1, max);
        var (f0, f1) := Fit(l0, m1, max);
        assert f1 == m1 ==> l1[..|f1| + 1] == l1;
        assert f1 != m1 ==> l1[..|f1| + 1] == m1[..|f1| + 1];
      }
    }
  }

  // ---------------------------------------------------------------- lists

  lemma {:induction false} FindIn(l: seq<Ent>, key: string)
    ensures Find(l, key).Some? ==> exists i :: 0 <= i < |l| && l[i] == Find(l, key).value && l[i].key == key
    ensures Find(l, key).None? ==> forall i :: 0 <= i < |l| ==> l[i].key != key
    decreases |l|
  {
    if l != [] {
      if l[0].key == key {
        assert l[0] == Find(l, key).value;
      } else {
        FindIn(l[1..], key);
        if Find(l, key).Some? {
          var i :| 0 <= i < |l[1..]| && l[1..][i] == Find(l[1..], key).value && l[1..][i].key == key;
          assert l[i + 1] == Find(l, key).value;
        }
      }
    }
  }

  /** Taking a key out takes out its entry and nothing else. */
  lemma WithoutKeeps(l: seq<Ent>, key: string)
    requires UniqueKeys(l)
    ensures UniqueKeys(Without(l, key))
    ensures forall x :: x in Without(l, key) ==> x in l && x.key != key
  {
    FindIn(l, key);
    if Find(l, key).Some? {
      var k :| 0 <= k < |l| && l[k] == Find(l, key).value && l[k].key == key;
      FindAt(l, k);
      CutKeeps(l, k);
    } else {
      FindNothing(l, key);
    }
  }

  lemma CutKeeps(l: seq<Ent>, k: nat)
    requires UniqueKeys(l) && k < |l|
    ensures var w := l[..k] + l[k + 1..];
            UniqueKeys(w) && forall x :: x in w ==> x in l && x.key != l[k].key
  {
    var w := l[..k] + l[k + 1..];
    assert forall i :: 0 <= i < |w| ==> w[i] == l[if i < k then i else i + 1];
  }

  lemma {:induction false} WithoutBytes(l: seq<Ent>, key: string)
    ensures Bytes(l) == Bytes(Without(l, key)) + C.SizeOf(Find(l, key))
    decreases |l|
  {
    if l != [] && l[0].key != key {
      WithoutBytes(l[1..], key);
      BytesOfConcat([l[0]], Without(l[1..], key));
      BytesOfOne(l[0]);
    }
  }

  lemma {:induction false} WithoutCounts(l: seq<Ent>, key: string)
    ensures multiset(l) == multiset(Without(l, key)) + Some1(Find(l, key))
    decreases |l|
  {
    if l != [] {
      assert l == [l[0]] + l[1..];
      if l[0].key != key { WithoutCounts(l[1..], key); }
    }
  }

  function Some1(o: Option<Ent>): multiset<Ent> {
    match o
    case None => multiset{}
    case Some(e) => multiset{e}
  }

  /** Putting an entry first keeps the others, but for the oldest when they are too many. */
  lemma PutFrontKeeps(l: seq<Ent>, cap: nat, e: Ent)
    requires UniqueKeys(l) && cap > 0
    ensures var q := PutFront(l, cap, e);
            && UniqueKeys(q) && |q| <= cap && q[0] == e
            && forall x :: x in q ==> x == e || (x in l && x.key != e.key)
  {
    hide Without;
    WithoutKeeps(l, e.key);
    var r := [e] + Without(l, e.key);
    forall i, j | 0 <= i < j < |r| ensures r[i].key != r[j].key {
      assert r[j] in Without(l, e.key);
    }
    var q := PutFront(l, cap, e);
    assert forall i :: 0 <= i < |q| ==> q[i] == r[i];
    forall x | x in q ensures x == e || (x in l && x.key != e.key) {
      var i :| 0 <= i < |q| && q[i] == x;
      assert i > 0 ==> x in Without(l, e.key);
    }
  }

  lemma PutFrontCases(l: seq<Ent>, cap: nat, e: Ent)
    requires |l| <= cap && cap > 0
    ensures var full := |l| == cap && Find(l, e.key).None?;
            && PutFront(l, cap, e) == (if full then ([e] + l)[..cap] else [e] + Without(l, e.key))
            && C.Evictee(l, cap, e.key) == (if full then Some(l[cap - 1]) else None)
            && (full ==> Without(l, e.key) == l)
  {
    hide Find, Without;
    C.WithoutLength(l, e.key);
    FindIn(l, e.key);
    if Find(l, e.key).None? { FindNothing(l, e.key); }
  }

  lemma PutFrontCounts(l: seq<Ent>, cap: nat, e: Ent)
    requires |l| <= cap && cap > 0
    ensures multiset(PutFront(l, cap, e)) + Some1(C.Evictee(l, cap, e.key)) == multiset(Without(l, e.key)) + multiset{e}
  {
    hide Find, Without, PutFront, C.Evictee;
    PutFrontCases(l, cap, e);
    if |l| == cap && Find(l, e.key).None? { PushedOut(l, e); }
  }

  lemma PutFrontBytes(l: seq<Ent>, cap: nat, e: Ent)
    requires |l| <= cap && cap > 0
    ensures Bytes(PutFront(l, cap, e)) + C.SizeOf(C.Evictee(l, cap, e.key)) == Bytes(Without(l, e.key)) + C.Size(e)
  {
    hide Find, Without, PutFront, C.Evictee;
    PutFrontCases(l, cap, e);
    if |l| == cap && Find(l, e.key).None? {
      C.PushedOutBytes(l, e);
    } else {
      BytesOfConcat([e], Without(l, e.key));
      BytesOfOne(e);
    }
  }

  lemma PushedOut(l: seq<Ent>, e: Ent)
    requires l != []
    ensures multiset(([e] + l)[..|l|]) + multiset{l[|l| - 1]} == multiset(l) + multiset{e}
  {
    var n := |l| - 1;
    assert ([e] + l)[..|l|] == [e] + l[..n] && l == l[..n] + [l[n]];
  }

  // ---------------------------------------------------------------- the operations on the lists

  /** A read finds what the last Set bound, and moves it to the front of the second level. */
  lemma ReadIs(l0: seq<Ent>, l1: seq<Ent>, cap1: nat, truth: map<string, Binding>, key: string, e: Ent)
    requires Faithful(l0, l1, truth) && Lookup(l0, l1, key) == Some(e) && |l1| <= cap1 && cap1 > 0
    ensures Bound(e, truth) && e.key == key
    ensures Faithful(Without(l0, key), PutFront(l1, cap1, e), truth)
    ensures Bytes(Without(l0, key)) + Bytes(PutFront(l1, cap1, e)) <= Bytes(l0) + Bytes(l1)
  {
    hide Find, Without, PutFront, C.Evictee;
    FindIn(l0, key);
    FindIn(l1, key);
    WithoutKeeps(l0, key);
    PutFrontKeeps(l1, cap1, e);
    WithoutBytes(l0, key);
    WithoutBytes(l1, key);
    PutFrontBytes(l1, cap1, e);
  }

  lemma ForgetIs(l0: seq<Ent>, l1: seq<Ent>, truth: map<string, Binding>, key: string)
    requires Faithful(l0, l1, truth)
    ensures Faithful(Without(l0, key), Without(l1, key), truth)
    ensures Faithful(Without(l0, key), Without(l1, key), truth - {key})
    ensures Bytes(Without(l0, key)) + Bytes(Without(l1, key)) <= Bytes(l0) + Bytes(l1)
    ensures Lookup(l0, l1, key).None? ==> Without(l0, key) == l0 && Without(l1, key) == l1
  {
    hide Find, Without;
    WithoutKeeps(l0, key);
    WithoutKeeps(l1, key);
    WithoutBytes(l0, key);
    WithoutBytes(l1, key);
    FindIn(l0, key);
    FindIn(l1, key);
    if Lookup(l0, l1, key).None? {
      FindNothing(l0, key);
      FindNothing(l1, key);
    }
  }

  lemma ForgetCounts(l0: seq<Ent>, l1: seq<Ent>, truth: map<string, Binding>, key: string)
    requires Faithful(l0, l1, truth)
    ensures multiset(Without(l0, key)) + multiset(Without(l1, key)) + Some1(Lookup(l0, l1, key))
            == multiset(l0) + multiset(l1)
    ensures Find(l0, key).None? || Find(l1, key).None?
  {
    hide Without;
    FindIn(l0, key);
    FindIn(l1, key);
    WithoutCounts(l0, key);
    WithoutCounts(l1, key);
  }

  lemma ReadCounts(l0: seq<Ent>, l1: seq<Ent>, cap1: nat, truth: map<string, Binding>, key: string, e: Ent)
    requires Faithful(l0, l1, truth) && Lookup(l0, l1, key) == Some(e) && |l1| <= cap1 && cap1 > 0
    ensures multiset(Without(l0, key)) + multiset(PutFront(l1, cap1, e)) + Some1(C.Evictee(l1, cap1, key))
            == multiset(l0) + multiset(l1)
  {
    hide Without, PutFront, C.Evictee, Find;
    FindIn(l0, key);
    FindIn(l1, key);
    assert e.key == key;
    ForgetCounts(l0, l1, truth, key);
    PutFrontCounts(l1, cap1, e);
    var w0, w1, q := multiset(Without(l0, key)), multiset(Without(l1, key)), multiset(PutFront(l1, cap1, e));
    var out := Some1(C.Evictee(l1, cap1, key));
    assert w0 + q + out == w0 + (q + out) && w0 + w1 + multiset{e} == w0 + (w1 + multiset{e});
  }

  lemma WriteIs(l0: seq<Ent>, l1: seq<Ent>, cap0: nat, truth: map<string, Binding>, e: Ent)
    requires Faithful(l0, l1, truth) && cap0 > 0 && e.exp > 0
    ensures Faithful(PutFront(l0, cap0, e), Without(l1, e.key), truth[e.key := Binding(e.val, e.exp)])
  {
    hide Find, Without, PutFront;
    PutFrontKeeps(l0, cap0, e);
    WithoutKeeps(l1, e.key);
  }

  lemma PrefixFaithful(l0: seq<Ent>, l1: seq<Ent>, f0: seq<Ent>, f1: seq<Ent>, truth: map<string, Binding>)
    requires Faithful(l0, l1, truth) && f0 <= l0 && f1 <= l1
    ensures Faithful(f0, f1, truth)
  {
  }

  // ---------------------------------------------------------------- the bucket

  class Bucket {
    const c0: C.Cache
    const c1: C.Cache
    const maxBytes: int
    /** What Set bound last and Delete did not remove. */
    ghost var truth: map<string, Binding>

    ghost predicate Levels()
      reads this, c0, c0.link, c0.m, c1, c1.link, c1.m
    {
      && c0.Valid() && c1.Valid()
      && c0 != c1 && c0.link != c1.link && c0.m != c1.m
    }

    ghost predicate Valid()
      reads this, c0, c0.link, c0.m, c1, c1.link, c1.m
    {
      && Levels()
      && Faithful(c0.Live(), c1.Live(), truth)
      && (maxBytes > 0 ==> Bytes(c0.Live()) + Bytes(c1.Live()) <= maxBytes)
    }

    constructor (cap0: nat, cap1: nat, maxBytes: int)
      requires 0 < cap0 < 65535 && 0 < cap1 < 65535
      ensures Valid() && truth == map[] && c0.Live() == [] && c1.Live() == [] && this.maxBytes == maxBytes
      ensures c0.m.Length == cap0 && c1.m.Length == cap1
    {
      c0 := new C.Cache(cap0);
      c1 := new C.Cache(cap1);
      this.maxBytes := maxBytes;
      truth := map[];
    }

    /** A read at time `now`: what it returns, and the entries handed to the eviction callback. */
    method Get(key: string, now: int) returns (hit: Option<Option<Value>>, evicted: seq<Ent>)
      requires Valid()
      modifies c0, c0.link, c0.m, c1, c1.link, c1.m
      ensures Valid()
      ensures var e := Lookup(old(c0.Live()), old(c1.Live()), key);
              && (hit.Some? <==> e.Some? && now < e.value.exp)
              && (hit.Some? ==> key in truth && now < truth[key].exp && hit.value == truth[key].val)
              && c0.Live() == Without(old(c0.Live()), key)
              && c1.Live() == if hit.Some? then PutFront(old(c1.Live()), c1.m.Length, e.value)
                              else Without(old(c1.Live()), key)
      ensures multiset(c0.Live()) + multiset(c1.Live()) + multiset(evicted)
              == multiset(old(c0.Live())) + multiset(old(c1.Live()))
    {
      hide C.Cache.Valid, C.Cache.Live, Faithful, Find, Without, PutFront, UniqueKeys, Bytes, C.Evictee;
      ghost var l0, l1 := c0.Live(), c1.Live();
      ForgetIs(l0, l1, truth, key);
      ForgetCounts(l0, l1, truth, key);
      var e := c0.Del(key);
      if e.Some? {
        ReadIs(l0, l1, c1.m.Length, truth, key, e.value);
        hit, evicted := Reread(e.value, now, l0);
        return;
      }
      FindIn(l0, key);
      FindNothing(l0, key);
      hit, evicted := GetSecond(key, now);
      assert multiset(l0) + multiset(c1.Live()) + multiset(evicted) == multiset(l0) + (multiset(c1.Live()) + multiset(evicted));
    }

    /** Deals with an entry that was taken out of the first level: if it is valid, it moves to the second. */
    method Reread(e: Ent, now: int, ghost l0: seq<Ent>) returns (hit: Option<Option<Value>>, evicted: seq<Ent>)
      requires Levels() && Faithful(l0, c1.Live(), truth) && Find(l0, e.key) == Some(e) && Bound(e, truth)
      requires c0.Live() == Without(l0, e.key)
      requires maxBytes > 0 ==> Bytes(l0) + Bytes(c1.Live()) <= maxBytes
      modifies c1, c1.link, c1.m
      ensures Valid() && hit == (if now < e.exp then Some(e.val) else None)
      ensures c1.Live() == if hit.Some? then PutFront(old(c1.Live()), c1.m.Length, e) else Without(old(c1.Live()), e.key)
      ensures multiset(Without(l0, e.key)) + multiset(c1.Live()) + multiset(evicted) == multiset(l0) + multiset(old(c1.Live()))
    {
      hide C.Cache.Valid, C.Cache.Live, Faithful, Find, Without, PutFront, UniqueKeys, Bytes, C.Evictee;
      ghost var l1 := c1.Live();
      if now >= e.exp {
        ForgetIs(l0, l1, truth, e.key);
        ForgetCounts(l0, l1, truth, e.key);
        var gone := c1.Del(e.key);
        return None, [e];
      }
      ReadIs(l0, l1, c1.m.Length, truth, e.key, e);
      ReadCounts(l0, l1, c1.m.Length, truth, e.key, e);
      var code, out := c1.Put(e.key, e.val, e.exp);
      return Some(e.val), if out.Some? then [out.value] else [];
    }

    method GetSecond(key: string, now: int) returns (hit: Option<Option<Value>>, evicted: seq<Ent>)
      requires Valid() && Find(c0.Live(), key) == None
      modifies c1, c1.link, c1.m
      ensures Valid()
      ensures var e := Find(old(c1.Live()), key);
              && (hit.Some? <==> e.Some? && now < e.value.exp)
              && (hit.Some? ==> key in truth && now < truth[key].exp && hit.value == truth[key].val)
              && c1.Live() == if hit.Some? then PutFront(old(c1.Live()), c1.m.Length, e.value)
                              else Without(old(c1.Live()), key)
      ensures multiset(c1.Live()) + multiset(evicted) == multiset(old(c1.Live()))
    {
      hide C.Cache.Valid, C.Cache.Live, Faithful, Find, Without, PutFront, UniqueKeys, Bytes, C.Evictee;
      ghost var l0, l1 := c0.Live(), c1.Live();
      FindIn(l0, key);
      FindNothing(l0, key);
      ForgetIs(l0, l1, truth, key);
      WithoutCounts(l1, key);
      var nd, idx := c1.Peek(key);
      if nd.Some? && nd.value.expireAt > 0 {
        var e := Ent(key, nd.value.v, nd.value.expireAt);
        ReadIs(l0, l1, c1.m.Length, truth, key, e);
        if now >= nd.value.expireAt {
          var gone := c1.Del(key);
          return None, [e];
        }
        C.TouchIs(l1, c1.m.Length, e);
        c1.Touch(idx, key);
        return Some(nd.value.v), [];
      }
      return None, [];
    }

    /** Drops the oldest entry of the first level, or of the second if the first is empty. */
    method EvictFromBucket() returns (evicted: Option<Ent>)
      requires Levels()
      modifies c0, c0.link, c0.m, c1, c1.link, c1.m
      ensures Levels()
      ensures var l0, l1 := old(c0.Live()), old(c1.Live());
              if l0 != [] then c0.Live() == l0[..|l0| - 1] && c1.Live() == l1 && evicted == Some(l0[|l0| - 1])
              else if l1 != [] then c0.Live() == l0 && c1.Live() == l1[..|l1| - 1] && evicted == Some(l1[|l1| - 1])
              else c0.Live() == l0 && c1.Live() == l1 && evicted == None
    {
      hide C.Cache.Valid, C.Cache.Live, UniqueKeys;
      evicted := c0.EvictOldest();
      if evicted == None {
        evicted := c1.EvictOldest();
      }
    }

    /** Binds a key, without a limit or for `expiration` from `now` on; returns what the eviction callback got. */
    method Set(key: string, value: Option<Value>, expiration: int, now: int) returns (evicted: seq<Ent>)
      requires Valid() && 0 <= now && now + expiration <= MAX_EXPIRE_AT
      modifies this, c0, c0.link, c0.m, c1, c1.link, c1.m
      ensures Valid()
      ensures var e := Ent(key, value, if expiration > 0 then now + expiration else MAX_EXPIRE_AT);
              && truth == old(truth)[key := Binding(e.val, e.exp)]
              && (c0.Live(), c1.Live())
                 == Kept(PutFront(old(c0.Live()), c0.m.Length, e), Without(old(c1.Live()), key), maxBytes)
              && multiset(c0.Live()) + multiset(c1.Live()) + multiset(evicted)
                 == multiset(Without(old(c0.Live()), key)) + multiset(Without(old(c1.Live()), key)) + multiset{e}
    {
      hide C.Cache.Valid, C.Cache.Live, Faithful, Without, PutFront, UniqueKeys, Bytes, Fit;
      var expireAt := if expiration > 0 then now + expiration else MAX_EXPIRE_AT;
      var e := Ent(key, value, expireAt);
      var out := Overwrite(e);
      ghost var l0, l1 := c0.Live(), c1.Live();
      evicted := [];
      if maxBytes > 0 {
        FitIs(l0, l1, maxBytes);
        evicted := Shrink();
        PrefixFaithful(l0, l1, c0.Live(), c1.Live(), truth);
      }
      SetCounts(multiset(c0.Live()) + multiset(c1.Live()), multiset(evicted), multiset(l0), multiset(out),
                multiset(Without(old(c0.Live()), key)), multiset(l1), multiset{e});
      evicted := out + evicted;
    }

    /** Writes an entry to the first level and takes its key out of the second. */
    method Overwrite(e: Ent) returns (out: seq<Ent>)
      requires Levels() && Faithful(c0.Live(), c1.Live(), truth) && e.exp > 0
      modifies this, c0, c0.link, c0.m, c1, c1.link, c1.m
      ensures Levels() && truth == old(truth)[e.key := Binding(e.val, e.exp)] && Faithful(c0.Live(), c1.Live(), truth)
      ensures c0.Live() == PutFront(old(c0.Live()), c0.m.Length, e) && c1.Live() == Without(old(c1.Live()), e.key)
      ensures multiset(c0.Live()) + multiset(out) == multiset(Without(old(c0.Live()), e.key)) + multiset{e}
    {
      hide C.Cache.Valid, C.Cache.Live, Faithful, Find, Without, PutFront, UniqueKeys, Bytes, C.Evictee;
      WriteIs(c0.Live(), c1.Live(), c0.m.Length, truth, e);
      PutFrontCounts(c0.Live(), c0.m.Length, e);
      var code, gone := c0.Put(e.key, e.val, e.exp);
      out := if gone.Some? then [gone.value] else [];
      var old1 := c1.Del(e.key);
      truth := truth[e.key := Binding(e.val, e.exp)];
    }

    /** The eviction loop. */
    method Shrink() returns (evicted: seq<Ent>)
      requires Levels() && maxBytes > 0
      modifies c0, c0.link, c0.m, c1, c1.link, c1.m
      ensures Levels() && (c0.Live(), c1.Live()) == Fit(old(c0.Live()), old(c1.Live()), maxBytes)
      ensures multiset(c0.Live()) + multiset(c1.Live()) + multiset(evicted)
              == multiset(old(c0.Live())) + multiset(old(c1.Live()))
    {
      hide UniqueKeys, C.Cache.Valid, C.Cache.Live, Bytes, Fit;
      evicted := [];
      ghost var all := multiset(c0.Live()) + multiset(c1.Live());
      ghost var goal := Fit(c0.Live(), c1.Live(), maxBytes);
      BytesAre(c0);
      BytesAre(c1);
      while c0.bytes + c1.bytes > maxBytes
        invariant Levels() && c0.bytes == Bytes(c0.Live()) && c1.bytes == Bytes(c1.Live())
        invariant Fit(c0.Live(), c1.Live(), maxBytes) == goal
        invariant multiset(c0.Live()) + multiset(c1.Live()) + multiset(evicted) == all
        decreases |c0.Live()| + |c1.Live()|
      {
        ghost var l0, l1 := c0.Live(), c1.Live();
        FitStep(l0, l1, maxBytes);
        var e := EvictFromBucket();
        if e == None { break; }
        DropCounts(l0, l1, c0.Live(), c1.Live(), e.value);
        evicted := evicted + [e.value];
        BytesAre(c0);
        BytesAre(c1);
      }
      FitStep(c0.Live(), c1.Live(), maxBytes);
    }

    /** Takes a key out of both levels; a value that was there goes to the eviction callback. */
    method Remove(key: string) returns (deleted: bool, reported: Option<Ent>)
      requires Valid()
      modifies c0, c0.link, c0.m, c1, c1.link, c1.m
      ensures Valid()
      ensures c0.Live() == Without(old(c0.Live()), key) && c1.Live() == Without(old(c1.Live()), key)
      ensures var e := Lookup(old(c0.Live()), old(c1.Live()), key);
              deleted == e.Some? && reported == if e.Some? && e.value.val.Some? then e else None
    {
      hide C.Cache.Valid, C.Cache.Live, Faithful, Find, Without, UniqueKeys, Bytes;
      ForgetIs(c0.Live(), c1.Live(), truth, key);
      ForgetCounts(c0.Live(), c1.Live(), truth, key);
      var e0 := c0.Del(key);
      var e1 := c1.Del(key);
      deleted := e0.Some? || e1.Some?;
      reported := None;
      if e0.Some? && e0.value.val.Some? {
        reported := e0;
      } else if e1.Some? && e1.value.val.Some? {
        reported := e1;
      }
    }

    method Delete(key: string) returns (deleted: bool, reported: Option<Ent>)
      requires Valid()
      modifies this, c0, c0.link, c0.m, c1, c1.link, c1.m
      ensures Valid() && truth == old(truth) - {key}
      ensures c0.Live() == Without(old(c0.Live()), key) && c1.Live() == Without(old(c1.Live()), key)
      ensures var e := Lookup(old(c0.Live()), old(c1.Live()), key);
              deleted == e.Some? && reported == if e.Some? && e.value.val.Some? then e else None
    {
      hide C.Cache.Valid, C.Cache.Live, Faithful, Find, Without, UniqueKeys, Bytes;
      ForgetIs(c0.Live(), c1.Live(), truth, key);
      deleted, reported := Remove(key);
      truth := truth - {key};
    }

    /** One pass of the cleanup loop: exactly the expired entries go and are reported; nothing else moves. */
    method Sweep(now: int) returns (reported: seq<Ent>)
      requires Valid()
      modifies c0, c0.link, c0.m, c1, c1.link, c1.m
      ensures Valid()
      ensures c0.Live() == Unexpired(old(c0.Live()), now) && c1.Live() == Unexpired(old(c1.Live()), now)
      ensures UniqueKeys(reported) && forall e :: e in reported <==>
                (e in old(c0.Live()) || e in old(c1.Live())) && now >= e.exp && e.val.Some?
    {
      hide C.Cache.Valid, C.Cache.Live, Faithful, Lookup, Without, WithoutAll, Unexpired, UniqueKeys, Bytes, ExpiredKeys, Reports;
      var l0 := c0.Walk();
      var l1 := c1.Walk();
      SweptIs(l0, l1, truth, now);
      var expired := ExpiredKeys(l0, l1, now);
      var left := expired;
      WithoutNone(l0);
      WithoutNone(l1);
      assert expired - left == {};
      reported := [];
      NoReports(l0, l1);
      while left != {}
        invariant Valid() && left <= expired
        invariant c0.Live() == WithoutAll(l0, expired - left) && c1.Live() == WithoutAll(l1, expired - left)
        invariant Reports(reported, l0, l1, expired - left)
        decreases |left|
      {
        var key :| key in left;
        FaithfulUnique(l0, l1, old(truth));
        WithoutMore(l0, expired - left, key);
        WithoutMore(l1, expired - left, key);
        var _, e := Remove(key);
        ReportsMore(reported, l0, l1, old(truth), expired - left, key);
        if e.Some? { reported := reported + [e.value]; }
        assert expired - left + {key} == expired - (left - {key});
        left := left - {key};
      }
      assert expired - left == expired;
      AllReported(reported, l0, l1, old(truth), now);
    }
  }

  /** The entries with one of the keys and a value have been reported, each once. */
  ghost predicate Reports(reported: seq<Ent>, l0: seq<Ent>, l1: seq<Ent>, keys: set<string>) {
    UniqueKeys(reported) && forall e :: e in reported <==> (e in l0 || e in l1) && e.key in keys && e.val.Some?
  }

  lemma NoReports(l0: seq<Ent>, l1: seq<Ent>)
    ensures Reports([], l0, l1, {})
  {
  }

  lemma ReportsMore(reported: seq<Ent>, l0: seq<Ent>, l1: seq<Ent>, truth: map<string, Binding>, keys: set<string>, key: string)
    requires Faithful(l0, l1, truth) && Reports(reported, l0, l1, keys) && key !in keys
    ensures var e := Lookup(WithoutAll(l0, keys), WithoutAll(l1, keys), key);
            Reports(if e.Some? && e.value.val.Some? then reported + [e.value] else reported, l0, l1, keys + {key})
  {
    hide Find, WithoutAll;
    FoundElsewhere(l0, keys, key);
    FoundElsewhere(l1, keys, key);
    FoundIs(l0, key);
    FoundIs(l1, key);
  }

  lemma {:induction false} FoundElsewhere(l: seq<Ent>, keys: set<string>, key: string)
    requires key !in keys
    ensures Find(WithoutAll(l, keys), key) == Find(l, key)
    decreases |l|
  {
    if l != [] { FoundElsewhere(l[1..], keys, key); }
  }

  lemma {:induction false} FoundIs(l: seq<Ent>, key: string)
    requires UniqueKeys(l)
    ensures forall e :: Find(l, key) == Some(e) <==> e in l && e.key == key
    decreases |l|
  {
    if l != [] { FoundIs(l[1..], key); }
  }

  lemma AllReported(reported: seq<Ent>, l0: seq<Ent>, l1: seq<Ent>, truth: map<string, Binding>, now: int)
    requires Faithful(l0, l1, truth) && Reports(reported, l0, l1, ExpiredKeys(l0, l1, now))
    ensures UniqueKeys(reported)
    ensures forall e :: e in reported <==> (e in l0 || e in l1) && now >= e.exp && e.val.Some?
  {
    ExpiredIs(l0, l1, truth, now);
  }

  lemma ExpiredIs(l0: seq<Ent>, l1: seq<Ent>, truth: map<string, Binding>, now: int)
    requires Faithful(l0, l1, truth)
    ensures forall x :: x in l0 || x in l1 ==> (x.key in ExpiredKeys(l0, l1, now) <==> now >= x.exp)
  {
    forall x | x in l0 || x in l1 ensures x.key in ExpiredKeys(l0, l1, now) <==> now >= x.exp {
      assert Bound(x, truth);
    }
  }

  function ExpiredKeys(l0: seq<Ent>, l1: seq<Ent>, now: int): set<string> {
    (set x | x in l0 && now >= x.exp :: x.key) + (set x | x in l1 && now >= x.exp :: x.key)
  }

  function Unexpired(l: seq<Ent>, now: int): seq<Ent> {
    if l == [] then [] else if now < l[0].exp then [l[0]] + Unexpired(l[1..], now) else Unexpired(l[1..], now)
  }

  function WithoutAll(l: seq<Ent>, keys: set<string>): seq<Ent> {
    if l == [] then [] else if l[0].key in keys then WithoutAll(l[1..], keys) else [l[0]] + WithoutAll(l[1..], keys)
  }

  lemma {:induction false} WithoutNone(l: seq<Ent>)
    ensures WithoutAll(l, {}) == l
  {
    if l != [] { WithoutNone(l[1..]); }
  }

  lemma FaithfulUnique(l0: seq<Ent>, l1: seq<Ent>, truth: map<string, Binding>)
    requires Faithful(l0, l1, truth)
    ensures UniqueKeys(l0) && UniqueKeys(l1)
  {
  }

  lemma {:induction false} WithoutMore(l: seq<Ent>, keys: set<string>, key: string)
    requires UniqueKeys(l)
    ensures WithoutAll(l, keys + {key}) == Without(WithoutAll(l, keys), key)
    decreases |l|
  {
    if l != [] {
      WithoutMore(l[1..], keys, key);
      if l[0].key == key {
        WithoutSame(l[1..], keys, key);
      } else if l[0].key !in keys {
        assert WithoutAll(l, keys) == [l[0]] + WithoutAll(l[1..], keys);
      }
    }
  }

  lemma {:induction false} WithoutSame(l: seq<Ent>, keys: set<string>, key: string)
    requires forall i :: 0 <= i < |l| ==> l[i].key != key
    ensures WithoutAll(l, keys + {key}) == WithoutAll(l, keys)
    decreases |l|
  {
    if l != [] { WithoutSame(l[1..], keys, key); }
  }

  /** Since no key is twice in the bucket, taking out the expired keys takes out the expired entries only. */
  lemma SweptIs(l0: seq<Ent>, l1: seq<Ent>, truth: map<string, Binding>, now: int)
    requires Faithful(l0, l1, truth)
    ensures var expired := ExpiredKeys(l0, l1, now);
            WithoutAll(l0, expired) == Unexpired(l0, now) && WithoutAll(l1, expired) == Unexpired(l1, now)
  {
    var expired := ExpiredKeys(l0, l1, now);
    ExpiredIs(l0, l1, truth, now);
    WithoutExpired(l0, expired, now);
    WithoutExpired(l1, expired, now);
  }

  lemma {:induction false} WithoutExpired(l: seq<Ent>, keys: set<string>, now: int)
    requires forall x :: x in l ==> (x.key in keys <==> now >= x.exp)
    ensures WithoutAll(l, keys) == Unexpired(l, now)
    decreases |l|
  {
    if l != [] { WithoutExpired(l[1..], keys, now); }
  }

  lemma FitStep(l0: seq<Ent>, l1: seq<Ent>, max: int)
    ensures if Bytes(l0) + Bytes(l1) <= max then Fit(l0, l1, max) == (l0, l1)
            else if l0 != [] then Fit(l0, l1, max) == Fit(l0[..|l0| - 1], l1, max)
            else if l1 != [] then Fit(l0, l1, max) == Fit(l0, l1[..|l1| - 1], max)
            else Fit(l0, l1, max) == (l0, l1)
  {
  }

  lemma DropCounts(l0: seq<Ent>, l1: seq<Ent>, d0: seq<Ent>, d1: seq<Ent>, e: Ent)
    requires || (l0 != [] && d0 == l0[..|l0| - 1] && d1 == l1 && e == l0[|l0| - 1])
             || (l1 != [] && d1 == l1[..|l1| - 1] && d0 == l0 && e == l1[|l1| - 1])
    ensures multiset(d0) + multiset(d1) + multiset{e} == multiset(l0) + multiset(l1)
  {
    LastOf(l0);
    LastOf(l1);
  }

  lemma SetCounts(kept: multiset<Ent>, dropped: multiset<Ent>, q: multiset<Ent>, out: multiset<Ent>, w0: multiset<Ent>,
                  w1: multiset<Ent>, e: multiset<Ent>)
    requires kept + dropped == q + w1 && q + out == w0 + e
    ensures kept + (out + dropped) == w0 + w1 + e
  {
    assert kept + (out + dropped) == (kept + dropped) + out;
    assert (q + w1) + out == (q + out) + w1;
    assert (w0 + e) + w1 == w0 + w1 + e;
  }

  lemma LastOf(l: seq<Ent>)
    ensures l != [] ==> multiset(l) == multiset(l[..|l| - 1]) + multiset{l[|l| - 1]}
  {
    if l != [] { assert l == l[..|l| - 1] + [l[|l| - 1]]; }
  }

  lemma BytesAre(c: C.Cache)
    requires c.Valid()
    ensures c.bytes == Bytes(c.Live())
  {
  }

  /** With a limit, the keys and values held are together no longer than it, and this is what a level counts. */
  lemma WithinBudget(b: Bucket)
    requires b.Valid()
    ensures b.maxBytes > 0 ==> KeyLengths(b.c0.Live()) + ValueLengths(b.c0.Live())
                               + KeyLengths(b.c1.Live()) + ValueLengths(b.c1.Live()) <= b.maxBytes
    ensures b.c0.bytes == KeyLengths(b.c0.Live()) + ValueLengths(b.c0.Live())
    ensures b.c1.bytes == KeyLengths(b.c1.Live()) + ValueLengths(b.c1.Live())
  {
    hide Bytes, KeyLengths, ValueLengths, C.Cache.Live, C.Cache.Valid, Faithful;
    BytesAre(b.c0);
    BytesAre(b.c1);
    BytesAreLengths(b.c0.Live());
    BytesAreLengths(b.c1.Live());
  }
}
