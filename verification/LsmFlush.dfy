/**
 Writing a memtable out as a table: the table answers like the memtable exactly if its least key is good.
 */
module LsmFlush {
  import opened Basics
  import opened LsmCodec
  import opened LsmOrder
  import opened LsmBloom
  import F = LsmFile
  import T = LsmTable
  import R = LsmReader
  import M = LsmMemtable

  /** No key comes before this one. */
  ghost predicate IsLeast(m: map<Bytes, Bytes>, key: Bytes) {
    key in m && forall k :: k in m ==> !Less(k, key)
  }

  /** A key that the index can start with: nonempty, and not ending in a zero byte. */
  predicate GoodKey(key: Bytes) { key != [] && key[|key| - 1] != 0 }

  function Answer(m: map<Bytes, Bytes>, key: Bytes): Option<Bytes> { if key in m then Some(m[key]) else None }

  lemma {:induction false} FindIsEntry(kvs: seq<KV>, key: Bytes)
    requires forall i, j :: 0 <= i < j < |kvs| ==> kvs[i].key != kvs[j].key
    ensures T.FindKey(kvs, key).None? <==> forall i :: 0 <= i < |kvs| ==> kvs[i].key != key
    ensures forall i :: 0 <= i < |kvs| && kvs[i].key == key ==> T.FindKey(kvs, key) == Some(kvs[i].value)
    decreases |kvs|
  {
    if kvs != [] {
      var rest := kvs[1..];
      assert forall i :: 0 <= i < |rest| ==> rest[i] == kvs[i + 1];
      FindIsEntry(rest, key);
      assert forall i :: 0 < i < |kvs| ==> kvs[i] == rest[i - 1];
    }
  }

  lemma SortedDiffer(kvs: seq<KV>)
    requires Sorted(kvs)
    ensures forall i, j :: 0 <= i < j < |kvs| ==> kvs[i].key != kvs[j].key
  {
    hide Less;
    forall i, j | 0 <= i < j < |kvs| ensures kvs[i].key != kvs[j].key { NotBoth(kvs[i].key, kvs[j].key); }
  }

  /** A sorted list of as many entries as the map has holds all of them. */
  lemma ListsAll(kvs: seq<KV>, m: map<Bytes, Bytes>)
    requires Sorted(kvs) && M.Entries(kvs, m) && |kvs| == |m|
    ensures forall key :: key in m ==> exists i :: 0 <= i < |kvs| && kvs[i].key == key
  {
    SortedDiffer(kvs);
    KeysCount(kvs);
    SubsetAll(Keys(kvs), m.Keys);
    forall key | key in m ensures exists i :: 0 <= i < |kvs| && kvs[i].key == key {
      assert key in Keys(kvs);
    }
  }

  ghost function Keys(kvs: seq<KV>): set<Bytes> { set kv | kv in kvs :: kv.key }

  lemma {:induction false} KeysCount(kvs: seq<KV>)
    requires forall i, j :: 0 <= i < j < |kvs| ==> kvs[i].key != kvs[j].key
    ensures |Keys(kvs)| == |kvs|
    decreases |kvs|
  {
    if kvs != [] {
      KeysCount(kvs[1..]);
      assert kvs == [kvs[0]] + kvs[1..];
      assert Keys(kvs) == Keys(kvs[1..]) + {kvs[0].key};
    }
  }

  lemma SubsetAll(a: set<Bytes>, b: set<Bytes>)
    requires a <= b && |a| == |b|
    ensures a == b
  {
    if x :| x in b && x !in a {
      assert a <= b - {x};
      SubsetCount(a, b - {x});
    }
  }

  lemma {:induction false} SubsetCount(a: set<Bytes>, b: set<Bytes>)
    requires a <= b
    ensures |a| <= |b|
    decreases |a|
  {
    if a != {} {
      var x :| x in a;
      SubsetCount(a - {x}, b - {x});
    }
  }

  /** Looking a key up in the list is looking it up in the map. */
  lemma ListAnswers(kvs: seq<KV>, m: map<Bytes, Bytes>, key: Bytes)
    requires Sorted(kvs) && M.Entries(kvs, m) && |kvs| == |m|
    ensures T.FindKey(kvs, key) == Answer(m, key)
  {
    hide Sorted, T.FindKey;
    SortedDiffer(kvs);
    ListsAll(kvs, m);
    FindIsEntry(kvs, key);
    if key in m {
      var i :| 0 <= i < |kvs| && kvs[i].key == key;
    }
  }

  /** The first key of the list is the least of the map. */
  lemma FirstIsLeast(kvs: seq<KV>, m: map<Bytes, Bytes>)
    requires Sorted(kvs) && M.Entries(kvs, m) && |kvs| == |m|
    ensures T.GoodFirstKey(kvs) <==> forall key :: IsLeast(m, key) ==> GoodKey(key)
  {
    hide Less;
    ListsAll(kvs, m);
    if kvs != [] {
      var first := kvs[0].key;
      forall k | k in m ensures !Less(k, first) && (k != first ==> Less(first, k)) {
        var i :| 0 <= i < |kvs| && kvs[i].key == k;
        if i > 0 { NotBoth(first, k); } else { NotBoth(first, first); }
      }
      assert IsLeast(m, first);
    }
  }

  method FlushMemTable(memtable: M.Skiplist, filter: BloomFilter, blockSize: int) returns (t: T.Table)
    requires memtable.Valid() && filter.Valid() && filter.hashedKeys == []
    modifies filter
    ensures t.Valid()
    ensures |t.file| < F.MAX_SIZE ==>
              ((forall key :: T.Get(t, key) == Ok(Answer(memtable.contents, key)))
               <==> forall key :: IsLeast(memtable.contents, key) ==> GoodKey(key))
  {
    hide T.Get, T.FindKey, T.GoodFirstKey, Sorted, M.Entries, IsLeast, GoodKey, Answer, M.Skiplist.Valid;
    var kvs := memtable.All();
    ghost var m := memtable.contents;
    forall key ensures T.FindKey(kvs, key) == Answer(m, key) { ListAnswers(kvs, m, key); }
    FirstIsLeast(kvs, m);
    t := R.WriteTable(kvs, filter, blockSize);
  }
}
