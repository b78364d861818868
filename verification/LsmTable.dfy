/**
 A table as written: blocks of records, one Bloom filter per block and a sparse index, and the
 lookup in it. The lookup finds exactly the written entries if and only if the table's first key
 can be counted down, which is how the index begins.
 */
module LsmTable {
  import opened Basics
  import opened LsmCodec
  import opened LsmOrder
  import opened LsmBloom

  datatype Index = Index(key: Bytes, prevBlockOffset: nat, prevBlockSize: nat)

  /** A table opened for reading: the file, the filters by block offset, and the index. */
  datatype Table = Table(file: Bytes, filters: map<nat, Bytes>, index: seq<Index>, m: nat, hash: Bytes -> Hash) {
    ghost predicate Valid() { 0 < m < WORD32 }
  }

  // ---------------------------------------------------------------- the specification: lookup in a list

  function FindKey(kvs: seq<KV>, key: Bytes): Option<Bytes> {
    if kvs == [] then None
    else if kvs[0].key == key then Some(kvs[0].value)
    else FindKey(kvs[1..], key)
  }

  lemma {:induction false} FindInConcat(a: seq<KV>, b: seq<KV>, key: Bytes)
    ensures FindKey(a + b, key) == if FindKey(a, key).Some? then FindKey(a, key) else FindKey(b, key)
    decreases |a|
  {
    if a == [] {
      assert a + b == b;
    } else {
      assert (a + b)[1..] == a[1..] + b;
      FindInConcat(a[1..], b, key);
    }
  }

  lemma {:induction false} FindAbsent(kvs: seq<KV>, key: Bytes)
    requires forall i :: 0 <= i < |kvs| ==> kvs[i].key != key
    ensures FindKey(kvs, key) == None
    decreases |kvs|
  {
    if kvs != [] {
      FindAbsent(kvs[1..], key);
    }
  }

  // ---------------------------------------------------------------- reading

  function SearchIndex(index: seq<Index>, key: Bytes, start: nat, end: nat): (r: (nat, bool))
    requires start <= end < |index|
    ensures start <= r.0 <= end
    decreases end - start
  {
    if start == end then (start, Compare(index[start].key, key) >= 0)
    else
      var mid := start + (end - start) / 2;
      if Compare(index[mid].key, key) < 0 then SearchIndex(index, key, mid + 1, end)
      else SearchIndex(index, key, start, mid)
  }

  function ReadBlock(file: Bytes, offset: nat, size: nat): Result<Bytes> {
    if size == 0 then Ok([])
    else if offset + size <= |file| then Ok(file[offset..offset + size])
    else Err(if offset >= |file| then Eof else UnexpectedEof)
  }

  function Get(t: Table, key: Bytes): Result<Option<Bytes>>
    requires t.Valid()
  {
    if t.index == [] then Ok(None)
    else
      var (i, ok) := SearchIndex(t.index, key, 0, |t.index| - 1);
      var x := t.index[i];
      if !ok || x.prevBlockOffset !in t.filters then Ok(None)
      else
        var bitmap := t.filters[x.prevBlockOffset];
        if |bitmap| != BitmapLen(t.m) + 1 then Err(Corrupt)
        else if !MayHold(t.m, bitmap, t.hash(key)) then Ok(None)
        else
          match ReadBlock(t.file, x.prevBlockOffset, x.prevBlockSize)
          case Err(e) => Err(e)
          case Ok(block) =>
            match ReadAll([], block)
            case Err(e) => Err(e)
            case Ok(kvs) => Ok(FindKey(kvs, key))
  }

  /** Where a binary search ends, on any index: just behind a smaller key, on one that is not smaller. */
  lemma {:induction false} SearchEnds(index: seq<Index>, key: Bytes, start: nat, end: nat)
    requires start <= end < |index|
    ensures var (i, ok) := SearchIndex(index, key, start, end);
            && (i > start ==> Less(index[i - 1].key, key))
            && (ok <==> AtMost(key, index[i].key))
            && (i < end ==> ok)
    decreases end - start
  {
    hide Less, Compare;
    if start < end {
      var mid := start + (end - start) / 2;
      assert start <= mid < end;
      if Compare(index[mid].key, key) < 0 {
        SearchEnds(index, key, mid + 1, end);
      } else {
        SearchEnds(index, key, start, mid);
      }
    }
  }

  // ---------------------------------------------------------------- the layout

  function Flatten(blocks: seq<seq<KV>>): seq<KV> {
    if blocks == [] then [] else Flatten(blocks[..|blocks| - 1]) + blocks[|blocks| - 1]
  }

  /** The data part of the file: every block starts its compression anew. */
  function Data(blocks: seq<seq<KV>>): Bytes {
    if blocks == [] then [] else Data(blocks[..|blocks| - 1]) + Records([], blocks[|blocks| - 1])
  }

  function Offset(blocks: seq<seq<KV>>, i: nat): nat
    requires i <= |blocks|
  {
    |Data(blocks[..i])|
  }

  function LastOf(block: seq<KV>): Bytes
    requires block != []
  {
    block[|block| - 1].key
  }

  ghost predicate NoEmptyBlock(blocks: seq<seq<KV>>) {
    forall i :: 0 <= i < |blocks| ==> blocks[i] != []
  }

  /** The key before which block i is announced: the first of the block, or again the last written key. */
  function NextKey(blocks: seq<seq<KV>>, i: nat): Bytes
    requires 0 < i <= |blocks| && NoEmptyBlock(blocks)
  {
    if i < |blocks| then blocks[i][0].key else LastOf(blocks[i - 1])
  }

  /** Index entry i describes block i - 1; entry 0 describes nothing. */
  function IndexAt(blocks: seq<seq<KV>>, i: nat): Index
    requires i <= |blocks| && NoEmptyBlock(blocks)
  {
    if i == 0 then Index(Separator([], if blocks == [] then [] else blocks[0][0].key), 0, 0)
    else Index(Separator(LastOf(blocks[i - 1]), NextKey(blocks, i)),
               Offset(blocks, i - 1), |Records([], blocks[i - 1])|)
  }

  function HashesOf(hash: Bytes -> Hash, kvs: seq<KV>): (hs: seq<Hash>)
    ensures |hs| == |kvs| && forall i :: 0 <= i < |kvs| ==> hs[i] == hash(kvs[i].key)
  {
    if kvs == [] then [] else HashesOf(hash, kvs[..|kvs| - 1]) + [hash(kvs[|kvs| - 1].key)]
  }

  ghost predicate FilterOk(t: Table, blocks: seq<seq<KV>>, i: nat)
    requires t.Valid() && i < |blocks|
  {
    Offset(blocks, i) in t.filters && IsBitmapOf(t.m, t.filters[Offset(blocks, i)], HashesOf(t.hash, blocks[i]))
  }

  ghost predicate IsTableOf(t: Table, blocks: seq<seq<KV>>) {
    && t.Valid()
    && NoEmptyBlock(blocks)
    && Data(blocks) <= t.file
    && |t.index| == |blocks| + 1
    && (forall i :: 0 <= i <= |blocks| ==> t.index[i] == IndexAt(blocks, i))
    && (forall i: nat {:trigger FilterOk(t, blocks, i)} :: i < |blocks| ==> FilterOk(t, blocks, i))
    && (blocks == [] ==> t.filters == map[])
  }

  // ---------------------------------------------------------------- splitting at a block

  lemma {:induction false} DataSplit(blocks: seq<seq<KV>>, i: nat)
    requires i < |blocks|
    ensures Data(blocks[..i]) + Records([], blocks[i]) <= Data(blocks)
    decreases |blocks|
  {
    var n := |blocks| - 1;
    if i < n {
      DataSplit(blocks[..n], i);
      assert blocks[..n][..i] == blocks[..i];
    }
  }

  lemma {:induction false} FlattenSplit(blocks: seq<seq<KV>>, i: nat) returns (after: seq<KV>)
    requires i < |blocks|
    ensures Flatten(blocks) == Flatten(blocks[..i]) + blocks[i] + after
    decreases |blocks|
  {
    var n := |blocks| - 1;
    if i < n {
      var rest := FlattenSplit(blocks[..n], i);
      assert blocks[..n][..i] == blocks[..i];
      after := rest + blocks[n];
      assert Flatten(blocks) == Flatten(blocks[..i]) + blocks[i] + rest + blocks[n];
    } else {
      after := [];
      assert blocks[..n] == blocks[..i];
    }
  }

  /** The block an index entry points to is read back. */
  lemma BlockReadsBack(t: Table, blocks: seq<seq<KV>>, i: nat)
    requires IsTableOf(t, blocks) && i < |blocks| && AllFit(blocks[i])
    ensures var x := IndexAt(blocks, i + 1);
            && ReadBlock(t.file, x.prevBlockOffset, x.prevBlockSize) == Ok(Records([], blocks[i]))
            && ReadAll([], Records([], blocks[i])) == Ok(blocks[i])
  {
    hide ReadAll, Records;
    DataSplit(blocks, i);
    RecordsRoundTrip(blocks[i]);
    var d, r := Data(blocks[..i]), Records([], blocks[i]);
    assert t.file[|d|..|d| + |r|] == (d + r)[|d|..] == r;
  }

  /** No key of a block is filtered out. */
  lemma FilterLetsThrough(t: Table, blocks: seq<seq<KV>>, i: nat, j: nat)
    requires IsTableOf(t, blocks) && i < |blocks| && j < |blocks[i]|
    ensures FilterOk(t, blocks, i)
    ensures MayHold(t.m, t.filters[Offset(blocks, i)], t.hash(blocks[i][j].key))
  {
    assert FilterOk(t, blocks, i);
    AddedExists(t.m, t.filters[Offset(blocks, i)], HashesOf(t.hash, blocks[i]), j);
  }

  // ---------------------------------------------------------------- where a key can be

  /** The first key of the table can be counted down. */
  ghost predicate GoodFirstKey(kvs: seq<KV>) {
    kvs != [] ==> kvs[0].key != [] && kvs[0].key[|kvs[0].key| - 1] != 0
  }

  lemma FirstOfFlatten(blocks: seq<seq<KV>>)
    requires NoEmptyBlock(blocks) && blocks != []
    ensures Flatten(blocks) != [] && Flatten(blocks)[0] == blocks[0][0]
  {
    var after := FlattenSplit(blocks, 0);
    assert blocks[..0] == [];
  }

  /** With nonempty keys an index entry is the last key of its block. */
  lemma IndexKey(blocks: seq<seq<KV>>, i: nat)
    requires NoEmptyBlock(blocks) && Sorted(Flatten(blocks)) && GoodFirstKey(Flatten(blocks)) && 0 < i <= |blocks|
    ensures IndexAt(blocks, i).key == LastOf(blocks[i - 1])
  {
    FirstOfFlatten(blocks);
    KeyIsNotEmpty(blocks, i - 1, |blocks[i - 1]| - 1);
    if i < |blocks| {
      KeyIsNotEmpty(blocks, i, 0);
    }
  }

  lemma FirstIsLeast(blocks: seq<seq<KV>>, i: nat, j: nat)
    requires NoEmptyBlock(blocks) && Sorted(Flatten(blocks)) && i < |blocks| && j < |blocks[i]|
    ensures AtMost(blocks[0][0].key, blocks[i][j].key)
  {
    FirstOfFlatten(blocks);
    var after := FlattenSplit(blocks, i);
    var kvs, p := Flatten(blocks), |Flatten(blocks[..i])| + j;
    assert kvs[p] == blocks[i][j];
    assert p > 0 ==> Less(kvs[0].key, kvs[p].key);
  }

  lemma KeyIsNotEmpty(blocks: seq<seq<KV>>, i: nat, j: nat)
    requires NoEmptyBlock(blocks) && Sorted(Flatten(blocks)) && i < |blocks| && j < |blocks[i]|
    requires blocks[0][0].key != []
    ensures blocks[i][j].key != []
  {
    FirstIsLeast(blocks, i, j);
  }

  lemma LastOfFlatten(blocks: seq<seq<KV>>)
    requires NoEmptyBlock(blocks) && blocks != []
    ensures Flatten(blocks) != [] && LastOf(Flatten(blocks)) == LastOf(blocks[|blocks| - 1])
  {
  }

  /** In a sorted list a key strictly above the part before and not above the last of the block is in the block or nowhere. */
  lemma OnlyInBlock(before: seq<KV>, block: seq<KV>, after: seq<KV>, key: Bytes)
    requires Sorted(before + block + after) && block != []
    requires before != [] ==> Less(LastOf(before), key)
    requires AtMost(key, LastOf(block))
    ensures FindKey(before + block + after, key) == FindKey(block, key)
  {
    var kvs := before + block + after;
    forall i | 0 <= i < |before| ensures before[i].key != key {
      var n := |before| - 1;
      assert kvs[i] == before[i] && kvs[n] == before[n];
      assert i < n ==> Less(kvs[i].key, kvs[n].key);
      AtMostTrans(before[i].key, LastOf(before), key);
      NotBoth(before[i].key, key);
    }
    FindAbsent(before, key);
    forall i | 0 <= i < |after| ensures after[i].key != key {
      var n := |before| + |block| - 1;
      assert kvs[n] == block[|block| - 1] && kvs[n + 1 + i] == after[i];
      assert Less(kvs[n].key, kvs[n + 1 + i].key);
      AtMostTrans(key, LastOf(block), after[i].key);
      NotBoth(key, after[i].key);
    }
    FindAbsent(after, key);
    FindInConcat(before + block, after, key);
    FindInConcat(before, block, key);
  }

  /** A key above the last one of the list is not in it. */
  lemma AboveAll(kvs: seq<KV>, key: Bytes)
    requires Sorted(kvs) && (kvs != [] ==> Less(LastOf(kvs), key))
    ensures FindKey(kvs, key) == None
  {
    assert kvs + [] + [] == kvs;
    forall i | 0 <= i < |kvs| ensures kvs[i].key != key {
      AtMostTrans(kvs[i].key, LastOf(kvs), key);
      NotBoth(kvs[i].key, key);
    }
    FindAbsent(kvs, key);
  }

  lemma BelowAll(kvs: seq<KV>, key: Bytes)
    requires Sorted(kvs) && kvs != [] && Less(key, kvs[0].key)
    ensures FindKey(kvs, key) == None
  {
    forall i | 0 <= i < |kvs| ensures kvs[i].key != key {
      AtMostTrans(key, kvs[0].key, kvs[i].key);
      NotBoth(key, kvs[i].key);
    }
    FindAbsent(kvs, key);
  }

  // ---------------------------------------------------------------- the lookup

  /** What Get answers once the index search has chosen entry i > 0. */
  lemma GetInBlock(t: Table, blocks: seq<seq<KV>>, key: Bytes, i: nat)
    requires IsTableOf(t, blocks) && i < |blocks| && AllFit(blocks[i])
    requires SearchIndex(t.index, key, 0, |t.index| - 1) == (i + 1, true)
    ensures Get(t, key) == Ok(FindKey(blocks[i], key))
  {
    hide SearchIndex, ReadAll, Records, MayHold, IsBitmapOf;
    assert t.index[i + 1] == IndexAt(blocks, i + 1);
    BlockReadsBack(t, blocks, i);
    assert FilterOk(t, blocks, i);
    assert |t.filters[Offset(blocks, i)]| == BitmapLen(t.m) + 1 by { BitmapSize(t, blocks, i); }
    if FindKey(blocks[i], key).Some? {
      var j := FoundAt(blocks[i], key);
      FilterLetsThrough(t, blocks, i, j);
    }
  }

  lemma BitmapSize(t: Table, blocks: seq<seq<KV>>, i: nat)
    requires IsTableOf(t, blocks) && i < |blocks| && FilterOk(t, blocks, i)
    ensures |t.filters[Offset(blocks, i)]| == BitmapLen(t.m) + 1
  {
  }

  lemma FoundAt(kvs: seq<KV>, key: Bytes) returns (j: nat)
    requires FindKey(kvs, key).Some?
    ensures j < |kvs| && kvs[j].key == key
  {
    if kvs[0].key == key { return 0; }
    var k := FoundAt(kvs[1..], key);
    return k + 1;
  }

  /** Entry 0 stands for an empty block, so nothing is found through it. */
  lemma GetInNothing(t: Table, blocks: seq<seq<KV>>, key: Bytes)
    requires IsTableOf(t, blocks)
    requires SearchIndex(t.index, key, 0, |t.index| - 1).0 == 0
    ensures Get(t, key) == Ok(None)
  {
    hide SearchIndex, MayHold, IsBitmapOf;
    assert t.index[0] == IndexAt(blocks, 0);
    assert ReadAll([], []) == Ok([]);
    if blocks != [] {
      assert FilterOk(t, blocks, 0) && blocks[..0] == [];
      BitmapSize(t, blocks, 0);
    }
  }

  lemma GoodTableGets(t: Table, blocks: seq<seq<KV>>, key: Bytes)
    requires IsTableOf(t, blocks) && Sorted(Flatten(blocks)) && AllFit(Flatten(blocks))
    requires GoodFirstKey(Flatten(blocks))
    ensures Get(t, key) == Ok(FindKey(Flatten(blocks), key))
  {
    hide Get, SearchIndex;
    var n := |t.index| - 1;
    SearchEnds(t.index, key, 0, n);
    var (i, ok) := SearchIndex(t.index, key, 0, n);
    if i == 0 {
      GetInNothing(t, blocks, key);
      if blocks != [] {
        FirstBelow(blocks, key);
        BelowAll(Flatten(blocks), key);
      }
    } else {
      FoundEntry(t, blocks, key, i, ok);
    }
  }

  /** Entry 0 lies below the first key. */
  lemma FirstBelow(blocks: seq<seq<KV>>, key: Bytes)
    requires NoEmptyBlock(blocks) && blocks != [] && GoodFirstKey(Flatten(blocks))
    requires AtMost(key, IndexAt(blocks, 0).key)
    ensures Flatten(blocks) != [] && Less(key, Flatten(blocks)[0].key)
  {
    FirstOfFlatten(blocks);
    CountDownLess(blocks[0][0].key);
    AtMostTrans(key, IndexAt(blocks, 0).key, blocks[0][0].key);
  }

  lemma FoundEntry(t: Table, blocks: seq<seq<KV>>, key: Bytes, i: nat, ok: bool)
    requires IsTableOf(t, blocks) && Sorted(Flatten(blocks)) && AllFit(Flatten(blocks))
    requires GoodFirstKey(Flatten(blocks)) && 0 < i <= |blocks|
    requires SearchIndex(t.index, key, 0, |t.index| - 1) == (i, ok)
    requires Less(t.index[i - 1].key, key) && (ok <==> AtMost(key, t.index[i].key)) && (i < |blocks| ==> ok)
    ensures Get(t, key) == Ok(FindKey(Flatten(blocks), key))
  {
    hide SearchIndex, Get, Sorted, AllFit, Flatten, GoodFirstKey, Less, FindKey, IndexAt, Data, FilterOk;
    IndexKey(blocks, i);
    if i > 1 { IndexKey(blocks, i - 1); }
    if ok {
      BlockFits(blocks, i - 1);
      GetInBlock(t, blocks, key, i - 1);
      BlockAnswers(blocks, key, i - 1);
    } else {
      GetNotOk(t, key);
      LastOfFlatten(blocks);
      NotBoth(t.index[i].key, key);
      AboveAll(Flatten(blocks), key);
    }
  }

  lemma BlockFits(blocks: seq<seq<KV>>, i: nat)
    requires i < |blocks| && AllFit(Flatten(blocks))
    ensures AllFit(blocks[i])
  {
    hide Fits, Flatten;
    var before, block := Flatten(blocks[..i]), blocks[i];
    var after := FlattenSplit(blocks, i);
    forall j | 0 <= j < |block| ensures Fits(block[j]) { assert Flatten(blocks)[|before| + j] == block[j]; }
  }

  /** Of a key between the last one of the block before and the last one of a block, that block knows all. */
  lemma BlockAnswers(blocks: seq<seq<KV>>, key: Bytes, i: nat)
    requires NoEmptyBlock(blocks) && Sorted(Flatten(blocks)) && i < |blocks|
    requires (i > 0 ==> Less(LastOf(blocks[i - 1]), key)) && AtMost(key, LastOf(blocks[i]))
    ensures FindKey(Flatten(blocks), key) == FindKey(blocks[i], key)
  {
    hide Sorted, Less, FindKey;
    var after := FlattenSplit(blocks, i);
    assert NoEmptyBlock(blocks[..i]);
    if i > 0 { LastOfFlatten(blocks[..i]); }
    OnlyInBlock(Flatten(blocks[..i]), blocks[i], after, key);
  }

  lemma GetNotOk(t: Table, key: Bytes)
    requires t.Valid() && t.index != [] && !SearchIndex(t.index, key, 0, |t.index| - 1).1
    ensures Get(t, key) == Ok(None)
  {
  }

  /** Without a first key that counts down, no index entry is below it, and it is never found. */
  lemma BadFirstKeyIsLost(t: Table, blocks: seq<seq<KV>>)
    requires IsTableOf(t, blocks) && Sorted(Flatten(blocks)) && !GoodFirstKey(Flatten(blocks))
    ensures Get(t, Flatten(blocks)[0].key) == Ok(None)
    ensures FindKey(Flatten(blocks), Flatten(blocks)[0].key).Some?
  {
    hide Get, SearchIndex, Flatten, AtMost;
    assert blocks != [] by { NothingIsGood(blocks); }
    FirstOfFlatten(blocks);
    var first := blocks[0][0].key;
    var n := |t.index| - 1;
    SearchEnds(t.index, first, 0, n);
    var i := SearchIndex(t.index, first, 0, n).0;
    if i > 0 {
      IndexAboveFirst(blocks, i - 1);
      NotBoth(IndexAt(blocks, i - 1).key, first);
      assert false;
    }
    GetInNothing(t, blocks, first);
  }

  lemma NothingIsGood(blocks: seq<seq<KV>>)
    ensures blocks == [] ==> GoodFirstKey(Flatten(blocks))
  {
  }

  lemma IndexAboveFirst(blocks: seq<seq<KV>>, i: nat)
    requires NoEmptyBlock(blocks) && Sorted(Flatten(blocks)) && blocks != [] && i <= |blocks|
    requires !GoodFirstKey(Flatten(blocks))
    ensures AtMost(blocks[0][0].key, IndexAt(blocks, i).key)
  {
    hide Flatten, Sorted, Offset, Records;
    FirstOfFlatten(blocks);
    var first := blocks[0][0].key;
    if first != [] {
      if i == 0 {
        CountDownLess(first);
      } else {
        FirstIsLeast(blocks, i - 1, |blocks[i - 1]| - 1);
        KeyIsNotEmpty(blocks, i - 1, |blocks[i - 1]| - 1);
        if i < |blocks| {
          KeyIsNotEmpty(blocks, i, 0);
        }
      }
    }
  }

  /** The table answers every lookup like the list it was written from exactly when its first key counts down. */
  lemma TableIsList(t: Table, blocks: seq<seq<KV>>)
    requires IsTableOf(t, blocks) && Sorted(Flatten(blocks)) && AllFit(Flatten(blocks))
    ensures (forall key :: Get(t, key) == Ok(FindKey(Flatten(blocks), key))) <==> GoodFirstKey(Flatten(blocks))
  {
    hide Get, FindKey;
    if GoodFirstKey(Flatten(blocks)) {
      forall key ensures Get(t, key) == Ok(FindKey(Flatten(blocks), key)) {
        GoodTableGets(t, blocks, key);
      }
    } else {
      BadFirstKeyIsLost(t, blocks);
    }
  }

  // ---------------------------------------------------------------- reading all blocks at once

  /** Concatenated blocks read as one list, although each starts its compression anew. */
  lemma {:induction false} DataReadsBack(blocks: seq<seq<KV>>, p: Bytes, rest: Bytes)
    requires AllFit(Flatten(blocks))
    ensures ReadAll(p, Data(blocks) + rest) == Prepend(Flatten(blocks), ReadAll(LastKey(p, Flatten(blocks)), rest))
    decreases |blocks|
  {
    hide ReadAll, Records, Prepend;
    if blocks == [] {
      assert Data(blocks) + rest == rest;
      PrependTwice([], [], ReadAll(p, rest));
    } else {
      var n := |blocks| - 1;
      var front, last := blocks[..n], blocks[n];
      var r := Records([], last);
      assert AllFit(Flatten(front)) && AllFit(last) by {
        var kvs := Flatten(blocks);
        assert forall i :: 0 <= i < |Flatten(front)| ==> kvs[i] == Flatten(front)[i];
        assert forall i :: 0 <= i < |last| ==> kvs[|Flatten(front)| + i] == last[i];
      }
      DataReadsBack(front, p, r + rest);
      assert Data(blocks) + rest == Data(front) + (r + rest);
      var q := LastKey(p, Flatten(front));
      RecordsThen([], q, last, rest);
      PrependTwice(Flatten(front), last, ReadAll(LastKey(q, last), rest));
      assert LastKey(q, last) == LastKey(p, Flatten(blocks));
    }
  }

  lemma AllBlocksReadBack(blocks: seq<seq<KV>>)
    requires AllFit(Flatten(blocks))
    ensures ReadAll([], Data(blocks)) == Ok(Flatten(blocks))
  {
    DataReadsBack(blocks, [], []);
    assert Data(blocks) + [] == Data(blocks);
    assert ReadAll(LastKey([], Flatten(blocks)), []) == Ok([]);
    PrependNothing(Flatten(blocks));
  }
}
