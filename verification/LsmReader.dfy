/**
 Opening a table file, and the end-to-end statement: a list written as a table and opened again
 answers every lookup like the list.
 */
module LsmReader {
  import opened LsmCodec
  import opened LsmOrder
  import opened LsmBloom
  import opened LsmTable
  import opened LsmFile
  import opened LsmWriter

  // ---------------------------------------------------------------- what a file holds

  function FiltersOf(r: Result<seq<KV>>): Result<map<nat, Bytes>> {
    match r
    case Err(e) => Err(e)
    case Ok(recs) => Ok(FiltersFrom(recs))
  }

  function IndexOf(r: Result<seq<KV>>): Result<seq<Index>> {
    match r
    case Err(e) => Err(e)
    case Ok(recs) => Ok(IndexFrom(recs))
  }

  function FiltersIn(file: Bytes): Result<map<nat, Bytes>> {
    match ReadFooter(file)
    case Err(e) => Err(e)
    case Ok(p) => FiltersOf(ReadPart(file, p.filterOffset, p.filterSize))
  }

  function IndexIn(file: Bytes): Result<seq<Index>> {
    match ReadFooter(file)
    case Err(e) => Err(e)
    case Ok(p) => IndexOf(ReadPart(file, p.indexOffset, p.indexSize))
  }

  function DataIn(file: Bytes): Result<seq<KV>> {
    match ReadFooter(file)
    case Err(e) => Err(e)
    case Ok(p) => ReadPart(file, 0, p.filterOffset)
  }

  // ---------------------------------------------------------------- records that were written fit

  /** A key is no longer than the bytes it was compressed against and into. */
  lemma {:induction false} WrittenFits(prev: Bytes, kvs: seq<KV>)
    requires |prev| + |Records(prev, kvs)| < WORD
    ensures AllFit(kvs)
    decreases |kvs|
  {
    hide PutUvarint, SharedPrefixLen;
    if kvs != [] {
      var n := SharedPrefixLen(prev, kvs[0].key);
      assert |Record(prev, kvs[0])| >= |kvs[0].key| - n + |kvs[0].value|;
      WrittenFits(kvs[0].key, kvs[1..]);
      forall i | 0 <= i < |kvs| ensures Fits(kvs[i]) {
        assert i > 0 ==> kvs[i] == kvs[1..][i - 1];
      }
    }
  }

  lemma {:induction false} BlocksFit(blocks: seq<seq<KV>>)
    requires |Data(blocks)| < WORD
    ensures AllFit(Flatten(blocks))
    decreases |blocks|
  {
    if blocks != [] {
      var n := |blocks| - 1;
      BlocksFit(blocks[..n]);
      WrittenFits([], blocks[n]);
    }
  }

  /** Everything the reader looks for is in the file that was written. */
  lemma FileHoldsTable(blocks: seq<seq<KV>>, filterRecs: seq<KV>, indexRecs: seq<KV>)
    requires |FileOf(Data(blocks), filterRecs, indexRecs)| < MAX_SIZE
    ensures var file := FileOf(Data(blocks), filterRecs, indexRecs);
            && FiltersIn(file) == Ok(FiltersFrom(filterRecs))
            && IndexIn(file) == Ok(IndexFrom(indexRecs))
            && DataIn(file) == Ok(Flatten(blocks))
  {
    hide Records, ReadAll, ReadFooter, ReadBlock, FiltersFrom, IndexFrom, Data, Flatten, Footer;
    FileSizes(Data(blocks), filterRecs, indexRecs);
    WrittenFits([], filterRecs);
    WrittenFits([], indexRecs);
    BlocksFit(blocks);
    PartsReadBack(Data(blocks), filterRecs, indexRecs);
    AllBlocksReadBack(blocks);
  }

  lemma FileSizes(data: Bytes, filterRecs: seq<KV>, indexRecs: seq<KV>)
    ensures |FileOf(data, filterRecs, indexRecs)| >= |data| + |Records([], filterRecs)| + |Records([], indexRecs)|
  {
  }

  // ---------------------------------------------------------------- the reader

  class SSTReader {
    const file: Bytes
    var places: Places

    /** The places are unknown, or those of the footer; a footer that cannot be read leaves anything behind. */
    ghost predicate Valid() reads this {
      ReadFooter(file).Ok? ==> places == Places(0, 0, 0, 0) || ReadFooter(file) == Ok(places)
    }

    constructor (file: Bytes)
      ensures Valid() && this.file == file && places == Places(0, 0, 0, 0)
    {
      this.file, places := file, Places(0, 0, 0, 0);
    }

    method FindPlaces() returns (r: Result<Places>)
      requires Valid()
      modifies this
      ensures Valid() && r == ReadFooter(file)
      ensures r.Ok? ==> places == r.value
    {
      r := ReadFooter(file);
      if r.Ok? { places := r.value; } else { places := *; }
    }

    method ReadFilter() returns (r: Result<map<nat, Bytes>>)
      requires Valid()
      modifies this
      ensures Valid() && (ReadFooter(file).Ok? || old(places) == Places(0, 0, 0, 0) ==> r == FiltersIn(file))
    {
      hide ReadFooter, ReadAll, ReadRecord, FiltersFrom;
      if places.filterOffset == 0 || places.filterSize == 0 {
        var p := FindPlaces();
        if p.Err? { return Err(p.error); }
      }
      var block := ReadBlock(file, places.filterOffset, places.filterSize);
      if block.Err? { return Err(block.error); }
      r := DecodeFilters(block.value);
    }

    method ReadIndex() returns (r: Result<seq<Index>>)
      requires Valid()
      modifies this
      ensures Valid() && (ReadFooter(file).Ok? || old(places) == Places(0, 0, 0, 0) ==> r == IndexIn(file))
    {
      hide ReadFooter, ReadAll, ReadRecord, IndexFrom;
      if places.indexOffset == 0 || places.indexSize == 0 {
        var p := FindPlaces();
        if p.Err? { return Err(p.error); }
      }
      var block := ReadBlock(file, places.indexOffset, places.indexSize);
      if block.Err? { return Err(block.error); }
      r := DecodeIndex(block.value);
    }

    method ReadData() returns (r: Result<seq<KV>>)
      requires Valid()
      modifies this
      ensures Valid() && (ReadFooter(file).Ok? || old(places) == Places(0, 0, 0, 0) ==> r == DataIn(file))
    {
      hide ReadFooter, ReadAll, ReadRecord;
      if places.indexOffset == 0 || places.indexSize == 0 || places.filterOffset == 0 || places.filterSize == 0 {
        var p := FindPlaces();
        if p.Err? { return Err(p.error); }
      }
      var block := ReadBlock(file, 0, places.filterOffset);
      if block.Err? { return Err(block.error); }
      r := ReadBlockData(block.value);
    }
  }

  /** The filter block, decoded record by record into the map. */
  method DecodeFilters(block: Bytes) returns (r: Result<map<nat, Bytes>>)
    ensures r == FiltersOf(ReadAll([], block))
  {
    hide ReadRecord, Prepend, Uvarint;
    var prev: Bytes, buf := [], block;
    var m := map[];
    ghost var recs: seq<KV> := [];
    PrependTwice([], [], ReadAll(prev, buf));
    while true
      invariant ReadAll([], block) == Prepend(recs, ReadAll(prev, buf))
      invariant m == FiltersFrom(recs)
      decreases |buf|
    {
      match ReadRecord(prev, buf)
      case Fail(Eof) =>
        PrependNothing(recs);
        return Ok(m);
      case Fail(e) =>
        PrependError(recs, e);
        return Err(e);
      case Done(kv, rest) =>
        PrependTwice(recs, [kv], ReadAll(kv.key, rest));
        assert (recs + [kv])[..|recs|] == recs;
        m := m[Uvarint(kv.key).0 := kv.value];
        recs := recs + [kv];
        prev, buf := kv.key, rest;
    }
  }

  method DecodeIndex(block: Bytes) returns (r: Result<seq<Index>>)
    ensures r == IndexOf(ReadAll([], block))
  {
    hide ReadRecord, Prepend, IndexEntry;
    var prev: Bytes, buf := [], block;
    var xs: seq<Index> := [];
    ghost var recs: seq<KV> := [];
    PrependTwice([], [], ReadAll(prev, buf));
    while true
      invariant ReadAll([], block) == Prepend(recs, ReadAll(prev, buf))
      invariant xs == IndexFrom(recs)
      decreases |buf|
    {
      match ReadRecord(prev, buf)
      case Fail(Eof) =>
        PrependNothing(recs);
        return Ok(xs);
      case Fail(e) =>
        PrependError(recs, e);
        return Err(e);
      case Done(kv, rest) =>
        PrependTwice(recs, [kv], ReadAll(kv.key, rest));
        assert (recs + [kv])[..|recs|] == recs;
        xs := xs + [IndexEntry(kv)];
        recs := recs + [kv];
        prev, buf := kv.key, rest;
    }
  }

  // ---------------------------------------------------------------- end to end

  method WriteTable(kvs: seq<KV>, filter: BloomFilter, blockSize: int) returns (t: Table)
    requires filter.Valid() && filter.hashedKeys == []
    modifies filter
    ensures t.Valid()
    ensures |t.file| < MAX_SIZE ==>
              && FiltersIn(t.file) == Ok(t.filters)
              && IndexIn(t.file) == Ok(t.index)
              && DataIn(t.file) == Ok(kvs)
    ensures |t.file| < MAX_SIZE && Sorted(kvs) ==>
              ((forall key :: Get(t, key) == Ok(FindKey(kvs, key))) <==> GoodFirstKey(kvs))
  {
    hide Get, FindKey, FiltersIn, IndexIn, DataIn, FileOf, IsTableOf, FiltersFrom, IndexFrom, StateOk, Cut, Filling, Records, Flatten;
    var w := new SSTWriter(filter, blockSize);
    for i := 0 to |kvs|
      invariant w.Valid() && w.View().Written() == kvs[..i]
      invariant fresh(w) && fresh(w.dataBlock) && fresh(w.filterBlock) && fresh(w.indexBlock) && w.filter == filter
    {
      w.Append(kvs[i].key, kvs[i].value);
      assert kvs[..i + 1] == kvs[..i] + [kvs[i]];
    }
    assert kvs[..|kvs|] == kvs;
    var filters, idx, filterRecs, indexRecs := w.Finish();
    t := Table(w.dest, filters, idx, filter.m, filter.hash);
    if |t.file| < MAX_SIZE {
      FileHoldsTable(w.blocks, filterRecs, indexRecs);
      FileSizes(Data(w.blocks), filterRecs, indexRecs);
      if Sorted(kvs) {
        BlocksFit(w.blocks);
        TableIsList(t, w.blocks);
      }
    }
  }
}
