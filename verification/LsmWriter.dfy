/**
 Writing a table: blocks are filled record by record and flushed when they reach the block size;
 each flush adds a Bloom filter, each new block an index entry for the one before.
 */
module LsmWriter {
  import opened LsmCodec
  import opened LsmOrder
  import opened LsmBloom
  import opened LsmTable
  import opened LsmFile

  class Block {
    var record: Bytes
    var entriesCnt: nat
    var prevKey: Bytes
    ghost var kvs: seq<KV>

    ghost predicate Valid() reads this {
      record == Records([], kvs) && entriesCnt == |kvs| && prevKey == LastKey([], kvs)
    }

    constructor ()
      ensures Valid() && kvs == []
    {
      record, entriesCnt, prevKey, kvs := [], 0, [], [];
    }

    method Append(key: Bytes, value: Bytes)
      requires Valid()
      modifies this
      ensures Valid() && kvs == old(kvs) + [KV(key, value)]
    {
      hide PutUvarint, Records, SharedPrefixLen;
      var n := CountSharedPrefix(prevKey, key);
      RecordsAppend([], kvs, KV(key, value));
      var buffer := PutUvarint(n) + PutUvarint(|key| - n) + PutUvarint(|value|);
      assert record + buffer + key[n..] + value == record + (buffer + key[n..] + value);
      record := record + buffer + key[n..] + value;
      kvs, prevKey, entriesCnt := kvs + [KV(key, value)], key, entriesCnt + 1;
    }

    /** The block's bytes go to the destination and the block starts anew. */
    method FlushTo(dest: Bytes) returns (r: Bytes, n: nat)
      requires Valid()
      modifies this
      ensures Valid() && kvs == [] && n == |Records([], old(kvs))| && r == dest + Records([], old(kvs))
    {
      r, n := dest + record, |record|;
      record, entriesCnt, prevKey, kvs := [], 0, [], [];
    }
  }

  // ---------------------------------------------------------------- blocks begun

  /** The flushed blocks and, if it has entries, the one being filled. */
  function Begun(blocks: seq<seq<KV>>, cur: seq<KV>): seq<seq<KV>> {
    if cur == [] then blocks else blocks + [cur]
  }

  lemma FlattenMore(blocks: seq<seq<KV>>, cur: seq<KV>)
    ensures Flatten(blocks + [cur]) == Flatten(blocks) + cur && Data(blocks + [cur]) == Data(blocks) + Records([], cur)
    ensures Flatten(Begun(blocks, cur)) == Flatten(blocks) + cur
  {
  }

  /** An index entry does not change when blocks are added behind the block it announces. */
  lemma IndexAtStays(a: seq<seq<KV>>, b: seq<seq<KV>>, i: nat)
    requires NoEmptyBlock(a) && NoEmptyBlock(b) && i < |a| <= |b| && a[..i] == b[..i] && a[i][0].key == b[i][0].key
    ensures IndexAt(a, i) == IndexAt(b, i)
  {
    if i > 0 {
      assert a[..i - 1] == a[..i][..i - 1] && b[..i - 1] == b[..i][..i - 1];
      assert a[i - 1] == a[..i][i - 1] && b[i - 1] == b[..i][i - 1];
    }
  }

  lemma OffsetStays(blocks: seq<seq<KV>>, more: seq<seq<KV>>, i: nat)
    requires i <= |blocks|
    ensures Offset(blocks + more, i) == Offset(blocks, i)
  {
    assert (blocks + more)[..i] == blocks[..i];
  }

  /** Blocks lie at different places. */
  lemma OffsetsDiffer(blocks: seq<seq<KV>>, i: nat)
    requires NoEmptyBlock(blocks) && i < |blocks|
    ensures Offset(blocks, i) < |Data(blocks)|
  {
    DataSplit(blocks, i);
  }

  ghost predicate IndexOk(index: seq<Index>, begun: seq<seq<KV>>)
    requires NoEmptyBlock(begun)
  {
    |index| == |begun| && forall i :: 0 <= i < |index| ==> index[i] == IndexAt(begun, i)
  }

  ghost predicate FiltersOk(filters: map<nat, Bytes>, blocks: seq<seq<KV>>, m: nat, hash: Bytes -> Hash)
    requires 0 < m < WORD32
  {
    && (blocks == [] ==> filters == map[])
    && forall i: nat {:trigger Offset(blocks, i)} :: i < |blocks| ==>
         Offset(blocks, i) in filters && IsBitmapOf(m, filters[Offset(blocks, i)], HashesOf(hash, blocks[i]))
  }

  lemma FilterAdded(filters: map<nat, Bytes>, blocks: seq<seq<KV>>, cur: seq<KV>, m: nat, hash: Bytes -> Hash, bitmap: Bytes)
    requires 0 < m < WORD32 && FiltersOk(filters, blocks, m, hash) && NoEmptyBlock(blocks) && cur != []
    requires IsBitmapOf(m, bitmap, HashesOf(hash, cur))
    ensures FiltersOk(filters[|Data(blocks)| := bitmap], blocks + [cur], m, hash)
  {
    hide IsBitmapOf;
    var all, fs := blocks + [cur], filters[|Data(blocks)| := bitmap];
    forall i: nat | i < |all| ensures Offset(all, i) in fs && IsBitmapOf(m, fs[Offset(all, i)], HashesOf(hash, all[i])) {
      OffsetStays(blocks, [cur], i);
      if i < |blocks| {
        OffsetsDiffer(blocks, i);
        assert all[i] == blocks[i];
      } else {
        assert blocks[..i] == blocks;
      }
    }
  }

  lemma IndexFromMore(recs: seq<KV>, x: Index)
    ensures x.prevBlockOffset < WORD && x.prevBlockSize < WORD ==> IndexFrom(recs + [IndexRecord(x)]) == IndexFrom(recs) + [x]
  {
    assert (recs + [IndexRecord(x)])[..|recs|] == recs;
    if x.prevBlockOffset < WORD && x.prevBlockSize < WORD {
      IndexRoundTrip(x);
    }
  }

  lemma FiltersFromMore(recs: seq<KV>, offset: nat, bitmap: Bytes)
    ensures offset < WORD ==> FiltersFrom(recs + [FilterRecord(offset, bitmap)]) == FiltersFrom(recs)[offset := bitmap]
  {
    assert (recs + [FilterRecord(offset, bitmap)])[..|recs|] == recs;
    if offset < WORD {
      FilterKeyRoundTrip(offset, bitmap);
    }
  }

  // ---------------------------------------------------------------- the writer's state and its steps

  /** What a writer holds: buffers, filters and index so far, the block being filled, and the flushed blocks. */
  datatype State = State(
    dataBuf: Bytes, filters: map<nat, Bytes>, index: seq<Index>,
    cur: seq<KV>, filterRecs: seq<KV>, indexRecs: seq<KV>, hashes: seq<Hash>,
    prevKey: Bytes, prevBlockOffset: nat, prevBlockSize: nat, blocks: seq<seq<KV>>)
  {
    function Written(): seq<KV> { Flatten(blocks) + cur }
  }

  ghost predicate StateOk(w: State, m: nat, hash: Bytes -> Hash)
    requires 0 < m < WORD32
  {
    && NoEmptyBlock(w.blocks)
    && w.dataBuf == Data(w.blocks)
    && (if w.blocks == [] then w.prevBlockOffset == 0 && w.prevBlockSize == 0
        else w.prevBlockOffset == Offset(w.blocks, |w.blocks| - 1) &&
             w.prevBlockSize == |Records([], w.blocks[|w.blocks| - 1])|)
    && w.prevKey == LastKey([], w.Written())
    && w.hashes == HashesOf(hash, w.cur)
    && FiltersOk(w.filters, w.blocks, m, hash)
    && IndexOk(w.index, Begun(w.blocks, w.cur))
    && (|w.dataBuf| < WORD ==> FiltersFrom(w.filterRecs) == w.filters && IndexFrom(w.indexRecs) == w.index)
  }

  function Indexed(w: State, key: Bytes): State {
    var x := Index(Separator(w.prevKey, key), w.prevBlockOffset, w.prevBlockSize);
    w.(index := w.index + [x], indexRecs := w.indexRecs + [IndexRecord(x)])
  }

  function Put(w: State, kv: KV, hash: Bytes -> Hash): State {
    w.(cur := w.cur + [kv], hashes := w.hashes + [hash(kv.key)], prevKey := kv.key)
  }

  function Flushed(w: State, bitmap: Bytes): State {
    var off := |w.dataBuf|;
    State(w.dataBuf + Records([], w.cur), w.filters[off := bitmap], w.index,
          [], w.filterRecs + [FilterRecord(off, bitmap)], w.indexRecs, [],
          w.prevKey, off, |Records([], w.cur)|, w.blocks + [w.cur])
  }

  lemma AnnouncesLast(w: State, m: nat, hash: Bytes -> Hash)
    requires 0 < m < WORD32 && StateOk(w, m, hash) && w.cur == []
    ensures Announces(w.blocks, w.prevKey, w.prevBlockOffset, w.prevBlockSize)
    ensures |w.dataBuf| < WORD ==> w.prevBlockOffset < WORD && w.prevBlockSize < WORD
  {
  }

  lemma PutOk(w: State, kv: KV, m: nat, hash: Bytes -> Hash)
    requires 0 < m < WORD32 && StateOk(w, m, hash)
    ensures StateOk(Put(if w.cur == [] then Indexed(w, kv.key) else w, kv, hash), m, hash)
  {
    hide FiltersOk, IndexOk, Records, Separator, FiltersFrom, IndexFrom, Offset, IndexRecord, HashesOf, Data, Flatten;
    HashesMore(hash, w.cur, kv);
    if w.cur == [] {
      AnnouncesLast(w, m, hash);
      IndexBegins(w.index, w.blocks, w.prevKey, w.prevBlockOffset, w.prevBlockSize, kv);
      IndexFromMore(w.indexRecs, Index(Separator(w.prevKey, kv.key), w.prevBlockOffset, w.prevBlockSize));
      assert [] + [kv] == [kv];
    } else {
      IndexContinues(w.index, w.blocks, w.cur, kv);
    }
  }

  lemma HashesMore(hash: Bytes -> Hash, kvs: seq<KV>, kv: KV)
    ensures HashesOf(hash, kvs + [kv]) == HashesOf(hash, kvs) + [hash(kv.key)]
  {
  }

  lemma FlushOk(w: State, bitmap: Bytes, m: nat, hash: Bytes -> Hash)
    requires 0 < m < WORD32 && StateOk(w, m, hash) && w.cur != [] && IsBitmapOf(m, bitmap, w.hashes)
    ensures StateOk(Flushed(w, bitmap), m, hash) && Flushed(w, bitmap).Written() == w.Written()
  {
    hide FiltersOk, IndexOk, IsBitmapOf, Records, FiltersFrom, IndexFrom;
    FilterAdded(w.filters, w.blocks, w.cur, m, hash, bitmap);
    FiltersFromMore(w.filterRecs, |w.dataBuf|, bitmap);
    FlattenMore(w.blocks, w.cur);
    var all := w.blocks + [w.cur];
    assert all[..|w.blocks|] == w.blocks;
    assert Flatten(all) + [] == Flatten(all);
  }

  lemma FinishOk(w: State, file: Bytes, m: nat, hash: Bytes -> Hash)
    requires 0 < m < WORD32 && StateOk(w, m, hash) && w.cur == [] && Data(w.blocks) <= file
    ensures IsTableOf(Table(file, w.filters, Indexed(w, w.prevKey).index, m, hash), w.blocks)
    ensures |w.dataBuf| < WORD ==> IndexFrom(Indexed(w, w.prevKey).indexRecs) == Indexed(w, w.prevKey).index
  {
    hide FiltersOk, Records, Separator, FiltersFrom, IndexFrom, Offset, IndexRecord, IsTableOf;
    AnnouncesLast(w, m, hash);
    IndexEnds(w.index, w.blocks, w.prevKey, w.prevBlockOffset, w.prevBlockSize);
    IndexFromMore(w.indexRecs, Index(Separator(w.prevKey, w.prevKey), w.prevBlockOffset, w.prevBlockSize));
    TableFinished(Table(file, w.filters, Indexed(w, w.prevKey).index, m, hash), w.blocks);
  }

  // ---------------------------------------------------------------- where blocks end

  /** A block, and each of its beginnings, is below the size. */
  ghost predicate Open(block: seq<KV>, size: int) {
    forall n :: 0 < n <= |block| ==> |Records([], block[..n])| < size
  }

  /** A block reaches the size with its last record, and not before. */
  ghost predicate Full(block: seq<KV>, size: int) {
    block != [] && |Records([], block)| >= size && Open(block[..|block| - 1], size)
  }

  /** All blocks are full, but for the last, which may be open. */
  ghost predicate Cut(blocks: seq<seq<KV>>, size: int) {
    && (forall i :: 0 <= i < |blocks| - 1 ==> Full(blocks[i], size))
    && (blocks != [] ==> var last := blocks[|blocks| - 1]; last != [] && (Full(last, size) || Open(last, size)))
  }

  /** While writing: the flushed blocks are full, and the one being filled is open. */
  ghost predicate Filling(blocks: seq<seq<KV>>, cur: seq<KV>, size: int) {
    (forall i :: 0 <= i < |blocks| ==> Full(blocks[i], size)) && Open(cur, size)
  }

  lemma FillMore(blocks: seq<seq<KV>>, cur: seq<KV>, kv: KV, size: int)
    requires Filling(blocks, cur, size)
    ensures if |Records([], cur + [kv])| >= size then Filling(blocks + [cur + [kv]], [], size)
            else Filling(blocks, cur + [kv], size)
  {
    hide Records;
    var more := cur + [kv];
    assert more[..|cur|] == cur && more[..|more|] == more;
    assert forall n :: 0 <= n <= |cur| ==> more[..n] == cur[..n];
  }

  lemma FilledIsCut(blocks: seq<seq<KV>>, cur: seq<KV>, size: int)
    requires Filling(blocks, cur, size)
    ensures Cut(Begun(blocks, cur), size)
  {
    hide Records, Open;
  }

  class SSTWriter {
    const filter: BloomFilter
    const blockSize: int
    var dest: Bytes
    var dataBuf: Bytes
    var blockToFilter: map<nat, Bytes>
    var index: seq<Index>
    const dataBlock: Block
    const filterBlock: Block
    const indexBlock: Block
    var prevKey: Bytes
    var prevBlockOffset: nat
    var prevBlockSize: nat
    ghost var blocks: seq<seq<KV>>

    ghost predicate Parts() reads this, dataBlock, filterBlock, indexBlock {
      && filter.Valid()
      && dataBlock.Valid() && filterBlock.Valid() && indexBlock.Valid()
      && dataBlock != filterBlock && dataBlock != indexBlock && filterBlock != indexBlock
    }

    ghost function View(): State reads this, filter, dataBlock, filterBlock, indexBlock {
      State(dataBuf, blockToFilter, index, dataBlock.kvs, filterBlock.kvs, indexBlock.kvs, filter.hashedKeys,
            prevKey, prevBlockOffset, prevBlockSize, blocks)
    }

    ghost predicate Sound() reads this, filter, dataBlock, filterBlock, indexBlock {
      Parts() && StateOk(View(), filter.m, filter.hash)
    }

    ghost predicate Valid() reads this, filter, dataBlock, filterBlock, indexBlock {
      Sound() && Filling(blocks, dataBlock.kvs, blockSize)
    }

    constructor (filter: BloomFilter, blockSize: int)
      requires filter.Valid() && filter.hashedKeys == []
      ensures Valid() && View().Written() == [] && this.filter == filter && this.blockSize == blockSize
      ensures fresh(dataBlock) && fresh(filterBlock) && fresh(indexBlock)
    {
      this.filter, this.blockSize := filter, blockSize;
      dest, dataBuf, blockToFilter, index := [], [], map[], [];
      dataBlock := new Block();
      filterBlock := new Block();
      indexBlock := new Block();
      prevKey, prevBlockOffset, prevBlockSize, blocks := [], 0, 0, [];
    }

    method InsertIndex(key: Bytes)
      requires Parts()
      modifies this`index, indexBlock
      ensures Parts() && View() == Indexed(old(View()), key)
    {
      var indexKey := Separator(prevKey, key);
      indexBlock.Append(indexKey, PutUvarint(prevBlockOffset) + PutUvarint(prevBlockSize));
      index := index + [Index(indexKey, prevBlockOffset, prevBlockSize)];
    }

    method RefreshBlock()
      requires Sound()
      modifies this`blockToFilter, this`prevBlockOffset, this`prevBlockSize, this`dataBuf, this`blocks,
               filter, dataBlock, filterBlock
      ensures Sound() && View().cur == [] && View().Written() == old(View()).Written()
      ensures blocks == Begun(old(blocks), old(dataBlock.kvs))
    {
      hide Records, StateOk, IsBitmapOf, PutUvarint;
      ghost var w := View();
      HashesMatch(w, filter.m, filter.hash);
      var n := filter.KeyLen();
      if n == 0 { return; }
      prevBlockOffset := |dataBuf|;
      var bitmap := filter.Hash();
      blockToFilter := blockToFilter[prevBlockOffset := bitmap];
      filterBlock.Append(PutUvarint(prevBlockOffset), bitmap);
      filter.Reset();
      blocks := blocks + [dataBlock.kvs];
      dataBuf, prevBlockSize := dataBlock.FlushTo(dataBuf);
      assert View() == Flushed(w, bitmap);
      FlushOk(w, bitmap, filter.m, filter.hash);
    }

    method Append(key: Bytes, value: Bytes)
      requires Valid()
      modifies this, filter, dataBlock, filterBlock, indexBlock
      ensures Valid() && View().Written() == old(View()).Written() + [KV(key, value)]
    {
      hide StateOk, Indexed, Filling, Records;
      ghost var w := View();
      FillMore(blocks, dataBlock.kvs, KV(key, value), blockSize);
      if dataBlock.entriesCnt == 0 {
        InsertIndex(key);
      }
      dataBlock.Append(key, value);
      filter.Add(key);
      prevKey := key;
      ghost var w' := if w.cur == [] then Indexed(w, key) else w;
      assert View() == Put(w', KV(key, value), filter.hash);
      PutOk(w, KV(key, value), filter.m, filter.hash);
      IndexedWrites(w, key, KV(key, value));
      if |dataBlock.record| >= blockSize {
        RefreshBlock();
      }
    }

    /** The finished table is one of exactly what was appended, and its file holds the same filters and index. */
    method Finish() returns (filters: map<nat, Bytes>, idx: seq<Index>, ghost filterRecs: seq<KV>, ghost indexRecs: seq<KV>)
      requires Valid()
      modifies this, filter, dataBlock, filterBlock, indexBlock
      ensures Flatten(blocks) == old(View()).Written() && Cut(blocks, blockSize)
      ensures IsTableOf(Table(dest, filters, idx, filter.m, filter.hash), blocks)
      ensures dest == FileOf(Data(blocks), filterRecs, indexRecs)
      ensures |Data(blocks)| < WORD ==> FiltersFrom(filterRecs) == filters && IndexFrom(indexRecs) == idx
    {
      hide Records, StateOk, Indexed, IsTableOf, Footer, FiltersFrom, IndexFrom, Data, Flatten, LastKey, FileOf, Cut, Filling;
      FilledIsCut(blocks, dataBlock.kvs, blockSize);
      RefreshBlock();
      ghost var w := View();
      assert Flatten(w.blocks) + [] == Flatten(w.blocks);
      OkBasics(w, filter.m, filter.hash);
      InsertIndex(prevKey);
      filterRecs, indexRecs := filterBlock.kvs, indexBlock.kvs;
      IndexedKeeps(w, prevKey);
      var filterBuf, filterLen := filterBlock.FlushTo([]);
      var indexBuf, indexLen := indexBlock.FlushTo([]);
      FileIs(dataBuf, filterRecs, indexRecs);
      dest := dataBuf + filterBuf + indexBuf + Footer(|dataBuf|, filterLen, indexLen);
      filters, idx := blockToFilter, index;
      FinishOk(w, dest, filter.m, filter.hash);
    }
  }

  lemma FileIs(data: Bytes, filterRecs: seq<KV>, indexRecs: seq<KV>)
    ensures var fs, xs := [] + Records([], filterRecs), [] + Records([], indexRecs);
            data + fs + xs + Footer(|data|, |fs|, |xs|) == FileOf(data, filterRecs, indexRecs)
  {
    hide Records, Footer;
    var fs, xs := Records([], filterRecs), Records([], indexRecs);
    assert [] + fs == fs && [] + xs == xs;
  }

  lemma HashesMatch(w: State, m: nat, hash: Bytes -> Hash)
    requires 0 < m < WORD32 && StateOk(w, m, hash)
    ensures |w.hashes| == |w.cur|
  {
  }

  lemma OkBasics(w: State, m: nat, hash: Bytes -> Hash)
    requires 0 < m < WORD32 && StateOk(w, m, hash)
    ensures w.dataBuf == Data(w.blocks) && (|w.dataBuf| < WORD ==> FiltersFrom(w.filterRecs) == w.filters)
  {
  }

  lemma IndexedKeeps(w: State, key: Bytes)
    ensures Indexed(w, key) == w.(index := Indexed(w, key).index, indexRecs := Indexed(w, key).indexRecs)
  {
  }

  lemma IndexedWrites(w: State, key: Bytes, kv: KV)
    ensures Flatten(w.blocks) + (w.cur + [kv]) == w.Written() + [kv]
    ensures Indexed(w, key).blocks == w.blocks && Indexed(w, key).cur == w.cur
  {
  }

  // ---------------------------------------------------------------- the index as blocks begin and end

  /** The entry for the first flushed-and-not-yet-announced block, or for none. */
  ghost predicate Announces(blocks: seq<seq<KV>>, prevKey: Bytes, offset: nat, size: nat)
    requires NoEmptyBlock(blocks)
  {
    if blocks == [] then prevKey == [] && offset == 0 && size == 0
    else prevKey == LastOf(blocks[|blocks| - 1]) && offset == Offset(blocks, |blocks| - 1) &&
         size == |Records([], blocks[|blocks| - 1])|
  }

  lemma IndexBegins(index: seq<Index>, blocks: seq<seq<KV>>, prevKey: Bytes, offset: nat, size: nat, kv: KV)
    requires NoEmptyBlock(blocks) && IndexOk(index, blocks) && Announces(blocks, prevKey, offset, size)
    ensures IndexOk(index + [Index(Separator(prevKey, kv.key), offset, size)], Begun(blocks, [kv]))
  {
    hide Separator, Records;
    var all := blocks + [[kv]];
    forall i | 0 <= i < |blocks| ensures index[i] == IndexAt(all, i) {
      assert blocks[..i] == all[..i];
      IndexAtStays(blocks, all, i);
    }
    if blocks != [] {
      OffsetStays(blocks, [[kv]], |blocks| - 1);
    }
  }

  lemma IndexContinues(index: seq<Index>, blocks: seq<seq<KV>>, cur: seq<KV>, kv: KV)
    requires NoEmptyBlock(blocks) && cur != [] && IndexOk(index, Begun(blocks, cur))
    ensures IndexOk(index, Begun(blocks, cur + [kv]))
  {
    var a, b := blocks + [cur], blocks + [cur + [kv]];
    forall i | 0 <= i < |a| ensures index[i] == IndexAt(b, i) {
      assert a[..i] == blocks[..i] == b[..i];
      IndexAtStays(a, b, i);
    }
  }

  lemma IndexEnds(index: seq<Index>, blocks: seq<seq<KV>>, prevKey: Bytes, offset: nat, size: nat)
    requires NoEmptyBlock(blocks) && IndexOk(index, blocks) && Announces(blocks, prevKey, offset, size)
    ensures IndexAt(blocks, |blocks|) == Index(Separator(prevKey, prevKey), offset, size)
  {
  }

  lemma TableFinished(t: Table, blocks: seq<seq<KV>>)
    requires t.Valid() && NoEmptyBlock(blocks) && Data(blocks) <= t.file && |t.index| == |blocks| + 1
    requires FiltersOk(t.filters, blocks, t.m, t.hash)
    requires forall i :: 0 <= i <= |blocks| ==> t.index[i] == IndexAt(blocks, i)
    ensures IsTableOf(t, blocks)
  {
    hide IsBitmapOf, Offset, Data, HashesOf, IndexAt, NoEmptyBlock;
    forall i: nat | i < |blocks| ensures FilterOk(t, blocks, i) {
      assert Offset(blocks, i) in t.filters;
    }
  }
}
