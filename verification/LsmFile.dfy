/**
 The file of a table: data, filter block, index block and a footer that says where they are; and
 the reader that recovers filters and index from it.
 */
module LsmFile {
  import opened LsmCodec
  import opened LsmBloom
  import opened LsmTable

  const FOOTER_SIZE: nat := 32

  /** Sizes whose varints take at most eight bytes, so that four of them fit the footer. */
  const MAX_SIZE: nat := 0x100_0000_0000_0000

  // ---------------------------------------------------------------- what is written

  function FilterRecord(offset: nat, bitmap: Bytes): KV { KV(PutUvarint(offset), bitmap) }

  function IndexRecord(x: Index): KV {
    KV(x.key, PutUvarint(x.prevBlockOffset) + PutUvarint(x.prevBlockSize))
  }

  function Zeros(n: nat): (b: Bytes)
    ensures |b| == n
  {
    if n == 0 then [] else Zeros(n - 1) + [0]
  }

  function FooterParts(data: nat, filter: nat, index: nat): Bytes {
    PutUvarint(data) + PutUvarint(filter) + PutUvarint(data + filter) + PutUvarint(index)
  }

  /** The footer is a buffer of fixed size that the four numbers are written into. */
  function Footer(data: nat, filter: nat, index: nat): Bytes {
    var b := FooterParts(data, filter, index);
    b + Zeros(if |b| <= FOOTER_SIZE then FOOTER_SIZE - |b| else 0)
  }

  function FileOf(data: Bytes, filters: seq<KV>, index: seq<KV>): Bytes {
    var f, i := Records([], filters), Records([], index);
    data + f + i + Footer(|data|, |f|, |i|)
  }

  // ---------------------------------------------------------------- what is read

  datatype Places = Places(filterOffset: nat, filterSize: nat, indexOffset: nat, indexSize: nat)

  function ReadPlaces(b: Bytes): Read<Places> {
    var (a0, b1) :- GetUvarint(b);
    var (a1, b2) :- GetUvarint(b1);
    var (a2, b3) :- GetUvarint(b2);
    var (a3, b4) :- GetUvarint(b3);
    Done(Places(a0, a1, a2, a3), b4)
  }

  function ReadFooter(file: Bytes): Result<Places> {
    if |file| < FOOTER_SIZE then Err(Corrupt)
    else
      match ReadPlaces(file[|file| - FOOTER_SIZE..])
      case Done(p, _) => Ok(p)
      case Fail(e) => Err(e)
  }

  /** binary.Uvarint: zero, with nothing consumed, for a number that is cut off. */
  function Uvarint(b: Bytes): (nat, Bytes) {
    match GetUvarint(b)
    case Done(v, rest) => (v, rest)
    case Fail(_) => (0, b)
  }

  /** The filters of the records, later records replacing earlier ones. */
  function FiltersFrom(recs: seq<KV>): map<nat, Bytes> {
    if recs == [] then map[]
    else
      var r := recs[|recs| - 1];
      FiltersFrom(recs[..|recs| - 1])[Uvarint(r.key).0 := r.value]
  }

  function IndexEntry(r: KV): Index {
    var (offset, rest) := Uvarint(r.value);
    Index(r.key, offset, Uvarint(rest).0)
  }

  function IndexFrom(recs: seq<KV>): seq<Index> {
    if recs == [] then [] else IndexFrom(recs[..|recs| - 1]) + [IndexEntry(recs[|recs| - 1])]
  }

  /** The records of one part of the file. */
  function ReadPart(file: Bytes, offset: nat, size: nat): Result<seq<KV>> {
    match ReadBlock(file, offset, size)
    case Ok(b) => ReadAll([], b)
    case Err(e) => Err(e)
  }

  // ---------------------------------------------------------------- round trips

  lemma IndexRoundTrip(x: Index)
    requires x.prevBlockOffset < WORD && x.prevBlockSize < WORD
    ensures IndexEntry(IndexRecord(x)) == x
  {
    var a, b := PutUvarint(x.prevBlockOffset), PutUvarint(x.prevBlockSize);
    UvarintRoundTrip(x.prevBlockOffset, b);
    UvarintRoundTrip(x.prevBlockSize, []);
    assert b + [] == b;
  }

  lemma FilterKeyRoundTrip(offset: nat, bitmap: Bytes)
    requires offset < WORD
    ensures Uvarint(FilterRecord(offset, bitmap).key).0 == offset
  {
    UvarintRoundTrip(offset, []);
    assert PutUvarint(offset) + [] == PutUvarint(offset);
  }

  lemma SmallVarint(v: nat)
    requires v < MAX_SIZE
    ensures |PutUvarint(v)| <= 8
  {
    assert 64 * Room(2) == MAX_SIZE by {
      assert Room(9) == 2 && Room(8) == 256 && Room(7) == 0x8000 && Room(6) == 0x40_0000 && Room(5) == 0x2000_0000;
      assert Room(4) == 0x10_0000_0000 && Room(3) == 0x800_0000_0000;
    }
    UvarintLength(v, 8);
  }

  lemma FooterFits(data: nat, filter: nat, index: nat)
    requires data + filter < MAX_SIZE && index < MAX_SIZE
    ensures |Footer(data, filter, index)| == FOOTER_SIZE
  {
    SmallVarint(data);
    SmallVarint(filter);
    SmallVarint(data + filter);
    SmallVarint(index);
  }

  lemma FooterRoundTrip(data: nat, filter: nat, index: nat)
    requires data + filter < MAX_SIZE && index < MAX_SIZE
    ensures ReadPlaces(Footer(data, filter, index)).Done?
    ensures ReadPlaces(Footer(data, filter, index)).value == Places(data, filter, data + filter, index)
  {
    hide GetUvarint, PutUvarint;
    var b := FooterParts(data, filter, index);
    var pad := Zeros(if |b| <= FOOTER_SIZE then FOOTER_SIZE - |b| else 0);
    var p0, p1, p2, p3 := PutUvarint(data), PutUvarint(filter), PutUvarint(data + filter), PutUvarint(index);
    UvarintRoundTrip(index, pad);
    UvarintRoundTrip(data + filter, p3 + pad);
    UvarintRoundTrip(filter, p2 + (p3 + pad));
    UvarintRoundTrip(data, p1 + (p2 + (p3 + pad)));
    assert b + pad == p0 + (p1 + (p2 + (p3 + pad)));
  }

  /** The parts of a written file, as the reader finds them. */
  lemma PartsReadBack(data: Bytes, filters: seq<KV>, index: seq<KV>)
    requires AllFit(filters) && AllFit(index)
    requires |data| + |Records([], filters)| < MAX_SIZE && |Records([], index)| < MAX_SIZE
    ensures var file := FileOf(data, filters, index);
            var places := ReadFooter(file);
            && places.Ok?
            && ReadPart(file, places.value.filterOffset, places.value.filterSize) == Ok(filters)
            && ReadPart(file, places.value.indexOffset, places.value.indexSize) == Ok(index)
            && ReadBlock(file, 0, places.value.filterOffset) == Ok(data)
  {
    hide Records, ReadAll, ReadPlaces, Footer, PutUvarint;
    var f, i := Records([], filters), Records([], index);
    var foot := Footer(|data|, |f|, |i|);
    var file := FileOf(data, filters, index);
    FooterFits(|data|, |f|, |i|);
    FooterRoundTrip(|data|, |f|, |i|);
    assert file[|file| - FOOTER_SIZE..] == foot;
    assert file[..|data|] == data;
    assert file[|data|..|data| + |f|] == f;
    assert file[|data| + |f|..|data| + |f| + |i|] == i;
    RecordsRoundTrip(filters);
    RecordsRoundTrip(index);
  }
}
