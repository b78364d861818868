/**
 The byte formats shared by the write-ahead log and the tables: unsigned varints as Go's
 encoding/binary writes them, and the prefix-compressed records of a block, with their readers.
 */
module LsmCodec {

  type Byte = x: int | 0 <= x < 256
  type Bytes = seq<Byte>

  datatype KV = KV(key: Bytes, value: Bytes)

  /** Why a reader stopped. `Corrupt` stands for a slice out of range. */
  datatype ReadError = Eof | UnexpectedEof | Overflow | Corrupt

  datatype Read<+T> = Done(value: T, rest: Bytes) | Fail(error: ReadError) {
    predicate IsFailure() { Fail? }
    function PropagateFailure<U>(): Read<U> requires Fail? { Fail(error) }
    function Extract(): (T, Bytes) requires Done? { (value, rest) }
  }

  datatype Result<+T> = Ok(value: T) | Err(error: ReadError)

  // ---------------------------------------------------------------- varints

  const WORD: nat := 0x1_0000_0000_0000_0000

  /** Seven bits a byte, low bits first; the high bit says that more follow. */
  function PutUvarint(v: nat): (b: Bytes)
    ensures b != []
  {
    if v < 128 then [v] else [v % 128 + 128] + PutUvarint(v / 128)
  }

  /** Reading the varint of which i bytes have been read: at most ten bytes and 64 bits. */
  function GetUvarint(b: Bytes, i: nat := 0): (r: Read<nat>)
    ensures r.Done? ==> |r.rest| < |b|
    decreases |b|
  {
    if i >= 10 then Fail(Overflow)
    else if b == [] then Fail(if i == 0 then Eof else UnexpectedEof)
    else if b[0] < 128 then
      if i == 9 && b[0] > 1 then Fail(Overflow) else Done(b[0], b[1..])
    else
      var (v, rest) :- GetUvarint(b[1..], i + 1);
      Done(b[0] - 128 + 128 * v, rest)
  }

  /** What fits in the bits that are left after i bytes. */
  function Room(i: nat): nat
    requires i <= 9
    decreases 9 - i
  {
    if i == 9 then 2 else 128 * Room(i + 1)
  }

  lemma RoomIsWord()
    ensures Room(0) == WORD
  {
    assert Room(7) == 128 * 128 * 2;
    assert Room(5) == 128 * 128 * Room(7);
    assert Room(3) == 128 * 128 * Room(5);
    assert Room(1) == 128 * 128 * Room(3);
  }

  lemma RoomLeft(v: nat, i: nat)
    requires i <= 9 && v < Room(i)
    ensures (i == 9 ==> v < 2) && (v >= 128 ==> i < 9 && v / 128 < Room(i + 1))
  {
  }

  lemma {:induction false} UvarintFrom(v: nat, rest: Bytes, i: nat)
    requires i <= 9 && v < Room(i)
    ensures GetUvarint(PutUvarint(v) + rest, i) == Done(v, rest)
    decreases v
  {
    hide Room, GetUvarint, PutUvarint;
    RoomLeft(v, i);
    if v < 128 {
      LastByte(v, rest, i);
    } else {
      UvarintFrom(v / 128, rest, i + 1);
      MoreBytes(v, rest, i);
    }
  }

  lemma LastByte(v: nat, rest: Bytes, i: nat)
    requires v < 128 && i <= 9 && (i == 9 ==> v < 2)
    ensures GetUvarint(PutUvarint(v) + rest, i) == Done(v, rest)
  {
    assert (PutUvarint(v) + rest)[1..] == rest;
  }

  lemma MoreBytes(v: nat, rest: Bytes, i: nat)
    requires v >= 128 && i < 9 && GetUvarint(PutUvarint(v / 128) + rest, i + 1) == Done(v / 128, rest)
    ensures GetUvarint(PutUvarint(v) + rest, i) == Done(v, rest)
  {
    assert PutUvarint(v) == [v % 128 + 128] + PutUvarint(v / 128);
    assert (PutUvarint(v) + rest)[1..] == PutUvarint(v / 128) + rest;
  }

  /** Every 64-bit number is read back, whatever follows it. */
  lemma UvarintRoundTrip(v: nat, rest: Bytes)
    requires v < WORD
    ensures GetUvarint(PutUvarint(v) + rest) == Done(v, rest)
  {
    RoomIsWord();
    UvarintFrom(v, rest, 0);
  }

  /** n bytes hold 7n bits. */
  lemma {:induction false} UvarintLength(v: nat, n: nat)
    requires 1 <= n <= 9 && v < 64 * Room(10 - n)
    ensures |PutUvarint(v)| <= n
    decreases n
  {
    if v >= 128 {
      assert n > 1;
      assert Room(10 - n) == 128 * Room(11 - n);
      UvarintLength(v / 128, n - 1);
    }
  }

  // ---------------------------------------------------------------- raw bytes

  /** io.ReadFull: exactly n bytes, or none at all, or too few. */
  function Take(b: Bytes, n: nat): (r: Read<Bytes>)
    ensures r.Done? ==> |r.value| == n && b == r.value + r.rest
  {
    if n <= |b| then Done(b[..n], b[n..])
    else Fail(if b == [] then Eof else UnexpectedEof)
  }

  lemma TakeFront(a: Bytes, rest: Bytes)
    ensures Take(a + rest, |a|) == Done(a, rest)
  {
    assert (a + rest)[..|a|] == a && (a + rest)[|a|..] == rest;
  }

  // ---------------------------------------------------------------- records

  function SharedPrefixLen(a: Bytes, b: Bytes): (n: nat)
    ensures n <= |a| && n <= |b| && a[..n] == b[..n]
    ensures n == |a| || n == |b| || a[n] != b[n]
  {
    if a != [] && b != [] && a[0] == b[0] then
      var n := 1 + SharedPrefixLen(a[1..], b[1..]);
      assert a[..n] == [a[0]] + a[1..][..n - 1];
      assert b[..n] == [b[0]] + b[1..][..n - 1];
      n
    else 0
  }

  /** The record of an entry after the key prev. */
  function Record(prev: Bytes, kv: KV): Bytes {
    var n := SharedPrefixLen(prev, kv.key);
    PutUvarint(n) + PutUvarint(|kv.key| - n) + PutUvarint(|kv.value|) + kv.key[n..] + kv.value
  }

  function ReadRecord(prev: Bytes, b: Bytes): (r: Read<KV>)
    ensures r.Done? ==> |r.rest| < |b|
  {
    var (shared, b1) :- GetUvarint(b);
    var (keyLen, b2) :- GetUvarint(b1);
    var (valLen, b3) :- GetUvarint(b2);
    var (key, b4) :- Take(b3, keyLen);
    var (value, b5) :- Take(b4, valLen);
    if shared > |prev| then Fail(Corrupt) else Done(KV(prev[..shared] + key, value), b5)
  }

  predicate Fits(kv: KV) { |kv.key| < WORD && |kv.value| < WORD }

  /** A record is read back after any key that starts with what it shares with prev. */
  lemma RecordRoundTrip(prev: Bytes, p: Bytes, kv: KV, rest: Bytes)
    requires Fits(kv) && prev <= p
    ensures ReadRecord(p, Record(prev, kv) + rest) == Done(kv, rest)
  {
    hide PutUvarint, GetUvarint, SharedPrefixLen, Take;
    var n := SharedPrefixLen(prev, kv.key);
    var v0, v1, v2 := PutUvarint(n), PutUvarint(|kv.key| - n), PutUvarint(|kv.value|);
    var t4 := kv.value + rest;
    var t3 := kv.key[n..] + t4;
    UvarintRoundTrip(|kv.value|, t3);
    UvarintRoundTrip(|kv.key| - n, v2 + t3);
    UvarintRoundTrip(n, v1 + (v2 + t3));
    assert Record(prev, kv) + rest == v0 + (v1 + (v2 + t3));
    TakeFront(kv.key[n..], t4);
    TakeFront(kv.value, rest);
    assert p[..n] == prev[..n] == kv.key[..n];
    assert kv.key[..n] + kv.key[n..] == kv.key;
  }

  // ---------------------------------------------------------------- runs of records

  /** The records of entries, each compressed against the one before. */
  function Records(prev: Bytes, kvs: seq<KV>): Bytes
    decreases |kvs|
  {
    if kvs == [] then [] else Record(prev, kvs[0]) + Records(kvs[0].key, kvs[1..])
  }

  function Prepend(kvs: seq<KV>, r: Result<seq<KV>>): Result<seq<KV>> {
    match r
    case Ok(more) => Ok(kvs + more)
    case Err(e) => Err(e)
  }

  lemma PrependTwice(a: seq<KV>, b: seq<KV>, r: Result<seq<KV>>)
    ensures Prepend(a, Prepend(b, r)) == Prepend(a + b, r) && Prepend([], r) == r
  {
    if r.Ok? {
      assert a + (b + r.value) == a + b + r.value;
      assert [] + r.value == r.value;
    }
  }

  /** Everything up to a clean end. */
  function ReadAll(prev: Bytes, b: Bytes): Result<seq<KV>>
    decreases |b|
  {
    match ReadRecord(prev, b)
    case Fail(Eof) => Ok([])
    case Fail(e) => Err(e)
    case Done(kv, rest) => Prepend([kv], ReadAll(kv.key, rest))
  }

  ghost predicate AllFit(kvs: seq<KV>) { forall i :: 0 <= i < |kvs| ==> Fits(kvs[i]) }

  function LastKey(prev: Bytes, kvs: seq<KV>): Bytes {
    if kvs == [] then prev else kvs[|kvs| - 1].key
  }

  /** Reading past the records of kvs continues behind them. */
  lemma {:induction false} RecordsThen(prev: Bytes, p: Bytes, kvs: seq<KV>, rest: Bytes)
    requires AllFit(kvs) && prev <= p
    ensures ReadAll(p, Records(prev, kvs) + rest) == Prepend(kvs, ReadAll(LastKey(p, kvs), rest))
    decreases |kvs|
  {
    hide ReadRecord, Record, Prepend;
    var after := ReadAll(LastKey(p, kvs), rest);
    if kvs == [] {
      PrependTwice([], [], after);
      assert Records(prev, kvs) + rest == rest;
    } else {
      var tail := Records(kvs[0].key, kvs[1..]) + rest;
      RecordRoundTrip(prev, p, kvs[0], tail);
      assert Records(prev, kvs) + rest == Record(prev, kvs[0]) + tail;
      RecordsThen(kvs[0].key, kvs[0].key, kvs[1..], rest);
      PrependTwice([kvs[0]], kvs[1..], after);
      assert [kvs[0]] + kvs[1..] == kvs;
    }
  }

  /** What was written is read, no more and no less. */
  lemma RecordsRoundTrip(kvs: seq<KV>)
    requires AllFit(kvs)
    ensures ReadAll([], Records([], kvs)) == Ok(kvs)
  {
    RecordsThen([], [], kvs, []);
    assert Records([], kvs) + [] == Records([], kvs);
    assert kvs + [] == kvs;
    assert ReadAll(LastKey([], kvs), []) == Ok([]);
  }

  lemma {:induction false} RecordsAppend(prev: Bytes, kvs: seq<KV>, kv: KV)
    ensures Records(prev, kvs + [kv]) == Records(prev, kvs) + Record(LastKey(prev, kvs), kv)
    decreases |kvs|
  {
    hide Record;
    if kvs == [] {
      assert (kvs + [kv])[1..] == [];
    } else {
      assert (kvs + [kv])[1..] == kvs[1..] + [kv];
      RecordsAppend(kvs[0].key, kvs[1..], kv);
      assert LastKey(kvs[0].key, kvs[1..]) == LastKey(prev, kvs);
    }
  }

  /** A block of records, decoded by consuming the buffer record by record. */
  method ReadBlockData(block: Bytes) returns (r: Result<seq<KV>>)
    ensures r == ReadAll([], block)
  {
    hide ReadRecord, Prepend;
    var prev: Bytes, buf, data := [], block, [];
    PrependTwice([], [], ReadAll(prev, buf));
    while true
      invariant ReadAll([], block) == Prepend(data, ReadAll(prev, buf))
      decreases |buf|
    {
      match ReadRecord(prev, buf)
      case Fail(Eof) =>
        assert Prepend(data, Ok([])) == Ok(data) by { PrependNothing(data); }
        return Ok(data);
      case Fail(e) =>
        PrependError(data, e);
        return Err(e);
      case Done(kv, rest) =>
        PrependTwice(data, [kv], ReadAll(kv.key, rest));
        data := data + [kv];
        prev, buf := kv.key, rest;
    }
  }

  lemma PrependNothing(kvs: seq<KV>)
    ensures Prepend(kvs, Ok([])) == Ok(kvs)
  {
    assert kvs + [] == kvs;
  }

  lemma PrependError(kvs: seq<KV>, e: ReadError)
    ensures Prepend(kvs, Err(e)) == Err(e)
  {
  }

  /** The counting loop of util.SharedPrefixLen. */
  method CountSharedPrefix(a: Bytes, b: Bytes) returns (i: nat)
    ensures i == SharedPrefixLen(a, b)
  {
    i := 0;
    while i < |a| && i < |b| && a[i] == b[i]
      invariant i <= |a| && i <= |b|
      invariant SharedPrefixLen(a, b) == i + SharedPrefixLen(a[i..], b[i..])
    {
      assert a[i..][1..] == a[i + 1..] && b[i..][1..] == b[i + 1..];
      i := i + 1;
    }
  }
}
