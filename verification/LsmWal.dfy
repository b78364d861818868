/**
 The write-ahead log: one record per Put, and what reading it back gives, also when its end is torn.
 */
module LsmWal {
  import opened LsmCodec

  function WalRecord(kv: KV): Bytes {
    PutUvarint(|kv.key|) + PutUvarint(|kv.value|) + kv.key + kv.value
  }

  function Wal(kvs: seq<KV>): Bytes {
    if kvs == [] then [] else WalRecord(kvs[0]) + Wal(kvs[1..])
  }

  function ReadWalRecord(b: Bytes): (r: Read<KV>)
    ensures r.Done? ==> |r.rest| < |b|
  {
    var (keyLen, b1) :- GetUvarint(b);
    var (valLen, b2) :- GetUvarint(b1);
    var (key, b3) :- Take(b2, keyLen);
    var (value, b4) :- Take(b3, valLen);
    Done(KV(key, value), b4)
  }

  /** Only an end before a record is a clean end; any other failure loses the whole log. */
  function ReadWal(b: Bytes): Result<seq<KV>>
    decreases |b|
  {
    if GetUvarint(b) == Fail(Eof) then Ok([])
    else
      match ReadWalRecord(b)
      case Fail(e) => Err(e)
      case Done(kv, rest) => Prepend([kv], ReadWal(rest))
  }

  lemma WalRecordRoundTrip(kv: KV, rest: Bytes)
    requires Fits(kv)
    ensures ReadWalRecord(WalRecord(kv) + rest) == Done(kv, rest)
    ensures GetUvarint(WalRecord(kv) + rest).Done?
  {
    hide GetUvarint, PutUvarint;
    var v0, v1 := PutUvarint(|kv.key|), PutUvarint(|kv.value|);
    var t2 := kv.value + rest;
    var t1 := kv.key + t2;
    UvarintRoundTrip(|kv.value|, t1);
    UvarintRoundTrip(|kv.key|, v1 + t1);
    assert WalRecord(kv) + rest == v0 + (v1 + t1);
    assert t1[..|kv.key|] == kv.key && t1[|kv.key|..] == t2;
    assert t2[..|kv.value|] == kv.value && t2[|kv.value|..] == rest;
  }

  lemma {:induction false} WalThen(kvs: seq<KV>, rest: Bytes)
    requires AllFit(kvs)
    ensures ReadWal(Wal(kvs) + rest) == Prepend(kvs, ReadWal(rest))
    decreases |kvs|
  {
    hide WalRecord, ReadWalRecord, GetUvarint, Prepend;
    if kvs == [] {
      assert Wal(kvs) + rest == rest;
      PrependTwice([], [], ReadWal(rest));
    } else {
      var tail := Wal(kvs[1..]) + rest;
      WalRecordRoundTrip(kvs[0], tail);
      assert Wal(kvs) + rest == WalRecord(kvs[0]) + tail;
      WalThen(kvs[1..], rest);
      PrependTwice([kvs[0]], kvs[1..], ReadWal(rest));
      assert [kvs[0]] + kvs[1..] == kvs;
    }
  }

  /** What was logged is read, in order. */
  lemma WalRoundTrip(kvs: seq<KV>)
    requires AllFit(kvs)
    ensures ReadWal(Wal(kvs)) == Ok(kvs)
  {
    WalThen(kvs, []);
    assert Wal(kvs) + [] == Wal(kvs);
    PrependNothing(kvs);
  }

  // ---------------------------------------------------------------- torn logs

  lemma {:induction false} TornVarint(v: nat, n: nat, i: nat)
    requires i <= 9 && v < Room(i) && n < |PutUvarint(v)|
    ensures GetUvarint(PutUvarint(v)[..n], i) == Fail(if n == 0 && i == 0 then Eof else UnexpectedEof)
    decreases v
  {
    var b := PutUvarint(v);
    if n > 0 {
      assert v >= 128 && i < 9;
      TornVarint(v / 128, n - 1, i + 1);
      assert b[..n][1..] == PutUvarint(v / 128)[..n - 1];
    }
  }

  /** A record cut anywhere inside is not read as a record, and only cut at its start it is an end. */
  lemma TornRecord(kv: KV, n: nat)
    requires Fits(kv) && 0 < n < |WalRecord(kv)|
    ensures ReadWalRecord(WalRecord(kv)[..n]).Fail? && GetUvarint(WalRecord(kv)[..n]) != Fail(Eof)
  {
    hide GetUvarint, PutUvarint;
    RoomIsWord();
    var v0, v1 := PutUvarint(|kv.key|), PutUvarint(|kv.value|);
    var b := WalRecord(kv)[..n];
    if n < |v0| {
      TornVarint(|kv.key|, n, 0);
      assert b == v0[..n];
    } else {
      var b1 := b[|v0|..];
      UvarintRoundTrip(|kv.key|, b1);
      assert b == v0 + b1;
      if |b1| < |v1| {
        TornVarint(|kv.value|, |b1|, 0);
        assert b1 == v1[..|b1|];
      } else {
        var b2 := b1[|v1|..];
        UvarintRoundTrip(|kv.value|, b2);
        assert b1 == v1 + b2;
      }
    }
  }

  lemma {:induction false} WalSplit(kvs: seq<KV>, j: nat)
    requires j <= |kvs|
    ensures Wal(kvs) == Wal(kvs[..j]) + Wal(kvs[j..])
    decreases j
  {
    if j > 0 {
      WalSplit(kvs[1..], j - 1);
      assert kvs[..j][1..] == kvs[1..][..j - 1] && kvs[1..][j - 1..] == kvs[j..];
    } else {
      assert kvs[..0] == [] && kvs[0..] == kvs;
    }
  }

  /** A log cut between record j and j + 1 restores the first j; cut anywhere inside a record it is an error. */
  lemma TornWal(kvs: seq<KV>, j: nat, n: nat)
    requires AllFit(kvs) && j < |kvs| && n < |WalRecord(kvs[j])|
    ensures var b := Wal(kvs[..j]) + WalRecord(kvs[j])[..n];
            && b <= Wal(kvs)
            && (n == 0 ==> ReadWal(b) == Ok(kvs[..j]))
            && (n > 0 ==> ReadWal(b).Err?)
  {
    hide WalRecord, ReadWalRecord, GetUvarint;
    WalSplit(kvs, j);
    assert Wal(kvs[j..]) == WalRecord(kvs[j]) + Wal(kvs[j..][1..]);
    var torn := WalRecord(kvs[j])[..n];
    assert AllFit(kvs[..j]);
    WalThen(kvs[..j], torn);
    if n == 0 {
      assert GetUvarint([]) == Fail(Eof) by { NothingToRead(); }
      PrependNothing(kvs[..j]);
    } else {
      TornRecord(kvs[j], n);
    }
  }

  lemma NothingToRead()
    ensures GetUvarint([]) == Fail(Eof)
  {
  }

  // ---------------------------------------------------------------- the writer and the reader

  class WALWriter {
    var dest: Bytes

    constructor ()
      ensures dest == []
    {
      dest := [];
    }

    method Write(key: Bytes, value: Bytes)
      modifies this
      ensures dest == old(dest) + WalRecord(KV(key, value))
    {
      var buf := PutUvarint(|key|) + PutUvarint(|value|);
      buf := buf + key;
      buf := buf + value;
      dest := dest + buf;
    }
  }

  method ReadAllRecords(body: Bytes) returns (r: Result<seq<KV>>)
    ensures r == ReadWal(body)
  {
    hide Prepend, GetUvarint;
    var b, kvs := body, [];
    PrependTwice([], [], ReadWal(b));
    while true
      invariant ReadWal(body) == Prepend(kvs, ReadWal(b))
      decreases |b|
    {
      var k := GetUvarint(b);
      if k == Fail(Eof) {
        PrependNothing(kvs);
        return Ok(kvs);
      }
      match ReadWalRecord(b)
      case Fail(e) =>
        PrependError(kvs, e);
        return Err(e);
      case Done(kv, rest) =>
        PrependTwice(kvs, [kv], ReadWal(rest));
        kvs := kvs + [kv];
        b := rest;
    }
  }
}
