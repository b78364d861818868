/**
 The order of keys (bytes.Compare) and the separator that starts a table's index.
 */
module LsmOrder {
  import opened LsmCodec

  predicate Less(a: Bytes, b: Bytes) {
    b != [] && (a == [] || a[0] < b[0] || (a[0] == b[0] && Less(a[1..], b[1..])))
  }

  predicate AtMost(a: Bytes, b: Bytes) { a == b || Less(a, b) }

  /** Keys ascend strictly. */
  ghost predicate Sorted(kvs: seq<KV>) {
    forall i, j :: 0 <= i < j < |kvs| ==> Less(kvs[i].key, kvs[j].key)
  }

  /** The three-way comparison of Go's bytes package. */
  function Compare(a: Bytes, b: Bytes): (c: int)
    ensures c < 0 <==> Less(a, b)
    ensures c == 0 <==> a == b
    ensures c > 0 <==> Less(b, a)
  {
    if a == [] && b == [] then 0
    else if a == [] then -1
    else if b == [] then 1
    else if a[0] != b[0] then (if a[0] < b[0] then -1 else 1)
    else
      assert a == [a[0]] + a[1..] && b == [b[0]] + b[1..];
      Compare(a[1..], b[1..])
  }

  lemma {:induction false} LessTrans(a: Bytes, b: Bytes, c: Bytes)
    requires Less(a, b) && Less(b, c)
    ensures Less(a, c)
  {
    if a != [] && a[0] == b[0] && b[0] == c[0] {
      LessTrans(a[1..], b[1..], c[1..]);
    }
  }

  lemma {:induction false} LessIrreflexive(a: Bytes, b: Bytes)
    requires Less(a, b)
    ensures a != b && !Less(b, a)
  {
    if a != [] && a[0] == b[0] {
      LessIrreflexive(a[1..], b[1..]);
    }
  }

  lemma AtMostTrans(a: Bytes, b: Bytes, c: Bytes)
    requires AtMost(a, b) && AtMost(b, c)
    ensures AtMost(a, c)
    ensures Less(a, b) || Less(b, c) ==> Less(a, c)
  {
    if Less(a, b) && Less(b, c) {
      LessTrans(a, b, c);
    }
  }

  lemma NotBoth(a: Bytes, b: Bytes)
    ensures Less(a, b) || AtMost(b, a)
    ensures !(Less(a, b) && AtMost(b, a))
  {
  }

  // ---------------------------------------------------------------- separators

  function Pred(x: Byte): Byte { if x == 0 then 255 else x - 1 }

  /** The last byte counted down, with the wrap-around of a byte. */
  function CountDown(b: Bytes): Bytes
    requires b != []
  {
    b[..|b| - 1] + [Pred(b[|b| - 1])]
  }

  /** util.GetSeparatorBetween. */
  function Separator(a: Bytes, b: Bytes): Bytes {
    if b == [] then b
    else if a == [] then CountDown(b)
    else a
  }

  /** Counting down goes below the key exactly when its last byte is not zero. */
  lemma {:induction false} CountDownLess(b: Bytes)
    requires b != []
    ensures Less(CountDown(b), b) <==> b[|b| - 1] != 0
    ensures b[|b| - 1] == 0 ==> Less(b, CountDown(b))
  {
    if |b| > 1 {
      CountDownLess(b[1..]);
      assert CountDown(b)[1..] == CountDown(b[1..]);
      assert CountDown(b)[0] == b[0];
    }
  }
}
