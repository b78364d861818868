/**
 Names of virtual nodes: a node id, an underscore and the replica number in decimal. The id is what
 precedes the last underscore.
 */
module HashNames {

  function Digit(d: nat): char
    requires d < 10
  {
    "0123456789"[d]
  }

  function Decimal(n: nat): (s: string)
    ensures |s| > 0 && forall i :: 0 <= i < |s| ==> s[i] != '_'
  {
    if n < 10 then [Digit(n)] else Decimal(n / 10) + [Digit(n % 10)]
  }

  lemma {:induction false} DecimalInjective(a: nat, b: nat)
    requires Decimal(a) == Decimal(b)
    ensures a == b
  {
    var s, t := Decimal(a), Decimal(b);
    assert s[|s| - 1] == Digit(a % 10) && t[|t| - 1] == Digit(b % 10);
    assert a % 10 == b % 10;
    if a >= 10 && b >= 10 {
      assert s[..|s| - 1] == Decimal(a / 10) && t[..|t| - 1] == Decimal(b / 10);
      DecimalInjective(a / 10, b / 10);
    }
  }

  function RawKey(id: string, i: nat): string { id + "_" + Decimal(i) }

  /** The index of the last underscore, -1 if there is none. */
  function LastIndex(s: string): (r: int)
    ensures -1 <= r < |s|
    ensures forall i :: r < i < |s| ==> s[i] != '_'
    ensures r >= 0 ==> s[r] == '_'
  {
    if s == "" then -1 else if s[|s| - 1] == '_' then |s| - 1 else LastIndex(s[..|s| - 1])
  }

  function NodeId(raw: string): string {
    var index := LastIndex(raw);
    if index < 0 then raw else raw[..index]
  }

  /** A virtual node name gives its node id back, even if the id has underscores of its own. */
  lemma NodeIdOfRaw(id: string, i: nat)
    ensures NodeId(RawKey(id, i)) == id
  {
    var s := RawKey(id, i);
    assert s[|id|] == '_';
    assert forall j :: |id| < j < |s| ==> s[j] == Decimal(i)[j - |id| - 1];
    assert LastIndex(s) == |id|;
  }

  lemma RawInjective(id: string, i: nat, id': string, j: nat)
    requires RawKey(id, i) == RawKey(id', j)
    ensures id == id' && i == j
  {
    NodeIdOfRaw(id, i);
    NodeIdOfRaw(id', j);
    assert RawKey(id, i)[|id| + 1..] == Decimal(i) && RawKey(id', j)[|id| + 1..] == Decimal(j);
    DecimalInjective(i, j);
  }
}
