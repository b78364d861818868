/**
 The link array of one cache level: slot 0 is the sentinel of a circular doubly linked list that is
 kept in two columns, one per direction. Moving a slot to either end is one piece of code with the
 directions as parameters.
 */
module LruLinks {

  const P: nat := 0
  const N: nat := 1

  /** The slots of a ring, sentinel first, each once. */
  ghost predicate Slots(r: seq<nat>, size: nat) {
    && r != [] && r[0] == 0
    && (forall i :: 0 <= i < |r| ==> r[i] < size)
    && (forall i, j :: 0 <= i < j < |r| ==> r[i] != r[j])
  }

  /** Following `to` from the sentinel visits r and returns; `from` is the way back. */
  ghost predicate Ring(to: seq<nat>, from: seq<nat>, r: seq<nat>) {
    && |to| == |from| && Slots(r, |to|)
    && (forall i :: 0 <= i < |r| - 1 ==> to[r[i]] == r[i + 1])
    && (forall i :: 0 < i < |r| ==> from[r[i]] == r[i - 1])
    && to[r[|r| - 1]] == 0
    && from[0] == r[|r| - 1]
  }

  ghost function Column(link: array2<nat>, c: nat): (s: seq<nat>)
    requires c < link.Length1
    reads link
    ensures |s| == link.Length0 && forall i :: 0 <= i < |s| ==> s[i] == link[i, c]
  {
    seq(link.Length0, i requires 0 <= i < link.Length0 reads link => link[i, c])
  }

  // ---------------------------------------------------------------- the ring backwards

  function Reversed(s: seq<nat>): (r: seq<nat>)
    ensures |r| == |s| && forall i :: 0 <= i < |s| ==> r[i] == s[|s| - 1 - i]
  {
    if s == [] then [] else Reversed(s[1..]) + [s[0]]
  }

  /** The same ring seen in the other direction. */
  function Back(r: seq<nat>): (b: seq<nat>)
    requires r != []
    ensures |b| == |r| && b[0] == r[0] && forall i :: 0 < i < |r| ==> b[i] == r[|r| - i]
  {
    [r[0]] + Reversed(r[1..])
  }

  lemma SlotsBack(r: seq<nat>, size: nat)
    requires Slots(r, size)
    ensures Slots(Back(r), size)
  {
    hide Back;
    var b, n := Back(r), |r|;
    forall i, j | 0 <= i < j < n ensures b[i] != b[j] {
      assert b[j] == r[n - j] && (i > 0 ==> b[i] == r[n - i]);
    }
  }

  lemma RingBack(to: seq<nat>, from: seq<nat>, r: seq<nat>)
    requires Ring(to, from, r)
    ensures Ring(from, to, Back(r)) && Back(Back(r)) == r
  {
    hide Back;
    SlotsBack(r, |to|);
    var b, n := Back(r), |r|;
    forall i | 0 <= i < n - 1 ensures from[b[i]] == b[i + 1] {
      assert b[i + 1] == r[n - i - 1];
    }
    forall i | 0 < i < n ensures to[b[i]] == b[i - 1] {
      assert b[i] == r[n - i];
    }
  }

  // ---------------------------------------------------------------- moving a slot to the front

  /** Slot k of the ring moved right behind the sentinel. */
  function Moved(r: seq<nat>, k: nat): (q: seq<nat>)
    requires 0 < k < |r|
    ensures |q| == |r| && q[0] == r[0] && q[1] == r[k]
    ensures forall i :: 1 < i <= k ==> q[i] == r[i - 1]
    ensures forall i :: k < i < |r| ==> q[i] == r[i]
  {
    [r[0], r[k]] + r[1..k] + r[k + 1..]
  }

  lemma MovedSlots(r: seq<nat>, k: nat, size: nat)
    requires 0 < k < |r| && Slots(r, size)
    ensures Slots(Moved(r, k), size)
  {
    hide Moved;
    var q := Moved(r, k);
    forall i, j | 0 <= i < j < |q| ensures q[i] != q[j] {
      assert j == 1 || j > k || q[j] == r[j - 1];
      assert i <= 1 || i > k || q[i] == r[i - 1];
    }
  }

  function Succ(r: seq<nat>, k: nat): nat
    requires k < |r|
  {
    if k + 1 < |r| then r[k + 1] else 0
  }

  /** The columns after slot k > 1 was taken out and put behind the sentinel. */
  ghost predicate Relinked(to: seq<nat>, from: seq<nat>, to': seq<nat>, from': seq<nat>, r: seq<nat>, k: nat)
    requires 1 < k < |r| && |to| == |from| && Slots(r, |to|)
  {
    && |to'| == |to| && |from'| == |from|
    && (forall x :: 0 <= x < |to| ==>
          to'[x] == if x == 0 then r[k] else if x == r[k] then r[1] else if x == r[k - 1] then Succ(r, k) else to[x])
    && (forall x :: 0 <= x < |to| ==>
          from'[x] == if x == r[k] then 0 else if x == r[1] then r[k] else if x == Succ(r, k) then r[k - 1] else from[x])
  }

  lemma RelinkedRing(to: seq<nat>, from: seq<nat>, to': seq<nat>, from': seq<nat>, r: seq<nat>, k: nat)
    requires Ring(to, from, r) && 1 < k < |r| && Relinked(to, from, to', from', r, k)
    ensures Ring(to', from', Moved(r, k))
  {
    hide Moved;
    MovedSlots(r, k, |to|);
    RelinkedTo(to, from, to', from', r, k);
    RelinkedFrom(to, from, to', from', r, k);
  }

  lemma RelinkedTo(to: seq<nat>, from: seq<nat>, to': seq<nat>, from': seq<nat>, r: seq<nat>, k: nat)
    requires Ring(to, from, r) && 1 < k < |r| && Relinked(to, from, to', from', r, k)
    ensures var q := Moved(r, k);
            (forall i :: 0 <= i < |q| - 1 ==> to'[q[i]] == q[i + 1]) && to'[q[|q| - 1]] == 0
  {
    hide Moved;
    var q, n := Moved(r, k), |r|;
    forall i | 0 <= i < n ensures to'[q[i]] == if i < n - 1 then q[i + 1] else 0 {
      if i == k {
        assert q[i] == r[k - 1];
      } else if 1 < i < k {
        assert q[i] == r[i - 1] && to[r[i - 1]] == r[i];
      }
    }
  }

  lemma RelinkedFrom(to: seq<nat>, from: seq<nat>, to': seq<nat>, from': seq<nat>, r: seq<nat>, k: nat)
    requires Ring(to, from, r) && 1 < k < |r| && Relinked(to, from, to', from', r, k)
    ensures var q := Moved(r, k);
            (forall i :: 0 < i < |q| ==> from'[q[i]] == q[i - 1]) && from'[0] == q[|q| - 1]
  {
    hide Moved;
    var q, n := Moved(r, k), |r|;
    forall i | 0 < i < n ensures from'[q[i]] == q[i - 1] {
      if 2 < i <= k {
        assert q[i] == r[i - 1] && from[r[i - 1]] == r[i - 2];
      } else if i == k + 1 {
        assert q[i] == r[k + 1] && q[i - 1] == r[k - 1];
      } else if i > k {
        assert q[i] == r[i] && from[r[i]] == r[i - 1];
      }
    }
  }

  /** Takes slot idx out and puts it right behind the sentinel in direction t; f is the other direction. */
  method Adjust(link: array2<nat>, idx: nat, f: nat, t: nat, ghost r: seq<nat>, ghost k: nat)
    requires link.Length1 == 2 && t <= 1 && f == 1 - t && Ring(Column(link, t), Column(link, f), r)
    requires 0 < k < |r| && r[k] == idx
    modifies link
    ensures Ring(Column(link, t), Column(link, f), Moved(r, k))
  {
    hide Moved, Column;
    ghost var to, from := Column(link, t), Column(link, f);
    assert from[r[k]] == r[k - 1] && to[r[k]] == Succ(r, k) && to[r[0]] == r[1];
    if link[idx, f] != 0 {
      link[link[idx, t], f] := link[idx, f];
      link[link[idx, f], t] := link[idx, t];
      link[idx, f] := 0;
      link[idx, t] := link[0, t];
      link[link[0, t], f] := idx;
      link[0, t] := idx;
      assert Relinked(to, from, Column(link, t), Column(link, f), r, k);
      RelinkedRing(to, from, Column(link, t), Column(link, f), r, k);
    } else {
      assert k == 1 && Moved(r, k) == r;
    }
  }
}
