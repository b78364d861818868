/**
 The Bloom filter of a block: k bits per key in a bitmap of m bits, k itself in the last byte.
 */
module LsmBloom {
  import opened Basics
  import opened LsmCodec

  const WORD32: nat := 0x1_0000_0000

  type Hash = x: nat | x < WORD32

  // ---------------------------------------------------------------- bits of a byte

  function Mask(j: nat): bv8
    requires j < 8
  {
    if j == 0 then 1 else if j == 1 then 2 else if j == 2 then 4 else if j == 3 then 8
    else if j == 4 then 16 else if j == 5 then 32 else if j == 6 then 64 else 128
  }

  predicate HasMask(x: bv8, j: nat)
    requires j < 8
  {
    x & Mask(j) != 0
  }

  function OrMask(x: bv8, j: nat): bv8
    requires j < 8
  {
    x | Mask(j)
  }

  predicate HasBit(b: Byte, j: nat)
    requires j < 8
  {
    HasMask(b as bv8, j)
  }

  function SetBit(b: Byte, j: nat): Byte
    requires j < 8
  {
    OrMask(b as bv8, j) as int
  }

  lemma MaskOr(x: bv8, j: nat, c: nat)
    requires j < 8 && c < 8
    ensures HasMask(OrMask(x, j), c) <==> HasMask(x, c) || c == j
  {
  }

  lemma ByteAndBack(x: bv8)
    ensures (x as int) as bv8 == x
  {
  }

  lemma SetBitIs(b: Byte, j: nat, c: nat)
    requires j < 8 && c < 8
    ensures HasBit(SetBit(b, j), c) <==> HasBit(b, c) || c == j
  {
    hide HasMask, OrMask;
    MaskOr(b as bv8, j, c);
    ByteAndBack(OrMask(b as bv8, j));
  }

  // ---------------------------------------------------------------- bits of a bitmap

  predicate BitAt(bitmap: Bytes, t: nat)
    requires t / 8 < |bitmap|
  {
    HasBit(bitmap[t / 8], t % 8)
  }

  function WithBit(bitmap: Bytes, t: nat): Bytes
    requires t / 8 < |bitmap|
  {
    bitmap[t / 8 := SetBit(bitmap[t / 8], t % 8)]
  }

  lemma WithBitIs(bitmap: Bytes, t: nat, u: nat)
    requires t / 8 < |bitmap| && u / 8 < |bitmap|
    ensures BitAt(WithBit(bitmap, t), u) <==> BitAt(bitmap, u) || u == t
  {
    hide HasBit, SetBit;
    SetBitIs(bitmap[t / 8], t % 8, u % 8);
    assert t == 8 * (t / 8) + t % 8 && u == 8 * (u / 8) + u % 8;
  }

  // ---------------------------------------------------------------- the filter

  /** hash rotated right by 17 bits, as a 32-bit word. */
  function Delta(h: Hash): Hash {
    h / 0x2_0000 + (h % 0x2_0000) * 0x8000
  }

  /** The i-th bit of a key with hash h in a filter of m bits, in 32-bit arithmetic. */
  function Target(m: nat, h: Hash, i: nat): (t: nat)
    requires 0 < m < WORD32
    ensures t < m
  {
    (h + i * Delta(h)) % WORD32 % m
  }

  function BitmapLen(m: nat): nat { (m + 7) / 8 }

  /** 69 % of the bits per key, truncated to a byte, and between 1 and 30. */
  function BestK(m: nat, n: nat): (k: nat)
    requires 0 < n
    ensures 1 <= k <= 30
  {
    var k := 69 * m / 100 / n % 256;
    if k < 1 then 1 else if k > 30 then 30 else k
  }

  /** Whether the bitmap may hold a key with hash h. */
  predicate MayHold(m: nat, bitmap: Bytes, h: Hash)
    requires 0 < m < WORD32 && |bitmap| == BitmapLen(m) + 1
  {
    forall i :: 0 <= i < bitmap[BitmapLen(m)] ==> BitAt(bitmap, Target(m, h, i))
  }

  /** Bit t belongs to one of the hashes. */
  ghost predicate Wanted(m: nat, k: nat, hashes: seq<Hash>, t: nat)
    requires 0 < m < WORD32
  {
    exists j, i :: 0 <= j < |hashes| && 0 <= i < k && Target(m, hashes[j], i) == t
  }

  /** A bitmap has exactly the bits of its keys, and its k in the last byte. */
  ghost predicate IsBitmapOf(m: nat, bitmap: Bytes, hashes: seq<Hash>)
    requires 0 < m < WORD32
  {
    && hashes != []
    && |bitmap| == BitmapLen(m) + 1
    && bitmap[BitmapLen(m)] == BestK(m, |hashes|)
    && forall t: nat {:trigger BitAt(bitmap, t)} :: t < m ==> (BitAt(bitmap, t) <==> Wanted(m, BestK(m, |hashes|), hashes, t))
  }

  /** No false negatives. */
  lemma AddedExists(m: nat, bitmap: Bytes, hashes: seq<Hash>, j: nat)
    requires 0 < m < WORD32 && IsBitmapOf(m, bitmap, hashes) && j < |hashes|
    ensures MayHold(m, bitmap, hashes[j])
  {
  }

  class BloomFilter {
    const m: nat
    const hash: Bytes -> Hash
    var hashedKeys: seq<Hash>

    ghost predicate Valid() { 0 < m < WORD32 }

    constructor (m: nat, hash: Bytes -> Hash)
      requires 0 < m < WORD32
      ensures Valid() && this.m == m && this.hash == hash && hashedKeys == []
    {
      this.m, this.hash, hashedKeys := m, hash, [];
    }

    method Add(key: Bytes)
      modifies this
      ensures hashedKeys == old(hashedKeys) + [hash(key)]
    {
      hashedKeys := hashedKeys + [hash(key)];
    }

    method Reset()
      modifies this
      ensures hashedKeys == []
    {
      hashedKeys := [];
    }

    method KeyLen() returns (n: nat)
      ensures n == |hashedKeys|
    {
      n := |hashedKeys|;
    }

    /** Sets the k bits of one hash. */
    method SetBits(bitmap: Bytes, k: nat, h: Hash) returns (r: Bytes)
      requires Valid() && |bitmap| == BitmapLen(m) + 1
      ensures |r| == |bitmap| && r[BitmapLen(m)] == bitmap[BitmapLen(m)]
      ensures forall t: nat {:trigger BitAt(r, t)} :: t < m ==> (BitAt(r, t) <==> BitAt(bitmap, t) || Wanted(m, k, [h], t))
    {
      hide HasBit, SetBit, BitAt, Target, Wanted;
      NothingWanted(m, h);
      r := bitmap;
      for i := 0 to k
        invariant |r| == |bitmap| && r[BitmapLen(m)] == bitmap[BitmapLen(m)]
        invariant forall t: nat {:trigger BitAt(r, t)} :: t < m ==> (BitAt(r, t) <==> BitAt(bitmap, t) || Wanted(m, i, [h], t))
      {
        var target := Target(m, h, i);
        ghost var before := r;
        r := r[target / 8 := SetBit(r[target / 8], target % 8)];
        forall t: nat | t < m ensures BitAt(r, t) <==> BitAt(bitmap, t) || Wanted(m, i + 1, [h], t) {
          WithBitIs(before, target, t);
          WantedNext(m, i, h, t);
        }
      }
    }

    /** The bitmap of the keys added since the last reset. */
    method Hash() returns (bitmap: Bytes)
      requires Valid() && hashedKeys != []
      ensures IsBitmapOf(m, bitmap, hashedKeys)
    {
      var k := BestK(m, |hashedKeys|);
      bitmap := seq(BitmapLen(m), _ => 0) + [k];
      forall t: nat | t < m ensures !BitAt(bitmap, t) {
        assert bitmap[t / 8] == 0;
      }
      for j := 0 to |hashedKeys|
        invariant |bitmap| == BitmapLen(m) + 1 && bitmap[BitmapLen(m)] == k
        invariant forall t: nat {:trigger BitAt(bitmap, t)} :: t < m ==> (BitAt(bitmap, t) <==> Wanted(m, k, hashedKeys[..j], t))
      {
        bitmap := SetBits(bitmap, k, hashedKeys[j]);
        forall t: nat | t < m ensures BitAt(bitmap, t) <==> Wanted(m, k, hashedKeys[..j + 1], t) {
          WantedMore(m, k, hashedKeys[..j], hashedKeys[j], t);
          assert hashedKeys[..j + 1] == hashedKeys[..j] + [hashedKeys[j]];
        }
      }
      assert hashedKeys[..|hashedKeys|] == hashedKeys;
    }

    /** The membership test, on a stored bitmap or on the one of the keys added so far. */
    method Exist(given: Option<Bytes>, key: Bytes) returns (b: bool)
      requires Valid() && if given.Some? then |given.value| == BitmapLen(m) + 1 else hashedKeys != []
      ensures given.Some? ==> b == MayHold(m, given.value, hash(key))
      ensures given.None? ==> exists bitmap :: IsBitmapOf(m, bitmap, hashedKeys) && b == MayHold(m, bitmap, hash(key))
      ensures given.None? && hash(key) in hashedKeys ==> b
    {
      hide IsBitmapOf, MayHold;
      if given.Some? {
        b := Test(given.value, key);
      } else {
        var bitmap := Hash();
        BitmapSize(m, bitmap, hashedKeys);
        b := Test(bitmap, key);
        if j :| 0 <= j < |hashedKeys| && hashedKeys[j] == hash(key) { AddedExists(m, bitmap, hashedKeys, j); }
      }
    }

    /** Stops at the first clear bit. */
    method Test(bitmap: Bytes, key: Bytes) returns (b: bool)
      requires Valid() && |bitmap| == BitmapLen(m) + 1
      ensures b == MayHold(m, bitmap, hash(key))
    {
      var k := bitmap[|bitmap| - 1];
      var h := hash(key);
      for i := 0 to k
        invariant forall j :: 0 <= j < i ==> BitAt(bitmap, Target(m, h, j))
      {
        var target := Target(m, h, i);
        if !HasBit(bitmap[target / 8], target % 8) { return false; }
      }
      return true;
    }
  }

  lemma BitmapSize(m: nat, bitmap: Bytes, hashes: seq<Hash>)
    requires 0 < m < WORD32 && IsBitmapOf(m, bitmap, hashes)
    ensures |bitmap| == BitmapLen(m) + 1
  {
  }

  lemma NothingWanted(m: nat, h: Hash)
    requires 0 < m < WORD32
    ensures forall t: nat :: !Wanted(m, 0, [h], t)
  {
  }

  lemma WantedNext(m: nat, i: nat, h: Hash, t: nat)
    requires 0 < m < WORD32
    ensures Wanted(m, i + 1, [h], t) <==> Wanted(m, i, [h], t) || Target(m, h, i) == t
  {
    if Target(m, h, i) == t {
      assert Target(m, [h][0], i) == t;
    }
    if Wanted(m, i, [h], t) {
      var j, i' :| 0 <= j < 1 && 0 <= i' < i && Target(m, [h][j], i') == t;
    }
  }

  lemma WantedMore(m: nat, k: nat, hs: seq<Hash>, h: Hash, t: nat)
    requires 0 < m < WORD32
    ensures Wanted(m, k, hs + [h], t) <==> Wanted(m, k, hs, t) || Wanted(m, k, [h], t)
  {
    if Wanted(m, k, hs, t) {
      var j, i :| 0 <= j < |hs| && 0 <= i < k && Target(m, hs[j], i) == t;
      assert (hs + [h])[j] == hs[j];
    }
    if Wanted(m, k, [h], t) {
      var j, i :| 0 <= j < 1 && 0 <= i < k && Target(m, [h][j], i) == t;
      assert (hs + [h])[|hs|] == h;
    }
    if Wanted(m, k, hs + [h], t) {
      var j, i :| 0 <= j <= |hs| && 0 <= i < k && Target(m, (hs + [h])[j], i) == t;
      if j == |hs| {
        assert Target(m, [h][0], i) == t;
      }
    }
  }
}
