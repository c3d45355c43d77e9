/**
 Split-order keys: bit-reversed hashes. Doubling the number of buckets then only ever inserts a new
 sentinel inside an existing bucket, so no node has to move.
 */
module SplitOrder {
  import opened Basics

  const REGULAR_BIT: bv64 := 0x8000_0000_0000_0000
  const ALL_ONES: bv64 := 0xFFFF_FFFF_FFFF_FFFF
  const MAX_SEGMENTS := 32

  function Reverse(v: bv64): bv64 {
    var v1 := ((v >> 1) & 0x5555_5555_5555_5555) | ((v & 0x5555_5555_5555_5555) << 1);
    var v2 := ((v1 >> 2) & 0x3333_3333_3333_3333) | ((v1 & 0x3333_3333_3333_3333) << 2);
    var v3 := ((v2 >> 4) & 0x0F0F_0F0F_0F0F_0F0F) | ((v2 & 0x0F0F_0F0F_0F0F_0F0F) << 4);
    var v4 := ((v3 >> 8) & 0x00FF_00FF_00FF_00FF) | ((v3 & 0x00FF_00FF_00FF_00FF) << 8);
    var v5 := ((v4 >> 16) & 0x0000_FFFF_0000_FFFF) | ((v4 & 0x0000_FFFF_0000_FFFF) << 16);
    (v5 >> 32) | (v5 << 32)
  }

  predicate Bit(v: bv64, i: bv64)
    requires i < 64
  {
    (v >> i) & 1 == 1
  }

  /** The swap network reverses the order of the 64 bits. */
  lemma ReverseBit(v: bv64, i: bv64)
    requires i < 64
    ensures Bit(Reverse(v), i) == Bit(v, 63 - i)
  {
  }

  function RegularKey(hash: bv64): bv64 {
    Reverse(hash | REGULAR_BIT)
  }

  function SentinelKey(bucket: bv64): bv64 {
    Reverse(bucket)
  }

  predicate IsRegular(soKey: bv64) {
    soKey & 1 != 0
  }

  function Mask(k: bv64): bv64
    requires k < 64
  {
    (1 << k) - 1
  }

  function Masked(x: bv64, m: bv64): bv64 {
    x & m
  }

  /** The bucket of a hash in a table of 2^k buckets. */
  function Bucket(hash: bv64, k: bv64): bv64
    requires k < 64
  {
    Masked(hash, Mask(k))
  }

  function HighMask(n: bv64): bv64
    requires n <= 64
  {
    ALL_ONES << n
  }

  /** The k highest bits of a key: the reverse of the k lowest bits of a hash. */
  function High(key: bv64, k: bv64): bv64
    requires k < 64
  {
    Masked(key, HighMask(64 - k))
  }

  lemma RegularKeysAreOdd(hash: bv64, bucket: bv64)
    requires bucket & REGULAR_BIT == 0
    ensures IsRegular(RegularKey(hash)) && !IsRegular(SentinelKey(bucket))
  {
  }

  lemma ReverseMasked(x: bv64, y: bv64)
    ensures Reverse(Masked(x, y)) == Masked(Reverse(x), Reverse(y))
  {
  }

  lemma ReverseMask(k: bv64)
    requires k < 64
    ensures Reverse(Mask(k)) == HighMask(64 - k)
  {
  }

  lemma ReverseBucket(hash: bv64, k: bv64)
    requires k < 64
    ensures Reverse(Bucket(hash, k)) == High(Reverse(hash), k)
  {
    hide Reverse;
    hide Mask;
    hide HighMask;
    hide Masked;
    ReverseMask(k);
    ReverseMasked(hash, Mask(k));
  }

  lemma RegularIsOr(hash: bv64)
    ensures RegularKey(hash) == Reverse(hash) | 1
  {
  }

  lemma LowBitMasked(x: bv64, n: bv64)
    requires 0 < n <= 64
    ensures Masked(x | 1, HighMask(n)) == Masked(x, HighMask(n))
  {
  }

  lemma RegularBit(hash: bv64, k: bv64)
    requires k < 64
    ensures High(RegularKey(hash), k) == High(Reverse(hash), k)
  {
    hide Reverse;
    hide RegularKey;
    hide Masked;
    hide HighMask;
    RegularIsOr(hash);
    LowBitMasked(Reverse(hash), 64 - k);
  }

  /** The high bits of a regular key are the sentinel of its bucket. */
  lemma RegularHighBits(hash: bv64, k: bv64)
    requires k < 64
    ensures High(RegularKey(hash), k) == SentinelKey(Bucket(hash, k))
  {
    hide Reverse;
    hide RegularKey;
    hide Bucket;
    hide High;
    RegularBit(hash, k);
    ReverseBucket(hash, k);
  }

  lemma HighIdempotent(x: bv64, k: bv64)
    requires k < 64
    ensures High(High(x, k), k) == High(x, k)
  {
  }

  function Half(x: bv64): bv64 {
    x >> 1
  }

  predicate Zero(x: bv64) {
    x == 0
  }

  /** The number a key stands for. */
  function Value(x: bv64): nat
    decreases x
  {
    if Zero(x) then 0 else 2 * Value(Half(x)) + (if IsRegular(x) then 1 else 0)
  }

  lemma ValueBits(x: bv64)
    ensures Value(x) == 2 * Value(Half(x)) + (if IsRegular(x) then 1 else 0)
  {
  }

  lemma HalfOfMasked(x: bv64, m: bv64)
    ensures Half(Masked(x, m)) == Masked(Half(x), Half(m))
    ensures IsRegular(Masked(x, m)) ==> IsRegular(x)
    ensures Zero(x) ==> Masked(x, m) == x
  {
  }

  /** Clearing bits never makes a number larger. */
  lemma {:induction false} ValueOfMasked(x: bv64, m: bv64)
    ensures Value(Masked(x, m)) <= Value(x)
    decreases x
  {
    hide *;
    HalfOfMasked(x, m);
    if !Zero(x) {
      ValueBits(Masked(x, m));
      ValueBits(x);
      HalfSmaller(x);
      ValueOfMasked(Half(x), Half(m));
    }
  }

  lemma ReverseTwice(x: bv64)
    ensures Reverse(Reverse(x)) == x
  {
  }

  lemma SameBits(x: bv64, y: bv64)
    requires Half(x) == Half(y) && IsRegular(x) == IsRegular(y)
    ensures x == y
  {
  }

  lemma HalfSmaller(x: bv64)
    ensures Zero(x) ==> Half(x) == x && x == 0
    ensures !Zero(x) ==> Half(x) < x
  {
  }

  lemma {:induction false} ValueInjective(x: bv64, y: bv64)
    requires Value(x) == Value(y)
    ensures x == y
    decreases x, y
  {
    hide *;
    HalfSmaller(x);
    HalfSmaller(y);
    if !Zero(x) || !Zero(y) {
      ValueBits(x);
      ValueBits(y);
      ValueInjective(Half(x), Half(y));
      SameBits(x, y);
    }
  }

  /** At every table size the sentinel of a hash's bucket comes before its regular key. */
  lemma SentinelPrecedes(hash: bv64, k: bv64)
    requires k < 64
    ensures Value(SentinelKey(Bucket(hash, k))) < Value(RegularKey(hash))
  {
    hide *;
    RegularHighBits(hash, k);
    HighIsMasked(RegularKey(hash), k);
    ValueOfMasked(RegularKey(hash), HighMask(64 - k));
    BucketBelow(hash, k);
    RegularKeysAreOdd(hash, Bucket(hash, k));
    ValueBits(RegularKey(hash));
    ValueBits(SentinelKey(Bucket(hash, k)));
  }

  lemma MaskedNone(x: bv64)
    ensures Masked(x, HighMask(0)) == x
  {
  }

  lemma HighMaskShift(n: bv64)
    requires 0 < n <= 64
    ensures HighMask(n) == HighMask(n - 1) << 1
  {
  }

  lemma ShiftedMask(x: bv64, m: bv64)
    ensures Half(Masked(x, m << 1)) == Masked(Half(x), m) && !IsRegular(Masked(x, m << 1))
  {
  }

  lemma MaskedHalf(x: bv64, n: bv64)
    requires 0 < n <= 64
    ensures Half(Masked(x, HighMask(n))) == Masked(Half(x), HighMask(n - 1))
    ensures !IsRegular(Masked(x, HighMask(n)))
  {
    hide *;
    HighMaskShift(n);
    ShiftedMask(x, HighMask(n - 1));
  }

  /** A number without low bits that is not above another one is not above the high bits of that one. */
  lemma {:induction false} ValueOfHigh(x: bv64, y: bv64, n: bv64)
    requires n <= 64 && Masked(x, HighMask(n)) == x && Value(x) <= Value(y)
    ensures Value(x) <= Value(Masked(y, HighMask(n)))
    decreases n
  {
    hide *;
    if n == 0 {
      MaskedNone(y);
    } else {
      MaskedHalf(x, n);
      MaskedHalf(y, n);
      ValueBits(x);
      ValueBits(y);
      ValueBits(Masked(y, HighMask(n)));
      ValueOfHigh(Half(x), Half(y), n - 1);
    }
  }

  /** A bucket `other` of the same table whose sentinel precedes a key precedes the sentinel of the key's bucket too. */
  lemma NoSentinelBetween(hash: bv64, k: bv64, other: bv64)
    requires k < 64 && Bucket(other, k) == other && Value(SentinelKey(other)) <= Value(RegularKey(hash))
    ensures Value(SentinelKey(other)) <= Value(SentinelKey(Bucket(hash, k)))
  {
    hide *;
    RegularHighBits(other, k);
    HighIdempotent(RegularKey(other), k);
    HighIsMasked(SentinelKey(other), k);
    RegularHighBits(hash, k);
    HighIsMasked(RegularKey(hash), k);
    ValueOfHigh(SentinelKey(other), RegularKey(hash), 64 - k);
  }

  lemma HighIsMasked(x: bv64, k: bv64)
    requires k < 64
    ensures High(x, k) == Masked(x, HighMask(64 - k))
  {
  }

  lemma BucketBelow(hash: bv64, k: bv64)
    requires k < 64
    ensures Bucket(hash, k) & REGULAR_BIT == 0
  {
  }

  /** Sentinels of different buckets have different keys. */
  lemma SentinelInjective(b: bv64, c: bv64)
    requires Value(SentinelKey(b)) == Value(SentinelKey(c))
    ensures b == c
  {
    hide Reverse;
    hide Value;
    ReverseTwice(b);
    ReverseTwice(c);
    ValueInjective(SentinelKey(b), SentinelKey(c));
  }

  /** `k` is the position of the highest set bit of a bucket index. */
  predicate IsTopBit(bucket: bv64, k: bv64)
    requires k < 63
  {
    bucket >> k == 1
  }

  /** Clearing the highest set bit of a bucket gives its parent. */
  function Parent(bucket: bv64, k: bv64): bv64
    requires k < 63
  {
    bucket ^ (1 << k)
  }

  function ParentMask(k: bv64): bv64
    requires k < 63
  {
    ALL_ONES ^ (1 << k)
  }

  lemma ParentIsMasked(bucket: bv64, k: bv64)
    requires k < 63 && IsTopBit(bucket, k)
    ensures Parent(bucket, k) == Masked(bucket, ParentMask(k)) && Parent(bucket, k) != bucket
  {
  }

  /** A parent has a smaller index than its child, and its sentinel comes before the child's. */
  lemma ParentPrecedes(bucket: bv64, k: bv64)
    requires k < 63 && IsTopBit(bucket, k)
    ensures Value(Parent(bucket, k)) < Value(bucket)
    ensures Value(SentinelKey(Parent(bucket, k))) < Value(SentinelKey(bucket))
  {
    hide *;
    ParentIsMasked(bucket, k);
    ValueOfMasked(bucket, ParentMask(k));
    SentinelOfMasked(bucket, ParentMask(k));
    ValueOfMasked(SentinelKey(bucket), Reverse(ParentMask(k)));
    if Value(Parent(bucket, k)) == Value(bucket) {
      ValueInjective(Parent(bucket, k), bucket);
    }
    if Value(SentinelKey(Parent(bucket, k))) == Value(SentinelKey(bucket)) {
      SentinelInjective(Parent(bucket, k), bucket);
    }
  }

  lemma SentinelOfMasked(bucket: bv64, mask: bv64)
    ensures SentinelKey(Masked(bucket, mask)) == Masked(SentinelKey(bucket), Reverse(mask))
  {
    hide Reverse;
    hide Masked;
    ReverseMasked(bucket, mask);
  }

  function SegmentSize(seg: nat): nat {
    if seg == 0 then 2 else Pow2(seg)
  }

  /** Where the slot of a bucket lives: segment and offset in it. */
  function Location(bucket: nat): (loc: (nat, nat))
    ensures loc.1 < SegmentSize(loc.0)
  {
    if bucket < 2 then (0, bucket) else (Log2(bucket), bucket - Pow2(Log2(bucket)))
  }

  /** The bucket stored at a location: the inverse of `Location`. */
  function BucketAt(seg: nat, offset: nat): nat {
    if seg == 0 then offset else Pow2(seg) + offset
  }

  /** Distinct buckets have distinct slots. */
  lemma LocationInverse(bucket: nat)
    ensures BucketAt(Location(bucket).0, Location(bucket).1) == bucket
  {
    if bucket >= 2 {
      assert Log2(bucket) > 0 by { assert Pow2(1) == 2; }
    }
  }

  /** Bucket counts never exceed 2^31, so the directory of 32 segments is never overrun. */
  lemma LocationInDirectory(bucket: nat)
    requires bucket < Pow2(31)
    ensures Location(bucket).0 < MAX_SEGMENTS
  {
    if bucket >= 2 && Log2(bucket) >= MAX_SEGMENTS {
      Pow2Monotone(31, Log2(bucket));
    }
  }

  /** The position of a bit, as a number. */
  function Position(k: bv64): nat
    decreases k
  {
    if Zero(k) then 0 else Position(Lower(k)) + 1
  }

  function Lower(k: bv64): bv64 {
    k - 1
  }

  lemma HalfTop(bucket: bv64, k: bv64)
    requires k < 63 && IsTopBit(bucket, k)
    ensures Zero(k) ==> Zero(Half(bucket))
    ensures !Zero(k) ==> Lower(k) < 63 && IsTopBit(Half(bucket), Lower(k))
  {
  }

  /** A bucket whose highest bit is k is less than 2^(k + 1). */
  lemma {:induction false} TopBitBound(bucket: bv64, k: bv64)
    requires k < 63 && IsTopBit(bucket, k)
    ensures Value(bucket) < Pow2(Position(k) + 1)
    decreases Position(k)
  {
    hide Zero;
    hide Lower;
    hide Half;
    hide IsTopBit;
    HalfTop(bucket, k);
    ValueBits(bucket);
    if Zero(k) {
      assert Value(Half(bucket)) == 0;
      assert Pow2(1) == 2;
    } else {
      TopBitBound(Half(bucket), Lower(k));
    }
  }
}
