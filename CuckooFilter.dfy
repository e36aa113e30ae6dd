/**
 * Guardian.Algorithm.CuckooFilter: a fixed array of fixed-size buckets of 16-bit fingerprints,
 * where 0 marks an empty slot. An item's fingerprint may sit in its primary bucket (Index1) or in
 * the alternate bucket (Index2 of the primary bucket and the fingerprint); Add relocates resident
 * fingerprints to their own alternate buckets when both are full.
 */
module Cuckoo {
  import opened Wrappers
  import opened BitOps
  import MurmurHash3

  type byte = MurmurHash3.byte

  /** A 32-bit hash value as a natural number. */
  function ToNat(h: bv32): nat
  {
    h as int
  }

  /** ushort */
  newtype u16 = x: int | 0 <= x < 0x1_0000

  const FingerprintSeed: bv32 := 0
  const Index1Seed: bv32 := 0x9747b28c
  const Index2Seed: bv32 := 0x85ebca6b

  /** The constructor's default arguments. */
  const DefaultBucketSize: int := 4
  const DefaultFingerprintBits: int := 12
  const DefaultMaxKicks: int := 500

  /** The exceptions the constructor can raise. */
  datatype CuckooError =
    | FingerprintBitsOutOfRange   // ArgumentOutOfRangeException
    | DivideByZero                // capacity / bucketSize with bucketSize == 0
    | DivisionOverflow            // OverflowException from int.MinValue / -1
    | NegativeBucketSize          // OverflowException from new ushort[bucketSize] with bucketSize < 0

  // ---------------------------------------------------------------------------------------------
  // Bucket contents

  function Zeros(n: nat): (s: seq<u16>)
    ensures |s| == n && forall j :: 0 <= j < n ==> s[j] == 0
  {
    seq(n, _ => 0)
  }

  /** The number of occupied (nonzero) slots of a bucket. */
  function Occupied(s: seq<u16>): nat
  {
    if |s| == 0 then 0 else (if s[0] == 0 then 0 else 1) + Occupied(s[1..])
  }

  /** The number of occupied slots of all buckets. */
  function TotalOccupied(cs: seq<seq<u16>>): nat
  {
    if |cs| == 0 then 0 else Occupied(cs[0]) + TotalOccupied(cs[1..])
  }

  function Nonzero(v: u16): nat
  {
    if v == 0 then 0 else 1
  }

  /** The position of the first slot holding x. */
  function FirstIndexOf(s: seq<u16>, x: u16): (j: nat)
    requires x in s
    ensures j < |s| && s[j] == x
    ensures forall k :: 0 <= k < j ==> s[k] != x
  {
    if s[0] == x then 0 else 1 + FirstIndexOf(s[1..], x)
  }

  /** The bucket after writing f into its first empty slot. */
  function InsertFirstFree(s: seq<u16>, f: u16): seq<u16>
    requires 0 in s
  {
    s[FirstIndexOf(s, 0) := f]
  }

  /** The bucket after emptying the first slot holding f. */
  function DeleteFirst(s: seq<u16>, f: u16): seq<u16>
    requires f in s
  {
    s[FirstIndexOf(s, f) := 0]
  }

  lemma {:induction false} OccupiedUpdate(s: seq<u16>, j: nat, v: u16)
    requires j < |s|
    ensures Occupied(s[j := v]) == Occupied(s) - Nonzero(s[j]) + Nonzero(v)
    decreases j
  {
    if j > 0 {
      assert s[j := v][1..] == s[1..][j - 1 := v];
      OccupiedUpdate(s[1..], j - 1, v);
    } else {
      assert s[j := v][1..] == s[1..];
    }
  }

  lemma {:induction false} TotalUpdate(cs: seq<seq<u16>>, i: nat, s: seq<u16>)
    requires i < |cs|
    ensures TotalOccupied(cs[i := s]) == TotalOccupied(cs) - Occupied(cs[i]) + Occupied(s)
    decreases i
  {
    if i > 0 {
      assert cs[i := s][1..] == cs[1..][i - 1 := s];
      TotalUpdate(cs[1..], i - 1, s);
    } else {
      assert cs[i := s][1..] == cs[1..];
    }
  }

  lemma {:induction false} ZerosUnoccupied(n: nat)
    ensures Occupied(Zeros(n)) == 0
  {
    if n > 0 {
      assert Zeros(n)[1..] == Zeros(n - 1);
      ZerosUnoccupied(n - 1);
    }
  }

  lemma {:induction false} EmptyBucketsUnoccupied(cs: seq<seq<u16>>, size: nat)
    requires forall i :: 0 <= i < |cs| ==> cs[i] == Zeros(size)
    ensures TotalOccupied(cs) == 0
  {
    if |cs| > 0 {
      ZerosUnoccupied(size);
      EmptyBucketsUnoccupied(cs[1..], size);
    }
  }

  /** Writing a nonzero fingerprint into an empty slot occupies one more slot. */
  lemma InsertOccupiesOne(cs: seq<seq<u16>>, i: nat, f: u16)
    requires i < |cs| && 0 in cs[i] && f != 0
    ensures TotalOccupied(cs[i := InsertFirstFree(cs[i], f)]) == TotalOccupied(cs) + 1
  {
    OccupiedUpdate(cs[i], FirstIndexOf(cs[i], 0), f);
    TotalUpdate(cs, i, InsertFirstFree(cs[i], f));
  }

  /** Emptying a slot that holds a nonzero fingerprint frees one slot. */
  lemma DeleteFreesOne(cs: seq<seq<u16>>, i: nat, f: u16)
    requires i < |cs| && f in cs[i] && f != 0
    ensures TotalOccupied(cs[i := DeleteFirst(cs[i], f)]) == TotalOccupied(cs) - 1
  {
    OccupiedUpdate(cs[i], FirstIndexOf(cs[i], f), 0);
    TotalUpdate(cs, i, DeleteFirst(cs[i], f));
  }

  /** Replacing an occupied slot by a nonzero fingerprint keeps the count. */
  lemma SwapKeepsCount(cs: seq<seq<u16>>, i: nat, slot: nat, f: u16)
    requires i < |cs| && slot < |cs[i]| && cs[i][slot] != 0 && f != 0
    ensures TotalOccupied(cs[i := cs[i][slot := f]]) == TotalOccupied(cs)
  {
    OccupiedUpdate(cs[i], slot, f);
    TotalUpdate(cs, i, cs[i][slot := f]);
  }

  // ---------------------------------------------------------------------------------------------
  // Hashing an item to its fingerprint and buckets

  /** (ushort)(hash & mask), with 0 (the empty marker) replaced by 1; mask + 1 is a power of two. */
  function FingerprintOf(hash: nat, mask: nat): (f: u16)
    requires 1 <= mask < 0x1_0000 && IsPow2(mask + 1)
    ensures 1 <= f as int <= mask
  {
    var v := LowBits(hash, mask + 1);
    if v == 0 then 1 else v as u16
  }

  /** BitConverter.GetBytes(ushort) on a little-endian host. */
  function LittleEndian(f: u16): seq<byte>
  {
    [(f % 256) as byte, (f / 256) as byte]
  }

  /** The one 32-bit division whose quotient does not fit: int.MinValue / -1 throws. */
  predicate DivisionOverflows(a: int, b: int)
  {
    a == -0x8000_0000 && b == -1
  }

  /**
   * C#'s integer division, which truncates toward zero: the remainder is smaller than the divisor
   * in magnitude and is zero or has the sign of the dividend.
   */
  function TruncDiv(a: int, b: int): (q: int)
    requires b != 0 && !DivisionOverflows(a, b)
    ensures b > 0 && a >= 0 ==> q == a / b
    ensures var rem := a - q * b;
      && (if rem < 0 then -rem else rem) < (if b < 0 then -b else b)
      && (rem == 0 || (rem < 0) == (a < 0))
  {
    var n := (if a < 0 then -a else a) / (if b < 0 then -b else b);
    if (a < 0) == (b < 0) then n else -n
  }

  /** Math.Max(1, capacity / bucketSize): the least number of buckets the constructor asks for. */
  function BucketTarget(capacity: int, bucketSize: int): (t: int)
    requires bucketSize != 0 && !DivisionOverflows(capacity, bucketSize)
    ensures t >= 1
    ensures bucketSize >= 1 && capacity >= bucketSize ==> t == capacity / bucketSize
    ensures bucketSize >= 1 && capacity < bucketSize ==> t == 1
  {
    var q := TruncDiv(capacity, bucketSize);
    if q < 1 then 1 else q
  }

  class CuckooFilter {
    const bucketCount: nat
    const bucketSize: nat
    const maxKicks: int
    const buckets: array<array<u16>>
    const fingerprintMask: nat
    /** The seeded 32-bit hash; the constructor installs MurmurHash3. */
    const hash: (seq<byte>, bv32) -> bv32

    /** fingerprintMask == 2^Bits - 1 and bucketCount == 2^Log2. */
    ghost const Bits: nat
    ghost const Log2: nat
    /** The bucket arrays, in order, and the set of them. */
    ghost const Inner: seq<array<u16>>
    ghost const Repr: set<object>
    /** The slots of every bucket. */
    ghost var Contents: seq<seq<u16>>

    /** The facts about the constant fields that the index and fingerprint functions need. */
    ghost predicate Params()
    {
      1 <= fingerprintMask < 0x1_0000 && IsPow2(fingerprintMask + 1) && IsPow2(bucketCount) && bucketSize >= 1
    }

    ghost predicate Valid()
      reads this, buckets, Repr
    {
      && Params()
      && 1 <= Bits <= 16 && fingerprintMask == Pow2(Bits) - 1
      && bucketCount == Pow2(Log2)
      && buckets.Length == bucketCount && buckets[..] == Inner
      && Repr == (set a | a in Inner) && buckets !in Repr
      && (forall i, j :: 0 <= i < j < |Inner| ==> Inner[i] != Inner[j])
      && (forall i :: 0 <= i < |Inner| ==> Inner[i].Length == bucketSize)
      && |Contents| == bucketCount
      && (forall i :: 0 <= i < |Inner| ==> Inner[i][..] == Contents[i])
    }

    /** ComputeFingerprint: MurmurHash3 with seed 0, masked, never the empty marker. */
    function ComputeFingerprint(item: seq<byte>): (f: u16)
      requires Params()
      ensures 1 <= f as int <= fingerprintMask
    {
      FingerprintOf(ToNat(hash(item, FingerprintSeed)), fingerprintMask)
    }

    /** Index1: MurmurHash3 with seed 0x9747b28c, masked to a bucket index. */
    function Index1(item: seq<byte>): (i: nat)
      requires Params()
      ensures i < bucketCount
    {
      LowBits(ToNat(hash(item, Index1Seed)), bucketCount)
    }

    /** Index2: index1 xored with the hash of the fingerprint's two bytes, masked to a bucket index. */
    function Index2(index1: nat, f: u16): (i: nat)
      requires Params()
      ensures i < bucketCount
    {
      XorMasked(index1, ToNat(hash(LittleEndian(f), Index2Seed)), bucketCount)
    }

    /** The alternate of the alternate bucket is the original bucket. */
    lemma Index2Involution(i: nat, f: u16)
      requires Params() && i < bucketCount
      ensures Index2(Index2(i, f), f) == i
    {
      XorMaskedInvolution(i, ToNat(hash(LittleEndian(f), Index2Seed)), bucketCount);
      LowBitsIsMod(i, bucketCount);
      DivModUnique(i, bucketCount, 0, i);
    }

    /** The two candidate buckets of an item. */
    ghost predicate Candidate(item: seq<byte>, b: nat)
      requires Params()
    {
      b == Index1(item) || b == Index2(Index1(item), ComputeFingerprint(item))
    }

    /** A fingerprint in a candidate bucket's slots moves to the other candidate bucket. */
    lemma AlternateIsCandidate(item: seq<byte>, b: nat)
      requires Params() && Candidate(item, b)
      ensures Candidate(item, Index2(b, ComputeFingerprint(item)))
    {
      if b != Index1(item) {
        Index2Involution(Index1(item), ComputeFingerprint(item));
      }
    }

    /** The slots cs hold item's fingerprint in one of its two candidate buckets. */
    ghost predicate Holds(cs: seq<seq<u16>>, item: seq<byte>)
      requires Params() && |cs| == bucketCount
    {
      var f := ComputeFingerprint(item);
      var i1 := Index1(item);
      f in cs[i1] || f in cs[Index2(i1, f)]
    }

    /** What Contains(item) reports in the current state. */
    ghost predicate Member(item: seq<byte>)
      reads this
      requires Params() && |Contents| == bucketCount
    {
      Holds(Contents, item)
    }

    /** During relocation, item's fingerprint may be the one in hand, bound for bucket `target`. */
    ghost predicate InHand(item: seq<byte>, hand: u16, target: nat)
      requires Params()
    {
      hand == ComputeFingerprint(item) && Candidate(item, target)
    }

    /** Filling an empty slot of bucket i with f loses no fingerprint, and places f. */
    lemma InsertKeepsHolds(cs: seq<seq<u16>>, i: nat, f: u16, item: seq<byte>)
      requires Params() && |cs| == bucketCount && i < bucketCount && 0 in cs[i]
      requires Holds(cs, item) || InHand(item, f, i)
      ensures Holds(cs[i := InsertFirstFree(cs[i], f)], item)
    {
      var cs' := cs[i := InsertFirstFree(cs[i], f)];
      var fp := ComputeFingerprint(item);
      var p := FirstIndexOf(cs[i], 0);
      if InHand(item, f, i) {
        assert cs'[i][p] == fp;
      } else {
        var b := if fp in cs[Index1(item)] then Index1(item) else Index2(Index1(item), fp);
        assert fp in cs[b];
        if b == i {
          var q := FirstIndexOf(cs[i], fp);
          assert q != p;
          assert cs'[b][q] == fp;
        } else {
          assert cs'[b] == cs[b];
        }
      }
    }

    /** Swapping the hand into slot `slot` of bucket i: the old hand is placed, the victim is in hand. */
    lemma SwapKeepsHolds(cs: seq<seq<u16>>, i: nat, slot: nat, hand: u16, item: seq<byte>)
      requires Params() && |cs| == bucketCount && i < bucketCount && slot < |cs[i]|
      requires Holds(cs, item) || InHand(item, hand, i)
      ensures var victim := cs[i][slot];
        Holds(cs[i := cs[i][slot := hand]], item) || InHand(item, victim, Index2(i, victim))
    {
      var cs' := cs[i := cs[i][slot := hand]];
      var victim := cs[i][slot];
      var fp := ComputeFingerprint(item);
      if InHand(item, hand, i) {
        assert cs'[i][slot] == fp;
      } else {
        var b := if fp in cs[Index1(item)] then Index1(item) else Index2(Index1(item), fp);
        assert fp in cs[b];
        if b != i {
          assert cs'[b] == cs[b];
        } else {
          var q := FirstIndexOf(cs[i], fp);
          if q != slot {
            assert cs'[b][q] == fp;
          } else {
            AlternateIsCandidate(item, i);
          }
        }
      }
    }

    /** The constructor's doubling loop: the least power of two that is at least target. */
    static method BucketCountFor(target: int) returns (count: nat, ghost k: nat)
      requires target <= 0x4000_0000
      ensures count == Pow2(k) && count >= target
      ensures k == 0 || Pow2(k - 1) < target
    {
      count := 1;
      k := 0;
      while count < target
        invariant count == Pow2(k)
        invariant k == 0 || Pow2(k - 1) < target
        decreases target - count
      {
        count := count * 2;
        k := k + 1;
      }
    }

    /** count distinct, newly allocated buckets of `size` empty slots. */
    static method NewBuckets(count: nat, size: nat) returns (inner: seq<array<u16>>)
      ensures |inner| == count
      ensures forall j :: 0 <= j < count ==> fresh(inner[j])
      ensures forall j :: 0 <= j < count ==> inner[j].Length == size && inner[j][..] == Zeros(size)
      ensures forall j, j' :: 0 <= j < j' < count ==> inner[j] != inner[j']
    {
      inner := [];
      var i := 0;
      while i < count
        invariant i == |inner| <= count
        invariant forall j :: 0 <= j < i ==> fresh(inner[j])
        invariant forall j :: 0 <= j < i ==> inner[j].Length == size && inner[j][..] == Zeros(size)
        invariant forall j, j' :: 0 <= j < j' < i ==> inner[j] != inner[j']
      {
        var b := new u16[size](_ => 0);
        inner := inner + [b];
        i := i + 1;
      }
    }

    /**
     * The constructor with its argument checks: the fingerprint width is checked first, then the
     * division by bucketSize (by zero, or int.MinValue by -1), then the allocation of the buckets.
     */
    static method Create(capacity: int, bucketSize: int, fingerprintBits: int, maxKicks: int)
      returns (r: Result<CuckooFilter, CuckooError>)
      requires (1 <= fingerprintBits <= 16 && bucketSize != 0 && !DivisionOverflows(capacity, bucketSize))
        ==> BucketTarget(capacity, bucketSize) <= 0x4000_0000
      ensures !(1 <= fingerprintBits <= 16) <==> r == Err(FingerprintBitsOutOfRange)
      ensures 1 <= fingerprintBits <= 16 && bucketSize == 0 <==> r == Err(DivideByZero)
      ensures 1 <= fingerprintBits <= 16 && DivisionOverflows(capacity, bucketSize) <==> r == Err(DivisionOverflow)
      ensures 1 <= fingerprintBits <= 16 && bucketSize < 0 && !DivisionOverflows(capacity, bucketSize)
        <==> r == Err(NegativeBucketSize)
      ensures r.Ok? ==> && r.value.Valid() && fresh(r.value.Repr)
                        && r.value.bucketSize == bucketSize && r.value.maxKicks == maxKicks
                        && r.value.fingerprintMask == Pow2(fingerprintBits) - 1
                        && r.value.Contents == seq(r.value.bucketCount, _ => Zeros(bucketSize))
      ensures r.Ok? ==> && r.value.hash == MurmurHash3.Hash
                        && r.value.bucketCount == Pow2(r.value.Log2)
                        && r.value.bucketCount >= BucketTarget(capacity, bucketSize)
                        && (r.value.Log2 == 0 || Pow2(r.value.Log2 - 1) < BucketTarget(capacity, bucketSize))
    {
      if !(1 <= fingerprintBits <= 16) {
        return Err(FingerprintBitsOutOfRange);
      }
      if bucketSize == 0 {
        return Err(DivideByZero);
      }
      if DivisionOverflows(capacity, bucketSize) {
        return Err(DivisionOverflow);
      }
      if bucketSize < 0 {
        return Err(NegativeBucketSize);
      }
      var filter := new CuckooFilter(capacity, bucketSize, fingerprintBits, maxKicks);
      return Ok(filter);
    }

    /** The filter for `capacity` items: bucketCount is the least power of two >= BucketTarget. */
    constructor (capacity: int, bucketSize: int, fingerprintBits: int, maxKicks: int)
      requires 1 <= fingerprintBits <= 16 && bucketSize >= 1
      requires BucketTarget(capacity, bucketSize) <= 0x4000_0000
      ensures Valid() && fresh(Repr) && fresh(buckets)
      ensures this.bucketSize == bucketSize && this.maxKicks == maxKicks && hash == MurmurHash3.Hash
      ensures fingerprintMask == Pow2(fingerprintBits) - 1
      ensures bucketCount == Pow2(Log2) && bucketCount >= BucketTarget(capacity, bucketSize)
      ensures Log2 == 0 || Pow2(Log2 - 1) < BucketTarget(capacity, bucketSize)
      ensures Contents == seq(bucketCount, _ => Zeros(bucketSize))
    {
      var target := BucketTarget(capacity, bucketSize);
      var count, k := BucketCountFor(target);
      var inner := NewBuckets(count, bucketSize);
      Pow2Upto16(fingerprintBits);
      Pow2IsPow2(k);
      Pow2IsPow2(fingerprintBits);
      this.bucketSize := bucketSize;
      this.maxKicks := maxKicks;
      hash := MurmurHash3.Hash;
      Bits := fingerprintBits;
      fingerprintMask := Pow2(fingerprintBits) - 1;
      bucketCount := count;
      Log2 := k;
      buckets := new array<u16>[count](j requires 0 <= j < |inner| => inner[j]);
      Inner := inner;
      Repr := set a | a in inner;
      Contents := seq(count, _ => Zeros(bucketSize));
    }

    /** TryInsert: write f into the first empty slot of bucket `index`; false if it has none. */
    method TryInsert(index: nat, f: u16) returns (ok: bool)
      requires Valid() && index < bucketCount
      modifies this, buckets[index]
      ensures Valid()
      ensures ok == (0 in old(Contents[index]))
      ensures ok ==> Contents == old(Contents[index := InsertFirstFree(Contents[index], f)])
      ensures !ok ==> Contents == old(Contents)
    {
      var bucket := buckets[index];
      var i := 0;
      while i < bucketSize
        invariant i <= bucketSize
        invariant forall j :: 0 <= j < i ==> bucket[j] != 0
        invariant Valid() && Contents == old(Contents)
      {
        if bucket[i] == 0 {
          assert FirstIndexOf(Contents[index], 0) == i;
          bucket[i] := f;
          Contents := Contents[index := bucket[..]];
          return true;
        }
        i := i + 1;
      }
      return false;
    }

    /** Contains(index, f): whether bucket `index` holds f. */
    method ContainsAt(index: nat, f: u16) returns (b: bool)
      requires Valid() && index < bucketCount
      ensures b == (f in Contents[index])
    {
      var i := 0;
      while i < buckets[index].Length
        invariant i <= buckets[index].Length
        invariant forall j :: 0 <= j < i ==> buckets[index][j] != f
      {
        if buckets[index][i] == f {
          return true;
        }
        i := i + 1;
      }
      return false;
    }

    /** TryDelete: empty the first slot of bucket `index` holding f; false if there is none. */
    method TryDelete(index: nat, f: u16) returns (ok: bool)
      requires Valid() && index < bucketCount
      modifies this, buckets[index]
      ensures Valid()
      ensures ok == (f in old(Contents[index]))
      ensures ok ==> Contents == old(Contents[index := DeleteFirst(Contents[index], f)])
      ensures !ok ==> Contents == old(Contents)
    {
      var bucket := buckets[index];
      var i := 0;
      while i < bucketSize
        invariant i <= bucketSize
        invariant forall j :: 0 <= j < i ==> bucket[j] != f
        invariant Valid() && Contents == old(Contents)
      {
        if bucket[i] == f {
          assert FirstIndexOf(Contents[index], f) == i;
          bucket[i] := 0;
          Contents := Contents[index := bucket[..]];
          return true;
        }
        i := i + 1;
      }
      return false;
    }

    /** Contains(item): the fingerprint is in the primary or the alternate bucket. Nothing changes. */
    method Contains(item: seq<byte>) returns (b: bool)
      requires Valid()
      ensures b == Member(item)
    {
      var fingerprint := ComputeFingerprint(item);
      var index1 := Index1(item);
      var index2 := Index2(index1, fingerprint);
      b := ContainsAt(index1, fingerprint);
      if !b {
        b := ContainsAt(index2, fingerprint);
      }
    }

    /** Remove(item): empties at most one slot, the first holding the fingerprint, bucket index1 first. */
    method Remove(item: seq<byte>) returns (ok: bool)
      requires Valid()
      modifies this, Repr
      ensures Valid()
      ensures var f := ComputeFingerprint(item);
        var i1 := Index1(item);
        var i2 := Index2(i1, f);
        && ok == old(Member(item))
        && (f in old(Contents[i1]) ==> Contents == old(Contents[i1 := DeleteFirst(Contents[i1], f)]))
        && (f !in old(Contents[i1]) && f in old(Contents[i2]) ==> Contents == old(Contents[i2 := DeleteFirst(Contents[i2], f)]))
        && (!ok ==> Contents == old(Contents))
      ensures TotalOccupied(Contents) == old(TotalOccupied(Contents)) - (if ok then 1 else 0)
    {
      var fingerprint := ComputeFingerprint(item);
      var index1 := Index1(item);
      var index2 := Index2(index1, fingerprint);
      ok := TryDelete(index1, fingerprint);
      if ok {
        DeleteFreesOne(old(Contents), index1, fingerprint);
      } else {
        ok := TryDelete(index2, fingerprint);
        if ok {
          DeleteFreesOne(old(Contents), index2, fingerprint);
        }
      }
    }

    /** Array.Clear on one bucket: every slot of bucket `index` becomes empty. */
    method ClearBucket(index: nat)
      requires Valid() && index < bucketCount
      modifies this, buckets[index]
      ensures Valid()
      ensures Contents == old(Contents[index := Zeros(bucketSize)])
    {
      var bucket := buckets[index];
      forall j | 0 <= j < bucket.Length {
        bucket[j] := 0;
      }
      assert bucket[..] == Zeros(bucketSize);
      Contents := Contents[index := bucket[..]];
    }

    /** Clear: every slot becomes empty; the buckets themselves stay. */
    method Clear()
      requires Valid()
      modifies this, Repr
      ensures Valid()
      ensures Contents == seq(bucketCount, _ => Zeros(bucketSize))
      ensures TotalOccupied(Contents) == 0
      ensures forall item :: !Member(item)
    {
      var i := 0;
      while i < buckets.Length
        invariant i <= buckets.Length
        invariant Valid()
        invariant forall j :: 0 <= j < i ==> Contents[j] == Zeros(bucketSize)
      {
        ClearBucket(i);
        i := i + 1;
      }
      EmptyBucketsUnoccupied(Contents, bucketSize);
    }

    /**
     * Add(item): place the fingerprint in an empty slot of either bucket; if both are full, swap it
     * into a chosen slot of one of them and move the displaced fingerprint to its own alternate
     * bucket, up to maxKicks times. The random choices of the original are arbitrary choices here.
     */
    method Add(item: seq<byte>) returns (ok: bool)
      requires Valid()
      modifies this, Repr
      ensures Valid()
      ensures ok ==> Member(item)
      ensures ok ==> forall y :: old(Member(y)) ==> Member(y)
      ensures TotalOccupied(Contents) == old(TotalOccupied(Contents)) + (if ok then 1 else 0)
    {
      ghost var start := Contents;
      var fingerprint := ComputeFingerprint(item);
      var index1 := Index1(item);
      var index2 := Index2(index1, fingerprint);

      ok := TryInsert(index1, fingerprint);
      if ok {
        InsertPlaces(start, start, index1, fingerprint, item);
        return;
      }
      ok := TryInsert(index2, fingerprint);
      if ok {
        InsertPlaces(start, start, index2, fingerprint, item);
        return;
      }

      var coin :| 0 <= coin < 2;
      var index := if coin == 0 then index1 else index2;
      ok := Relocate(item, fingerprint, index);
    }

    /** Add's swap of the fingerprint in hand with slot `slot` of bucket `index`. */
    method Swap(index: nat, slot: nat, f: u16) returns (victim: u16)
      requires Valid() && index < bucketCount && slot < bucketSize
      modifies this, buckets[index]
      ensures Valid()
      ensures victim == old(Contents[index][slot])
      ensures Contents == old(Contents[index := Contents[index][slot := f]])
    {
      var bucket := buckets[index];
      victim := bucket[slot];
      bucket[slot] := f;
      Contents := Contents[index := bucket[..]];
    }

    /**
     * Add's kick loop: starting with item's fingerprint in hand bound for its candidate bucket
     * `index`, which is full, swap the hand into a chosen slot and try to place the displaced
     * fingerprint in its alternate bucket, at most maxKicks times.
     */
    method Relocate(item: seq<byte>, fingerprint: u16, index: nat) returns (ok: bool)
      requires Valid() && index < bucketCount && 0 !in Contents[index]
      requires fingerprint == ComputeFingerprint(item) && Candidate(item, index)
      modifies this, Repr
      ensures Valid()
      ensures ok ==> Member(item)
      ensures ok ==> forall y :: old(Member(y)) ==> Member(y)
      ensures TotalOccupied(Contents) == old(TotalOccupied(Contents)) + (if ok then 1 else 0)
    {
      ghost var start := Contents;
      var hand := fingerprint;
      var target: nat := index;
      var i := 0;
      while i < maxKicks
        invariant Valid()
        invariant target < bucketCount && hand != 0 && 0 !in Contents[target]
        invariant Holds(Contents, item) || InHand(item, hand, target)
        invariant forall y :: Holds(start, y) ==> Holds(Contents, y) || InHand(y, hand, target)
        invariant TotalOccupied(Contents) == TotalOccupied(start)
      {
        var slot :| 0 <= slot < bucketSize;
        ghost var before := Contents;
        var victim := Swap(target, slot, hand);
        SwapPreserves(before, target, slot, hand, start, item);
        hand := victim;
        target := Index2(target, hand);
        ghost var swapped := Contents;
        ok := TryInsert(target, hand);
        if ok {
          InsertPlaces(start, swapped, target, hand, item);
          return;
        }
        i := i + 1;
      }
      ok := false;
    }

    /** The swap step of Add keeps the relocation invariant and the count. */
    lemma SwapPreserves(cs: seq<seq<u16>>, i: nat, slot: nat, hand: u16, start: seq<seq<u16>>, item: seq<byte>)
      requires Params() && |cs| == bucketCount && |start| == bucketCount && i < bucketCount && slot < |cs[i]|
      requires hand != 0 && 0 !in cs[i]
      requires Holds(cs, item) || InHand(item, hand, i)
      requires forall y :: Holds(start, y) ==> Holds(cs, y) || InHand(y, hand, i)
      ensures var victim := cs[i][slot];
        var next := cs[i := cs[i][slot := hand]];
        && victim != 0
        && (Holds(next, item) || InHand(item, victim, Index2(i, victim)))
        && (forall y :: Holds(start, y) ==> Holds(next, y) || InHand(y, victim, Index2(i, victim)))
        && TotalOccupied(next) == TotalOccupied(cs)
    {
      SwapKeepsHolds(cs, i, slot, hand, item);
      forall y | Holds(start, y)
        ensures Holds(cs[i := cs[i][slot := hand]], y) || InHand(y, cs[i][slot], Index2(i, cs[i][slot]))
      {
        SwapKeepsHolds(cs, i, slot, hand, y);
      }
      SwapKeepsCount(cs, i, slot, hand);
    }

    /**
     * The successful insertion that ends Add: every fingerprint held in `start`, and the item's,
     * is held afterwards, and one more slot is occupied.
     */
    lemma InsertPlaces(start: seq<seq<u16>>, cs: seq<seq<u16>>, index: nat, hand: u16, item: seq<byte>)
      requires Params() && |start| == bucketCount && |cs| == bucketCount && index < bucketCount
      requires 0 in cs[index] && hand != 0
      requires Holds(cs, item) || InHand(item, hand, index)
      requires forall y :: Holds(start, y) ==> Holds(cs, y) || InHand(y, hand, index)
      ensures Holds(cs[index := InsertFirstFree(cs[index], hand)], item)
      ensures forall y :: Holds(start, y) ==> Holds(cs[index := InsertFirstFree(cs[index], hand)], y)
      ensures TotalOccupied(cs[index := InsertFirstFree(cs[index], hand)]) == TotalOccupied(cs) + 1
    {
      InsertKeepsHolds(cs, index, hand, item);
      forall y | Holds(start, y)
        ensures Holds(cs[index := InsertFirstFree(cs[index], hand)], y)
      {
        InsertKeepsHolds(cs, index, hand, y);
      }
      InsertOccupiesOne(cs, index, hand);
    }
  }
}
