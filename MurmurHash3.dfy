/**
 * MurmurHash3, 32-bit x86 variant (Guardian.Algorithm.MurmurHash3.Hash128Bit32):
 * 4-byte little-endian body blocks, a 1-3 byte tail and the fmix32 avalanche.
 * All arithmetic is on bv32, i.e. modulo 2^32 like the original's uint.
 */
module MurmurHash3 {

  type byte = bv8

  const C1: bv32 := 0xcc9e2d51
  const C2: bv32 := 0x1b873593

  /** Rotation by the two distances the hash uses (13 and 15), with the shifts written out. */
  function RotateLeft(x: bv32, r: nat): bv32
    requires r == 13 || r == 15
  {
    if r == 13 then (x << 13) | (x >> 19) else (x << 15) | (x >> 17)
  }

  /** RotateLeft is the machine rotation by r. */
  lemma RotateLeftIsRotation(x: bv32)
    ensures RotateLeft(x, 13) == x.RotateLeft(13)
    ensures RotateLeft(x, 15) == x.RotateLeft(15)
  {
  }

  /** The 32-bit word stored little-endian at data[i..i+4] (BitConverter.ToUInt32 on x86). */
  function GetBlock(data: seq<byte>, i: nat): bv32
    requires i + 4 <= |data|
  {
    (data[i] as bv32) | ((data[i + 1] as bv32) << 8) | ((data[i + 2] as bv32) << 16) | ((data[i + 3] as bv32) << 24)
  }

  /** GetBlock reads data[i] as the lowest byte and data[i+3] as the highest (little-endian). */
  lemma GetBlockBytes(data: seq<byte>, i: nat)
    requires i + 4 <= |data|
    ensures GetBlock(data, i) & 0xff == data[i] as bv32
    ensures (GetBlock(data, i) >> 8) & 0xff == data[i + 1] as bv32
    ensures (GetBlock(data, i) >> 16) & 0xff == data[i + 2] as bv32
    ensures GetBlock(data, i) >> 24 == data[i + 3] as bv32
  {
  }

  /** The 1-3 tail bytes packed little-endian into one word; the bytes above the tail are zero. */
  function TailWord(tail: seq<byte>): bv32
    requires |tail| < 4
  {
    if |tail| == 0 then 0
    else if |tail| == 1 then tail[0] as bv32
    else if |tail| == 2 then (tail[0] as bv32) | ((tail[1] as bv32) << 8)
    else (tail[0] as bv32) | ((tail[1] as bv32) << 8) | ((tail[2] as bv32) << 16)
  }

  /** The tail bytes sit little-endian in the low bytes of TailWord; every byte above them is zero. */
  lemma TailWordBytes(tail: seq<byte>)
    requires |tail| < 4
    ensures |tail| == 0 ==> TailWord(tail) == 0
    ensures |tail| >= 1 ==> TailWord(tail) & 0xff == tail[0] as bv32
    ensures |tail| >= 2 ==> (TailWord(tail) >> 8) & 0xff == tail[1] as bv32
    ensures |tail| == 3 ==> TailWord(tail) >> 16 == tail[2] as bv32
    ensures |tail| == 1 ==> TailWord(tail) >> 8 == 0
    ensures |tail| == 2 ==> TailWord(tail) >> 16 == 0
  {
  }

  /** k *= c1; k = rotl(k, 15); k *= c2 -- applied to every body block and to the tail word. */
  function MixK(k: bv32): bv32 {
    var k1 := k * C1;
    var k2 := RotateLeft(k1, 15);
    k2 * C2
  }

  /** One body step on the running state: h ^= k; h = rotl(h, 13); h = h * 5 + 0xe6546b64 */
  function MixState(h: bv32, k: bv32): bv32 {
    var h1 := h ^ k;
    var h2 := RotateLeft(h1, 13);
    h2 * 5 + 0xe6546b64
  }

  /** The running state h after mixing body blocks from, ..., n - 1 into it, in that order. */
  function Blocks(data: seq<byte>, from: nat, n: nat, h: bv32): bv32
    requires from <= n && 4 * n <= |data|
    decreases n - from
  {
    if from == n then h else Blocks(data, from + 1, n, MixState(h, MixK(GetBlock(data, 4 * from))))
  }

  /** The tail stage: the tail word is mixed with c1/rotl 15/c2 and xored in, with no rotl-13 or add step. */
  function Tail(h: bv32, tail: seq<byte>): bv32
    requires |tail| < 4
  {
    if |tail| == 0 then h else h ^ MixK(TailWord(tail))
  }

  /** fmix32, the final avalanche: h ^= h >> 16; h *= 0x85ebca6b; h ^= h >> 13; h *= 0xc2b2ae35; h ^= h >> 16 */
  function FMix(h: bv32): bv32 {
    var h1 := h ^ (h >> 16);
    var h2 := h1 * 0x85ebca6b;
    var h3 := h2 ^ (h2 >> 13);
    var h4 := h3 * 0xc2b2ae35;
    h4 ^ (h4 >> 16)
  }

  /** (uint)length: n counted in 32-bit wrap-around arithmetic, i.e. n modulo 2^32. */
  function LengthWord(n: nat): bv32 {
    if n == 0 then 0 else LengthWord(n - 1) + 1
  }

  /** The state after the body blocks and the tail, before finalization. */
  function Mixed(data: seq<byte>, seed: bv32): bv32 {
    var nblocks := |data| / 4;
    Tail(Blocks(data, 0, nblocks, seed), data[nblocks * 4..])
  }

  /** The input of the final avalanche: (uint)length xored into the mixed state. */
  function PreAvalanche(data: seq<byte>, seed: bv32): bv32 {
    Mixed(data, seed) ^ LengthWord(|data|)
  }

  /** The hash of data under seed. */
  function Hash(data: seq<byte>, seed: bv32): bv32 {
    FMix(PreAvalanche(data, seed))
  }

  /** Hash128Bit32: the block loop and the fall-through tail switch of the original. */
  method Hash128Bit32(data: seq<byte>, seed: bv32) returns (h1: bv32)
    ensures h1 == Hash(data, seed)
  {
    var length := |data|;
    var nblocks := length / 4;
    h1 := seed;

    // body
    var i := 0;
    while i < nblocks
      invariant 0 <= i <= nblocks
      invariant Blocks(data, i, nblocks, h1) == Blocks(data, 0, nblocks, seed)
    {
      var k1 := GetBlock(data, 4 * i);
      k1 := MixK(k1);
      h1 := MixState(h1, k1);
      i := i + 1;
    }

    // tail
    var tailIndex := nblocks * 4;
    var hBody := h1;
    h1 := MixTail(data, tailIndex, length % 4, h1);  // switch (length & 3), for a non-negative length
    HashFromStages(data, seed, hBody, h1);

    // finalization
    h1 := h1 ^ LengthWord(length);
    h1 := FMix(h1);
  }

  /** The switch on length & 3 of the tail stage: a non-empty tail is packed, mixed and xored into h. */
  method MixTail(data: seq<byte>, tailIndex: nat, rest: nat, h: bv32) returns (h1: bv32)
    requires tailIndex + rest == |data| && rest < 4
    ensures h1 == Tail(h, data[tailIndex..])
  {
    h1 := h;
    var k2 := PackTail(data, tailIndex, rest);
    assert |data[tailIndex..]| == rest;
    if rest >= 1 {
      k2 := MixK(k2);
      h1 := h1 ^ k2;
    }
  }

  /** The fall-through cases 3, 2 and 1 of the switch: the tail bytes xored into k2 at shifts 16, 8 and 0. */
  method PackTail(data: seq<byte>, tailIndex: nat, rest: nat) returns (k2: bv32)
    requires tailIndex + rest == |data| && rest < 4
    ensures k2 == TailWord(data[tailIndex..])
  {
    k2 := 0;
    if rest == 3 {
      k2 := k2 ^ ((data[tailIndex + 2] as bv32) << 16);
    }
    if rest >= 2 {
      k2 := k2 ^ ((data[tailIndex + 1] as bv32) << 8);
    }
    if rest >= 1 {
      k2 := k2 ^ (data[tailIndex] as bv32);
      TailPacking(data, tailIndex);
    }
  }

  /** The hash assembled from the body state and the state after the tail stage. */
  lemma HashFromStages(data: seq<byte>, seed: bv32, hBody: bv32, hTail: bv32)
    requires hBody == Blocks(data, 0, |data| / 4, seed)
    requires hTail == Tail(hBody, data[(|data| / 4) * 4..])
    ensures Hash(data, seed) == FMix(hTail ^ LengthWord(|data|))
  {
    assert Mixed(data, seed) == hTail;
    assert PreAvalanche(data, seed) == hTail ^ LengthWord(|data|);
  }

  /** The xor cascade of the fall-through switch packs the tail like TailWord. */
  lemma TailPacking(data: seq<byte>, t: nat)
    requires t < |data| < t + 4
    ensures |data| - t == 1 ==> TailWord(data[t..]) == (0 ^ (data[t] as bv32))
    ensures |data| - t == 2 ==> TailWord(data[t..]) == ((0 ^ ((data[t + 1] as bv32) << 8)) ^ (data[t] as bv32))
    ensures |data| - t == 3 ==> TailWord(data[t..]) == (((0 ^ ((data[t + 2] as bv32) << 16)) ^ ((data[t + 1] as bv32) << 8)) ^ (data[t] as bv32))
  {
    var tail := data[t..];
    assert tail[0] == data[t];
    assert |tail| >= 2 ==> tail[1] == data[t + 1];
    assert |tail| == 3 ==> tail[2] == data[t + 2];
  }

  /** Only the blocks at offsets 4 * from, ..., 4 * (n - 1) feed the body state. */
  lemma {:induction false} BlocksReadOnlyBlocks(data: seq<byte>, other: seq<byte>, from: nat, n: nat, h: bv32)
    requires from <= n && 4 * n <= |data| && 4 * n <= |other|
    requires data[4 * from..4 * n] == other[4 * from..4 * n]
    ensures Blocks(data, from, n, h) == Blocks(other, from, n, h)
    decreases n - from
  {
    if from < n {
      forall k | 4 * from <= k < 4 * from + 4
        ensures data[k] == other[k]
      {
        assert data[k] == data[4 * from..4 * n][k - 4 * from];
        assert other[k] == other[4 * from..4 * n][k - 4 * from];
      }
      assert GetBlock(data, 4 * from) == GetBlock(other, 4 * from);
      assert data[4 * (from + 1)..4 * n] == data[4 * from..4 * n][4..];
      assert other[4 * (from + 1)..4 * n] == other[4 * from..4 * n][4..];
      BlocksReadOnlyBlocks(data, other, from + 1, n, MixState(h, MixK(GetBlock(data, 4 * from))));
    }
  }

  /** Empty input: no block, no tail, the length 0 xored in, so the hash is fmix32(seed). */
  lemma HashOfEmpty(seed: bv32)
    ensures Hash([], seed) == FMix(seed)
  {
  }

  /** A length that is a multiple of four leaves the state unchanged in the tail stage. */
  lemma WholeBlocksHaveNoTail(data: seq<byte>, seed: bv32)
    requires |data| % 4 == 0
    ensures Mixed(data, seed) == Blocks(data, 0, |data| / 4, seed)
  {
  }

  /** Published reference values of MurmurHash3_x86_32 for the empty input. */
  lemma ReferenceVectorsEmpty()
    ensures Hash([], 0) == 0
    ensures Hash([], 1) == 0x514e28b7
    ensures Hash([], 0xffffffff) == 0x81f16f39
  {
  }

  /** Published reference values for inputs that are all tail (one to three bytes). */
  lemma ReferenceVectorsTail()
    ensures Hash([0x21], 0) == 0x72661cf4
    ensures Hash([0x21, 0x43], 0) == 0xa0f7b07a
    ensures Hash([0x21, 0x43, 0x65], 0) == 0x7e4a8634
  {
  }

  /** Published reference values for inputs of exactly one body block. */
  lemma ReferenceVectorsBlock()
    ensures Hash([0x21, 0x43, 0x65, 0x87], 0) == 0xf55b516b
    ensures Hash([0x21, 0x43, 0x65, 0x87], 0x5082edee) == 0x2362f9de
    ensures Hash([0, 0, 0, 0], 0) == 0x2362f9de
    ensures Hash([0xff, 0xff, 0xff, 0xff], 0) == 0x76293b50
  {
  }
}
