/**
 * Powers of two and the low-bit exclusive-or that the cuckoo filter's alternate index uses,
 * stated on unbounded naturals: for a power of two m, `x & (m - 1)` is `x % m`, and
 * `(a ^ b) & (m - 1)` is XorMasked(a, b, m).
 */
module BitOps {

  function Pow2(k: nat): (p: nat)
    ensures p >= 1
  {
    if k == 0 then 1 else 2 * Pow2(k - 1)
  }

  lemma {:induction false} Pow2Monotone(j: nat, k: nat)
    requires j <= k
    ensures Pow2(j) <= Pow2(k)
    decreases k
  {
    if j < k {
      Pow2Monotone(j, k - 1);
    }
  }

  /** A mask of 1 to 16 low bits fits a ushort. */
  lemma Pow2Upto16(k: nat)
    requires 1 <= k <= 16
    ensures 2 <= Pow2(k) <= 0x1_0000
  {
    Pow2Monotone(1, k);
    Pow2Monotone(k, 16);
  }

  /** m is 1, 2, 4, 8, ... */
  predicate IsPow2(m: nat)
    decreases m
  {
    m == 1 || (m >= 2 && m % 2 == 0 && IsPow2(m / 2))
  }

  lemma {:induction false} Pow2IsPow2(k: nat)
    ensures IsPow2(Pow2(k))
  {
    if k > 0 {
      Pow2IsPow2(k - 1);
      assert Pow2(k) / 2 == Pow2(k - 1);
    }
  }

  /** The low log2(m) bits of a, for a power of two m: a & (m - 1). */
  function LowBits(a: nat, m: nat): (r: nat)
    requires IsPow2(m)
    ensures r < m
    decreases m
  {
    if m == 1 then 0 else 2 * LowBits(a / 2, m / 2) + a % 2
  }

  /** The low log2(m) bits of a xor b, for a power of two m. */
  function XorMasked(a: nat, b: nat, m: nat): (r: nat)
    requires IsPow2(m)
    ensures r < m
    decreases m
  {
    if m == 1 then 0
    else 2 * XorMasked(a / 2, b / 2, m / 2) + (if a % 2 == b % 2 then 0 else 1)
  }

  lemma {:induction false} MulAtLeast(m: int, d: int)
    requires m > 0 && d >= 1
    ensures m * d >= m
    decreases d
  {
    if d > 1 {
      MulAtLeast(m, d - 1);
      assert m * d == m * (d - 1) + m;
    }
  }

  /** Division by m > 0 has a unique quotient and remainder. */
  lemma DivModUnique(a: int, m: int, q: int, r: int)
    requires m > 0 && a == m * q + r && 0 <= r < m
    ensures a % m == r && a / m == q
  {
    var q' := a / m;
    var r' := a % m;
    assert a == m * q' + r';
    assert m * q - m * q' == r' - r;
    if q > q' {
      assert m * (q - q') == m * q - m * q';
      MulAtLeast(m, q - q');
    } else if q < q' {
      assert m * (q' - q) == m * q' - m * q;
      MulAtLeast(m, q' - q);
    }
  }

  /** Reducing modulo an even m takes the lowest bit off and reduces the rest modulo m / 2. */
  lemma ModHalving(a: nat, m: nat)
    requires m >= 2 && m % 2 == 0
    ensures a % m == 2 * ((a / 2) % (m / 2)) + a % 2
  {
    var h := m / 2;
    var q := a / 2;
    var t := q / h;
    var s := q % h;
    assert q == h * t + s;
    assert a == m * t + (2 * s + a % 2);
    DivModUnique(a, m, t, 2 * s + a % 2);
  }

  /** Masking the low bits is reduction modulo the power of two. */
  lemma {:induction false} LowBitsIsMod(a: nat, m: nat)
    requires IsPow2(m)
    ensures LowBits(a, m) == a % m
    decreases m
  {
    if m > 1 {
      LowBitsIsMod(a / 2, m / 2);
      ModHalving(a, m);
    }
  }

  /** Xoring the same masked value twice gives back the masked original. */
  lemma {:induction false} XorMaskedInvolution(a: nat, b: nat, m: nat)
    requires IsPow2(m)
    ensures XorMasked(XorMasked(a, b, m), b, m) == LowBits(a, m)
    decreases m
  {
    if m > 1 {
      var x := XorMasked(a, b, m);
      var low := if a % 2 == b % 2 then 0 else 1;
      assert x == 2 * XorMasked(a / 2, b / 2, m / 2) + low;
      assert x / 2 == XorMasked(a / 2, b / 2, m / 2);
      assert x % 2 == low;
      XorMaskedInvolution(a / 2, b / 2, m / 2);
    }
  }
}
