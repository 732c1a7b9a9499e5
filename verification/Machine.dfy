/** Rust's fixed-width unsigned arithmetic on mathematical integers. Saturating
    operations stop at U32_MAX. A plain `+` or `.sum()` on u32 wraps, as it does in
    a build without overflow checks. */
module Machine {

  const U32_MAX: int := 0xFFFF_FFFF
  const TWO_32: int := 0x1_0000_0000

  type u8 = n: int | 0 <= n < 256
  type u32 = n: int | 0 <= n < 0x1_0000_0000

  function Min(a: int, b: int): int {
    if a <= b then a else b
  }

  function Max(a: int, b: int): int {
    if a <= b then b else a
  }

  /** The nearest u32 at or below `n`: what a saturating chain yields. */
  function Cap(n: nat): u32 {
    if n <= U32_MAX then n else U32_MAX
  }

  /** The u32 left by plain addition or by an `as u32` cast. */
  function Wrap(n: int): u32 {
    n % TWO_32
  }

  function SatAdd(a: u32, b: u32): u32 {
    if a + b <= U32_MAX then a + b else U32_MAX
  }

  /** The product under a name, so that proofs which only move products around need no
      nonlinear arithmetic. */
  function Times(a: nat, b: nat): nat {
    a * b
  }

  lemma TimesIsProduct(a: nat, b: nat)
    ensures Times(a, b) == a * b
  {}

  lemma TimesZero(b: nat)
    ensures Times(0, b) == 0
  {}

  function SatMul(a: u32, b: u32): u32 {
    Cap(Times(a, b))
  }

  function SatSub(a: u32, b: u32): u32 {
    if a < b then 0 else a - b
  }

  function AbsDiff(a: nat, b: nat): (r: nat)
    ensures a <= U32_MAX && b <= U32_MAX ==> r <= U32_MAX
  {
    if a < b then b - a else a - b
  }

  function WrapAdd(a: u32, b: u32): u32 {
    Wrap(a + b)
  }

  /** Saturation is absorbed by a later saturation. */
  lemma CapAbsorbs(a: nat, b: nat)
    ensures SatAdd(Cap(a), Cap(b)) == Cap(a + b)
  {}

  /** A saturated factor: the product saturates to the same value. */
  lemma SatMulTwice(a: u32, b: u32, c: u32)
    ensures SatMul(SatMul(a, b), c) == Cap(Times(a, Times(b, c)))
  {
    var p := a * b;
    TimesIsProduct(a, b);
    TimesIsProduct(Cap(p), c);
    CappedFactor(p, c);
    TimesIsProduct(b, c);
    TimesIsProduct(a, b * c);
    MulAssociates(a, b, c);
  }

  lemma MulAssociates(a: nat, b: nat, c: nat)
    ensures a * (b * c) == (a * b) * c
  {}

  lemma CappedFactor(p: nat, c: nat)
    ensures Cap(p * c) == Cap(Cap(p) * c)
  {
    if p > U32_MAX && c >= 1 {
      assert (p - U32_MAX) * c >= 0 && U32_MAX * (c - 1) >= 0;
    }
  }

  lemma WrapSmall(n: nat)
    requires n <= U32_MAX
    ensures Wrap(n) == n == Cap(n)
  {}

  lemma WrapAbsorbs(a: int, b: int)
    ensures Wrap(Wrap(a) + b) == Wrap(a + b)
    ensures Wrap(a + Wrap(b)) == Wrap(a + b)
  {
    var qa := a / TWO_32;
    assert a == qa * TWO_32 + a % TWO_32;
    assert Wrap(a) + b == a + b - qa * TWO_32;
    ModShift(a + b, -qa);
    var qb := b / TWO_32;
    assert b == qb * TWO_32 + b % TWO_32;
    ModShift(a + b, -qb);
  }

  lemma WrapCongruent(a: int, b: int, c: int, d: int)
    requires Wrap(a) == Wrap(c) && Wrap(b) == Wrap(d)
    ensures Wrap(a + b) == Wrap(c + d)
  {
    WrapAbsorbs(a, b);
    WrapAbsorbs(Wrap(a), b);
    WrapAbsorbs(c, d);
    WrapAbsorbs(Wrap(c), d);
  }

  lemma WrapAddAbsorbs(a: int, b: u32)
    ensures WrapAdd(Wrap(a), b) == Wrap(a + b)
  {
    WrapAbsorbs(a, b);
  }

  lemma ModShift(n: int, q: int)
    ensures (n + q * TWO_32) % TWO_32 == n % TWO_32
  {
    var k := n / TWO_32;
    assert n + q * TWO_32 == (k + q) * TWO_32 + n % TWO_32;
  }
}
