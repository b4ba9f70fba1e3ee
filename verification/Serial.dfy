/** 32-bit serial arithmetic, section 3.2 of RFC 1982, and `compare_u32` of util.c. */
module Serial {

  const M: int := 0x1_0000_0000
  const HALF: int := 0x8000_0000

  type u8 = x: int | 0 <= x < 0x100
  type u16 = x: int | 0 <= x < 0x1_0000
  type u32 = x: int | 0 <= x < 0x1_0000_0000

  function Pow2(n: nat): (p: nat)
    ensures p > 0
  {
    if n == 0 then 1 else 2 * Pow2(n - 1)
  }

  function U32(x: int): u32 {
    x % 0x1_0000_0000
  }

  lemma U32Small(x: u32)
    ensures U32(x) == x
  {
  }

  /** `base + k` in a `uint32_t`. */
  function Plus(base: u32, k: int): (r: u32)
    requires 0 <= k < M
  {
    if base + k < M then base + k else base + k - M
  }

  /** `a - b` in a `uint32_t`. */
  function Minus(a: u32, b: u32): (r: u32) {
    if a >= b then a - b else a - b + M
  }

  /** The signed distance from `b` to `a`: the `d` nearest to zero with `b + d == a` (mod 2^32). */
  function Ahead(a: u32, b: u32): (d: int) {
    if Minus(a, b) < HALF then Minus(a, b) else Minus(a, b) - M
  }

  lemma AheadIsDistance(a: u32, b: u32)
    ensures -HALF <= Ahead(a, b) < HALF
    ensures U32(b + Ahead(a, b)) == a
    ensures Minus(a, b) == U32(a - b)
  {
  }

  lemma AheadOfItself(a: u32)
    ensures Ahead(a, a) == 0 && Plus(a, 0) == a
  {
  }

  /** The comparison of util.c, branch by branch. */
  function CompareU32(s1: u32, s2: u32): int {
    if s1 == s2 then 0
    else if (s1 < s2 && s2 - s1 < 0x7FFF_FFFF) || (s1 > s2 && s1 - s2 > 0x7FFF_FFFF) then -1
    else 1
  }

  /** "Less than" as section 3.2 of RFC 1982 defines it for SERIAL_BITS = 32. */
  ghost predicate Rfc1982Less(s1: u32, s2: u32) {
    (s1 < s2 && s2 - s1 < HALF) || (s1 > s2 && s1 - s2 > HALF)
  }

  /** "Greater than" of the same section; at distance 2^31 the order is undefined. */
  ghost predicate Rfc1982Greater(s1: u32, s2: u32) {
    (s1 < s2 && s2 - s1 > HALF) || (s1 > s2 && s1 - s2 < HALF)
  }

  /** `compare_u32` decides the RFC 1982 order on every pair the RFC orders, except the single
      distance 2^31 - 1 met without a wrap, where it answers "greater" for "less". */
  lemma CompareMeetsRfc1982(s1: u32, s2: u32)
    requires Rfc1982Less(s1, s2) || Rfc1982Greater(s1, s2)
    ensures (CompareU32(s1, s2) < 0 <==> Rfc1982Less(s1, s2)) <==> s2 - s1 != 0x7FFF_FFFF
  {
  }

  /** The exception makes the comparison fail antisymmetry exactly there. */
  lemma CompareAntisymmetric(s1: u32, s2: u32)
    ensures CompareU32(s1, s2) == -CompareU32(s2, s1)
       <==> s2 - s1 != 0x7FFF_FFFF && s1 - s2 != 0x7FFF_FFFF
  {
  }

  lemma SameNumber(a: u32, b: u32)
    ensures CompareU32(a, b) == 0 <==> a == b
  {
  }

  /** Seen from a common base, two numbers less than 2^31 - 1 apart compare as their distances do. */
  lemma CompareFromBase(a: u32, b: u32, base: u32)
    requires -0x7FFF_FFFF < Ahead(a, base) - Ahead(b, base) < 0x7FFF_FFFF
    ensures CompareU32(a, b) < 0 <==> Ahead(a, base) < Ahead(b, base)
    ensures CompareU32(a, b) == 0 <==> Ahead(a, base) == Ahead(b, base)
    ensures CompareU32(a, b) > 0 <==> Ahead(a, base) > Ahead(b, base)
  {
  }

  /** Moving the base forward brings every number closer by the same amount. */
  lemma AheadAfterAdvance(a: u32, base: u32, k: int)
    requires 0 <= k < M
    requires -HALF <= Ahead(a, base) - k
    ensures Ahead(a, Plus(base, k)) == Ahead(a, base) - k
  {
  }

  /** Two ranges near the base end at the same number exactly when they end at the same distance. */
  lemma SameEnd(a: u32, k: int, b: u32, l: int, base: u32)
    requires 0 <= k < 0x1_0000 && 0 <= l < 0x1_0000
    requires -0x7FFF_FFFF < Ahead(a, base) < 0x7FFE_FFFF && -0x7FFF_FFFF < Ahead(b, base) < 0x7FFE_FFFF
    ensures Plus(a, k) == Plus(b, l) <==> Ahead(a, base) + k == Ahead(b, base) + l
  {
  }

  /** The unbounded counter `start + n` advances with its 32-bit image. */
  lemma PlusTracks(start: int, n: int, k: int)
    requires 0 <= k < M
    ensures Plus(U32(start + n), k) == U32(start + n + k)
  {
  }
}
