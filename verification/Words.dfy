/** Machine words of the on-chain program, and powers of two. */
module Words {
  const U32_SIZE: int := 0x1_0000_0000
  const U64_MAX: int := 0xFFFF_FFFF_FFFF_FFFF
  const I64_MAX: int := 0x7FFF_FFFF_FFFF_FFFF
  const I64_MIN: int := -0x8000_0000_0000_0000
  /** Integers below this bound are exact in a JavaScript number. */
  const SAFE_LIMIT: int := 0x20_0000_0000_0000

  type u64 = x: int | 0 <= x <= U64_MAX
  type i64 = x: int | I64_MIN <= x <= I64_MAX

  function SaturatingSubU64(a: u64, b: u64): u64 {
    if a < b then 0 else a - b
  }

  function SaturatingSubI64(a: i64, b: i64): i64 {
    var d := a - b;
    if d < I64_MIN then I64_MIN else if d > I64_MAX then I64_MAX else d
  }

  function Min(a: int, b: int): int {
    if a <= b then a else b
  }

  function Max(a: int, b: int): int {
    if a <= b then b else a
  }

  function CeilDiv(a: nat, b: nat): nat
    requires b > 0
  {
    (a + b - 1) / b
  }

  /** The quotient of naturals, rounded down. */
  function Quotient(a: nat, b: nat): nat
    requires b > 0
  {
    a / b
  }

  function Pow2(n: nat): (p: nat)
    ensures p >= 1
  {
    if n == 0 then 1 else 2 * Pow2(n - 1)
  }

  /** The word shift `x >> n`: one bit dropped at a time. */
  function Shr(x: nat, n: nat): nat {
    if n == 0 then x else Shr(x / 2, n - 1)
  }

  lemma {:induction false} Pow2Monotone(a: nat, b: nat)
    requires a <= b
    ensures Pow2(a) <= Pow2(b)
    decreases b
  {
    if a < b { Pow2Monotone(a, b - 1); }
  }

  /** Dropping `n` bits is dividing by the n-th power of two. */
  lemma {:induction false} ShrIsDivision(x: nat, n: nat)
    ensures Pow2(n) >= 1 && Shr(x, n) == x / Pow2(n)
  {
    if n > 0 {
      ShrIsDivision(x / 2, n - 1);
      HalveThenDivide(x, Pow2(n - 1));
    }
  }

  lemma HalveThenDivide(x: nat, d: nat)
    requires d >= 1
    ensures x / 2 / d == x / (2 * d)
  {
    var q := x / 2 / d;
    var r := (x / 2) % d;
    assert x / 2 == q * d + r;
    assert x == (2 * d) * q + (2 * r + x % 2);
    QuotientUnique(x, 2 * d, q, 2 * r + x % 2);
  }

  lemma QuotientUnique(x: int, d: int, q: int, r: int)
    requires d >= 1 && x == d * q + r && 0 <= r < d
    ensures x / d == q
  {
    var k := x / d;
    if q > k { StepMultiple(d, k, q); }
    if q < k { StepMultiple(d, q, k); }
  }

  lemma StepMultiple(d: int, a: int, b: int)
    requires d >= 1 && a < b
    ensures d * a + d <= d * b
  {
    assert d * (b - a - 1) >= 0;
    assert d * b == d * a + d + d * (b - a - 1);
  }

  lemma {:induction false} ShrAdd(x: nat, a: nat, b: nat)
    ensures Shr(x, a + b) == Shr(Shr(x, a), b)
    decreases a
  {
    if a > 0 { ShrAdd(x / 2, a - 1, b); }
  }

  lemma {:induction false} ShrMonotone(x: nat, y: nat, n: nat)
    requires x <= y
    ensures Shr(x, n) <= Shr(y, n)
    decreases n
  {
    if n > 0 { ShrMonotone(x / 2, y / 2, n - 1); }
  }

  lemma {:induction false} ShrBelow(x: nat, n: nat)
    ensures Shr(x, n) <= x
    decreases n
  {
    if n > 0 { ShrBelow(x / 2, n - 1); }
  }

  /** A larger shift never gives a larger word. */
  lemma ShrAntitone(x: nat, a: nat, b: nat)
    requires a <= b
    ensures Shr(x, b) <= Shr(x, a)
  {
    ShrAdd(x, a, b - a);
    ShrBelow(Shr(x, a), b - a);
  }

  /** A shift clears the word exactly when it drops every significant bit. */
  lemma {:induction false} ShrZero(x: nat, n: nat)
    ensures Shr(x, n) == 0 <==> x < Pow2(n)
    decreases n
  {
    if n > 0 { ShrZero(x / 2, n - 1); }
  }
}
