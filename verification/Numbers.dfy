/** The program's machine integers, its checked, saturating and wrapping operations on
    them, and the few facts about products and quotients that every proof rests on. */
module Numbers {
  import opened Wrappers

  const TWO_64: int := 0x1_0000_0000_0000_0000
  const TWO_128: int := 0x1_0000_0000_0000_0000_0000_0000_0000_0000
  const U64_MAX: u64 := 0xFFFF_FFFF_FFFF_FFFF
  const U128_MAX: u128 := 0xFFFF_FFFF_FFFF_FFFF_FFFF_FFFF_FFFF_FFFF

  type u64 = x: int | 0 <= x < 0x1_0000_0000_0000_0000
  type u128 = x: int | 0 <= x < 0x1_0000_0000_0000_0000_0000_0000_0000_0000

  function Max(a: int, b: int): int {
    if a < b then b else a
  }

  function Min(a: int, b: int): int {
    if a < b then a else b
  }

  /** `u64::try_from(x).ok()` */
  function ToU64(x: int): Option<u64> {
    if 0 <= x < TWO_64 then Some(x) else None
  }

  function ToU128(x: int): Option<u128> {
    if 0 <= x < TWO_128 then Some(x) else None
  }

  /** `x as u64`: the low 64 bits. */
  function Truncate64(x: u128): u64 {
    x % TWO_64
  }

  function CheckedDiv(n: u128, d: u128): (q: Option<u128>) {
    if d == 0 then None else QuotientShrinks(n, d); Some(n / d)
  }

  function SaturatingSub(a: u64, b: u64): u64 {
    if b <= a then a - b else 0
  }

  function WrappingAdd(a: u128, b: u128): u128 {
    (a + b) % TWO_128
  }

  function WrappingMul(a: u128, b: u128): u128 {
    (a * b) % TWO_128
  }

  function WrappingSub(a: u128, b: u128): u128 {
    (a - b) % TWO_128
  }

  lemma QuotientShrinks(n: int, d: int)
    requires n >= 0 && d > 0
    ensures 0 <= n / d <= n
  {
    FloorDiv(n, d);
    if n / d > n {
      MulMono(n + 1, n / d, d);
      assert (n + 1) * d >= n + 1 by { MulMono(1, d, n + 1); }
    }
  }

  /** n / d is the one q with q*d <= n < (q+1)*d. */
  lemma FloorDiv(n: int, d: int)
    requires n >= 0 && d > 0
    ensures n / d >= 0
    ensures (n / d) * d <= n < (n / d) * d + d
  {
  }

  lemma DivIs(n: int, d: int, q: int)
    requires n >= 0 && d > 0
    requires q * d <= n < q * d + d
    ensures n / d == q
  {
    FloorDiv(n, d);
    var r := n / d;
    if r < q {
      MulMono(r + 1, q, d);
    } else if q < r {
      MulMono(q + 1, r, d);
    }
  }

  lemma OneMore(a: int, c: int)
    ensures (a + 1) * c == a * c + c && (a - 1) * c == a * c - c
  {
  }

  lemma MulMono(a: int, b: int, c: int)
    requires a <= b && c >= 0
    ensures a * c <= b * c
  {
  }

  lemma MulStrict(a: int, b: int, c: int)
    requires a < b && c > 0
    ensures a * c < b * c
  {
  }

  /** A common positive factor can be dropped from an inequality. */
  lemma MulCancel(a: int, b: int, c: int)
    requires c > 0 && a * c <= b * c
    ensures a <= b
  {
    if b < a {
      MulStrict(b, a, c);
    }
  }

  /** n / d is below b as soon as n < b*d. */
  lemma DivBelow(n: int, d: int, b: int)
    requires n >= 0 && d > 0 && n < b * d
    ensures n / d < b
  {
    FloorDiv(n, d);
    if n / d >= b {
      MulMono(b, n / d, d);
    }
  }

  /** n / d is at least b as soon as b*d <= n. */
  lemma DivAtLeast(n: int, d: int, b: int)
    requires n >= 0 && d > 0 && b * d <= n
    ensures b <= n / d
  {
    FloorDiv(n, d);
    if n / d < b {
      MulMono(n / d + 1, b, d);
    }
  }

  lemma DivMono(m: int, n: int, d: int)
    requires 0 <= m <= n && d > 0
    ensures m / d <= n / d
  {
    FloorDiv(m, d);
    DivAtLeast(n, d, m / d);
  }

  lemma MulBounds(a: int, b: int, m: int, n: int)
    requires 0 <= a <= m && 0 <= b <= n
    ensures 0 <= a * b <= m * n
  {
    MulMono(a, m, b);
    MulMono(b, n, m);
  }

  /** The product of two u64 values leaves room in a u128 for two more of them. */
  lemma ProductFits(a: u64, b: u64)
    ensures 0 <= a * b < TWO_128 - 2 * TWO_64 + 2
  {
    MulBounds(a, b, TWO_64 - 1, TWO_64 - 1);
    assert (TWO_64 - 1) * (TWO_64 - 1) == TWO_128 - 2 * TWO_64 + 1;
  }
}
