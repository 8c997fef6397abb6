/** Checked 64-bit arithmetic and the two floor conversions between tokens and shares. */
module FixedPoint {
  import opened Results

  const U64_MAX: int := 0xFFFF_FFFF_FFFF_FFFF
  const NAV_BPS_DENOMINATOR: int := 10_000

  type u64 = n: int | 0 <= n <= U64_MAX
  type u16 = n: int | 0 <= n <= 0xFFFF

  /** Unix seconds on the chain clock. */
  type Time = n: int | 0 <= n <= 0x7FFF_FFFF_FFFF_FFFF

  function CheckedAdd(a: u64, b: u64): Result<u64> {
    if a + b <= U64_MAX then Ok(a + b) else Err(Overflow)
  }

  function CheckedSub(a: u64, b: u64): Result<u64> {
    if b <= a then Ok(a - b) else Err(Overflow)
  }

  function CheckedMul(a: u64, b: u64): Result<u64> {
    var p := a * b;
    if 0 <= p <= U64_MAX then Ok(p) else Err(Overflow)
  }

  function CheckedDiv(a: u64, b: u64): Result<u64> {
    if b == 0 then Err(Overflow) else
      DivisionBounds(a, b);
      Ok(a / b)
  }

  /** Plain `+` under overflow checks: the program aborts instead of wrapping. */
  function PanickingAdd(a: u64, b: u64): Result<u64> {
    if a + b <= U64_MAX then Ok(a + b) else Err(ArithmeticPanic)
  }

  function SaturatingSub(a: u64, b: u64): u64 {
    if b <= a then a - b else 0
  }

  function SaturatingAdd(a: u64, b: u64): u64 {
    if a + b <= U64_MAX then a + b else U64_MAX
  }

  // ---------------------------------------------------------------- conversions

  /** Shares minted for a deposit. */
  function SharesFor(amount: nat, nav: nat): (shares: nat)
    requires nav > 0
  {
    DivisionBounds(amount * NAV_BPS_DENOMINATOR, nav);
    amount * NAV_BPS_DENOMINATOR / nav
  }

  /** Tokens paid for redeemed shares. */
  function AssetsFor(shares: nat, nav: nat): (assets: nat) {
    Product(shares, nav);
    shares * nav / NAV_BPS_DENOMINATOR
  }

  /** The share computation as the programs write it, with its overflow exits. */
  function CheckedShares(amount: u64, nav: u64): Result<u64> {
    var scaled :- CheckedMul(amount, NAV_BPS_DENOMINATOR);
    CheckedDiv(scaled, nav)
  }

  /** The payout computation as the programs write it, with its overflow exit. */
  function CheckedAssets(shares: u64, nav: u64): Result<u64> {
    var scaled :- CheckedMul(shares, nav);
    CheckedDiv(scaled, NAV_BPS_DENOMINATOR)
  }

  /** The checked computation is the floor conversion, unless the scaled amount overflows. */
  lemma CheckedSharesExact(amount: u64, nav: u64)
    requires nav > 0
    ensures CheckedShares(amount, nav) ==
      if amount * NAV_BPS_DENOMINATOR <= U64_MAX then Ok(SharesFor(amount, nav)) else Err(Overflow)
  {}

  lemma CheckedAssetsExact(shares: u64, nav: u64)
    ensures CheckedAssets(shares, nav) ==
      if shares * nav <= U64_MAX then Ok(AssetsFor(shares, nav)) else Err(Overflow)
  {
    Product(shares, nav);
  }

  // ---------------------------------------------------------------- arithmetic

  lemma Product(a: nat, b: nat)
    ensures 0 <= a * b
  {}

  lemma Regroup(a: int, b: int, c: int)
    ensures a * (b * c) == (a * b) * c == (a * c) * b
  {}

  lemma ProductMonotone(a: int, b: int, c: nat)
    requires a <= b
    ensures a * c <= b * c
  {
    assert (b - a) * c >= 0;
  }

  /** Comparing multiples of a positive number compares the factors. */
  lemma FactorBelow(a: int, b: int, d: int)
    requires d > 0
    requires a * d < b * d + d
    ensures a <= b
  {
    if b + 1 <= a {
      ProductMonotone(b + 1, a, d);
    }
  }

  lemma DivisionBounds(a: nat, b: nat)
    requires b > 0
    ensures 0 <= a / b <= a
    ensures a == (a / b) * b + a % b
    ensures 0 <= a % b < b
  {
    ProductMonotone(1, b, a / b);
  }

  /** A quotient is the only integer between the division bounds. */
  lemma QuotientUnique(a: int, b: int, q: int)
    requires b > 0
    requires q * b <= a < q * b + b
    ensures a / b == q
  {
    var k := a / b;
    assert a == k * b + a % b;
    FactorBelow(k, q, b);
    FactorBelow(q, k, b);
  }

  lemma DivisionMonotone(a: nat, b: nat, d: nat)
    requires a <= b && d > 0
    ensures a / d <= b / d
  {
    DivisionBounds(a, d);
    DivisionBounds(b, d);
    FactorBelow(a / d, b / d, d);
  }

  /** Dividing twice is dividing by the product. */
  lemma DivideTwice(a: nat, b: nat, c: nat)
    requires b > 0 && c > 0
    ensures b * c > 0
    ensures a / b / c == a / (b * c)
  {
    var q := a / b;
    var p := q / c;
    DivisionBounds(a, b);
    DivisionBounds(q, c);
    Product(b - 1, c);
    assert b * c == (b - 1) * c + c;
    NestedRemainder(a, b, c, q, p);
    QuotientUnique(a, b * c, p);
  }

  lemma NestedRemainder(a: nat, b: nat, c: nat, q: nat, p: nat)
    requires b > 0 && c > 0
    requires q * b <= a < q * b + b
    requires p * c <= q < p * c + c
    ensures p * (b * c) <= a < p * (b * c) + b * c
  {
    ProductMonotone(p * c, q, b);
    ProductMonotone(q + 1, p * c + c, b);
    assert (q + 1) * b == q * b + b;
    assert (p * c + c) * b == p * c * b + c * b;
    assert p * c * b == p * (b * c);
  }
}
