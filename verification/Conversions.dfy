/** What the two floor conversions lose: round trips and splitting, at a fixed NAV. */
module Conversions {
  import opened FixedPoint

  /** x/d rounded up. */
  function CeilDiv(x: nat, d: nat): nat
    requires d > 0
  {
    DivisionBounds(x + d - 1, d);
    (x + d - 1) / d
  }

  lemma CeilDivUnique(x: nat, d: nat, q: int)
    requires d > 0 && (q - 1) * d < x <= q * d
    ensures CeilDiv(x, d) == q
  {
    QuotientUnique(x + d - 1, d, q);
  }

  lemma CeilDivMonotone(x: nat, y: nat, d: nat)
    requires d > 0 && x <= y
    ensures CeilDiv(x, d) <= CeilDiv(y, d)
  {
    DivisionMonotone(x + d - 1, y + d - 1, d);
  }

  // ---------------------------------------------------------------- round trips

  /** What is left over of `amount` tokens converted to shares, in ten-thousandths of a token. */
  function DepositRest(amount: nat, nav: nat): (rest: nat)
    requires nav > 0
    ensures rest < nav
  {
    DivisionBounds(amount * NAV_BPS_DENOMINATOR, nav);
    amount * NAV_BPS_DENOMINATOR % nav
  }

  /** What is left over of `shares` converted to tokens, likewise. */
  function RedemptionRest(shares: nat, nav: nat): (rest: nat)
    ensures rest < NAV_BPS_DENOMINATOR
  {
    Product(shares, nav);
    shares * nav % NAV_BPS_DENOMINATOR
  }

  /** Depositing and redeeming at once loses exactly the deposit's rest, rounded up to whole tokens. */
  lemma DepositLossExactly(amount: nat, nav: nat)
    requires nav > 0
    ensures amount - AssetsFor(SharesFor(amount, nav), nav) == CeilDiv(DepositRest(amount, nav), NAV_BPS_DENOMINATOR)
  {
    var shares := SharesFor(amount, nav);
    DivisionBounds(amount * NAV_BPS_DENOMINATOR, nav);
    Product(shares, nav);
    assert shares * nav == amount * NAV_BPS_DENOMINATOR - DepositRest(amount, nav);
    CeilDivUnique(DepositRest(amount, nav), NAV_BPS_DENOMINATOR, amount - AssetsFor(shares, nav));
  }

  /** Redeeming and depositing at once loses exactly the redemption's rest, rounded up to whole shares. */
  lemma RedemptionLossExactly(shares: nat, nav: nat)
    requires nav > 0
    ensures shares - SharesFor(AssetsFor(shares, nav), nav) == CeilDiv(RedemptionRest(shares, nav), nav)
  {
    var assets, rest := AssetsFor(shares, nav), RedemptionRest(shares, nav);
    var back := SharesFor(assets, nav);
    Product(shares, nav);
    DivisionBounds(assets * NAV_BPS_DENOMINATOR, nav);
    assert assets * NAV_BPS_DENOMINATOR == shares * nav - rest;
    assert back * nav <= shares * nav - rest < back * nav + nav;
    assert (shares - back) * nav == shares * nav - back * nav;
    assert (shares - back - 1) * nav == (shares - back) * nav - nav;
    CeilDivUnique(rest, nav, shares - back);
  }

  /** So depositing and redeeming at once never pays more than went in, and the loss is bounded. */
  lemma DepositThenRedeem(amount: nat, nav: nat)
    requires nav > 0
    ensures AssetsFor(SharesFor(amount, nav), nav) <= amount
    ensures amount - AssetsFor(SharesFor(amount, nav), nav) <= CeilDiv(nav - 1, NAV_BPS_DENOMINATOR)
  {
    DepositLossExactly(amount, nav);
    CeilDivMonotone(DepositRest(amount, nav), nav - 1, NAV_BPS_DENOMINATOR);
  }

  /** And redeeming and depositing at once never yields more shares, and the loss is bounded. */
  lemma RedeemThenDeposit(shares: nat, nav: nat)
    requires nav > 0
    ensures SharesFor(AssetsFor(shares, nav), nav) <= shares
    ensures shares - SharesFor(AssetsFor(shares, nav), nav) <= CeilDiv(9_999, nav)
  {
    RedemptionLossExactly(shares, nav);
    CeilDivMonotone(RedemptionRest(shares, nav), 9_999, nav);
  }

  // ---------------------------------------------------------------- the worst loss at each price

  /** A common divisor `g` of two numbers, which is also a combination of them: a == g * p, b == g * q and
      a * x + b * y == g. */
  datatype Common = Common(g: nat, p: nat, q: nat, x: int, y: int)

  function CommonDivisor(a: nat, b: nat): (c: Common)
    requires a > 0
    ensures 0 < c.g <= a && c.p > 0 && a == c.g * c.p && b == c.g * c.q && a * c.x + b * c.y == c.g
    decreases b
  {
    if b == 0 then Common(a, 1, 0, 1, 0) else
      DivisionBounds(a, b);
      var c, k := CommonDivisor(b, a % b), a / b;
      Product(k, c.p);
      CombineBack(a, b, a % b, k, c);
      Common(c.g, k * c.p + c.q, c.p, c.y, c.x - k * c.y)
  }

  lemma CombineBack(a: nat, b: nat, r: nat, k: nat, c: Common)
    requires a == k * b + r && a > 0
    requires c.g > 0 && b == c.g * c.p && r == c.g * c.q && b * c.x + r * c.y == c.g
    ensures a == c.g * (k * c.p + c.q) && a * c.y + b * (c.x - k * c.y) == c.g
    ensures k * c.p + c.q > 0 && c.g <= a
  {
    Regroup(k, c.g, c.p);
    Regroup(c.g, k, c.p);
    assert a == c.g * (k * c.p + c.q);
    assert (k * b + r) * c.y == (k * b) * c.y + r * c.y;
    Regroup(b, k, c.y);
    assert b * (c.x - k * c.y) == b * c.x - b * (k * c.y);
    Product(k, c.p);
    if k * c.p + c.q > 0 { ProductMonotone(1, k * c.p + c.q, c.g); }
  }

  /** The greatest common divisor. */
  function Gcd(a: nat, b: nat): (g: nat)
    requires a > 0
    ensures 0 < g <= a
  {
    CommonDivisor(a, b).g
  }

  /** It divides both. */
  lemma GcdDivides(a: nat, b: nat) returns (p: nat, q: nat)
    requires a > 0
    ensures a == Gcd(a, b) * p && b == Gcd(a, b) * q
  {
    var c := CommonDivisor(a, b);
    p, q := c.p, c.q;
  }

  lemma CommonFactor(a: nat, b: nat, d: nat, i: nat, j: nat, x: int, y: int)
    requires a == d * i && b == d * j
    ensures a * x + b * y == d * (i * x + j * y)
  {
    Regroup(d, i, x);
    Regroup(d, j, y);
  }

  /** And no common divisor is larger. */
  lemma GcdGreatest(a: nat, b: nat, d: nat, i: nat, j: nat)
    requires a > 0 && a == d * i && b == d * j
    ensures d <= Gcd(a, b)
  {
    var c := CommonDivisor(a, b);
    CommonFactor(a, b, d, i, j, c.x, c.y);
    FactorAtMost(c.g, d, i * c.x + j * c.y);
  }

  lemma FactorAtMost(g: nat, d: nat, u: int)
    requires g == d * u && g > 0
    ensures d <= g
  {
    if u <= 0 { ProductMonotone(u, 0, d); } else { ProductMonotone(1, u, d); }
  }

  /** A multiple of `g` below another one is at least `g` below it. */
  lemma MultipleBelow(g: nat, u: int, p: int, r: int)
    requires g > 0 && r == g * u && r < g * p
    ensures r <= g * p - g
  {
    if p <= u { ProductMonotone(p, u, g); } else { ProductMonotone(u, p - 1, g); }
  }

  lemma RestIsMultiple(a: nat, m: nat, k: nat, n: nat, g: nat, p: nat, q: nat)
    requires n == g * p && m == g * q
    ensures a * m - k * n == g * (a * q - k * p)
  {
    Regroup(a, g, q);
    Regroup(k, g, p);
    assert g * (a * q - k * p) == g * (a * q) - g * (k * p);
    Regroup(g, a, q);
    Regroup(g, k, p);
  }

  /** Multiples of `m` leave at most n - gcd(n, m) modulo `n`. */
  lemma RestAtMost(m: nat, n: nat, a: nat)
    requires n > 0
    ensures 0 <= a * m && a * m % n <= n - Gcd(n, m)
  {
    var c := CommonDivisor(n, m);
    Product(a, m);
    DivisionBounds(a * m, n);
    RestIsMultiple(a, m, a * m / n, n, c.g, c.p, c.q);
    MultipleBelow(c.g, a * c.q - a * m / n * c.p, c.p, a * m % n);
  }

  lemma Shifted(n: nat, m: nat, t: nat, x: int, y: int, g: nat)
    requires n * x + m * y == g
    ensures (n * t - y) * m == (t * m + x - 1) * n + (n - g)
  {
    assert (n * t - y) * m == (n * t) * m - y * m;
    assert (t * m + x - 1) * n == (t * m) * n + x * n - n;
    Regroup(n, t, m);
  }

  /** And some multiple leaves that much. */
  lemma RestAttained(m: nat, n: nat) returns (a: nat)
    requires n > 0
    ensures 0 <= a * m && a * m % n == n - Gcd(n, m)
  {
    var c := CommonDivisor(n, m);
    var t := if c.y < 0 then -c.y else c.y;
    ProductMonotone(1, n, t);
    a := n * t - c.y;
    Product(a, m);
    Shifted(n, m, t, c.x, c.y, c.g);
    var k := t * m + c.x - 1;
    QuotientUnique(a * m, n, k);
    DivisionBounds(a * m, n);
  }

  /** The worst loss of a deposit redeemed at once, at each price: no amount loses more, and one loses
      that much. */
  lemma WorstDepositLoss(nav: nat) returns (amount: nat)
    requires nav > 0
    ensures var worst := CeilDiv(nav - Gcd(nav, NAV_BPS_DENOMINATOR), NAV_BPS_DENOMINATOR);
      && (forall a: nat :: a - AssetsFor(SharesFor(a, nav), nav) <= worst)
      && amount - AssetsFor(SharesFor(amount, nav), nav) == worst
  {
    var top := nav - Gcd(nav, NAV_BPS_DENOMINATOR);
    forall a: nat
      ensures a - AssetsFor(SharesFor(a, nav), nav) <= CeilDiv(top, NAV_BPS_DENOMINATOR)
    {
      DepositLossExactly(a, nav);
      RestAtMost(NAV_BPS_DENOMINATOR, nav, a);
      CeilDivMonotone(DepositRest(a, nav), top, NAV_BPS_DENOMINATOR);
    }
    amount := RestAttained(NAV_BPS_DENOMINATOR, nav);
    DepositLossExactly(amount, nav);
  }

  /** The worst loss of a redemption deposited at once, likewise. */
  lemma WorstRedemptionLoss(nav: nat) returns (shares: nat)
    requires nav > 0
    ensures var worst := CeilDiv(NAV_BPS_DENOMINATOR - Gcd(NAV_BPS_DENOMINATOR, nav), nav);
      && (forall n: nat :: n - SharesFor(AssetsFor(n, nav), nav) <= worst)
      && shares - SharesFor(AssetsFor(shares, nav), nav) == worst
  {
    var top := NAV_BPS_DENOMINATOR - Gcd(NAV_BPS_DENOMINATOR, nav);
    forall n: nat
      ensures n - SharesFor(AssetsFor(n, nav), nav) <= CeilDiv(top, nav)
    {
      RedemptionLossExactly(n, nav);
      RestAtMost(nav, NAV_BPS_DENOMINATOR, n);
      CeilDivMonotone(RedemptionRest(n, nav), top, nav);
    }
    shares := RestAttained(nav, NAV_BPS_DENOMINATOR);
    RedemptionLossExactly(shares, nav);
  }

  /** The general bounds are attained by some amount exactly at the prices where they equal the worst
      losses. */
  lemma DepositBoundAttainedExactly(nav: nat)
    requires nav > 0
    ensures (exists a: nat :: a - AssetsFor(SharesFor(a, nav), nav) == CeilDiv(nav - 1, NAV_BPS_DENOMINATOR)) <==>
      CeilDiv(nav - Gcd(nav, NAV_BPS_DENOMINATOR), NAV_BPS_DENOMINATOR) == CeilDiv(nav - 1, NAV_BPS_DENOMINATOR)
  {
    var amount := WorstDepositLoss(nav);
    CeilDivMonotone(nav - Gcd(nav, NAV_BPS_DENOMINATOR), nav - 1, NAV_BPS_DENOMINATOR);
  }

  lemma RedemptionBoundAttainedExactly(nav: nat)
    requires nav > 0
    ensures (exists n: nat :: n - SharesFor(AssetsFor(n, nav), nav) == CeilDiv(9_999, nav)) <==>
      CeilDiv(NAV_BPS_DENOMINATOR - Gcd(NAV_BPS_DENOMINATOR, nav), nav) == CeilDiv(9_999, nav)
  {
    var shares := WorstRedemptionLoss(nav);
    CeilDivMonotone(NAV_BPS_DENOMINATOR - Gcd(NAV_BPS_DENOMINATOR, nav), 9_999, nav);
  }

  /** At 10001 and at 1 they are attained; at par a deposit round trip loses nothing, against a bound of 1. */
  lemma BoundsAtSomePrices()
    ensures 20_000 - AssetsFor(SharesFor(20_000, 10_001), 10_001) == CeilDiv(10_001 - 1, NAV_BPS_DENOMINATOR)
    ensures 9_999 - SharesFor(AssetsFor(9_999, 1), 1) == CeilDiv(9_999, 1)
    ensures CeilDiv(10_000 - 1, NAV_BPS_DENOMINATOR) == 1
    ensures forall a: nat :: a - AssetsFor(SharesFor(a, 10_000), 10_000) == 0
  {}

  // ---------------------------------------------------------------- splitting

  function Sum(parts: seq<nat>): nat {
    if parts == [] then 0 else parts[0] + Sum(parts[1..])
  }

  /** Shares minted when a deposit is made in parts. */
  function SharesOfParts(parts: seq<nat>, nav: nat): nat
    requires nav > 0
  {
    if parts == [] then 0 else SharesFor(parts[0], nav) + SharesOfParts(parts[1..], nav)
  }

  /** Tokens paid when a redemption is made in parts. */
  function AssetsOfParts(parts: seq<nat>, nav: nat): nat {
    if parts == [] then 0 else AssetsFor(parts[0], nav) + AssetsOfParts(parts[1..], nav)
  }

  /** Floors of two summands add up to the floor of the sum or one below it. */
  lemma SplitOnce(x: nat, y: nat, d: nat)
    requires d > 0
    ensures x / d + y / d <= (x + y) / d <= x / d + y / d + 1
  {
    DivisionBounds(x, d);
    DivisionBounds(y, d);
    DivisionBounds(x + y, d);
    SumOfFloors(x, y, d, x / d, y / d, (x + y) / d);
  }

  lemma SumOfFloors(x: nat, y: nat, d: nat, a: nat, b: nat, c: nat)
    requires d > 0
    requires a * d <= x < a * d + d
    requires b * d <= y < b * d + d
    requires c * d <= x + y < c * d + d
    ensures a + b <= c <= a + b + 1
  {
    assert (a + b) * d == a * d + b * d;
    FactorBelow(a + b, c, d);
    assert (a + b + 1) * d == a * d + b * d + d;
    FactorBelow(c, a + b + 1, d);
  }

  /** Splitting a deposit into k parts never mints more and loses at most k - 1 shares. */
  lemma {:induction false} SplitDeposit(parts: seq<nat>, nav: nat)
    requires nav > 0 && parts != []
    ensures SharesOfParts(parts, nav) <= SharesFor(Sum(parts), nav) <= SharesOfParts(parts, nav) + |parts| - 1
  {
    if |parts| == 1 {
      assert parts[1..] == [];
    } else {
      SplitDeposit(parts[1..], nav);
      SplitOnce(parts[0] * NAV_BPS_DENOMINATOR, Sum(parts[1..]) * NAV_BPS_DENOMINATOR, nav);
    }
  }

  /** Splitting a redemption into k parts never pays more and loses at most k - 1 tokens. */
  lemma {:induction false} SplitRedemption(parts: seq<nat>, nav: nat)
    requires parts != []
    ensures AssetsOfParts(parts, nav) <= AssetsFor(Sum(parts), nav) <= AssetsOfParts(parts, nav) + |parts| - 1
  {
    if |parts| == 1 {
      assert parts[1..] == [];
    } else {
      SplitRedemption(parts[1..], nav);
      var x, y := parts[0], Sum(parts[1..]);
      Product(x, nav);
      Product(y, nav);
      assert (x + y) * nav == x * nav + y * nav;
      SplitOnce(x * nav, y * nav, NAV_BPS_DENOMINATOR);
    }
  }
}
