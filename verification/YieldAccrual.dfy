/** On-chain yield accrual: the staged daily yield and the day counter. */
module YieldAccrual {
  import opened Results
  import opened FixedPoint

  const SECONDS_IN_DAY: int := 86_400

  /** Accrued and not yet distributed, and the time up to which days were counted. */
  datatype Accrual = Accrual(pending: u64, lastClaim: Time)

  /** The daily yield, floored after each of its three stages, with its overflow exits. */
  function DailyYield(deposits: u64, allocationBps: u16, apyBps: u16): (daily: Result<u64>)
    ensures daily.Err? ==> daily.error == Overflow
  {
    // the divisions by constants are checked in the program too, and cannot fail
    var apportioned :- CheckedMul(deposits, allocationBps);
    var scaled :- CheckedMul(apportioned / 10_000, apyBps);
    Ok(scaled / 10_000 / 365)
  }

  function DaysElapsed(lastClaim: Time, now: Time): nat {
    if now > lastClaim then (now - lastClaim) / SECONDS_IN_DAY else 0
  }

  /** One call at time `now` with the daily yield `daily`, which is only needed for a full day. */
  function Process(daily: Result<u64>, a: Accrual, now: Time): Result<Accrual> {
    var days := DaysElapsed(a.lastClaim, now);
    if days == 0 then Ok(a) else
    var perDay :- daily;
    var accrued :- CheckedMul(perDay, days);
    var pending :- CheckedAdd(a.pending, accrued);
    Ok(Accrual(pending, a.lastClaim + days * SECONDS_IN_DAY))
  }

  /** Processing at each of `times` in turn; the first overflow ends the sequence. */
  function ProcessAll(daily: Result<u64>, a: Accrual, times: seq<Time>): Result<Accrual>
    decreases times
  {
    if times == [] then Ok(a) else
    var b :- Process(daily, a, times[0]);
    ProcessAll(daily, b, times[1..])
  }

  predicate NonDecreasing(times: seq<Time>) {
    forall i, j | 0 <= i < j < |times| :: times[i] <= times[j]
  }

  /** What one call with at least one full day does, without the order of its checks. */
  lemma ProcessAccepted(perDay: u64, a: Accrual, now: Time)
    requires DaysElapsed(a.lastClaim, now) > 0
    ensures var accrued := perDay * DaysElapsed(a.lastClaim, now);
      Process(Ok(perDay), a, now) ==
      if a.pending + accrued <= U64_MAX
      then Ok(Accrual(a.pending + accrued, a.lastClaim + DaysElapsed(a.lastClaim, now) * SECONDS_IN_DAY))
      else Err(Overflow)
  {
    Product(perDay, DaysElapsed(a.lastClaim, now));
  }

  /** A call continues where an earlier one left off. */
  lemma TwoCallsAreOne(daily: Result<u64>, a: Accrual, t: Time, now: Time)
    requires t <= now
    requires daily.Err? ==> daily.error == Overflow
    ensures Process(daily, a, t).Ok? ==> Process(daily, Process(daily, a, t).value, now) == Process(daily, a, now)
    ensures Process(daily, a, t).Err? ==> Process(daily, a, now) == Process(daily, a, t)
  {
    var d1, d := DaysElapsed(a.lastClaim, t), DaysElapsed(a.lastClaim, now);
    if d1 > 0 && daily.Ok? {
      ProcessAccepted(daily.value, a, t);
      ProcessAccepted(daily.value, a, now);
      Product(daily.value, d - d1);
      assert daily.value * d == daily.value * d1 + daily.value * (d - d1);
      var first := Process(daily, a, t);
      if first.Ok? && d > d1 {
        assert DaysElapsed(first.value.lastClaim, now) == d - d1;
        ProcessAccepted(daily.value, first.value, now);
      }
    }
  }

  /** How often yield is processed does not matter: any non-decreasing sequence of calls gives the
      same accrual as one call at the last time, and overflows exactly when that call does. */
  lemma {:induction false} CadenceIndependent(daily: Result<u64>, a: Accrual, times: seq<Time>)
    requires times != [] && NonDecreasing(times)
    requires daily.Err? ==> daily.error == Overflow
    ensures ProcessAll(daily, a, times) == Process(daily, a, times[|times| - 1])
    decreases times
  {
    var first := Process(daily, a, times[0]);
    if |times| == 1 {
      assert times[1..] == [];
    } else {
      TwoCallsAreOne(daily, a, times[0], times[|times| - 1]);
      if first.Ok? {
        CadenceIndependent(daily, first.value, times[1..]);
      }
    }
  }

  const LAST_TIME: Time := 0x7FFF_FFFF_FFFF_FFFF

  /** Moving the counter from `claim` up to `t` costs nothing, whenever yield is processed next, exactly
      when it does not move, or no full day fits between the counter and the end of time. */
  lemma CounterMoveHarmlessExactly(claim: Time, t: Time)
    requires claim <= t
    ensures (forall end: Time | t <= end :: DaysElapsed(claim, end) == DaysElapsed(t, end)) <==>
      t == claim || DaysElapsed(claim, LAST_TIME) == 0
  {
    if t != claim && DaysElapsed(claim, LAST_TIME) > 0 {
      var end: Time := if DaysElapsed(claim, t) > 0 then t else claim + SECONDS_IN_DAY;
      assert t <= end && DaysElapsed(claim, end) != DaysElapsed(t, end);
    }
  }

  /** Moving the counter up never makes a later call count more days. */
  lemma CounterMoveNeverGains(claim: Time, t: Time, end: Time)
    requires claim <= t <= end
    ensures DaysElapsed(t, end) <= DaysElapsed(claim, end)
  {}

  /** After a successful call less than one day is unprocessed, and the counter is not ahead. */
  lemma LessThanOneDayLeft(daily: Result<u64>, a: Accrual, now: Time)
    requires a.lastClaim <= now
    requires Process(daily, a, now).Ok?
    ensures var b := Process(daily, a, now).value;
      a.lastClaim <= b.lastClaim <= now < b.lastClaim + SECONDS_IN_DAY && a.pending <= b.pending
  {
    var days := DaysElapsed(a.lastClaim, now);
    if days > 0 && daily.Ok? {
      Product(daily.value, days);
    }
  }

  // ---------------------------------------------------------------- accuracy

  /** The yield of one day as a single exact floor. */
  function ExactDailyYield(deposits: nat, allocationBps: nat, apyBps: nat): nat {
    Product(deposits, allocationBps);
    Product(deposits * allocationBps, apyBps);
    deposits * allocationBps * apyBps / 36_500_000_000
  }

  /** The seed script divides in three steps as well, but only after multiplying: no loss. */
  lemma SeedFormulaIsExact(deposits: nat, allocationBps: nat, apyBps: nat)
    ensures deposits * allocationBps * apyBps / 10_000 / 10_000 / 365 ==
      ExactDailyYield(deposits, allocationBps, apyBps)
  {
    Product(deposits, allocationBps);
    Product(deposits * allocationBps, apyBps);
    var x: nat := deposits * allocationBps * apyBps;
    DivideTwice(x, 10_000, 10_000);
    DivideTwice(x, 100_000_000, 365);
  }

  /** Flooring after each stage never overstates the yield and understates it by at most one unit. */
  lemma StagedYieldAccurate(deposits: u64, allocationBps: u16, apyBps: u16)
    requires DailyYield(deposits, allocationBps, apyBps).Ok?
    ensures var daily, exact := DailyYield(deposits, allocationBps, apyBps).value,
      ExactDailyYield(deposits, allocationBps, apyBps);
      daily <= exact <= daily + 1
  {
    Product(deposits, allocationBps);
    var x := deposits * allocationBps;
    var slice := x / 10_000;
    Product(slice, apyBps);
    Product(x, apyBps);
    var yearly := slice * apyBps / 10_000;
    ProductMonotone(10_000 * slice, x, apyBps);
    ProductMonotone(x, 10_000 * slice + 9_999, apyBps);
    assert (10_000 * slice + 9_999) * apyBps == 10_000 * (slice * apyBps) + 9_999 * apyBps;
    assert 10_000 * slice * apyBps == 10_000 * (slice * apyBps);
    assert yearly * 100_000_000 <= x * apyBps < yearly * 100_000_000 + 100_000_000 + 9_999 * 0x1_0000;
  }

  // ---------------------------------------------------------------- exactness

  /** The staged computation goes through exactly when its two products fit, each after the division before
      it; then a staged day falls short of the unfloored one by what its three divisions leave over. */
  lemma DailyYieldExactly(deposits: u64, allocationBps: u16, apyBps: u16)
    ensures DailyYield(deposits, allocationBps, apyBps).Ok? <==>
      deposits * allocationBps <= 18_446_744_073_709_551_615 &&
      deposits * allocationBps / 10_000 * apyBps <= 18_446_744_073_709_551_615
    ensures DailyYield(deposits, allocationBps, apyBps).Err? ==>
      DailyYield(deposits, allocationBps, apyBps).error == Overflow
    ensures DailyYield(deposits, allocationBps, apyBps).Ok? ==>
      deposits * allocationBps * apyBps ==
        36_500_000_000 * DailyYield(deposits, allocationBps, apyBps).value + Shortfall(deposits, allocationBps, apyBps)
  {
    Product(deposits, allocationBps);
    var x := deposits * allocationBps;
    var slice := x / 10_000;
    Product(slice, apyBps);
    DivisionBounds(x, 10_000);
    var product := slice * apyBps;
    assert x * apyBps == 10_000 * product + x % 10_000 * apyBps by { SplitProduct(slice, x % 10_000, apyBps); }
    if DailyYield(deposits, allocationBps, apyBps).Ok? {
      var yearly := product / 10_000;
      assert product == 10_000 * yearly + product % 10_000;
      assert yearly == 365 * (yearly / 365) + yearly % 365;
    }
  }

  lemma SplitProduct(slice: nat, rest: nat, apyBps: nat)
    ensures (10_000 * slice + rest) * apyBps == 10_000 * (slice * apyBps) + rest * apyBps
  {}

  /** What the three divisions leave over, in parts of a unit per 36_500_000_000. */
  function Shortfall(deposits: nat, allocationBps: nat, apyBps: nat): nat {
    Product(deposits, allocationBps);
    var x := deposits * allocationBps;
    Product(x % 10_000, apyBps);
    Product(x / 10_000, apyBps);
    var y := x / 10_000 * apyBps;
    100_000_000 * (y / 10_000 % 365) + 10_000 * (y % 10_000) + x % 10_000 * apyBps
  }

  /** So the staged yield is the exact floor if and only if the divisions together leave less than a unit;
      otherwise it is one below. */
  lemma StagedYieldExactly(deposits: u64, allocationBps: u16, apyBps: u16)
    requires DailyYield(deposits, allocationBps, apyBps).Ok?
    ensures DailyYield(deposits, allocationBps, apyBps).value ==
      ExactDailyYield(deposits, allocationBps, apyBps) -
        if Shortfall(deposits, allocationBps, apyBps) < 36_500_000_000 then 0 else 1
  {
    DailyYieldExactly(deposits, allocationBps, apyBps);
    StagedYieldAccurate(deposits, allocationBps, apyBps);
    Product(deposits, allocationBps);
    Product(deposits * allocationBps, apyBps);
    DivisionBounds(deposits * allocationBps * apyBps, 36_500_000_000);
  }

  /** A rate of at most par fails only if deposits times allocation leave 64 bits. */
  lemma RateWithinParFails(deposits: u64, allocationBps: u16, apyBps: u16)
    requires apyBps <= 10_000
    ensures DailyYield(deposits, allocationBps, apyBps).Err? <==>
      deposits * allocationBps > 18_446_744_073_709_551_615
  {
    Product(deposits, allocationBps);
    var x := deposits * allocationBps;
    ProductMonotone(apyBps, 10_000, x / 10_000);
    Product(x / 10_000, apyBps);
    DailyYieldExactly(deposits, allocationBps, apyBps);
  }

  /** Five million USDC at the seeded rates, 80% allocated at 5% a year: 547.945205 USDC a day. */
  lemma SeededRates()
    ensures DailyYield(5_000_000_000_000, 8_000, 500) == Ok(547_945_205)
  {}

  /** Full days are counted in seconds, and none before the counter. */
  lemma DaysExactly(lastClaim: Time, now: Time)
    ensures now >= lastClaim ==>
      DaysElapsed(lastClaim, now) * 86_400 <= now - lastClaim < (DaysElapsed(lastClaim, now) + 1) * 86_400
    ensures now < lastClaim ==> DaysElapsed(lastClaim, now) == 0
  {}
}
