/** The per-update limit on NAV changes, as the two programs write it. */
module NavGuard {
  import opened Results
  import opened FixedPoint

  const MAX_NAV_CHANGE_BPS: int := 5_000

  /** The largest NAV that the yield vault's guard can still move: above it the unchecked
      addition of half the price aborts. */
  const MAX_MOVABLE_NAV: int := 12_297_829_382_473_034_410

  /** The yield vault's guard: half computed by `/ 2`, upper bound by plain addition. */
  function YieldGuard(current: u64, next: u64): Result<()> {
    if next == 0 then Err(InvalidNav) else
    var maxChange: u64 := current / 2;
    if next < SaturatingSub(current, maxChange) then Err(NavChangeTooLarge) else
    var upper :- PanickingAdd(current, maxChange);
    if next > upper then Err(NavChangeTooLarge) else Ok(())
  }

  /** The factory's guard: half computed by checked multiplication and division. */
  function CustodyGuard(current: u64, next: u64): Result<()> {
    if next == 0 then Err(InvalidNav) else
    var scaled :- CheckedMul(current, MAX_NAV_CHANGE_BPS);
    var maxChange: u64 := scaled / NAV_BPS_DENOMINATOR;
    if next < SaturatingSub(current, maxChange) || next > SaturatingAdd(current, maxChange)
    then Err(NavChangeTooLarge) else Ok(())
  }

  /** What the yield vault's guard accepts, stated without its evaluation order. */
  lemma YieldGuardAccepts(current: u64, next: u64)
    ensures YieldGuard(current, next).Ok? <==>
      next > 0 && current <= MAX_MOVABLE_NAV && current <= 2 * next && 2 * next <= 3 * current
  {}

  /** The factory's guard accepts the same range, but only where current * 5000 fits. */
  lemma CustodyGuardAccepts(current: u64, next: u64)
    ensures CustodyGuard(current, next).Ok? <==>
      next > 0 && current * MAX_NAV_CHANGE_BPS <= U64_MAX && current <= 2 * next && 2 * next <= 3 * current
  {
    assert current * MAX_NAV_CHANGE_BPS / NAV_BPS_DENOMINATOR == current / 2;
  }

  /** The two guards accept the same values exactly when the factory's product fits, or when the
      price is so high that neither accepts anything. */
  lemma GuardsAgree(current: u64)
    requires current > 0
    ensures (forall next: u64 :: YieldGuard(current, next).Ok? <==> CustodyGuard(current, next).Ok?) <==>
      current * MAX_NAV_CHANGE_BPS <= U64_MAX || current > MAX_MOVABLE_NAV
  {
    forall next: u64
      ensures (YieldGuard(current, next).Ok? <==> CustodyGuard(current, next).Ok?) ||
        current * MAX_NAV_CHANGE_BPS > U64_MAX
    {
      YieldGuardAccepts(current, next);
      CustodyGuardAccepts(current, next);
    }
    if current > MAX_MOVABLE_NAV {
      forall next: u64
        ensures !YieldGuard(current, next).Ok? && !CustodyGuard(current, next).Ok?
      {
        YieldGuardAccepts(current, next);
        CustodyGuardAccepts(current, next);
      }
    } else if current * MAX_NAV_CHANGE_BPS > U64_MAX {
      YieldGuardAccepts(current, current);
      CustodyGuardAccepts(current, current);
      assert YieldGuard(current, current).Ok? && !CustodyGuard(current, current).Ok?;
    }
  }

  // ---------------------------------------------------------------- sequences of updates

  /** Every element of `path` is accepted when it is reached. */
  predicate AcceptedPath(current: u64, path: seq<u64>)
    decreases path
  {
    path == [] || (YieldGuard(current, path[0]).Ok? && AcceptedPath(path[0], path[1..]))
  }

  function EndOf(current: u64, path: seq<u64>): u64
    decreases path
  {
    if path == [] then current else EndOf(path[0], path[1..])
  }

  function Pow(base: nat, k: nat): nat {
    if k == 0 then 1 else
      Product(base, Pow(base, k - 1));
      base * Pow(base, k - 1)
  }

  /** After k accepted updates the NAV has at most halved k times and grown by half k times. */
  lemma {:induction false} UpdatesBounded(current: u64, path: seq<u64>)
    requires AcceptedPath(current, path)
    ensures Pow(2, |path|) * EndOf(current, path) >= current
    ensures Pow(2, |path|) * EndOf(current, path) <= Pow(3, |path|) * current
    ensures current > 0 ==> EndOf(current, path) > 0
    decreases path
  {
    if path != [] {
      var next, k := path[0], |path| - 1;
      YieldGuardAccepts(current, next);
      UpdatesBounded(next, path[1..]);
      ScaleBounds(current, next, EndOf(next, path[1..]), Pow(2, k), Pow(3, k));
    }
  }

  lemma ScaleBounds(current: nat, next: nat, end: nat, p: nat, q: nat)
    requires current <= 2 * next && 2 * next <= 3 * current
    requires next <= p * end <= q * next
    ensures current <= (2 * p) * end <= (3 * q) * current
  {
    Regroup(2, p, end);
    Regroup(3, q, current);
    ProductMonotone(2 * next, 3 * current, q);
    Regroup(2, next, q);
    Regroup(3, current, q);
  }

  /** A price that no accepted update can change: 1, or one above the movable range. */
  lemma StuckExactly(current: u64)
    requires current > 0
    ensures (forall next: u64 :: YieldGuard(current, next).Ok? ==> next == current) <==>
      current == 1 || current > MAX_MOVABLE_NAV
  {
    if current == 1 || current > MAX_MOVABLE_NAV {
      forall next: u64 | YieldGuard(current, next).Ok?
        ensures next == current
      {
        YieldGuardAccepts(current, next);
      }
    } else {
      YieldGuardAccepts(current, current - 1);
      assert YieldGuard(current, current - 1).Ok?;
    }
  }

  /** The next stop on the way from `current` to `target`: clamp to the guard, and stop at the
      highest movable price rather than beyond it. */
  function NextStop(current: u64, target: u64): u64
    requires current <= MAX_MOVABLE_NAV
  {
    if target <= current then (if target < current - current / 2 then current - current / 2 else target)
    else if target <= current + current / 2 then target
    else if current + current / 2 <= MAX_MOVABLE_NAV then current + current / 2
    else MAX_MOVABLE_NAV
  }

  function PathTo(current: u64, target: u64): seq<u64>
    requires 2 <= current <= MAX_MOVABLE_NAV && target > 0
    decreases if target < current then current - target else target - current
  {
    if current == target then [] else
    var next := NextStop(current, target);
    [next] + if next == target then [] else PathTo(next, target)
  }

  /** From every price that is not stuck, every positive price is reached by finitely many
      accepted updates. */
  lemma {:induction false} EveryTargetReachable(current: u64, target: u64)
    requires 2 <= current <= MAX_MOVABLE_NAV && target > 0
    ensures AcceptedPath(current, PathTo(current, target))
    ensures EndOf(current, PathTo(current, target)) == target
    decreases if target < current then current - target else target - current
  {
    if current != target {
      var next := NextStop(current, target);
      YieldGuardAccepts(current, next);
      if next == target {
        assert PathTo(current, target) == [next];
      } else {
        EveryTargetReachable(next, target);
        assert PathTo(current, target)[1..] == PathTo(next, target);
      }
    }
  }

  // ---------------------------------------------------------------- greedy clamping

  /** One greedy step: as far towards `target` as the guard allows. */
  function GreedyStop(current: u64, target: u64): u64
    requires current <= MAX_MOVABLE_NAV
  {
    if target < current - current / 2 then current - current / 2
    else if target > current + current / 2 then current + current / 2
    else target
  }

  /** The greedy steps, until the target is reached or the price is stuck. */
  function GreedyPath(current: u64, target: u64): (path: seq<u64>)
    requires current > 0 && target > 0
    decreases if target < current then current - target else target - current
  {
    if current == target || current == 1 || current > MAX_MOVABLE_NAV then [] else
    var next := GreedyStop(current, target);
    [next] + GreedyPath(next, target)
  }

  /** Every greedy step is accepted. */
  lemma {:induction false} GreedyPathAccepted(current: u64, target: u64)
    requires current > 0 && target > 0
    ensures AcceptedPath(current, GreedyPath(current, target))
    decreases if target < current then current - target else target - current
  {
    if !(current == target || current == 1 || current > MAX_MOVABLE_NAV) {
      var next := GreedyStop(current, target);
      YieldGuardAccepts(current, next);
      GreedyPathAccepted(next, target);
      assert GreedyPath(current, target)[1..] == GreedyPath(next, target);
    }
  }

  /** The highest price that full upward steps from `current` visit before leaving the movable range. */
  function Crest(current: u64): (crest: u64)
    requires 2 <= current <= MAX_MOVABLE_NAV
    ensures current <= crest <= MAX_MOVABLE_NAV < crest + crest / 2 <= U64_MAX
    decreases MAX_MOVABLE_NAV - current
  {
    if current + current / 2 > MAX_MOVABLE_NAV then current else Crest(current + current / 2)
  }

  /** Greedy clamping arrives exactly at the targets up to one full step beyond the crest, which
      depends on the start alone; from an immovable start, only where it stands. */
  lemma {:induction false} GreedyArrivesExactly(current: u64, target: u64)
    requires current > 0 && target > 0
    ensures EndOf(current, GreedyPath(current, target)) == target <==>
      if 2 <= current <= MAX_MOVABLE_NAV then target <= Crest(current) + Crest(current) / 2 else target == current
    decreases if target < current then current - target else target - current
  {
    if 2 <= current <= MAX_MOVABLE_NAV && current != target {
      var next := GreedyStop(current, target);
      GreedyArrivesExactly(next, target);
      assert GreedyPath(current, target)[1..] == GreedyPath(next, target);
      if current < target && next <= MAX_MOVABLE_NAV { CrestShared(current, next); }
    }
  }

  /** A price between the start and its first full step has a reach that covers that step. */
  lemma CrestShared(current: u64, next: u64)
    requires 2 <= current <= next <= current + current / 2 && next <= MAX_MOVABLE_NAV
    ensures next == current + current / 2 ==> Crest(next) == Crest(current)
    ensures next <= Crest(next) + Crest(next) / 2
  {}

  predicate MovableUnless(target: u64, stops: seq<u64>) {
    forall i | 0 <= i < |stops| :: stops[i] != target ==> stops[i] <= MAX_MOVABLE_NAV
  }

  /** Seen along the path: it arrives exactly when no stop short of the target is immovable. */
  lemma {:induction false} GreedyArrivesUnlessStuck(current: u64, target: u64)
    requires 2 <= current && target > 0
    ensures EndOf(current, GreedyPath(current, target)) == target <==>
      MovableUnless(target, [current] + GreedyPath(current, target))
    decreases if target < current then current - target else target - current
  {
    var path := GreedyPath(current, target);
    if current != target && current <= MAX_MOVABLE_NAV {
      var next := GreedyStop(current, target);
      var tail := GreedyPath(next, target);
      assert path == [next] + tail && path[1..] == tail;
      if next != target { GreedyArrivesUnlessStuck(next, target); }
      MovableFrom(target, current, path);
    } else {
      assert ([current] + path)[0] == current;
    }
  }

  lemma MovableFrom(target: u64, current: u64, path: seq<u64>)
    requires current <= MAX_MOVABLE_NAV
    ensures MovableUnless(target, [current] + path) <==> MovableUnless(target, path)
  {
    forall i | 0 <= i < |path|
      ensures ([current] + path)[i + 1] == path[i]
    {}
  }

  /** In particular it arrives at every movable target from every movable price of at least 2. */
  lemma GreedyReachesMovable(current: u64, target: u64)
    requires 2 <= current <= MAX_MOVABLE_NAV && 0 < target <= MAX_MOVABLE_NAV
    ensures AcceptedPath(current, GreedyPath(current, target)) && EndOf(current, GreedyPath(current, target)) == target
  {
    GreedyPathAccepted(current, target);
    GreedyArrivesExactly(current, target);
  }

  /** Clamping greedily to the guard is not enough: two below the movable limit, one greedy step
      towards the largest price lands on a stuck price short of it. */
  lemma GreedyClampCanStick()
    ensures var start: u64 := MAX_MOVABLE_NAV - 2;
      var landing: u64 := start + start / 2;
      GreedyPath(start, U64_MAX) == [landing] && YieldGuard(start, landing).Ok? && landing < U64_MAX &&
      forall next: u64 :: !YieldGuard(landing, next).Ok?
  {
    var start: u64 := MAX_MOVABLE_NAV - 2;
    var landing: u64 := start + start / 2;
    YieldGuardAccepts(start, landing);
    forall next: u64
      ensures !YieldGuard(landing, next).Ok?
    {
      YieldGuardAccepts(landing, next);
    }
  }
}
