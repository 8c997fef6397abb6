/** The yield vault's day counter: what distributions and timestamp syncs, which move it to the clock,
    take away from the yield, exactly. */
module OragamiCounter {
  import opened Results
  import opened FixedPoint
  import opened TokenLedger
  import opened Compliance
  import opened YieldAccrual
  import opened OragamiSpec
  import opened OragamiRefinement
  import opened OragamiYield

  // ---------------------------------------------------------------- one move of the counter

  /** Waiting and then processing yield. */
  function WaitAndProcess(signer: Pubkey, wait: nat): seq<Event> {
    [Outside(Advance(wait)), Program(ProcessYield(signer))]
  }

  /** The instruction moves the counter to the clock: a sync always, a distribution only while yield is
      pending. */
  predicate MovesCounter(s: State, i: Instruction) {
    i.SyncYield? || (i.DistributeYield? && s.vault.pendingYield > 0)
  }

  /** With nothing pending a distribution changes nothing at all. */
  lemma IdleDistribution(s: State, signer: Pubkey)
    requires s.vault.OperatorKey() == signer && s.vault.pendingYield == 0
    ensures Execute(s, DistributeYield(signer)) == Ok(s)
  {}

  /** What processing at the end of the wait accrues, when it does not overflow. */
  lemma WaitAccrues(s: State, signer: Pubkey, wait: nat)
    requires s.vault.OperatorKey() == signer && s.now + wait <= LAST_TIME
    requires DailyRate(s.vault).Ok?
    requires s.vault.pendingYield + DailyRate(s.vault).value * DaysElapsed(s.vault.lastYieldClaim, s.now + wait) <=
      U64_MAX
    ensures Accrued(s, WaitAndProcess(signer, wait)) ==
      DailyRate(s.vault).value * DaysElapsed(s.vault.lastYieldClaim, s.now + wait)
  {
    var later := s.(now := s.now + wait);
    var events := WaitAndProcess(signer, wait);
    assert Next(s, events[0]) == later;
    assert Accrued(later, events[1..]) == AccruedBy(later, events[1]) by {
      assert events[1..][0] == events[1] && events[1..][1..] == [];
    }
    ProcessAccrues(later, signer);
  }

  lemma ProcessAccrues(s: State, signer: Pubkey)
    requires s.vault.OperatorKey() == signer && DailyRate(s.vault).Ok?
    requires s.vault.pendingYield + DailyRate(s.vault).value * DaysElapsed(s.vault.lastYieldClaim, s.now) <= U64_MAX
    ensures AccruedBy(s, Program(ProcessYield(signer))) ==
      DailyRate(s.vault).value * DaysElapsed(s.vault.lastYieldClaim, s.now)
  {
    if DaysElapsed(s.vault.lastYieldClaim, s.now) > 0 {
      ProcessAccepted(DailyRate(s.vault).value, s.vault.Yield(), s.now);
    }
  }

  /** Moving the counter first, only the full days since the move accrue. */
  lemma MovedAccrues(s: State, move: Instruction, signer: Pubkey, wait: nat)
    requires s.vault.OperatorKey() == signer && s.now + wait <= LAST_TIME && DailyRate(s.vault).Ok?
    requires move in {DistributeYield(signer), SyncYield(signer)} && MovesCounter(s, move)
    requires s.vault.pendingYield + DailyRate(s.vault).value * DaysElapsed(s.now, s.now + wait) <= U64_MAX
    ensures Accrued(s, [Program(move)] + WaitAndProcess(signer, wait)) ==
      DailyRate(s.vault).value * DaysElapsed(s.now, s.now + wait)
  {
    var t := Next(s, Program(move));
    var rest := WaitAndProcess(signer, wait);
    assert ([Program(move)] + rest)[1..] == rest;
    assert t.vault == s.vault.(pendingYield := t.vault.pendingYield, lastYieldClaim := s.now) && t.now == s.now;
    WaitAccrues(t, signer, wait);
  }

  /** The run with the move accrues the days since the move, which are no more than those since the counter. */
  lemma MoveAccrues(s: State, move: Instruction, signer: Pubkey, wait: nat)
    requires s.vault.lastYieldClaim <= s.now
    requires s.vault.OperatorKey() == signer && s.now + wait <= LAST_TIME && DailyRate(s.vault).Ok?
    requires move in {DistributeYield(signer), SyncYield(signer)} && MovesCounter(s, move)
    requires s.vault.pendingYield + DailyRate(s.vault).value * DaysElapsed(s.vault.lastYieldClaim, s.now + wait) <=
      U64_MAX
    ensures DaysElapsed(s.now, s.now + wait) <= DaysElapsed(s.vault.lastYieldClaim, s.now + wait)
    ensures Accrued(s, [Program(move)] + WaitAndProcess(signer, wait)) ==
      DailyRate(s.vault).value * DaysElapsed(s.now, s.now + wait)
  {
    CounterMoveNeverGains(s.vault.lastYieldClaim, s.now, s.now + wait);
    FewerDaysFit(s.vault.pendingYield, DailyRate(s.vault).value, DaysElapsed(s.vault.lastYieldClaim, s.now + wait),
      DaysElapsed(s.now, s.now + wait));
    MovedAccrues(s, move, signer, wait);
  }

  /** A distribution or sync at `s.now`, followed by processing `wait` seconds later, accrues exactly
      the full days since the move, where the undisturbed run accrues the full days since the old
      counter (provided that does not overflow). It never accrues more, and it accrues the same if and
      only if the daily yield is zero or both count the same days. */
  lemma MoveForfeitsExactly(s: State, move: Instruction, signer: Pubkey, wait: nat)
    requires Inv(s) && s.vault.OperatorKey() == signer && s.now + wait <= LAST_TIME && DailyRate(s.vault).Ok?
    requires move in {DistributeYield(signer), SyncYield(signer)} && MovesCounter(s, move)
    requires s.vault.pendingYield + DailyRate(s.vault).value * DaysElapsed(s.vault.lastYieldClaim, s.now + wait) <=
      U64_MAX
    ensures var daily, end: Time := DailyRate(s.vault).value, s.now + wait;
      var moved, undisturbed := Accrued(s, [Program(move)] + WaitAndProcess(signer, wait)),
        Accrued(s, WaitAndProcess(signer, wait));
      && undisturbed - moved == daily * (DaysElapsed(s.vault.lastYieldClaim, end) - DaysElapsed(s.now, end))
      && moved <= undisturbed
      && (moved == undisturbed <==> daily == 0 || DaysElapsed(s.vault.lastYieldClaim, end) == DaysElapsed(s.now, end))
  {
    WaitAccrues(s, signer, wait);
    MoveAccrues(s, move, signer, wait);
    DayDifference(DailyRate(s.vault).value, DaysElapsed(s.vault.lastYieldClaim, s.now + wait),
      DaysElapsed(s.now, s.now + wait), Accrued(s, WaitAndProcess(signer, wait)),
      Accrued(s, [Program(move)] + WaitAndProcess(signer, wait)));
  }

  lemma FewerDaysFit(pending: nat, daily: nat, before: nat, after: nat)
    requires after <= before && pending + daily * before <= U64_MAX
    ensures pending + daily * after <= U64_MAX
  {
    DayDifference(daily, before, after, daily * before, daily * after);
    ZeroProduct(daily, before - after);
  }

  lemma DayDifference(daily: nat, before: nat, after: nat, undisturbed: nat, moved: nat)
    requires after <= before && undisturbed == daily * before && moved == daily * after
    ensures undisturbed - moved == daily * (before - after) >= 0
    ensures moved == undisturbed <==> daily == 0 || before == after
  {
    Distribute(daily, after, before - after);
    ZeroProduct(daily, before - after);
  }

  lemma ZeroProduct(a: nat, b: nat)
    ensures a * b >= 0 && (a * b == 0 <==> a == 0 || b == 0)
  {}

  // ---------------------------------------------------------------- whole runs

  /** Full days that accepted process_yield calls of the run counted. */
  function Counted(s: State, es: seq<Event>): nat
    decreases es
  {
    if es == [] then 0 else CountedBy(s, es[0]) + Counted(Next(s, es[0]), es[1..])
  }

  function CountedBy(s: State, e: Event): nat {
    if e.Program? && e.instruction.ProcessYield? && Attempt(s, e).Ok? then DaysElapsed(s.vault.lastYieldClaim, s.now)
      else 0
  }

  /** Seconds over which distributions and syncs of the run moved the counter. */
  function Skipped(s: State, es: seq<Event>): int
    decreases es
  {
    if es == [] then 0 else SkippedBy(s, es[0]) + Skipped(Next(s, es[0]), es[1..])
  }

  function SkippedBy(s: State, e: Event): int {
    if e.Program? && MovesCounter(s, e.instruction) && Attempt(s, e).Ok? then s.now - s.vault.lastYieldClaim else 0
  }

  lemma TokenStepsKeepCounter(s: State, i: Instruction)
    requires i.Deposit? || i.Redeem? || i.ConvertToTradeable? || i.RedeemTradeable?
    requires Execute(s, i).Ok?
    ensures Execute(s, i).value.vault.lastYieldClaim == s.vault.lastYieldClaim
  {}

  lemma OtherStepsKeepCounter(s: State, i: Instruction)
    requires !(i.Deposit? || i.Redeem? || i.ConvertToTradeable? || i.RedeemTradeable?)
    requires !i.ProcessYield? && !i.DistributeYield? && !i.SyncYield?
    requires Execute(s, i).Ok?
    ensures Execute(s, i).value.vault.lastYieldClaim == s.vault.lastYieldClaim
  {}

  lemma StepMovesCounter(s: State, e: Event)
    ensures Next(s, e).vault.lastYieldClaim ==
      s.vault.lastYieldClaim + SECONDS_IN_DAY * CountedBy(s, e) + SkippedBy(s, e)
  {
    if Attempt(s, e).Ok? {
      match e
      case Outside(o) => SurroundingsKeepVault(s, o);
      case Program(ProcessYield(_)) =>
        var days := DaysElapsed(s.vault.lastYieldClaim, s.now);
        if days > 0 { ProcessAccepted(DailyRate(s.vault).value, s.vault.Yield(), s.now); }
      case Program(DistributeYield(_)) =>
      case Program(SyncYield(_)) =>
      case Program(i) =>
        if i.Deposit? || i.Redeem? || i.ConvertToTradeable? || i.RedeemTradeable? {
          TokenStepsKeepCounter(s, i);
        } else {
          OtherStepsKeepCounter(s, i);
        }
    }
  }

  /** Time is conserved: in every run the counter advances by the days counted and the seconds skipped,
      and by nothing else; so the time since launch is counted, skipped, or still unprocessed. */
  lemma {:induction false} CounterAccounted(s: State, es: seq<Event>)
    ensures Run(s, es).vault.lastYieldClaim == s.vault.lastYieldClaim + SECONDS_IN_DAY * Counted(s, es) + Skipped(s, es)
    decreases es
  {
    if es != [] {
      StepMovesCounter(s, es[0]);
      CounterAccounted(Next(s, es[0]), es[1..]);
    }
  }

  /** Whenever the run counts days, the daily yield is `daily`. */
  predicate SteadyRate(s: State, es: seq<Event>, daily: u64)
    decreases es
  {
    es == [] || ((CountedBy(s, es[0]) > 0 ==> DailyRate(s.vault) == Ok(daily)) &&
      SteadyRate(Next(s, es[0]), es[1..], daily))
  }

  lemma StepAccrual(s: State, e: Event, daily: u64)
    requires CountedBy(s, e) > 0 ==> DailyRate(s.vault) == Ok(daily)
    ensures AccruedBy(s, e) == daily * CountedBy(s, e)
  {}

  lemma {:induction false} AccruedIsCounted(s: State, es: seq<Event>, daily: u64)
    requires SteadyRate(s, es, daily)
    ensures Accrued(s, es) == daily * Counted(s, es)
    decreases es
  {
    if es != [] {
      var t := Next(s, es[0]);
      StepAccrual(s, es[0], daily);
      AccruedIsCounted(t, es[1..], daily);
      assert Accrued(s, es) == AccruedBy(s, es[0]) + Accrued(t, es[1..]);
      assert Counted(s, es) == CountedBy(s, es[0]) + Counted(t, es[1..]);
      SumOfProducts(AccruedBy(s, es[0]), Accrued(t, es[1..]), daily, CountedBy(s, es[0]), Counted(t, es[1..]));
    }
  }

  lemma SumOfProducts(x: nat, y: nat, daily: nat, a: nat, b: nat)
    requires x == daily * a && y == daily * b
    ensures x + y == daily * (a + b)
  {
    Distribute(daily, a, b);
  }

  lemma Distribute(a: nat, b: nat, c: nat)
    ensures a * (b + c) == a * b + a * c
  {}

  /** Yield for `counted` days out of `elapsed` seconds is that of all full days exactly when the rest is
      shorter than a day. */
  lemma FullDays(accrued: nat, daily: nat, elapsed: nat, counted: nat, rest: nat)
    requires accrued == daily * counted && elapsed == SECONDS_IN_DAY * counted + rest && daily > 0
    ensures accrued <= daily * (elapsed / SECONDS_IN_DAY)
    ensures accrued == daily * (elapsed / SECONDS_IN_DAY) <==> rest < SECONDS_IN_DAY
  {
    var days := elapsed / SECONDS_IN_DAY;
    assert days == counted + rest / SECONDS_IN_DAY;
    Distribute(daily, counted, days - counted);
    ZeroProduct(daily, days - counted);
  }

  /** Over a whole run at a steady positive daily yield, nothing is forfeited if and only if the skipped
      seconds and the unprocessed ones together make less than a day: then the run accrued exactly the
      full days since its start, and otherwise strictly less. */
  lemma RunForfeitsExactly(s: State, es: seq<Event>, daily: u64)
    requires Inv(s) && SteadyRate(s, es, daily) && daily > 0
    ensures var t := Run(s, es);
      var full := daily * DaysElapsed(s.vault.lastYieldClaim, t.now);
      && Accrued(s, es) <= full
      && (Accrued(s, es) == full <==> Skipped(s, es) + (t.now - t.vault.lastYieldClaim) < SECONDS_IN_DAY)
  {
    RunTimes(s, es);
    AccruedIsCounted(s, es, daily);
    var t := Run(s, es);
    FullDays(Accrued(s, es), daily, t.now - s.vault.lastYieldClaim, Counted(s, es),
      Skipped(s, es) + (t.now - t.vault.lastYieldClaim));
  }

  /** The time since the counter's start, split. */
  lemma RunTimes(s: State, es: seq<Event>)
    requires Inv(s)
    ensures var t := Run(s, es);
      && t.now - s.vault.lastYieldClaim ==
         SECONDS_IN_DAY * Counted(s, es) + (Skipped(s, es) + (t.now - t.vault.lastYieldClaim))
      && Skipped(s, es) >= 0 && t.now >= t.vault.lastYieldClaim && t.now >= s.vault.lastYieldClaim
  {
    RunRefines(s, es);
    CounterAccounted(s, es);
    SkippedNonNegative(s, es);
  }

  lemma {:induction false} SkippedNonNegative(s: State, es: seq<Event>)
    requires Inv(s)
    ensures Skipped(s, es) >= 0
    decreases es
  {
    if es != [] {
      NextMoves(s, es[0]);
      SkippedNonNegative(Next(s, es[0]), es[1..]);
    }
  }

  // ---------------------------------------------------------------- a run that loses a day

  const OPERATOR := Key(0)

  /** A launch at time 0 with everything allocated at 100% a year, while one holder owns 365 USDC. */
  const LAUNCHED: State := State(
    Vault(OPERATOR, Default, 1, 1_000_000_000, 10_000, 10_000, false, 0, 0, 0, 0, false, NAV_BPS_DENOMINATOR, Default,
      Default),
    Ledger(map[VaultToken := TokenAccount(VaultState, 0), Key(2) := TokenAccount(Key(1), 365_000_000)], 365_000_000),
    Ledger(map[], 0), Ledger(map[], 0), map[], map[], None, None, None, 0)

  /** The holder deposits it all; yield is processed after one day; half a day passes. */
  const DAY_AND_A_HALF: seq<Event> := [
    Outside(OpenAccount(Cvault, Key(3), Key(1))),
    Program(IssueCredential(OPERATOR, Key(1), 0, 1_000_000)),
    Program(Deposit(Key(1), Key(2), Key(3), None, 365_000_000)),
    Outside(Advance(86_400)),
    Program(ProcessYield(OPERATOR)),
    Outside(Advance(43_200))]

  lemma LaunchedInitial()
    ensures Initial(LAUNCHED)
  {
    var none: map<Pubkey, TokenAccount> := map[];
    TotalUpdate(none, VaultToken, TokenAccount(VaultState, 0));
    TotalUpdate(none[VaultToken := TokenAccount(VaultState, 0)], Key(2), TokenAccount(Key(1), 365_000_000));
    assert LAUNCHED.usdc.accounts ==
      none[VaultToken := TokenAccount(VaultState, 0)][Key(2) := TokenAccount(Key(1), 365_000_000)];
    assert LaunchedVault(Launch(OPERATOR, Default, 1, 1_000_000_000, 10_000, 10_000, false), 0) == Ok(LAUNCHED.vault);
  }

  /** The holder has a share account and a credential, and the vault is as launched. */
  predicate ReadyToDeposit(s: State) {
    && s.vault == LAUNCHED.vault && s.usdc == LAUNCHED.usdc && s.now == 0
    && Key(3) in s.cvault.accounts && s.cvault.accounts[Key(3)].amount == 0 && s.cvault.supply == 0
    && Key(1) in s.credentials && s.credentials[Key(1)] == Credential(Key(1), 0, 1_000_000, CREDENTIAL_STATUS_ACTIVE)
  }

  lemma HolderPrepared()
    ensures ReadyToDeposit(Next(Next(LAUNCHED, DAY_AND_A_HALF[0]), DAY_AND_A_HALF[1]))
  {
    assert Next(LAUNCHED, DAY_AND_A_HALF[0]) == LAUNCHED.(cvault := Ledger(map[Key(3) := TokenAccount(Key(1), 0)], 0));
  }

  /** A small deposit into a vault at par that the gate and both ledgers accept books the amount twice. */
  lemma DepositAtPar(s: State, payer: Pubkey, source: Pubkey, destination: Pubkey, amount: u64)
    requires DepositGate(s, payer, None, amount).Ok? && 0 < amount < TRAVEL_RULE_THRESHOLD
    requires s.vault.navPriceBps == NAV_BPS_DENOMINATOR
    requires s.usdc.Transfer(source, VaultToken, payer, amount).Ok? && s.cvault.MintTo(destination, amount).Ok?
    requires s.vault.totalDeposits + amount <= U64_MAX && s.vault.totalSupply + amount <= U64_MAX
    ensures var t := Next(s, Program(Deposit(payer, source, destination, None, amount)));
      t.now == s.now &&
      t.vault == s.vault.(totalDeposits := s.vault.totalDeposits + amount, totalSupply := s.vault.totalSupply + amount)
  {
    assert CheckedShares(amount, NAV_BPS_DENOMINATOR) == Ok(amount);
  }

  const BOOKED: Vault := LAUNCHED.vault.(totalDeposits := 365_000_000, totalSupply := 365_000_000)

  lemma HolderDeposits(s: State)
    requires ReadyToDeposit(s)
    ensures var t := Next(s, DAY_AND_A_HALF[2]); t.vault == BOOKED && t.now == 0
  {
    DepositAtPar(s, Key(1), Key(2), Key(3), 365_000_000);
  }

  lemma DayProcessed(s: State)
    requires s.vault == BOOKED && s.now == 86_400
    ensures var t := Next(s, DAY_AND_A_HALF[4]);
      t.vault == BOOKED.(pendingYield := 1_000_000, lastYieldClaim := 86_400) && t.now == 86_400
  {
    assert DailyRate(s.vault) == Ok(1_000_000);
  }

  lemma Waited(s: State, wait: nat)
    requires s.now + wait <= LAST_TIME
    ensures Next(s, Outside(Advance(wait))) == s.(now := s.now + wait)
  {}

  lemma RunTwo(s: State, es: seq<Event>)
    requires |es| >= 2
    ensures Run(s, es) == Run(Next(Next(s, es[0]), es[1]), es[2..])
  {
    assert es[1..][1..] == es[2..];
    assert Run(s, es) == Run(Next(s, es[0]), es[1..]);
  }

  /** Halfway through the second day one day's yield is pending and the counter stands at its end. */
  predicate Halfway(s: State) {
    s.vault == BOOKED.(pendingYield := 1_000_000, lastYieldClaim := 86_400) && s.now == 129_600
  }

  lemma HalfwayReached()
    ensures Halfway(Run(LAUNCHED, DAY_AND_A_HALF))
  {
    var es := DAY_AND_A_HALF;
    HolderPrepared();
    RunTwo(LAUNCHED, es);
    var s := Next(Next(LAUNCHED, es[0]), es[1]);
    HolderDeposits(s);
    var t := Next(s, es[2]);
    Waited(t, 86_400);
    RunTwo(s, es[2..]);
    DayProcessed(t.(now := 86_400));
    var u := Next(t.(now := 86_400), es[4]);
    Waited(u, 43_200);
    RunTwo(t.(now := 86_400), es[4..]);
    assert es[2..][2..] == es[4..] && es[4..][2..] == [];
  }

  /** In this reachable state, half a day after the last processing, a distribution or a sync loses a whole
      day's yield, although no full day was unprocessed when it happened. */
  lemma DistributionForfeitsADay()
    ensures Initial(LAUNCHED)
    ensures var s := Run(LAUNCHED, DAY_AND_A_HALF);
      && s.vault.pendingYield > 0 && DaysElapsed(s.vault.lastYieldClaim, s.now) == 0
      && Accrued(s, WaitAndProcess(OPERATOR, 43_200)) == 1_000_000
      && Accrued(s, [Program(DistributeYield(OPERATOR))] + WaitAndProcess(OPERATOR, 43_200)) == 0
      && Accrued(s, [Program(SyncYield(OPERATOR))] + WaitAndProcess(OPERATOR, 43_200)) == 0
  {
    LaunchedInitial();
    HalfwayReached();
    var s := Run(LAUNCHED, DAY_AND_A_HALF);
    HalfwayUndisturbed(s);
    HalfwayMoved(s, DistributeYield(OPERATOR));
    HalfwayMoved(s, SyncYield(OPERATOR));
  }

  lemma HalfwayUndisturbed(s: State)
    requires Halfway(s)
    ensures Accrued(s, WaitAndProcess(OPERATOR, 43_200)) == 1_000_000
  {
    assert DailyRate(s.vault) == Ok(1_000_000);
    WaitAccrues(s, OPERATOR, 43_200);
  }

  lemma HalfwayMoved(s: State, move: Instruction)
    requires Halfway(s) && move in {DistributeYield(OPERATOR), SyncYield(OPERATOR)}
    ensures Accrued(s, [Program(move)] + WaitAndProcess(OPERATOR, 43_200)) == 0
  {
    assert DailyRate(s.vault) == Ok(1_000_000);
    MovedAccrues(s, move, OPERATOR, 43_200);
  }
}
