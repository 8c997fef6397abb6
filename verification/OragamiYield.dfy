/** Yield over whole runs of the yield vault, and what its reserve and liquidity checks can say. */
module OragamiYield {
  import opened Results
  import opened FixedPoint
  import opened TokenLedger
  import opened YieldAccrual
  import opened OragamiSpec
  import opened OragamiRefinement
  import opened OragamiTheorems

  // ---------------------------------------------------------------- cadence

  /** process_yield called by the operator at each of `times`, nothing else happening in between. */
  function ProcessYieldAt(s: State, signer: Pubkey, times: seq<Time>): Result<State>
    decreases times
  {
    if times == [] then Ok(s) else
    var t :- ProcessYieldStep(s.(now := times[0]), signer);
    ProcessYieldAt(t, signer, times[1..])
  }

  function DailyRate(v: Vault): Result<u64> {
    DailyYield(v.totalDeposits, v.usxAllocationBps, v.apyBps)
  }

  function WithYield(s: State, a: Accrual, now: Time): State {
    s.(vault := s.vault.(pendingYield := a.pending, lastYieldClaim := a.lastClaim), now := now)
  }

  lemma {:induction false} ProcessYieldAtAccrues(s: State, signer: Pubkey, times: seq<Time>)
    requires times != [] && signer == s.vault.OperatorKey()
    ensures ProcessYieldAt(s, signer, times) ==
      match ProcessAll(DailyRate(s.vault), s.vault.Yield(), times)
      case Ok(a) => Ok(WithYield(s, a, times[|times| - 1]))
      case Err(e) => Err(e)
    decreases times
  {
    var first := Process(DailyRate(s.vault), s.vault.Yield(), times[0]);
    if first.Ok? {
      var t := WithYield(s, first.value, times[0]);
      assert ProcessYieldStep(s.(now := times[0]), signer) == Ok(t);
      if |times| > 1 {
        ProcessYieldAtAccrues(t, signer, times[1..]);
      }
    }
  }

  /** Whatever the calling schedule, the state after the last call, or the overflow, is that of a
      single call at the last time. */
  lemma ProcessYieldCadenceIndependent(s: State, signer: Pubkey, times: seq<Time>)
    requires times != [] && NonDecreasing(times) && signer == s.vault.OperatorKey()
    ensures ProcessYieldAt(s, signer, times) == ProcessYieldStep(s.(now := times[|times| - 1]), signer)
  {
    ProcessYieldAtAccrues(s, signer, times);
    CadenceIndependent(DailyRate(s.vault), s.vault.Yield(), times);
  }

  // ---------------------------------------------------------------- bookkeeping

  /** Yield that one event accrues: the daily yield for each full day since the counter. */
  function AccruedBy(s: State, e: Event): nat {
    if e.Program? && e.instruction.ProcessYield? && Attempt(s, e).Ok? && DaysElapsed(s.vault.lastYieldClaim, s.now) > 0
    then
      var daily: u64 := DailyRate(s.vault).value;
      Product(daily, DaysElapsed(s.vault.lastYieldClaim, s.now));
      daily * DaysElapsed(s.vault.lastYieldClaim, s.now)
    else 0
  }

  /** Yield that one event records as distributed. */
  function DistributedBy(s: State, e: Event): nat {
    if e.Program? && e.instruction.DistributeYield? && Attempt(s, e).Ok? then s.vault.pendingYield else 0
  }

  function Accrued(s: State, es: seq<Event>): nat
    decreases es
  {
    if es == [] then 0 else AccruedBy(s, es[0]) + Accrued(Next(s, es[0]), es[1..])
  }

  function Distributed(s: State, es: seq<Event>): nat
    decreases es
  {
    if es == [] then 0 else DistributedBy(s, es[0]) + Distributed(Next(s, es[0]), es[1..])
  }

  lemma SurroundingsKeepVault(s: State, o: Surroundings)
    requires Happen(s, o).Ok?
    ensures Happen(s, o).value.vault == s.vault
  {}

  lemma TokenStepsKeepPending(s: State, i: Instruction)
    requires i.Deposit? || i.Redeem? || i.ConvertToTradeable? || i.RedeemTradeable?
    requires Execute(s, i).Ok?
    ensures Execute(s, i).value.vault.pendingYield == s.vault.pendingYield
  {}

  lemma OtherStepsKeepPending(s: State, i: Instruction)
    requires !(i.Deposit? || i.Redeem? || i.ConvertToTradeable? || i.RedeemTradeable?)
    requires !i.ProcessYield? && !i.DistributeYield?
    requires Execute(s, i).Ok?
    ensures Execute(s, i).value.vault.pendingYield == s.vault.pendingYield
  {}

  lemma PendingUntouched(s: State, e: Event)
    requires !e.Program? || (!e.instruction.ProcessYield? && !e.instruction.DistributeYield?)
    ensures Next(s, e).vault.pendingYield == s.vault.pendingYield
  {
    if Attempt(s, e).Ok? {
      match e
      case Outside(o) => SurroundingsKeepVault(s, o);
      case Program(i) =>
        if i.Deposit? || i.Redeem? || i.ConvertToTradeable? || i.RedeemTradeable? {
          TokenStepsKeepPending(s, i);
        } else {
          OtherStepsKeepPending(s, i);
        }
    }
  }

  lemma StepBookkeeping(s: State, e: Event)
    ensures Next(s, e).vault.pendingYield + DistributedBy(s, e) == s.vault.pendingYield + AccruedBy(s, e)
  {
    if e.Program? && e.instruction.ProcessYield? {
      var days := DaysElapsed(s.vault.lastYieldClaim, s.now);
      if days > 0 && DailyRate(s.vault).Ok? {
        ProcessAccepted(DailyRate(s.vault).value, s.vault.Yield(), s.now);
      }
    } else if e.Program? && e.instruction.DistributeYield? {
    } else {
      PendingUntouched(s, e);
    }
  }

  lemma {:induction false} RunBookkeeping(s: State, es: seq<Event>)
    ensures Run(s, es).vault.pendingYield + Distributed(s, es) == s.vault.pendingYield + Accrued(s, es)
    decreases es
  {
    if es != [] {
      StepBookkeeping(s, es[0]);
      RunBookkeeping(Next(s, es[0]), es[1..]);
    }
  }

  /** In every run all accrued yield is either distributed or pending, and the day counter never
      runs ahead of the clock. */
  lemma YieldBookkeeping(s: State, es: seq<Event>)
    requires Initial(s)
    ensures Accrued(s, es) == Distributed(s, es) + Run(s, es).vault.pendingYield
    ensures Run(s, es).vault.lastYieldClaim <= Run(s, es).now
  {
    InitialInv(s);
    RunRefines(s, es);
    RunBookkeeping(s, es);
  }

  /** After any successful process_yield of a run less than one day is left unprocessed. */
  lemma ProcessedUpToADay(s: State, es: seq<Event>, signer: Pubkey)
    requires Initial(s) && ProcessYieldStep(Run(s, es), signer).Ok?
    ensures var t := ProcessYieldStep(Run(s, es), signer).value;
      t.vault.lastYieldClaim <= t.now < t.vault.lastYieldClaim + SECONDS_IN_DAY
  {
    InitialInv(s);
    RunRefines(s, es);
    var v := Run(s, es).vault;
    LessThanOneDayLeft(DailyRate(v), v.Yield(), Run(s, es).now);
  }

  // ---------------------------------------------------------------- proof of reserve

  /** With a collateral ratio of at most par, the reserve comparison can fail only by overflow. */
  lemma ReserveFailsOnlyByOverflow(usdc: u64, usx: u64, eusx: u64, totalDeposits: u64, ratioBps: u16)
    requires totalDeposits <= usdc && ratioBps <= 10_000
    ensures FinancialCheck(usdc, usx, eusx, totalDeposits, ratioBps) ==
      if (usdc + usx + eusx) * 10_000 <= U64_MAX then Ok(()) else Err(Overflow)
  {
    ProductMonotone(ratioBps, 10_000, totalDeposits);
  }

  /** Over par it fails for every vault that holds exactly its deposits and has no strategy tokens. */
  lemma ReserveFailsAbovePar(totalDeposits: u64, ratioBps: u16)
    requires ratioBps > 10_000 && totalDeposits > 0
    ensures FinancialCheck(totalDeposits, 0, 0, totalDeposits, ratioBps).Err?
  {
    ProductMonotone(10_001, ratioBps, totalDeposits);
  }

  /** In every run with a ratio of at most par, proof of reserve passes exactly when the attestation
      is fresh and matches, the registered strategy accounts are supplied, and the sum fits. */
  lemma ProofOfReserveExactly(s: State, es: seq<Event>, a: StrategyAccounts)
    requires Initial(s)
    requires var t := Run(s, es);
      t.mandate.Some? && t.registry.Some? && t.attestation.Some? && t.mandate.value.minCollateralRatioBps <= 10_000
    ensures var t := Run(s, es);
      var usx := if t.vault.usxAccount == Default then 0 else a.usxAmount;
      var eusx := if t.vault.eusxAccount == Default then 0 else a.eusxAmount;
      && VerifyProofOfReserve(t, a) != Err(ProofOfReserveFailed)
      && (VerifyProofOfReserve(t, a).Ok? <==>
            && t.now - t.attestation.value.attestedAt <= MAX_ATTESTATION_AGE_SECS
            && t.attestation.value.hash == t.registry.value.linkHash
            && (t.vault.usxAccount != Default ==> a.usx == Some(t.vault.usxAccount))
            && (t.vault.eusxAccount != Default ==> a.eusx == Some(t.vault.eusxAccount))
            && (t.usdc.Balance(VaultToken) + usx + eusx) * 10_000 <= U64_MAX)
  {
    CustodyCoversBook(s, es);
    var t := Run(s, es);
    var usx := if t.vault.usxAccount == Default then 0 else a.usxAmount;
    var eusx := if t.vault.eusxAccount == Default then 0 else a.eusxAmount;
    ReserveFailsOnlyByOverflow(t.usdc.Balance(VaultToken), usx, eusx, t.vault.totalDeposits,
      t.mandate.value.minCollateralRatioBps);
  }

  /** For every ratio and whatever the state: the comparison passes exactly when both sides fit 64 bits and
      the assets reach the ratio of the deposits. */
  lemma FinancialCheckExactly(usdc: u64, usx: u64, eusx: u64, totalDeposits: u64, ratioBps: u16)
    ensures FinancialCheck(usdc, usx, eusx, totalDeposits, ratioBps).Ok? <==>
      && (usdc + usx + eusx) * 10_000 <= 18_446_744_073_709_551_615
      && totalDeposits * ratioBps <= 18_446_744_073_709_551_615
      && (usdc + usx + eusx) * 10_000 >= totalDeposits * ratioBps
    ensures FinancialCheck(usdc, usx, eusx, totalDeposits, ratioBps) == Err(ProofOfReserveFailed) <==>
      && (usdc + usx + eusx) * 10_000 <= 18_446_744_073_709_551_615
      && totalDeposits * ratioBps <= 18_446_744_073_709_551_615
      && (usdc + usx + eusx) * 10_000 < totalDeposits * ratioBps
  {
    Product(totalDeposits, ratioBps);
  }

  /** What a registered strategy account adds to the assets. */
  function Held(registered: Pubkey, amount: u64): u64 {
    if registered == Default then 0 else amount
  }

  /** So in any state proof of reserve passes exactly when there is a fresh attestation with the registry's
      digest, the registered strategy accounts are supplied, and that comparison passes. */
  lemma ProofOfReserveForEveryRatio(s: State, a: StrategyAccounts)
    ensures VerifyProofOfReserve(s, a).Ok? <==>
      && s.mandate.Some? && s.registry.Some? && s.attestation.Some?
      && s.now - s.attestation.value.attestedAt <= 86_400
      && s.attestation.value.hash == s.registry.value.linkHash
      && (s.vault.usxAccount != Default ==> a.usx == Some(s.vault.usxAccount))
      && (s.vault.eusxAccount != Default ==> a.eusx == Some(s.vault.eusxAccount))
      && var assets := s.usdc.Balance(VaultToken) + Held(s.vault.usxAccount, a.usxAmount) +
                       Held(s.vault.eusxAccount, a.eusxAmount);
         var ratio := s.mandate.value.minCollateralRatioBps;
         s.vault.totalDeposits * ratio <= assets * 10_000 <= 18_446_744_073_709_551_615
  {
    if s.mandate.Some? {
      FinancialCheckExactly(s.usdc.Balance(VaultToken), Held(s.vault.usxAccount, a.usxAmount),
        Held(s.vault.eusxAccount, a.eusxAmount), s.vault.totalDeposits, s.mandate.value.minCollateralRatioBps);
    }
  }

  // ---------------------------------------------------------------- liquidity band

  /** The band for this total exists: its floor does not exceed its ceiling. */
  predicate BandExists(totalDeposits: u64, usxAllocationBps: u16, bufferBps: u16) {
    var low, high := MinIdle(totalDeposits, bufferBps), MaxIdle(totalDeposits, usxAllocationBps);
    low.Ok? && high.Ok? && low.value <= high.value
  }

  lemma BandFits(totalDeposits: u64, usxAllocationBps: u16, bufferBps: u16)
    requires bufferBps <= SaturatingSub(10_000, usxAllocationBps) && totalDeposits * 10_000 <= U64_MAX
    ensures BandExists(totalDeposits, usxAllocationBps, bufferBps)
  {
    var high := SaturatingSub(10_000, usxAllocationBps);
    ProductMonotone(bufferBps, high, totalDeposits);
    ProductMonotone(high, 10_000, totalDeposits);
    Product(bufferBps, totalDeposits);
    DivisionMonotone(totalDeposits * bufferBps, totalDeposits * high, 10_000);
  }

  /** The band exists for every total that does not overflow if and only if the buffer and the
      allocation fit beside each other; the mandate's ceiling plays no part. */
  lemma BandNonEmptyExactly(usxAllocationBps: u16, bufferBps: u16)
    ensures (forall totalDeposits: u64 | totalDeposits * 10_000 <= U64_MAX ::
      BandExists(totalDeposits, usxAllocationBps, bufferBps)) <==>
      bufferBps <= SaturatingSub(10_000, usxAllocationBps)
  {
    if bufferBps <= SaturatingSub(10_000, usxAllocationBps) {
      forall totalDeposits: u64 | totalDeposits * 10_000 <= U64_MAX
        ensures BandExists(totalDeposits, usxAllocationBps, bufferBps)
      {
        BandFits(totalDeposits, usxAllocationBps, bufferBps);
      }
    } else {
      assert !BandExists(10_000, usxAllocationBps, bufferBps);
    }
  }

  /** An admitted mandate whose ceiling the allocation respects is enough. */
  lemma BandNonEmpty(totalDeposits: u64, usxAllocationBps: u16, m: Mandate)
    requires m.minLiquidityBufferBps + m.maxUsxAllocationBps <= 10_000 && usxAllocationBps <= m.maxUsxAllocationBps
    requires totalDeposits * 10_000 <= U64_MAX
    ensures BandExists(totalDeposits, usxAllocationBps, m.minLiquidityBufferBps)
  {
    BandFits(totalDeposits, usxAllocationBps, m.minLiquidityBufferBps);
  }

  /** The most idle USDC allowed is below the deposits as soon as anything is allocated. */
  lemma AllocationLowersCeiling(totalDeposits: u64, usxAllocationBps: u16)
    requires totalDeposits * 10_000 <= U64_MAX
    ensures MaxIdle(totalDeposits, usxAllocationBps).Ok?
    ensures usxAllocationBps == 0 || totalDeposits == 0 ==>
      MaxIdle(totalDeposits, usxAllocationBps).value == totalDeposits
    ensures usxAllocationBps > 0 && totalDeposits > 0 ==> MaxIdle(totalDeposits, usxAllocationBps).value < totalDeposits
  {
    var share := SaturatingSub(10_000, usxAllocationBps);
    ProductMonotone(share, 10_000, totalDeposits);
    Product(share, totalDeposits);
    if usxAllocationBps > 0 {
      ProductMonotone(share, 9_999, totalDeposits);
    }
  }

  lemma BufferBelowDeposits(totalDeposits: u64, bufferBps: u16)
    requires totalDeposits * 10_000 <= U64_MAX && bufferBps <= 10_000
    ensures MinIdle(totalDeposits, bufferBps).Ok? && MinIdle(totalDeposits, bufferBps).value <= totalDeposits
  {
    ProductMonotone(bufferBps, 10_000, totalDeposits);
    Product(bufferBps, totalDeposits);
  }

  /** An active band with an allocation and deposits rejects, overflow or not: no instruction moves USDC
      to the strategy. */
  lemma AllocatedBandRejects(s: State, es: seq<Event>)
    requires Initial(s)
    requires Run(s, es).mandate.Some? && Run(s, es).mandate.value.enforcementActive
    requires Run(s, es).vault.usxAllocationBps > 0 && Run(s, es).vault.totalDeposits > 0
    ensures AssertLiquidityAllocation(Run(s, es)).Err?
  {
    CustodyCoversBook(s, es);
    var v := Run(s, es).vault;
    var share := SaturatingSub(10_000, v.usxAllocationBps);
    ProductMonotone(share, 9_999, v.totalDeposits);
    Product(share, v.totalDeposits);
  }

  /** No instruction moves USDC to the strategy, so in every run an active band check passes exactly
      when the vault holds exactly its deposits, nothing is allocated (or nothing deposited), and the
      deposits' ten-thousandfold fits 64 bits. */
  lemma BandCheckExactly(s: State, es: seq<Event>)
    requires Initial(s)
    requires Run(s, es).mandate.Some? && Run(s, es).mandate.value.enforcementActive
    ensures var t := Run(s, es);
      AssertLiquidityAllocation(t).Ok? <==>
        && t.usdc.Balance(VaultToken) == t.vault.totalDeposits
        && (t.vault.usxAllocationBps == 0 || t.vault.totalDeposits == 0)
        && t.vault.totalDeposits * 10_000 <= U64_MAX
  {
    InitialInv(s);
    RunRefines(s, es);
    var v := Run(s, es).vault;
    if v.totalDeposits * 10_000 <= U64_MAX {
      AllocationLowersCeiling(v.totalDeposits, v.usxAllocationBps);
      BufferBelowDeposits(v.totalDeposits, Run(s, es).mandate.value.minLiquidityBufferBps);
    } else if v.usxAllocationBps > 0 {
      AllocatedBandRejects(s, es);
    }
  }

  /** In any state the band check passes exactly when there is a mandate and it is not enforced, or the two
      products fit and the idle USDC lies between buffer and what the allocation leaves. */
  lemma LiquidityCheckExactly(s: State)
    ensures AssertLiquidityAllocation(s).Ok? <==>
      s.mandate.Some? &&
      (s.mandate.value.enforcementActive ==>
        var v, buffer := s.vault, s.mandate.value.minLiquidityBufferBps;
        var left := if v.usxAllocationBps <= 10_000 then 10_000 - v.usxAllocationBps else 0;
        && v.totalDeposits * left <= 18_446_744_073_709_551_615
        && v.totalDeposits * buffer <= 18_446_744_073_709_551_615
        && v.totalDeposits * buffer / 10_000 <= s.usdc.Balance(VaultToken) <= v.totalDeposits * left / 10_000)
    ensures AssertLiquidityAllocation(s).Err? && s.mandate.Some? ==>
      AssertLiquidityAllocation(s).error ==
        var v, buffer := s.vault, s.mandate.value.minLiquidityBufferBps;
        var left := if v.usxAllocationBps <= 10_000 then 10_000 - v.usxAllocationBps else 0;
        if v.totalDeposits * left <= 18_446_744_073_709_551_615 &&
           v.totalDeposits * buffer <= 18_446_744_073_709_551_615
        then LiquidityAllocationBreached else Overflow
  {
    if s.mandate.Some? {
      Product(s.vault.totalDeposits, s.mandate.value.minLiquidityBufferBps);
      Product(s.vault.totalDeposits, SaturatingSub(10_000, s.vault.usxAllocationBps));
    }
  }
}
