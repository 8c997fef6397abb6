/** The mandate's ceiling on the allocation: which instructions respect it, and that the code does not
    make them. */
module OragamiCeiling {
  import opened Results
  import opened FixedPoint
  import opened TokenLedger
  import opened OragamiSpec
  import opened OragamiRefinement
  import opened OragamiYield

  /** The allocation is within the mandate's ceiling, if there is a mandate. */
  predicate WithinCeiling(s: State) {
    s.mandate.Some? ==> s.vault.usxAllocationBps <= s.mandate.value.maxUsxAllocationBps
  }

  /** A new allocation is within the mandate's ceiling, and a new mandate's ceiling is not below the
      allocation already set. */
  predicate RespectsCeiling(s: State, e: Event) {
    match e
    case Program(UpdateConfig(_, config, _)) =>
      config.usxAllocationBps.Some? && s.mandate.Some? ==>
        config.usxAllocationBps.value <= s.mandate.value.maxUsxAllocationBps
    case Program(InitializeMandate(_, m)) => s.vault.usxAllocationBps <= m.maxUsxAllocationBps
    case _ => true
  }

  /** The event sets the allocation or the mandate. */
  predicate SetsTerms(e: Event) {
    e.Program? && (e.instruction.InitializeMandate? ||
      (e.instruction.UpdateConfig? && e.instruction.config.usxAllocationBps.Some?))
  }

  lemma TokenStepsKeepTerms(s: State, i: Instruction)
    requires i.Deposit? || i.Redeem? || i.ConvertToTradeable? || i.RedeemTradeable?
    requires Execute(s, i).Ok?
    ensures Execute(s, i).value.mandate == s.mandate
    ensures Execute(s, i).value.vault.usxAllocationBps == s.vault.usxAllocationBps
  {}

  lemma OtherStepsKeepTerms(s: State, i: Instruction)
    requires !(i.Deposit? || i.Redeem? || i.ConvertToTradeable? || i.RedeemTradeable?)
    requires !SetsTerms(Program(i)) && Execute(s, i).Ok?
    ensures WithinCeiling(Execute(s, i).value) <==> WithinCeiling(s)
  {}

  lemma KeepsCeiling(s: State, e: Event)
    requires !SetsTerms(e)
    ensures WithinCeiling(Next(s, e)) <==> WithinCeiling(s)
  {
    if Attempt(s, e).Ok? {
      match e
      case Outside(o) => SurroundingsKeepTerms(s, o);
      case Program(i) =>
        if i.Deposit? || i.Redeem? || i.ConvertToTradeable? || i.RedeemTradeable? {
          TokenStepsKeepTerms(s, i);
        } else {
          OtherStepsKeepTerms(s, i);
        }
    }
  }

  lemma SurroundingsKeepTerms(s: State, o: Surroundings)
    requires Happen(s, o).Ok?
    ensures Happen(s, o).value.mandate == s.mandate && Happen(s, o).value.vault == s.vault
  {}

  /** After an accepted change of terms the allocation is within the ceiling if and only if that change
      respected it. Where the mandate account is supplied, an update always does; the code asks for
      nothing else. */
  lemma CeilingAfterChange(s: State, e: Event)
    requires SetsTerms(e) && Attempt(s, e).Ok?
    ensures WithinCeiling(Next(s, e)) <==> RespectsCeiling(s, e)
    ensures e.instruction.UpdateConfig? && e.instruction.withMandate ==> RespectsCeiling(s, e)
  {}

  /** Whether the last accepted change of terms in the run respected the ceiling; `before` if there is
      none. */
  predicate LastChangeRespects(s: State, es: seq<Event>, before: bool)
    decreases es
  {
    if es == [] then before else
    LastChangeRespects(Next(s, es[0]), es[1..],
      if SetsTerms(es[0]) && Attempt(s, es[0]).Ok? then RespectsCeiling(s, es[0]) else before)
  }

  /** After any run the allocation is within the ceiling if and only if the last accepted change of
      terms respected it. */
  lemma {:induction false} CeilingHeldExactly(s: State, es: seq<Event>)
    ensures WithinCeiling(Run(s, es)) <==> LastChangeRespects(s, es, WithinCeiling(s))
    decreases es
  {
    if es != [] {
      if SetsTerms(es[0]) {
        if Attempt(s, es[0]).Ok? { CeilingAfterChange(s, es[0]); }
      } else {
        KeepsCeiling(s, es[0]);
      }
      CeilingHeldExactly(Next(s, es[0]), es[1..]);
    }
  }

  /** So from launch, if that change respected the ceiling, the vault's band exists whatever its total
      (overflow aside). */
  lemma BandInRespectfulRuns(s: State, es: seq<Event>, totalDeposits: u64)
    requires Initial(s) && LastChangeRespects(s, es, true)
    requires Run(s, es).mandate.Some? && totalDeposits * 10_000 <= U64_MAX
    ensures BandExists(totalDeposits, Run(s, es).vault.usxAllocationBps, Run(s, es).mandate.value.minLiquidityBufferBps)
  {
    InitialInv(s);
    RunRefines(s, es);
    CeilingHeldExactly(s, es);
    BandNonEmpty(totalDeposits, Run(s, es).vault.usxAllocationBps, Run(s, es).mandate.value);
  }

  // ---------------------------------------------------------------- a run above the ceiling

  const AUTHORITY := Key(0)

  const LAUNCHED: State := State(
    Vault(AUTHORITY, Default, 1, 1_000_000_000, 0, 0, false, 0, 0, 0, 0, false, NAV_BPS_DENOMINATOR, Default, Default),
    Ledger(map[VaultToken := TokenAccount(VaultState, 0)], 0), Ledger(map[], 0), Ledger(map[], 0),
    map[], map[], None, None, None, 0)

  const HALF_AND_HALF := Mandate(5_000, 5_000, 10_000, true)

  /** A mandate with buffer and ceiling of one half, then an allocation of 80% without the mandate
      account. */
  const OVER_THE_CEILING: seq<Event> := [
    Program(InitializeMandate(AUTHORITY, HALF_AND_HALF)),
    Program(UpdateConfig(AUTHORITY, ConfigUpdate(None, None, Some(8_000), None, None), false))]

  /** Both are accepted from launch, and then no amount of idle USDC satisfies the band for a total of
      10000 units. With the mandate account supplied the same update is refused. */
  lemma CeilingCanBeExceeded()
    ensures Initial(LAUNCHED)
    ensures var t := Run(LAUNCHED, OVER_THE_CEILING);
      && t == LAUNCHED.(mandate := Some(HALF_AND_HALF), vault := LAUNCHED.vault.(usxAllocationBps := 8_000))
      && !WithinCeiling(t)
      && !BandExists(10_000, t.vault.usxAllocationBps, t.mandate.value.minLiquidityBufferBps)
    ensures Execute(LAUNCHED.(mandate := Some(HALF_AND_HALF)),
        UpdateConfig(AUTHORITY, ConfigUpdate(None, None, Some(8_000), None, None), true)) == Err(MandateBreached)
  {
    var none: map<Pubkey, TokenAccount> := map[];
    TotalUpdate(none, VaultToken, TokenAccount(VaultState, 0));
    assert LAUNCHED.usdc.accounts == none[VaultToken := TokenAccount(VaultState, 0)];
    assert LaunchedVault(Launch(AUTHORITY, Default, 1, 1_000_000_000, 0, 0, false), 0) == Ok(LAUNCHED.vault);
    var admitted := LAUNCHED.(mandate := Some(HALF_AND_HALF));
    var es := OVER_THE_CEILING;
    assert Next(LAUNCHED, es[0]) == admitted;
    assert Run(LAUNCHED, es) == Run(admitted, es[1..]);
    assert es[1..][0] == es[1] && es[1..][1..] == [];
    assert Run(admitted, es[1..]) == Next(admitted, es[1]);
  }
}
