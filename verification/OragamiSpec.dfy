/** The yield vault program (oragami-vault) as a state machine over the token ledgers. */
module OragamiSpec {
  import opened Results
  import opened FixedPoint
  import opened TokenLedger
  import opened Compliance
  import opened NavGuard
  import opened YieldAccrual

  const MAX_ATTESTATION_AGE_SECS: int := 86_400

  datatype Vault = Vault(
    authority: Pubkey, operator: Pubkey,
    minDeposit: u64, maxDeposit: u64, usxAllocationBps: u16, apyBps: u16, paused: bool,
    totalDeposits: u64, totalSupply: u64, lastYieldClaim: Time, pendingYield: u64,
    secondaryMarketEnabled: bool, navPriceBps: u64, usxAccount: Pubkey, eusxAccount: Pubkey)
  {
    function OperatorKey(): Pubkey {
      if operator == Default then authority else operator
    }

    function Yield(): Accrual { Accrual(pendingYield, lastYieldClaim) }
  }

  datatype Mandate = Mandate(minLiquidityBufferBps: u16, maxUsxAllocationBps: u16,
                             minCollateralRatioBps: u16, enforcementActive: bool)

  /** The backing registry, reduced to its attestation digest. */
  datatype Registry = Registry(linkHash: nat, lastVerifiedAt: Time)

  datatype Attestation = Attestation(hash: nat, attestedAt: Time)

  datatype State = State(
    vault: Vault, usdc: Ledger, cvault: Ledger, trade: Ledger,
    credentials: Credentials, records: Records,
    mandate: Option<Mandate>, registry: Option<Registry>, attestation: Option<Attestation>, now: Time)

  datatype ConfigUpdate = ConfigUpdate(minDeposit: Option<u64>, maxDeposit: Option<u64>,
    usxAllocationBps: Option<u16>, apyBps: Option<u16>, secondaryMarketEnabled: Option<bool>)

  datatype Instruction =
    | Deposit(payer: Pubkey, payerUsdc: Pubkey, payerCvault: Pubkey, record: Option<RecordId>, amount: u64)
    | InitTravelRule(payer: Pubkey, nonce: nat, amount: u64)
    | Redeem(redeemer: Pubkey, source: Pubkey, destination: Pubkey, amount: u64)
    | ConvertToTradeable(user: Pubkey, source: Pubkey, destination: Pubkey, amount: u64)
    | RedeemTradeable(user: Pubkey, source: Pubkey, userCvault: Pubkey, destination: Pubkey, amount: u64,
        toCvault: bool)
    | SetNav(signer: Pubkey, nav: u64)
    | ProcessYield(signer: Pubkey)
    | DistributeYield(signer: Pubkey)
    | SyncYield(signer: Pubkey)
    | SetPause(signer: Pubkey, paused: bool)
    | UpdateConfig(signer: Pubkey, config: ConfigUpdate, withMandate: bool)
    | IssueCredential(signer: Pubkey, wallet: Pubkey, issuedAt: int, expiresAt: int)
    | RevokeCredential(signer: Pubkey, wallet: Pubkey)
    | InitializeMandate(signer: Pubkey, mandate: Mandate)
    | SetEnforcement(signer: Pubkey, active: bool)
    | InitializeRegistry(signer: Pubkey, linkHash: nat)
    | UpdateRegistry(signer: Pubkey, newHash: Option<nat>)
    | PostAttestation(signer: Pubkey, hash: nat)
    | RegisterUsxAccounts(signer: Pubkey, usxAccount: Pubkey, eusxAccount: Pubkey)

  datatype MintId = Usdc | Cvault | Trade

  /** Everything outside the program: time, and what token holders and the USDC issuer do. */
  datatype Surroundings =
    | Advance(seconds: nat)
    | OpenAccount(mint: MintId, key: Pubkey, owner: Pubkey)
    | MoveTokens(mint: MintId, signer: Pubkey, source: Pubkey, destination: Pubkey, amount: u64)
    | BurnTokens(mint: MintId, signer: Pubkey, source: Pubkey, amount: u64)
    | IssueUsdc(destination: Pubkey, amount: u64)

  datatype Event = Program(instruction: Instruction) | Outside(surroundings: Surroundings)

  // ---------------------------------------------------------------- start

  datatype Launch = Launch(authority: Pubkey, operator: Pubkey, minDeposit: u64, maxDeposit: u64,
    usxAllocationBps: u16, apyBps: u16, secondaryMarketEnabled: bool)

  /** The vault record that initialisation writes. */
  function LaunchedVault(p: Launch, now: Time): Result<Vault> {
    if p.minDeposit > p.maxDeposit then Err(DepositTooSmall) else
    Ok(Vault(p.authority, p.operator, p.minDeposit, p.maxDeposit, p.usxAllocationBps, p.apyBps, false,
             0, 0, now, 0, p.secondaryMarketEnabled, NAV_BPS_DENOMINATOR, Default, Default))
  }

  /** A state right after initialisation: the vault's USDC account is new, the share mint is new, the
      trade mint has no supply yet; whatever USDC already circulates is arbitrary, and travel-rule
      records, which need no vault, may be waiting. */
  ghost predicate Initial(s: State) {
    (exists p: Launch, t: Time :: LaunchedVault(p, t) == Ok(s.vault) && t == s.now) &&
    s.usdc.Valid() && s.usdc.Owns(VaultState, VaultToken) && s.usdc.Balance(VaultToken) == 0 &&
    s.cvault == Ledger(map[], 0) &&
    s.trade.Valid() && s.trade.supply == 0 &&
    s.credentials == map[] && NoneConsumed(s.records) &&
    s.mandate == None && s.registry == None && s.attestation == None
  }

  // ---------------------------------------------------------------- instructions

  /** Who may deposit what: pause flag, limits and credential. */
  function DepositGate(s: State, payer: Pubkey, record: Option<RecordId>, amount: u64): Result<()> {
    var v := s.vault;
    :- Need(payer.Key?, MissingSignature);
    :- Need(payer in s.credentials && (record.Some? ==> record.value in s.records), AccountError);
    :- Need(!v.paused, VaultPaused);
    :- Need(amount >= v.minDeposit, DepositTooSmall);
    :- Need(amount <= v.maxDeposit, DepositTooLarge);
    var cred := s.credentials[payer];
    :- Need(cred.status == CREDENTIAL_STATUS_ACTIVE, ComplianceCheckFailed);
    :- Need(cred.expiresAt > s.now, CredentialExpired);
    :- Need(cred.wallet == payer, ComplianceCheckFailed);
    Ok(())
  }

  /** Large deposits consume a record; small ones leave even a supplied record alone. */
  function TravelRuleGate(s: State, payer: Pubkey, record: Option<RecordId>, amount: u64): Result<Records> {
    if amount >= TRAVEL_RULE_THRESHOLD
    then ConsumeRecord(s.records, record, payer, amount, InvalidTravelRule) else Ok(s.records)
  }

  /** The totals after a deposit. */
  function BookDeposit(v: Vault, amount: u64, shares: u64): Result<Vault> {
    var totalDeposits :- CheckedAdd(v.totalDeposits, amount);
    var totalSupply :- CheckedAdd(v.totalSupply, shares);
    Ok(v.(totalDeposits := totalDeposits, totalSupply := totalSupply))
  }

  /** The exchange of `amount` USDC for shares at the current price. */
  function DepositExchange(s: State, payer: Pubkey, payerUsdc: Pubkey, payerCvault: Pubkey,
      amount: u64): Result<State> {
    var usdc :- s.usdc.Transfer(payerUsdc, VaultToken, payer, amount);
    var shares :- CheckedShares(amount, s.vault.navPriceBps);
    :- Need(shares > 0, DepositTooSmall);
    var cvault :- s.cvault.MintTo(payerCvault, shares);
    var booked :- BookDeposit(s.vault, amount, shares);
    Ok(s.(vault := booked, usdc := usdc, cvault := cvault))
  }

  function DepositStep(s: State, payer: Pubkey, payerUsdc: Pubkey, payerCvault: Pubkey, record: Option<RecordId>,
      amount: u64): Result<State> {
    var _ :- DepositGate(s, payer, record, amount);
    var records :- TravelRuleGate(s, payer, record, amount);
    DepositExchange(s.(records := records), payer, payerUsdc, payerCvault, amount)
  }

  function InitTravelRuleStep(s: State, payer: Pubkey, nonce: nat, amount: u64): Result<State> {
    if !payer.Key? then Err(MissingSignature) else
    var records :- CreateRecord(s.records, payer, nonce, amount);
    :- Need(amount >= TRAVEL_RULE_THRESHOLD, InvalidTravelRule);
    Ok(s.(records := records))
  }

  /** The USDC that `shares` are worth, if the vault holds it. */
  function Payable(s: State, shares: u64): Result<u64> {
    var payout :- CheckedAssets(shares, s.vault.navPriceBps);
    if s.usdc.Balance(VaultToken) >= payout then Ok(payout) else Err(InsufficientVaultFunds)
  }

  /** The totals after a redemption; deposits saturate. */
  function BookRedemption(v: Vault, payout: u64, shares: u64): Result<Vault> {
    var totalSupply :- CheckedSub(v.totalSupply, shares);
    Ok(v.(totalDeposits := SaturatingSub(v.totalDeposits, payout), totalSupply := totalSupply))
  }

  function RedeemStep(s: State, redeemer: Pubkey, source: Pubkey, destination: Pubkey, amount: u64): Result<State> {
    var v := s.vault;
    :- Need(redeemer.Key?, MissingSignature);
    :- Need(!v.paused, VaultPaused);
    var payout :- Payable(s, amount);
    var cvault :- s.cvault.Burn(source, redeemer, amount);
    var usdc :- s.usdc.Transfer(VaultToken, destination, VaultState, payout);
    var booked :- BookRedemption(v, payout, amount);
    Ok(s.(vault := booked, usdc := usdc, cvault := cvault))
  }

  function ConvertStep(s: State, user: Pubkey, source: Pubkey, destination: Pubkey, amount: u64): Result<State> {
    if !user.Key? then Err(MissingSignature) else
    :- Need(!s.vault.paused, VaultPaused);
    :- Need(s.vault.secondaryMarketEnabled, SecondaryMarketDisabled);
    var cvault :- s.cvault.Burn(source, user, amount);
    var trade :- s.trade.MintTo(destination, amount);
    Ok(s.(cvault := cvault, trade := trade))
  }

  /** Pays `amount` trade shares, already burned, out of the vault. */
  function TradePayout(s: State, destination: Pubkey, amount: u64): Result<State> {
    var v := s.vault;
    var payout :- Payable(s, amount);
    var usdc :- s.usdc.Transfer(VaultToken, destination, VaultState, payout);
    var totalDeposits :- CheckedSub(v.totalDeposits, payout);
    var totalSupply :- CheckedSub(v.totalSupply, amount);
    Ok(s.(vault := v.(totalDeposits := totalDeposits, totalSupply := totalSupply), usdc := usdc))
  }

  /** Redeeming trade tokens either re-wraps them one to one or pays them out at NAV. */
  function RedeemTradeableStep(s: State, user: Pubkey, source: Pubkey, userCvault: Pubkey, destination: Pubkey,
      amount: u64, toCvault: bool): Result<State> {
    if !user.Key? then Err(MissingSignature) else
    :- Need(!s.vault.paused, VaultPaused);
    var trade :- s.trade.Burn(source, user, amount);
    if toCvault then
      var cvault :- s.cvault.MintTo(userCvault, amount);
      Ok(s.(cvault := cvault, trade := trade))
    else
      TradePayout(s.(trade := trade), destination, amount)
  }

  function SetNavStep(s: State, signer: Pubkey, nav: u64): Result<State> {
    if s.registry.None? then Err(AccountError) else
    :- Need(s.vault.OperatorKey() == signer, OperatorNotAuthorized);
    var _ :- YieldGuard(s.vault.navPriceBps, nav);
    Ok(s.(vault := s.vault.(navPriceBps := nav),
          registry := Some(s.registry.value.(lastVerifiedAt := s.now))))
  }

  function ProcessYieldStep(s: State, signer: Pubkey): Result<State> {
    var v := s.vault;
    :- Need(v.OperatorKey() == signer, OperatorNotAuthorized);
    var a :- Process(DailyYield(v.totalDeposits, v.usxAllocationBps, v.apyBps), v.Yield(), s.now);
    Ok(s.(vault := v.(pendingYield := a.pending, lastYieldClaim := a.lastClaim)))
  }

  function DistributeYieldStep(s: State, signer: Pubkey): Result<State> {
    var v := s.vault;
    :- Need(v.OperatorKey() == signer, OperatorNotAuthorized);
    if v.pendingYield == 0 then Ok(s)
    else Ok(s.(vault := v.(pendingYield := 0, lastYieldClaim := s.now)))
  }

  function SyncYieldStep(s: State, signer: Pubkey): Result<State> {
    if s.vault.OperatorKey() != signer then Err(OperatorNotAuthorized) else
    Ok(s.(vault := s.vault.(lastYieldClaim := s.now)))
  }

  function SetPauseStep(s: State, signer: Pubkey, paused: bool): Result<State> {
    if signer != s.vault.authority then Err(AccountError) else
    Ok(s.(vault := s.vault.(paused := paused)))
  }

  function Or<T>(update: Option<T>, current: T): T {
    match update
    case Some(x) => x
    case None => current
  }

  function UpdateConfigStep(s: State, signer: Pubkey, c: ConfigUpdate, withMandate: bool): Result<State> {
    var v := s.vault;
    :- Need(signer == v.authority, AccountError);
    :- Need(withMandate ==> s.mandate.Some?, AccountError);
    :- Need(c.usxAllocationBps.Some? ==> c.usxAllocationBps.value <= 10_000, InvalidAllocation);
    :- Need(c.usxAllocationBps.Some? && withMandate ==>
              c.usxAllocationBps.value <= s.mandate.value.maxUsxAllocationBps, MandateBreached);
    Ok(s.(vault := v.(
      minDeposit := Or(c.minDeposit, v.minDeposit),
      maxDeposit := Or(c.maxDeposit, v.maxDeposit),
      usxAllocationBps := Or(c.usxAllocationBps, v.usxAllocationBps),
      apyBps := Or(c.apyBps, v.apyBps),
      secondaryMarketEnabled := Or(c.secondaryMarketEnabled, v.secondaryMarketEnabled))))
  }

  function IssueCredentialStep(s: State, signer: Pubkey, wallet: Pubkey, issuedAt: int, expiresAt: int): Result<State> {
    if signer != s.vault.authority then Err(AccountError) else
    var credentials :- Issue(s.credentials, wallet, issuedAt, expiresAt);
    :- Need(expiresAt > issuedAt, InvalidCredential);
    Ok(s.(credentials := credentials))
  }

  function RevokeCredentialStep(s: State, signer: Pubkey, wallet: Pubkey): Result<State> {
    if signer != s.vault.authority then Err(AccountError) else
    var credentials :- Revoke(s.credentials, wallet, InvalidCredential);
    Ok(s.(credentials := credentials))
  }

  function InitializeMandateStep(s: State, signer: Pubkey, m: Mandate): Result<State> {
    if !(signer == s.vault.authority && s.mandate.None?) then Err(AccountError) else
    :- Need(m.minLiquidityBufferBps + m.maxUsxAllocationBps <= 10_000, InvalidMandate);
    Ok(s.(mandate := Some(m)))
  }

  function SetEnforcementStep(s: State, signer: Pubkey, active: bool): Result<State> {
    if !(signer == s.vault.authority && s.mandate.Some?) then Err(AccountError) else
    Ok(s.(mandate := Some(s.mandate.value.(enforcementActive := active))))
  }

  function InitializeRegistryStep(s: State, signer: Pubkey, linkHash: nat): Result<State> {
    if !(signer == s.vault.authority && s.registry.None?) then Err(AccountError) else
    Ok(s.(registry := Some(Registry(linkHash, s.now))))
  }

  function UpdateRegistryStep(s: State, signer: Pubkey, newHash: Option<nat>): Result<State> {
    if !(signer == s.vault.authority && s.registry.Some?) then Err(AccountError) else
    Ok(s.(registry := Some(Registry(Or(newHash, s.registry.value.linkHash), s.now))))
  }

  function PostAttestationStep(s: State, signer: Pubkey, hash: nat): Result<State> {
    if s.registry.None? then Err(AccountError) else
    :- Need(s.vault.OperatorKey() == signer, OperatorNotAuthorized);
    :- Need(hash == s.registry.value.linkHash, AttestationHashMismatch);
    Ok(s.(attestation := Some(Attestation(hash, s.now))))
  }

  function RegisterUsxStep(s: State, signer: Pubkey, usxAccount: Pubkey, eusxAccount: Pubkey): Result<State> {
    if s.vault.OperatorKey() != signer then Err(OperatorNotAuthorized) else
    Ok(s.(vault := s.vault.(usxAccount := usxAccount, eusxAccount := eusxAccount)))
  }

  function Execute(s: State, i: Instruction): Result<State> {
    match i
    case Deposit(payer, payerUsdc, payerCvault, record, amount) =>
      DepositStep(s, payer, payerUsdc, payerCvault, record, amount)
    case InitTravelRule(payer, nonce, amount) => InitTravelRuleStep(s, payer, nonce, amount)
    case Redeem(redeemer, source, destination, amount) => RedeemStep(s, redeemer, source, destination, amount)
    case ConvertToTradeable(user, source, destination, amount) => ConvertStep(s, user, source, destination, amount)
    case RedeemTradeable(user, source, userCvault, destination, amount, toCvault) =>
      RedeemTradeableStep(s, user, source, userCvault, destination, amount, toCvault)
    case SetNav(signer, nav) => SetNavStep(s, signer, nav)
    case ProcessYield(signer) => ProcessYieldStep(s, signer)
    case DistributeYield(signer) => DistributeYieldStep(s, signer)
    case SyncYield(signer) => SyncYieldStep(s, signer)
    case SetPause(signer, paused) => SetPauseStep(s, signer, paused)
    case UpdateConfig(signer, config, withMandate) => UpdateConfigStep(s, signer, config, withMandate)
    case IssueCredential(signer, wallet, issuedAt, expiresAt) =>
      IssueCredentialStep(s, signer, wallet, issuedAt, expiresAt)
    case RevokeCredential(signer, wallet) => RevokeCredentialStep(s, signer, wallet)
    case InitializeMandate(signer, mandate) => InitializeMandateStep(s, signer, mandate)
    case SetEnforcement(signer, active) => SetEnforcementStep(s, signer, active)
    case InitializeRegistry(signer, linkHash) => InitializeRegistryStep(s, signer, linkHash)
    case UpdateRegistry(signer, newHash) => UpdateRegistryStep(s, signer, newHash)
    case PostAttestation(signer, hash) => PostAttestationStep(s, signer, hash)
    case RegisterUsxAccounts(signer, usxAccount, eusxAccount) => RegisterUsxStep(s, signer, usxAccount, eusxAccount)
  }

  // ---------------------------------------------------------------- surroundings

  function LedgerOf(s: State, m: MintId): Ledger {
    match m
    case Usdc => s.usdc
    case Cvault => s.cvault
    case Trade => s.trade
  }

  function WithLedger(s: State, m: MintId, l: Ledger): State {
    match m
    case Usdc => s.(usdc := l)
    case Cvault => s.(cvault := l)
    case Trade => s.(trade := l)
  }

  function Happen(s: State, e: Surroundings): Result<State> {
    match e
    case Advance(seconds) =>
      if s.now + seconds <= 0x7FFF_FFFF_FFFF_FFFF then Ok(s.(now := s.now + seconds)) else Err(Overflow)
    case OpenAccount(m, key, owner) =>
      var l :- LedgerOf(s, m).Open(key, owner);
      Ok(WithLedger(s, m, l))
    case MoveTokens(m, signer, source, destination, amount) =>
      :- Need(signer != VaultState, MissingSignature);
      var l :- LedgerOf(s, m).Transfer(source, destination, signer, amount);
      Ok(WithLedger(s, m, l))
    case BurnTokens(m, signer, source, amount) =>
      :- Need(signer != VaultState, MissingSignature);
      var l :- LedgerOf(s, m).Burn(source, signer, amount);
      Ok(WithLedger(s, m, l))
    case IssueUsdc(destination, amount) =>
      var l :- s.usdc.MintTo(destination, amount);
      Ok(s.(usdc := l))
  }

  // ---------------------------------------------------------------- runs

  function Attempt(s: State, e: Event): Result<State> {
    match e
    case Program(i) => Execute(s, i)
    case Outside(o) => Happen(s, o)
  }

  /** A failed transaction leaves the whole state as it was. */
  function Next(s: State, e: Event): State {
    match Attempt(s, e)
    case Ok(t) => t
    case Err(_) => s
  }

  function Run(s: State, es: seq<Event>): State
    decreases es
  {
    if es == [] then s else Run(Next(s, es[0]), es[1..])
  }

  // ---------------------------------------------------------------- read-only checks

  /** Balance of an optional strategy account: zero while none is registered. */
  function StrategyBalance(registered: Pubkey, supplied: Option<Pubkey>, amount: u64): Result<u64> {
    if registered == Default then Ok(0)
    else if supplied != Some(registered) then Err(InvalidVaultTokenAccount)
    else Ok(amount)
  }

  /** The accounts a caller passes for the strategy tokens, with their balances. */
  datatype StrategyAccounts = StrategyAccounts(usx: Option<Pubkey>, usxAmount: u64, eusx: Option<Pubkey>,
      eusxAmount: u64)

  function FinancialCheck(usdc: u64, usx: u64, eusx: u64, totalDeposits: u64, ratioBps: u16): Result<()> {
    var liquid :- CheckedAdd(usdc, usx);
    var totalAssets :- CheckedAdd(liquid, eusx);
    var lhs :- CheckedMul(totalAssets, 10_000);
    var rhs :- CheckedMul(totalDeposits, ratioBps);
    if lhs >= rhs then Ok(()) else Err(ProofOfReserveFailed)
  }

  function VerifyProofOfReserve(s: State, a: StrategyAccounts): Result<()> {
    if !(s.mandate.Some? && s.registry.Some? && s.attestation.Some?) then Err(AccountError) else
    :- Need(s.now - s.attestation.value.attestedAt <= MAX_ATTESTATION_AGE_SECS, AttestationStale);
    :- Need(s.attestation.value.hash == s.registry.value.linkHash, AttestationHashMismatch);
    var usx :- StrategyBalance(s.vault.usxAccount, a.usx, a.usxAmount);
    var eusx :- StrategyBalance(s.vault.eusxAccount, a.eusx, a.eusxAmount);
    FinancialCheck(s.usdc.Balance(VaultToken), usx, eusx, s.vault.totalDeposits, s.mandate.value.minCollateralRatioBps)
  }

  /** Most idle USDC the allocation allows. */
  function MaxIdle(totalDeposits: u64, usxAllocationBps: u16): Result<u64> {
    var scaled :- CheckedMul(totalDeposits, SaturatingSub(10_000, usxAllocationBps));
    Ok(scaled / 10_000)
  }

  /** Least idle USDC the mandate demands. */
  function MinIdle(totalDeposits: u64, minLiquidityBufferBps: u16): Result<u64> {
    var scaled :- CheckedMul(totalDeposits, minLiquidityBufferBps);
    Ok(scaled / 10_000)
  }

  function AssertLiquidityAllocation(s: State): Result<()> {
    if s.mandate.None? then Err(AccountError) else
    var m := s.mandate.value;
    if !m.enforcementActive then Ok(()) else
    var max :- MaxIdle(s.vault.totalDeposits, s.vault.usxAllocationBps);
    var min :- MinIdle(s.vault.totalDeposits, m.minLiquidityBufferBps);
    if s.usdc.Balance(VaultToken) > max || s.usdc.Balance(VaultToken) < min
    then Err(LiquidityAllocationBreached) else Ok(())
  }
}
