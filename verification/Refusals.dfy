/** What each error code tells the sender: the exact condition under which the yield vault reports it. */
module OragamiRefusals {
  import opened Results
  import opened FixedPoint
  import opened TokenLedger
  import opened Compliance
  import opened OragamiSpec

  /** The accounts that a deposit names exist. */
  predicate Named(s: State, payer: Pubkey, record: Option<RecordId>) {
    payer.Key? && payer in s.credentials && (record.Some? ==> record.value in s.records)
  }

  predicate WithinLimits(s: State, amount: u64) {
    s.vault.minDeposit <= amount <= s.vault.maxDeposit
  }

  /** What admits a deposit: the first thing wrong with pause flag, limits and credential, in this order. */
  lemma GateRefusals(s: State, payer: Pubkey, record: Option<RecordId>, amount: u64)
    requires WellKept(s.credentials)
    ensures var r, welcome := DepositGate(s, payer, record, amount), Named(s, payer, record) && !s.vault.paused;
      && (r == Err(MissingSignature) <==> !payer.Key?)
      && (r == Err(AccountError) <==> payer.Key? && !Named(s, payer, record))
      && (r == Err(VaultPaused) <==> Named(s, payer, record) && s.vault.paused)
      && (r == Err(DepositTooSmall) <==> welcome && amount < s.vault.minDeposit)
      && (r == Err(DepositTooLarge) <==> welcome && s.vault.minDeposit <= amount && s.vault.maxDeposit < amount)
      && (r == Err(ComplianceCheckFailed) <==>
            welcome && WithinLimits(s, amount) && s.credentials[payer].status != 1)
      && (r == Err(CredentialExpired) <==>
            welcome && WithinLimits(s, amount) && s.credentials[payer].status == 1 &&
            s.credentials[payer].expiresAt <= s.now)
  {}

  /** Of a large deposit, the record: missing, or not an unconsumed one for this payer and amount. */
  lemma RecordRefusals(s: State, payer: Pubkey, record: Option<RecordId>, amount: u64)
    requires record.Some? ==> record.value in s.records
    ensures var r := TravelRuleGate(s, payer, record, amount);
      && (r == Err(TravelRuleRequired) <==> amount >= 1_000_000_000 && record.None?)
      && (r == Err(InvalidTravelRule) <==>
            amount >= 1_000_000_000 && record.Some? && s.records[record.value] != Record(payer, amount, false))
      && (r.Err? ==> r.error == TravelRuleRequired || r.error == InvalidTravelRule)
  {}

  lemma ExchangeRefusals(s: State, payer: Pubkey, payerUsdc: Pubkey, payerCvault: Pubkey, amount: u64)
    requires s.vault.navPriceBps > 0
    ensures var r := DepositExchange(s, payer, payerUsdc, payerCvault, amount);
      && (r.Err? ==> r.error in {TokenError, Overflow, DepositTooSmall})
      && (r == Err(DepositTooSmall) <==>
            s.usdc.Transfer(payerUsdc, VaultToken, payer, amount).Ok? &&
            amount * 10_000 <= 18_446_744_073_709_551_615 && SharesFor(amount, s.vault.navPriceBps) == 0)
  {
    CheckedSharesExact(amount, s.vault.navPriceBps);
  }

  /** A deposit reports the refusal of its gate, else that of its record, else that of the exchange. */
  lemma DepositRefusals(s: State, payer: Pubkey, payerUsdc: Pubkey, payerCvault: Pubkey, record: Option<RecordId>,
      amount: u64)
    ensures var r := DepositStep(s, payer, payerUsdc, payerCvault, record, amount);
      var gate, spent := DepositGate(s, payer, record, amount), TravelRuleGate(s, payer, record, amount);
      if gate.Err? then r == Err(gate.error)
      else if spent.Err? then r == Err(spent.error)
      else r == DepositExchange(s.(records := spent.value), payer, payerUsdc, payerCvault, amount)
  {}

  /** A redemption by its holder is refused as paused, as overflowing, or for want of funds exactly when
      that is the first thing wrong with it; a conversion, as disabled, likewise. */
  lemma RedemptionRefusals(s: State, user: Pubkey, source: Pubkey, destination: Pubkey, amount: u64)
    requires user.Key?
    ensures var r, nav := RedeemStep(s, user, source, destination, amount), s.vault.navPriceBps;
      && (r == Err(VaultPaused) <==> s.vault.paused)
      && (!s.vault.paused && amount * nav > 18_446_744_073_709_551_615 ==> r == Err(Overflow))
      && (r == Err(InsufficientVaultFunds) <==>
            !s.vault.paused && amount * nav <= 18_446_744_073_709_551_615 &&
            s.usdc.Balance(VaultToken) < AssetsFor(amount, nav))
    ensures var r := ConvertStep(s, user, source, destination, amount);
      && (r == Err(VaultPaused) <==> s.vault.paused)
      && (r == Err(SecondaryMarketDisabled) <==> !s.vault.paused && !s.vault.secondaryMarketEnabled)
  {
    CheckedAssetsExact(amount, s.vault.navPriceBps);
  }

  /** A price update by the operator is refused as invalid, as too large a change, or by the runtime exactly
      for zero, for a price outside the range, and for a range whose upper end overflows. */
  lemma PricingRefusals(s: State, nav: u64)
    requires s.registry.Some?
    ensures var r, current := SetNavStep(s, s.vault.OperatorKey(), nav), s.vault.navPriceBps;
      && (r == Err(InvalidNav) <==> nav == 0)
      && (r == Err(ArithmeticPanic) <==>
            nav > 0 && nav >= current - current / 2 && current + current / 2 > 18_446_744_073_709_551_615)
      && (r == Err(NavChangeTooLarge) <==>
            nav > 0 && (nav < current - current / 2 ||
                        (current + current / 2 <= 18_446_744_073_709_551_615 && nav > current + current / 2)))
  {}

  /** A configuration update by the authority is refused as an invalid allocation above par, and as a breach
      of the mandate above its ceiling. */
  lemma ConfigRefusals(s: State, c: ConfigUpdate, withMandate: bool)
    requires withMandate ==> s.mandate.Some?
    ensures var r := UpdateConfigStep(s, s.vault.authority, c, withMandate);
      && (r == Err(InvalidAllocation) <==> c.usxAllocationBps.Some? && c.usxAllocationBps.value > 10_000)
      && (r == Err(MandateBreached) <==>
            c.usxAllocationBps.Some? && c.usxAllocationBps.value <= 10_000 && withMandate &&
            c.usxAllocationBps.value > s.mandate.value.maxUsxAllocationBps)
  {}

  /** Proof of reserve is refused as stale, as a mismatch, or for an account exactly when that is the first
      thing wrong with it. */
  lemma ReserveRefusals(s: State, a: StrategyAccounts)
    requires s.mandate.Some? && s.registry.Some? && s.attestation.Some?
    ensures var r, recent := VerifyProofOfReserve(s, a), s.now - s.attestation.value.attestedAt <= 86_400;
      var matching := s.attestation.value.hash == s.registry.value.linkHash;
      && (r == Err(AttestationStale) <==> !recent)
      && (r == Err(AttestationHashMismatch) <==> recent && !matching)
      && (r == Err(InvalidVaultTokenAccount) <==>
            recent && matching &&
            ((s.vault.usxAccount != Default && a.usx != Some(s.vault.usxAccount)) ||
             (s.vault.eusxAccount != Default && a.eusx != Some(s.vault.eusxAccount))))
  {}

  /** A payout for trade tokens burns them first, so for want of funds it is refused only when that goes
      through. */
  lemma TradedRefusals(s: State, user: Pubkey, source: Pubkey, userCvault: Pubkey, destination: Pubkey, amount: u64)
    requires user.Key? && !s.vault.paused
    ensures var r, burned := RedeemTradeableStep(s, user, source, userCvault, destination, amount, false),
                             s.trade.Burn(source, user, amount).Ok?;
      && (!burned ==> r == Err(TokenError))
      && (r == Err(InsufficientVaultFunds) <==>
            burned && amount * s.vault.navPriceBps <= 18_446_744_073_709_551_615 &&
            s.usdc.Balance(VaultToken) < AssetsFor(amount, s.vault.navPriceBps))
  {
    var r := RedeemTradeableStep(s, user, source, userCvault, destination, amount, false);
    CheckedAssetsExact(amount, s.vault.navPriceBps);
  }

  /** What the operator's and the authority's other instructions are refused for, the signer being right. */
  lemma OversightRefusals(s: State, wallet: Pubkey, nonce: nat, amount: u64, issuedAt: int, expiresAt: int, hash: nat,
      m: Mandate)
    requires WellKept(s.credentials) && s.registry.Some? && s.mandate.None?
    ensures var issued := IssueCredentialStep(s, s.vault.authority, wallet, issuedAt, expiresAt);
      && (issued == Err(AccountError) <==> wallet in s.credentials)
      && (issued == Err(InvalidCredential) <==> wallet !in s.credentials && expiresAt <= issuedAt)
    ensures var revoked := RevokeCredentialStep(s, s.vault.authority, wallet);
      && (revoked == Err(AccountError) <==> wallet !in s.credentials)
      && (revoked == Err(InvalidCredential) <==> wallet in s.credentials && s.credentials[wallet].status == 3)
    ensures var created := InitTravelRuleStep(s, wallet, nonce, amount);
      created == Err(InvalidTravelRule) <==>
        wallet.Key? && RecordId(wallet, nonce) !in s.records && amount < 1_000_000_000
    ensures PostAttestationStep(s, s.vault.OperatorKey(), hash) == Err(AttestationHashMismatch) <==>
      hash != s.registry.value.linkHash
    ensures InitializeMandateStep(s, s.vault.authority, m) == Err(InvalidMandate) <==>
      m.minLiquidityBufferBps + m.maxUsxAllocationBps > 10_000
  {}

  /** Anybody else is told that he is not the operator. */
  lemma OperatorRefusals(s: State, signer: Pubkey, nav: u64, hash: nat, usx: Pubkey, eusx: Pubkey)
    requires signer != s.vault.OperatorKey() && s.registry.Some?
    ensures SetNavStep(s, signer, nav) == Err(OperatorNotAuthorized)
    ensures ProcessYieldStep(s, signer) == Err(OperatorNotAuthorized)
    ensures DistributeYieldStep(s, signer) == Err(OperatorNotAuthorized)
    ensures SyncYieldStep(s, signer) == Err(OperatorNotAuthorized)
    ensures PostAttestationStep(s, signer, hash) == Err(OperatorNotAuthorized)
    ensures RegisterUsxStep(s, signer, usx, eusx) == Err(OperatorNotAuthorized)
  {}
}

/** The same for the factory. */
module CustodyRefusals {
  import opened Results
  import opened FixedPoint
  import opened TokenLedger
  import opened Compliance
  import opened NavGuard
  import opened CustodySpec

  /** The vault and the record that a deposit names exist, and the vault is open. */
  predicate Open(f: Factory, depositor: Pubkey, asset: Pubkey, record: Option<RecordId>) {
    depositor.Key? && asset in f.vaults && (record.Some? ==> record.value in f.records) && !f.vaults[asset].paused
  }

  predicate WithinLimits(f: Factory, asset: Pubkey, amount: u64)
    requires asset in f.vaults
  {
    f.vaults[asset].minDeposit <= amount <= f.vaults[asset].maxDeposit
  }

  predicate NeedsRecord(f: Factory, asset: Pubkey, amount: u64)
    requires asset in f.vaults
  {
    f.vaults[asset].travelRuleRequired && amount >= 1_000_000_000
  }

  /** What admits a deposit: the first thing wrong with pause flag, limits and credential, in this order. */
  lemma GateRefusals(f: Factory, c: Context, depositor: Pubkey, asset: Pubkey, record: Option<RecordId>, amount: u64)
    requires WellKept(c.credentials)
    ensures var r, welcome := DepositGate(f, c, depositor, asset, record, amount), Open(f, depositor, asset, record);
      && (r == Err(MissingSignature) <==> !depositor.Key?)
      && (r == Err(VaultPaused) <==>
            depositor.Key? && asset in f.vaults && (record.Some? ==> record.value in f.records) &&
            f.vaults[asset].paused)
      && (r == Err(DepositTooSmall) <==> welcome && amount < f.vaults[asset].minDeposit)
      && (r == Err(DepositTooLarge) <==>
            welcome && f.vaults[asset].minDeposit <= amount && f.vaults[asset].maxDeposit < amount)
      && (r == Err(WrongCredentialProgram) <==>
            welcome && WithinLimits(f, asset, amount) && depositor !in c.credentials)
      && (r == Err(CredentialNotActive) <==>
            welcome && WithinLimits(f, asset, amount) && depositor in c.credentials &&
            c.credentials[depositor].status != 1)
      && (r == Err(CredentialExpired) <==>
            welcome && WithinLimits(f, asset, amount) && depositor in c.credentials &&
            c.credentials[depositor].status == 1 && c.credentials[depositor].expiresAt <= c.now)
  {}

  /** Where a record is needed: missing, for another payer or amount, or consumed. */
  lemma RecordRefusals(f: Factory, depositor: Pubkey, asset: Pubkey, record: Option<RecordId>, amount: u64)
    requires asset in f.vaults && (record.Some? ==> record.value in f.records)
    ensures var r := TravelRuleGate(f, f.vaults[asset], depositor, record, amount);
      && (r == Err(TravelRuleRequired) <==> NeedsRecord(f, asset, amount) && record.None?)
      && (r == Err(InvalidTravelRule) <==>
            NeedsRecord(f, asset, amount) && record.Some? &&
            (f.records[record.value].payer != depositor || f.records[record.value].amount != amount))
      && (r == Err(TravelRuleAlreadyConsumed) <==>
            NeedsRecord(f, asset, amount) && record.Some? && f.records[record.value] == Record(depositor, amount, true))
      && (r.Err? ==> r.error in {TravelRuleRequired, InvalidTravelRule, TravelRuleAlreadyConsumed})
  {}

  lemma ExchangeRefusals(f: Factory, depositor: Pubkey, asset: Pubkey, source: Pubkey, destination: Pubkey, amount: u64)
    requires asset in f.vaults && f.vaults[asset].navPriceBps > 0
    ensures var r := DepositExchange(f, depositor, asset, source, destination, amount);
      && (r.Err? ==> r.error in {TokenError, Overflow, ZeroShares})
      && (r == Err(ZeroShares) <==>
            amount * 10_000 <= 18_446_744_073_709_551_615 && SharesFor(amount, f.vaults[asset].navPriceBps) == 0)
  {
    var r := DepositExchange(f, depositor, asset, source, destination, amount);
    CheckedSharesExact(amount, f.vaults[asset].navPriceBps);
  }

  /** A deposit reports the refusal of its gate, else that of its record, else that of the exchange. */
  lemma DepositRefusals(f: Factory, c: Context, depositor: Pubkey, asset: Pubkey, source: Pubkey,
      destination: Pubkey, record: Option<RecordId>, amount: u64)
    ensures var r := DepositStep(f, c, depositor, asset, source, destination, record, amount);
      var gate := DepositGate(f, c, depositor, asset, record, amount);
      if gate.Err? then r == Err(gate.error) else
        asset in f.vaults &&
        var spent := TravelRuleGate(f, f.vaults[asset], depositor, record, amount);
        if spent.Err? then r == Err(spent.error)
        else r == DepositExchange(f.(records := spent.value), depositor, asset, source, destination, amount)
  {
    var r := DepositStep(f, c, depositor, asset, source, destination, record, amount);
  }

  /** The first thing wrong with a transfer of shares between existing accounts. */
  lemma TransferRefusals(f: Factory, c: Context, sender: Pubkey, asset: Pubkey, source: Pubkey, destination: Pubkey,
      amount: u64)
    requires WellKept(c.credentials) && sender.Key? && asset in f.vaults && amount > 0 && !f.vaults[asset].paused
    requires var shares := LedgerOf(f, ShareMintAddress(asset));
      source in shares.accounts && destination in shares.accounts
    ensures var r := TransferSharesStep(f, c, sender, asset, source, destination, amount);
      var cs, receiver := c.credentials, LedgerOf(f, ShareMintAddress(asset)).accounts[destination].owner;
      && (r == Err(CredentialNotActive) <==> sender in cs && cs[sender].status != 1)
      && (r == Err(CredentialExpired) <==> sender in cs && cs[sender].status == 1 && cs[sender].expiresAt <= c.now)
      && (r == Err(WrongCredentialProgram) <==>
            sender !in cs || (InForce(cs, sender, c.now) && receiver !in cs))
      && (r == Err(ReceiverCredentialNotActive) <==>
            InForce(cs, sender, c.now) && receiver in cs && cs[receiver].status != 1)
      && (r == Err(ReceiverCredentialExpired) <==>
            InForce(cs, sender, c.now) && receiver in cs && cs[receiver].status == 1 && cs[receiver].expiresAt <= c.now)
  {
    var r := TransferSharesStep(f, c, sender, asset, source, destination, amount);
  }

  /** A registration with its accounts in order is refused for a zero price, for limits the wrong way round,
      and when the registry is full. */
  lemma RegistrationRefusals(f: Factory, asset: Pubkey, nav: u64, low: u64, high: u64, travelRule: bool)
    requires asset in f.ledgers && asset !in f.vaults && ShareMintAddress(asset) !in f.ledgers
    requires AssetTokenAddress(asset) !in f.ledgers[asset].accounts && asset !in f.registered
    ensures var r := RegisterAssetStep(f, f.authority, asset, nav, low, high, travelRule);
      && (r == Err(InvalidNav) <==> nav == 0)
      && (r == Err(DepositTooSmall) <==> nav > 0 && low > high)
      && (r == Err(FactoryFull) <==> nav > 0 && low <= high && |f.registered| >= 16)
  {}

  /** A price update by the authority is refused for zero, for a product that overflows, and for a price
      outside the range. */
  lemma PricingRefusals(f: Factory, asset: Pubkey, nav: u64)
    requires asset in f.vaults
    ensures var r, current := SetNavStep(f, f.authority, asset, nav), f.vaults[asset].navPriceBps;
      && (r == Err(InvalidNav) <==> nav == 0)
      && (r == Err(Overflow) <==> nav > 0 && current * 5_000 > 18_446_744_073_709_551_615)
      && (r == Err(NavChangeTooLarge) <==>
            nav > 0 && current * 5_000 <= 18_446_744_073_709_551_615 && !(current <= 2 * nav && 2 * nav <= 3 * current))
  {
    CustodyGuardAccepts(f.vaults[asset].navPriceBps, nav);
  }

  /** A payout is refused when its product overflows, and when the vault holds less. */
  lemma PayoutRefusals(f: Factory, asset: Pubkey, amount: u64)
    requires asset in f.vaults
    ensures var r, nav := Payable(f, asset, amount), f.vaults[asset].navPriceBps;
      && (r == Err(Overflow) <==> amount * nav > 18_446_744_073_709_551_615)
      && (r == Err(InsufficientVaultFunds) <==>
            amount * nav <= 18_446_744_073_709_551_615 &&
            LedgerOf(f, asset).Balance(AssetTokenAddress(asset)) < AssetsFor(amount, nav))
      && (r.Err? ==> r.error in {Overflow, InsufficientVaultFunds})
  {
    CheckedAssetsExact(amount, f.vaults[asset].navPriceBps);
  }

  lemma RedeemExchangeRefusals(f: Factory, redeemer: Pubkey, asset: Pubkey, source: Pubkey, destination: Pubkey,
      amount: u64, payout: u64)
    requires asset in f.vaults
    ensures var r := RedeemExchange(f, redeemer, asset, source, destination, amount, payout);
      r.Err? ==> r.error in {TokenError, Overflow}
  {
    var r := RedeemExchange(f, redeemer, asset, source, destination, amount, payout);
  }

  /** A redemption of a registered asset is refused for no shares, else for its payout, else by the tokens. */
  lemma RedemptionRefusals(f: Factory, redeemer: Pubkey, asset: Pubkey, source: Pubkey, destination: Pubkey,
      amount: u64)
    requires redeemer.Key? && asset in f.vaults
    ensures var r, payout := RedeemStep(f, redeemer, asset, source, destination, amount), Payable(f, asset, amount);
      if amount == 0 then r == Err(ZeroShares)
      else if payout.Err? then r == Err(payout.error)
      else r == RedeemExchange(f, redeemer, asset, source, destination, amount, payout.value)
  {
    var r := RedeemStep(f, redeemer, asset, source, destination, amount);
  }

  /** What the other instructions are refused for, the signer being right. */
  lemma OversightRefusals(f: Factory, c: Context, wallet: Pubkey, nonce: nat, amount: u64, expiresAt: int)
    requires WellKept(f.credentials)
    ensures var issued := IssueCredentialStep(f, c, f.authority, wallet, expiresAt);
      && (issued == Err(AccountError) <==> wallet in f.credentials)
      && (issued == Err(CredentialExpired) <==> wallet !in f.credentials && expiresAt <= c.now)
    ensures var revoked := RevokeCredentialStep(f, f.authority, wallet);
      && (revoked == Err(AccountError) <==> wallet !in f.credentials)
      && (revoked == Err(CredentialAlreadyRevoked) <==> wallet in f.credentials && f.credentials[wallet].status == 3)
    ensures var created := InitTravelRuleStep(f, wallet, nonce, amount);
      created == Err(DepositTooSmall) <==>
        wallet.Key? && RecordId(wallet, nonce) !in f.records && amount < 1_000_000_000
  {}
}
