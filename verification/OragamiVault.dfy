/** The yield vault program as it runs: handlers that update the accounts step by step, inside a
    runtime that undoes everything when a handler fails. */
module OragamiProgram {
  import opened Results
  import opened FixedPoint
  import opened TokenLedger
  import opened Compliance
  import opened YieldAccrual
  import opened S = OragamiSpec

  /** The accounts the program writes, each a field that the handlers reassign. */
  class OragamiVault {
    var vault: Vault
    var usdc: Ledger
    var cvault: Ledger
    var trade: Ledger
    var credentials: Credentials
    var records: Records
    var mandate: Option<Mandate>
    var registry: Option<Registry>
    var attestation: Option<Attestation>
    var now: Time

    /** The accounts as one value. */
    function Snapshot(): State
      reads this
    {
      State(vault, usdc, cvault, trade, credentials, records, mandate, registry, attestation, now)
    }

    constructor (s: State)
      ensures Snapshot() == s
    {
      vault := s.vault;
      usdc, cvault, trade := s.usdc, s.cvault, s.trade;
      credentials, records := s.credentials, s.records;
      mandate, registry, attestation := s.mandate, s.registry, s.attestation;
      now := s.now;
    }

    // -------------------------------------------------------------- deposits and redemptions

    method CheckDeposit(payer: Pubkey, record: Option<RecordId>, amount: u64) returns (r: Result<()>)
      ensures r == DepositGate(Snapshot(), payer, record, amount)
    {
      if !payer.Key? { return Err(MissingSignature); }
      :- Need(payer in credentials && (record.Some? ==> record.value in records), AccountError);
      :- Need(!vault.paused, VaultPaused);
      :- Need(amount >= vault.minDeposit, DepositTooSmall);
      :- Need(amount <= vault.maxDeposit, DepositTooLarge);
      var cred := credentials[payer];
      :- Need(cred.status == CREDENTIAL_STATUS_ACTIVE, ComplianceCheckFailed);
      :- Need(cred.expiresAt > now, CredentialExpired);
      :- Need(cred.wallet == payer, ComplianceCheckFailed);
      return Ok(());
    }

    method SpendRecord(payer: Pubkey, record: Option<RecordId>, amount: u64) returns (r: Result<()>)
      requires record.Some? ==> record.value in records
      modifies this`records
      ensures Agrees(r, records, TravelRuleGate(old(Snapshot()), payer, record, amount))
    {
      if amount >= TRAVEL_RULE_THRESHOLD {
        if record.None? { return Err(TravelRuleRequired); }
        var tr := records[record.value];
        :- Need(tr.amount == amount, InvalidTravelRule);
        :- Need(tr.payer == payer, InvalidTravelRule);
        :- Need(!tr.consumed, InvalidTravelRule);
        records := records[record.value := tr.(consumed := true)];
      }
      return Ok(());
    }

    /** The USDC moves before the shares are known to be worth minting. */
    method Exchange(payer: Pubkey, payerUsdc: Pubkey, payerCvault: Pubkey, amount: u64) returns (r: Result<()>)
      modifies this`usdc, this`cvault, this`vault
      ensures Agrees(r, Snapshot(), DepositExchange(old(Snapshot()), payer, payerUsdc, payerCvault, amount))
    {
      var nav := vault.navPriceBps;
      usdc :- usdc.Transfer(payerUsdc, VaultToken, payer, amount);
      var cvaultAmount :- CheckedShares(amount, nav);
      :- Need(cvaultAmount > 0, DepositTooSmall);
      cvault :- cvault.MintTo(payerCvault, cvaultAmount);
      r := RecordDeposit(amount, cvaultAmount);
    }

    method RecordDeposit(amount: u64, cvaultAmount: u64) returns (r: Result<()>)
      modifies this`vault
      ensures Agrees(r, vault, BookDeposit(old(vault), amount, cvaultAmount))
    {
      var newDeposits :- CheckedAdd(vault.totalDeposits, amount);
      vault := vault.(totalDeposits := newDeposits);
      var newSupply :- CheckedAdd(vault.totalSupply, cvaultAmount);
      vault := vault.(totalSupply := newSupply);
      return Ok(());
    }

    method Deposit(payer: Pubkey, payerUsdc: Pubkey, payerCvault: Pubkey, record: Option<RecordId>, amount: u64)
      returns (r: Result<()>)
      modifies this
      ensures Agrees(r, Snapshot(), DepositStep(old(Snapshot()), payer, payerUsdc, payerCvault, record, amount))
    {
      ghost var spec := DepositStep(Snapshot(), payer, payerUsdc, payerCvault, record, amount);
      r := CheckDeposit(payer, record, amount);
      if r.Err? { return; }
      r := SpendRecord(payer, record, amount);
      if r.Err? { return; }
      ghost var exchanged := DepositExchange(Snapshot(), payer, payerUsdc, payerCvault, amount);
      assert spec == exchanged;
      r := Exchange(payer, payerUsdc, payerCvault, amount);
      assert Agrees(r, Snapshot(), exchanged);
    }

    method InitTravelRule(payer: Pubkey, nonce: nat, amount: u64) returns (r: Result<()>)
      modifies this
      ensures Agrees(r, Snapshot(), InitTravelRuleStep(old(Snapshot()), payer, nonce, amount))
    {
      if !payer.Key? { return Err(MissingSignature); }
      records :- CreateRecord(records, payer, nonce, amount);
      :- Need(amount >= TRAVEL_RULE_THRESHOLD, InvalidTravelRule);
      return Ok(());
    }

    method PayableUsdc(shares: u64) returns (r: Result<u64>)
      ensures r == Payable(Snapshot(), shares)
    {
      var usdcAmount :- CheckedAssets(shares, vault.navPriceBps);
      if usdc.Balance(VaultToken) < usdcAmount { return Err(InsufficientVaultFunds); }
      return Ok(usdcAmount);
    }

    method RecordRedemption(payout: u64, shares: u64) returns (r: Result<()>)
      modifies this`vault
      ensures Agrees(r, vault, BookRedemption(old(vault), payout, shares))
    {
      vault := vault.(totalDeposits := SaturatingSub(vault.totalDeposits, payout));
      var newSupply :- CheckedSub(vault.totalSupply, shares);
      vault := vault.(totalSupply := newSupply);
      return Ok(());
    }

    method Redeem(redeemer: Pubkey, source: Pubkey, destination: Pubkey, amount: u64) returns (r: Result<()>)
      modifies this`cvault, this`usdc, this`vault
      ensures Agrees(r, Snapshot(), RedeemStep(old(Snapshot()), redeemer, source, destination, amount))
    {
      ghost var spec := RedeemStep(Snapshot(), redeemer, source, destination, amount);
      if !redeemer.Key? { return Err(MissingSignature); }
      :- Need(!vault.paused, VaultPaused);
      var payable := PayableUsdc(amount);
      var usdcAmount :- payable;
      cvault :- cvault.Burn(source, redeemer, amount);
      usdc :- usdc.Transfer(VaultToken, destination, VaultState, usdcAmount);
      r := RecordRedemption(usdcAmount, amount);
    }

    method ConvertToTradeable(user: Pubkey, source: Pubkey, destination: Pubkey, amount: u64) returns (r: Result<()>)
      modifies this
      ensures Agrees(r, Snapshot(), ConvertStep(old(Snapshot()), user, source, destination, amount))
    {
      if !user.Key? { return Err(MissingSignature); }
      :- Need(!vault.paused, VaultPaused);
      :- Need(vault.secondaryMarketEnabled, SecondaryMarketDisabled);
      cvault :- cvault.Burn(source, user, amount);
      trade :- trade.MintTo(destination, amount);
      return Ok(());
    }

    /** The trade tokens are burned before the vault's funds are checked. */
    method RedeemTradeable(user: Pubkey, source: Pubkey, userCvault: Pubkey, destination: Pubkey, amount: u64,
        toCvault: bool)
      returns (r: Result<()>)
      modifies this
      ensures Agrees(r, Snapshot(),
        RedeemTradeableStep(old(Snapshot()), user, source, userCvault, destination, amount, toCvault))
    {
      if !user.Key? { return Err(MissingSignature); }
      :- Need(!vault.paused, VaultPaused);
      trade :- trade.Burn(source, user, amount);
      if toCvault {
        cvault :- cvault.MintTo(userCvault, amount);
      } else {
        r := PayTraded(destination, amount);
        return;
      }
      return Ok(());
    }

    method PayTraded(destination: Pubkey, amount: u64) returns (r: Result<()>)
      modifies this`usdc, this`vault
      ensures Agrees(r, Snapshot(), TradePayout(old(Snapshot()), destination, amount))
    {
      var payable := PayableUsdc(amount);
      var usdcAmount :- payable;
      usdc :- usdc.Transfer(VaultToken, destination, VaultState, usdcAmount);
      var newDeposits :- CheckedSub(vault.totalDeposits, usdcAmount);
      vault := vault.(totalDeposits := newDeposits);
      var newSupply :- CheckedSub(vault.totalSupply, amount);
      vault := vault.(totalSupply := newSupply);
      return Ok(());
    }

    // -------------------------------------------------------------- price and yield

    method SetNav(signer: Pubkey, nav: u64) returns (r: Result<()>)
      modifies this
      ensures Agrees(r, Snapshot(), SetNavStep(old(Snapshot()), signer, nav))
    {
      if registry.None? { return Err(AccountError); }
      :- Need(vault.OperatorKey() == signer, OperatorNotAuthorized);
      :- Need(nav > 0, InvalidNav);
      var current := vault.navPriceBps;
      var maxChange: u64 := current / 2;
      :- Need(nav >= SaturatingSub(current, maxChange), NavChangeTooLarge);
      var upper :- PanickingAdd(current, maxChange);
      :- Need(nav <= upper, NavChangeTooLarge);
      registry := Some(registry.value.(lastVerifiedAt := now));
      vault := vault.(navPriceBps := nav);
      return Ok(());
    }

    method ProcessYield(signer: Pubkey) returns (r: Result<()>)
      modifies this
      ensures Agrees(r, Snapshot(), ProcessYieldStep(old(Snapshot()), signer))
    {
      if vault.OperatorKey() != signer { return Err(OperatorNotAuthorized); }
      var daysElapsed: u64 := if now > vault.lastYieldClaim then (now - vault.lastYieldClaim) / SECONDS_IN_DAY else 0;
      if daysElapsed == 0 { return Ok(()); }
      var apportioned :- CheckedMul(vault.totalDeposits, vault.usxAllocationBps);
      var scaled :- CheckedMul(apportioned / 10_000, vault.apyBps);
      var dailyYield: u64 := scaled / 10_000 / 365;
      var accrued :- CheckedMul(dailyYield, daysElapsed);
      var newPending :- CheckedAdd(vault.pendingYield, accrued);
      vault := vault.(pendingYield := newPending);
      vault := vault.(lastYieldClaim := vault.lastYieldClaim + daysElapsed * SECONDS_IN_DAY);
      return Ok(());
    }

    method DistributeYield(signer: Pubkey) returns (r: Result<()>)
      modifies this
      ensures Agrees(r, Snapshot(), DistributeYieldStep(old(Snapshot()), signer))
    {
      if vault.OperatorKey() != signer { return Err(OperatorNotAuthorized); }
      if vault.pendingYield == 0 { return Ok(()); }
      vault := vault.(pendingYield := 0);
      vault := vault.(lastYieldClaim := now);
      return Ok(());
    }

    method SyncYield(signer: Pubkey) returns (r: Result<()>)
      modifies this
      ensures Agrees(r, Snapshot(), SyncYieldStep(old(Snapshot()), signer))
    {
      if vault.OperatorKey() != signer { return Err(OperatorNotAuthorized); }
      vault := vault.(lastYieldClaim := now);
      return Ok(());
    }

    method RegisterUsxAccounts(signer: Pubkey, newUsx: Pubkey, newEusx: Pubkey) returns (r: Result<()>)
      modifies this
      ensures Agrees(r, Snapshot(), RegisterUsxStep(old(Snapshot()), signer, newUsx, newEusx))
    {
      if vault.OperatorKey() != signer { return Err(OperatorNotAuthorized); }
      vault := vault.(usxAccount := newUsx, eusxAccount := newEusx);
      return Ok(());
    }

    // -------------------------------------------------------------- administration

    method SetPause(signer: Pubkey, newPaused: bool) returns (r: Result<()>)
      modifies this
      ensures Agrees(r, Snapshot(), SetPauseStep(old(Snapshot()), signer, newPaused))
    {
      if signer != vault.authority { return Err(AccountError); }
      vault := vault.(paused := newPaused);
      return Ok(());
    }

    method SetAllocation(bps: u16, withMandate: bool) returns (r: Result<()>)
      requires withMandate ==> mandate.Some?
      modifies this`vault
      ensures r == if bps > 10_000 then Err(InvalidAllocation)
                   else if withMandate && bps > mandate.value.maxUsxAllocationBps then Err(MandateBreached) else Ok(())
      ensures r.Ok? ==> vault == old(vault).(usxAllocationBps := bps)
    {
      if bps > 10_000 { return Err(InvalidAllocation); }
      if withMandate {
        :- Need(bps <= mandate.value.maxUsxAllocationBps, MandateBreached);
      }
      vault := vault.(usxAllocationBps := bps);
      return Ok(());
    }

    method SetLimits(c: ConfigUpdate)
      modifies this`vault
      ensures vault == old(vault).(minDeposit := Or(c.minDeposit, old(vault).minDeposit),
                                   maxDeposit := Or(c.maxDeposit, old(vault).maxDeposit))
    {
      if c.minDeposit.Some? { vault := vault.(minDeposit := c.minDeposit.value); }
      if c.maxDeposit.Some? { vault := vault.(maxDeposit := c.maxDeposit.value); }
    }

    method SetTerms(c: ConfigUpdate)
      modifies this`vault
      ensures vault == old(vault).(apyBps := Or(c.apyBps, old(vault).apyBps),
                                   secondaryMarketEnabled :=
                                     Or(c.secondaryMarketEnabled, old(vault).secondaryMarketEnabled))
    {
      if c.apyBps.Some? { vault := vault.(apyBps := c.apyBps.value); }
      if c.secondaryMarketEnabled.Some? { vault := vault.(secondaryMarketEnabled := c.secondaryMarketEnabled.value); }
    }

    /** The deposit limits are written before the allocation is checked. */
    method UpdateConfig(signer: Pubkey, c: ConfigUpdate, withMandate: bool) returns (r: Result<()>)
      modifies this
      ensures Agrees(r, Snapshot(), UpdateConfigStep(old(Snapshot()), signer, c, withMandate))
    {
      if signer != vault.authority { return Err(AccountError); }
      :- Need(withMandate ==> mandate.Some?, AccountError);
      SetLimits(c);
      if c.usxAllocationBps.Some? {
        r := SetAllocation(c.usxAllocationBps.value, withMandate);
        if r.Err? { return; }
      }
      SetTerms(c);
      return Ok(());
    }

    method IssueCredential(signer: Pubkey, wallet: Pubkey, issuedAt: int, expiresAt: int) returns (r: Result<()>)
      modifies this
      ensures Agrees(r, Snapshot(), IssueCredentialStep(old(Snapshot()), signer, wallet, issuedAt, expiresAt))
    {
      if signer != vault.authority { return Err(AccountError); }
      credentials :- Issue(credentials, wallet, issuedAt, expiresAt);
      :- Need(expiresAt > issuedAt, InvalidCredential);
      return Ok(());
    }

    method RevokeCredential(signer: Pubkey, wallet: Pubkey) returns (r: Result<()>)
      modifies this
      ensures Agrees(r, Snapshot(), RevokeCredentialStep(old(Snapshot()), signer, wallet))
    {
      if signer != vault.authority { return Err(AccountError); }
      credentials :- Revoke(credentials, wallet, InvalidCredential);
      return Ok(());
    }

    method InitializeMandate(signer: Pubkey, m: Mandate) returns (r: Result<()>)
      modifies this
      ensures Agrees(r, Snapshot(), InitializeMandateStep(old(Snapshot()), signer, m))
    {
      if !(signer == vault.authority && mandate.None?) { return Err(AccountError); }
      :- Need(m.minLiquidityBufferBps + m.maxUsxAllocationBps <= 10_000, InvalidMandate);
      mandate := Some(m);
      return Ok(());
    }

    method SetEnforcement(signer: Pubkey, active: bool) returns (r: Result<()>)
      modifies this
      ensures Agrees(r, Snapshot(), SetEnforcementStep(old(Snapshot()), signer, active))
    {
      if !(signer == vault.authority && mandate.Some?) { return Err(AccountError); }
      mandate := Some(mandate.value.(enforcementActive := active));
      return Ok(());
    }

    method InitializeRegistry(signer: Pubkey, linkHash: nat) returns (r: Result<()>)
      modifies this
      ensures Agrees(r, Snapshot(), InitializeRegistryStep(old(Snapshot()), signer, linkHash))
    {
      if !(signer == vault.authority && registry.None?) { return Err(AccountError); }
      registry := Some(Registry(linkHash, now));
      return Ok(());
    }

    method UpdateRegistry(signer: Pubkey, newHash: Option<nat>) returns (r: Result<()>)
      modifies this
      ensures Agrees(r, Snapshot(), UpdateRegistryStep(old(Snapshot()), signer, newHash))
    {
      if !(signer == vault.authority && registry.Some?) { return Err(AccountError); }
      if newHash.Some? { registry := Some(registry.value.(linkHash := newHash.value)); }
      registry := Some(registry.value.(lastVerifiedAt := now));
      return Ok(());
    }

    method PostAttestation(signer: Pubkey, hash: nat) returns (r: Result<()>)
      modifies this
      ensures Agrees(r, Snapshot(), PostAttestationStep(old(Snapshot()), signer, hash))
    {
      if registry.None? { return Err(AccountError); }
      :- Need(vault.OperatorKey() == signer, OperatorNotAuthorized);
      :- Need(hash == registry.value.linkHash, AttestationHashMismatch);
      attestation := Some(Attestation(hash, now));
      return Ok(());
    }

    // -------------------------------------------------------------- runtime

    method Dispatch(i: Instruction) returns (r: Result<()>)
      modifies this
      ensures Agrees(r, Snapshot(), S.Execute(old(Snapshot()), i))
    {
      match i
      case Deposit(payer, payerUsdc, payerCvault, record, amount) =>
        r := Deposit(payer, payerUsdc, payerCvault, record, amount);
      case InitTravelRule(payer, nonce, amount) => r := InitTravelRule(payer, nonce, amount);
      case Redeem(redeemer, source, destination, amount) => r := Redeem(redeemer, source, destination, amount);
      case ConvertToTradeable(user, source, destination, amount) =>
        r := ConvertToTradeable(user, source, destination, amount);
      case RedeemTradeable(user, source, userCvault, destination, amount, toCvault) =>
        r := RedeemTradeable(user, source, userCvault, destination, amount, toCvault);
      case SetNav(signer, nav) => r := SetNav(signer, nav);
      case ProcessYield(signer) => r := ProcessYield(signer);
      case _ => r := DispatchAdministration(i);
    }

    method DispatchAdministration(i: Instruction) returns (r: Result<()>)
      requires !(i.Deposit? || i.InitTravelRule? || i.Redeem? || i.ConvertToTradeable? || i.RedeemTradeable? ||
        i.SetNav? || i.ProcessYield?)
      modifies this
      ensures Agrees(r, Snapshot(), S.Execute(old(Snapshot()), i))
    {
      match i
      case DistributeYield(signer) => r := DistributeYield(signer);
      case SyncYield(signer) => r := SyncYield(signer);
      case SetPause(signer, newPaused) => r := SetPause(signer, newPaused);
      case UpdateConfig(signer, config, withMandate) => r := UpdateConfig(signer, config, withMandate);
      case IssueCredential(signer, wallet, issuedAt, expiresAt) =>
        r := IssueCredential(signer, wallet, issuedAt, expiresAt);
      case RevokeCredential(signer, wallet) => r := RevokeCredential(signer, wallet);
      case InitializeMandate(signer, m) => r := InitializeMandate(signer, m);
      case SetEnforcement(signer, active) => r := SetEnforcement(signer, active);
      case InitializeRegistry(signer, linkHash) => r := InitializeRegistry(signer, linkHash);
      case UpdateRegistry(signer, newHash) => r := UpdateRegistry(signer, newHash);
      case PostAttestation(signer, hash) => r := PostAttestation(signer, hash);
      case RegisterUsxAccounts(signer, newUsx, newEusx) => r := RegisterUsxAccounts(signer, newUsx, newEusx);
    }

    method Restore(s: State)
      modifies this
      ensures Snapshot() == s
    {
      vault := s.vault;
      usdc, cvault, trade := s.usdc, s.cvault, s.trade;
      credentials, records := s.credentials, s.records;
      mandate, registry, attestation := s.mandate, s.registry, s.attestation;
      now := s.now;
    }

    /** One transaction: either the instruction's whole effect, or none of it, even when the handler
        had already burned tokens or spent a record before it failed. */
    method Transact(i: Instruction) returns (r: Result<()>)
      modifies this
      ensures Snapshot() == S.Next(old(Snapshot()), Program(i))
      ensures r.Ok? <==> S.Execute(old(Snapshot()), i).Ok?
      ensures r.Err? ==> S.Execute(old(Snapshot()), i) == Err(r.error) && Snapshot() == old(Snapshot())
    {
      var before := Snapshot();
      r := Dispatch(i);
      if r.Err? {
        Restore(before);
      }
    }
  }
}
