/** The factory program as it runs: handlers over shared accounts, undone as a whole when they fail. */
module CustodyProgram {
  import opened Results
  import opened FixedPoint
  import opened TokenLedger
  import opened Compliance
  import opened NavGuard
  import opened S = CustodySpec

  class CustodyFactory {
    var authority: Pubkey
    var registered: seq<Pubkey>
    var vaults: map<Pubkey, AssetVault>
    var ledgers: map<Pubkey, Ledger>
    var records: Records
    var credentials: Credentials

    function Snapshot(): Factory
      reads this
    {
      Factory(authority, registered, vaults, ledgers, records, credentials)
    }

    constructor (f: Factory)
      ensures Snapshot() == f
    {
      authority, registered, vaults, ledgers := f.authority, f.registered, f.vaults, f.ledgers;
      records, credentials := f.records, f.credentials;
    }

    method RegisterAsset(signer: Pubkey, asset: Pubkey, nav: u64, minDeposit: u64, maxDeposit: u64,
        travelRuleRequired: bool)
      returns (r: Result<()>)
      modifies this
      ensures Agrees(r, Snapshot(),
        RegisterAssetStep(old(Snapshot()), signer, asset, nav, minDeposit, maxDeposit, travelRuleRequired))
    {
      if !(signer == authority && asset in ledgers) { return Err(AccountError); }
      :- Need(asset !in vaults && ShareMintAddress(asset) !in ledgers, AccountError);
      var ledger :- ledgers[asset].Open(AssetTokenAddress(asset), AssetVaultAddress(asset));
      ledgers := ledgers[asset := ledger];
      ledgers := ledgers[ShareMintAddress(asset) := Ledger(map[], 0)];
      :- Need(nav > 0, InvalidNav);
      :- Need(minDeposit <= maxDeposit, DepositTooSmall);
      :- Need(asset !in registered, AssetAlreadyRegistered);
      :- Need(|registered| < MAX_ASSETS, FactoryFull);
      registered := registered + [asset];
      vaults := vaults[asset := AssetVault(nav, 0, 0, minDeposit, maxDeposit, travelRuleRequired, false)];
      return Ok(());
    }

    method SetNav(signer: Pubkey, asset: Pubkey, nav: u64) returns (r: Result<()>)
      modifies this
      ensures Agrees(r, Snapshot(), SetNavStep(old(Snapshot()), signer, asset, nav))
    {
      if !(signer == authority && asset in vaults) { return Err(AccountError); }
      :- Need(nav > 0, InvalidNav);
      var current := vaults[asset].navPriceBps;
      var scaled :- CheckedMul(current, MAX_NAV_CHANGE_BPS);
      var maxChange: u64 := scaled / NAV_BPS_DENOMINATOR;
      if !(nav >= SaturatingSub(current, maxChange) && nav <= SaturatingAdd(current, maxChange)) {
        return Err(NavChangeTooLarge);
      }
      vaults := vaults[asset := vaults[asset].(navPriceBps := nav)];
      return Ok(());
    }

    method PauseVault(signer: Pubkey, asset: Pubkey, paused: bool) returns (r: Result<()>)
      modifies this
      ensures Agrees(r, Snapshot(), PauseVaultStep(old(Snapshot()), signer, asset, paused))
    {
      if !(signer == authority && asset in vaults) { return Err(AccountError); }
      vaults := vaults[asset := vaults[asset].(paused := paused)];
      return Ok(());
    }

    method CheckDeposit(c: Context, depositor: Pubkey, asset: Pubkey, record: Option<RecordId>, amount: u64)
        returns (r: Result<()>)
      ensures r == DepositGate(Snapshot(), c, depositor, asset, record, amount)
    {
      if !depositor.Key? { return Err(MissingSignature); }
      :- Need(asset in vaults && (record.Some? ==> record.value in records), AccountError);
      :- Need(!vaults[asset].paused, VaultPaused);
      :- Need(amount >= vaults[asset].minDeposit, DepositTooSmall);
      :- Need(amount <= vaults[asset].maxDeposit, DepositTooLarge);
      :- Need(depositor in c.credentials, WrongCredentialProgram);
      var cred := c.credentials[depositor];
      :- Need(cred.status == CREDENTIAL_STATUS_ACTIVE, CredentialNotActive);
      :- Need(cred.expiresAt > c.now, CredentialExpired);
      :- Need(cred.wallet == depositor, CredentialWalletMismatch);
      return Ok(());
    }

    method SpendRecord(v: AssetVault, depositor: Pubkey, record: Option<RecordId>, amount: u64) returns (r: Result<()>)
      requires record.Some? ==> record.value in records
      modifies this`records
      ensures Agrees(r, records, TravelRuleGate(old(Snapshot()), v, depositor, record, amount))
    {
      if v.travelRuleRequired && amount >= TRAVEL_RULE_THRESHOLD {
        if record.None? { return Err(TravelRuleRequired); }
        var tr := records[record.value];
        :- Need(tr.amount == amount, InvalidTravelRule);
        :- Need(tr.payer == depositor, InvalidTravelRule);
        :- Need(!tr.consumed, TravelRuleAlreadyConsumed);
        records := records[record.value := tr.(consumed := true)];
      }
      return Ok(());
    }

    method Exchange(depositor: Pubkey, asset: Pubkey, source: Pubkey, destination: Pubkey, amount: u64)
        returns (r: Result<()>)
      requires asset in vaults
      modifies this`ledgers, this`vaults
      ensures Agrees(r, Snapshot(), DepositExchange(old(Snapshot()), depositor, asset, source, destination, amount))
    {
      ghost var before := Snapshot();
      ghost var spec := DepositExchange(before, depositor, asset, source, destination, amount);
      var shares :- CheckedShares(amount, vaults[asset].navPriceBps);
      :- Need(shares > 0, ZeroShares);
      var assets :- LedgerOf(Snapshot(), asset).Transfer(source, AssetTokenAddress(asset), depositor, amount);
      ledgers := ledgers[asset := assets];
      assert LedgerOf(Snapshot(), ShareMintAddress(asset)) == LedgerOf(before, ShareMintAddress(asset));
      var minted :- LedgerOf(Snapshot(), ShareMintAddress(asset)).MintTo(destination, shares);
      ledgers := ledgers[ShareMintAddress(asset) := minted];
      var booked :- BookDeposit(vaults[asset], amount, shares);
      vaults := vaults[asset := booked];
      return Ok(());
    }

    method Deposit(c: Context, depositor: Pubkey, asset: Pubkey, source: Pubkey, destination: Pubkey,
        record: Option<RecordId>, amount: u64)
      returns (r: Result<()>)
      modifies this`records, this`ledgers, this`vaults
      ensures Agrees(r, Snapshot(),
        DepositStep(old(Snapshot()), c, depositor, asset, source, destination, record, amount))
    {
      ghost var spec := DepositStep(Snapshot(), c, depositor, asset, source, destination, record, amount);
      r := CheckDeposit(c, depositor, asset, record, amount);
      if r.Err? { return; }
      r := SpendRecord(vaults[asset], depositor, record, amount);
      if r.Err? { return; }
      ghost var exchanged := DepositExchange(Snapshot(), depositor, asset, source, destination, amount);
      assert spec == exchanged;
      r := Exchange(depositor, asset, source, destination, amount);
      assert Agrees(r, Snapshot(), exchanged);
    }

    // -------------------------------------------------------------- redemptions

    method PayableAssets(asset: Pubkey, shares: u64) returns (r: Result<u64>)
      requires asset in vaults
      ensures r == Payable(Snapshot(), asset, shares)
    {
      var payout :- CheckedAssets(shares, vaults[asset].navPriceBps);
      if LedgerOf(Snapshot(), asset).Balance(AssetTokenAddress(asset)) < payout { return Err(InsufficientVaultFunds); }
      return Ok(payout);
    }

    method RecordRedemption(asset: Pubkey, payout: u64, shares: u64) returns (r: Result<()>)
      requires asset in vaults
      modifies this`vaults
      ensures match BookRedemption(old(vaults[asset]), payout, shares)
        case Ok(booked) => r.Ok? && vaults == old(vaults)[asset := booked]
        case Err(e) => r == Err(e)
    {
      vaults := vaults[asset := vaults[asset].(totalDeposits := SaturatingSub(vaults[asset].totalDeposits, payout))];
      var newSupply :- CheckedSub(vaults[asset].totalSupply, shares);
      vaults := vaults[asset := vaults[asset].(totalSupply := newSupply)];
      return Ok(());
    }

    method Redeem(redeemer: Pubkey, asset: Pubkey, source: Pubkey, destination: Pubkey, amount: u64)
        returns (r: Result<()>)
      modifies this
      ensures Agrees(r, Snapshot(), RedeemStep(old(Snapshot()), redeemer, asset, source, destination, amount))
    {
      if !redeemer.Key? { return Err(MissingSignature); }
      :- Need(asset in vaults, AccountError);
      :- Need(amount > 0, ZeroShares);
      var payable := PayableAssets(asset, amount);
      var payout :- payable;
      r := RedeemShares(redeemer, asset, source, destination, amount, payout);
    }

    method RedeemShares(redeemer: Pubkey, asset: Pubkey, source: Pubkey, destination: Pubkey, shares: u64, payout: u64)
      returns (r: Result<()>)
      requires asset in vaults
      modifies this`ledgers, this`vaults
      ensures Agrees(r, Snapshot(),
        RedeemExchange(old(Snapshot()), redeemer, asset, source, destination, shares, payout))
    {
      ghost var before := Snapshot();
      var burned :- LedgerOf(Snapshot(), ShareMintAddress(asset)).Burn(source, redeemer, shares);
      ledgers := ledgers[ShareMintAddress(asset) := burned];
      assert LedgerOf(Snapshot(), asset) == LedgerOf(before, asset);
      var assets :- LedgerOf(Snapshot(), asset).Transfer(AssetTokenAddress(asset), destination,
        AssetVaultAddress(asset), payout);
      ledgers := ledgers[asset := assets];
      r := RecordRedemption(asset, payout, shares);
    }

    method TransferShares(c: Context, sender: Pubkey, asset: Pubkey, source: Pubkey, destination: Pubkey, amount: u64)
      returns (r: Result<()>)
      modifies this
      ensures Agrees(r, Snapshot(), TransferSharesStep(old(Snapshot()), c, sender, asset, source, destination, amount))
    {
      var shares := LedgerOf(Snapshot(), ShareMintAddress(asset));
      :- Need(sender.Key?, MissingSignature);
      :- Need(asset in vaults && source in shares.accounts && destination in shares.accounts, AccountError);
      :- Need(amount > 0, ZeroShares);
      :- Need(!vaults[asset].paused, VaultPaused);
      var _ :- CredentialGate(c, sender);
      var receiverWallet := shares.accounts[destination].owner;
      var _ :- ReceiverGate(c, receiverWallet);
      var moved :- shares.Transfer(source, destination, sender, amount);
      ledgers := ledgers[ShareMintAddress(asset) := moved];
      return Ok(());
    }

    method InitTravelRule(payer: Pubkey, nonce: nat, amount: u64) returns (r: Result<()>)
      modifies this
      ensures Agrees(r, Snapshot(), InitTravelRuleStep(old(Snapshot()), payer, nonce, amount))
    {
      if !payer.Key? { return Err(MissingSignature); }
      records :- CreateRecord(records, payer, nonce, amount);
      :- Need(amount >= TRAVEL_RULE_THRESHOLD, DepositTooSmall);
      return Ok(());
    }

    method IssueCredential(c: Context, signer: Pubkey, wallet: Pubkey, expiresAt: int) returns (r: Result<()>)
      modifies this
      ensures Agrees(r, Snapshot(), IssueCredentialStep(old(Snapshot()), c, signer, wallet, expiresAt))
    {
      if signer != authority { return Err(AccountError); }
      credentials :- Issue(credentials, wallet, c.now, expiresAt);
      :- Need(expiresAt > c.now, CredentialExpired);
      return Ok(());
    }

    method RevokeCredential(signer: Pubkey, wallet: Pubkey) returns (r: Result<()>)
      modifies this
      ensures Agrees(r, Snapshot(), RevokeCredentialStep(old(Snapshot()), signer, wallet))
    {
      if signer != authority { return Err(AccountError); }
      credentials :- Revoke(credentials, wallet, CredentialAlreadyRevoked);
      return Ok(());
    }

    // -------------------------------------------------------------- runtime

    method Dispatch(c: Context, i: Instruction) returns (r: Result<()>)
      modifies this
      ensures Agrees(r, Snapshot(), S.Execute(old(Snapshot()), c, i))
    {
      match i
      case RegisterAsset(signer, asset, nav, minDeposit, maxDeposit, travelRuleRequired) =>
        r := RegisterAsset(signer, asset, nav, minDeposit, maxDeposit, travelRuleRequired);
      case SetNav(signer, asset, nav) => r := SetNav(signer, asset, nav);
      case PauseVault(signer, asset, paused) => r := PauseVault(signer, asset, paused);
      case Deposit(depositor, asset, source, destination, record, amount) =>
        r := Deposit(c, depositor, asset, source, destination, record, amount);
      case Redeem(redeemer, asset, source, destination, amount) =>
        r := Redeem(redeemer, asset, source, destination, amount);
      case TransferShares(sender, asset, source, destination, amount) =>
        r := TransferShares(c, sender, asset, source, destination, amount);
      case InitTravelRule(payer, nonce, amount) => r := InitTravelRule(payer, nonce, amount);
      case IssueCredential(signer, wallet, expiresAt) => r := IssueCredential(c, signer, wallet, expiresAt);
      case RevokeCredential(signer, wallet) => r := RevokeCredential(signer, wallet);
    }

    /** One transaction: either the instruction's whole effect, or none of it. */
    method Transact(c: Context, i: Instruction) returns (r: Result<()>)
      modifies this
      ensures Snapshot() == S.Next(old(Snapshot()), Program(c, i))
      ensures r.Ok? <==> S.Execute(old(Snapshot()), c, i).Ok?
      ensures r.Err? ==> S.Execute(old(Snapshot()), c, i) == Err(r.error) && Snapshot() == old(Snapshot())
    {
      var before := Snapshot();
      r := Dispatch(c, i);
      if r.Err? {
        authority, registered, vaults, ledgers := before.authority, before.registered, before.vaults, before.ledgers;
        records, credentials := before.records, before.credentials;
      }
    }
  }
}
