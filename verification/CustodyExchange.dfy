/** The factory's exchanges seen from the holder's side: when each is accepted and what it moves. */
module CustodyExchange {
  import opened Results
  import opened FixedPoint
  import opened TokenLedger
  import opened Compliance
  import opened CustodySpec
  import opened CustodyRefinement
  import opened DepositTerms

  /** The payout of `amount` shares fits 64 bits, is in the vault, and has somewhere to go. */
  predicate CanPay(f: Factory, asset: Pubkey, destination: Pubkey, amount: u64)
    requires asset in f.vaults
  {
    && amount * f.vaults[asset].navPriceBps <= U64_MAX
    && AssetsFor(amount, f.vaults[asset].navPriceBps) <= LedgerOf(f, asset).Balance(AssetTokenAddress(asset))
    && destination in LedgerOf(f, asset).accounts
  }

  lemma PayableExactly(f: Factory, asset: Pubkey, destination: Pubkey, amount: u64)
    requires LedgersValid(f) && Sound(f, asset) && asset in f.vaults
    ensures Payable(f, asset, amount).Ok? <==>
      amount * f.vaults[asset].navPriceBps <= U64_MAX &&
      AssetsFor(amount, f.vaults[asset].navPriceBps) <= LedgerOf(f, asset).Balance(AssetTokenAddress(asset))
    ensures Payable(f, asset, amount).Ok? ==>
      Payable(f, asset, amount).value == AssetsFor(amount, f.vaults[asset].navPriceBps)
    ensures Payable(f, asset, amount).Ok? ==>
      (f.ledgers[asset].Transfer(AssetTokenAddress(asset), destination, AssetVaultAddress(asset),
        Payable(f, asset, amount).value).Ok? <==>
        destination in f.ledgers[asset].accounts)
  {
    CheckedAssetsExact(amount, f.vaults[asset].navPriceBps);
    if Payable(f, asset, amount).Ok? {
      TransferAccepted(f.ledgers[asset], AssetTokenAddress(asset), destination, AssetVaultAddress(asset),
        Payable(f, asset, amount).value);
    }
  }

  /** A redemption is accepted exactly when the signer holds the shares and the payout can be made:
      neither the pause flag nor any credential has a say. */
  lemma RedeemExactly(f: Factory, redeemer: Pubkey, asset: Pubkey, source: Pubkey, destination: Pubkey, amount: u64)
    requires Inv(f)
    ensures RedeemStep(f, redeemer, asset, source, destination, amount).Ok? <==>
      redeemer.Key? && asset in f.vaults && amount > 0 &&
      Holds(LedgerOf(f, ShareMintAddress(asset)), redeemer, source, amount) && CanPay(f, asset, destination, amount)
  {
    var r := RedeemStep(f, redeemer, asset, source, destination, amount);
    assert Sound(f, asset);
    if asset in f.vaults {
      PayableExactly(f, asset, destination, amount);
      BurnAccepted(f.ledgers[ShareMintAddress(asset)], source, redeemer, amount);
      BalanceWithinSupply(f.ledgers[ShareMintAddress(asset)], source);
    }
  }

  /** It burns exactly those shares, pays exactly their value, and touches nothing else but the two
      totals of that vault. */
  lemma RedeemPays(f: Factory, redeemer: Pubkey, asset: Pubkey, source: Pubkey, destination: Pubkey, amount: u64)
    requires Inv(f) && RedeemStep(f, redeemer, asset, source, destination, amount).Ok?
    ensures asset in f.vaults
    ensures var g, share := RedeemStep(f, redeemer, asset, source, destination, amount).value, ShareMintAddress(asset);
      var v, payout := f.vaults[asset], AssetsFor(amount, f.vaults[asset].navPriceBps);
      && Burned(LedgerOf(f, share), LedgerOf(g, share), source, amount)
      && Moved(LedgerOf(f, asset), LedgerOf(g, asset), AssetTokenAddress(asset), destination, payout)
      && g == f.(vaults := f.vaults[asset := v.(totalSupply := v.totalSupply - amount,
                                               totalDeposits :=
                                                 if payout <= v.totalDeposits then v.totalDeposits - payout else 0)],
                 ledgers := f.ledgers[share := LedgerOf(g, share)][asset := LedgerOf(g, asset)])
  {
    var r := RedeemStep(f, redeemer, asset, source, destination, amount);
    assert Sound(f, asset);
    var payout := Payable(f, asset, amount).value;
    assert r == RedeemExchange(f, redeemer, asset, source, destination, amount, payout);
    CheckedAssetsExact(amount, f.vaults[asset].navPriceBps);
    RedeemExchangePays(f, redeemer, asset, source, destination, amount, payout);
  }

  lemma RedeemExchangePays(f: Factory, redeemer: Pubkey, asset: Pubkey, source: Pubkey, destination: Pubkey,
      amount: u64, payout: u64)
    requires Sound(f, asset) && asset in f.vaults
    requires RedeemExchange(f, redeemer, asset, source, destination, amount, payout).Ok?
    ensures var g, share := RedeemExchange(f, redeemer, asset, source, destination, amount, payout).value,
      ShareMintAddress(asset);
      var v := f.vaults[asset];
      && Burned(LedgerOf(f, share), LedgerOf(g, share), source, amount)
      && Moved(LedgerOf(f, asset), LedgerOf(g, asset), AssetTokenAddress(asset), destination, payout)
      && amount <= v.totalSupply
      && g == f.(vaults := f.vaults[asset := v.(totalSupply := v.totalSupply - amount,
                                               totalDeposits :=
                                                 if payout <= v.totalDeposits then v.totalDeposits - payout else 0)],
                 ledgers := f.ledgers[share := LedgerOf(g, share)][asset := LedgerOf(g, asset)])
  {
    var burned, assets := RedeemShape(f, redeemer, asset, source, destination, amount, payout);
    BurnEffect(f.ledgers[ShareMintAddress(asset)], source, redeemer, amount);
    TransferEffect(f.ledgers[asset], AssetTokenAddress(asset), destination, AssetVaultAddress(asset), payout);
  }

  /** The depositor may deposit `amount` now: signer, pause flag, credential, limits and, where the vault
      asks for it, the travel rule. */
  predicate Admitted(f: Factory, c: Context, depositor: Pubkey, asset: Pubkey, record: Option<RecordId>, amount: u64)
    requires asset in f.vaults
  {
    && depositor.Key? && !f.vaults[asset].paused
    && InForce(c.credentials, depositor, c.now)
    && f.vaults[asset].minDeposit <= amount <= f.vaults[asset].maxDeposit
    && (record.Some? ==> record.value in f.records)
    && (f.vaults[asset].travelRuleRequired && amount >= TRAVEL_RULE_THRESHOLD ==>
       Usable(f.records, record, depositor, amount))
  }

  lemma ExchangeSteps(f: Factory, depositor: Pubkey, asset: Pubkey, source: Pubkey, destination: Pubkey, amount: u64)
    requires asset in f.vaults && asset in f.ledgers && ShareMintAddress(asset) in f.ledgers
    requires f.vaults[asset].navPriceBps > 0
    ensures var v := f.vaults[asset];
      DepositExchange(f, depositor, asset, source, destination, amount).Ok? <==>
        Exchangeable(f.ledgers[asset], f.ledgers[ShareMintAddress(asset)], depositor, source, AssetTokenAddress(asset),
          destination, amount, CheckedShares(amount, v.navPriceBps), v.totalDeposits, v.totalSupply)
  {}

  lemma ExchangeExactly(f: Factory, depositor: Pubkey, asset: Pubkey, source: Pubkey, destination: Pubkey, amount: u64)
    requires LedgersValid(f) && Sound(f, asset) && asset in f.vaults && depositor.Key?
    ensures var v := f.vaults[asset];
      f.vaults[asset].navPriceBps > 0 &&
      (DepositExchange(f, depositor, asset, source, destination, amount).Ok? <==>
        TokensReady(LedgerOf(f, asset), LedgerOf(f, ShareMintAddress(asset)), depositor, source, destination, amount) &&
        RoomFor(amount, SharesFor(amount, v.navPriceBps), v.totalSupply))
  {
    var v := f.vaults[asset];
    ExchangeSteps(f, depositor, asset, source, destination, amount);
    ExchangeableExactly(f.ledgers[asset], f.ledgers[ShareMintAddress(asset)], depositor, source,
      AssetTokenAddress(asset), destination, amount, v.navPriceBps, v.totalDeposits, v.totalSupply);
  }

  lemma AdmittedExactly(f: Factory, c: Context, depositor: Pubkey, asset: Pubkey, record: Option<RecordId>, amount: u64)
    requires WellKept(c.credentials) && asset in f.vaults
    ensures Admitted(f, c, depositor, asset, record, amount) <==>
      DepositGate(f, c, depositor, asset, record, amount).Ok? &&
        TravelRuleGate(f, f.vaults[asset], depositor, record, amount).Ok?
  {
    ConsumeAccepted(f.records, record, depositor, amount, TravelRuleAlreadyConsumed);
  }

  /** A deposit is accepted exactly when the depositor is admitted, the tokens are at hand, and the shares
      are positive and fit. */
  lemma DepositExactly(f: Factory, c: Context, depositor: Pubkey, asset: Pubkey, source: Pubkey, destination: Pubkey,
                       record: Option<RecordId>, amount: u64)
    requires Inv(f) && WellKept(c.credentials)
    ensures asset in f.vaults ==> f.vaults[asset].navPriceBps > 0
    ensures DepositStep(f, c, depositor, asset, source, destination, record, amount).Ok? <==>
      asset in f.vaults && Admitted(f, c, depositor, asset, record, amount) &&
      TokensReady(LedgerOf(f, asset), LedgerOf(f, ShareMintAddress(asset)), depositor, source, destination, amount) &&
      RoomFor(amount, SharesFor(amount, f.vaults[asset].navPriceBps), f.vaults[asset].totalSupply)
  {
    assert Sound(f, asset);
    if asset in f.vaults {
      AdmittedExactly(f, c, depositor, asset, record, amount);
      var gate := TravelRuleGate(f, f.vaults[asset], depositor, record, amount);
      if Admitted(f, c, depositor, asset, record, amount) {
        ExchangeExactly(f.(records := gate.value), depositor, asset, source, destination, amount);
      }
    }
  }

  lemma ExchangeMints(f: Factory, depositor: Pubkey, asset: Pubkey, source: Pubkey, destination: Pubkey, amount: u64)
    requires asset in f.vaults && f.vaults[asset].navPriceBps > 0
    requires DepositExchange(f, depositor, asset, source, destination, amount).Ok?
    ensures var t, minted := DepositExchange(f, depositor, asset, source, destination, amount).value,
      SharesFor(amount, f.vaults[asset].navPriceBps);
      minted > 0 && asset in t.vaults && t.vaults[asset].totalSupply == f.vaults[asset].totalSupply + minted &&
      MintedTo(LedgerOf(f, ShareMintAddress(asset)), LedgerOf(t, ShareMintAddress(asset)), destination, minted)
  {
    CheckedSharesExact(amount, f.vaults[asset].navPriceBps);
    MintEffect(LedgerOf(f, ShareMintAddress(asset)), destination,
      CheckedShares(amount, f.vaults[asset].navPriceBps).value);
  }

  /** A deposit moves exactly the amount from the depositor's account to the vault's. */
  lemma DepositPays(f: Factory, c: Context, depositor: Pubkey, asset: Pubkey, source: Pubkey, destination: Pubkey,
                    record: Option<RecordId>, amount: u64)
    requires Inv(f) && DepositStep(f, c, depositor, asset, source, destination, record, amount).Ok?
    ensures asset in f.vaults
    ensures var g := DepositStep(f, c, depositor, asset, source, destination, record, amount).value;
      source != AssetTokenAddress(asset) &&
      Moved(LedgerOf(f, asset), LedgerOf(g, asset), source, AssetTokenAddress(asset), amount)
  {
    assert Sound(f, asset);
    var g := f.(records := TravelRuleGate(f, f.vaults[asset], depositor, record, amount).value);
    var _, _, _ := DepositShape(g, depositor, asset, source, destination, amount);
    VaultAccountGuarded(f, source, depositor, asset);
    TransferEffect(f.ledgers[asset], source, AssetTokenAddress(asset), depositor, amount);
  }

  lemma TransferSharesSteps(f: Factory, c: Context, sender: Pubkey, asset: Pubkey, source: Pubkey,
      destination: Pubkey, amount: u64)
    requires WellKept(c.credentials) && asset in f.vaults && ShareMintAddress(asset) in f.ledgers
    ensures var shares := f.ledgers[ShareMintAddress(asset)];
      TransferSharesStep(f, c, sender, asset, source, destination, amount).Ok? <==>
        sender.Key? && !f.vaults[asset].paused && amount > 0 &&
        shares.Transfer(source, destination, sender, amount).Ok? &&
        InForce(c.credentials, sender, c.now) && InForce(c.credentials, shares.accounts[destination].owner, c.now)
  {}

  /** Shares change hands exactly when the vault is not paused, the signer holds them, and both the
      signer and whoever owns the destination have a credential in force. */
  lemma TransferSharesExactly(f: Factory, c: Context, sender: Pubkey, asset: Pubkey, source: Pubkey,
      destination: Pubkey, amount: u64)
    requires Inv(f) && WellKept(c.credentials)
    ensures var shares := LedgerOf(f, ShareMintAddress(asset));
      TransferSharesStep(f, c, sender, asset, source, destination, amount).Ok? <==>
        sender.Key? && asset in f.vaults && !f.vaults[asset].paused && amount > 0 &&
        Holds(shares, sender, source, amount) && destination in shares.accounts &&
        InForce(c.credentials, sender, c.now) && InForce(c.credentials, shares.accounts[destination].owner, c.now)
  {
    assert Sound(f, asset);
    if asset in f.vaults {
      TransferSharesSteps(f, c, sender, asset, source, destination, amount);
      TransferAccepted(f.ledgers[ShareMintAddress(asset)], source, destination, sender, amount);
    }
  }

  /** And then only shares move: no vault record, no other ledger, no supply. */
  lemma TransferSharesMovesOnlyShares(f: Factory, c: Context, sender: Pubkey, asset: Pubkey, source: Pubkey,
      destination: Pubkey, amount: u64)
    requires TransferSharesStep(f, c, sender, asset, source, destination, amount).Ok?
    ensures var g, share := TransferSharesStep(f, c, sender, asset, source, destination, amount).value,
      ShareMintAddress(asset);
      && Moved(LedgerOf(f, share), LedgerOf(g, share), source, destination, amount)
      && g == f.(ledgers := f.ledgers[share := LedgerOf(g, share)])
  {
    TransferEffect(LedgerOf(f, ShareMintAddress(asset)), source, destination, sender, amount);
  }
}
