/** The yield vault's exchanges seen from the holder's side: when each is accepted, what it moves, and
    that wrapping and unwrapping undo each other. */
module OragamiExchange {
  import opened Results
  import opened FixedPoint
  import opened TokenLedger
  import opened Compliance
  import opened OragamiSpec
  import opened OragamiRefinement
  import opened DepositTerms

  /** The payout of `amount` shares fits 64 bits, is in the vault, and has somewhere to go. */
  predicate CanPay(s: State, destination: Pubkey, amount: u64) {
    && amount * s.vault.navPriceBps <= U64_MAX
    && AssetsFor(amount, s.vault.navPriceBps) <= s.usdc.Balance(VaultToken)
    && destination in s.usdc.accounts
  }

  lemma PayableExactly(s: State, destination: Pubkey, amount: u64)
    requires Inv(s)
    ensures Payable(s, amount).Ok? <==>
      amount * s.vault.navPriceBps <= U64_MAX && AssetsFor(amount, s.vault.navPriceBps) <= s.usdc.Balance(VaultToken)
    ensures Payable(s, amount).Ok? ==> Payable(s, amount).value == AssetsFor(amount, s.vault.navPriceBps)
    ensures Payable(s, amount).Ok? ==>
      (s.usdc.Transfer(VaultToken, destination, VaultState, Payable(s, amount).value).Ok? <==>
        destination in s.usdc.accounts)
  {
    CheckedAssetsExact(amount, s.vault.navPriceBps);
    if Payable(s, amount).Ok? {
      TransferAccepted(s.usdc, VaultToken, destination, VaultState, Payable(s, amount).value);
    }
  }

  /** A redemption is accepted exactly when the signer holds the shares, the vault is not paused and
      the payout can be made. */
  lemma RedeemExactly(s: State, redeemer: Pubkey, source: Pubkey, destination: Pubkey, amount: u64)
    requires Inv(s)
    ensures RedeemStep(s, redeemer, source, destination, amount).Ok? <==>
      redeemer.Key? && !s.vault.paused && Holds(s.cvault, redeemer, source, amount) && CanPay(s, destination, amount)
  {
    PayableExactly(s, destination, amount);
    BurnAccepted(s.cvault, source, redeemer, amount);
    BalanceWithinSupply(s.cvault, source);
  }

  /** It burns exactly those shares, pays exactly their value to the destination, and touches nothing
      else but the two totals. */
  lemma RedeemPays(s: State, redeemer: Pubkey, source: Pubkey, destination: Pubkey, amount: u64)
    requires Inv(s) && RedeemStep(s, redeemer, source, destination, amount).Ok?
    ensures var t, payout := RedeemStep(s, redeemer, source, destination, amount).value,
      AssetsFor(amount, s.vault.navPriceBps);
      && Burned(s.cvault, t.cvault, source, amount)
      && Moved(s.usdc, t.usdc, VaultToken, destination, payout)
      && t.vault.totalSupply == s.vault.totalSupply - amount
      && t.vault.totalDeposits == (if payout <= s.vault.totalDeposits then s.vault.totalDeposits - payout else 0)
      && t == s.(vault := s.vault.(totalDeposits := t.vault.totalDeposits, totalSupply := t.vault.totalSupply),
                 usdc := t.usdc, cvault := t.cvault)
  {
    PayableExactly(s, destination, amount);
    BurnEffect(s.cvault, source, redeemer, amount);
    TransferEffect(s.usdc, VaultToken, destination, VaultState, Payable(s, amount).value);
  }

  /** Redeeming trade tokens for USDC is accepted under the same conditions, and only while the recorded
      deposits cover the payout. */
  lemma TradedExactly(s: State, user: Pubkey, source: Pubkey, userCvault: Pubkey, destination: Pubkey, amount: u64)
    requires Inv(s)
    ensures RedeemTradeableStep(s, user, source, userCvault, destination, amount, false).Ok? <==>
      user.Key? && !s.vault.paused && Holds(s.trade, user, source, amount) && CanPay(s, destination, amount) &&
      AssetsFor(amount, s.vault.navPriceBps) <= s.vault.totalDeposits
  {
    PayableExactly(s, destination, amount);
    BurnAccepted(s.trade, source, user, amount);
    BalanceWithinSupply(s.trade, source);
  }

  /** The parts of an accepted payout for trade tokens. */
  lemma TradedShape(s: State, user: Pubkey, source: Pubkey, userCvault: Pubkey, destination: Pubkey, amount: u64)
    returns (payout: u64, trade: Ledger, usdc: Ledger)
    requires RedeemTradeableStep(s, user, source, userCvault, destination, amount, false).Ok?
    ensures Payable(s, amount) == Ok(payout) && payout <= s.vault.totalDeposits && amount <= s.vault.totalSupply
    ensures s.trade.Burn(source, user, amount) == Ok(trade)
    ensures s.usdc.Transfer(VaultToken, destination, VaultState, payout) == Ok(usdc)
    ensures RedeemTradeableStep(s, user, source, userCvault, destination, amount, false).value ==
      s.(vault := s.vault.(totalDeposits := s.vault.totalDeposits - payout,
                           totalSupply := s.vault.totalSupply - amount),
         usdc := usdc, trade := trade)
  {
    payout := Payable(s, amount).value;
    trade := s.trade.Burn(source, user, amount).value;
    usdc := s.usdc.Transfer(VaultToken, destination, VaultState, payout).value;
  }

  /** It burns exactly those tokens, pays exactly their value, and touches nothing else but the totals. */
  lemma TradedPays(s: State, user: Pubkey, source: Pubkey, userCvault: Pubkey, destination: Pubkey, amount: u64)
    requires Inv(s) && RedeemTradeableStep(s, user, source, userCvault, destination, amount, false).Ok?
    ensures var t, payout := RedeemTradeableStep(s, user, source, userCvault, destination, amount, false).value,
                             AssetsFor(amount, s.vault.navPriceBps);
      && Burned(s.trade, t.trade, source, amount)
      && Moved(s.usdc, t.usdc, VaultToken, destination, payout)
      && t.vault.totalSupply == s.vault.totalSupply - amount
      && t.vault.totalDeposits == s.vault.totalDeposits - payout
      && t == s.(vault := s.vault.(totalDeposits := t.vault.totalDeposits, totalSupply := t.vault.totalSupply),
                 usdc := t.usdc, trade := t.trade)
  {
    var payout, trade, usdc := TradedShape(s, user, source, userCvault, destination, amount);
    PayableExactly(s, destination, amount);
    BurnEffect(s.trade, source, user, amount);
    TransferEffect(s.usdc, VaultToken, destination, VaultState, payout);
  }

  /** The payer may deposit `amount` now: signer, pause flag, credential, limits and travel rule. */
  predicate Admitted(s: State, payer: Pubkey, record: Option<RecordId>, amount: u64) {
    && payer.Key? && !s.vault.paused
    && InForce(s.credentials, payer, s.now)
    && s.vault.minDeposit <= amount <= s.vault.maxDeposit
    && (record.Some? ==> record.value in s.records)
    && (amount >= TRAVEL_RULE_THRESHOLD ==> Usable(s.records, record, payer, amount))
  }

  lemma ExchangeExactly(s: State, payer: Pubkey, payerUsdc: Pubkey, payerCvault: Pubkey, amount: u64)
    requires s.usdc.Valid() && s.cvault.Valid() && s.usdc.Owns(VaultState, VaultToken) && s.vault.navPriceBps > 0 &&
      payer.Key?
    requires s.vault.totalDeposits <= s.usdc.Balance(VaultToken) && s.cvault.supply <= s.vault.totalSupply
    ensures DepositExchange(s, payer, payerUsdc, payerCvault, amount).Ok? <==>
      TokensReady(s.usdc, s.cvault, payer, payerUsdc, payerCvault, amount) &&
      RoomFor(amount, SharesFor(amount, s.vault.navPriceBps), s.vault.totalSupply)
  {
    ExchangeableExactly(s.usdc, s.cvault, payer, payerUsdc, VaultToken, payerCvault, amount, s.vault.navPriceBps,
      s.vault.totalDeposits, s.vault.totalSupply);
  }

  /** A deposit is accepted exactly when the payer is admitted, the tokens are at hand, and the shares are
      positive and fit; the recorded deposits can never be the obstacle. */
  lemma DepositExactly(s: State, payer: Pubkey, payerUsdc: Pubkey, payerCvault: Pubkey, record: Option<RecordId>,
      amount: u64)
    requires Inv(s)
    ensures DepositStep(s, payer, payerUsdc, payerCvault, record, amount).Ok? <==>
      Admitted(s, payer, record, amount) && TokensReady(s.usdc, s.cvault, payer, payerUsdc, payerCvault, amount) &&
      RoomFor(amount, SharesFor(amount, s.vault.navPriceBps), s.vault.totalSupply)
  {
    ConsumeAccepted(s.records, record, payer, amount, InvalidTravelRule);
    var gate := TravelRuleGate(s, payer, record, amount);
    if gate.Ok? && payer.Key? { ExchangeExactly(s.(records := gate.value), payer, payerUsdc, payerCvault, amount); }
  }

  lemma ExchangeMints(s: State, payer: Pubkey, payerUsdc: Pubkey, payerCvault: Pubkey, amount: u64)
    requires s.vault.navPriceBps > 0 && DepositExchange(s, payer, payerUsdc, payerCvault, amount).Ok?
    ensures var t, minted := DepositExchange(s, payer, payerUsdc, payerCvault, amount).value,
      SharesFor(amount, s.vault.navPriceBps);
      minted > 0 && t.vault.totalSupply == s.vault.totalSupply + minted &&
        MintedTo(s.cvault, t.cvault, payerCvault, minted)
  {
    ConversionAccepts(amount, s.vault.navPriceBps);
    MintEffect(s.cvault, payerCvault, CheckedShares(amount, s.vault.navPriceBps).value);
  }

  /** A deposit moves exactly the amount from the payer's account to the vault's. */
  lemma DepositPays(s: State, payer: Pubkey, payerUsdc: Pubkey, payerCvault: Pubkey, record: Option<RecordId>,
      amount: u64)
    requires Inv(s) && DepositStep(s, payer, payerUsdc, payerCvault, record, amount).Ok?
    ensures var t := DepositStep(s, payer, payerUsdc, payerCvault, record, amount).value;
      && payerUsdc != VaultToken && Moved(s.usdc, t.usdc, payerUsdc, VaultToken, amount)
      && t.vault.totalDeposits == s.vault.totalDeposits + amount
      && t == s.(vault := t.vault, usdc := t.usdc, cvault := t.cvault, records := t.records)
  {
    TransferEffect(s.usdc, payerUsdc, VaultToken, payer, amount);
  }

  /** Conversion is accepted exactly when the signer holds the shares, has a trade account to name and
      the market is open; the trade supply can never be the obstacle. */
  lemma ConvertExactly(s: State, user: Pubkey, source: Pubkey, destination: Pubkey, amount: u64)
    requires Inv(s)
    ensures ConvertStep(s, user, source, destination, amount).Ok? <==>
      user.Key? && !s.vault.paused && s.vault.secondaryMarketEnabled &&
      Holds(s.cvault, user, source, amount) && destination in s.trade.accounts
  {
    BurnAccepted(s.cvault, source, user, amount);
    BalanceWithinSupply(s.cvault, source);
    MintAccepted(s.trade, destination, amount);
  }

  lemma BurnThenMint(l: Ledger, account: Pubkey, user: Pubkey, amount: u64)
    requires l.Burn(account, user, amount).Ok?
    ensures l.Burn(account, user, amount).value.MintTo(account, amount) == Ok(l)
  {
    var burned := l.Burn(account, user, amount).value;
    assert burned.SetAmount(account, l.Balance(account)).accounts == l.accounts;
  }

  lemma MintThenBurn(l: Ledger, account: Pubkey, user: Pubkey, amount: u64)
    requires l.MintTo(account, amount).Ok? && l.Owns(user, account)
    ensures l.MintTo(account, amount).value.Burn(account, user, amount) == Ok(l)
  {
    var minted := l.MintTo(account, amount).value;
    assert minted.SetAmount(account, l.Balance(account)).accounts == l.accounts;
  }

  /** Converting and re-wrapping at once gives back the very state one started from. */
  lemma ConvertThenRewrap(s: State, user: Pubkey, account: Pubkey, tradeAccount: Pubkey, destination: Pubkey,
      amount: u64)
    requires ConvertStep(s, user, account, tradeAccount, amount).Ok? && s.trade.Owns(user, tradeAccount)
    ensures var t := ConvertStep(s, user, account, tradeAccount, amount).value;
      RedeemTradeableStep(t, user, tradeAccount, account, destination, amount, true) == Ok(s)
  {
    BurnThenMint(s.cvault, account, user, amount);
    MintThenBurn(s.trade, tradeAccount, user, amount);
  }

  /** And re-wrapping then converting does as well, while the secondary market is open. */
  lemma RewrapThenConvert(s: State, user: Pubkey, account: Pubkey, tradeAccount: Pubkey, destination: Pubkey,
      amount: u64)
    requires RedeemTradeableStep(s, user, tradeAccount, account, destination, amount, true).Ok? &&
      s.cvault.Owns(user, account)
    ensures var t := RedeemTradeableStep(s, user, tradeAccount, account, destination, amount, true).value;
      ConvertStep(t, user, account, tradeAccount, amount) ==
        if s.vault.secondaryMarketEnabled then Ok(s) else Err(SecondaryMarketDisabled)
  {
    BurnThenMint(s.trade, tradeAccount, user, amount);
    MintThenBurn(s.cvault, account, user, amount);
  }
}
