/** What every deposit demands of the ledgers and of 64-bit arithmetic. */
module DepositTerms {
  import opened Results
  import opened FixedPoint
  import opened TokenLedger

  /** A deposit of `amount` that mints `shares` stays within 64 bits and mints something. */
  predicate RoomFor(amount: int, shares: int, totalSupply: int) {
    shares > 0 && amount * NAV_BPS_DENOMINATOR <= U64_MAX && totalSupply + shares <= U64_MAX
  }

  /** The depositor's account is its own and holds the amount, and there is an account for the
      shares. */
  predicate TokensReady(assets: Ledger, shares: Ledger, depositor: Pubkey, source: Pubkey, destination: Pubkey,
      amount: u64) {
    assets.Owns(depositor, source) && amount <= assets.Balance(source) && destination in shares.accounts
  }

  /** In a valid ledger a depositor's transfer into the vault's account fails only for missing tokens,
      and what the depositor holds always fits beside the deposits recorded before. */
  lemma DepositFits(assets: Ledger, depositor: Pubkey, source: Pubkey, vaultAccount: Pubkey, amount: u64,
      totalDeposits: u64)
    requires assets.Valid() && vaultAccount in assets.accounts && !assets.Owns(depositor, vaultAccount)
    requires totalDeposits <= assets.Balance(vaultAccount)
    ensures assets.Transfer(source, vaultAccount, depositor, amount).Ok? <==>
      assets.Owns(depositor, source) && amount <= assets.Balance(source)
    ensures assets.Owns(depositor, source) && amount <= assets.Balance(source) ==> totalDeposits + amount <= U64_MAX
  {
    TransferAccepted(assets, source, vaultAccount, depositor, amount);
    if assets.Owns(depositor, source) { TwoBalancesWithinSupply(assets, source, vaultAccount); }
  }

  /** Minting within the recorded total fails only for a missing account. */
  lemma MintFits(shares: Ledger, destination: Pubkey, minted: u64, totalSupply: u64)
    requires shares.Valid() && shares.supply <= totalSupply
    ensures totalSupply + minted <= U64_MAX ==>
      (shares.MintTo(destination, minted).Ok? <==> destination in shares.accounts)
    ensures shares.MintTo(destination, minted).Ok? ==> destination in shares.accounts
  {
    MintAccepted(shares, destination, minted);
  }

  lemma ConversionAccepts(amount: u64, nav: u64)
    requires nav > 0
    ensures CheckedShares(amount, nav).Ok? <==> amount * NAV_BPS_DENOMINATOR <= U64_MAX
    ensures CheckedShares(amount, nav).Ok? ==> CheckedShares(amount, nav).value == SharesFor(amount, nav)
  {
    CheckedSharesExact(amount, nav);
  }

  /** Every step of an exchange goes through: transfer, conversion, minting and both totals. */
  predicate Exchangeable(assets: Ledger, shares: Ledger, depositor: Pubkey, source: Pubkey, vaultAccount: Pubkey,
      destination: Pubkey, amount: u64, converted: Result<u64>, totalDeposits: u64, totalSupply: u64) {
    && assets.Transfer(source, vaultAccount, depositor, amount).Ok?
    && converted.Ok? && converted.value > 0
    && shares.MintTo(destination, converted.value).Ok?
    && totalDeposits + amount <= U64_MAX && totalSupply + converted.value <= U64_MAX
  }

  lemma StepsTogether(assets: Ledger, shares: Ledger, depositor: Pubkey, source: Pubkey, vaultAccount: Pubkey,
      destination: Pubkey, amount: u64, converted: Result<u64>, minted: nat, totalDeposits: u64, totalSupply: u64)
    requires converted.Ok? <==> amount * NAV_BPS_DENOMINATOR <= U64_MAX
    requires converted.Ok? ==> converted.value == minted
    requires assets.Transfer(source, vaultAccount, depositor, amount).Ok? <==>
      assets.Owns(depositor, source) && amount <= assets.Balance(source)
    requires assets.Owns(depositor, source) && amount <= assets.Balance(source) ==> totalDeposits + amount <= U64_MAX
    requires converted.Ok? && totalSupply + minted <= U64_MAX ==>
      (shares.MintTo(destination, converted.value).Ok? <==> destination in shares.accounts)
    requires converted.Ok? && shares.MintTo(destination, converted.value).Ok? ==> destination in shares.accounts
    ensures Exchangeable(assets, shares, depositor, source, vaultAccount, destination, amount, converted,
        totalDeposits, totalSupply) <==>
      TokensReady(assets, shares, depositor, source, destination, amount) &&
      RoomFor(amount, minted, totalSupply)
  {}

  lemma StepsExactly(assets: Ledger, shares: Ledger, depositor: Pubkey, source: Pubkey, vaultAccount: Pubkey,
      destination: Pubkey, amount: u64, converted: Result<u64>, minted: nat, totalDeposits: u64, totalSupply: u64)
    requires converted.Ok? <==> amount * NAV_BPS_DENOMINATOR <= U64_MAX
    requires converted.Ok? ==> converted.value == minted
    requires assets.Valid() && vaultAccount in assets.accounts && !assets.Owns(depositor, vaultAccount)
    requires totalDeposits <= assets.Balance(vaultAccount) && shares.Valid() && shares.supply <= totalSupply
    ensures Exchangeable(assets, shares, depositor, source, vaultAccount, destination, amount, converted,
        totalDeposits, totalSupply) <==>
      TokensReady(assets, shares, depositor, source, destination, amount) &&
      RoomFor(amount, minted, totalSupply)
  {
    DepositFits(assets, depositor, source, vaultAccount, amount, totalDeposits);
    if converted.Ok? { MintFits(shares, destination, converted.value, totalSupply); }
    StepsTogether(assets, shares, depositor, source, vaultAccount, destination, amount, converted, minted,
      totalDeposits, totalSupply);
  }

  lemma ExchangeableExactly(assets: Ledger, shares: Ledger, depositor: Pubkey, source: Pubkey, vaultAccount: Pubkey,
      destination: Pubkey, amount: u64, nav: u64, totalDeposits: u64, totalSupply: u64)
    requires assets.Valid() && vaultAccount in assets.accounts && !assets.Owns(depositor, vaultAccount) && nav > 0
    requires totalDeposits <= assets.Balance(vaultAccount) && shares.Valid() && shares.supply <= totalSupply
    ensures Exchangeable(assets, shares, depositor, source, vaultAccount, destination, amount,
        CheckedShares(amount, nav), totalDeposits, totalSupply) <==>
      TokensReady(assets, shares, depositor, source, destination, amount) &&
      RoomFor(amount, SharesFor(amount, nav), totalSupply)
  {
    ConversionAccepts(amount, nav);
    StepsExactly(assets, shares, depositor, source, vaultAccount, destination, amount, CheckedShares(amount, nav),
      SharesFor(amount, nav), totalDeposits, totalSupply);
  }
}
