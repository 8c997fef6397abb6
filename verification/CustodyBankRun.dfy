/** If a vault's price never rose, its holders can leave whatever else happens to the factory. */
module CustodyBankRun {
  import opened Results
  import opened FixedPoint
  import opened TokenLedger
  import opened CustodySpec
  import opened CustodyRefinement
  import NavBook

  /** A holder's demand for `amount` shares of `asset` out of `account`, paid to `destination`. */
  datatype Claim = Claim(asset: Pubkey, holder: Pubkey, account: Pubkey, destination: Pubkey, amount: u64)

  function Pay(f: Factory, c: Claim): Result<Factory> {
    RedeemStep(f, c.holder, c.asset, c.account, c.destination, c.amount)
  }

  function Shares(f: Factory, asset: Pubkey): Ledger {
    LedgerOf(f, ShareMintAddress(asset))
  }

  predicate WellFormed(f: Factory, c: Claim) {
    c.holder.Key? && c.amount > 0 && c.asset in f.vaults &&
    Shares(f, c.asset).Owns(c.holder, c.account) && c.destination in LedgerOf(f, c.asset).accounts
  }

  function Demanded(cs: seq<Claim>, asset: Pubkey, account: Pubkey): nat {
    if cs == [] then 0 else
    (if cs[0].asset == asset && cs[0].account == account then cs[0].amount else 0) + Demanded(cs[1..], asset, account)
  }

  ghost predicate WithinBalances(f: Factory, cs: seq<Claim>) {
    && (forall c <- cs :: WellFormed(f, c))
    && (forall asset: Pubkey, account: Pubkey :: Demanded(cs, asset, account) <= Shares(f, asset).Balance(account))
  }

  predicate AllPaid(f: Factory, cs: seq<Claim>)
    decreases cs
  {
    cs == [] || (Pay(f, cs[0]).Ok? && AllPaid(Pay(f, cs[0]).value, cs[1..]))
  }

  /** The vault of `k` is covered and its share value fits 64 bits. */
  ghost predicate Ready(f: Factory, k: Pubkey) {
    NavBook.Covered(BookOf(f, k)) && NavBook.ShareValue(BookOf(f, k)) <= U64_MAX
  }

  lemma ClaimSucceeds(f: Factory, c: Claim)
    requires Inv(f) && Ready(f, c.asset) && WellFormed(f, c)
    requires c.amount <= Shares(f, c.asset).Balance(c.account)
    ensures Pay(f, c).Ok?
  {
    assert Sound(f, c.asset);
    BalanceWithinSupply(Shares(f, c.asset), c.account);
    NavBook.CoveredRedemption(BookOf(f, c.asset), c.amount, false);
    BurnAccepted(Shares(f, c.asset), c.account, c.holder, c.amount);
    TransferAccepted(f.ledgers[c.asset], AssetTokenAddress(c.asset), c.destination, AssetVaultAddress(c.asset),
      CheckedAssets(c.amount, f.vaults[c.asset].navPriceBps).value);
  }

  /** Paying a claim keeps every vault ready, its own and the others. */
  lemma ClaimKeepsReady(f: Factory, c: Claim, k: Pubkey)
    requires Inv(f) && Pay(f, c).Ok? && Ready(f, k)
    ensures Ready(Pay(f, c).value, k)
  {
    assert Sound(f, c.asset) && Sound(f, k);
    if k == c.asset {
      RedeemMovesOwn(f, c.holder, c.asset, c.account, c.destination, c.amount);
      NavBook.CoveredRedemption(BookOf(f, k), c.amount, c.destination == AssetTokenAddress(k));
    } else {
      RedeemMovesOther(f, c.holder, c.asset, c.account, c.destination, c.amount, k);
    }
  }

  lemma ClaimKeepsInv(f: Factory, c: Claim)
    requires Inv(f) && Pay(f, c).Ok?
    ensures Inv(Pay(f, c).value)
  {
    var e := Program(Context(map[], 0), Redeem(c.holder, c.asset, c.account, c.destination, c.amount));
    assert Next(f, e) == Pay(f, c).value;
    NextInv(f, e);
  }

  /** The two ledgers a paid claim replaces. */
  lemma PayLedgers(f: Factory, c: Claim) returns (burned: Ledger, assets: Ledger)
    requires Inv(f) && Pay(f, c).Ok?
    ensures c.asset in f.ledgers && ShareMintAddress(c.asset) in f.ledgers
    ensures Pay(f, c).value.ledgers == f.ledgers[ShareMintAddress(c.asset) := burned][c.asset := assets]
    ensures OnlyTouched(Shares(f, c.asset), burned, {c.account})
    ensures burned.Balance(c.account) == Shares(f, c.asset).Balance(c.account) - c.amount
    ensures OnlyTouched(f.ledgers[c.asset], assets, {AssetTokenAddress(c.asset), c.destination})
    ensures c.destination != AssetTokenAddress(c.asset) ==>
      assets.Balance(c.destination) >= f.ledgers[c.asset].Balance(c.destination)
  {
    assert Sound(f, c.asset);
    var payout: u64 := CheckedAssets(c.amount, f.vaults[c.asset].navPriceBps).value;
    burned := Shares(f, c.asset).Burn(c.account, c.holder, c.amount).value;
    assets := f.ledgers[c.asset].Transfer(AssetTokenAddress(c.asset), c.destination, AssetVaultAddress(c.asset),
      payout).value;
    BurnEffect(Shares(f, c.asset), c.account, c.holder, c.amount);
    TransferEffect(f.ledgers[c.asset], AssetTokenAddress(c.asset), c.destination, AssetVaultAddress(c.asset), payout);
  }

  /** Between `l` and `t` no account appears, disappears or changes hands, and only `drawn` may shrink. */
  predicate OnlyDrawn(l: Ledger, t: Ledger, account: Pubkey, drawn: bool) {
    && t.accounts.Keys == l.accounts.Keys
    && (account in l.accounts ==> t.accounts[account].owner == l.accounts[account].owner)
    && (!drawn ==> t.Balance(account) >= l.Balance(account))
  }

  lemma TwoLedgersDrawn(f: Factory, g: Factory, c: Claim, burned: Ledger, assets: Ledger, mint: Pubkey, account: Pubkey)
    requires c.asset in f.ledgers && ShareMintAddress(c.asset) in f.ledgers
    requires g.ledgers == f.ledgers[ShareMintAddress(c.asset) := burned][c.asset := assets]
    requires OnlyTouched(Shares(f, c.asset), burned, {c.account})
    requires OnlyTouched(f.ledgers[c.asset], assets, {AssetTokenAddress(c.asset), c.destination})
    requires c.destination != AssetTokenAddress(c.asset) ==>
      assets.Balance(c.destination) >= f.ledgers[c.asset].Balance(c.destination)
    ensures OnlyDrawn(LedgerOf(f, mint), LedgerOf(g, mint), account,
      (mint == ShareMintAddress(c.asset) && account == c.account) ||
        (mint == c.asset && account == AssetTokenAddress(c.asset)))
    ensures Shares(g, c.asset) == burned
  {
    assert c.asset != ShareMintAddress(c.asset);
  }

  /** A claim draws shares from its own account and tokens from its own vault, and on nothing else. */
  lemma ClaimDrawsOn(f: Factory, c: Claim, mint: Pubkey, account: Pubkey)
    requires Inv(f) && Pay(f, c).Ok?
    ensures OnlyDrawn(LedgerOf(f, mint), LedgerOf(Pay(f, c).value, mint), account,
      (mint == ShareMintAddress(c.asset) && account == c.account) ||
        (mint == c.asset && account == AssetTokenAddress(c.asset)))
    ensures Shares(Pay(f, c).value, c.asset).Balance(c.account) == Shares(f, c.asset).Balance(c.account) - c.amount
  {
    var burned, assets := PayLedgers(f, c);
    TwoLedgersDrawn(f, Pay(f, c).value, c, burned, assets, mint, account);
  }

  /** No holder's claim draws on a vault's own account. */
  lemma {:induction false} VaultAccountsNotDemanded(f: Factory, cs: seq<Claim>, asset: Pubkey, k: Pubkey)
    requires Sound(f, k) && k in f.vaults && ShareMintAddress(asset) == k
    requires forall c <- cs :: WellFormed(f, c)
    ensures Demanded(cs, asset, AssetTokenAddress(k)) == 0
  {
    if cs != [] {
      assert WellFormed(f, cs[0]);
      VaultAccountsNotDemanded(f, cs[1..], asset, k);
    }
  }

  lemma RemainingWellFormed(f: Factory, c: Claim, d: Claim)
    requires Inv(f) && Pay(f, c).Ok? && WellFormed(f, d)
    ensures WellFormed(Pay(f, c).value, d)
  {
    ClaimDrawsOn(f, c, ShareMintAddress(d.asset), d.account);
    ClaimDrawsOn(f, c, d.asset, d.destination);
  }

  lemma RemainingWithinBalances(f: Factory, cs: seq<Claim>)
    requires Inv(f) && cs != [] && WithinBalances(f, cs) && Pay(f, cs[0]).Ok?
    ensures WithinBalances(Pay(f, cs[0]).value, cs[1..])
  {
    var c, g := cs[0], Pay(f, cs[0]).value;
    forall d <- cs[1..]
      ensures WellFormed(g, d)
    {
      assert d in cs;
      assert WellFormed(f, d);
      RemainingWellFormed(f, c, d);
    }
    forall asset: Pubkey, account: Pubkey
      ensures Demanded(cs[1..], asset, account) <= Shares(g, asset).Balance(account)
    {
      assert Demanded(cs, asset, account) <= Shares(f, asset).Balance(account);
      ClaimDrawsOn(f, c, ShareMintAddress(asset), account);
      if ShareMintAddress(asset) == c.asset && account == AssetTokenAddress(c.asset) {
        assert Sound(f, c.asset);
        VaultAccountsNotDemanded(f, cs[1..], asset, c.asset);
      }
    }
  }

  lemma {:induction false} ReadyPaysAll(f: Factory, cs: seq<Claim>)
    requires Inv(f) && WithinBalances(f, cs) && forall c <- cs :: Ready(f, c.asset)
    ensures AllPaid(f, cs)
    decreases cs
  {
    if cs != [] {
      var c := cs[0];
      assert WellFormed(f, c) && Ready(f, c.asset);
      assert Demanded(cs, c.asset, c.account) <= Shares(f, c.asset).Balance(c.account);
      ClaimSucceeds(f, c);
      ClaimKeepsInv(f, c);
      RemainingWithinBalances(f, cs);
      var g := Pay(f, c).value;
      forall d <- cs[1..]
        ensures Ready(g, d.asset)
      {
        assert d in cs;
        ClaimKeepsReady(f, c, d.asset);
      }
      ReadyPaysAll(g, cs[1..]);
    }
  }

  /** No accepted update of the run raised the price of `k`. */
  predicate PriceNeverRaised(f: Factory, es: seq<Event>, k: Pubkey)
    decreases es
  {
    es == [] ||
    ((es[0].Program? && es[0].instruction.SetNav? && es[0].instruction.asset == k && Attempt(f, es[0]).Ok? ==>
        k in f.vaults && es[0].instruction.nav <= f.vaults[k].navPriceBps) &&
          PriceNeverRaised(Next(f, es[0]), es[1..], k))
  }

  lemma {:induction false} PriceNeverRaisedOnBook(f: Factory, es: seq<Event>, k: Pubkey)
    requires Inv(f) && PriceNeverRaised(f, es, k)
    ensures NavBook.AllEnabled(BookOf(f, k), EntriesOf(f, es, k))
    ensures NavBook.NeverRaised(BookOf(f, k), EntriesOf(f, es, k))
    decreases es
  {
    RunRefines(f, es, k);
    if es != [] {
      NextInv(f, es[0]);
      NextMoves(f, es[0], k);
      PriceNeverRaisedOnBook(Next(f, es[0]), es[1..], k);
      assert EntriesOf(f, es, k)[1..] == EntriesOf(Next(f, es[0]), es[1..], k);
    }
  }

  predicate ShareValueFits(v: AssetVault) {
    v.totalSupply * v.navPriceBps <= U64_MAX
  }

  lemma NeverRaisedIsReady(f: Factory, es: seq<Event>, k: Pubkey)
    requires Initial(f) && PriceNeverRaised(f, es, k) && k in Run(f, es).vaults
    requires ShareValueFits(Run(f, es).vaults[k])
    ensures Ready(Run(f, es), k)
  {
    InitialInv(f);
    RunRefines(f, es, k);
    PriceNeverRaisedOnBook(f, es, k);
    NavBook.NeverRaisedStaysCovered(BookOf(f, k), EntriesOf(f, es, k));
  }

  /** Bank run: after any run that never raised the prices of the claimed assets, and with share values
      that fit 64 bits, any claims within the holders' balances, across any vaults, are all paid in
      any order, whatever the pause flags and credentials. */
  lemma BankRun(f: Factory, es: seq<Event>, cs: seq<Claim>)
    requires Initial(f)
    requires WithinBalances(Run(f, es), cs)
    requires forall c <- cs :: PriceNeverRaised(f, es, c.asset)
    requires forall c <- cs :: c.asset in Run(f, es).vaults && ShareValueFits(Run(f, es).vaults[c.asset])
    ensures AllPaid(Run(f, es), cs)
  {
    InitialInv(f);
    RunRefines(f, es, Default);
    forall c <- cs
      ensures Ready(Run(f, es), c.asset)
    {
      NeverRaisedIsReady(f, es, c.asset);
    }
    ReadyPaysAll(Run(f, es), cs);
  }
}
