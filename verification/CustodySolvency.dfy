/** Exactly when a custody vault can pay everybody, whatever happened to its price. */
module CustodySolvency {
  import opened Results
  import opened FixedPoint
  import opened TokenLedger
  import opened CustodySpec
  import opened CustodyRefinement
  import opened CustodyExchange
  import opened CustodyBankRun
  import opened CustodyTheorems
  import opened HolderValue

  /** Holders' whole accounts, floored one by one, are worth no more than the vault holds, and each payout
      fits 64 bits. */
  ghost predicate Solvent(f: Factory, k: Pubkey)
    requires k in f.vaults
  {
    && PayoutsFit(Shares(f, k).accounts, f.vaults[k].navPriceBps)
    && Value(Shares(f, k).accounts, f.vaults[k].navPriceBps) <= Custody(f, k)
  }

  predicate On(k: Pubkey, cs: seq<Claim>) {
    forall c <- cs :: c.asset == k
  }

  /** A claim on a solvent vault is paid and leaves it solvent. */
  lemma SolventClaim(f: Factory, c: Claim)
    requires Inv(f) && WellFormed(f, c) && c.amount <= Shares(f, c.asset).Balance(c.account) && Solvent(f, c.asset)
    ensures Pay(f, c).Ok? && c.asset in Pay(f, c).value.vaults && Solvent(Pay(f, c).value, c.asset)
  {
    var k, nav := c.asset, f.vaults[c.asset].navPriceBps;
    var accounts := Shares(f, k).accounts;
    WorthWithinValue(accounts, nav, c.account);
    ProductMonotone(c.amount, accounts[c.account].amount, nav);
    Product(c.amount, nav);
    DivisionMonotone(c.amount * nav, accounts[c.account].amount * nav, NAV_BPS_DENOMINATOR);
    RedeemExactly(f, c.holder, k, c.account, c.destination, c.amount);
    RedeemPays(f, c.holder, k, c.account, c.destination, c.amount);
    var g := Pay(f, c).value;
    BurnLowersValue(Shares(f, k), Shares(g, k), nav, c.account, c.amount);
    BurnKeepsFit(Shares(f, k), Shares(g, k), nav, c.account, c.amount);
  }

  lemma {:induction false} SolventPaysAll(f: Factory, k: Pubkey, cs: seq<Claim>)
    requires Inv(f) && k in f.vaults && Solvent(f, k) && WithinBalances(f, cs) && On(k, cs)
    ensures AllPaid(f, cs)
    decreases cs
  {
    if cs != [] {
      var c := cs[0];
      assert WellFormed(f, c) && Demanded(cs, k, c.account) <= Shares(f, k).Balance(c.account);
      SolventClaim(f, c);
      ClaimKeepsInv(f, c);
      RemainingWithinBalances(f, cs);
      SolventPaysAll(Pay(f, c).value, k, cs[1..]);
    }
  }

  // ---------------------------------------------------------------- everybody leaves

  /** Claims on `k` for the whole of every account that an ordinary key owns, paid to `d`. */
  ghost function Everybody(accounts: map<Pubkey, TokenAccount>, k: Pubkey, d: Pubkey): seq<Claim>
    decreases |accounts|
  {
    if accounts == map[] then [] else
    var account := Pick(accounts);
    RemovalShrinks(accounts, account);
    var a, rest := accounts[account], Everybody(accounts - {account}, k, d);
    if a.owner.Key? && a.amount > 0 then [Claim(k, a.owner, account, d, a.amount)] + rest else rest
  }

  lemma {:induction false} EverybodyClaims(accounts: map<Pubkey, TokenAccount>, k: Pubkey, d: Pubkey, c: Claim)
    requires c in Everybody(accounts, k, d)
    ensures c.asset == k && c.destination == d && c.amount > 0 && c.holder.Key?
    ensures c.account in accounts && accounts[c.account] == TokenAccount(c.holder, c.amount)
    decreases |accounts|
  {
    var account := Pick(accounts);
    RemovalShrinks(accounts, account);
    if c in Everybody(accounts - {account}, k, d) { EverybodyClaims(accounts - {account}, k, d, c); }
  }

  lemma {:induction false} EverybodyDemands(accounts: map<Pubkey, TokenAccount>, k: Pubkey, d: Pubkey, asset: Pubkey,
      account: Pubkey)
    ensures Demanded(Everybody(accounts, k, d), asset, account) ==
      if asset == k && account in accounts && accounts[account].owner.Key? then accounts[account].amount else 0
    decreases |accounts|
  {
    if accounts != map[] {
      var first := Pick(accounts);
      RemovalShrinks(accounts, first);
      EverybodyDemands(accounts - {first}, k, d, asset, account);
    }
  }

  /** Tokens that `cs` are worth at `nav`. */
  function Payouts(cs: seq<Claim>, nav: nat): nat {
    if cs == [] then 0 else AssetsFor(cs[0].amount, nav) + Payouts(cs[1..], nav)
  }

  lemma {:induction false} EverybodyPayouts(accounts: map<Pubkey, TokenAccount>, k: Pubkey, d: Pubkey, nav: nat)
    ensures Payouts(Everybody(accounts, k, d), nav) == Value(accounts, nav)
    decreases |accounts|
  {
    if accounts != map[] {
      var first := Pick(accounts);
      RemovalShrinks(accounts, first);
      EverybodyPayouts(accounts - {first}, k, d, nav);
      assert AssetsFor(0, nav) == 0;
    }
  }

  lemma EverybodyWithinBalances(f: Factory, k: Pubkey, d: Pubkey)
    requires Inv(f) && k in f.vaults && d in LedgerOf(f, k).accounts
    ensures var cs := Everybody(Shares(f, k).accounts, k, d); WithinBalances(f, cs) && On(k, cs)
  {
    var accounts := Shares(f, k).accounts;
    var cs := Everybody(accounts, k, d);
    forall c <- cs
      ensures WellFormed(f, c) && c.asset == k
    {
      EverybodyClaims(accounts, k, d, c);
    }
    forall asset: Pubkey, account: Pubkey
      ensures Demanded(cs, asset, account) <= Shares(f, asset).Balance(account)
    {
      EverybodyDemands(accounts, k, d, asset, account);
    }
  }

  /** Claims that are all paid, to somebody else, never exceed what the vault held. */
  lemma {:induction false} PaidWithinCustody(f: Factory, k: Pubkey, d: Pubkey, cs: seq<Claim>)
    requires Inv(f) && k in f.vaults && d != AssetTokenAddress(k) && AllPaid(f, cs)
    requires forall c <- cs :: c.asset == k && c.destination == d
    ensures Payouts(cs, f.vaults[k].navPriceBps) <= Custody(f, k)
    decreases cs
  {
    if cs != [] {
      var c := cs[0];
      assert c.asset == k && c.destination == d;
      RedeemPays(f, c.holder, k, c.account, d, c.amount);
      ClaimKeepsInv(f, c);
      PaidWithinCustody(Pay(f, c).value, k, d, cs[1..]);
    }
  }

  lemma OversizedClaimFails(f: Factory, k: Pubkey, d: Pubkey, account: Pubkey)
    requires Inv(f) && k in f.vaults && d in LedgerOf(f, k).accounts
    requires account in Shares(f, k).accounts && Shares(f, k).accounts[account].owner.Key?
    requires Shares(f, k).accounts[account].amount * f.vaults[k].navPriceBps > U64_MAX
    ensures var a := Shares(f, k).accounts[account];
      var cs := [Claim(k, a.owner, account, d, a.amount)];
      WithinBalances(f, cs) && On(k, cs) && !AllPaid(f, cs)
  {
    var a := Shares(f, k).accounts[account];
    var cs := [Claim(k, a.owner, account, d, a.amount)];
    RedeemExactly(f, a.owner, k, account, d, a.amount);
    assert cs[1..] == [];
    assert WellFormed(f, cs[0]);
  }

  /** In every reachable factory, and after whatever price changes, all well-formed claims on a vault within
      the holders' balances are paid in every order if and only if the vault is solvent. The condition has
      the vault pay to an account that is not its own, of which `d` is one. */
  lemma SolventExactly(f: Factory, k: Pubkey, d: Pubkey)
    requires Inv(f) && k in f.vaults && d in LedgerOf(f, k).accounts && d != AssetTokenAddress(k)
    ensures (forall cs: seq<Claim> | On(k, cs) && WithinBalances(f, cs) :: AllPaid(f, cs)) <==> Solvent(f, k)
  {
    var nav, accounts := f.vaults[k].navPriceBps, Shares(f, k).accounts;
    if Solvent(f, k) {
      forall cs: seq<Claim> | On(k, cs) && WithinBalances(f, cs)
        ensures AllPaid(f, cs)
      {
        SolventPaysAll(f, k, cs);
      }
    } else if account :| account in accounts &&
                         accounts[account].owner.Key? && accounts[account].amount * nav > U64_MAX {
      OversizedClaimFails(f, k, d, account);
    } else {
      EverybodyWithinBalances(f, k, d);
      EverybodyPayouts(accounts, k, d, nav);
      var cs := Everybody(accounts, k, d);
      if AllPaid(f, cs) {
        forall c <- cs
          ensures c.destination == d
        {
          EverybodyClaims(accounts, k, d, c);
        }
        PaidWithinCustody(f, k, d, cs);
      }
    }
  }

  /** A vault whose price never rose is one such case: covered, it is solvent. */
  lemma ReadyIsSolvent(f: Factory, k: Pubkey)
    requires Inv(f) && k in f.vaults && Ready(f, k)
    ensures Solvent(f, k)
  {
    assert Sound(f, k);
    var nav, l := f.vaults[k].navPriceBps, Shares(f, k);
    LedgerValue(l, nav);
    ProductMonotone(l.supply, f.vaults[k].totalSupply, nav);
    Product(l.supply, nav);
    assert AssetsFor(l.supply, nav) * NAV_BPS_DENOMINATOR <= l.supply * nav;
  }
}
