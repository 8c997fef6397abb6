/** What the holders of a share ledger could redeem, account by account, at a price. */
module HolderValue {
  import opened FixedPoint
  import opened TokenLedger
  import opened Conversions

  /** What one account pays out when it is redeemed whole; only ordinary keys can sign for one. */
  function Worth(a: TokenAccount, nav: nat): nat {
    if a.owner.Key? then AssetsFor(a.amount, nav) else 0
  }

  /** Sum of the payouts of all accounts. */
  ghost function Value(accounts: map<Pubkey, TokenAccount>, nav: nat): nat
    decreases |accounts|
  {
    if accounts == map[] then 0 else
    var k := Pick(accounts);
    RemovalShrinks(accounts, k);
    Worth(accounts[k], nav) + Value(accounts - {k}, nav)
  }

  lemma {:induction false} ValueWithout(accounts: map<Pubkey, TokenAccount>, nav: nat, k: Pubkey)
    requires k in accounts
    ensures Value(accounts, nav) == Worth(accounts[k], nav) + Value(accounts - {k}, nav)
    decreases |accounts|
  {
    var first := Pick(accounts);
    if first != k {
      RemovalShrinks(accounts, first);
      RemovalShrinks(accounts, k);
      ValueWithout(accounts - {first}, nav, k);
      ValueWithout(accounts - {k}, nav, first);
      assert accounts - {first} - {k} == accounts - {k} - {first};
    }
  }

  lemma ValueUpdate(accounts: map<Pubkey, TokenAccount>, nav: nat, k: Pubkey, a: TokenAccount)
    requires k in accounts
    ensures Value(accounts[k := a], nav) == Value(accounts, nav) - Worth(accounts[k], nav) + Worth(a, nav)
  {
    ValueWithout(accounts, nav, k);
    ValueWithout(accounts[k := a], nav, k);
    assert accounts[k := a] - {k} == accounts - {k};
  }

  /** No single account is worth more than all. */
  lemma WorthWithinValue(accounts: map<Pubkey, TokenAccount>, nav: nat, k: Pubkey)
    requires k in accounts
    ensures Worth(accounts[k], nav) <= Value(accounts, nav)
  {
    ValueWithout(accounts, nav, k);
  }

  /** Redeeming part of an account takes at least its payout off the value, and all of it exactly that. */
  lemma BurnLowersValue(before: Ledger, after: Ledger, nav: nat, k: Pubkey, shares: u64)
    requires k in before.accounts && before.accounts[k].owner.Key? && Burned(before, after, k, shares) &&
      shares <= before.Balance(k)
    ensures AssetsFor(shares, nav) <= Worth(before.accounts[k], nav)
    ensures Value(after.accounts, nav) + AssetsFor(shares, nav) <= Value(before.accounts, nav)
    ensures shares == before.Balance(k) ==>
      Value(after.accounts, nav) + AssetsFor(shares, nav) == Value(before.accounts, nav)
  {
    var rest := before.Balance(k) - shares;
    assert after.accounts == before.accounts[k := before.accounts[k].(amount := rest)];
    ValueUpdate(before.accounts, nav, k, before.accounts[k].(amount := rest));
    PartsPay(shares, rest, nav);
  }

  lemma PartsPay(x: nat, y: nat, nav: nat)
    ensures AssetsFor(x, nav) + AssetsFor(y, nav) <= AssetsFor(x + y, nav)
    ensures AssetsFor(0, nav) == 0
  {
    Product(x, nav);
    Product(y, nav);
    assert (x + y) * nav == x * nav + y * nav;
    SplitOnce(x * nav, y * nav, NAV_BPS_DENOMINATOR);
  }

  /** Every holder's whole payout can be computed in 64 bits. */
  predicate PayoutsFit(accounts: map<Pubkey, TokenAccount>, nav: nat) {
    forall k <- accounts :: accounts[k].owner.Key? ==> accounts[k].amount * nav <= U64_MAX
  }

  lemma BurnKeepsFit(before: Ledger, after: Ledger, nav: nat, k: Pubkey, shares: u64)
    requires k in before.accounts && Burned(before, after, k, shares) && shares <= before.Balance(k)
    requires PayoutsFit(before.accounts, nav)
    ensures PayoutsFit(after.accounts, nav)
    ensures before.accounts[k].owner.Key? ==> shares * nav <= U64_MAX
  {
    ProductMonotone(shares, before.Balance(k), nav);
    ProductMonotone(before.Balance(k) - shares, before.Balance(k), nav);
  }

  lemma {:induction false} ValueWithinTotal(accounts: map<Pubkey, TokenAccount>, nav: nat)
    ensures Value(accounts, nav) <= AssetsFor(Total(accounts), nav)
    decreases |accounts|
  {
    if accounts != map[] {
      var k := Pick(accounts);
      RemovalShrinks(accounts, k);
      ValueWithinTotal(accounts - {k}, nav);
      PartsPay(accounts[k].amount, Total(accounts - {k}), nav);
    }
  }

  /** All accounts of a ledger are worth at most what its supply is worth as a whole, and fit if that does. */
  lemma LedgerValue(l: Ledger, nav: nat)
    requires l.Valid()
    ensures Value(l.accounts, nav) <= AssetsFor(l.supply, nav)
    ensures l.supply * nav <= U64_MAX ==> PayoutsFit(l.accounts, nav)
  {
    ValueWithinTotal(l.accounts, nav);
    forall k <- l.accounts
      ensures l.accounts[k].amount * nav <= l.supply * nav
    {
      BalanceWithinSupply(l, k);
      ProductMonotone(l.accounts[k].amount, l.supply, nav);
    }
  }
}
