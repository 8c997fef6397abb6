/** Exactly when the yield vault can pay everybody through both of its routes, whatever happened to its
    price. */
module OragamiSolvency {
  import opened Results
  import opened FixedPoint
  import opened TokenLedger
  import opened OragamiSpec
  import opened OragamiRefinement
  import opened OragamiExchange
  import opened OragamiBankRun
  import opened HolderValue

  /** What all holders of one kind of share could redeem, account by account. */
  ghost function Claimable(s: State, tradeable: bool): nat {
    Value(Shares(s, tradeable).accounts, s.vault.navPriceBps)
  }

  /** What the claims come out of: once trade tokens are worth anything, only the recorded deposits. */
  ghost function Available(s: State): nat {
    if Claimable(s, true) > 0 then s.vault.totalDeposits else s.usdc.Balance(VaultToken)
  }

  /** Every payout fits 64 bits, and together they do not exceed what is available. */
  ghost predicate Solvent(s: State) {
    && (forall tradeable: bool :: PayoutsFit(Shares(s, tradeable).accounts, s.vault.navPriceBps))
    && Claimable(s, false) + Claimable(s, true) <= Available(s)
  }

  function Payout(s: State, c: Claim): nat {
    AssetsFor(c.amount, s.vault.navPriceBps)
  }

  /** When a claim within its account is paid. */
  lemma ClaimExactly(s: State, c: Claim)
    requires Inv(s) && !s.vault.paused && WellFormed(s, c) && c.amount <= Shares(s, c.tradeable).Balance(c.account)
    ensures Execute(s, InstructionOf(c)).Ok? <==>
      && c.amount * s.vault.navPriceBps <= U64_MAX
      && Payout(s, c) <= s.usdc.Balance(VaultToken)
      && (c.tradeable ==> Payout(s, c) <= s.vault.totalDeposits)
  {
    if c.tradeable {
      TradedExactly(s, c.holder, c.account, c.account, c.destination, c.amount);
    } else {
      RedeemExactly(s, c.holder, c.account, c.destination, c.amount);
    }
  }

  /** What a paid claim leaves behind. */
  lemma ClaimEffect(s: State, c: Claim)
    requires Inv(s) && Execute(s, InstructionOf(c)).Ok?
    ensures var t := Execute(s, InstructionOf(c)).value;
      && Inv(t) && t.vault.paused == s.vault.paused && t.vault.navPriceBps == s.vault.navPriceBps
      && Burned(Shares(s, c.tradeable), Shares(t, c.tradeable), c.account, c.amount)
      && Shares(t, !c.tradeable) == Shares(s, !c.tradeable)
      && t.vault.totalDeposits ==
         (if Payout(s, c) <= s.vault.totalDeposits then s.vault.totalDeposits - Payout(s, c) else 0)
      && t.usdc.Balance(VaultToken) ==
         s.usdc.Balance(VaultToken) - (if c.destination == VaultToken then 0 else Payout(s, c))
  {
    NextMoves(s, Program(InstructionOf(c)));
    if c.tradeable {
      TradedExactly(s, c.holder, c.account, c.account, c.destination, c.amount);
      TradedPays(s, c.holder, c.account, c.account, c.destination, c.amount);
    } else {
      RedeemPays(s, c.holder, c.account, c.destination, c.amount);
    }
  }

  /** A claim on a solvent vault is paid and leaves it solvent. */
  lemma SolventClaim(s: State, c: Claim)
    requires Inv(s) && !s.vault.paused && WellFormed(s, c) && c.amount <= Shares(s, c.tradeable).Balance(c.account) &&
      Solvent(s)
    ensures Execute(s, InstructionOf(c)).Ok? && Solvent(Execute(s, InstructionOf(c)).value)
  {
    var nav, accounts := s.vault.navPriceBps, Shares(s, c.tradeable).accounts;
    WorthWithinValue(accounts, nav, c.account);
    PartsPay(c.amount, accounts[c.account].amount - c.amount, nav);
    ProductMonotone(c.amount, accounts[c.account].amount, nav);
    assert PayoutsFit(accounts, nav);
    ClaimExactly(s, c);
    ClaimEffect(s, c);
    var t := Execute(s, InstructionOf(c)).value;
    BurnLowersValue(Shares(s, c.tradeable), Shares(t, c.tradeable), nav, c.account, c.amount);
    BurnKeepsFit(Shares(s, c.tradeable), Shares(t, c.tradeable), nav, c.account, c.amount);
    forall tradeable: bool
      ensures PayoutsFit(Shares(t, tradeable).accounts, nav)
    {
      assert tradeable == c.tradeable || tradeable == !c.tradeable;
      assert PayoutsFit(Shares(s, tradeable).accounts, nav);
    }
  }

  lemma {:induction false} SolventPaysAll(s: State, cs: seq<Claim>)
    requires Inv(s) && !s.vault.paused && Solvent(s) && WithinBalances(s, cs)
    ensures AllPaid(s, cs)
    decreases cs
  {
    if cs != [] {
      var c := cs[0];
      assert WellFormed(s, c) && Demanded(cs, c.tradeable, c.account) <= Shares(s, c.tradeable).Balance(c.account);
      SolventClaim(s, c);
      ClaimEffect(s, c);
      RemainingWithinBalances(s, cs);
      SolventPaysAll(Execute(s, InstructionOf(c)).value, cs[1..]);
    }
  }

  // ---------------------------------------------------------------- everybody leaves

  /** Claims for the whole of every account of one kind that an ordinary key owns, paid to `d`. */
  ghost function Everybody(accounts: map<Pubkey, TokenAccount>, tradeable: bool, d: Pubkey): seq<Claim>
    decreases |accounts|
  {
    if accounts == map[] then [] else
    var account := Pick(accounts);
    RemovalShrinks(accounts, account);
    var a, rest := accounts[account], Everybody(accounts - {account}, tradeable, d);
    if a.owner.Key? then [Claim(tradeable, a.owner, account, d, a.amount)] + rest else rest
  }

  lemma {:induction false} EverybodyClaims(accounts: map<Pubkey, TokenAccount>, tradeable: bool, d: Pubkey, c: Claim)
    requires c in Everybody(accounts, tradeable, d)
    ensures c.tradeable == tradeable && c.destination == d && c.holder.Key?
    ensures c.account in accounts && accounts[c.account] == TokenAccount(c.holder, c.amount)
    decreases |accounts|
  {
    var account := Pick(accounts);
    RemovalShrinks(accounts, account);
    if c in Everybody(accounts - {account}, tradeable, d) { EverybodyClaims(accounts - {account}, tradeable, d, c); }
  }

  lemma {:induction false} EverybodyDemands(accounts: map<Pubkey, TokenAccount>, tradeable: bool, d: Pubkey, kind: bool,
      account: Pubkey)
    ensures Demanded(Everybody(accounts, tradeable, d), kind, account) ==
      if kind == tradeable && account in accounts && accounts[account].owner.Key? then accounts[account].amount else 0
    decreases |accounts|
  {
    if accounts != map[] {
      var first := Pick(accounts);
      RemovalShrinks(accounts, first);
      EverybodyDemands(accounts - {first}, tradeable, d, kind, account);
    }
  }

  /** Tokens that the claims of one kind are worth at `nav`. */
  function Payouts(cs: seq<Claim>, tradeable: bool, nav: nat): nat {
    if cs == [] then 0 else
    (if cs[0].tradeable == tradeable then AssetsFor(cs[0].amount, nav) else 0) + Payouts(cs[1..], tradeable, nav)
  }

  lemma {:induction false} EverybodyPayouts(accounts: map<Pubkey, TokenAccount>, tradeable: bool, d: Pubkey, kind: bool,
      nav: nat)
    ensures Payouts(Everybody(accounts, tradeable, d), kind, nav) ==
      if kind == tradeable then Value(accounts, nav) else 0
    decreases |accounts|
  {
    if accounts != map[] {
      var first := Pick(accounts);
      RemovalShrinks(accounts, first);
      EverybodyPayouts(accounts - {first}, tradeable, d, kind, nav);
    }
  }

  lemma {:induction false} DemandedOfBoth(xs: seq<Claim>, ys: seq<Claim>, tradeable: bool, account: Pubkey)
    ensures Demanded(xs + ys, tradeable, account) == Demanded(xs, tradeable, account) + Demanded(ys, tradeable, account)
  {
    if xs == [] {
      assert xs + ys == ys;
    } else {
      DemandedOfBoth(xs[1..], ys, tradeable, account);
      assert (xs + ys)[1..] == xs[1..] + ys;
    }
  }

  lemma {:induction false} PayoutsOfBoth(xs: seq<Claim>, ys: seq<Claim>, tradeable: bool, nav: nat)
    ensures Payouts(xs + ys, tradeable, nav) == Payouts(xs, tradeable, nav) + Payouts(ys, tradeable, nav)
  {
    if xs == [] {
      assert xs + ys == ys;
    } else {
      PayoutsOfBoth(xs[1..], ys, tradeable, nav);
      assert (xs + ys)[1..] == xs[1..] + ys;
    }
  }

  /** Everybody's claims: first all through cVAULT, then all through the trade token. */
  ghost function Rush(s: State, d: Pubkey): seq<Claim> {
    Everybody(s.cvault.accounts, false, d) + Everybody(s.trade.accounts, true, d)
  }

  lemma RushWithinBalances(s: State, d: Pubkey)
    requires d in s.usdc.accounts
    ensures WithinBalances(s, Rush(s, d))
    ensures forall c <- Rush(s, d) :: c.destination == d
  {
    var direct, traded := Everybody(s.cvault.accounts, false, d), Everybody(s.trade.accounts, true, d);
    forall c <- Rush(s, d)
      ensures WellFormed(s, c) && c.destination == d
    {
      if c in direct {
        EverybodyClaims(s.cvault.accounts, false, d, c);
      } else {
        EverybodyClaims(s.trade.accounts, true, d, c);
      }
    }
    forall tradeable: bool, account: Pubkey
      ensures Demanded(Rush(s, d), tradeable, account) <= Shares(s, tradeable).Balance(account)
    {
      DemandedOfBoth(direct, traded, tradeable, account);
      EverybodyDemands(s.cvault.accounts, false, d, tradeable, account);
      EverybodyDemands(s.trade.accounts, true, d, tradeable, account);
    }
  }

  lemma RushPayouts(s: State, d: Pubkey)
    ensures forall tradeable: bool :: Payouts(Rush(s, d), tradeable, s.vault.navPriceBps) == Claimable(s, tradeable)
  {
    var direct, traded, nav := Everybody(s.cvault.accounts, false, d), Everybody(s.trade.accounts, true, d),
      s.vault.navPriceBps;
    forall tradeable: bool
      ensures Payouts(Rush(s, d), tradeable, nav) == Claimable(s, tradeable)
    {
      PayoutsOfBoth(direct, traded, tradeable, nav);
      EverybodyPayouts(s.cvault.accounts, false, d, tradeable, nav);
      EverybodyPayouts(s.trade.accounts, true, d, tradeable, nav);
    }
  }

  predicate PaidTo(cs: seq<Claim>, d: Pubkey) {
    forall c <- cs :: c.destination == d
  }

  predicate OfKind(cs: seq<Claim>, tradeable: bool) {
    forall c <- cs :: c.tradeable == tradeable
  }

  /** Claims that are all paid, to somebody else, never exceed what the vault held. */
  lemma {:induction false} PaidWithinCustody(s: State, cs: seq<Claim>, d: Pubkey)
    requires Inv(s) && AllPaid(s, cs) && PaidTo(cs, d) && d != VaultToken
    ensures Payouts(cs, false, s.vault.navPriceBps) + Payouts(cs, true, s.vault.navPriceBps) <=
      s.usdc.Balance(VaultToken)
    decreases cs
  {
    if cs != [] {
      assert cs[0].destination == d;
      ClaimEffect(s, cs[0]);
      PaidWithinCustody(Execute(s, InstructionOf(cs[0])).value, cs[1..], d);
    }
  }

  /** Trade claims that are all paid never exceed the recorded deposits. */
  lemma {:induction false} TradedWithinDeposits(s: State, cs: seq<Claim>)
    requires Inv(s) && AllPaid(s, cs) && OfKind(cs, true)
    ensures Payouts(cs, true, s.vault.navPriceBps) <= s.vault.totalDeposits
    decreases cs
  {
    if cs != [] {
      var c := cs[0];
      assert c.tradeable;
      ClaimEffect(s, c);
      TradedExactly(s, c.holder, c.account, c.account, c.destination, c.amount);
      TradedWithinDeposits(Execute(s, InstructionOf(c)).value, cs[1..]);
    }
  }

  /** After direct claims, trade claims find only what those left of the recorded deposits. */
  lemma {:induction false} TradedAfterDirect(s: State, direct: seq<Claim>, traded: seq<Claim>)
    requires Inv(s) && AllPaid(s, direct + traded) && OfKind(direct, false) && OfKind(traded, true)
    ensures var nav := s.vault.navPriceBps;
      Payouts(traded, true, nav) > 0 ==>
        Payouts(direct, false, nav) + Payouts(traded, true, nav) <= s.vault.totalDeposits
    decreases direct
  {
    if direct == [] {
      assert direct + traded == traded;
      TradedWithinDeposits(s, traded);
    } else {
      var c := direct[0];
      assert !c.tradeable && (direct + traded)[0] == c && (direct + traded)[1..] == direct[1..] + traded;
      ClaimEffect(s, c);
      TradedAfterDirect(Execute(s, InstructionOf(c)).value, direct[1..], traded);
    }
  }

  lemma PaidRushIsCovered(s: State, d: Pubkey)
    requires Inv(s) && d in s.usdc.accounts && d != VaultToken && AllPaid(s, Rush(s, d))
    ensures Claimable(s, false) + Claimable(s, true) <= Available(s)
  {
    var direct, traded, nav := Everybody(s.cvault.accounts, false, d), Everybody(s.trade.accounts, true, d),
      s.vault.navPriceBps;
    RushWithinBalances(s, d);
    RushPayouts(s, d);
    PaidWithinCustody(s, Rush(s, d), d);
    forall c <- direct ensures !c.tradeable { EverybodyClaims(s.cvault.accounts, false, d, c); }
    forall c <- traded ensures c.tradeable { EverybodyClaims(s.trade.accounts, true, d, c); }
    TradedAfterDirect(s, direct, traded);
    EverybodyPayouts(s.cvault.accounts, false, d, false, nav);
    EverybodyPayouts(s.trade.accounts, true, d, true, nav);
  }

  lemma OversizedClaimFails(s: State, tradeable: bool, d: Pubkey, account: Pubkey)
    requires Inv(s) && !s.vault.paused && d in s.usdc.accounts
    requires account in Shares(s, tradeable).accounts && Shares(s, tradeable).accounts[account].owner.Key?
    requires Shares(s, tradeable).accounts[account].amount * s.vault.navPriceBps > U64_MAX
    ensures var a := Shares(s, tradeable).accounts[account];
      var cs := [Claim(tradeable, a.owner, account, d, a.amount)];
      WithinBalances(s, cs) && !AllPaid(s, cs)
  {
    var a := Shares(s, tradeable).accounts[account];
    var cs := [Claim(tradeable, a.owner, account, d, a.amount)];
    assert cs[1..] == [];
    ClaimExactly(s, cs[0]);
  }

  /** In every reachable state of an unpaused vault, and after whatever price changes, all claims within the
      holders' balances, through either token and in every order, are paid if and only if the vault is
      solvent. The condition has the vault pay to an account that is not its own, of which `d` is one. */
  lemma SolventExactly(s: State, d: Pubkey)
    requires Inv(s) && !s.vault.paused && d in s.usdc.accounts && d != VaultToken
    ensures (forall cs: seq<Claim> | WithinBalances(s, cs) :: AllPaid(s, cs)) <==> Solvent(s)
  {
    if Solvent(s) {
      forall cs: seq<Claim> | WithinBalances(s, cs)
        ensures AllPaid(s, cs)
      {
        SolventPaysAll(s, cs);
      }
    } else if tradeable: bool :| !PayoutsFit(Shares(s, tradeable).accounts, s.vault.navPriceBps) {
      var accounts := Shares(s, tradeable).accounts;
      var account :| account in accounts && accounts[account].owner.Key? &&
        accounts[account].amount * s.vault.navPriceBps > U64_MAX;
      OversizedClaimFails(s, tradeable, d, account);
    } else {
      RushWithinBalances(s, d);
      if AllPaid(s, Rush(s, d)) { PaidRushIsCovered(s, d); }
    }
  }

  /** A vault whose price never rose is one such case: covered, it is solvent. */
  lemma ReadyIsSolvent(s: State)
    requires Ready(s)
    ensures Solvent(s)
  {
    var nav, direct, traded := s.vault.navPriceBps, s.cvault.supply, s.trade.supply;
    LedgerValue(s.cvault, nav);
    LedgerValue(s.trade, nav);
    PartsPay(direct, traded, nav);
    ProductMonotone(direct + traded, s.vault.totalSupply, nav);
    ProductMonotone(direct, direct + traded, nav);
    ProductMonotone(traded, direct + traded, nav);
    Product(direct + traded, nav);
    assert AssetsFor(direct + traded, nav) * NAV_BPS_DENOMINATOR <= (direct + traded) * nav;
    forall tradeable: bool
      ensures PayoutsFit(Shares(s, tradeable).accounts, nav)
    {
      assert Shares(s, tradeable) == s.trade || Shares(s, tradeable) == s.cvault;
    }
  }
}
