/** What holds of every run of the yield vault: value, custody, supply and price. */
module OragamiTheorems {
  import opened Results
  import opened FixedPoint
  import opened TokenLedger
  import opened NavGuard
  import opened OragamiSpec
  import opened OragamiRefinement
  import NavBook

  /** USDC the vault received for no shares: donations, and payouts sent back to itself. */
  function Gifts(s: State, es: seq<Event>): nat
    requires NavBook.AllEnabled(BookOf(s), EntriesOf(s, es))
  {
    NavBook.Gifts(BookOf(s), EntriesOf(s, es))
  }

  /** Value created by accepted price changes: supply times change, summed. */
  function Gain(s: State, es: seq<Event>): int
    requires NavBook.AllEnabled(BookOf(s), EntriesOf(s, es))
  {
    NavBook.Gain(BookOf(s), EntriesOf(s, es))
  }

  /** Rounding remainders kept by the vault, summed. */
  function Dust(s: State, es: seq<Event>): nat
    requires NavBook.AllEnabled(BookOf(s), EntriesOf(s, es))
  {
    NavBook.Dust(BookOf(s), EntriesOf(s, es))
  }

  /** Nothing but deposits credits the vault's USDC account. */
  predicate ClosedEvent(e: Event) {
    match e
    case Program(Redeem(_, _, destination, _)) => destination != VaultToken
    case Program(RedeemTradeable(_, _, _, destination, _, _)) => destination != VaultToken
    case Outside(MoveTokens(_, _, _, destination, _)) => destination != VaultToken
    case Outside(IssueUsdc(destination, _)) => destination != VaultToken
    case _ => true
  }

  predicate Closed(es: seq<Event>) {
    forall e <- es :: ClosedEvent(e)
  }

  lemma {:induction false} ClosedRunHasNoGifts(s: State, es: seq<Event>)
    requires Inv(s) && Closed(es)
    ensures NavBook.AllEnabled(BookOf(s), EntriesOf(s, es))
    ensures Gifts(s, es) == 0
    decreases es
  {
    RunRefines(s, es);
    if es != [] {
      assert ClosedEvent(es[0]);
      NextMoves(s, es[0]);
      assert EntriesOf(s, es)[1..] == EntriesOf(Next(s, es[0]), es[1..]);
      ClosedRunHasNoGifts(Next(s, es[0]), es[1..]);
    }
  }

  /** Exact value conservation over every run, with every gift accounted for. */
  lemma ValueConserved(s: State, es: seq<Event>)
    requires Initial(s)
    ensures NavBook.AllEnabled(BookOf(s), EntriesOf(s, es))
    ensures var t := Run(s, es);
      10_000 * t.usdc.Balance(VaultToken) + Gain(s, es) ==
      t.vault.totalSupply * t.vault.navPriceBps + Dust(s, es) + 10_000 * Gifts(s, es)
  {
    InitialInv(s);
    RunRefines(s, es);
    NavBook.Conservation(BookOf(s), EntriesOf(s, es));
  }

  /** Without gifts the law closes; with them the shares are still covered. */
  lemma ValueConservedClosedAndOpen(s: State, es: seq<Event>)
    requires Initial(s)
    ensures NavBook.AllEnabled(BookOf(s), EntriesOf(s, es))
    ensures var t := Run(s, es);
      var shareValue := t.vault.totalSupply * t.vault.navPriceBps;
      && shareValue <= 10_000 * t.usdc.Balance(VaultToken) + Gain(s, es)
      && (Closed(es) ==> 10_000 * t.usdc.Balance(VaultToken) + Gain(s, es) == shareValue + Dust(s, es))
  {
    ValueConserved(s, es);
    if Closed(es) {
      InitialInv(s);
      ClosedRunHasNoGifts(s, es);
    }
  }

  /** The vault's USDC covers its recorded deposits in every run, and equals them in a closed one. */
  lemma CustodyCoversBook(s: State, es: seq<Event>)
    requires Initial(s)
    ensures Run(s, es).usdc.Balance(VaultToken) >= Run(s, es).vault.totalDeposits
    ensures Closed(es) ==> Run(s, es).usdc.Balance(VaultToken) == Run(s, es).vault.totalDeposits
  {
    InitialInv(s);
    RunRefines(s, es);
    NavBook.CustodyCoversRecord(BookOf(s), EntriesOf(s, es));
    if Closed(es) {
      ClosedRunHasNoGifts(s, es);
    }
  }

  /** The two share mints together hold exactly the recorded supply less what holders burned
      outside the program; in particular never more than it. */
  lemma TwoMintSupply(s: State, es: seq<Event>)
    requires Initial(s)
    ensures Run(s, es).cvault.supply + Run(s, es).trade.supply + Burns(s, es) == Run(s, es).vault.totalSupply
  {
    InitialInv(s);
    RunRefines(s, es);
  }

  /** So neither checked subtraction on the recorded supply can fail once the burn went through. */
  lemma BurnedSharesAreRecorded(s: State, es: seq<Event>, user: Pubkey, source: Pubkey, amount: u64)
    requires Initial(s)
    requires Run(s, es).cvault.Burn(source, user, amount).Ok? || Run(s, es).trade.Burn(source, user, amount).Ok?
    ensures CheckedSub(Run(s, es).vault.totalSupply, amount).Ok?
  {
    TwoMintSupply(s, es);
  }

  // ---------------------------------------------------------------- the two ways out

  /** The vault can pay `amount` shares to `destination`. */
  predicate Pays(s: State, destination: Pubkey, amount: u64) {
    Payable(s, amount).Ok? && s.usdc.Transfer(VaultToken, destination, VaultState, Payable(s, amount).value).Ok?
  }

  /** What either route leaves behind. */
  predicate PaidOut(s: State, t: State, destination: Pubkey, amount: u64) {
    Pays(s, destination, amount) &&
    BookRedemption(s.vault, Payable(s, amount).value, amount) == Ok(t.vault) &&
    s.usdc.Transfer(VaultToken, destination, VaultState, Payable(s, amount).value) == Ok(t.usdc)
  }

  lemma DirectRoute(s: State, user: Pubkey, account: Pubkey, destination: Pubkey, amount: u64)
    requires Inv(s) && Holds(s.cvault, user, account, amount)
    ensures var r := RedeemStep(s, user, account, destination, amount);
      && (r.Ok? <==> user.Key? && !s.vault.paused && Pays(s, destination, amount))
      && (r.Ok? ==> PaidOut(s, r.value, destination, amount))
  {
    BurnAccepted(s.cvault, account, user, amount);
    BalanceWithinSupply(s.cvault, account);
  }

  lemma TradedRoute(s: State, user: Pubkey, account: Pubkey, userCvault: Pubkey, destination: Pubkey, amount: u64)
    requires Inv(s) && Holds(s.trade, user, account, amount)
    ensures var r := RedeemTradeableStep(s, user, account, userCvault, destination, amount, false);
      && (r.Ok? <==>
         user.Key? && !s.vault.paused && Pays(s, destination, amount) &&
         Payable(s, amount).value <= s.vault.totalDeposits)
      && (r.Ok? ==> PaidOut(s, r.value, destination, amount))
  {
    BurnAccepted(s.trade, account, user, amount);
    BalanceWithinSupply(s.trade, account);
  }

  /** With the tokens at hand on both sides, redeeming trade tokens succeeds exactly when redeeming
      cVAULT does and the payout is within the recorded deposits; the outcome is then the same. */
  lemma RedemptionRoutesAgree(s: State, user: Pubkey, cvaultAccount: Pubkey, tradeAccount: Pubkey, destination: Pubkey,
      amount: u64)
    requires Inv(s)
    requires s.cvault.Owns(user, cvaultAccount) && amount <= s.cvault.Balance(cvaultAccount)
    requires s.trade.Owns(user, tradeAccount) && amount <= s.trade.Balance(tradeAccount)
    ensures var direct := RedeemStep(s, user, cvaultAccount, destination, amount);
      var traded := RedeemTradeableStep(s, user, tradeAccount, cvaultAccount, destination, amount, false);
      && (traded.Ok? <==> direct.Ok? && AssetsFor(amount, s.vault.navPriceBps) <= s.vault.totalDeposits)
      && (traded.Ok? ==> traded.value.usdc == direct.value.usdc && traded.value.vault == direct.value.vault)
  {
    DirectRoute(s, user, cvaultAccount, destination, amount);
    TradedRoute(s, user, tradeAccount, cvaultAccount, destination, amount);
    CheckedAssetsExact(amount, s.vault.navPriceBps);
  }

  lemma RoutesAgreeOnBook(s: State, user: Pubkey, cvaultAccount: Pubkey, tradeAccount: Pubkey, destination: Pubkey,
      amount: u64)
    requires Inv(s) && s.usdc.Balance(VaultToken) == s.vault.totalDeposits
    requires s.cvault.Owns(user, cvaultAccount) && amount <= s.cvault.Balance(cvaultAccount)
    requires s.trade.Owns(user, tradeAccount) && amount <= s.trade.Balance(tradeAccount)
    ensures var direct := RedeemStep(s, user, cvaultAccount, destination, amount);
      var traded := RedeemTradeableStep(s, user, tradeAccount, cvaultAccount, destination, amount, false);
      && (traded.Ok? <==> direct.Ok?)
      && (direct.Ok? ==> traded.value.usdc == direct.value.usdc && traded.value.vault == direct.value.vault)
      && (direct.Ok? ==>
         direct.value.vault.totalDeposits == s.vault.totalDeposits - AssetsFor(amount, s.vault.navPriceBps))
  {
    RedemptionRoutesAgree(s, user, cvaultAccount, tradeAccount, destination, amount);
  }

  /** In a closed run the extra condition is free, so the two routes accept the same amounts and the
      saturating subtraction never saturates. */
  lemma ClosedRunRoutesAgree(s: State, es: seq<Event>, user: Pubkey, cvaultAccount: Pubkey, tradeAccount: Pubkey,
      destination: Pubkey, amount: u64)
    requires Initial(s) && Closed(es)
    requires Run(s, es).cvault.Owns(user, cvaultAccount) && amount <= Run(s, es).cvault.Balance(cvaultAccount)
    requires Run(s, es).trade.Owns(user, tradeAccount) && amount <= Run(s, es).trade.Balance(tradeAccount)
    ensures var t := Run(s, es);
      var direct := RedeemStep(t, user, cvaultAccount, destination, amount);
      var traded := RedeemTradeableStep(t, user, tradeAccount, cvaultAccount, destination, amount, false);
      && (traded.Ok? <==> direct.Ok?)
      && (direct.Ok? ==> traded.value.usdc == direct.value.usdc && traded.value.vault == direct.value.vault)
      && (direct.Ok? ==>
         direct.value.vault.totalDeposits == t.vault.totalDeposits - AssetsFor(amount, t.vault.navPriceBps))
  {
    InitialInv(s);
    RunRefines(s, es);
    CustodyCoversBook(s, es);
    RoutesAgreeOnBook(Run(s, es), user, cvaultAccount, tradeAccount, destination, amount);
  }

  // ---------------------------------------------------------------- price

  /** The prices set by the accepted updates of a run. */
  function PricePath(s: State, es: seq<Event>): seq<u64>
    decreases es
  {
    if es == [] then [] else
    var rest := PricePath(Next(s, es[0]), es[1..]);
    if es[0].Program? && es[0].instruction.SetNav? && Attempt(s, es[0]).Ok?
    then [es[0].instruction.nav] + rest else rest
  }

  /** Only accepted updates move the price: the run's price path is an accepted path of the guard. */
  lemma {:induction false} PriceFollowsGuard(s: State, es: seq<Event>)
    requires Inv(s)
    ensures AcceptedPath(s.vault.navPriceBps, PricePath(s, es))
    ensures EndOf(s.vault.navPriceBps, PricePath(s, es)) == Run(s, es).vault.navPriceBps
    decreases es
  {
    if es != [] {
      var t := Next(s, es[0]);
      NextMoves(s, es[0]);
      PriceFollowsGuard(t, es[1..]);
      var rest := PricePath(t, es[1..]);
      if es[0].Program? && es[0].instruction.SetNav? && Attempt(s, es[0]).Ok? {
        assert PricePath(s, es)[1..] == rest;
      }
    }
  }

  /** From launch at par, k accepted updates keep the price positive and within the k-fold bounds. */
  lemma PriceBounded(s: State, es: seq<Event>)
    requires Initial(s)
    ensures var k, nav := |PricePath(s, es)|, Run(s, es).vault.navPriceBps;
      nav > 0 && 10_000 <= Pow(2, k) * nav <= 10_000 * Pow(3, k)
  {
    InitialInv(s);
    PriceFollowsGuard(s, es);
    UpdatesBounded(s.vault.navPriceBps, PricePath(s, es));
  }
}
