/** If the price never rose, everybody can leave: no redemption fails, in any order. */
module OragamiBankRun {
  import opened Results
  import opened FixedPoint
  import opened TokenLedger
  import opened OragamiSpec
  import opened OragamiRefinement
  import NavBook

  /** A holder's demand for `amount` shares out of `account`, paid to `destination`. */
  datatype Claim = Claim(tradeable: bool, holder: Pubkey, account: Pubkey, destination: Pubkey, amount: u64)

  function InstructionOf(c: Claim): Instruction {
    if c.tradeable then RedeemTradeable(c.holder, c.account, c.account, c.destination, c.amount, false)
    else Redeem(c.holder, c.account, c.destination, c.amount)
  }

  function Shares(s: State, tradeable: bool): Ledger {
    if tradeable then s.trade else s.cvault
  }

  /** The holder signs for an account of the right mint, and names an existing USDC account. */
  predicate WellFormed(s: State, c: Claim) {
    c.holder.Key? && Shares(s, c.tradeable).Owns(c.holder, c.account) && c.destination in s.usdc.accounts
  }

  /** Shares demanded out of one account. */
  function Demanded(cs: seq<Claim>, tradeable: bool, account: Pubkey): nat {
    if cs == [] then 0 else
    (if cs[0].tradeable == tradeable && cs[0].account == account then cs[0].amount else 0)
    + Demanded(cs[1..], tradeable, account)
  }

  /** No account is asked for more than it holds. */
  ghost predicate WithinBalances(s: State, cs: seq<Claim>) {
    && (forall c <- cs :: WellFormed(s, c))
    && (forall tradeable: bool, account: Pubkey ::
       Demanded(cs, tradeable, account) <= Shares(s, tradeable).Balance(account))
  }

  /** Every claim, taken in order, succeeds. */
  predicate AllPaid(s: State, cs: seq<Claim>)
    decreases cs
  {
    cs == [] ||
    (Execute(s, InstructionOf(cs[0])).Ok? && AllPaid(Execute(s, InstructionOf(cs[0])).value, cs[1..]))
  }

  /** Open for redemption, covered, and with a share value that fits 64 bits. */
  ghost predicate Ready(s: State) {
    Inv(s) && !s.vault.paused && NavBook.Covered(BookOf(s)) && NavBook.ShareValue(BookOf(s)) <= U64_MAX
  }

  lemma ClaimSucceeds(s: State, c: Claim)
    requires Ready(s) && WellFormed(s, c) && c.amount <= Shares(s, c.tradeable).Balance(c.account)
    ensures Execute(s, InstructionOf(c)).Ok?
  {
    BalanceWithinSupply(s.cvault, c.account);
    BalanceWithinSupply(s.trade, c.account);
    NavBook.CoveredRedemption(BookOf(s), c.amount, false);
    BurnAccepted(Shares(s, c.tradeable), c.account, c.holder, c.amount);
    TransferAccepted(s.usdc, VaultToken, c.destination, VaultState, CheckedAssets(c.amount, s.vault.navPriceBps).value);
  }

  lemma ClaimKeepsReady(s: State, c: Claim)
    requires Ready(s) && Execute(s, InstructionOf(c)).Ok?
    ensures Ready(Execute(s, InstructionOf(c)).value)
  {
    var e := Program(InstructionOf(c));
    NextMoves(s, e);
    NavBook.CoveredRedemption(BookOf(s), c.amount, c.destination == VaultToken);
  }

  /** A claim draws on its own account only; all other holders keep their shares. */
  lemma ClaimDrawsOn(s: State, c: Claim)
    requires Execute(s, InstructionOf(c)).Ok?
    ensures var t := Execute(s, InstructionOf(c)).value;
      && Shares(t, !c.tradeable) == Shares(s, !c.tradeable)
      && OnlyTouched(Shares(s, c.tradeable), Shares(t, c.tradeable), {c.account})
      && Shares(t, c.tradeable).Balance(c.account) == Shares(s, c.tradeable).Balance(c.account) - c.amount
      && t.usdc.accounts.Keys == s.usdc.accounts.Keys
  {
    BurnEffect(Shares(s, c.tradeable), c.account, c.holder, c.amount);
    TransferEffect(s.usdc, VaultToken, c.destination, VaultState, CheckedAssets(c.amount, s.vault.navPriceBps).value);
  }

  lemma RemainingWithinBalances(s: State, cs: seq<Claim>)
    requires cs != [] && WithinBalances(s, cs) && Execute(s, InstructionOf(cs[0])).Ok?
    ensures WithinBalances(Execute(s, InstructionOf(cs[0])).value, cs[1..])
  {
    var c := cs[0];
    var t := Execute(s, InstructionOf(c)).value;
    ClaimDrawsOn(s, c);
    forall d <- cs[1..]
      ensures WellFormed(t, d)
    {
      assert d in cs;
      assert WellFormed(s, d);
    }
    forall tradeable: bool, account: Pubkey
      ensures Demanded(cs[1..], tradeable, account) <= Shares(t, tradeable).Balance(account)
    {
      assert Demanded(cs, tradeable, account) <= Shares(s, tradeable).Balance(account);
    }
  }

  lemma {:induction false} ReadyPaysAll(s: State, cs: seq<Claim>)
    requires Ready(s) && WithinBalances(s, cs)
    ensures AllPaid(s, cs)
    decreases cs
  {
    if cs != [] {
      var c := cs[0];
      assert WellFormed(s, c);
      assert Demanded(cs, c.tradeable, c.account) <= Shares(s, c.tradeable).Balance(c.account);
      ClaimSucceeds(s, c);
      ClaimKeepsReady(s, c);
      RemainingWithinBalances(s, cs);
      ReadyPaysAll(Execute(s, InstructionOf(c)).value, cs[1..]);
    }
  }

  /** No accepted update of the run raised the price. */
  predicate PriceNeverRaised(s: State, es: seq<Event>)
    decreases es
  {
    es == [] ||
    ((es[0].Program? && es[0].instruction.SetNav? && Attempt(s, es[0]).Ok? ==>
        es[0].instruction.nav <= s.vault.navPriceBps) && PriceNeverRaised(Next(s, es[0]), es[1..]))
  }

  lemma {:induction false} PriceNeverRaisedOnBook(s: State, es: seq<Event>)
    requires Inv(s) && PriceNeverRaised(s, es)
    ensures NavBook.AllEnabled(BookOf(s), EntriesOf(s, es))
    ensures NavBook.NeverRaised(BookOf(s), EntriesOf(s, es))
    decreases es
  {
    RunRefines(s, es);
    if es != [] {
      NextMoves(s, es[0]);
      PriceNeverRaisedOnBook(Next(s, es[0]), es[1..]);
      assert EntriesOf(s, es)[1..] == EntriesOf(Next(s, es[0]), es[1..]);
    }
  }

  /** Bank run: after any run that never raised the price, while the vault is not paused and its share
      value fits 64 bits, any claims within the holders' balances are all paid, in any order, through
      either token. */
  lemma BankRun(s: State, es: seq<Event>, cs: seq<Claim>)
    requires Initial(s) && PriceNeverRaised(s, es)
    requires !Run(s, es).vault.paused
    requires Run(s, es).vault.totalSupply * Run(s, es).vault.navPriceBps <= U64_MAX
    requires WithinBalances(Run(s, es), cs)
    ensures AllPaid(Run(s, es), cs)
  {
    InitialInv(s);
    RunRefines(s, es);
    PriceNeverRaisedOnBook(s, es);
    NavBook.NeverRaisedStaysCovered(BookOf(s), EntriesOf(s, es));
    ReadyPaysAll(Run(s, es), cs);
  }
}
