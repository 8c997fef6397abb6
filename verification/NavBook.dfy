/** The accounts of one NAV-priced vault, as an abstract machine over four numbers.
    Both on-chain programs refine it (OragamiRefinement, CustodyRefinement), so what is
    proved here about every sequence of entries holds for every run of either program. */
module NavBook {
  import opened FixedPoint

  /** custody: tokens in the vault's account; deposits: the recorded total;
      supply: the recorded share total; nav: price of 10000 shares. */
  datatype Book = Book(custody: nat, deposits: nat, supply: nat, nav: nat)

  datatype Entry =
    | Idle
    | Deposited(amount: nat)
    /** `kept`: the payout was sent to the vault's own account, so it never left. */
    | Redeemed(shares: nat, kept: bool)
    | Repriced(newNav: nat)
    /** tokens that reached the vault's account outside a deposit */
    | Donated(amount: nat)

  predicate Enabled(b: Book, e: Entry) {
    b.nav > 0 &&
    match e
    case Redeemed(shares, _) => shares <= b.supply && AssetsFor(shares, b.nav) <= b.custody
    case Repriced(newNav) => newNav > 0
    case _ => true
  }

  function Post(b: Book, e: Entry): Book
    requires Enabled(b, e)
  {
    match e
    case Idle => b
    case Deposited(amount) =>
      b.(custody := b.custody + amount, deposits := b.deposits + amount,
         supply := b.supply + SharesFor(amount, b.nav))
    case Redeemed(shares, kept) =>
      var payout := AssetsFor(shares, b.nav);
      b.(custody := if kept then b.custody else b.custody - payout,
         deposits := if payout <= b.deposits then b.deposits - payout else 0,
         supply := b.supply - shares)
    case Repriced(newNav) => b.(nav := newNav)
    case Donated(amount) => b.(custody := b.custody + amount)
  }

  predicate AllEnabled(b: Book, es: seq<Entry>)
    decreases es
  {
    es == [] || (Enabled(b, es[0]) && AllEnabled(Post(b, es[0]), es[1..]))
  }

  function Run(b: Book, es: seq<Entry>): Book
    requires AllEnabled(b, es)
    decreases es
  {
    if es == [] then b else Run(Post(b, es[0]), es[1..])
  }

  // ---------------------------------------------------------------- what a run sums up

  /** Book value created by a price change: supply times the change. */
  function GainOf(b: Book, e: Entry): int {
    if e.Repriced? then b.supply * (e.newNav - b.nav) else 0
  }

  /** Value rounded off in the vault's favour, in ten-thousandths of a token. */
  function DustOf(b: Book, e: Entry): nat
    requires Enabled(b, e)
  {
    match e
    case Deposited(amount) =>
      DivisionBounds(amount * NAV_BPS_DENOMINATOR, b.nav);
      amount * NAV_BPS_DENOMINATOR % b.nav
    case Redeemed(shares, _) => shares * b.nav % NAV_BPS_DENOMINATOR
    case _ => 0
  }

  /** Tokens the vault received for no shares. */
  function GiftOf(b: Book, e: Entry): nat {
    match e
    case Redeemed(shares, kept) => if kept then AssetsFor(shares, b.nav) else 0
    case Donated(amount) => amount
    case _ => 0
  }

  function Gain(b: Book, es: seq<Entry>): int
    requires AllEnabled(b, es)
    decreases es
  {
    if es == [] then 0 else GainOf(b, es[0]) + Gain(Post(b, es[0]), es[1..])
  }

  function Dust(b: Book, es: seq<Entry>): nat
    requires AllEnabled(b, es)
    decreases es
  {
    if es == [] then 0 else DustOf(b, es[0]) + Dust(Post(b, es[0]), es[1..])
  }

  function Gifts(b: Book, es: seq<Entry>): nat
    requires AllEnabled(b, es)
    decreases es
  {
    if es == [] then 0 else GiftOf(b, es[0]) + Gifts(Post(b, es[0]), es[1..])
  }

  /** No price change in the run raised the NAV. */
  predicate NeverRaised(b: Book, es: seq<Entry>)
    requires AllEnabled(b, es)
    decreases es
  {
    es == [] ||
    ((es[0].Repriced? ==> es[0].newNav <= b.nav) && NeverRaised(Post(b, es[0]), es[1..]))
  }

  // ---------------------------------------------------------------- conservation

  /** Value of the outstanding shares, in ten-thousandths of a token. */
  function ShareValue(b: Book): nat {
    Product(b.supply, b.nav);
    b.supply * b.nav
  }

  lemma StepConservation(b: Book, e: Entry)
    requires Enabled(b, e)
    ensures var t := Post(b, e);
      10_000 * t.custody - ShareValue(t) ==
      10_000 * b.custody - ShareValue(b) - GainOf(b, e) + DustOf(b, e) + 10_000 * GiftOf(b, e)
  {
    match e
    case Deposited(amount) =>
      DivisionBounds(amount * NAV_BPS_DENOMINATOR, b.nav);
      var shares := SharesFor(amount, b.nav);
      assert (b.supply + shares) * b.nav == b.supply * b.nav + shares * b.nav;
    case Redeemed(shares, _) =>
      Product(shares, b.nav);
      assert (b.supply - shares) * b.nav == b.supply * b.nav - shares * b.nav;
    case Repriced(newNav) =>
      assert b.supply * newNav == b.supply * b.nav + b.supply * (newNav - b.nav);
    case _ =>
  }

  /** Value is conserved exactly over every run: what the vault holds plus the value created by
      price changes is what the shares are worth, plus the rounding kept, plus the gifts. */
  lemma {:induction false} Conservation(b: Book, es: seq<Entry>)
    requires AllEnabled(b, es)
    ensures var t := Run(b, es);
      10_000 * (t.custody - b.custody) + Gain(b, es) ==
      ShareValue(t) - ShareValue(b) + Dust(b, es) + 10_000 * Gifts(b, es)
    decreases es
  {
    if es != [] {
      StepConservation(b, es[0]);
      Conservation(Post(b, es[0]), es[1..]);
    }
  }

  // ---------------------------------------------------------------- the recorded deposits

  lemma StepRecordedCover(b: Book, e: Entry)
    requires Enabled(b, e)
    ensures var t := Post(b, e);
      10_000 * t.deposits - ShareValue(t) >= 10_000 * b.deposits - ShareValue(b) - GainOf(b, e)
  {
    StepConservation(b, e);
  }

  /** The recorded deposits cover the shares as well, up to the value created by price changes:
      the saturating subtraction only ever errs upwards. */
  lemma {:induction false} RecordedCover(b: Book, es: seq<Entry>)
    requires AllEnabled(b, es)
    ensures var t := Run(b, es);
      10_000 * (t.deposits - b.deposits) + Gain(b, es) >= ShareValue(t) - ShareValue(b)
    decreases es
  {
    if es != [] {
      StepRecordedCover(b, es[0]);
      RecordedCover(Post(b, es[0]), es[1..]);
    }
  }

  /** The vault always holds at least what it recorded, saturation included; without gifts it
      holds exactly that. */
  lemma {:induction false} CustodyCoversRecord(b: Book, es: seq<Entry>)
    requires AllEnabled(b, es) && b.custody >= b.deposits
    ensures Run(b, es).custody >= Run(b, es).deposits
    ensures b.custody == b.deposits && Gifts(b, es) == 0 ==> Run(b, es).custody == Run(b, es).deposits
    decreases es
  {
    if es != [] {
      CustodyCoversRecord(Post(b, es[0]), es[1..]);
    }
  }

  // ---------------------------------------------------------------- solvency

  /** Shares are covered both by the tokens held and by the recorded deposits. */
  predicate Covered(b: Book) {
    b.nav > 0 && ShareValue(b) <= 10_000 * b.custody && ShareValue(b) <= 10_000 * b.deposits
  }

  lemma {:induction false} NeverRaisedGain(b: Book, es: seq<Entry>)
    requires AllEnabled(b, es) && NeverRaised(b, es)
    ensures Gain(b, es) <= 0
    decreases es
  {
    if es != [] {
      if es[0].Repriced? {
        ProductMonotone(es[0].newNav - b.nav, 0, b.supply);
      }
      NeverRaisedGain(Post(b, es[0]), es[1..]);
    }
  }

  lemma {:induction false} NavStaysPositive(b: Book, es: seq<Entry>)
    requires AllEnabled(b, es) && b.nav > 0
    ensures Run(b, es).nav > 0
    decreases es
  {
    if es != [] {
      NavStaysPositive(Post(b, es[0]), es[1..]);
    }
  }

  /** If no price change raised the NAV, a vault that started covered is covered. */
  lemma NeverRaisedStaysCovered(b: Book, es: seq<Entry>)
    requires AllEnabled(b, es) && NeverRaised(b, es) && Covered(b)
    ensures Covered(Run(b, es))
  {
    Conservation(b, es);
    RecordedCover(b, es);
    NeverRaisedGain(b, es);
    NavStaysPositive(b, es);
  }

  /** In a covered book any redemption of outstanding shares is payable, without saturation and
      without overflow if the whole share value fits, and leaves the book covered. */
  lemma CoveredRedemption(b: Book, shares: nat, kept: bool)
    requires Covered(b) && shares <= b.supply
    ensures Enabled(b, Redeemed(shares, kept))
    ensures AssetsFor(shares, b.nav) <= b.deposits
    ensures shares * b.nav <= ShareValue(b)
    ensures Covered(Post(b, Redeemed(shares, kept)))
    ensures ShareValue(Post(b, Redeemed(shares, kept))) <= ShareValue(b)
  {
    ProductMonotone(shares, b.supply, b.nav);
    Product(shares, b.nav);
    StepConservation(b, Redeemed(shares, kept));
    StepRecordedCover(b, Redeemed(shares, kept));
  }
}
