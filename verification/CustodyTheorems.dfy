/** What holds of every run of the factory, for every asset: value, custody, supply, isolation. */
module CustodyTheorems {
  import opened Results
  import opened FixedPoint
  import opened TokenLedger
  import opened NavGuard
  import opened CustodySpec
  import opened CustodyRefinement
  import NavBook

  /** Value created by accepted price changes of `k`: supply times change, summed. */
  function Gain(f: Factory, es: seq<Event>, k: Pubkey): int
    requires NavBook.AllEnabled(BookOf(f, k), EntriesOf(f, es, k))
  {
    NavBook.Gain(BookOf(f, k), EntriesOf(f, es, k))
  }

  /** Rounding remainders kept by the vault of `k`, summed. */
  function Dust(f: Factory, es: seq<Event>, k: Pubkey): nat
    requires NavBook.AllEnabled(BookOf(f, k), EntriesOf(f, es, k))
  {
    NavBook.Dust(BookOf(f, k), EntriesOf(f, es, k))
  }

  /** Tokens the vault of `k` received for no shares. */
  function Gifts(f: Factory, es: seq<Event>, k: Pubkey): nat
    requires NavBook.AllEnabled(BookOf(f, k), EntriesOf(f, es, k))
  {
    NavBook.Gifts(BookOf(f, k), EntriesOf(f, es, k))
  }

  /** Nothing but deposits of `k` names `k`'s account as a destination. */
  predicate ClosedEvent(e: Event, k: Pubkey) {
    match e
    case Program(_, Deposit(_, _, _, destination, _, _)) => destination != AssetTokenAddress(k)
    case Program(_, Redeem(_, _, _, destination, _)) => destination != AssetTokenAddress(k)
    case Program(_, TransferShares(_, _, _, destination, _)) => destination != AssetTokenAddress(k)
    case Outside(MoveTokens(_, _, _, destination, _)) => destination != AssetTokenAddress(k)
    case Outside(IssueTokens(_, destination, _)) => destination != AssetTokenAddress(k)
    case _ => true
  }

  predicate Closed(es: seq<Event>, k: Pubkey) {
    forall e <- es :: ClosedEvent(e, k)
  }

  lemma {:induction false} ClosedRunHasNoGifts(f: Factory, es: seq<Event>, k: Pubkey)
    requires Inv(f) && Closed(es, k)
    ensures NavBook.AllEnabled(BookOf(f, k), EntriesOf(f, es, k))
    ensures Gifts(f, es, k) == 0
    decreases es
  {
    RunRefines(f, es, k);
    if es != [] {
      assert ClosedEvent(es[0], k);
      NextInv(f, es[0]);
      NextMoves(f, es[0], k);
      assert EntriesOf(f, es, k)[1..] == EntriesOf(Next(f, es[0]), es[1..], k);
      ClosedRunHasNoGifts(Next(f, es[0]), es[1..], k);
    }
  }

  /** Tokens in the vault account of `k`, zero before registration. */
  function Custody(f: Factory, k: Pubkey): nat {
    BookOf(f, k).custody
  }

  /** Exact value conservation for every asset over every run of the whole factory; closed for a run
      without gifts to that vault. */
  lemma ValueConserved(f: Factory, es: seq<Event>, k: Pubkey)
    requires Initial(f)
    ensures NavBook.AllEnabled(BookOf(f, k), EntriesOf(f, es, k))
    ensures k in Run(f, es).vaults ==>
      var v := Run(f, es).vaults[k];
      && 10_000 * Custody(Run(f, es), k) + Gain(f, es, k) ==
           v.totalSupply * v.navPriceBps + Dust(f, es, k) + 10_000 * Gifts(f, es, k)
      && (Closed(es, k) ==> Gifts(f, es, k) == 0)
  {
    InitialInv(f);
    RunRefines(f, es, k);
    NavBook.Conservation(BookOf(f, k), EntriesOf(f, es, k));
    if Closed(es, k) { ClosedRunHasNoGifts(f, es, k); }
  }

  /** Each vault's account covers its recorded deposits, and equals them in a run without gifts to it. */
  lemma CustodyCoversBook(f: Factory, es: seq<Event>, k: Pubkey)
    requires Initial(f) && k in Run(f, es).vaults
    ensures Custody(Run(f, es), k) >= Run(f, es).vaults[k].totalDeposits
    ensures Closed(es, k) ==> Custody(Run(f, es), k) == Run(f, es).vaults[k].totalDeposits
  {
    InitialInv(f);
    RunRefines(f, es, k);
    NavBook.CustodyCoversRecord(BookOf(f, k), EntriesOf(f, es, k));
    if Closed(es, k) { ClosedRunHasNoGifts(f, es, k); }
  }

  /** The share mint's supply is the recorded supply less what holders burned outside the program. */
  lemma ShareSupply(f: Factory, es: seq<Event>, k: Pubkey)
    requires Initial(f) && k in Run(f, es).vaults
    ensures LedgerOf(Run(f, es), ShareMintAddress(k)).supply + Burns(f, es, k) == Run(f, es).vaults[k].totalSupply
  {
    InitialInv(f);
    RunRefines(f, es, k);
  }

  // ---------------------------------------------------------------- isolation

  /** The asset an instruction works on, if any. */
  function TargetOf(i: Instruction): Option<Pubkey> {
    match i
    case RegisterAsset(_, asset, _, _, _, _) => Some(asset)
    case SetNav(_, asset, _) => Some(asset)
    case PauseVault(_, asset, _) => Some(asset)
    case Deposit(_, asset, _, _, _, _) => Some(asset)
    case Redeem(_, asset, _, _, _) => Some(asset)
    case TransferShares(_, asset, _, _, _) => Some(asset)
    case _ => None
  }

  lemma RecordUntouched(f: Factory, c: Context, i: Instruction, k: Pubkey)
    requires TargetOf(i) != Some(k) && Execute(f, c, i).Ok?
    ensures var g := Execute(f, c, i).value;
      (k in g.vaults <==> k in f.vaults) && (k in f.vaults ==> g.vaults[k] == f.vaults[k])
  {}

  /** An instruction on one asset leaves every other vault's record as it was, and never takes tokens
      out of another vault's account. */
  lemma OtherVaultsUntouched(f: Factory, c: Context, i: Instruction, k: Pubkey)
    requires Inv(f) && k in f.vaults && TargetOf(i) != Some(k)
    ensures var g := Next(f, Program(c, i));
      k in g.vaults && g.vaults[k] == f.vaults[k] && Custody(g, k) >= Custody(f, k)
  {
    if Execute(f, c, i).Ok? {
      RecordUntouched(f, c, i, k);
      NextMoves(f, Program(c, i), k);
    }
  }

  lemma DuplicateCheckUnreachable(f: Factory, signer: Pubkey, asset: Pubkey, nav: u64, low: u64, high: u64,
      travelRule: bool)
    requires RegistrySound(f)
    ensures RegisterAssetStep(f, signer, asset, nav, low, high, travelRule) != Err(AssetAlreadyRegistered)
    ensures |f.registered| == MAX_ASSETS ==> RegisterAssetStep(f, signer, asset, nav, low, high, travelRule).Err?
  {}

  /** The registry has no duplicates and is bounded, in every run; so the duplicate check behind the
      account initialisation never fires. */
  lemma RegistryInEveryRun(f: Factory, es: seq<Event>, signer: Pubkey, asset: Pubkey, nav: u64, low: u64, high: u64,
      travelRule: bool)
    requires Initial(f)
    ensures RegistrySound(Run(f, es))
    ensures RegisterAssetStep(Run(f, es), signer, asset, nav, low, high, travelRule) != Err(AssetAlreadyRegistered)
    ensures |Run(f, es).registered| == MAX_ASSETS ==>
      RegisterAssetStep(Run(f, es), signer, asset, nav, low, high, travelRule).Err?
  {
    InitialInv(f);
    RunRefines(f, es, asset);
    DuplicateCheckUnreachable(Run(f, es), signer, asset, nav, low, high, travelRule);
  }

  // ---------------------------------------------------------------- price

  /** The prices set by the accepted updates of `k`. */
  function PricePath(f: Factory, es: seq<Event>, k: Pubkey): seq<u64>
    decreases es
  {
    if es == [] then [] else
    var rest := PricePath(Next(f, es[0]), es[1..], k);
    if es[0].Program? && es[0].instruction.SetNav? && es[0].instruction.asset == k && Attempt(f, es[0]).Ok?
    then [es[0].instruction.nav] + rest else rest
  }

  /** A registered vault's price moves along an accepted path of the common guard. */
  lemma {:induction false} PriceFollowsGuard(f: Factory, es: seq<Event>, k: Pubkey)
    requires Inv(f) && k in f.vaults
    ensures k in Run(f, es).vaults
    ensures AcceptedPath(f.vaults[k].navPriceBps, PricePath(f, es, k))
    ensures EndOf(f.vaults[k].navPriceBps, PricePath(f, es, k)) == Run(f, es).vaults[k].navPriceBps
    decreases es
  {
    if es != [] {
      var g := Next(f, es[0]);
      PriceStep(f, es[0], k);
      NextInv(f, es[0]);
      PriceFollowsGuard(g, es[1..], k);
      var rest := PricePath(g, es[1..], k);
      if es[0].Program? && es[0].instruction.SetNav? && es[0].instruction.asset == k && Attempt(f, es[0]).Ok? {
        assert PricePath(f, es, k)[1..] == rest;
      }
    }
  }

  lemma PriceStep(f: Factory, e: Event, k: Pubkey)
    requires Inv(f) && k in f.vaults
    ensures k in Next(f, e).vaults
    ensures if e.Program? && e.instruction.SetNav? && e.instruction.asset == k && Attempt(f, e).Ok?
      then Next(f, e).vaults[k].navPriceBps == e.instruction.nav &&
        YieldGuard(f.vaults[k].navPriceBps, e.instruction.nav).Ok?
      else Next(f, e).vaults[k].navPriceBps == f.vaults[k].navPriceBps
  {
    NextMoves(f, e, k);
    VaultStays(f, e, k);
    if e.Program? && e.instruction.SetNav? && e.instruction.asset == k {
      YieldGuardAccepts(f.vaults[k].navPriceBps, e.instruction.nav);
      CustodyGuardAccepts(f.vaults[k].navPriceBps, e.instruction.nav);
    }
  }

  lemma VaultStays(f: Factory, e: Event, k: Pubkey)
    requires k in f.vaults
    ensures k in Next(f, e).vaults
    ensures e.Program? && e.instruction.RegisterAsset? && e.instruction.asset == k ==> Attempt(f, e).Err?
  {
    if Attempt(f, e).Ok? {
      match e
      case Outside(o) => SurroundingsKeepRegistry(f, o);
      case Program(c, i) =>
        if i.Deposit? || i.Redeem? { ExchangesKeepVaults(f, c, i); } else { OthersKeepVaults(f, c, i); }
    }
  }

  lemma ExchangesKeepVaults(f: Factory, c: Context, i: Instruction)
    requires (i.Deposit? || i.Redeem?) && Execute(f, c, i).Ok?
    ensures f.vaults.Keys <= Execute(f, c, i).value.vaults.Keys
  {}

  lemma OthersKeepVaults(f: Factory, c: Context, i: Instruction)
    requires !i.Deposit? && !i.Redeem? && Execute(f, c, i).Ok?
    ensures f.vaults.Keys <= Execute(f, c, i).value.vaults.Keys
    ensures i.RegisterAsset? ==> i.asset !in f.vaults
  {}

  /** After n accepted updates a vault's price is positive and within the n-fold bounds. */
  lemma PriceBounded(f: Factory, es: seq<Event>, k: Pubkey)
    requires Inv(f) && k in f.vaults
    ensures k in Run(f, es).vaults
    ensures var n, start, nav := |PricePath(f, es, k)|, f.vaults[k].navPriceBps, Run(f, es).vaults[k].navPriceBps;
      nav > 0 && start <= Pow(2, n) * nav <= Pow(3, n) * start
  {
    assert Sound(f, k);
    PriceFollowsGuard(f, es, k);
    UpdatesBounded(f.vaults[k].navPriceBps, PricePath(f, es, k));
  }
}
