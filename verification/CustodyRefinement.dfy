/** Every step of the factory keeps its invariant and posts one entry to each vault's abstract book. */
module CustodyRefinement {
  import opened Results
  import opened FixedPoint
  import opened TokenLedger
  import opened Compliance
  import opened CustodySpec
  import NavBook

  /** The accounts of one asset are in order, registered or not. */
  ghost predicate Sound(f: Factory, k: Pubkey) {
    if k in f.vaults then
      && k in f.ledgers && ShareMintAddress(k) in f.ledgers
      && f.ledgers[k].Owns(AssetVaultAddress(k), AssetTokenAddress(k))
      && f.vaults[k].navPriceBps > 0
      && f.vaults[k].totalDeposits <= f.ledgers[k].Balance(AssetTokenAddress(k))
      && f.ledgers[ShareMintAddress(k)].supply <= f.vaults[k].totalSupply
    else
      && ShareMintAddress(k) !in f.ledgers
      && (k in f.ledgers ==> AssetTokenAddress(k) !in f.ledgers[k].accounts)
  }

  ghost predicate LedgersValid(f: Factory) {
    forall mint <- f.ledgers :: f.ledgers[mint].Valid()
  }

  /** The registry lists exactly the vaults, each once, within the factory's bound. */
  ghost predicate RegistrySound(f: Factory) {
    && (forall k :: k in f.registered <==> k in f.vaults)
    && (forall i, j | 0 <= i < j < |f.registered| :: f.registered[i] != f.registered[j])
    && |f.registered| <= MAX_ASSETS
  }

  ghost predicate Inv(f: Factory) {
    LedgersValid(f) && RegistrySound(f) && WellKept(f.credentials) && forall k :: Sound(f, k)
  }

  lemma InitialInv(f: Factory)
    requires Initial(f)
    ensures Inv(f)
  {}

  // ---------------------------------------------------------------- abstraction

  /** The book of asset `k`. An unregistered asset has an empty book at the highest price, so that
      registering it is a price cut of nothing. */
  function BookOf(f: Factory, k: Pubkey): NavBook.Book {
    if k in f.vaults then
      NavBook.Book(LedgerOf(f, k).Balance(AssetTokenAddress(k)), f.vaults[k].totalDeposits, f.vaults[k].totalSupply,
                   f.vaults[k].navPriceBps)
    else NavBook.Book(0, 0, 0, U64_MAX)
  }

  /** Tokens that reach `k`'s account through ledger `mint` outside `k`'s own deposits. */
  function Received(k: Pubkey, mint: Pubkey, source: Option<Pubkey>, destination: Pubkey, amount: nat): NavBook.Entry {
    if mint == k && destination == AssetTokenAddress(k) && source != Some(destination)
    then NavBook.Donated(amount) else NavBook.Idle
  }

  /** What an event does to the book of `k`. Another vault's operation can only be a gift: when `k` is
      itself a share token, those shares may be minted or sent to `k`'s account. */
  function EntryOf(f: Factory, e: Event, k: Pubkey): NavBook.Entry {
    if Attempt(f, e).Err? then NavBook.Idle else
    match e
    case Program(_, Deposit(_, asset, _, destination, _, amount)) =>
      if asset == k then NavBook.Deposited(amount)
      else if asset in f.vaults && f.vaults[asset].navPriceBps > 0
      then Received(k, ShareMintAddress(asset), None, destination, SharesFor(amount, f.vaults[asset].navPriceBps))
      else NavBook.Idle
    case Program(_, Redeem(_, asset, _, destination, amount)) =>
      if asset == k then NavBook.Redeemed(amount, destination == AssetTokenAddress(k)) else NavBook.Idle
    case Program(_, TransferShares(_, asset, source, destination, amount)) =>
      Received(k, ShareMintAddress(asset), Some(source), destination, amount)
    case Program(_, SetNav(_, asset, nav)) => if asset == k then NavBook.Repriced(nav) else NavBook.Idle
    case Program(_, RegisterAsset(_, asset, nav, _, _, _)) => if asset == k then NavBook.Repriced(nav) else NavBook.Idle
    case Outside(MoveTokens(mint, _, source, destination, amount)) =>
      Received(k, mint, Some(source), destination, amount)
    case Outside(IssueTokens(mint, destination, amount)) => Received(k, mint, None, destination, amount)
    case _ => NavBook.Idle
  }

  function EntriesOf(f: Factory, es: seq<Event>, k: Pubkey): seq<NavBook.Entry>
    decreases es
  {
    if es == [] then [] else [EntryOf(f, es[0], k)] + EntriesOf(Next(f, es[0]), es[1..], k)
  }

  /** Recorded shares of `k` that are no longer in its mint's supply. */
  function BurnedOutside(f: Factory, k: Pubkey): int {
    if k in f.vaults then f.vaults[k].totalSupply - LedgerOf(f, ShareMintAddress(k)).supply else 0
  }

  function BurnOf(f: Factory, e: Event, k: Pubkey): nat {
    match e
    case Outside(BurnTokens(mint, _, _, amount)) =>
      if Attempt(f, e).Ok? && mint == ShareMintAddress(k) then amount else 0
    case _ => 0
  }

  /** The step from `f` to `g` posts `entry` to the book of `k`. */
  ghost predicate Moves(f: Factory, g: Factory, k: Pubkey, entry: NavBook.Entry, burned: nat) {
    && Sound(g, k)
    && NavBook.Enabled(BookOf(f, k), entry)
    && BookOf(g, k) == NavBook.Post(BookOf(f, k), entry)
    && BurnedOutside(g, k) == BurnedOutside(f, k) + burned
  }

  // ---------------------------------------------------------------- replacing one ledger

  /** Replacing the ledger of `mint` by one that keeps all accounts and their owners. */
  ghost predicate Replaces(f: Factory, mint: Pubkey, l: Ledger) {
    mint in f.ledgers && l.Valid() && f.ledgers[mint].accounts.Keys <= l.accounts.Keys &&
    (forall j <- f.ledgers[mint].accounts :: l.accounts[j].owner == f.ledgers[mint].accounts[j].owner) &&
    (forall j <- l.accounts :: j !in f.ledgers[mint].accounts ==> !j.AssetTokenAddress?)
  }

  lemma ReplaceSound(f: Factory, mint: Pubkey, l: Ledger, k: Pubkey)
    requires Sound(f, k) && Replaces(f, mint, l)
    requires mint == k ==> l.Balance(AssetTokenAddress(k)) >= f.ledgers[k].Balance(AssetTokenAddress(k))
    requires mint == ShareMintAddress(k) ==> l.supply <= f.ledgers[mint].supply
    ensures Sound(WithLedger(f, mint, l), k)
  {}

  lemma ReplaceMoves(f: Factory, mint: Pubkey, l: Ledger, k: Pubkey, received: nat, burned: nat)
    requires Sound(f, k) && Replaces(f, mint, l)
    requires mint == k ==> l.Balance(AssetTokenAddress(k)) == f.ledgers[k].Balance(AssetTokenAddress(k)) + received
    requires mint != k ==> received == 0
    requires k !in f.vaults ==> received == 0
    requires mint == ShareMintAddress(k) ==> l.supply == f.ledgers[mint].supply - burned
    requires mint != ShareMintAddress(k) ==> burned == 0
    ensures Moves(f, WithLedger(f, mint, l), k, NavBook.Donated(received), burned)
    ensures received == 0 ==> Moves(f, WithLedger(f, mint, l), k, NavBook.Idle, burned)
  {
    ReplaceSound(f, mint, l, k);
    var g := WithLedger(f, mint, l);
    assert LedgerOf(g, k).Balance(AssetTokenAddress(k)) == LedgerOf(f, k).Balance(AssetTokenAddress(k)) + received ||
      k !in f.vaults;
    assert LedgerOf(g, ShareMintAddress(k)).supply == LedgerOf(f, ShareMintAddress(k)).supply - burned ||
      k !in f.vaults;
  }

  /** Steps one after the other; the first posts nothing. */
  lemma {:induction false} IdleThen(f: Factory, g: Factory, h: Factory, k: Pubkey, entry: NavBook.Entry, burned: nat)
    requires Moves(f, g, k, NavBook.Idle, 0) && Moves(g, h, k, entry, burned)
    ensures Moves(f, h, k, entry, burned)
  {
    assert BookOf(g, k) == BookOf(f, k);
  }

  lemma {:induction false} ThenIdle(f: Factory, g: Factory, h: Factory, k: Pubkey, entry: NavBook.Entry, burned: nat)
    requires Moves(f, g, k, entry, burned) && Moves(g, h, k, NavBook.Idle, 0)
    ensures Moves(f, h, k, entry, burned)
  {
    assert BookOf(g, k) == NavBook.Post(BookOf(f, k), entry);
    assert BookOf(h, k) == BookOf(g, k);
  }

  /** Changing one vault's record, or the compliance data, does not touch another vault. */
  lemma OtherVaultIdle(f: Factory, g: Factory, k: Pubkey)
    requires Sound(f, k) && g.ledgers == f.ledgers
    requires k in f.vaults <==> k in g.vaults
    requires k in f.vaults ==> f.vaults[k] == g.vaults[k]
    ensures Moves(f, g, k, NavBook.Idle, 0)
  {}

  // ---------------------------------------------------------------- one token movement

  lemma TransferMoves(f: Factory, mint: Pubkey, source: Pubkey, destination: Pubkey, authority: Pubkey, amount: u64,
      k: Pubkey)
    requires LedgersValid(f) && Sound(f, k) && mint in f.ledgers
    requires f.ledgers[mint].Transfer(source, destination, authority, amount).Ok?
    requires mint == k ==> source != AssetTokenAddress(k)
    ensures var g := WithLedger(f, mint, f.ledgers[mint].Transfer(source, destination, authority, amount).value);
      Moves(f, g, k, Received(k, mint, Some(source), destination, amount), 0) && LedgersValid(g)
  {
    TransferEffect(f.ledgers[mint], source, destination, authority, amount);
    MovedMoves(f, mint, f.ledgers[mint].Transfer(source, destination, authority, amount).value, source, destination,
      amount, k);
  }

  lemma MovedMoves(f: Factory, mint: Pubkey, l: Ledger, source: Pubkey, destination: Pubkey, amount: u64, k: Pubkey)
    requires LedgersValid(f) && Sound(f, k) && mint in f.ledgers && l.Valid()
    requires Moved(f.ledgers[mint], l, source, destination, amount)
    requires mint == k ==> source != AssetTokenAddress(k)
    ensures Moves(f, WithLedger(f, mint, l), k, Received(k, mint, Some(source), destination, amount), 0) &&
      LedgersValid(WithLedger(f, mint, l))
  {
    ReplaceMoves(f, mint, l, k, if mint == k && destination == AssetTokenAddress(k) then amount else 0, 0);
  }

  lemma MintMoves(f: Factory, mint: Pubkey, destination: Pubkey, amount: u64, k: Pubkey)
    requires LedgersValid(f) && Sound(f, k) && mint in f.ledgers && mint != ShareMintAddress(k)
    requires f.ledgers[mint].MintTo(destination, amount).Ok?
    ensures var g := WithLedger(f, mint, f.ledgers[mint].MintTo(destination, amount).value);
      Moves(f, g, k, Received(k, mint, None, destination, amount), 0) && LedgersValid(g)
  {
    var minted := f.ledgers[mint].MintTo(destination, amount).value;
    MintEffect(f.ledgers[mint], destination, amount);
    var received := if mint == k && destination == AssetTokenAddress(k) then amount else 0;
    ReplaceMoves(f, mint, minted, k, received, 0);
  }

  lemma BurnMoves(f: Factory, mint: Pubkey, source: Pubkey, authority: Pubkey, amount: u64, k: Pubkey)
    requires LedgersValid(f) && Sound(f, k) && mint in f.ledgers
    requires f.ledgers[mint].Burn(source, authority, amount).Ok?
    requires mint == k ==> source != AssetTokenAddress(k)
    ensures var g := WithLedger(f, mint, f.ledgers[mint].Burn(source, authority, amount).value);
      Moves(f, g, k, NavBook.Idle, if mint == ShareMintAddress(k) then amount else 0) && LedgersValid(g)
  {
    BurnEffect(f.ledgers[mint], source, authority, amount);
    ReplaceMoves(f, mint, f.ledgers[mint].Burn(source, authority, amount).value, k, 0,
      if mint == ShareMintAddress(k) then amount else 0);
  }

  /** Only a vault's own address can draw on its account. */
  lemma VaultAccountGuarded(f: Factory, source: Pubkey, authority: Pubkey, k: Pubkey)
    requires Sound(f, k) && k in f.ledgers && f.ledgers[k].Owns(authority, source) && authority != AssetVaultAddress(k)
    ensures source != AssetTokenAddress(k)
  {}

  // ---------------------------------------------------------------- one lemma per kind of step

  /** A deposit seen from another asset: at most the new shares arrive as a gift. */
  lemma DepositMovesOther(f: Factory, depositor: Pubkey, asset: Pubkey, source: Pubkey, destination: Pubkey,
      amount: u64, k: Pubkey)
    requires LedgersValid(f) && Sound(f, asset) && Sound(f, k) && k != asset && asset in f.vaults
    requires DepositExchange(f, depositor, asset, source, destination, amount).Ok?
    ensures Moves(f, DepositExchange(f, depositor, asset, source, destination, amount).value, k,
      Received(k, ShareMintAddress(asset), None, destination, SharesFor(amount, f.vaults[asset].navPriceBps)), 0)
  {
    var shares: u64 := CheckedShares(amount, f.vaults[asset].navPriceBps).value;
    var share := ShareMintAddress(asset);
    TransferMoves(f, asset, source, AssetTokenAddress(asset), depositor, amount, k);
    var g := WithLedger(f, asset, f.ledgers[asset].Transfer(source, AssetTokenAddress(asset), depositor, amount).value);
    MintMoves(g, share, destination, shares, k);
    var h := WithLedger(g, share, g.ledgers[share].MintTo(destination, shares).value);
    var entry := Received(k, share, None, destination, shares);
    IdleThen(f, g, h, k, entry, 0);
    var t := DepositExchange(f, depositor, asset, source, destination, amount).value;
    OtherVaultIdle(h, t, k);
    ThenIdle(f, h, t, k, entry, 0);
  }

  /** The numbers of a deposit, given what it did to the two ledgers. */
  lemma DepositBook(f: Factory, t: Factory, asset: Pubkey, amount: u64, shares: u64)
    requires Sound(f, asset) && asset in f.vaults && shares == SharesFor(amount, f.vaults[asset].navPriceBps)
    requires f.vaults[asset].totalDeposits + amount <= U64_MAX && f.vaults[asset].totalSupply + shares <= U64_MAX
    requires asset in t.ledgers && ShareMintAddress(asset) in t.ledgers
    requires t.vaults == f.vaults[asset := f.vaults[asset].(
      totalDeposits := f.vaults[asset].totalDeposits + amount, totalSupply := f.vaults[asset].totalSupply + shares)]
    requires t.ledgers[asset].Owns(AssetVaultAddress(asset), AssetTokenAddress(asset))
    requires t.ledgers[asset].Balance(AssetTokenAddress(asset)) ==
      f.ledgers[asset].Balance(AssetTokenAddress(asset)) + amount
    requires t.ledgers[ShareMintAddress(asset)].supply == f.ledgers[ShareMintAddress(asset)].supply + shares
    ensures Moves(f, t, asset, NavBook.Deposited(amount), 0)
  {}

  /** The parts of an accepted deposit. */
  lemma DepositShape(f: Factory, depositor: Pubkey, asset: Pubkey, source: Pubkey, destination: Pubkey, amount: u64)
    returns (shares: u64, assets: Ledger, minted: Ledger)
    requires Sound(f, asset) && asset in f.vaults
    requires DepositExchange(f, depositor, asset, source, destination, amount).Ok?
    ensures shares == SharesFor(amount, f.vaults[asset].navPriceBps)
    ensures f.ledgers[asset].Transfer(source, AssetTokenAddress(asset), depositor, amount) == Ok(assets)
    ensures f.ledgers[ShareMintAddress(asset)].MintTo(destination, shares) == Ok(minted)
    ensures f.vaults[asset].totalDeposits + amount <= U64_MAX && f.vaults[asset].totalSupply + shares <= U64_MAX
    ensures var t, v := DepositExchange(f, depositor, asset, source, destination, amount).value, f.vaults[asset];
      && t.vaults == f.vaults[asset :=
         v.(totalDeposits := v.totalDeposits + amount, totalSupply := v.totalSupply + shares)]
      && t.ledgers == f.ledgers[asset := assets][ShareMintAddress(asset) := minted]
  {
    shares := CheckedShares(amount, f.vaults[asset].navPriceBps).value;
    assets := f.ledgers[asset].Transfer(source, AssetTokenAddress(asset), depositor, amount).value;
    minted := f.ledgers[ShareMintAddress(asset)].MintTo(destination, shares).value;
  }

  /** What a deposit does to the two ledgers and to the vault's record. */
  lemma DepositLedgers(f: Factory, depositor: Pubkey, asset: Pubkey, source: Pubkey, destination: Pubkey, amount: u64)
    requires LedgersValid(f) && Sound(f, asset) && asset in f.vaults && depositor.Key?
    requires DepositExchange(f, depositor, asset, source, destination, amount).Ok?
    ensures var t, v, share := DepositExchange(f, depositor, asset, source, destination, amount).value, f.vaults[asset],
      ShareMintAddress(asset);
      var shares := SharesFor(amount, v.navPriceBps);
      && shares <= U64_MAX && v.totalDeposits + amount <= U64_MAX && v.totalSupply + shares <= U64_MAX
      && t.vaults == f.vaults[asset :=
         v.(totalDeposits := v.totalDeposits + amount, totalSupply := v.totalSupply + shares)]
      && asset in t.ledgers && share in t.ledgers &&
         t.ledgers == f.ledgers[asset := t.ledgers[asset]][share := t.ledgers[share]]
      && t.ledgers[asset].Valid() && t.ledgers[share].Valid()
      && t.ledgers[asset].Owns(AssetVaultAddress(asset), AssetTokenAddress(asset))
      && t.ledgers[asset].Balance(AssetTokenAddress(asset)) ==
         f.ledgers[asset].Balance(AssetTokenAddress(asset)) + amount
      && t.ledgers[share].supply == f.ledgers[share].supply + shares
  {
    var shares, assets, minted := DepositShape(f, depositor, asset, source, destination, amount);
    VaultAccountGuarded(f, source, depositor, asset);
    TransferEffect(f.ledgers[asset], source, AssetTokenAddress(asset), depositor, amount);
    MintEffect(f.ledgers[ShareMintAddress(asset)], destination, shares);
  }

  lemma DepositMovesOwn(f: Factory, depositor: Pubkey, asset: Pubkey, source: Pubkey, destination: Pubkey, amount: u64)
    requires LedgersValid(f) && Sound(f, asset) && asset in f.vaults && depositor.Key?
    requires DepositExchange(f, depositor, asset, source, destination, amount).Ok?
    ensures var t := DepositExchange(f, depositor, asset, source, destination, amount).value;
      Moves(f, t, asset, NavBook.Deposited(amount), 0) && LedgersValid(t)
  {
    DepositLedgers(f, depositor, asset, source, destination, amount);
    DepositBook(f, DepositExchange(f, depositor, asset, source, destination, amount).value, asset, amount,
      SharesFor(amount, f.vaults[asset].navPriceBps));
  }

  lemma DepositMoves(f: Factory, c: Context, depositor: Pubkey, asset: Pubkey, source: Pubkey, destination: Pubkey,
      record: Option<RecordId>, amount: u64, k: Pubkey)
    requires LedgersValid(f) && Sound(f, asset) && Sound(f, k)
    requires DepositStep(f, c, depositor, asset, source, destination, record, amount).Ok?
    ensures var t := DepositStep(f, c, depositor, asset, source, destination, record, amount).value;
      && Moves(f, t, k, EntryOf(f, Program(c, Deposit(depositor, asset, source, destination, record, amount)), k), 0)
      && LedgersValid(t)
  {
    var step := DepositStep(f, c, depositor, asset, source, destination, record, amount);
    var g := f.(records := TravelRuleGate(f, f.vaults[asset], depositor, record, amount).value);
    assert step == DepositExchange(g, depositor, asset, source, destination, amount);
    DepositMovesOwn(g, depositor, asset, source, destination, amount);
    var entry := EntryOf(f, Program(c, Deposit(depositor, asset, source, destination, record, amount)), k);
    if k == asset {
      assert entry == NavBook.Deposited(amount);
    } else {
      DepositMovesOther(g, depositor, asset, source, destination, amount, k);
      assert entry ==
        Received(k, ShareMintAddress(asset), None, destination, SharesFor(amount, f.vaults[asset].navPriceBps));
    }
  }

  /** The numbers of a redemption, given what it did to the two ledgers. */
  lemma RedemptionBook(f: Factory, t: Factory, asset: Pubkey, amount: u64, payout: u64, kept: bool)
    requires Sound(f, asset) && asset in f.vaults && payout == AssetsFor(amount, f.vaults[asset].navPriceBps)
    requires amount <= f.vaults[asset].totalSupply && asset in t.ledgers && ShareMintAddress(asset) in t.ledgers
    requires t.vaults == f.vaults[asset := f.vaults[asset].(
      totalDeposits := SaturatingSub(f.vaults[asset].totalDeposits, payout),
      totalSupply := f.vaults[asset].totalSupply - amount)]
    requires t.ledgers[asset].Owns(AssetVaultAddress(asset), AssetTokenAddress(asset))
    requires payout <= LedgerOf(f, asset).Balance(AssetTokenAddress(asset))
    requires t.ledgers[asset].Balance(AssetTokenAddress(asset)) ==
      f.ledgers[asset].Balance(AssetTokenAddress(asset)) - if kept then 0 else payout
    requires t.ledgers[ShareMintAddress(asset)].supply == f.ledgers[ShareMintAddress(asset)].supply - amount
    ensures Moves(f, t, asset, NavBook.Redeemed(amount, kept), 0)
  {}

  /** The parts of an accepted redemption. */
  lemma RedeemShape(f: Factory, redeemer: Pubkey, asset: Pubkey, source: Pubkey, destination: Pubkey, amount: u64,
      payout: u64) returns (burned: Ledger, assets: Ledger)
    requires asset in f.vaults && asset in f.ledgers && ShareMintAddress(asset) in f.ledgers
    requires RedeemExchange(f, redeemer, asset, source, destination, amount, payout).Ok?
    ensures f.ledgers[ShareMintAddress(asset)].Burn(source, redeemer, amount) == Ok(burned)
    ensures f.ledgers[asset].Transfer(AssetTokenAddress(asset), destination, AssetVaultAddress(asset), payout) ==
      Ok(assets)
    ensures amount <= f.vaults[asset].totalSupply
    ensures RedeemExchange(f, redeemer, asset, source, destination, amount, payout).value == f.(
      vaults := f.vaults[asset := f.vaults[asset].(
        totalDeposits := SaturatingSub(f.vaults[asset].totalDeposits, payout),
        totalSupply := f.vaults[asset].totalSupply - amount)],
      ledgers := f.ledgers[ShareMintAddress(asset) := burned][asset := assets])
  {
    burned := f.ledgers[ShareMintAddress(asset)].Burn(source, redeemer, amount).value;
    assets := f.ledgers[asset].Transfer(AssetTokenAddress(asset), destination, AssetVaultAddress(asset), payout).value;
  }

  lemma RedeemExchangeOwn(f: Factory, redeemer: Pubkey, asset: Pubkey, source: Pubkey, destination: Pubkey, amount: u64,
      payout: u64)
    requires LedgersValid(f) && Sound(f, asset) && asset in f.vaults &&
      payout == AssetsFor(amount, f.vaults[asset].navPriceBps)
    requires RedeemExchange(f, redeemer, asset, source, destination, amount, payout).Ok?
    ensures var t := RedeemExchange(f, redeemer, asset, source, destination, amount, payout).value;
      Moves(f, t, asset, NavBook.Redeemed(amount, destination == AssetTokenAddress(asset)), 0) && LedgersValid(t)
  {
    var t := RedeemExchange(f, redeemer, asset, source, destination, amount, payout).value;
    var burned, assets := RedeemShape(f, redeemer, asset, source, destination, amount, payout);
    BurnEffect(f.ledgers[ShareMintAddress(asset)], source, redeemer, amount);
    TransferEffect(f.ledgers[asset], AssetTokenAddress(asset), destination, AssetVaultAddress(asset), payout);
    RedemptionBook(f, t, asset, amount, payout, destination == AssetTokenAddress(asset));
  }

  lemma RedeemMovesOwn(f: Factory, redeemer: Pubkey, asset: Pubkey, source: Pubkey, destination: Pubkey, amount: u64)
    requires LedgersValid(f) && Sound(f, asset)
    requires RedeemStep(f, redeemer, asset, source, destination, amount).Ok?
    ensures var t := RedeemStep(f, redeemer, asset, source, destination, amount).value;
      Moves(f, t, asset, NavBook.Redeemed(amount, destination == AssetTokenAddress(asset)), 0) && LedgersValid(t)
  {
    CheckedAssetsExact(amount, f.vaults[asset].navPriceBps);
    RedeemExchangeOwn(f, redeemer, asset, source, destination, amount, Payable(f, asset, amount).value);
  }

  lemma RedeemExchangeOther(f: Factory, redeemer: Pubkey, asset: Pubkey, source: Pubkey, destination: Pubkey,
      amount: u64, payout: u64, k: Pubkey)
    requires LedgersValid(f) && Sound(f, asset) && Sound(f, k) && k != asset && redeemer.Key? && asset in f.vaults
    requires RedeemExchange(f, redeemer, asset, source, destination, amount, payout).Ok?
    ensures Moves(f, RedeemExchange(f, redeemer, asset, source, destination, amount, payout).value, k, NavBook.Idle, 0)
  {
    var share, vault := ShareMintAddress(asset), AssetVaultAddress(asset);
    if k in f.ledgers && share == k { VaultAccountGuarded(f, source, redeemer, k); }
    BurnMoves(f, share, source, redeemer, amount, k);
    var g := WithLedger(f, share, f.ledgers[share].Burn(source, redeemer, amount).value);
    TransferMoves(g, asset, AssetTokenAddress(asset), destination, vault, payout, k);
    var h := WithLedger(g, asset,
      g.ledgers[asset].Transfer(AssetTokenAddress(asset), destination, vault, payout).value);
    IdleThen(f, g, h, k, NavBook.Idle, 0);
    var t := RedeemExchange(f, redeemer, asset, source, destination, amount, payout).value;
    OtherVaultIdle(h, t, k);
    ThenIdle(f, h, t, k, NavBook.Idle, 0);
  }

  lemma RedeemMovesOther(f: Factory, redeemer: Pubkey, asset: Pubkey, source: Pubkey, destination: Pubkey, amount: u64,
      k: Pubkey)
    requires LedgersValid(f) && Sound(f, asset) && Sound(f, k) && k != asset
    requires RedeemStep(f, redeemer, asset, source, destination, amount).Ok?
    ensures Moves(f, RedeemStep(f, redeemer, asset, source, destination, amount).value, k, NavBook.Idle, 0)
  {
    RedeemExchangeOther(f, redeemer, asset, source, destination, amount, Payable(f, asset, amount).value, k);
  }

  lemma TransferSharesMoves(f: Factory, c: Context, sender: Pubkey, asset: Pubkey, source: Pubkey, destination: Pubkey,
      amount: u64, k: Pubkey)
    requires LedgersValid(f) && Sound(f, asset) && Sound(f, k)
    requires TransferSharesStep(f, c, sender, asset, source, destination, amount).Ok?
    ensures var t := TransferSharesStep(f, c, sender, asset, source, destination, amount).value;
      Moves(f, t, k, Received(k, ShareMintAddress(asset), Some(source), destination, amount), 0) && LedgersValid(t)
  {
    var mint := ShareMintAddress(asset);
    if mint == k { VaultAccountGuarded(f, source, sender, k); }
    TransferMoves(f, mint, source, destination, sender, amount, k);
  }

  lemma RegisterMoves(f: Factory, signer: Pubkey, asset: Pubkey, nav: u64, minDeposit: u64, maxDeposit: u64,
      travelRuleRequired: bool, k: Pubkey)
    requires LedgersValid(f) && Sound(f, asset) && Sound(f, k)
    requires RegisterAssetStep(f, signer, asset, nav, minDeposit, maxDeposit, travelRuleRequired).Ok?
    ensures var t := RegisterAssetStep(f, signer, asset, nav, minDeposit, maxDeposit, travelRuleRequired).value;
      Moves(f, t, k, if asset == k then NavBook.Repriced(nav) else NavBook.Idle, 0) && LedgersValid(t)
  {
    OpenEffect(f.ledgers[asset], AssetTokenAddress(asset), AssetVaultAddress(asset));
    assert Ledger(map[], 0).Valid();
  }

  lemma AdminMoves(f: Factory, c: Context, i: Instruction, k: Pubkey)
    requires Sound(f, k) && Execute(f, c, i).Ok?
    requires i.SetNav? || i.PauseVault? || i.InitTravelRule? || i.IssueCredential? || i.RevokeCredential?
    ensures Moves(f, Execute(f, c, i).value, k, EntryOf(f, Program(c, i), k), 0)
  {}

  lemma OpenAccountMoves(f: Factory, mint: Pubkey, key: Pubkey, owner: Pubkey, k: Pubkey)
    requires LedgersValid(f) && Sound(f, k) && Happen(f, OpenAccount(mint, key, owner)).Ok?
    ensures var t := Happen(f, OpenAccount(mint, key, owner)).value;
      Moves(f, t, k, NavBook.Idle, 0) && LedgersValid(t)
  {
    OpenEffect(f.ledgers[mint], key, owner);
    ReplaceMoves(f, mint, f.ledgers[mint].Open(key, owner).value, k, 0, 0);
  }

  lemma HappenMoves(f: Factory, o: Surroundings, k: Pubkey)
    requires LedgersValid(f) && Sound(f, k) && Happen(f, o).Ok?
    ensures Moves(f, Happen(f, o).value, k, EntryOf(f, Outside(o), k), BurnOf(f, Outside(o), k))
    ensures LedgersValid(Happen(f, o).value)
  {
    match o
    case CreateMint(mint) => assert Ledger(map[], 0).Valid();
    case OpenAccount(mint, key, owner) => OpenAccountMoves(f, mint, key, owner, k);
    case MoveTokens(mint, signer, source, destination, amount) =>
      if mint == k { VaultAccountGuarded(f, source, signer, k); }
      TransferMoves(f, mint, source, destination, signer, amount, k);
    case BurnTokens(mint, signer, source, amount) =>
      if mint == k { VaultAccountGuarded(f, source, signer, k); }
      BurnMoves(f, mint, source, signer, amount, k);
    case IssueTokens(mint, destination, amount) =>
      MintMoves(f, mint, destination, amount, k);
  }

  lemma ExecuteMoves(f: Factory, c: Context, i: Instruction, k: Pubkey)
    requires LedgersValid(f) && Execute(f, c, i).Ok? && forall j :: Sound(f, j)
    ensures Moves(f, Execute(f, c, i).value, k, EntryOf(f, Program(c, i), k), 0)
    ensures LedgersValid(Execute(f, c, i).value)
  {
    match i
    case RegisterAsset(signer, asset, nav, minDeposit, maxDeposit, travelRuleRequired) =>
      RegisterMoves(f, signer, asset, nav, minDeposit, maxDeposit, travelRuleRequired, k);
    case Deposit(depositor, asset, source, destination, record, amount) =>
      DepositMoves(f, c, depositor, asset, source, destination, record, amount, k);
    case Redeem(redeemer, asset, source, destination, amount) =>
      RedeemMovesOwn(f, redeemer, asset, source, destination, amount);
      if k != asset { RedeemMovesOther(f, redeemer, asset, source, destination, amount, k); }
    case TransferShares(sender, asset, source, destination, amount) =>
      TransferSharesMoves(f, c, sender, asset, source, destination, amount, k);
    case _ => AdminMoves(f, c, i, k);
  }

  /** The refinement theorem for one event and one asset; every other asset's entry is a gift at most. */
  lemma NextMoves(f: Factory, e: Event, k: Pubkey)
    requires LedgersValid(f) && forall j :: Sound(f, j)
    ensures Moves(f, Next(f, e), k, EntryOf(f, e, k), BurnOf(f, e, k))
    ensures LedgersValid(Next(f, e))
  {
    if Attempt(f, e).Ok? {
      match e
      case Program(c, i) => ExecuteMoves(f, c, i, k);
      case Outside(o) => HappenMoves(f, o, k);
    }
  }

  // ---------------------------------------------------------------- invariant

  lemma RegistrationKeepsRegistry(f: Factory, signer: Pubkey, asset: Pubkey, nav: u64, minDeposit: u64, maxDeposit: u64,
      travelRuleRequired: bool)
    requires RegistrySound(f)
    requires RegisterAssetStep(f, signer, asset, nav, minDeposit, maxDeposit, travelRuleRequired).Ok?
    ensures RegistrySound(RegisterAssetStep(f, signer, asset, nav, minDeposit, maxDeposit, travelRuleRequired).value)
  {}

  lemma SameRegistry(f: Factory, g: Factory)
    requires RegistrySound(f) && g.registered == f.registered && g.vaults.Keys == f.vaults.Keys
    ensures RegistrySound(g)
  {
    assert forall k :: k in f.vaults <==> k in f.vaults.Keys;
    assert forall k :: k in g.vaults <==> k in g.vaults.Keys;
  }

  lemma SurroundingsKeepRegistry(f: Factory, o: Surroundings)
    requires Happen(f, o).Ok?
    ensures Happen(f, o).value.(ledgers := f.ledgers) == f
  {}

  lemma OthersKeepRegistry(f: Factory, c: Context, i: Instruction)
    requires WellKept(f.credentials) && Execute(f, c, i).Ok? && !i.RegisterAsset?
    ensures var g := Execute(f, c, i).value;
      g.registered == f.registered && g.vaults.Keys == f.vaults.Keys && WellKept(g.credentials)
  {
    var g := Execute(f, c, i).value;
    if i.IssueCredential? || i.RevokeCredential? {
      assert g.vaults == f.vaults;
    } else {
      assert g.credentials == f.credentials;
    }
  }

  lemma RegistryKept(f: Factory, e: Event)
    requires RegistrySound(f) && WellKept(f.credentials)
    ensures RegistrySound(Next(f, e)) && WellKept(Next(f, e).credentials)
  {
    if Attempt(f, e).Ok? {
      match e
      case Outside(o) =>
        SurroundingsKeepRegistry(f, o);
        SameRegistry(f, Next(f, e));
      case Program(_, RegisterAsset(signer, asset, nav, minDeposit, maxDeposit, travelRuleRequired)) =>
        RegistrationKeepsRegistry(f, signer, asset, nav, minDeposit, maxDeposit, travelRuleRequired);
      case Program(c, i) =>
        OthersKeepRegistry(f, c, i);
        SameRegistry(f, Next(f, e));
    }
  }

  lemma NextInv(f: Factory, e: Event)
    requires Inv(f)
    ensures Inv(Next(f, e))
  {
    RegistryKept(f, e);
    forall k
      ensures Sound(Next(f, e), k) && LedgersValid(Next(f, e))
    {
      NextMoves(f, e, k);
    }
    NextMoves(f, e, Default);
  }

  // ---------------------------------------------------------------- whole runs

  function Burns(f: Factory, es: seq<Event>, k: Pubkey): nat
    decreases es
  {
    if es == [] then 0 else BurnOf(f, es[0], k) + Burns(Next(f, es[0]), es[1..], k)
  }

  /** Every run of the factory, in any surroundings and with any credentials, is for each asset a run
      of the abstract book. */
  lemma {:induction false} RunRefines(f: Factory, es: seq<Event>, k: Pubkey)
    requires Inv(f)
    ensures Inv(Run(f, es))
    ensures NavBook.AllEnabled(BookOf(f, k), EntriesOf(f, es, k))
    ensures BookOf(Run(f, es), k) == NavBook.Run(BookOf(f, k), EntriesOf(f, es, k))
    ensures BurnedOutside(Run(f, es), k) == BurnedOutside(f, k) + Burns(f, es, k)
    decreases es
  {
    if es != [] {
      NextInv(f, es[0]);
      NextMoves(f, es[0], k);
      RunRefines(Next(f, es[0]), es[1..], k);
      assert EntriesOf(f, es, k)[1..] == EntriesOf(Next(f, es[0]), es[1..], k);
    }
  }
}
