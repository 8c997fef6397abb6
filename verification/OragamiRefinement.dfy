/** Every step of the yield vault keeps its invariant and posts one entry to the abstract book. */
module OragamiRefinement {
  import opened Results
  import opened FixedPoint
  import opened TokenLedger
  import opened Compliance
  import opened YieldAccrual
  import opened OragamiSpec
  import NavBook

  /** The vault's books are in order. */
  ghost predicate Inv(s: State) {
    && s.usdc.Valid() && s.cvault.Valid() && s.trade.Valid()
    && s.usdc.Owns(VaultState, VaultToken)
    && s.vault.navPriceBps > 0
    && s.vault.totalDeposits <= s.usdc.Balance(VaultToken)
    && s.cvault.supply + s.trade.supply <= s.vault.totalSupply
    && s.vault.lastYieldClaim <= s.now
    && (s.attestation.Some? ==> s.attestation.value.attestedAt <= s.now)
    && (s.mandate.Some? ==> s.mandate.value.minLiquidityBufferBps + s.mandate.value.maxUsxAllocationBps <= 10_000)
    && WellKept(s.credentials)
  }

  lemma InitialInv(s: State)
    requires Initial(s)
    ensures Inv(s) && BookOf(s) == NavBook.Book(0, 0, 0, NAV_BPS_DENOMINATOR) && BurnedOutside(s) == 0
  {
    assert s.cvault.accounts == map[];
  }

  // ---------------------------------------------------------------- abstraction

  function BookOf(s: State): NavBook.Book {
    NavBook.Book(s.usdc.Balance(VaultToken), s.vault.totalDeposits, s.vault.totalSupply, s.vault.navPriceBps)
  }

  /** What an event does to the book: nothing if it fails. */
  function EntryOf(s: State, e: Event): NavBook.Entry {
    if Attempt(s, e).Err? then NavBook.Idle else
    match e
    case Program(Deposit(_, _, _, _, amount)) => NavBook.Deposited(amount)
    case Program(Redeem(_, _, destination, amount)) => NavBook.Redeemed(amount, destination == VaultToken)
    case Program(RedeemTradeable(_, _, _, destination, amount, toCvault)) =>
      if toCvault then NavBook.Idle else NavBook.Redeemed(amount, destination == VaultToken)
    case Program(SetNav(_, nav)) => NavBook.Repriced(nav)
    case Outside(MoveTokens(m, _, source, destination, amount)) =>
      if m == Usdc && destination == VaultToken && source != VaultToken then NavBook.Donated(amount) else NavBook.Idle
    case Outside(IssueUsdc(destination, amount)) =>
      if destination == VaultToken then NavBook.Donated(amount) else NavBook.Idle
    case _ => NavBook.Idle
  }

  function EntriesOf(s: State, es: seq<Event>): seq<NavBook.Entry>
    decreases es
  {
    if es == [] then [] else [EntryOf(s, es[0])] + EntriesOf(Next(s, es[0]), es[1..])
  }

  /** Recorded shares that exist in neither mint. */
  function BurnedOutside(s: State): int {
    s.vault.totalSupply - s.cvault.supply - s.trade.supply
  }

  /** Shares that a holder burns through the token program, outside any redemption. */
  function BurnOf(s: State, e: Event): nat {
    match e
    case Outside(BurnTokens(m, _, _, amount)) => if Attempt(s, e).Ok? && m != Usdc then amount else 0
    case _ => 0
  }

  /** A step from `s` to `t` keeps the invariant, posts `entry` to the book, and changes the
      burned-outside total by `burned`. */
  ghost predicate Moves(s: State, t: State, entry: NavBook.Entry, burned: nat) {
    && Inv(t)
    && NavBook.Enabled(BookOf(s), entry)
    && BookOf(t) == NavBook.Post(BookOf(s), entry)
    && BurnedOutside(t) == BurnedOutside(s) + burned
  }

  // ---------------------------------------------------------------- one lemma per kind of step

  /** The state after `amount` came in against `shares`. */
  function Credited(s: State, usdc: Ledger, cvault: Ledger, records: Records, amount: u64, shares: u64): State
    requires s.vault.totalDeposits + amount <= U64_MAX && s.vault.totalSupply + shares <= U64_MAX
  {
    s.(vault := s.vault.(totalDeposits := s.vault.totalDeposits + amount, totalSupply := s.vault.totalSupply + shares),
       usdc := usdc, cvault := cvault, records := records)
  }

  lemma CreditMoves(s: State, usdc: Ledger, cvault: Ledger, records: Records, amount: u64, shares: u64)
    requires Inv(s) && shares == SharesFor(amount, s.vault.navPriceBps)
    requires s.vault.totalDeposits + amount <= U64_MAX && s.vault.totalSupply + shares <= U64_MAX
    requires usdc.Valid() && usdc.Owns(VaultState, VaultToken)
    requires usdc.Balance(VaultToken) == s.usdc.Balance(VaultToken) + amount
    requires cvault.Valid() && cvault.supply == s.cvault.supply + shares
    ensures Moves(s, Credited(s, usdc, cvault, records, amount, shares), NavBook.Deposited(amount), 0)
  {}

  lemma DepositMoves(s: State, payer: Pubkey, payerUsdc: Pubkey, payerCvault: Pubkey, record: Option<RecordId>,
      amount: u64)
    requires Inv(s) && DepositStep(s, payer, payerUsdc, payerCvault, record, amount).Ok?
    ensures Moves(s, DepositStep(s, payer, payerUsdc, payerCvault, record, amount).value, NavBook.Deposited(amount), 0)
  {
    var shares: u64 := CheckedShares(amount, s.vault.navPriceBps).value;
    var t := DepositStep(s, payer, payerUsdc, payerCvault, record, amount).value;
    TransferEffect(s.usdc, payerUsdc, VaultToken, payer, amount);
    MintEffect(s.cvault, payerCvault, shares);
    CreditMoves(s, t.usdc, t.cvault, t.records, amount, shares);
  }

  lemma PayoutEffect(s: State, destination: Pubkey, payout: u64)
    requires Inv(s) && s.usdc.Transfer(VaultToken, destination, VaultState, payout).Ok?
    ensures var usdc := s.usdc.Transfer(VaultToken, destination, VaultState, payout).value;
      && usdc.Valid() && usdc.Owns(VaultState, VaultToken)
      && payout <= s.usdc.Balance(VaultToken)
      && usdc.Balance(VaultToken) == s.usdc.Balance(VaultToken) - if destination == VaultToken then 0 else payout
  {
    TransferEffect(s.usdc, VaultToken, destination, VaultState, payout);
  }

  lemma RedeemMoves(s: State, redeemer: Pubkey, source: Pubkey, destination: Pubkey, amount: u64)
    requires Inv(s) && RedeemStep(s, redeemer, source, destination, amount).Ok?
    ensures Moves(s, RedeemStep(s, redeemer, source, destination, amount).value,
                  NavBook.Redeemed(amount, destination == VaultToken), 0)
  {
    PayoutEffect(s, destination, CheckedAssets(amount, s.vault.navPriceBps).value);
    BurnEffect(s.cvault, source, redeemer, amount);
  }

  lemma ConvertMoves(s: State, user: Pubkey, source: Pubkey, destination: Pubkey, amount: u64)
    requires Inv(s) && ConvertStep(s, user, source, destination, amount).Ok?
    ensures Moves(s, ConvertStep(s, user, source, destination, amount).value, NavBook.Idle, 0)
  {
    BurnEffect(s.cvault, source, user, amount);
    MintEffect(s.trade, destination, amount);
  }

  lemma TradePayoutMoves(s: State, destination: Pubkey, amount: u64)
    requires Inv(s) && amount <= BurnedOutside(s) && TradePayout(s, destination, amount).Ok?
    ensures var t := TradePayout(s, destination, amount).value;
      var entry := NavBook.Redeemed(amount, destination == VaultToken);
      && Inv(t)
      && NavBook.Enabled(BookOf(s), entry) && BookOf(t) == NavBook.Post(BookOf(s), entry)
      && BurnedOutside(t) == BurnedOutside(s) - amount
  {
    PayoutEffect(s, destination, CheckedAssets(amount, s.vault.navPriceBps).value);
  }

  lemma RedeemTradeableMoves(s: State, user: Pubkey, source: Pubkey, userCvault: Pubkey, destination: Pubkey,
      amount: u64, toCvault: bool)
    requires Inv(s) && RedeemTradeableStep(s, user, source, userCvault, destination, amount, toCvault).Ok?
    ensures Moves(s, RedeemTradeableStep(s, user, source, userCvault, destination, amount, toCvault).value,
                  if toCvault then NavBook.Idle else NavBook.Redeemed(amount, destination == VaultToken), 0)
  {
    BurnEffect(s.trade, source, user, amount);
    if toCvault {
      MintEffect(s.cvault, userCvault, amount);
    } else {
      TradePayoutMoves(s.(trade := s.trade.Burn(source, user, amount).value), destination, amount);
    }
  }

  lemma SetNavMoves(s: State, signer: Pubkey, nav: u64)
    requires Inv(s) && SetNavStep(s, signer, nav).Ok?
    ensures Moves(s, SetNavStep(s, signer, nav).value, NavBook.Repriced(nav), 0)
  {}

  lemma ProcessYieldMoves(s: State, signer: Pubkey)
    requires Inv(s) && ProcessYieldStep(s, signer).Ok?
    ensures Moves(s, ProcessYieldStep(s, signer).value, NavBook.Idle, 0)
  {
    var v := s.vault;
    var daily := DailyYield(v.totalDeposits, v.usxAllocationBps, v.apyBps);
    LessThanOneDayLeft(daily, v.Yield(), s.now);
  }

  /** A step that leaves the ledgers, the totals and the price alone posts nothing. */
  lemma QuietMoves(s: State, t: State)
    requires Inv(s)
    requires t.usdc == s.usdc && t.cvault == s.cvault && t.trade == s.trade && BookOf(t) == BookOf(s)
    requires t.vault.lastYieldClaim <= t.now
    requires t.attestation.Some? ==> t.attestation.value.attestedAt <= t.now
    requires t.mandate.Some? ==> t.mandate.value.minLiquidityBufferBps + t.mandate.value.maxUsxAllocationBps <= 10_000
    requires WellKept(t.credentials)
    ensures Moves(s, t, NavBook.Idle, 0)
  {}

  lemma AdminMoves(s: State, i: Instruction)
    requires Inv(s) && Execute(s, i).Ok?
    requires i.InitTravelRule? || i.DistributeYield? || i.SyncYield? || i.SetPause? || i.UpdateConfig? ||
      i.RegisterUsxAccounts?
    ensures Moves(s, Execute(s, i).value, NavBook.Idle, 0)
  {
    QuietMoves(s, Execute(s, i).value);
  }

  lemma OversightMoves(s: State, i: Instruction)
    requires Inv(s) && Execute(s, i).Ok?
    requires i.IssueCredential? || i.RevokeCredential? || i.InitializeMandate? || i.SetEnforcement? ||
      i.InitializeRegistry? || i.UpdateRegistry? || i.PostAttestation?
    ensures Moves(s, Execute(s, i).value, NavBook.Idle, 0)
  {
    QuietMoves(s, Execute(s, i).value);
  }

  /** What the surroundings do to one ledger: the vault's own account is never drawn on. */
  lemma LedgerMoves(s: State, m: MintId, l: Ledger, received: nat, burned: nat)
    requires Inv(s) && l.Valid()
    requires m == Usdc ==> l.Owns(VaultState, VaultToken) && burned == 0
    requires m == Usdc ==> l.Balance(VaultToken) == s.usdc.Balance(VaultToken) + received
    requires m != Usdc ==> received == 0 && l.supply == LedgerOf(s, m).supply - burned
    ensures Moves(s, WithLedger(s, m, l), NavBook.Donated(received), burned)
    ensures received == 0 ==> Moves(s, WithLedger(s, m, l), NavBook.Idle, burned)
  {}

  lemma OpenAccountMoves(s: State, m: MintId, key: Pubkey, owner: Pubkey)
    requires Inv(s) && Happen(s, OpenAccount(m, key, owner)).Ok?
    ensures Moves(s, Happen(s, OpenAccount(m, key, owner)).value, NavBook.Idle, 0)
  {
    OpenEffect(LedgerOf(s, m), key, owner);
    LedgerMoves(s, m, LedgerOf(s, m).Open(key, owner).value, 0, 0);
  }

  lemma MoveTokensMoves(s: State, m: MintId, signer: Pubkey, source: Pubkey, destination: Pubkey, amount: u64)
    requires Inv(s) && Happen(s, MoveTokens(m, signer, source, destination, amount)).Ok?
    ensures Moves(s, Happen(s, MoveTokens(m, signer, source, destination, amount)).value,
      if m == Usdc && destination == VaultToken && source != VaultToken then NavBook.Donated(amount)
        else NavBook.Idle, 0)
  {
    var l := LedgerOf(s, m).Transfer(source, destination, signer, amount).value;
    TransferEffect(LedgerOf(s, m), source, destination, signer, amount);
    LedgerMoves(s, m, l, if m == Usdc && destination == VaultToken && source != VaultToken then amount else 0, 0);
  }

  lemma BurnTokensMoves(s: State, m: MintId, signer: Pubkey, source: Pubkey, amount: u64)
    requires Inv(s) && Happen(s, BurnTokens(m, signer, source, amount)).Ok?
    ensures Moves(s, Happen(s, BurnTokens(m, signer, source, amount)).value, NavBook.Idle,
      if m == Usdc then 0 else amount)
  {
    BurnEffect(LedgerOf(s, m), source, signer, amount);
    LedgerMoves(s, m, LedgerOf(s, m).Burn(source, signer, amount).value, 0, if m == Usdc then 0 else amount);
  }

  lemma IssueUsdcMoves(s: State, destination: Pubkey, amount: u64)
    requires Inv(s) && Happen(s, IssueUsdc(destination, amount)).Ok?
    ensures Moves(s, Happen(s, IssueUsdc(destination, amount)).value,
      if destination == VaultToken then NavBook.Donated(amount) else NavBook.Idle, 0)
  {
    MintEffect(s.usdc, destination, amount);
    LedgerMoves(s, Usdc, s.usdc.MintTo(destination, amount).value, if destination == VaultToken then amount else 0, 0);
  }

  lemma HappenMoves(s: State, o: Surroundings)
    requires Inv(s) && Happen(s, o).Ok?
    ensures Moves(s, Happen(s, o).value, EntryOf(s, Outside(o)), BurnOf(s, Outside(o)))
  {
    match o
    case Advance(_) => QuietMoves(s, Happen(s, o).value);
    case OpenAccount(m, key, owner) => OpenAccountMoves(s, m, key, owner);
    case MoveTokens(m, signer, source, destination, amount) =>
      MoveTokensMoves(s, m, signer, source, destination, amount);
    case BurnTokens(m, signer, source, amount) => BurnTokensMoves(s, m, signer, source, amount);
    case IssueUsdc(destination, amount) => IssueUsdcMoves(s, destination, amount);
  }

  lemma TokenInstructionMoves(s: State, i: Instruction)
    requires Inv(s) && Execute(s, i).Ok?
    requires i.Deposit? || i.Redeem? || i.ConvertToTradeable? || i.RedeemTradeable?
    ensures Moves(s, Execute(s, i).value, EntryOf(s, Program(i)), 0)
  {
    match i
    case Deposit(payer, payerUsdc, payerCvault, record, amount) =>
      DepositMoves(s, payer, payerUsdc, payerCvault, record, amount);
    case Redeem(redeemer, source, destination, amount) => RedeemMoves(s, redeemer, source, destination, amount);
    case ConvertToTradeable(user, source, destination, amount) => ConvertMoves(s, user, source, destination, amount);
    case RedeemTradeable(user, source, userCvault, destination, amount, toCvault) =>
      RedeemTradeableMoves(s, user, source, userCvault, destination, amount, toCvault);
  }

  lemma OperatorInstructionMoves(s: State, i: Instruction)
    requires Inv(s) && Execute(s, i).Ok?
    requires !(i.Deposit? || i.Redeem? || i.ConvertToTradeable? || i.RedeemTradeable?)
    ensures Moves(s, Execute(s, i).value, EntryOf(s, Program(i)), 0)
  {
    if i.SetNav? {
      SetNavMoves(s, i.signer, i.nav);
    } else if i.ProcessYield? {
      ProcessYieldMoves(s, i.signer);
    } else if i.InitTravelRule? || i.DistributeYield? || i.SyncYield? || i.SetPause? || i.UpdateConfig? ||
      i.RegisterUsxAccounts? {
      AdminMoves(s, i);
    } else {
      OversightMoves(s, i);
    }
  }

  lemma ExecuteMoves(s: State, i: Instruction)
    requires Inv(s) && Execute(s, i).Ok?
    ensures Moves(s, Execute(s, i).value, EntryOf(s, Program(i)), 0)
  {
    if i.Deposit? || i.Redeem? || i.ConvertToTradeable? || i.RedeemTradeable? {
      TokenInstructionMoves(s, i);
    } else {
      OperatorInstructionMoves(s, i);
    }
  }

  /** The refinement theorem for one event, of the program or of its surroundings. */
  lemma NextMoves(s: State, e: Event)
    requires Inv(s)
    ensures Moves(s, Next(s, e), EntryOf(s, e), BurnOf(s, e))
  {
    if Attempt(s, e).Ok? {
      match e
      case Program(i) => ExecuteMoves(s, i);
      case Outside(o) => HappenMoves(s, o);
    }
  }

  // ---------------------------------------------------------------- whole runs

  /** Shares burned through the token program over a run. */
  function Burns(s: State, es: seq<Event>): nat
    decreases es
  {
    if es == [] then 0 else BurnOf(s, es[0]) + Burns(Next(s, es[0]), es[1..])
  }

  /** Every run of the program, in any surroundings, is a run of the abstract book. */
  lemma {:induction false} RunRefines(s: State, es: seq<Event>)
    requires Inv(s)
    ensures Inv(Run(s, es))
    ensures NavBook.AllEnabled(BookOf(s), EntriesOf(s, es))
    ensures BookOf(Run(s, es)) == NavBook.Run(BookOf(s), EntriesOf(s, es))
    ensures BurnedOutside(Run(s, es)) == BurnedOutside(s) + Burns(s, es)
    decreases es
  {
    if es != [] {
      NextMoves(s, es[0]);
      RunRefines(Next(s, es[0]), es[1..]);
      var entries := EntriesOf(s, es);
      assert entries[1..] == EntriesOf(Next(s, es[0]), es[1..]);
    }
  }
}
