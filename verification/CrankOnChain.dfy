/** The crank against the yield vault program: its rounds fall between whatever else happens to the
    vault, as long as nobody else reprices it. */
module CrankOnChain {
  import opened Results
  import opened FixedPoint
  import opened TokenLedger
  import opened NavCrank
  import opened OragamiSpec
  import opened OragamiRefinement
  import opened OragamiTheorems
  import opened OragamiOversight

  /** The accounts of a pricing transaction, by what they are. */
  datatype Account = VaultAccount | RegistryAccount | SignerAccount

  /** What the program's set_nav reads off the front of the transaction's account list. */
  const REQUIRED: seq<Account> := [VaultAccount, RegistryAccount, SignerAccount]

  /** What the crank's client sends, by its own interface file. */
  const CLIENT_ACCOUNTS: seq<Account> := [VaultAccount, SignerAccount]

  /** The pricing transaction with its account list. */
  function Submit(s: State, accounts: seq<Account>, signer: Pubkey, nav: u64): Result<State> {
    if REQUIRED <= accounts then Execute(s, SetNav(signer, nav)) else Err(AccountError)
  }

  /** What reaches one round from outside; `connected` when a transaction would get through to the
      program, with the given account list. */
  datatype Tick = Tick(feeds: Feeds, vaultRead: bool, connected: bool, accounts: seq<Account>, checkMs: nat,
      landMs: nat, ackMs: nat)

  /** A stretch of other activity on the vault, then one round of the crank. */
  datatype Visit = Visit(activity: seq<Event>, tick: Tick)

  datatype World = World(memory: Memory, chain: State)

  predicate NoRepricing(es: seq<Event>) {
    forall i | 0 <= i < |es| :: !(es[i].Program? && es[i].instruction.SetNav?)
  }

  /** The vault has its registry account and takes prices from `signer`. */
  predicate TakesPricesFrom(s: State, signer: Pubkey) {
    s.registry.Some? && s.vault.OperatorKey() == signer
  }

  /** The round as the crank alone sees it, on the vault state `s`. */
  function RoundOf(s: State, signer: Pubkey, v: Tick): Round {
    Round(v.feeds, v.vaultRead, v.connected && REQUIRED <= v.accounts && TakesPricesFrom(s, signer),
      v.checkMs, v.landMs, v.ackMs)
  }

  /** The crank's transaction, if it sends one and the network delivers it. */
  function Delivered(m: Memory, s: State, signer: Pubkey, v: Tick): State {
    if !Sends(m, s.vault.navPriceBps, RoundOf(s, signer, v)) || !v.connected then s else
    match Submit(s, v.accounts, signer, Target(m, v.feeds))
    case Ok(t) => t
    case Err(_) => s
  }

  function Ticked(w: World, signer: Pubkey, v: Tick): World {
    var s := w.chain;
    World(After(System(w.memory, s.vault.navPriceBps), RoundOf(s, signer, v)).memory, Delivered(w.memory, s, signer, v))
  }

  function Visited(w: World, signer: Pubkey, v: Visit): World {
    Ticked(w.(chain := Run(w.chain, v.activity)), signer, v.tick)
  }

  function VisitAll(w: World, signer: Pubkey, vs: seq<Visit>): World
    decreases vs
  {
    if vs == [] then w else VisitAll(Visited(w, signer, vs[0]), signer, vs[1..])
  }

  /** The program never refuses the crank's NAV for its value: it takes it exactly when the account list
      starts as required and the vault takes prices from the crank's signer at all, and then the NAV
      becomes what was sent. */
  lemma SentIsTaken(m: Memory, s: State, signer: Pubkey, v: Tick)
    requires Sends(m, s.vault.navPriceBps, RoundOf(s, signer, v))
    ensures var r := Submit(s, v.accounts, signer, Target(m, v.feeds));
      && (r.Ok? <==> REQUIRED <= v.accounts && TakesPricesFrom(s, signer))
      && (r.Ok? <==>
            && |v.accounts| >= 3 && v.accounts[0] == VaultAccount && v.accounts[1] == RegistryAccount
            && v.accounts[2] == SignerAccount && s.registry.Some? && MayOperate(s.vault, signer))
      && (r.Ok? ==> r.value.vault == s.vault.(navPriceBps := Target(m, v.feeds)))
      && (r.Err? ==> r.error == AccountError || r.error == OperatorNotAuthorized)
  {
    SentIsAccepted(System(m, s.vault.navPriceBps), RoundOf(s, signer, v));
    RequiredExactly(v.accounts);
  }

  lemma RequiredExactly(accounts: seq<Account>)
    ensures REQUIRED <= accounts <==>
      |accounts| >= 3 && accounts[0] == VaultAccount && accounts[1] == RegistryAccount && accounts[2] == SignerAccount
  {
    if |accounts| >= 3 { assert accounts[..3] == [accounts[0], accounts[1], accounts[2]]; }
    if REQUIRED <= accounts {
      assert accounts[0] == REQUIRED[0] && accounts[1] == REQUIRED[1] && accounts[2] == REQUIRED[2];
    }
  }

  lemma {:induction false} NoPath(s: State, es: seq<Event>)
    requires NoRepricing(es)
    ensures PricePath(s, es) == []
    decreases es
  {
    if es != [] { NoPath(Next(s, es[0]), es[1..]); }
  }

  lemma ActivityKeepsPrice(s: State, es: seq<Event>)
    requires Inv(s) && NoRepricing(es)
    ensures Inv(Run(s, es)) && Run(s, es).vault.navPriceBps == s.vault.navPriceBps
  {
    NoPath(s, es);
    PriceFollowsGuard(s, es);
    RunRefines(s, es);
  }

  /** A visit to the real vault is one round of the crank's own machine. */
  lemma VisitIsRound(w: World, signer: Pubkey, v: Visit)
    requires Inv(w.chain) && NoRepricing(v.activity)
    ensures var w' := Visited(w, signer, v);
      Inv(w'.chain) &&
      System(w'.memory, w'.chain.vault.navPriceBps) ==
        After(System(w.memory, w.chain.vault.navPriceBps), RoundOf(Run(w.chain, v.activity), signer, v.tick))
  {
    ActivityKeepsPrice(w.chain, v.activity);
    var s := Run(w.chain, v.activity);
    if Sends(w.memory, s.vault.navPriceBps, RoundOf(s, signer, v.tick)) {
      SentIsAccepted(System(w.memory, s.vault.navPriceBps), RoundOf(s, signer, v.tick));
      SentIsTaken(w.memory, s, signer, v.tick);
      NextMoves(s, Program(SetNav(signer, Target(w.memory, v.tick.feeds))));
    }
  }

  ghost predicate NobodyElseReprices(vs: seq<Visit>) {
    forall i | 0 <= i < |vs| :: NoRepricing(vs[i].activity)
  }

  function RoundsOf(w: World, signer: Pubkey, vs: seq<Visit>): seq<Round>
    decreases vs
  {
    if vs == [] then [] else
    [RoundOf(Run(w.chain, vs[0].activity), signer, vs[0].tick)] + RoundsOf(Visited(w, signer, vs[0]), signer, vs[1..])
  }

  /** The NAV on chain at time `t`. */
  function NavOnChain(w: World, signer: Pubkey, vs: seq<Visit>, t: nat): u64
    decreases vs
  {
    if vs == [] || vs[0].tick.landMs > t then w.chain.vault.navPriceBps
      else NavOnChain(Visited(w, signer, vs[0]), signer, vs[1..], t)
  }

  /** Visits follow one another in time. */
  predicate InOrder(from: nat, vs: seq<Visit>)
    decreases vs
  {
    vs == [] || (from <= vs[0].tick.checkMs <= vs[0].tick.landMs <= vs[0].tick.ackMs &&
      InOrder(vs[0].tick.ackMs, vs[1..]))
  }

  lemma {:induction false} VisitsRefineRounds(w: World, signer: Pubkey, vs: seq<Visit>, from: nat, t: nat)
    requires Inv(w.chain) && NobodyElseReprices(vs) && InOrder(from, vs)
    ensures var s, rs := System(w.memory, w.chain.vault.navPriceBps), RoundsOf(w, signer, vs);
      && Sequential(from, rs)
      && Rounds(s, rs) == System(VisitAll(w, signer, vs).memory, VisitAll(w, signer, vs).chain.vault.navPriceBps)
      && NavAt(s, rs, t) == NavOnChain(w, signer, vs, t)
    decreases vs
  {
    if vs != [] {
      VisitIsRound(w, signer, vs[0]);
      var rest := RoundsOf(Visited(w, signer, vs[0]), signer, vs[1..]);
      assert RoundsOf(w, signer, vs)[1..] == rest;
      VisitsRefineRounds(Visited(w, signer, vs[0]), signer, vs[1..], vs[0].tick.ackMs, t);
    }
  }

  /** From launch, with arbitrary activity between rounds, the price that the vault itself holds stays
      inside the crank's band, and over any window it moves at most one bounded step plus one for
      every whole update interval. */
  lemma CrankGovernsPrice(launch: State, signer: Pubkey, vs: seq<Visit>, lo: nat, hi: nat)
    requires Initial(launch) && NobodyElseReprices(vs) && InOrder(0, vs) && lo <= hi
    ensures var w := World(FRESH, launch);
      && InBand(VisitAll(w, signer, vs).chain.vault.navPriceBps)
      && Distance(NavOnChain(w, signer, vs, hi), NavOnChain(w, signer, vs, lo)) <=
         MAX_MOVE_BPS * (1 + (hi - lo) / MIN_UPDATE_INTERVAL_MS)
  {
    InitialInv(launch);
    var w, s := World(FRESH, launch), System(FRESH, launch.vault.navPriceBps);
    var rs := RoundsOf(w, signer, vs);
    VisitsRefineRounds(w, signer, vs, 0, lo);
    VisitsRefineRounds(w, signer, vs, 0, hi);
    NavStaysInBand(s, rs);
    WindowBound(s, 0, rs, lo, hi);
  }

  ghost predicate ClientLists(vs: seq<Visit>) {
    forall i | 0 <= i < |vs| :: vs[i].tick.accounts == CLIENT_ACCOUNTS
  }

  lemma {:induction false} ClientRoundsUndelivered(w: World, signer: Pubkey, vs: seq<Visit>)
    requires ClientLists(vs)
    ensures forall k | 0 <= k < |RoundsOf(w, signer, vs)| :: !RoundsOf(w, signer, vs)[k].delivered
    decreases vs
  {
    if vs != [] {
      ClientRoundsUndelivered(Visited(w, signer, vs[0]), signer, vs[1..]);
      assert !(REQUIRED <= CLIENT_ACCOUNTS) by { assert REQUIRED[1] != CLIENT_ACCOUNTS[1]; }
    }
  }

  /** With the account list that the client sends, no update is ever taken: whatever it fetches, and
      whatever else but repricing happens to the vault, the price stays at par from launch. */
  lemma ClientNeverReprices(launch: State, signer: Pubkey, vs: seq<Visit>)
    requires Initial(launch) && NobodyElseReprices(vs) && InOrder(0, vs) && ClientLists(vs)
    ensures VisitAll(World(FRESH, launch), signer, vs).chain.vault.navPriceBps == NAV_BPS_DENOMINATOR
  {
    InitialInv(launch);
    var w := World(FRESH, launch);
    VisitsRefineRounds(w, signer, vs, 0, 0);
    ClientRoundsUndelivered(w, signer, vs);
    NothingUndelivered(System(FRESH, launch.vault.navPriceBps), RoundsOf(w, signer, vs));
  }
}
