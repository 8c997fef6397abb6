/** The crank as it runs: a service object that updates its caches in place and calls the vault. */
module NavCrankService {
  import opened Results
  import opened FixedPoint
  import opened TokenLedger
  import opened PriceWalk
  import opened NavCrank
  import S = OragamiSpec
  import opened OragamiProgram
  import C = CrankOnChain

  /** What a round reports: `cached` when a missing price was replaced by the cached one, `signed`
      when the vault took the update. */
  datatype Report = Report(navBps: u64, gold: Option<real>, chf: Option<real>, eusx: real, cached: bool, signed: bool)

  class NavCrankService {
    var lastGoldPrice: Option<real>
    var lastChfUsd: Option<real>
    var baselineGoldPrice: Option<real>
    var baselineChfUsd: Option<real>
    var lastOnChainUpdateMs: nat

    function Memory(): Memory
      reads this
    {
      NavCrank.Memory(lastGoldPrice, lastChfUsd, baselineGoldPrice, baselineChfUsd, lastOnChainUpdateMs)
    }

    constructor ()
      ensures Memory() == FRESH
    {
      lastGoldPrice, lastChfUsd, baselineGoldPrice, baselineChfUsd := None, None, None, None;
      lastOnChainUpdateMs := 0;
    }

    /** A fetch that failed, or a response without a price, leaves the cache alone. */
    method FetchGold(raw: Option<Json>) returns (price: Option<real>)
      modifies `lastGoldPrice
      ensures price == Priced(raw) && lastGoldPrice == Or(price, old(lastGoldPrice))
    {
      if raw.None? { return None; }
      price := ExtractPrice(raw.value);
      if price.Some? { lastGoldPrice := price; }
    }

    method FetchChf(raw: Option<Json>) returns (price: Option<real>)
      modifies `lastChfUsd
      ensures price == Priced(raw) && lastChfUsd == Or(price, old(lastChfUsd))
    {
      if raw.None? { return None; }
      price := ExtractPrice(raw.value);
      if price.Some? { lastChfUsd := price; }
    }

    method ComputeNavBps(gold: Option<real>, chf: Option<real>, eusx: real) returns (nav: u64)
      modifies `baselineGoldPrice, `baselineChfUsd
      ensures baselineGoldPrice == Or(old(baselineGoldPrice), gold)
      ensures baselineChfUsd == Or(old(baselineChfUsd), chf)
      ensures nav == NavBps(Factor(gold, baselineGoldPrice), Factor(chf, baselineChfUsd), eusx)
    {
      if gold.Some? && baselineGoldPrice.None? { baselineGoldPrice := gold; }
      if chf.Some? && baselineChfUsd.None? { baselineChfUsd := chf; }
      return NavBps(Factor(gold, baselineGoldPrice), Factor(chf, baselineChfUsd), eusx);
    }

    /** The fetches and the computation: everything up to the guards. */
    method Observe(feeds: Feeds) returns (report: Report)
      modifies `lastGoldPrice, `lastChfUsd, `baselineGoldPrice, `baselineChfUsd
      ensures Memory() == Refreshed(old(Memory()), feeds)
      ensures report.navBps == Target(old(Memory()), feeds)
      ensures report.gold == lastGoldPrice && report.chf == lastChfUsd && report.eusx == Eusx(feeds)
      ensures report.cached <==>
        (Priced(feeds.gold).None? && lastGoldPrice.Some?) || (Priced(feeds.chf).None? && lastChfUsd.Some?)
      ensures !report.signed
    {
      var gold := FetchGold(feeds.gold);
      var chf := FetchChf(feeds.chf);
      var cached := false;
      if gold.None? && lastGoldPrice.Some? { gold, cached := lastGoldPrice, true; }
      if chf.None? && lastChfUsd.Some? { chf, cached := lastChfUsd, true; }
      var eusx := if feeds.eusx.Some? then feeds.eusx.value else 1.0;
      var nav := ComputeNavBps(gold, chf, eusx);
      return Report(nav, gold, chf, eusx, cached, false);
    }

    /** One round against the vault: memory and vault move exactly as the tick prescribes, and the
        report says what was computed and whether the update landed. */
    method UpdateNav(vault: OragamiVault, signer: Pubkey, t: C.Tick) returns (report: Report)
      modifies this, vault
      ensures C.World(Memory(), vault.Snapshot()) == C.Ticked(C.World(old(Memory()), old(vault.Snapshot())), signer, t)
      ensures report.navBps == Target(old(Memory()), t.feeds)
      ensures report.signed <==>
        Lands(System(old(Memory()), old(vault.vault.navPriceBps)), C.RoundOf(old(vault.Snapshot()), signer, t))
    {
      report := Observe(t.feeds);
      var current: u64 := if t.vaultRead then vault.vault.navPriceBps else NAV_BPS_DENOMINATOR;
      if Distance(report.navBps, current) > MAX_MOVE_BPS { return; }
      if t.checkMs - lastOnChainUpdateMs < MIN_UPDATE_INTERVAL_MS { return; }
      if !t.vaultRead { return; }
      if !t.connected { return; }
      SentRound(old(Memory()), vault.Snapshot(), signer, t);
      // the program refuses a short account list before its handler runs
      if !(C.REQUIRED <= t.accounts) { return; }
      var r := vault.Transact(S.SetNav(signer, report.navBps));
      if r.Ok? {
        lastOnChainUpdateMs := t.ackMs;
        report := report.(signed := true);
      }
    }
  }

  /** A delivered update is taken exactly when the round lands. */
  lemma SentRound(m: Memory, s: S.State, signer: Pubkey, v: C.Tick)
    requires Sends(m, s.vault.navPriceBps, C.RoundOf(s, signer, v)) && v.connected
    ensures Lands(System(m, s.vault.navPriceBps), C.RoundOf(s, signer, v)) <==>
      C.Submit(s, v.accounts, signer, Target(m, v.feeds)).Ok?
  {
    SentIsAccepted(System(m, s.vault.navPriceBps), C.RoundOf(s, signer, v));
    C.SentIsTaken(m, s, signer, v);
  }
}
