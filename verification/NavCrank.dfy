/** The NAV crank: price caches, baselines fixed once, and the guards before each on-chain update. */
module NavCrank {
  import opened Results
  import opened FixedPoint
  import opened NavGuard
  import opened PriceWalk

  const WEIGHT_GOLD_BPS := 5_000.0
  const WEIGHT_CHF_BPS := 3_000.0
  const WEIGHT_USX_BPS := 2_000.0
  const MAX_MOVE_BPS: int := 1_000
  const MIN_UPDATE_INTERVAL_MS: int := 90_000
  const MIN_NAV_BPS: int := 5_000
  const MAX_NAV_BPS: int := 20_000

  /** What the crank remembers between rounds. */
  datatype Memory = Memory(lastGold: Option<real>, lastChf: Option<real>,
                           baseGold: Option<real>, baseChf: Option<real>, lastUpdateMs: nat)

  const FRESH := Memory(None, None, None, None, 0)

  /** One round's fetches; `None` stands for a fetch that failed. */
  datatype Feeds = Feeds(gold: Option<Json>, chf: Option<Json>, eusx: Option<real>)

  /** Everything that reaches one round from outside: the fetches, whether the vault could be read,
      whether a transaction would be delivered, and the clock when the interval is checked, when the
      transaction lands and when the crank notes that it did. */
  datatype Round = Round(feeds: Feeds, vaultRead: bool, delivered: bool, checkMs: nat, landMs: nat, ackMs: nat)

  // ---------------------------------------------------------------- the price formula

  function RoundHalfUp(x: real): int {
    (x + 0.5).Floor
  }

  function Factor(price: Option<real>, base: Option<real>): real {
    if price.Some? && base.Some? && base.value > 0.0 then price.value / base.value else 1.0
  }

  function WeightedBps(gold: real, chf: real, eusx: real): real {
    (WEIGHT_GOLD_BPS / 10_000.0 * gold + WEIGHT_CHF_BPS / 10_000.0 * chf + WEIGHT_USX_BPS / 10_000.0 * eusx) * 10_000.0
  }

  function NavBps(gold: real, chf: real, eusx: real): (nav: u64)
    ensures MIN_NAV_BPS <= nav <= MAX_NAV_BPS
  {
    var rounded := RoundHalfUp(WeightedBps(gold, chf, eusx));
    if rounded < MIN_NAV_BPS then MIN_NAV_BPS else if rounded > MAX_NAV_BPS then MAX_NAV_BPS else rounded
  }

  /** Half gold, three tenths franc, a fifth eUSX: each factor of one is worth its weight in basis points. */
  lemma WeightsExactly(gold: real, chf: real, eusx: real)
    ensures WeightedBps(gold, chf, eusx) == 5_000.0 * gold + 3_000.0 * chf + 2_000.0 * eusx
  {}

  /** Inside the band the result is the nearest whole number of basis points; outside it is the
      nearer end of the band. */
  lemma NavIsNearest(gold: real, chf: real, eusx: real)
    ensures var exact, nav := WeightedBps(gold, chf, eusx), NavBps(gold, chf, eusx) as real;
      if exact < 4_999.5 then nav == 5_000.0
      else if exact >= 20_000.5 then nav == 20_000.0
      else nav - 0.5 <= exact < nav + 0.5
  {}

  /** No price can rise and take the NAV down. */
  lemma NavMonotone(gold: real, chf: real, eusx: real, gold': real, chf': real, eusx': real)
    requires gold <= gold' && chf <= chf' && eusx <= eusx'
    ensures NavBps(gold, chf, eusx) <= NavBps(gold', chf', eusx')
  {
    assert WeightedBps(gold, chf, eusx) <= WeightedBps(gold', chf', eusx');
  }

  // ---------------------------------------------------------------- one round

  function Priced(raw: Option<Json>): Option<real> {
    if raw.None? then None else Extracted(raw.value)
  }

  function Or<T>(first: Option<T>, second: Option<T>): Option<T> {
    if first.Some? then first else second
  }

  /** The memory after the fetches: new prices are cached, and a missing baseline is fixed at the
      price in use, which is the cached one when the fetch brought none. */
  function Refreshed(m: Memory, f: Feeds): Memory {
    var gold, chf := Or(Priced(f.gold), m.lastGold), Or(Priced(f.chf), m.lastChf);
    Memory(gold, chf, Or(m.baseGold, gold), Or(m.baseChf, chf), m.lastUpdateMs)
  }

  function Eusx(f: Feeds): real {
    if f.eusx.Some? then f.eusx.value else 1.0
  }

  function Target(m: Memory, f: Feeds): u64 {
    var r := Refreshed(m, f);
    NavBps(Factor(r.lastGold, r.baseGold), Factor(r.lastChf, r.baseChf), Eusx(f))
  }

  function Distance(a: int, b: int): nat {
    if a <= b then b - a else a - b
  }

  /** The guards let the round send its NAV to a vault priced at `nav`. */
  predicate Sends(m: Memory, nav: u64, r: Round) {
    && r.vaultRead
    && Distance(Target(m, r.feeds), nav) <= MAX_MOVE_BPS
    && r.checkMs - m.lastUpdateMs >= MIN_UPDATE_INTERVAL_MS
  }

  /** The crank together with the NAV on chain. */
  datatype System = System(memory: Memory, nav: u64)

  predicate Lands(s: System, r: Round) {
    Sends(s.memory, s.nav, r) && r.delivered && YieldGuard(s.nav, Target(s.memory, r.feeds)).Ok?
  }

  function After(s: System, r: Round): System {
    var m := Refreshed(s.memory, r.feeds);
    if Lands(s, r) then System(m.(lastUpdateMs := r.ackMs), Target(s.memory, r.feeds)) else System(m, s.nav)
  }

  function Rounds(s: System, rs: seq<Round>): System
    decreases rs
  {
    if rs == [] then s else Rounds(After(s, rs[0]), rs[1..])
  }

  /** The crank's guards imply the chain's: whatever the price on chain, a NAV the crank sends passes
      the on-chain guard of either program, so a delivered one always lands. */
  lemma SentIsAccepted(s: System, r: Round)
    requires Sends(s.memory, s.nav, r)
    ensures var sent := Target(s.memory, r.feeds);
      && MIN_NAV_BPS <= sent <= MAX_NAV_BPS
      && YieldGuard(s.nav, sent).Ok? && CustodyGuard(s.nav, sent).Ok?
    ensures Lands(s, r) <==> r.delivered
  {
    YieldGuardAccepts(s.nav, Target(s.memory, r.feeds));
    CustodyGuardAccepts(s.nav, Target(s.memory, r.feeds));
  }

  /** So the chain's guard never has a say: a round lands exactly when it sends and is delivered. */
  lemma LandsExactly(s: System, r: Round)
    ensures Lands(s, r) <==> Sends(s.memory, s.nav, r) && r.delivered
  {
    if Sends(s.memory, s.nav, r) { SentIsAccepted(s, r); }
  }

  /** What one round does to the NAV on chain and to the time of the last update: it lands exactly when the
      vault could be read, the target is within 1000 basis points, 90 seconds have passed since the last
      update, and the transaction is delivered. */
  lemma RoundExactly(s: System, r: Round)
    ensures var target := Target(s.memory, r.feeds);
      var lands := && r.vaultRead && r.delivered
                   && -1_000 <= target - s.nav <= 1_000
                   && r.checkMs >= s.memory.lastUpdateMs + 90_000;
      && After(s, r).nav == (if lands then target else s.nav)
      && After(s, r).memory.lastUpdateMs == (if lands then r.ackMs else s.memory.lastUpdateMs)
  {
    LandsExactly(s, r);
  }

  // ---------------------------------------------------------------- runs

  predicate InBand(nav: u64) {
    MIN_NAV_BPS <= nav <= MAX_NAV_BPS
  }

  lemma {:induction false} NavStaysInBand(s: System, rs: seq<Round>)
    requires InBand(s.nav)
    ensures InBand(Rounds(s, rs).nav)
    decreases rs
  {
    if rs != [] { NavStaysInBand(After(s, rs[0]), rs[1..]); }
  }

  /** Rounds do not overlap, and within a round the clock does not run backwards. */
  predicate Sequential(from: nat, rs: seq<Round>)
    decreases rs
  {
    rs == [] || (from <= rs[0].checkMs <= rs[0].landMs <= rs[0].ackMs && Sequential(rs[0].ackMs, rs[1..]))
  }

  /** The NAV on chain at time `t` of the run. */
  function NavAt(s: System, rs: seq<Round>, t: nat): u64
    decreases rs
  {
    if rs == [] || rs[0].landMs > t then s.nav else NavAt(After(s, rs[0]), rs[1..], t)
  }

  /** Whole update intervals between two times. */
  function Intervals(since: nat, until: nat): nat {
    if since <= until then (until - since) / MIN_UPDATE_INTERVAL_MS else 0
  }

  /** Until the first interval after its last update is over, the crank lands nothing; after that at
      most one bounded move for each further interval. */
  lemma {:induction false} MovesSinceUpdate(s: System, from: nat, rs: seq<Round>, t: nat)
    requires Sequential(from, rs)
    ensures Distance(NavAt(s, rs, t), s.nav) <= MAX_MOVE_BPS * Intervals(s.memory.lastUpdateMs, t)
    decreases rs
  {
    if rs != [] && rs[0].landMs <= t {
      var r := rs[0];
      MovesSinceUpdate(After(s, r), r.ackMs, rs[1..], t);
      if Lands(s, r) {
        assert Intervals(r.ackMs, t) + 1 <= Intervals(s.memory.lastUpdateMs, t);
      }
    }
  }

  /** Over any window the NAV on chain moves at most one bounded step, plus one for every whole
      update interval the window contains. */
  lemma {:induction false} WindowBound(s: System, from: nat, rs: seq<Round>, lo: nat, hi: nat)
    requires Sequential(from, rs) && lo <= hi
    ensures Distance(NavAt(s, rs, hi), NavAt(s, rs, lo)) <= MAX_MOVE_BPS * (1 + (hi - lo) / MIN_UPDATE_INTERVAL_MS)
    decreases rs
  {
    if rs != [] && rs[0].landMs <= hi {
      var r := rs[0];
      if r.landMs <= lo || !Lands(s, r) {
        WindowBound(After(s, r), r.ackMs, rs[1..], lo, hi);
      } else {
        MovesSinceUpdate(After(s, r), r.ackMs, rs[1..], hi);
        assert Intervals(r.ackMs, hi) <= (hi - lo) / MIN_UPDATE_INTERVAL_MS;
      }
    }
  }

  /** While no transaction is delivered, whatever the reason, the NAV on chain does not move. */
  lemma {:induction false} NothingUndelivered(s: System, rs: seq<Round>)
    requires forall k | 0 <= k < |rs| :: !rs[k].delivered
    ensures Rounds(s, rs).nav == s.nav
    decreases rs
  {
    if rs != [] { NothingUndelivered(After(s, rs[0]), rs[1..]); }
  }

  /** A target further than one bounded step away is never approached: while every round aims that
      far from the NAV on chain, nothing lands. */
  lemma {:induction false} FarTargetsNeverLand(s: System, rs: seq<Round>)
    requires forall k | 0 <= k < |rs| :: Distance(Target(Rounds(s, rs[..k]).memory, rs[k].feeds), s.nav) > MAX_MOVE_BPS
    ensures Rounds(s, rs).nav == s.nav
    decreases rs
  {
    if rs != [] {
      assert rs[..0] == [];
      assert Rounds(s, rs[..0]) == s;
      var next := After(s, rs[0]);
      forall k | 0 <= k < |rs| - 1
        ensures Rounds(next, rs[1..][..k]) == Rounds(s, rs[..k + 1]) && rs[1..][k] == rs[k + 1]
      {
        assert rs[..k + 1][0] == rs[0] && rs[..k + 1][1..] == rs[1..][..k];
      }
      FarTargetsNeverLand(next, rs[1..]);
    }
  }

  // ---------------------------------------------------------------- baselines

  predicate WellFormedFeeds(f: Feeds) {
    (f.gold.Some? ==> WellFormed(f.gold.value)) && (f.chf.Some? ==> WellFormed(f.chf.value))
  }

  /** A baseline is missing exactly while no price is cached; both are positive. */
  predicate Paired(last: Option<real>, base: Option<real>) {
    (last.None? <==> base.None?) && (last.Some? ==> last.value > 0.0 && base.value > 0.0)
  }

  function FirstOf(ps: seq<Option<real>>): Option<real> {
    if ps == [] then None else Or(ps[0], FirstOf(ps[1..]))
  }

  function LastOf(ps: seq<Option<real>>): Option<real> {
    if ps == [] then None else Or(LastOf(ps[1..]), ps[0])
  }

  function GoldPrices(rs: seq<Round>): seq<Option<real>> {
    seq(|rs|, i requires 0 <= i < |rs| => Priced(rs[i].feeds.gold))
  }

  function ChfPrices(rs: seq<Round>): seq<Option<real>> {
    seq(|rs|, i requires 0 <= i < |rs| => Priced(rs[i].feeds.chf))
  }

  lemma PricedPositive(raw: Option<Json>)
    requires raw.Some? ==> WellFormed(raw.value)
    ensures Priced(raw).Some? ==> Priced(raw).value > 0.0
  {
    if Priced(raw).Some? { ExtractionIsSearch(raw.value); }
  }

  /** One feed's cache and baseline after a sequence of fetches. */
  function Cached(last: Option<real>, base: Option<real>, ps: seq<Option<real>>): (Option<real>, Option<real>)
    decreases ps
  {
    if ps == [] then (last, base) else Cached(Or(ps[0], last), Or(base, Or(ps[0], last)), ps[1..])
  }

  /** The cache holds the last price fetched, the baseline the first one ever fetched, and they stay
      paired. */
  lemma {:induction false} CacheHistory(last: Option<real>, base: Option<real>, ps: seq<Option<real>>)
    requires Paired(last, base)
    requires forall i | 0 <= i < |ps| :: ps[i].Some? ==> ps[i].value > 0.0
    ensures Cached(last, base, ps) == (Or(LastOf(ps), last), Or(base, FirstOf(ps)))
    ensures Paired(Or(LastOf(ps), last), Or(base, FirstOf(ps)))
    decreases ps
  {
    if ps != [] { CacheHistory(Or(ps[0], last), Or(base, Or(ps[0], last)), ps[1..]); }
  }

  lemma {:induction false} RunCaches(s: System, rs: seq<Round>)
    ensures var m, m' := s.memory, Rounds(s, rs).memory;
      && (m'.lastGold, m'.baseGold) == Cached(m.lastGold, m.baseGold, GoldPrices(rs))
      && (m'.lastChf, m'.baseChf) == Cached(m.lastChf, m.baseChf, ChfPrices(rs))
    decreases rs
  {
    if rs != [] {
      assert GoldPrices(rs)[1..] == GoldPrices(rs[1..]);
      assert ChfPrices(rs)[1..] == ChfPrices(rs[1..]);
      RunCaches(After(s, rs[0]), rs[1..]);
    }
  }

  ghost predicate WellFormedRun(rs: seq<Round>) {
    forall i | 0 <= i < |rs| :: WellFormedFeeds(rs[i].feeds)
  }

  lemma FetchedPositive(rs: seq<Round>)
    requires WellFormedRun(rs)
    ensures forall i | 0 <= i < |rs| :: GoldPrices(rs)[i].Some? ==> GoldPrices(rs)[i].value > 0.0
    ensures forall i | 0 <= i < |rs| :: ChfPrices(rs)[i].Some? ==> ChfPrices(rs)[i].value > 0.0
  {
    forall i | 0 <= i < |rs|
      ensures GoldPrices(rs)[i].Some? ==> GoldPrices(rs)[i].value > 0.0
      ensures ChfPrices(rs)[i].Some? ==> ChfPrices(rs)[i].value > 0.0
    {
      PricedPositive(rs[i].feeds.gold);
      PricedPositive(rs[i].feeds.chf);
    }
  }

  /** After any run the cached prices are the last ones fetched, each baseline is the first one ever
      fetched and never moves again, both are positive, and one is missing exactly when the other is. */
  lemma RunPrices(s: System, rs: seq<Round>)
    requires Paired(s.memory.lastGold, s.memory.baseGold) && Paired(s.memory.lastChf, s.memory.baseChf)
    requires WellFormedRun(rs)
    ensures var m := Rounds(s, rs).memory;
      && m.lastGold == Or(LastOf(GoldPrices(rs)), s.memory.lastGold)
      && m.baseGold == Or(s.memory.baseGold, FirstOf(GoldPrices(rs)))
      && m.lastChf == Or(LastOf(ChfPrices(rs)), s.memory.lastChf)
      && m.baseChf == Or(s.memory.baseChf, FirstOf(ChfPrices(rs)))
      && Paired(m.lastGold, m.baseGold) && Paired(m.lastChf, m.baseChf)
  {
    RunCaches(s, rs);
    FetchedPositive(rs);
    CacheHistory(s.memory.lastGold, s.memory.baseGold, GoldPrices(rs));
    CacheHistory(s.memory.lastChf, s.memory.baseChf, ChfPrices(rs));
  }

  lemma {:induction false} LastRound(s: System, rs: seq<Round>, r: Round)
    ensures Rounds(s, rs + [r]) == After(Rounds(s, rs), r)
    decreases rs
  {
    if rs == [] {
      assert rs + [r] == [r];
    } else {
      assert (rs + [r])[1..] == rs[1..] + [r];
      LastRound(After(s, rs[0]), rs[1..], r);
    }
  }

  /** How far a feed has moved since its first price. */
  function Ratio(ps: seq<Option<real>>): real {
    if FirstOf(ps).Some? && FirstOf(ps).value > 0.0 && LastOf(ps).Some? then LastOf(ps).value / FirstOf(ps).value
      else 1.0
  }

  /** From a fresh start, what a round aims at depends on the whole history only through each feed's
      first and latest price and the current eUSX price. */
  lemma TargetOfHistory(nav: u64, rs: seq<Round>, r: Round)
    requires WellFormedRun(rs + [r])
    ensures var before, all := Rounds(System(FRESH, nav), rs), rs + [r];
      Target(before.memory, r.feeds) == NavBps(Ratio(GoldPrices(all)), Ratio(ChfPrices(all)), Eusx(r.feeds))
  {
    var s := System(FRESH, nav);
    LastRound(s, rs, r);
    RunPrices(s, rs + [r]);
  }

  lemma SelfQuotient(x: real)
    requires x > 0.0
    ensures x / x == 1.0
  {}

  /** With no price fetched yet, or prices back at their baselines, and eUSX at par, the crank aims
      at par. */
  lemma ParAtBaselines(m: Memory, f: Feeds)
    requires Paired(m.lastGold, m.baseGold) && Paired(m.lastChf, m.baseChf) && Eusx(f) == 1.0
    requires var r := Refreshed(m, f); r.lastGold == r.baseGold && r.lastChf == r.baseChf
    requires WellFormedFeeds(f)
    ensures Target(m, f) == 10_000
  {
    PricedPositive(f.gold);
    PricedPositive(f.chf);
    var r := Refreshed(m, f);
    if r.baseGold.Some? { SelfQuotient(r.baseGold.value); }
    if r.baseChf.Some? { SelfQuotient(r.baseChf.value); }
  }

  // ---------------------------------------------------------------- a jump that is never followed

  /** The fetches bring a gold price and nothing else. */
  predicate QuotesGold(f: Feeds, price: real) {
    Priced(f.gold) == Some(price) && Priced(f.chf) == None && f.eusx == None
  }

  /** A response that quotes gold at `price`. */
  function GoldAt(price: real): Feeds {
    Feeds(Some(Obj([Field("price", Num(Finite(price)))])), None, None)
  }

  lemma {:induction false} GoldQuoted(price: real)
    requires price > 0.0
    ensures QuotesGold(GoldAt(price), price)
  {
    var fields := [Field("price", Num(Finite(price)))];
    assert Prices(fields[0].value) == [price];
    assert fields[1..] == [];
    assert IndexOf(fields, "value") == -1 && IndexOf(fields, "lastPrice") == -1 && IndexOf(fields, "price") == 0;
    PriorityWins(fields, 2);
  }

  /** Gold was first quoted at `price` and nothing else ever was. */
  predicate GoldBased(m: Memory, price: real) {
    m.baseGold == Some(price) && m.baseChf == None && m.lastChf == None
  }

  lemma {:induction false} GoldBaseHeld(s: System, rs: seq<Round>, base: real, price: real)
    requires GoldBased(s.memory, base) && forall k | 0 <= k < |rs| :: QuotesGold(rs[k].feeds, price)
    ensures GoldBased(Rounds(s, rs).memory, base)
    decreases rs
  {
    if rs != [] { GoldBaseHeld(After(s, rs[0]), rs[1..], base, price); }
  }

  /** If gold jumps, after its first quote, to a price whose target is more than one bounded step from par,
      and stays there, then under any timing and any delivery the crank aims at that target for ever and
      the NAV never leaves par. */
  lemma {:induction false} JumpNeverFollowed(base: real, price: real, first: Round, rs: seq<Round>)
    requires base > 0.0 && Distance(NavBps(price / base, 1.0, 1.0), 10_000) > MAX_MOVE_BPS
    requires QuotesGold(first.feeds, base) && forall k | 0 <= k < |rs| :: QuotesGold(rs[k].feeds, price)
    ensures var s := After(System(FRESH, 10_000), first);
      && (forall k | 0 <= k < |rs| :: Target(Rounds(s, rs[..k]).memory, rs[k].feeds) == NavBps(price / base, 1.0, 1.0))
      && Rounds(s, rs).nav == 10_000
  {
    SelfQuotient(base);
    var s := After(System(FRESH, 10_000), first);
    forall k | 0 <= k < |rs|
      ensures Target(Rounds(s, rs[..k]).memory, rs[k].feeds) == NavBps(price / base, 1.0, 1.0)
    {
      GoldBaseHeld(s, rs[..k], base, price);
    }
    FarTargetsNeverLand(s, rs);
  }

  /** For instance gold first quoted at 100 and then at 130: the crank aims at 11500 for ever. */
  lemma {:induction false} GoldAtHundredThirty(first: Round, rs: seq<Round>)
    requires QuotesGold(first.feeds, 100.0) && forall k | 0 <= k < |rs| :: QuotesGold(rs[k].feeds, 130.0)
    ensures var s := After(System(FRESH, 10_000), first);
      && (forall k | 0 <= k < |rs| :: Target(Rounds(s, rs[..k]).memory, rs[k].feeds) == 11_500)
      && Rounds(s, rs).nav == 10_000
  {
    assert NavBps(130.0 / 100.0, 1.0, 1.0) == 11_500;
    JumpNeverFollowed(100.0, 130.0, first, rs);
  }

  // ---------------------------------------------------------------- one feed moving alone

  /** The fetches bring these prices, and `None` where there is none. */
  predicate Quotes(f: Feeds, gold: Option<real>, chf: Option<real>, eusx: Option<real>) {
    Priced(f.gold) == gold && Priced(f.chf) == chf && f.eusx == eusx
  }

  /** A response that quotes `price`. */
  function Quote(price: real): Json {
    Obj([Field("price", Num(Finite(price)))])
  }

  lemma {:induction false} FrancQuoted(price: real)
    requires price > 0.0
    ensures Quotes(Feeds(None, Some(Quote(price)), None), None, Some(price), None)
  {
    GoldQuoted(price);
  }

  /** From launch, after a first quote of the franc alone, a second one moves the target by three tenths of
      its change, eUSX by a fifth of its distance from par, and gold by half of its change. */
  lemma AimAfterTwoQuotes(first: Round, r: Round, before: real, after: real, eusx: real)
    requires before > 0.0
    ensures Quotes(first.feeds, None, Some(before), None) && Quotes(r.feeds, None, Some(after), None) ==>
      Target(After(System(FRESH, 10_000), first).memory, r.feeds) == NavBps(1.0, after / before, 1.0)
    ensures Quotes(first.feeds, Some(before), None, None) && Quotes(r.feeds, Some(after), None, None) ==>
      Target(After(System(FRESH, 10_000), first).memory, r.feeds) == NavBps(after / before, 1.0, 1.0)
    ensures Quotes(first.feeds, None, None, None) && Quotes(r.feeds, None, None, Some(eusx)) ==>
      Target(After(System(FRESH, 10_000), first).memory, r.feeds) == NavBps(1.0, 1.0, eusx)
  {}

  /** The NAV after two rounds from launch, the second of which may send and is delivered. */
  predicate ReachesFromPar(first: Round, r: Round, nav: int) {
    var s := After(System(FRESH, 10_000), first);
    Target(s.memory, r.feeds) == nav &&
    (r.vaultRead && r.delivered && r.checkMs >= first.ackMs + 90_000 ==> After(s, r).nav == nav)
  }

  /** First quotes aim at par, so the NAV is still there when the second ones come. */
  lemma ReachedFromPar(first: Round, r: Round, nav: int)
    requires Target(FRESH, first.feeds) == 10_000 && 9_000 <= nav <= 11_000
    requires Target(After(System(FRESH, 10_000), first).memory, r.feeds) == nav
    ensures ReachesFromPar(first, r, nav)
  {
    RoundExactly(System(FRESH, 10_000), first);
    RoundExactly(After(System(FRESH, 10_000), first), r);
  }

  lemma FirstQuotesAimAtPar(f: Feeds)
    requires f.eusx == None && (Priced(f.gold).Some? ==> Priced(f.gold).value > 0.0)
    requires Priced(f.chf).Some? ==> Priced(f.chf).value > 0.0
    ensures Target(FRESH, f) == 10_000
  {
    if Priced(f.gold).Some? { SelfQuotient(Priced(f.gold).value); }
    if Priced(f.chf).Some? { SelfQuotient(Priced(f.chf).value); }
  }

  /** The franc quoted at 1.00 and then at 1.10 is aimed at, and reached, as 10300. */
  lemma FrancAtOnePointOne(first: Round, r: Round)
    requires Quotes(first.feeds, None, Some(1.0), None) && Quotes(r.feeds, None, Some(1.1), None)
    ensures ReachesFromPar(first, r, 10_300)
  {
    assert NavBps(1.0, 1.1 / 1.0, 1.0) == 10_300;
    FirstQuotesAimAtPar(first.feeds);
    AimAfterTwoQuotes(first, r, 1.0, 1.1, 1.1);
    ReachedFromPar(first, r, 10_300);
  }

  /** eUSX at 1.1, with no other price, as 10200. */
  lemma EusxAtOnePointOne(first: Round, r: Round)
    requires Quotes(first.feeds, None, None, None) && Quotes(r.feeds, None, None, Some(1.1))
    ensures ReachesFromPar(first, r, 10_200)
  {
    assert NavBps(1.0, 1.0, 1.1) == 10_200;
    FirstQuotesAimAtPar(first.feeds);
    AimAfterTwoQuotes(first, r, 1.0, 1.1, 1.1);
    ReachedFromPar(first, r, 10_200);
  }

  /** Gold quoted at 100 and then at 110 as 10500. */
  lemma GoldAtHundredTen(first: Round, r: Round)
    requires Quotes(first.feeds, Some(100.0), None, None) && Quotes(r.feeds, Some(110.0), None, None)
    ensures ReachesFromPar(first, r, 10_500)
  {
    assert NavBps(110.0 / 100.0, 1.0, 1.0) == 10_500;
    FirstQuotesAimAtPar(first.feeds);
    AimAfterTwoQuotes(first, r, 100.0, 110.0, 1.1);
    ReachedFromPar(first, r, 10_500);
  }
}
