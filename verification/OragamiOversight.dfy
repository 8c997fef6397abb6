/** Who may run the yield vault: when each administrative instruction is accepted, what it writes, and
    what that means for whole runs. Stated on the vault's own fields and on numbers. */
module OragamiOversight {
  import opened Results
  import opened FixedPoint
  import opened TokenLedger
  import opened Compliance
  import opened NavGuard
  import opened YieldAccrual
  import opened OragamiSpec

  /** The designated operator acts for the vault; without one, the authority does. */
  predicate MayOperate(v: Vault, signer: Pubkey) {
    if v.operator == Default then signer == v.authority else signer == v.operator
  }

  // ---------------------------------------------------------------- launch

  /** Initialisation is refused only for limits the wrong way round; the vault starts at par, open, empty,
      with nothing accrued and no strategy accounts. */
  lemma LaunchExactly(p: Launch, now: Time)
    ensures LaunchedVault(p, now).Ok? <==> p.minDeposit <= p.maxDeposit
    ensures LaunchedVault(p, now).Ok? ==>
      var v := LaunchedVault(p, now).value;
      && v.authority == p.authority && v.operator == p.operator
      && v.minDeposit == p.minDeposit && v.maxDeposit == p.maxDeposit
      && v.usxAllocationBps == p.usxAllocationBps && v.apyBps == p.apyBps
      && v.secondaryMarketEnabled == p.secondaryMarketEnabled && !v.paused
      && v.navPriceBps == 10_000 && v.totalDeposits == 0 && v.totalSupply == 0
      && v.pendingYield == 0 && v.lastYieldClaim == now
      && v.usxAccount == Default && v.eusxAccount == Default
  {}

  // ---------------------------------------------------------------- the operator's instructions

  /** A price is accepted exactly from the operator, once there is a registry, and within half of the
      current price; it changes the price and the registry's time stamp. */
  lemma SetNavExactly(s: State, signer: Pubkey, nav: u64)
    ensures SetNavStep(s, signer, nav).Ok? <==>
      && s.registry.Some? && MayOperate(s.vault, signer) && nav > 0
      && s.vault.navPriceBps - s.vault.navPriceBps / 2 <= nav <= s.vault.navPriceBps + s.vault.navPriceBps / 2
      && s.vault.navPriceBps + s.vault.navPriceBps / 2 <= 18_446_744_073_709_551_615
    ensures SetNavStep(s, signer, nav).Ok? ==>
      SetNavStep(s, signer, nav).value ==
        s.(vault := s.vault.(navPriceBps := nav), registry := Some(Registry(s.registry.value.linkHash, s.now)))
  {
    YieldGuardAccepts(s.vault.navPriceBps, nav);
  }

  /** Full days since the counter. */
  function Days(s: State): nat {
    if s.now > s.vault.lastYieldClaim then (s.now - s.vault.lastYieldClaim) / 86_400 else 0
  }

  /** The yearly yield in ten-thousandths of a unit, floored once on the way. */
  function YearlyTenThousandths(v: Vault): nat {
    Product(v.totalDeposits, v.usxAllocationBps);
    Product(v.totalDeposits * v.usxAllocationBps / 10_000, v.apyBps);
    v.totalDeposits * v.usxAllocationBps / 10_000 * v.apyBps
  }

  /** Yield of the full days since the counter. */
  function Due(s: State): nat {
    Product(YearlyTenThousandths(s.vault) / 10_000 / 365, Days(s));
    YearlyTenThousandths(s.vault) / 10_000 / 365 * Days(s)
  }

  /** Processing is accepted exactly from the operator, if less than a day has passed or the two products
      and the sum fit; it adds the yield of the full days, moves the counter by them, and writes nothing
      else. */
  lemma ProcessYieldExactly(s: State, signer: Pubkey)
    ensures ProcessYieldStep(s, signer).Ok? <==>
      MayOperate(s.vault, signer) &&
      (Days(s) == 0 ||
       (&& s.vault.totalDeposits * s.vault.usxAllocationBps <= 18_446_744_073_709_551_615
        && YearlyTenThousandths(s.vault) <= 18_446_744_073_709_551_615
        && s.vault.pendingYield + Due(s) <= 18_446_744_073_709_551_615))
    ensures ProcessYieldStep(s, signer).Err? ==>
      ProcessYieldStep(s, signer).error == if MayOperate(s.vault, signer) then Overflow else OperatorNotAuthorized
    ensures ProcessYieldStep(s, signer).Ok? ==>
      var t := ProcessYieldStep(s, signer).value;
      && t.vault.pendingYield == s.vault.pendingYield + Due(s)
      && t.vault.lastYieldClaim == s.vault.lastYieldClaim + Days(s) * 86_400
      && t == s.(vault := s.vault.(pendingYield := t.vault.pendingYield, lastYieldClaim := t.vault.lastYieldClaim))
  {
    var v := s.vault;
    var daily := DailyYield(v.totalDeposits, v.usxAllocationBps, v.apyBps);
    DailyYieldExactly(v.totalDeposits, v.usxAllocationBps, v.apyBps);
    if Days(s) > 0 && daily.Ok? {
      assert daily.value == YearlyTenThousandths(v) / 10_000 / 365;
      ProcessAccepted(daily.value, v.Yield(), s.now);
    }
  }

  /** Distributing and syncing are accepted exactly from the operator. A distribution clears what is pending
      and moves the counter to now, or does nothing if nothing is; a sync moves the counter alone. */
  lemma DistributeAndSyncExactly(s: State, signer: Pubkey)
    ensures DistributeYieldStep(s, signer) ==
      if !MayOperate(s.vault, signer) then Err(OperatorNotAuthorized)
      else if s.vault.pendingYield == 0 then Ok(s)
      else Ok(s.(vault := s.vault.(pendingYield := 0, lastYieldClaim := s.now)))
    ensures SyncYieldStep(s, signer) ==
      if MayOperate(s.vault, signer) then Ok(s.(vault := s.vault.(lastYieldClaim := s.now)))
      else Err(OperatorNotAuthorized)
  {}

  /** An attestation is accepted exactly from the operator with the registry's digest, and dated now. */
  lemma PostAttestationExactly(s: State, signer: Pubkey, hash: nat)
    ensures PostAttestationStep(s, signer, hash).Ok? <==>
      s.registry.Some? && MayOperate(s.vault, signer) && hash == s.registry.value.linkHash
    ensures PostAttestationStep(s, signer, hash).Ok? ==>
      PostAttestationStep(s, signer, hash).value ==
        s.(attestation := Some(Attestation(s.registry.value.linkHash, s.now)))
  {}

  /** Strategy accounts are registered exactly by the operator. */
  lemma RegisterUsxExactly(s: State, signer: Pubkey, usx: Pubkey, eusx: Pubkey)
    ensures RegisterUsxStep(s, signer, usx, eusx).Ok? <==> MayOperate(s.vault, signer)
    ensures RegisterUsxStep(s, signer, usx, eusx).Ok? ==>
      RegisterUsxStep(s, signer, usx, eusx).value == s.(vault := s.vault.(usxAccount := usx, eusxAccount := eusx))
  {}

  // ---------------------------------------------------------------- the authority's instructions

  /** The pause flag is set exactly by the authority, to what it says. */
  lemma SetPauseExactly(s: State, signer: Pubkey, paused: bool)
    ensures SetPauseStep(s, signer, paused).Ok? <==> signer == s.vault.authority
    ensures SetPauseStep(s, signer, paused).Ok? ==>
      SetPauseStep(s, signer, paused).value == s.(vault := s.vault.(paused := paused))
  {}

  /** A setting after an update: the given value, or the old one. */
  predicate Updated<T(==)>(given: Option<T>, before: T, after: T) {
    after == if given.Some? then given.value else before
  }

  /** The configuration is updated exactly by the authority, with an allocation of at most par and, where
      the mandate is supplied, at most its ceiling; each setting supplied is taken over, each other kept. */
  lemma UpdateConfigExactly(s: State, signer: Pubkey, c: ConfigUpdate, withMandate: bool)
    ensures UpdateConfigStep(s, signer, c, withMandate).Ok? <==>
      && signer == s.vault.authority && (withMandate ==> s.mandate.Some?)
      && (c.usxAllocationBps.Some? ==> c.usxAllocationBps.value <= 10_000)
      && (c.usxAllocationBps.Some? && withMandate ==>
            c.usxAllocationBps.value <= s.mandate.value.maxUsxAllocationBps)
    ensures UpdateConfigStep(s, signer, c, withMandate).Ok? ==>
      var t := UpdateConfigStep(s, signer, c, withMandate).value;
      var v, w := s.vault, t.vault;
      && Updated(c.minDeposit, v.minDeposit, w.minDeposit)
      && Updated(c.maxDeposit, v.maxDeposit, w.maxDeposit)
      && Updated(c.usxAllocationBps, v.usxAllocationBps, w.usxAllocationBps)
      && Updated(c.apyBps, v.apyBps, w.apyBps)
      && Updated(c.secondaryMarketEnabled, v.secondaryMarketEnabled, w.secondaryMarketEnabled)
      && t == s.(vault := v.(minDeposit := w.minDeposit, maxDeposit := w.maxDeposit,
                             usxAllocationBps := w.usxAllocationBps, apyBps := w.apyBps,
                             secondaryMarketEnabled := w.secondaryMarketEnabled))
  {}

  /** A credential is issued exactly by the authority, once per wallet, to expire after its issue date. */
  lemma IssueCredentialExactly(s: State, signer: Pubkey, wallet: Pubkey, issuedAt: int, expiresAt: int)
    ensures IssueCredentialStep(s, signer, wallet, issuedAt, expiresAt).Ok? <==>
      signer == s.vault.authority && wallet !in s.credentials && expiresAt > issuedAt
    ensures IssueCredentialStep(s, signer, wallet, issuedAt, expiresAt).Ok? ==>
      var t := IssueCredentialStep(s, signer, wallet, issuedAt, expiresAt).value;
      Issued(s.credentials, t.credentials, wallet, issuedAt, expiresAt) && t == s.(credentials := t.credentials)
  {}

  /** A credential is revoked exactly by the authority, if it is not revoked yet. */
  lemma RevokeCredentialExactly(s: State, signer: Pubkey, wallet: Pubkey)
    requires WellKept(s.credentials)
    ensures RevokeCredentialStep(s, signer, wallet).Ok? <==>
      signer == s.vault.authority && wallet in s.credentials && s.credentials[wallet].status != 3
    ensures RevokeCredentialStep(s, signer, wallet).Ok? ==>
      var t := RevokeCredentialStep(s, signer, wallet).value;
      Revoked(s.credentials, t.credentials, wallet) && t == s.(credentials := t.credentials)
  {}

  /** A mandate is set exactly once, by the authority, with buffer and ceiling within par; enforcement is
      switched by the authority once there is one. */
  lemma MandateExactly(s: State, signer: Pubkey, m: Mandate, active: bool)
    ensures InitializeMandateStep(s, signer, m).Ok? <==>
      signer == s.vault.authority && s.mandate.None? && m.minLiquidityBufferBps + m.maxUsxAllocationBps <= 10_000
    ensures InitializeMandateStep(s, signer, m).Ok? ==>
      InitializeMandateStep(s, signer, m).value == s.(mandate := Some(m))
    ensures SetEnforcementStep(s, signer, active).Ok? <==> signer == s.vault.authority && s.mandate.Some?
    ensures SetEnforcementStep(s, signer, active).Ok? ==>
      var was := s.mandate.value;
      SetEnforcementStep(s, signer, active).value == s.(mandate := Some(
        Mandate(was.minLiquidityBufferBps, was.maxUsxAllocationBps, was.minCollateralRatioBps, active)))
  {}

  /** A registry is set exactly once, by the authority, who may then replace its digest; either dates it. */
  lemma RegistryExactly(s: State, signer: Pubkey, hash: nat, newHash: Option<nat>)
    ensures InitializeRegistryStep(s, signer, hash).Ok? <==> signer == s.vault.authority && s.registry.None?
    ensures InitializeRegistryStep(s, signer, hash).Ok? ==>
      InitializeRegistryStep(s, signer, hash).value == s.(registry := Some(Registry(hash, s.now)))
    ensures UpdateRegistryStep(s, signer, newHash).Ok? <==> signer == s.vault.authority && s.registry.Some?
    ensures UpdateRegistryStep(s, signer, newHash).Ok? ==>
      var t := UpdateRegistryStep(s, signer, newHash).value;
      && t.registry.Some? && t.registry.value.lastVerifiedAt == s.now
      && Updated(newHash, s.registry.value.linkHash, t.registry.value.linkHash)
      && t == s.(registry := t.registry)
  {}

  /** A record is created exactly for its signer, once, and only for an amount that needs one. */
  lemma InitTravelRuleExactly(s: State, payer: Pubkey, nonce: nat, amount: u64)
    ensures InitTravelRuleStep(s, payer, nonce, amount).Ok? <==>
      payer.Key? && RecordId(payer, nonce) !in s.records && amount >= 1_000_000_000
    ensures InitTravelRuleStep(s, payer, nonce, amount).Ok? ==>
      var t := InitTravelRuleStep(s, payer, nonce, amount).value;
      Recorded(s.records, t.records, payer, nonce, amount) && t == s.(records := t.records)
  {}

  // ---------------------------------------------------------------- who signed, over whole runs

  predicate ByOperator(i: Instruction) {
    i.SetNav? || i.ProcessYield? || i.DistributeYield? || i.SyncYield? || i.PostAttestation? || i.RegisterUsxAccounts?
  }

  predicate ByAuthority(i: Instruction) {
    i.SetPause? || i.UpdateConfig? || i.IssueCredential? || i.RevokeCredential? || i.InitializeMandate? ||
    i.SetEnforcement? || i.InitializeRegistry? || i.UpdateRegistry?
  }

  lemma OperatorSigned(s: State, i: Instruction)
    requires ByOperator(i) && Execute(s, i).Ok?
    ensures MayOperate(s.vault, i.signer)
  {}

  lemma AuthoritySigned(s: State, i: Instruction)
    requires ByAuthority(i) && Execute(s, i).Ok?
    ensures i.signer == s.vault.authority
  {}

  /** Nobody ever takes over: the authority and the operator are those of the start. */
  predicate SameKeys(v: Vault, w: Vault) {
    v.authority == w.authority && v.operator == w.operator
  }

  lemma TokenStepsKeepKeys(s: State, i: Instruction)
    requires !ByOperator(i) && !ByAuthority(i) && Execute(s, i).Ok?
    ensures SameKeys(s.vault, Execute(s, i).value.vault)
  {}

  lemma OverseersKeepKeys(s: State, i: Instruction)
    requires (ByOperator(i) || ByAuthority(i)) && Execute(s, i).Ok?
    ensures SameKeys(s.vault, Execute(s, i).value.vault)
  {}

  lemma SurroundingsKeepVault(s: State, o: Surroundings)
    requires Happen(s, o).Ok?
    ensures Happen(s, o).value.vault == s.vault
  {}

  lemma {:induction false} KeysNeverChange(s: State, es: seq<Event>)
    ensures SameKeys(s.vault, Run(s, es).vault)
    decreases es
  {
    if es != [] {
      if Attempt(s, es[0]).Ok? {
        match es[0]
        case Outside(o) => SurroundingsKeepVault(s, o);
        case Program(i) =>
          if ByOperator(i) || ByAuthority(i) { OverseersKeepKeys(s, i); } else { TokenStepsKeepKeys(s, i); }
      }
      KeysNeverChange(Next(s, es[0]), es[1..]);
    }
  }

  /** In every run, each accepted instruction of the operator carries the signature of the operator named
      at the start, or of the authority if none was, and each of the authority that of the authority. */
  lemma SignedInEveryRun(s: State, es: seq<Event>, i: nat)
    requires i < |es| && es[i].Program? && Attempt(Run(s, es[..i]), es[i]).Ok?
    ensures ByOperator(es[i].instruction) ==> MayOperate(s.vault, es[i].instruction.signer)
    ensures ByAuthority(es[i].instruction) ==> es[i].instruction.signer == s.vault.authority
  {
    KeysNeverChange(s, es[..i]);
    var t := Run(s, es[..i]);
    if ByOperator(es[i].instruction) { OperatorSigned(t, es[i].instruction); }
    if ByAuthority(es[i].instruction) { AuthoritySigned(t, es[i].instruction); }
  }

  /** Once an operator is designated, the authority alone can do none of the operator's work, in any
      later state. */
  lemma AuthorityAloneCannotOperate(s: State, es: seq<Event>, i: Instruction)
    requires s.vault.operator != Default && s.vault.operator != s.vault.authority
    requires ByOperator(i) && i.signer == s.vault.authority
    ensures Execute(Run(s, es), i).Err?
  {
    KeysNeverChange(s, es);
    if Execute(Run(s, es), i).Ok? { OperatorSigned(Run(s, es), i); }
  }

  // ---------------------------------------------------------------- settings, over whole runs

  /** What the authority sets and everybody else relies on. */
  datatype Settings = Settings(minDeposit: u64, maxDeposit: u64, usxAllocationBps: u16, apyBps: u16,
    secondaryMarketEnabled: bool, paused: bool)

  function SettingsOf(v: Vault): Settings {
    Settings(v.minDeposit, v.maxDeposit, v.usxAllocationBps, v.apyBps, v.secondaryMarketEnabled, v.paused)
  }

  function Amended(x: Settings, i: Instruction): Settings {
    match i
    case SetPause(_, paused) => x.(paused := paused)
    case UpdateConfig(_, c, _) =>
      Settings(
        if c.minDeposit.Some? then c.minDeposit.value else x.minDeposit,
        if c.maxDeposit.Some? then c.maxDeposit.value else x.maxDeposit,
        if c.usxAllocationBps.Some? then c.usxAllocationBps.value else x.usxAllocationBps,
        if c.apyBps.Some? then c.apyBps.value else x.apyBps,
        if c.secondaryMarketEnabled.Some? then c.secondaryMarketEnabled.value else x.secondaryMarketEnabled,
        x.paused)
    case _ => x
  }

  /** The accepted amendments of the run, applied to `x` in order. */
  function Amendments(s: State, es: seq<Event>, x: Settings): Settings
    decreases es
  {
    if es == [] then x else
    Amendments(Next(s, es[0]), es[1..],
      if es[0].Program? && Attempt(s, es[0]).Ok? then Amended(x, es[0].instruction) else x)
  }

  lemma TokenStepsKeepSettings(s: State, i: Instruction)
    requires !ByOperator(i) && !ByAuthority(i) && Execute(s, i).Ok?
    ensures SettingsOf(Execute(s, i).value.vault) == SettingsOf(s.vault)
  {}

  lemma OverseersAmend(s: State, i: Instruction)
    requires (ByOperator(i) || ByAuthority(i)) && Execute(s, i).Ok?
    ensures SettingsOf(Execute(s, i).value.vault) == Amended(SettingsOf(s.vault), i)
  {}

  /** In every run the settings are those of the start with the accepted amendments applied, and nothing
      else touches them. */
  lemma {:induction false} SettingsAreAmended(s: State, es: seq<Event>)
    ensures SettingsOf(Run(s, es).vault) == Amendments(s, es, SettingsOf(s.vault))
    decreases es
  {
    if es != [] {
      if Attempt(s, es[0]).Ok? {
        match es[0]
        case Outside(o) => SurroundingsKeepVault(s, o);
        case Program(i) =>
          if ByOperator(i) || ByAuthority(i) { OverseersAmend(s, i); } else { TokenStepsKeepSettings(s, i); }
      }
      SettingsAreAmended(Next(s, es[0]), es[1..]);
    }
  }

  // ---------------------------------------------------------------- bringing a holder in

  /** Whoever opens an account of USDC can be given USDC, and cVAULT accounts can be opened likewise. */
  lemma HolderCanBeFunded(s: State, key: Pubkey, owner: Pubkey, amount: u64)
    requires key !in s.usdc.accounts && key !in s.cvault.accounts && s.usdc.supply + amount <= U64_MAX
    ensures var t := Next(Next(Next(s, Outside(OpenAccount(Usdc, key, owner))), Outside(IssueUsdc(key, amount))),
                          Outside(OpenAccount(Cvault, key, owner)));
      && t.usdc.Owns(owner, key) && t.usdc.Balance(key) == amount && t.usdc.supply == s.usdc.supply + amount
      && t.cvault.Owns(owner, key) && t.cvault.Balance(key) == 0 && t.cvault.supply == s.cvault.supply
  {
    var before := Next(s, Outside(OpenAccount(Usdc, key, owner)));
    assert before.usdc.Owns(owner, key) && before.usdc.Balance(key) == 0;
  }
}
