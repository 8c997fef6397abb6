/** Running the factory: when each administrative instruction is accepted and what it writes, and that a
    vault keeps the terms it was registered with. */
module CustodyOversight {
  import opened FixedPoint
  import opened TokenLedger
  import opened Compliance
  import opened NavGuard
  import opened CustodySpec
  import opened CustodyRefinement
  import opened CustodyTravelRule

  // ---------------------------------------------------------------- registration

  /** In every reachable factory, registration is accepted exactly from the authority, for a mint without
      a vault, with a positive price, limits the right way round, and fewer than 16 vaults. */
  lemma RegisterExactly(f: Factory, signer: Pubkey, asset: Pubkey, nav: u64, low: u64, high: u64, travelRule: bool)
    requires Inv(f)
    ensures RegisterAssetStep(f, signer, asset, nav, low, high, travelRule).Ok? <==>
      && signer == f.authority && asset in f.ledgers && asset !in f.vaults
      && nav > 0 && low <= high && |f.registered| < 16
  {
    assert Sound(f, asset);
    assert asset in f.registered <==> asset in f.vaults;
  }

  /** The new vault has the given price, limits and travel rule; it is open and empty. */
  ghost predicate NewVault(v: AssetVault, nav: u64, low: u64, high: u64, travelRule: bool) {
    && v.navPriceBps == nav && v.minDeposit == low && v.maxDeposit == high
    && v.travelRuleRequired == travelRule && !v.paused
    && v.totalDeposits == 0 && v.totalSupply == 0
  }

  /** Registration adds that vault at the end of the registry, a share mint without supply or accounts, and
      an empty account of the asset that the vault alone can sign for; it changes nothing else. */
  lemma RegisterAdds(f: Factory, signer: Pubkey, asset: Pubkey, nav: u64, low: u64, high: u64, travelRule: bool)
    requires RegisterAssetStep(f, signer, asset, nav, low, high, travelRule).Ok?
    ensures var g := RegisterAssetStep(f, signer, asset, nav, low, high, travelRule).value;
      && g.authority == f.authority && g.records == f.records && g.credentials == f.credentials
      && g.registered == f.registered + [asset]
      && g.vaults.Keys == f.vaults.Keys + {asset} && asset !in f.vaults
      && NewVault(g.vaults[asset], nav, low, high, travelRule)
      && (forall k <- f.vaults :: g.vaults[k] == f.vaults[k])
    ensures var g, share := RegisterAssetStep(f, signer, asset, nav, low, high, travelRule).value,
                            ShareMintAddress(asset);
      && g.ledgers.Keys == f.ledgers.Keys + {share} && share !in f.ledgers && asset in f.ledgers
      && g.ledgers[share].supply == 0 && g.ledgers[share].accounts == map[]
      && g.ledgers[asset].Owns(AssetVaultAddress(asset), AssetTokenAddress(asset))
      && g.ledgers[asset].Balance(AssetTokenAddress(asset)) == 0
      && g.ledgers[asset].supply == f.ledgers[asset].supply
      && g.ledgers[asset].accounts.Keys == f.ledgers[asset].accounts.Keys + {AssetTokenAddress(asset)}
      && (forall k <- f.ledgers[asset].accounts :: g.ledgers[asset].accounts[k] == f.ledgers[asset].accounts[k])
      && (forall mint <- f.ledgers :: mint != asset ==> g.ledgers[mint] == f.ledgers[mint])
  {}

  // ---------------------------------------------------------------- price, pause, records, credentials

  /** A price is accepted exactly from the authority, for a registered asset, within half of the current
      price while that times 5000 fits; it changes that vault's price alone. */
  lemma SetNavExactly(f: Factory, signer: Pubkey, asset: Pubkey, nav: u64)
    ensures SetNavStep(f, signer, asset, nav).Ok? <==>
      && signer == f.authority && asset in f.vaults && nav > 0
      && f.vaults[asset].navPriceBps * 5_000 <= 18_446_744_073_709_551_615
      && f.vaults[asset].navPriceBps <= 2 * nav && 2 * nav <= 3 * f.vaults[asset].navPriceBps
    ensures SetNavStep(f, signer, asset, nav).Ok? ==>
      SetNavStep(f, signer, asset, nav).value ==
        f.(vaults := f.vaults[asset := f.vaults[asset].(navPriceBps := nav)])
  {
    if asset in f.vaults { CustodyGuardAccepts(f.vaults[asset].navPriceBps, nav); }
  }

  /** A vault's pause flag is set exactly by the authority, to what it says. */
  lemma PauseVaultExactly(f: Factory, signer: Pubkey, asset: Pubkey, paused: bool)
    ensures PauseVaultStep(f, signer, asset, paused).Ok? <==> signer == f.authority && asset in f.vaults
    ensures PauseVaultStep(f, signer, asset, paused).Ok? ==>
      PauseVaultStep(f, signer, asset, paused).value ==
        f.(vaults := f.vaults[asset := f.vaults[asset].(paused := paused)])
  {}

  /** A record is created exactly for its signer, once, and only for an amount that needs one. */
  lemma InitTravelRuleExactly(f: Factory, payer: Pubkey, nonce: nat, amount: u64)
    ensures InitTravelRuleStep(f, payer, nonce, amount).Ok? <==>
      payer.Key? && RecordId(payer, nonce) !in f.records && amount >= 1_000_000_000
    ensures InitTravelRuleStep(f, payer, nonce, amount).Ok? ==>
      var g := InitTravelRuleStep(f, payer, nonce, amount).value;
      Recorded(f.records, g.records, payer, nonce, amount) && g == f.(records := g.records)
  {}

  /** The factory's own credentials: issued exactly by the authority, once per wallet, dated now, to expire
      later. */
  lemma IssueCredentialExactly(f: Factory, c: Context, signer: Pubkey, wallet: Pubkey, expiresAt: int)
    ensures IssueCredentialStep(f, c, signer, wallet, expiresAt).Ok? <==>
      signer == f.authority && wallet !in f.credentials && expiresAt > c.now
    ensures IssueCredentialStep(f, c, signer, wallet, expiresAt).Ok? ==>
      var g := IssueCredentialStep(f, c, signer, wallet, expiresAt).value;
      Issued(f.credentials, g.credentials, wallet, c.now, expiresAt) && g == f.(credentials := g.credentials)
  {}

  /** And revoked exactly by the authority, if not revoked yet. */
  lemma RevokeCredentialExactly(f: Factory, signer: Pubkey, wallet: Pubkey)
    requires WellKept(f.credentials)
    ensures RevokeCredentialStep(f, signer, wallet).Ok? <==>
      signer == f.authority && wallet in f.credentials && f.credentials[wallet].status != 3
    ensures RevokeCredentialStep(f, signer, wallet).Ok? ==>
      var g := RevokeCredentialStep(f, signer, wallet).value;
      Revoked(f.credentials, g.credentials, wallet) && g == f.(credentials := g.credentials)
  {}

  // ---------------------------------------------------------------- terms over whole runs

  predicate SameTerms(v: AssetVault, w: AssetVault) {
    v.minDeposit == w.minDeposit && v.maxDeposit == w.maxDeposit && v.travelRuleRequired == w.travelRuleRequired
  }

  /** The pause flag of `k` after an accepted event. */
  function PauseAfter(e: Event, k: Pubkey, paused: bool): bool {
    if e.Program? && e.instruction.PauseVault? && e.instruction.asset == k then e.instruction.paused else paused
  }

  lemma ExchangesKeepTerms(f: Factory, c: Context, i: Instruction, k: Pubkey)
    requires k in f.vaults && (i.Deposit? || i.Redeem?) && Execute(f, c, i).Ok?
    ensures k in Execute(f, c, i).value.vaults
    ensures SameTerms(f.vaults[k], Execute(f, c, i).value.vaults[k])
    ensures Execute(f, c, i).value.vaults[k].paused == f.vaults[k].paused
  {}

  lemma OthersKeepTerms(f: Factory, c: Context, i: Instruction, k: Pubkey)
    requires k in f.vaults && !(i.Deposit? || i.Redeem?) && Execute(f, c, i).Ok?
    ensures k in Execute(f, c, i).value.vaults
    ensures SameTerms(f.vaults[k], Execute(f, c, i).value.vaults[k])
    ensures Execute(f, c, i).value.vaults[k].paused == PauseAfter(Program(c, i), k, f.vaults[k].paused)
  {}

  lemma SurroundingsKeepVaults(f: Factory, o: Surroundings)
    requires Happen(f, o).Ok?
    ensures Happen(f, o).value.vaults == f.vaults
  {}

  lemma StepKeepsTerms(f: Factory, e: Event, k: Pubkey)
    requires k in f.vaults
    ensures k in Next(f, e).vaults && SameTerms(f.vaults[k], Next(f, e).vaults[k])
    ensures Next(f, e).vaults[k].paused ==
      if Attempt(f, e).Ok? then PauseAfter(e, k, f.vaults[k].paused) else f.vaults[k].paused
  {
    if Attempt(f, e).Ok? {
      match e
      case Outside(o) => SurroundingsKeepVaults(f, o);
      case Program(c, i) =>
        if i.Deposit? || i.Redeem? { ExchangesKeepTerms(f, c, i, k); } else { OthersKeepTerms(f, c, i, k); }
    }
  }

  /** The last accepted setting of the pause flag of `k`, or `paused` if the run has none. */
  function LastPause(f: Factory, es: seq<Event>, k: Pubkey, paused: bool): bool
    decreases es
  {
    if es == [] then paused else
    LastPause(Next(f, es[0]), es[1..], k, if Attempt(f, es[0]).Ok? then PauseAfter(es[0], k, paused) else paused)
  }

  /** Once registered, a vault stays, with the limits and the travel rule of its registration; its pause
      flag is as last set. */
  lemma {:induction false} TermsNeverChange(f: Factory, es: seq<Event>, k: Pubkey)
    requires k in f.vaults
    ensures k in Run(f, es).vaults && SameTerms(f.vaults[k], Run(f, es).vaults[k])
    ensures Run(f, es).vaults[k].paused == LastPause(f, es, k, f.vaults[k].paused)
    decreases es
  {
    if es != [] {
      StepKeepsTerms(f, es[0], k);
      TermsNeverChange(Next(f, es[0]), es[1..], k);
    }
  }

  /** From its registration on, every accepted deposit of at least 1_000_000_000 units into a vault falls
      under the travel rule if and only if the vault was registered with it, and then it has consumed its
      own record for the same depositor and amount. */
  lemma RegistrationDecidesTravelRule(f: Factory, signer: Pubkey, asset: Pubkey, nav: u64, low: u64, high: u64,
      travelRule: bool, es: seq<Event>, i: nat)
    requires RegisterAssetStep(f, signer, asset, nav, low, high, travelRule).Ok? && i < |es|
    requires es[i].Program? && es[i].instruction.Deposit? && es[i].instruction.asset == asset
    requires var g := RegisterAssetStep(f, signer, asset, nav, low, high, travelRule).value;
      Attempt(Run(g, es[..i]), es[i]).Ok?
    ensures var g, d := RegisterAssetStep(f, signer, asset, nav, low, high, travelRule).value, es[i].instruction;
      && (LargeDeposit(g, es, i) <==> travelRule && d.amount >= 1_000_000_000)
      && (LargeDeposit(g, es, i) ==>
            RecordOf(d) in Run(g, es).records && Run(g, es).records[RecordOf(d)] == Record(d.depositor, d.amount, true))
  {
    RegisterAdds(f, signer, asset, nav, low, high, travelRule);
    var g := RegisterAssetStep(f, signer, asset, nav, low, high, travelRule).value;
    TermsNeverChange(g, es[..i], asset);
    LargeDepositsHaveOwnRecords(g, es);
  }

  // ---------------------------------------------------------------- who signed

  predicate ByAuthority(i: Instruction) {
    i.RegisterAsset? || i.SetNav? || i.PauseVault? || i.IssueCredential? || i.RevokeCredential?
  }

  lemma ExchangesKeepAuthority(f: Factory, c: Context, i: Instruction)
    requires (i.Deposit? || i.Redeem?) && Execute(f, c, i).Ok?
    ensures Execute(f, c, i).value.authority == f.authority
  {}

  lemma OthersKeepAuthority(f: Factory, c: Context, i: Instruction)
    requires !(i.Deposit? || i.Redeem?) && Execute(f, c, i).Ok?
    ensures Execute(f, c, i).value.authority == f.authority
    ensures ByAuthority(i) ==> i.signer == f.authority
  {}

  lemma SurroundingsKeepAuthority(f: Factory, o: Surroundings)
    requires Happen(f, o).Ok?
    ensures Happen(f, o).value.authority == f.authority
  {}

  lemma AuthorityKept(f: Factory, e: Event)
    ensures Next(f, e).authority == f.authority
    ensures e.Program? && ByAuthority(e.instruction) && Attempt(f, e).Ok? ==> e.instruction.signer == f.authority
  {
    if Attempt(f, e).Ok? {
      match e
      case Outside(o) => SurroundingsKeepAuthority(f, o);
      case Program(c, i) =>
        if i.Deposit? || i.Redeem? { ExchangesKeepAuthority(f, c, i); } else { OthersKeepAuthority(f, c, i); }
    }
  }

  lemma {:induction false} AuthorityNeverChanges(f: Factory, es: seq<Event>)
    ensures Run(f, es).authority == f.authority
    decreases es
  {
    if es != [] {
      AuthorityKept(f, es[0]);
      AuthorityNeverChanges(Next(f, es[0]), es[1..]);
    }
  }

  /** In every run each accepted registration, price, pause or credential instruction carries the signature
      of the authority of the start. */
  lemma SignedInEveryRun(f: Factory, es: seq<Event>, i: nat)
    requires i < |es| && es[i].Program? && ByAuthority(es[i].instruction) && Attempt(Run(f, es[..i]), es[i]).Ok?
    ensures es[i].instruction.signer == f.authority
  {
    AuthorityNeverChanges(f, es[..i]);
    AuthorityKept(Run(f, es[..i]), es[i]);
  }

  // ---------------------------------------------------------------- bringing a vault up

  /** A mint that is new to the factory can be registered at once. */
  lemma NewMintCanBeRegistered(f: Factory, mint: Pubkey, nav: u64, low: u64, high: u64, travelRule: bool)
    requires Inv(f) && mint !in f.ledgers && !mint.ShareMintAddress?
    requires nav > 0 && low <= high && |f.registered| < 16
    ensures RegisterAssetStep(Next(f, Outside(CreateMint(mint))), f.authority, mint, nav, low, high, travelRule).Ok?
  {
    assert Sound(f, mint);
    assert mint in f.registered <==> mint in f.vaults;
  }

  /** And whoever opens an account of it can be given tokens. */
  lemma HolderCanBeFunded(f: Factory, mint: Pubkey, key: Pubkey, owner: Pubkey, amount: u64)
    requires mint in f.ledgers && !mint.ShareMintAddress? && key !in f.ledgers[mint].accounts && !key.AssetTokenAddress?
    requires f.ledgers[mint].supply + amount <= U64_MAX
    ensures var g := Next(Next(f, Outside(OpenAccount(mint, key, owner))), Outside(IssueTokens(mint, key, amount)));
      && mint in g.ledgers && g.ledgers[mint].Owns(owner, key) && g.ledgers[mint].Balance(key) == amount
      && g.ledgers[mint].supply == f.ledgers[mint].supply + amount
  {
    var before := Next(f, Outside(OpenAccount(mint, key, owner)));
    assert before.ledgers[mint].Owns(owner, key) && before.ledgers[mint].Balance(key) == 0;
  }
}
