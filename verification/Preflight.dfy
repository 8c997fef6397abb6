/** What both preflight services report to a client before a deposit. */
module Preflight {
  import opened Results
  import opened FixedPoint

  datatype Prediction = Prediction(canDeposit: bool, reason: Option<string>, requiresTravelRule: bool,
      credentialStatus: string, estimatedShares: int)

  /** BigInt division drops the fraction towards zero. */
  function TruncatedDivision(a: int, b: int): int
    requires b > 0
  {
    if a >= 0 then a / b else -((-a) / b)
  }

  function EstimatedShares(amount: int, nav: int): int
    requires nav > 0
  {
    TruncatedDivision(amount * NAV_BPS_DENOMINATOR, nav)
  }

  lemma EstimateIsExact(amount: u64, nav: u64)
    requires nav > 0
    ensures EstimatedShares(amount, nav) == SharesFor(amount, nav)
  {}
}

/** The factory's preflight against its `deposit`. */
module CustodyPreflight {
  import opened Results
  import opened FixedPoint
  import opened TokenLedger
  import opened Compliance
  import opened CustodySpec
  import opened CustodyRefinement
  import opened DepositTerms
  import opened CustodyExchange
  import opened Preflight

  /** The status shown to the client; a failed read of the credential is taken for a missing one. */
  function Status(c: Context, read: bool, wallet: Pubkey): string {
    if !read || wallet !in c.credentials then "not_found" else
    var cred := c.credentials[wallet];
    if cred.status == CREDENTIAL_STATUS_REVOKED then "revoked"
    else if cred.expiresAt < c.now then "expired"
    else if cred.status == CREDENTIAL_STATUS_ACTIVE then "active"
    else "pending"
  }

  predicate Verified(c: Context, read: bool, wallet: Pubkey) {
    read && InForce(c.credentials, wallet, c.now)
  }

  /** The first obstacle, as told to the client. */
  function Reason(v: AssetVault, verified: bool, status: string, amount: int): Option<string> {
    if !verified then Some("Credential " + status)
    else if v.paused then Some("Vault is paused")
    else if amount < v.minDeposit then Some("Below minimum deposit")
    else if amount > v.maxDeposit then Some("Exceeds maximum deposit")
    else None
  }

  /** `None` when there is no such vault, or its price is zero. */
  function Predict(f: Factory, c: Context, read: bool, wallet: Pubkey, asset: Pubkey, amount: int): Option<Prediction> {
    if asset !in f.vaults || f.vaults[asset].navPriceBps == 0 then None else
    var v := f.vaults[asset];
    Some(Prediction(
      Verified(c, read, wallet) && !v.paused && amount >= v.minDeposit && amount <= v.maxDeposit,
      Reason(v, Verified(c, read, wallet), Status(c, read, wallet), amount),
      v.travelRuleRequired && amount >= TRAVEL_RULE_THRESHOLD,
      Status(c, read, wallet),
      EstimatedShares(amount, v.navPriceBps)))
  }

  /** The status text and the verdict disagree exactly at the second of expiry. */
  lemma ActiveButRefused(c: Context, read: bool, wallet: Pubkey)
    ensures Status(c, read, wallet) == "active" && !Verified(c, read, wallet) <==>
      read && wallet in c.credentials && c.credentials[wallet].status == CREDENTIAL_STATUS_ACTIVE &&
        c.credentials[wallet].expiresAt == c.now
    ensures Verified(c, read, wallet) ==> Status(c, read, wallet) == "active"
  {}

  /** The travel-rule accounts a client must supply after the prediction. */
  predicate RecordReady(f: Factory, p: Prediction, depositor: Pubkey, record: Option<RecordId>, amount: u64) {
    && (record.Some? ==> record.value in f.records)
    && (p.requiresTravelRule ==> Usable(f.records, record, depositor, amount))
  }

  /** In every reachable factory the preflight decides everything it can see: when the credential can be
      read, a deposit is accepted exactly when the prediction says so, a usable record is supplied where
      the prediction asks for one, and the tokens and totals allow it. */
  lemma PredictionAgrees(f: Factory, c: Context, depositor: Pubkey, asset: Pubkey, source: Pubkey, destination: Pubkey,
                         record: Option<RecordId>, amount: u64)
    requires Inv(f) && WellKept(c.credentials) && depositor.Key?
    ensures Predict(f, c, true, depositor, asset, amount).Some? <==> asset in f.vaults
    ensures asset in f.vaults ==> (
      var p := Predict(f, c, true, depositor, asset, amount).value;
      p.canDeposit <==> p.reason.None?)
    ensures DepositStep(f, c, depositor, asset, source, destination, record, amount).Ok? <==>
      asset in f.vaults &&
      var p := Predict(f, c, true, depositor, asset, amount).value;
        p.canDeposit && RecordReady(f, p, depositor, record, amount) &&
        TokensReady(LedgerOf(f, asset), LedgerOf(f, ShareMintAddress(asset)), depositor, source, destination, amount) &&
        RoomFor(amount, p.estimatedShares, f.vaults[asset].totalSupply)
  {
    assert Sound(f, asset);
    DepositExactly(f, c, depositor, asset, source, destination, record, amount);
    if asset in f.vaults { EstimateIsExact(amount, f.vaults[asset].navPriceBps); }
  }

  /** What a client can bring along: the record that the prediction asks for, and the tokens. */
  predicate ClientReady(f: Factory, p: Prediction, depositor: Pubkey, asset: Pubkey, source: Pubkey,
      destination: Pubkey, record: Option<RecordId>, amount: u64)
  {
    RecordReady(f, p, depositor, record, amount) &&
    TokensReady(LedgerOf(f, asset), LedgerOf(f, ShareMintAddress(asset)), depositor, source, destination, amount)
  }

  /** Whatever could be read, a promise made to a client who brings record and tokens is broken exactly when
      the deposit would mint no share or its totals do not fit 64 bits. */
  lemma FalsePromiseExactly(f: Factory, c: Context, read: bool, depositor: Pubkey, asset: Pubkey, source: Pubkey,
      destination: Pubkey, record: Option<RecordId>, amount: u64)
    requires Inv(f) && WellKept(c.credentials) && depositor.Key? && asset in f.vaults
    ensures Predict(f, c, read, depositor, asset, amount).Some?
    ensures var p := Predict(f, c, read, depositor, asset, amount).value;
      p.canDeposit && ClientReady(f, p, depositor, asset, source, destination, record, amount) ==>
        (DepositStep(f, c, depositor, asset, source, destination, record, amount).Err? <==>
          !RoomFor(amount, p.estimatedShares, f.vaults[asset].totalSupply))
  {
    assert Sound(f, asset);
    PredictionAgrees(f, c, depositor, asset, source, destination, record, amount);
  }

  /** An accepted deposit was promised exactly when the credential could be read. */
  lemma FalseRefusalExactly(f: Factory, c: Context, read: bool, depositor: Pubkey, asset: Pubkey, source: Pubkey,
      destination: Pubkey, record: Option<RecordId>, amount: u64)
    requires Inv(f) && WellKept(c.credentials)
    requires DepositStep(f, c, depositor, asset, source, destination, record, amount).Ok?
    ensures Predict(f, c, read, depositor, asset, amount).Some?
    ensures Predict(f, c, read, depositor, asset, amount).value.canDeposit <==> read
  {
    assert Sound(f, asset);
    PredictionAgrees(f, c, depositor, asset, source, destination, record, amount);
  }

  /** A promise for an amount worth less than a share is broken for every account and record. */
  lemma DustPromiseBroken(f: Factory, c: Context, read: bool, depositor: Pubkey, asset: Pubkey, amount: u64)
    requires Inv(f) && WellKept(c.credentials) && depositor.Key? && asset in f.vaults
    requires amount * NAV_BPS_DENOMINATOR < f.vaults[asset].navPriceBps
    requires var p := Predict(f, c, read, depositor, asset, amount); p.Some? && p.value.canDeposit
    ensures Predict(f, c, read, depositor, asset, amount).value.estimatedShares == 0
    ensures forall source, destination, record ::
      DepositStep(f, c, depositor, asset, source, destination, record, amount).Err?
  {
    assert Sound(f, asset);
    EstimateIsExact(amount, f.vaults[asset].navPriceBps);
    QuotientUnique(amount * NAV_BPS_DENOMINATOR, f.vaults[asset].navPriceBps, 0);
    forall source, destination, record
      ensures DepositStep(f, c, depositor, asset, source, destination, record, amount).Err?
    {
      PredictionAgrees(f, c, depositor, asset, source, destination, record, amount);
    }
  }

  /** A factory with one open vault for deposits of 1 to 100, at a price just above two. */
  const SAMPLE: Factory := Factory(Key(0), [Key(9)], map[Key(9) := AssetVault(20_001, 0, 0, 1, 100, false, false)],
    map[Key(9) := Ledger(map[AssetTokenAddress(Key(9)) := TokenAccount(AssetVaultAddress(Key(9)), 0)], 0),
        ShareMintAddress(Key(9)) := Ledger(map[], 0)],
    map[], map[])

  const SAMPLE_CONTEXT := Context(map[Key(1) := Credential(Key(1), 0, 10, CREDENTIAL_STATUS_ACTIVE)], 9)

  /** Such a promise: two units at that price. */
  lemma DustPromise()
    ensures Inv(SAMPLE) && WellKept(SAMPLE_CONTEXT.credentials)
    ensures Predict(SAMPLE, SAMPLE_CONTEXT, true, Key(1), Key(9), 2).value.canDeposit
    ensures forall source, destination, record ::
      DepositStep(SAMPLE, SAMPLE_CONTEXT, Key(1), Key(9), source, destination, record, 2).Err?
  {
    TotalUpdate(map[], AssetTokenAddress(Key(9)), TokenAccount(AssetVaultAddress(Key(9)), 0));
    DustPromiseBroken(SAMPLE, SAMPLE_CONTEXT, true, Key(1), Key(9), 2);
  }

  /** An accepted deposit mints exactly the predicted shares to the depositor. */
  lemma EstimateIsMinted(f: Factory, c: Context, depositor: Pubkey, asset: Pubkey, source: Pubkey, destination: Pubkey,
                         record: Option<RecordId>, amount: u64)
    requires Inv(f) && WellKept(c.credentials)
    requires DepositStep(f, c, depositor, asset, source, destination, record, amount).Ok?
    ensures asset in f.vaults && f.vaults[asset].navPriceBps > 0
    ensures var t := DepositStep(f, c, depositor, asset, source, destination, record, amount).value;
      var estimate := Predict(f, c, true, depositor, asset, amount).value.estimatedShares;
      estimate > 0 && asset in t.vaults && t.vaults[asset].totalSupply == f.vaults[asset].totalSupply + estimate &&
      MintedTo(LedgerOf(f, ShareMintAddress(asset)), LedgerOf(t, ShareMintAddress(asset)), destination, estimate)
  {
    assert Sound(f, asset);
    EstimateIsExact(amount, f.vaults[asset].navPriceBps);
    var g := f.(records := TravelRuleGate(f, f.vaults[asset], depositor, record, amount).value);
    ExchangeMints(g, depositor, asset, source, destination, amount);
  }

  /** What the client reads about the credential: each text stands for exactly one situation. */
  lemma StatusExactly(c: Context, read: bool, wallet: Pubkey)
    requires WellKept(c.credentials)
    ensures var status, found := Status(c, read, wallet), read && wallet in c.credentials;
      && (status == "not_found" <==> !found)
      && (status == "revoked" <==> found && c.credentials[wallet].status == 3)
      && (status == "expired" <==>
            found && c.credentials[wallet].status == 1 && c.credentials[wallet].expiresAt < c.now)
      && (status == "active" <==>
            found && c.credentials[wallet].status == 1 && c.credentials[wallet].expiresAt >= c.now)
  {
    var status := Status(c, read, wallet);
    TextsDiffer();
  }

  lemma TextsDiffer()
    ensures "not_found"[0] != "revoked"[0] && "not_found"[0] != "expired"[0] && "not_found"[0] != "active"[0]
    ensures "revoked"[0] != "expired"[0] && "revoked"[0] != "active"[0] && "expired"[0] != "active"[0]
  {}

  /** What the client is told of a vault with limits the right way round: the first of these obstacles, or
      none, and beside it the status, whether a record is needed, and the estimate. */
  lemma ReportExactly(f: Factory, c: Context, read: bool, wallet: Pubkey, asset: Pubkey, amount: u64)
    requires WellKept(c.credentials) && asset in f.vaults && f.vaults[asset].navPriceBps > 0
    ensures Predict(f, c, read, wallet, asset, amount).Some?
    ensures var p, v := Predict(f, c, read, wallet, asset, amount).value, f.vaults[asset];
      var verified := read && InForce(c.credentials, wallet, c.now);
      && p.credentialStatus == Status(c, read, wallet)
      && (p.requiresTravelRule <==> v.travelRuleRequired && amount >= 1_000_000_000)
      && p.estimatedShares == amount * 10_000 / v.navPriceBps
      && (!verified ==> p.reason == Some("Credential " + p.credentialStatus))
      && (verified && v.paused ==> p.reason == Some("Vault is paused"))
      && (verified && !v.paused && amount < v.minDeposit ==> p.reason == Some("Below minimum deposit"))
      && (verified && !v.paused && v.minDeposit <= amount && v.maxDeposit < amount ==>
            p.reason == Some("Exceeds maximum deposit"))
      && (p.canDeposit <==> verified && !v.paused && v.minDeposit <= amount <= v.maxDeposit)
      && (p.canDeposit <==> p.reason == None)
  {
    EstimateIsExact(amount, f.vaults[asset].navPriceBps);
  }
}

/** The yield vault's preflight against its `deposit`. */
module OragamiPreflight {
  import opened Results
  import opened FixedPoint
  import opened TokenLedger
  import opened Compliance
  import opened OragamiSpec
  import opened OragamiRefinement
  import opened DepositTerms
  import opened OragamiExchange
  import opened Preflight

  /** A status number as text. */
  function Decimal(n: int): string
    decreases if n < 0 then 1 - n else n
  {
    if n < 0 then "-" + Decimal(-n)
    else if n < 10 then [("0123456789")[n]]
    else Decimal(n / 10) + [("0123456789")[n % 10]]
  }

  /** The chain's status if the credential account is there and its read succeeds, else the database
      row's. */
  function Status(s: State, read: bool, row: Option<string>, wallet: Pubkey): string {
    if read && wallet in s.credentials then
      if s.credentials[wallet].status == CREDENTIAL_STATUS_ACTIVE then "active"
      else "onchain_" + Decimal(s.credentials[wallet].status)
    else if row.Some? then row.value else "not_found"
  }

  /** `None` for an unreadable price. */
  function Predict(s: State, read: bool, row: Option<string>, wallet: Pubkey, amount: int): Option<Prediction> {
    if s.vault.navPriceBps == 0 then None else
    var status := Status(s, read, row, wallet);
    Some(Prediction(
      status == "active" && !s.vault.paused,
      if s.vault.paused then Some("Vault is paused")
      else if status != "active" then Some("Credential is not active on-chain") else None,
      amount >= TRAVEL_RULE_THRESHOLD,
      status,
      EstimatedShares(amount, s.vault.navPriceBps)))
  }

  /** The prediction's reading of a credential: active on chain, or not read there, whether missing or
      not, and active in the database. */
  lemma ActiveExactly(s: State, read: bool, row: Option<string>, wallet: Pubkey)
    ensures Status(s, read, row, wallet) == "active" <==>
      if read && wallet in s.credentials then s.credentials[wallet].status == CREDENTIAL_STATUS_ACTIVE
        else row == Some("active")
  {
    if wallet in s.credentials {
      assert ("onchain_" + Decimal(s.credentials[wallet].status))[0] == 'o';
    }
  }

  /** The part of the gate that the preflight leaves out. */
  predicate Unseen(s: State, payer: Pubkey, amount: u64) {
    payer in s.credentials && s.credentials[payer].expiresAt > s.now &&
      s.vault.minDeposit <= amount <= s.vault.maxDeposit
  }

  predicate RecordReady(s: State, p: Prediction, payer: Pubkey, record: Option<RecordId>, amount: u64) {
    && (record.Some? ==> record.value in s.records)
    && (p.requiresTravelRule ==> Usable(s.records, record, payer, amount))
  }

  /** In every reachable state, when the credential can be read, a deposit is accepted exactly when the
      prediction says so, the unseen part of the gate holds, a usable record is supplied where the
      prediction asks for one, and the tokens and totals allow it. In particular an accepted deposit was
      predicted. */
  lemma PredictionAgrees(s: State, row: Option<string>, payer: Pubkey, payerUsdc: Pubkey, payerCvault: Pubkey,
                         record: Option<RecordId>, amount: u64)
    requires Inv(s) && payer.Key?
    ensures Predict(s, true, row, payer, amount).Some?
    ensures var p := Predict(s, true, row, payer, amount).value; p.canDeposit <==> p.reason.None?
    ensures DepositStep(s, payer, payerUsdc, payerCvault, record, amount).Ok? <==>
      var p := Predict(s, true, row, payer, amount).value;
        p.canDeposit && Unseen(s, payer, amount) && RecordReady(s, p, payer, record, amount) &&
        TokensReady(s.usdc, s.cvault, payer, payerUsdc, payerCvault, amount) &&
        RoomFor(amount, p.estimatedShares, s.vault.totalSupply)
  {
    DepositExactly(s, payer, payerUsdc, payerCvault, record, amount);
    ActiveExactly(s, true, row, payer);
    EstimateIsExact(amount, s.vault.navPriceBps);
  }

  /** An accepted deposit mints exactly the predicted shares to the payer, whatever could be read. */
  lemma EstimateIsMinted(s: State, read: bool, row: Option<string>, payer: Pubkey, payerUsdc: Pubkey,
      payerCvault: Pubkey, record: Option<RecordId>, amount: u64)
    requires Inv(s) && DepositStep(s, payer, payerUsdc, payerCvault, record, amount).Ok?
    ensures var t := DepositStep(s, payer, payerUsdc, payerCvault, record, amount).value;
      var estimate := Predict(s, read, row, payer, amount).value.estimatedShares;
      estimate > 0 && t.vault.totalSupply == s.vault.totalSupply + estimate &&
      MintedTo(s.cvault, t.cvault, payerCvault, estimate)
  {
    EstimateIsExact(amount, s.vault.navPriceBps);
    ExchangeMints(s.(records := TravelRuleGate(s, payer, record, amount).value), payer, payerUsdc, payerCvault, amount);
  }

  /** The chain would let this payer and amount through its gate, the pause flag aside. */
  predicate Eligible(s: State, payer: Pubkey, amount: u64) {
    InForce(s.credentials, payer, s.now) && s.vault.minDeposit <= amount <= s.vault.maxDeposit
  }

  /** What a client can bring along: the record that the prediction asks for, and the tokens. */
  predicate ClientReady(s: State, p: Prediction, payer: Pubkey, payerUsdc: Pubkey, payerCvault: Pubkey,
      record: Option<RecordId>, amount: u64) {
    RecordReady(s, p, payer, record, amount) && TokensReady(s.usdc, s.cvault, payer, payerUsdc, payerCvault, amount)
  }

  /** Whatever could be read, a promise made to a client who brings record and tokens is broken exactly when
      the payer is not eligible, the deposit would mint no share, or its totals do not fit 64 bits. */
  lemma FalsePromiseExactly(s: State, read: bool, row: Option<string>, payer: Pubkey, payerUsdc: Pubkey,
      payerCvault: Pubkey, record: Option<RecordId>, amount: u64)
    requires Inv(s) && payer.Key?
    ensures var p := Predict(s, read, row, payer, amount).value;
      p.canDeposit && ClientReady(s, p, payer, payerUsdc, payerCvault, record, amount) ==>
        (DepositStep(s, payer, payerUsdc, payerCvault, record, amount).Err? <==>
          !Eligible(s, payer, amount) || !RoomFor(amount, p.estimatedShares, s.vault.totalSupply))
  {
    DepositExactly(s, payer, payerUsdc, payerCvault, record, amount);
    EstimateIsExact(amount, s.vault.navPriceBps);
  }

  /** The promises to ineligible payers come about exactly in an open vault where either the credential was
      read and is active (so it has expired, or the amount is outside the limits), or it was not read, for
      want of an account or because the read failed, and the database row says active. */
  lemma IneligiblePromiseExactly(s: State, read: bool, row: Option<string>, payer: Pubkey, amount: u64)
    requires Inv(s) && payer.Key?
    ensures Predict(s, read, row, payer, amount).value.canDeposit && !Eligible(s, payer, amount) <==>
      !s.vault.paused && !Eligible(s, payer, amount) &&
      (if read && payer in s.credentials then s.credentials[payer].status == CREDENTIAL_STATUS_ACTIVE
        else row == Some("active"))
    ensures !s.vault.paused ==> (Eligible(s, payer, amount) <==> DepositGate(s, payer, None, amount).Ok?)
  {
    ActiveExactly(s, read, row, payer);
  }

  /** An accepted deposit was promised exactly when the credential was read, or the database row says
      active. */
  lemma FalseRefusalExactly(s: State, read: bool, row: Option<string>, payer: Pubkey, payerUsdc: Pubkey,
      payerCvault: Pubkey, record: Option<RecordId>, amount: u64)
    requires Inv(s) && DepositStep(s, payer, payerUsdc, payerCvault, record, amount).Ok?
    ensures Predict(s, read, row, payer, amount).value.canDeposit <==> read || row == Some("active")
  {
    DepositExactly(s, payer, payerUsdc, payerCvault, record, amount);
    ActiveExactly(s, read, row, payer);
  }

  /** A promise for an amount worth less than a share is broken for every account and record. */
  lemma DustPromiseBroken(s: State, payer: Pubkey, amount: u64)
    requires Inv(s) && amount * NAV_BPS_DENOMINATOR < s.vault.navPriceBps
    ensures forall payerUsdc, payerCvault, record :: DepositStep(s, payer, payerUsdc, payerCvault, record, amount).Err?
  {
    QuotientUnique(amount * NAV_BPS_DENOMINATOR, s.vault.navPriceBps, 0);
    forall payerUsdc, payerCvault, record
      ensures DepositStep(s, payer, payerUsdc, payerCvault, record, amount).Err?
    {
      DepositExactly(s, payer, payerUsdc, payerCvault, record, amount);
    }
  }

  /** A vault open to deposits of 1 to 100, at par, at time 10, holding one credential that expired
      at that very second and one that was revoked. */
  const SAMPLE: State := State(
    Vault(Key(0), Default, 1, 100, 0, 0, false, 0, 0, 0, 0, false, NAV_BPS_DENOMINATOR, Default, Default),
    Ledger(map[VaultToken := TokenAccount(VaultState, 0)], 0), Ledger(map[], 0), Ledger(map[], 0),
    map[Key(1) := Credential(Key(1), 0, 10, CREDENTIAL_STATUS_ACTIVE),
      Key(3) := Credential(Key(3), 0, 20, CREDENTIAL_STATUS_REVOKED)],
    map[], None, None, None, 10)

  /** Four false promises: an expired credential, a wallet known only to the database, an amount above
      the limit, and a revoked credential whose read failed while the database still says active. */
  lemma FalsePromises()
    ensures Inv(SAMPLE)
    ensures Predict(SAMPLE, true, None, Key(1), 50).value.canDeposit &&
      DepositGate(SAMPLE, Key(1), None, 50) == Err(CredentialExpired)
    ensures Predict(SAMPLE, true, Some("active"), Key(2), 50).value.canDeposit &&
      DepositGate(SAMPLE, Key(2), None, 50) == Err(AccountError)
    ensures Predict(SAMPLE, true, None, Key(1), 500).value.canDeposit &&
      DepositGate(SAMPLE, Key(1), None, 500) == Err(DepositTooLarge)
    ensures Predict(SAMPLE, false, Some("active"), Key(3), 50).value.canDeposit &&
      DepositGate(SAMPLE, Key(3), None, 50) == Err(ComplianceCheckFailed)
  {
    TotalUpdate(map[], VaultToken, TokenAccount(VaultState, 0));
  }

  /** The same vault one second earlier, at a price just above two: two units are promised to an eligible
      payer, whose every deposit of them is refused. */
  lemma DustPromise()
    ensures var s := SAMPLE.(vault := SAMPLE.vault.(navPriceBps := 20_001), now := 9);
      && Inv(s) && Eligible(s, Key(1), 2)
      && Predict(s, true, None, Key(1), 2).value.canDeposit &&
         Predict(s, true, None, Key(1), 2).value.estimatedShares == 0
      && forall payerUsdc, payerCvault, record :: DepositStep(s, Key(1), payerUsdc, payerCvault, record, 2).Err?
  {
    FalsePromises();
    DustPromiseBroken(SAMPLE.(vault := SAMPLE.vault.(navPriceBps := 20_001), now := 9), Key(1), 2);
  }

  /** What the client is told: paused before inactive, the status as read or from the database, whether a
      record is needed, and the estimate. A credential that is read shows as active or as `onchain_3`. */
  lemma ReportExactly(s: State, read: bool, row: Option<string>, wallet: Pubkey, amount: u64)
    requires WellKept(s.credentials) && s.vault.navPriceBps > 0
    ensures Predict(s, read, row, wallet, amount).Some?
    ensures var p, found := Predict(s, read, row, wallet, amount).value, read && wallet in s.credentials;
      && p.credentialStatus ==
           (if found then if s.credentials[wallet].status == 1 then "active" else "onchain_3"
            else if row.Some? then row.value else "not_found")
      && (p.requiresTravelRule <==> amount >= 1_000_000_000)
      && p.estimatedShares == amount * 10_000 / s.vault.navPriceBps
      && (s.vault.paused ==> p.reason == Some("Vault is paused"))
      && (!s.vault.paused && p.credentialStatus != "active" ==>
            p.reason == Some("Credential is not active on-chain"))
      && (p.canDeposit <==> p.credentialStatus == "active" && !s.vault.paused)
      && (p.canDeposit <==> p.reason == None)
  {
    EstimateIsExact(amount, s.vault.navPriceBps);
    assert Decimal(3) == "3";
    assert "onchain_" + "3" == "onchain_3";
  }
}
