/** Credentials across both programs: the yield vault issues them, and both programs read them. */
module CredentialLifecycle {
  import opened FixedPoint
  import opened TokenLedger
  import opened Compliance
  import Y = OragamiSpec
  import C = CustodySpec
  import opened OragamiOversight

  /** Both programs side by side, sharing the yield vault's credentials and the clock. */
  datatype World = World(vault: Y.State, factory: C.Factory)

  datatype Transaction =
    | OnVault(event: Y.Event)
    | OnFactory(instruction: C.Instruction)
    | AroundFactory(surroundings: C.Surroundings)

  function ContextOf(w: World): C.Context {
    C.Context(w.vault.credentials, w.vault.now)
  }

  function Step(w: World, t: Transaction): World {
    match t
    case OnVault(e) => w.(vault := Y.Next(w.vault, e))
    case OnFactory(i) => w.(factory := C.Next(w.factory, C.Program(ContextOf(w), i)))
    case AroundFactory(o) => w.(factory := C.Next(w.factory, C.Outside(o)))
  }

  function Run(w: World, ts: seq<Transaction>): World
    decreases ts
  {
    if ts == [] then w else Run(Step(w, ts[0]), ts[1..])
  }

  // ---------------------------------------------------------------- one step

  lemma OtherInstructionsKeepCredentials(s: Y.State, i: Y.Instruction)
    requires !i.IssueCredential? && !i.RevokeCredential? && Y.Execute(s, i).Ok?
    ensures Y.Execute(s, i).value.credentials == s.credentials
  {}

  lemma SurroundingsKeepCredentials(s: Y.State, o: Y.Surroundings)
    requires Y.Happen(s, o).Ok?
    ensures Y.Happen(s, o).value.credentials == s.credentials
  {}

  predicate SameHolder(a: Credential, b: Credential) {
    a.(status := b.status) == b
  }

  /** Credentials stay well kept; an existing one keeps its wallet and dates; revoked is final; and a
      new one appears only by an accepted issue for that wallet. */
  lemma CredentialStep(s: Y.State, e: Y.Event, wallet: Pubkey)
    requires WellKept(s.credentials)
    ensures var t := Y.Next(s, e);
      && WellKept(t.credentials)
      && (wallet in s.credentials ==>
         wallet in t.credentials && SameHolder(s.credentials[wallet], t.credentials[wallet]))
      && (IsRevoked(s.credentials, wallet) ==> IsRevoked(t.credentials, wallet))
      && (wallet !in s.credentials && wallet in t.credentials ==>
            e.Program? && e.instruction.IssueCredential? && e.instruction.wallet == wallet)
  {
    if Y.Attempt(s, e).Ok? {
      match e
      case Outside(o) => SurroundingsKeepCredentials(s, o);
      case Program(IssueCredential(_, _, _, _)) =>
      case Program(RevokeCredential(_, _)) =>
      case Program(i) => OtherInstructionsKeepCredentials(s, i);
    }
  }

  lemma {:induction false} RunKeepsCredentials(w: World, ts: seq<Transaction>, wallet: Pubkey)
    requires WellKept(w.vault.credentials)
    ensures WellKept(Run(w, ts).vault.credentials)
    ensures IsRevoked(w.vault.credentials, wallet) ==> IsRevoked(Run(w, ts).vault.credentials, wallet)
    decreases ts
  {
    if ts != [] {
      if ts[0].OnVault? { CredentialStep(w.vault, ts[0].event, wallet); }
      RunKeepsCredentials(Step(w, ts[0]), ts[1..], wallet);
    }
  }

  // ---------------------------------------------------------------- what revocation means

  /** Everything that a wallet without a credential in force cannot do, in either program. */
  ghost predicate ShutOut(w: World, wallet: Pubkey) {
    && (forall payerUsdc, payerCvault, record, amount ::
          Y.DepositStep(w.vault, wallet, payerUsdc, payerCvault, record, amount).Err?)
    && (forall asset, source, destination, record, amount ::
          C.DepositStep(w.factory, ContextOf(w), wallet, asset, source, destination, record, amount).Err?)
    && (forall asset, source, destination, amount ::
          C.TransferSharesStep(w.factory, ContextOf(w), wallet, asset, source, destination, amount).Err?)
    && (forall sender, asset, source, destination, amount ::
          C.LedgerOf(w.factory, ShareMintAddress(asset)).Owns(wallet, destination) ==>
          C.TransferSharesStep(w.factory, ContextOf(w), sender, asset, source, destination, amount).Err?)
  }

  lemma NoTransfersWithoutCredential(w: World, sender: Pubkey, asset: Pubkey, source: Pubkey, destination: Pubkey,
      amount: u64)
    requires C.TransferSharesStep(w.factory, ContextOf(w), sender, asset, source, destination, amount).Ok?
    ensures InForce(w.vault.credentials, sender, w.vault.now)
    ensures destination in C.LedgerOf(w.factory, ShareMintAddress(asset)).accounts
    ensures InForce(w.vault.credentials, C.LedgerOf(w.factory, ShareMintAddress(asset)).accounts[destination].owner,
      w.vault.now)
  {}

  lemma NotInForceShutOut(w: World, wallet: Pubkey)
    requires !InForce(w.vault.credentials, wallet, w.vault.now)
    ensures ShutOut(w, wallet)
  {
    forall sender, asset, source, destination, amount |
      C.TransferSharesStep(w.factory, ContextOf(w), sender, asset, source, destination, amount).Ok?
      ensures sender != wallet && !C.LedgerOf(w.factory, ShareMintAddress(asset)).Owns(wallet, destination)
    {
      NoTransfersWithoutCredential(w, sender, asset, source, destination, amount);
    }
  }

  /** Once revoked, a wallet is shut out in every later state of every run of both programs: its
      deposits are refused by either, and so is any share transfer from or to it. */
  lemma RevokedForever(w: World, ts: seq<Transaction>, wallet: Pubkey)
    requires WellKept(w.vault.credentials) && IsRevoked(w.vault.credentials, wallet)
    ensures IsRevoked(Run(w, ts).vault.credentials, wallet) && ShutOut(Run(w, ts), wallet)
  {
    RunKeepsCredentials(w, ts, wallet);
    NotInForceShutOut(Run(w, ts), wallet);
  }

  /** Revoking is possible exactly once, and issuing again never. */
  lemma NoSecondLife(s: Y.State, signer: Pubkey, wallet: Pubkey, issuedAt: int, expiresAt: int)
    requires WellKept(s.credentials) && wallet in s.credentials
    ensures Y.IssueCredentialStep(s, signer, wallet, issuedAt, expiresAt).Err?
    ensures Y.RevokeCredentialStep(s, signer, wallet).Ok? <==>
      signer == s.vault.authority && s.credentials[wallet].status == CREDENTIAL_STATUS_ACTIVE
  {}

  /** No transaction of the run issues `wallet` a credential through the yield vault. */
  predicate NeverIssued(ts: seq<Transaction>, wallet: Pubkey) {
    forall t <- ts :: t.OnVault? && t.event.Program? && t.event.instruction.IssueCredential? ==>
      t.event.instruction.wallet != wallet
  }

  lemma {:induction false} NeverIssuedAbsent(w: World, ts: seq<Transaction>, wallet: Pubkey)
    requires WellKept(w.vault.credentials) && wallet !in w.vault.credentials && NeverIssued(ts, wallet)
    ensures wallet !in Run(w, ts).vault.credentials
    decreases ts
  {
    if ts != [] {
      assert ts[0] in ts;
      if ts[0].OnVault? { CredentialStep(w.vault, ts[0].event, wallet); }
      NeverIssuedAbsent(Step(w, ts[0]), ts[1..], wallet);
    }
  }

  /** The factory's own credential instructions admit nobody: a wallet that the yield vault never
      issued a credential stays shut out of both programs, whatever the factory issues it. */
  lemma FactoryCredentialsAdmitNobody(w: World, ts: seq<Transaction>, wallet: Pubkey)
    requires WellKept(w.vault.credentials) && wallet !in w.vault.credentials && NeverIssued(ts, wallet)
    ensures ShutOut(Run(w, ts), wallet)
  {
    NeverIssuedAbsent(w, ts, wallet);
    NotInForceShutOut(Run(w, ts), wallet);
  }

  /** In every run from well-kept credentials, an accepted share transfer is between two wallets whose
      credentials are in force and carry their names: the comparison that the receiver's check leaves
      out would never fail. */
  lemma TransfersBetweenCredentialed(w: World, ts: seq<Transaction>, sender: Pubkey, asset: Pubkey, source: Pubkey,
      destination: Pubkey, amount: u64)
    requires WellKept(w.vault.credentials)
    requires C.TransferSharesStep(Run(w, ts).factory, ContextOf(Run(w, ts)), sender, asset, source, destination,
      amount).Ok?
    ensures var t := Run(w, ts);
      var shares := C.LedgerOf(t.factory, ShareMintAddress(asset));
      && destination in shares.accounts
      && var receiver := shares.accounts[destination].owner;
      && InForce(t.vault.credentials, sender, t.vault.now) && InForce(t.vault.credentials, receiver, t.vault.now)
      && t.vault.credentials[receiver].wallet == receiver
  {
    RunKeepsCredentials(w, ts, sender);
  }

  // ---------------------------------------------------------------- a credential's life

  /** The run contains an accepted revocation of `wallet` by the yield vault. */
  predicate RevokedDuring(w: World, ts: seq<Transaction>, wallet: Pubkey)
    decreases ts
  {
    ts != [] &&
    ((ts[0].OnVault? && ts[0].event.Program? && ts[0].event.instruction.RevokeCredential? &&
      ts[0].event.instruction.wallet == wallet && Y.Attempt(w.vault, ts[0].event).Ok?) ||
     RevokedDuring(Step(w, ts[0]), ts[1..], wallet))
  }

  /** An existing credential changes by nothing but its own accepted revocation, which revokes it. */
  lemma ExistingStep(s: Y.State, e: Y.Event, wallet: Pubkey)
    requires WellKept(s.credentials) && wallet in s.credentials
    ensures var t, accepted := Y.Next(s, e), Y.Attempt(s, e).Ok?;
      && wallet in t.credentials && SameHolder(s.credentials[wallet], t.credentials[wallet])
      && t.credentials[wallet].status ==
         if accepted && e.Program? && e.instruction.RevokeCredential? && e.instruction.wallet == wallet then 3
         else s.credentials[wallet].status
  {
    if Y.Attempt(s, e).Ok? {
      match e
      case Outside(o) => SurroundingsKeepCredentials(s, o);
      case Program(IssueCredential(signer, holder, issuedAt, expiresAt)) =>
        IssueCredentialExactly(s, signer, holder, issuedAt, expiresAt);
      case Program(RevokeCredential(signer, holder)) => RevokeCredentialExactly(s, signer, holder);
      case Program(i) => OtherInstructionsKeepCredentials(s, i);
    }
  }

  /** After any run of both programs an existing credential is the same, revoked if and only if it was
      before or an accepted revocation of the run named it. */
  lemma {:induction false} StatusAfterRun(w: World, ts: seq<Transaction>, wallet: Pubkey)
    requires WellKept(w.vault.credentials) && wallet in w.vault.credentials
    ensures var t := Run(w, ts);
      && wallet in t.vault.credentials
      && SameHolder(w.vault.credentials[wallet], t.vault.credentials[wallet])
      && t.vault.credentials[wallet].status ==
         if RevokedDuring(w, ts, wallet) then 3 else w.vault.credentials[wallet].status
    decreases ts
  {
    if ts != [] {
      var next := Step(w, ts[0]);
      if ts[0].OnVault? {
        ExistingStep(w.vault, ts[0].event, wallet);
        CredentialStep(w.vault, ts[0].event, wallet);
      }
      StatusAfterRun(next, ts[1..], wallet);
    }
  }

  /** From an accepted issue on, a wallet's credential is in force at a later moment of a run of both
      programs if and only if it has not expired by then and the run has not revoked it; otherwise the
      wallet is shut out. */
  lemma InForceExactly(w: World, signer: Pubkey, wallet: Pubkey, issuedAt: int, expiresAt: int, ts: seq<Transaction>)
    requires WellKept(w.vault.credentials)
    requires Y.IssueCredentialStep(w.vault, signer, wallet, issuedAt, expiresAt).Ok?
    ensures var start := w.(vault := Y.IssueCredentialStep(w.vault, signer, wallet, issuedAt, expiresAt).value);
      var t := Run(start, ts);
      && (InForce(t.vault.credentials, wallet, t.vault.now) <==>
            t.vault.now < expiresAt && !RevokedDuring(start, ts, wallet))
      && (t.vault.now >= expiresAt || RevokedDuring(start, ts, wallet) ==> ShutOut(t, wallet))
  {
    IssueCredentialExactly(w.vault, signer, wallet, issuedAt, expiresAt);
    var start := w.(vault := Y.IssueCredentialStep(w.vault, signer, wallet, issuedAt, expiresAt).value);
    StatusAfterRun(start, ts, wallet);
    NotInForceMeans(Run(start, ts), wallet);
  }

  lemma NotInForceMeans(w: World, wallet: Pubkey)
    ensures !InForce(w.vault.credentials, wallet, w.vault.now) ==> ShutOut(w, wallet)
  {
    if !InForce(w.vault.credentials, wallet, w.vault.now) { NotInForceShutOut(w, wallet); }
  }

  /** After an accepted revocation the wallet is shut out of both programs in every later state, and nobody
      can revoke its credential again or issue it another. */
  lemma RevocationShutsOut(w: World, signer: Pubkey, wallet: Pubkey, ts: seq<Transaction>)
    requires WellKept(w.vault.credentials) && Y.RevokeCredentialStep(w.vault, signer, wallet).Ok?
    ensures var t := Run(w.(vault := Y.RevokeCredentialStep(w.vault, signer, wallet).value), ts);
      && ShutOut(t, wallet)
      && (forall s :: Y.RevokeCredentialStep(t.vault, s, wallet).Err?)
      && (forall s, issuedAt, expiresAt :: Y.IssueCredentialStep(t.vault, s, wallet, issuedAt, expiresAt).Err?)
  {
    RevokeCredentialExactly(w.vault, signer, wallet);
    var start := w.(vault := Y.RevokeCredentialStep(w.vault, signer, wallet).value);
    RevokedForever(start, ts, wallet);
    RunKeepsCredentials(start, ts, wallet);
    var t := Run(start, ts);
    forall s ensures Y.RevokeCredentialStep(t.vault, s, wallet).Err? {
      RevokeCredentialExactly(t.vault, s, wallet);
    }
  }
}
