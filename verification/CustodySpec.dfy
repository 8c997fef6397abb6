/** The custody factory program (multi-asset-vault) as a state machine: one NAV-priced vault per
    registered asset mint, over the ledgers of all mints. */
module CustodySpec {
  import opened Results
  import opened FixedPoint
  import opened TokenLedger
  import opened Compliance
  import opened NavGuard

  const MAX_ASSETS: int := 16

  datatype AssetVault = AssetVault(navPriceBps: u64, totalDeposits: u64, totalSupply: u64,
    minDeposit: u64, maxDeposit: u64, travelRuleRequired: bool, paused: bool)

  /** `ledgers` by mint; `credentials` are those the factory program issues itself. */
  datatype Factory = Factory(authority: Pubkey, registered: seq<Pubkey>, vaults: map<Pubkey, AssetVault>,
    ledgers: map<Pubkey, Ledger>, records: Records, credentials: Credentials)

  /** What a transaction finds around it: the yield vault program's credentials, and the time. */
  datatype Context = Context(credentials: Credentials, now: Time)

  datatype Instruction =
    | RegisterAsset(signer: Pubkey, asset: Pubkey, nav: u64, minDeposit: u64, maxDeposit: u64, travelRuleRequired: bool)
    | SetNav(signer: Pubkey, asset: Pubkey, nav: u64)
    | PauseVault(signer: Pubkey, asset: Pubkey, paused: bool)
    | Deposit(depositor: Pubkey, asset: Pubkey, source: Pubkey, destination: Pubkey, record: Option<RecordId>,
        amount: u64)
    | Redeem(redeemer: Pubkey, asset: Pubkey, source: Pubkey, destination: Pubkey, amount: u64)
    | TransferShares(sender: Pubkey, asset: Pubkey, source: Pubkey, destination: Pubkey, amount: u64)
    | InitTravelRule(payer: Pubkey, nonce: nat, amount: u64)
    | IssueCredential(signer: Pubkey, wallet: Pubkey, expiresAt: int)
    | RevokeCredential(signer: Pubkey, wallet: Pubkey)

  /** What mint authorities and token holders do without the program. */
  datatype Surroundings =
    | CreateMint(mint: Pubkey)
    | OpenAccount(mint: Pubkey, key: Pubkey, owner: Pubkey)
    | MoveTokens(mint: Pubkey, signer: Pubkey, source: Pubkey, destination: Pubkey, amount: u64)
    | BurnTokens(mint: Pubkey, signer: Pubkey, source: Pubkey, amount: u64)
    | IssueTokens(mint: Pubkey, destination: Pubkey, amount: u64)

  datatype Event = Program(context: Context, instruction: Instruction) | Outside(surroundings: Surroundings)

  /** A new factory among valid ledgers, none of which is at one of its addresses yet; travel-rule
      records, which need no factory, may be waiting. */
  ghost predicate Initial(f: Factory) {
    f.registered == [] && f.vaults == map[] && NoneConsumed(f.records) && f.credentials == map[] &&
    (forall mint <- f.ledgers :: f.ledgers[mint].Valid() && !mint.ShareMintAddress? &&
      forall k <- f.ledgers[mint].accounts :: !k.AssetTokenAddress?)
  }

  function LedgerOf(f: Factory, mint: Pubkey): Ledger {
    if mint in f.ledgers then f.ledgers[mint] else Ledger(map[], 0)
  }

  function WithLedger(f: Factory, mint: Pubkey, l: Ledger): Factory {
    f.(ledgers := f.ledgers[mint := l])
  }

  function WithVault(f: Factory, asset: Pubkey, v: AssetVault): Factory {
    f.(vaults := f.vaults[asset := v])
  }

  // ---------------------------------------------------------------- instructions

  function RegisterAssetStep(f: Factory, signer: Pubkey, asset: Pubkey, nav: u64, minDeposit: u64, maxDeposit: u64,
      travelRuleRequired: bool): Result<Factory> {
    if !(signer == f.authority && asset in f.ledgers) then Err(AccountError) else
    :- Need(asset !in f.vaults && ShareMintAddress(asset) !in f.ledgers, AccountError);
    var ledger :- f.ledgers[asset].Open(AssetTokenAddress(asset), AssetVaultAddress(asset));
    :- Need(nav > 0, InvalidNav);
    :- Need(minDeposit <= maxDeposit, DepositTooSmall);
    :- Need(asset !in f.registered, AssetAlreadyRegistered);
    :- Need(|f.registered| < MAX_ASSETS, FactoryFull);
    Ok(f.(registered := f.registered + [asset],
          vaults := f.vaults[asset := AssetVault(nav, 0, 0, minDeposit, maxDeposit, travelRuleRequired, false)],
          ledgers := f.ledgers[asset := ledger][ShareMintAddress(asset) := Ledger(map[], 0)]))
  }

  function SetNavStep(f: Factory, signer: Pubkey, asset: Pubkey, nav: u64): Result<Factory> {
    if !(signer == f.authority && asset in f.vaults) then Err(AccountError) else
    var _ :- CustodyGuard(f.vaults[asset].navPriceBps, nav);
    Ok(WithVault(f, asset, f.vaults[asset].(navPriceBps := nav)))
  }

  function PauseVaultStep(f: Factory, signer: Pubkey, asset: Pubkey, paused: bool): Result<Factory> {
    if !(signer == f.authority && asset in f.vaults) then Err(AccountError) else
    Ok(WithVault(f, asset, f.vaults[asset].(paused := paused)))
  }

  /** The credential is the one issued by the yield vault program at the wallet's address. */
  function CredentialGate(c: Context, wallet: Pubkey): Result<()> {
    if wallet !in c.credentials then Err(WrongCredentialProgram) else
    :- Need(c.credentials[wallet].status == CREDENTIAL_STATUS_ACTIVE, CredentialNotActive);
    :- Need(c.credentials[wallet].expiresAt > c.now, CredentialExpired);
    :- Need(c.credentials[wallet].wallet == wallet, CredentialWalletMismatch);
    Ok(())
  }

  /** Like the sender's gate, but the wallet in the credential is not compared. */
  function ReceiverGate(c: Context, wallet: Pubkey): Result<()> {
    if wallet !in c.credentials then Err(WrongCredentialProgram) else
    :- Need(c.credentials[wallet].status == CREDENTIAL_STATUS_ACTIVE, ReceiverCredentialNotActive);
    :- Need(c.credentials[wallet].expiresAt > c.now, ReceiverCredentialExpired);
    Ok(())
  }

  function DepositGate(f: Factory, c: Context, depositor: Pubkey, asset: Pubkey, record: Option<RecordId>,
      amount: u64): Result<()> {
    if !depositor.Key? then Err(MissingSignature) else
    :- Need(asset in f.vaults && (record.Some? ==> record.value in f.records), AccountError);
    :- Need(!f.vaults[asset].paused, VaultPaused);
    :- Need(amount >= f.vaults[asset].minDeposit, DepositTooSmall);
    :- Need(amount <= f.vaults[asset].maxDeposit, DepositTooLarge);
    CredentialGate(c, depositor)
  }

  /** The travel rule applies only to vaults that ask for it. */
  function TravelRuleGate(f: Factory, v: AssetVault, depositor: Pubkey, record: Option<RecordId>,
      amount: u64): Result<Records> {
    if v.travelRuleRequired && amount >= TRAVEL_RULE_THRESHOLD
    then ConsumeRecord(f.records, record, depositor, amount, TravelRuleAlreadyConsumed) else Ok(f.records)
  }

  function BookDeposit(v: AssetVault, amount: u64, shares: u64): Result<AssetVault> {
    var totalDeposits :- CheckedAdd(v.totalDeposits, amount);
    var totalSupply :- CheckedAdd(v.totalSupply, shares);
    Ok(v.(totalDeposits := totalDeposits, totalSupply := totalSupply))
  }

  function DepositExchange(f: Factory, depositor: Pubkey, asset: Pubkey, source: Pubkey, destination: Pubkey,
      amount: u64): Result<Factory>
    requires asset in f.vaults
  {
    var shares :- CheckedShares(amount, f.vaults[asset].navPriceBps);
    :- Need(shares > 0, ZeroShares);
    var assets :- LedgerOf(f, asset).Transfer(source, AssetTokenAddress(asset), depositor, amount);
    var minted :- LedgerOf(f, ShareMintAddress(asset)).MintTo(destination, shares);
    var booked :- BookDeposit(f.vaults[asset], amount, shares);
    Ok(WithVault(WithLedger(WithLedger(f, asset, assets), ShareMintAddress(asset), minted), asset, booked))
  }

  function DepositStep(f: Factory, c: Context, depositor: Pubkey, asset: Pubkey, source: Pubkey, destination: Pubkey,
      record: Option<RecordId>, amount: u64): Result<Factory> {
    var _ :- DepositGate(f, c, depositor, asset, record, amount);
    var records :- TravelRuleGate(f, f.vaults[asset], depositor, record, amount);
    DepositExchange(f.(records := records), depositor, asset, source, destination, amount)
  }

  /** The tokens that `shares` are worth, if the vault holds them. */
  function Payable(f: Factory, asset: Pubkey, shares: u64): Result<u64>
    requires asset in f.vaults
  {
    var payout :- CheckedAssets(shares, f.vaults[asset].navPriceBps);
    if LedgerOf(f, asset).Balance(AssetTokenAddress(asset)) >= payout then Ok(payout) else Err(InsufficientVaultFunds)
  }

  function BookRedemption(v: AssetVault, payout: u64, shares: u64): Result<AssetVault> {
    var totalSupply :- CheckedSub(v.totalSupply, shares);
    Ok(v.(totalDeposits := SaturatingSub(v.totalDeposits, payout), totalSupply := totalSupply))
  }

  /** Burns `shares` and pays `payout`. */
  function RedeemExchange(f: Factory, redeemer: Pubkey, asset: Pubkey, source: Pubkey, destination: Pubkey, shares: u64,
      payout: u64): Result<Factory>
    requires asset in f.vaults
  {
    var burned :- LedgerOf(f, ShareMintAddress(asset)).Burn(source, redeemer, shares);
    var assets :- LedgerOf(f, asset).Transfer(AssetTokenAddress(asset), destination, AssetVaultAddress(asset), payout);
    var booked :- BookRedemption(f.vaults[asset], payout, shares);
    Ok(WithVault(WithLedger(WithLedger(f, ShareMintAddress(asset), burned), asset, assets), asset, booked))
  }

  /** No pause check and no credential: holders can always leave. */
  function RedeemStep(f: Factory, redeemer: Pubkey, asset: Pubkey, source: Pubkey, destination: Pubkey,
      amount: u64): Result<Factory> {
    if !redeemer.Key? then Err(MissingSignature) else
    :- Need(asset in f.vaults, AccountError);
    :- Need(amount > 0, ZeroShares);
    var payout :- Payable(f, asset, amount);
    RedeemExchange(f, redeemer, asset, source, destination, amount, payout)
  }

  function TransferSharesStep(f: Factory, c: Context, sender: Pubkey, asset: Pubkey, source: Pubkey,
      destination: Pubkey, amount: u64): Result<Factory> {
    var shares := LedgerOf(f, ShareMintAddress(asset));
    :- Need(sender.Key?, MissingSignature);
    :- Need(asset in f.vaults && source in shares.accounts && destination in shares.accounts, AccountError);
    :- Need(amount > 0, ZeroShares);
    :- Need(!f.vaults[asset].paused, VaultPaused);
    var _ :- CredentialGate(c, sender);
    var _ :- ReceiverGate(c, shares.accounts[destination].owner);
    var moved :- shares.Transfer(source, destination, sender, amount);
    Ok(WithLedger(f, ShareMintAddress(asset), moved))
  }

  function InitTravelRuleStep(f: Factory, payer: Pubkey, nonce: nat, amount: u64): Result<Factory> {
    if !payer.Key? then Err(MissingSignature) else
    var records :- CreateRecord(f.records, payer, nonce, amount);
    :- Need(amount >= TRAVEL_RULE_THRESHOLD, DepositTooSmall);
    Ok(f.(records := records))
  }

  function IssueCredentialStep(f: Factory, c: Context, signer: Pubkey, wallet: Pubkey,
      expiresAt: int): Result<Factory> {
    if signer != f.authority then Err(AccountError) else
    var credentials :- Issue(f.credentials, wallet, c.now, expiresAt);
    :- Need(expiresAt > c.now, CredentialExpired);
    Ok(f.(credentials := credentials))
  }

  function RevokeCredentialStep(f: Factory, signer: Pubkey, wallet: Pubkey): Result<Factory> {
    if signer != f.authority then Err(AccountError) else
    var credentials :- Revoke(f.credentials, wallet, CredentialAlreadyRevoked);
    Ok(f.(credentials := credentials))
  }

  function Execute(f: Factory, c: Context, i: Instruction): Result<Factory> {
    match i
    case RegisterAsset(signer, asset, nav, minDeposit, maxDeposit, travelRuleRequired) =>
      RegisterAssetStep(f, signer, asset, nav, minDeposit, maxDeposit, travelRuleRequired)
    case SetNav(signer, asset, nav) => SetNavStep(f, signer, asset, nav)
    case PauseVault(signer, asset, paused) => PauseVaultStep(f, signer, asset, paused)
    case Deposit(depositor, asset, source, destination, record, amount) =>
      DepositStep(f, c, depositor, asset, source, destination, record, amount)
    case Redeem(redeemer, asset, source, destination, amount) =>
      RedeemStep(f, redeemer, asset, source, destination, amount)
    case TransferShares(sender, asset, source, destination, amount) =>
      TransferSharesStep(f, c, sender, asset, source, destination, amount)
    case InitTravelRule(payer, nonce, amount) => InitTravelRuleStep(f, payer, nonce, amount)
    case IssueCredential(signer, wallet, expiresAt) => IssueCredentialStep(f, c, signer, wallet, expiresAt)
    case RevokeCredential(signer, wallet) => RevokeCredentialStep(f, signer, wallet)
  }

  // ---------------------------------------------------------------- surroundings

  /** Only the program creates accounts at its addresses, mints shares, or signs for its vaults. */
  function Happen(f: Factory, o: Surroundings): Result<Factory> {
    match o
    case CreateMint(mint) =>
      if mint in f.ledgers || mint.ShareMintAddress? then Err(AccountError)
        else Ok(WithLedger(f, mint, Ledger(map[], 0)))
    case OpenAccount(mint, key, owner) =>
      :- Need(mint in f.ledgers && !key.AssetTokenAddress?, AccountError);
      var l :- f.ledgers[mint].Open(key, owner);
      Ok(WithLedger(f, mint, l))
    case MoveTokens(mint, signer, source, destination, amount) =>
      :- Need(mint in f.ledgers && !signer.AssetVaultAddress?, AccountError);
      var l :- f.ledgers[mint].Transfer(source, destination, signer, amount);
      Ok(WithLedger(f, mint, l))
    case BurnTokens(mint, signer, source, amount) =>
      :- Need(mint in f.ledgers && !signer.AssetVaultAddress?, AccountError);
      var l :- f.ledgers[mint].Burn(source, signer, amount);
      Ok(WithLedger(f, mint, l))
    case IssueTokens(mint, destination, amount) =>
      :- Need(mint in f.ledgers && !mint.ShareMintAddress?, AccountError);
      var l :- f.ledgers[mint].MintTo(destination, amount);
      Ok(WithLedger(f, mint, l))
  }

  // ---------------------------------------------------------------- runs

  function Attempt(f: Factory, e: Event): Result<Factory> {
    match e
    case Program(c, i) => Execute(f, c, i)
    case Outside(o) => Happen(f, o)
  }

  function Next(f: Factory, e: Event): Factory {
    match Attempt(f, e)
    case Ok(g) => g
    case Err(_) => f
  }

  function Run(f: Factory, es: seq<Event>): Factory
    decreases es
  {
    if es == [] then f else Run(Next(f, es[0]), es[1..])
  }
}
