/** Addresses, and the token program as a ledger per mint. */
module TokenLedger {
  import opened Results
  import opened FixedPoint

  /** Program-derived addresses are constructors over their seeds: injective in them, never equal
      to an ordinary key, and without a private key. */
  datatype Pubkey =
    | Default
    | Key(id: nat)
    /** the yield vault's state and USDC account */
    | VaultState
    | VaultToken
    /** the factory's three addresses for each asset mint */
    | AssetVaultAddress(asset: Pubkey)
    | ShareMintAddress(asset: Pubkey)
    | AssetTokenAddress(asset: Pubkey)

  datatype TokenAccount = TokenAccount(owner: Pubkey, amount: u64)

  /** All token accounts of one mint, and its supply. */
  datatype Ledger = Ledger(accounts: map<Pubkey, TokenAccount>, supply: u64) {

    function Balance(k: Pubkey): u64 {
      if k in accounts then accounts[k].amount else 0
    }

    predicate Owns(owner: Pubkey, k: Pubkey) {
      k in accounts && accounts[k].owner == owner
    }

    function SetAmount(k: Pubkey, amount: u64): Ledger
      requires k in accounts
    {
      this.(accounts := accounts[k := accounts[k].(amount := amount)])
    }

    /** A transfer from an account to itself checks everything and moves nothing. */
    function Transfer(source: Pubkey, destination: Pubkey, authority: Pubkey, amount: u64): Result<Ledger> {
      if !Owns(authority, source) || destination !in accounts || Balance(source) < amount then Err(TokenError)
      else if source == destination then Ok(this)
      else if Balance(destination) + amount > U64_MAX then Err(TokenError)
      else
        Ok(SetAmount(source, Balance(source) - amount).SetAmount(destination, Balance(destination) + amount))
    }

    function MintTo(destination: Pubkey, amount: u64): Result<Ledger> {
      if destination !in accounts || Balance(destination) + amount > U64_MAX || supply + amount > U64_MAX
      then Err(TokenError)
      else Ok(SetAmount(destination, Balance(destination) + amount).(supply := supply + amount))
    }

    function Burn(source: Pubkey, authority: Pubkey, amount: u64): Result<Ledger> {
      if !Owns(authority, source) || Balance(source) < amount || supply < amount then Err(TokenError)
      else Ok(SetAmount(source, Balance(source) - amount).(supply := supply - amount))
    }

    function Open(k: Pubkey, owner: Pubkey): Result<Ledger> {
      if k in accounts then Err(AccountError)
      else Ok(this.(accounts := accounts[k := TokenAccount(owner, 0)]))
    }

    /** The supply is the sum of all balances. */
    ghost predicate Valid() {
      Total(accounts) == supply
    }
  }

  ghost function Pick(accounts: map<Pubkey, TokenAccount>): Pubkey
    requires accounts != map[]
    ensures Pick(accounts) in accounts
  {
    var k :| k in accounts; k
  }

  ghost function Total(accounts: map<Pubkey, TokenAccount>): nat
    decreases |accounts|
  {
    if accounts == map[] then 0 else
    var k := Pick(accounts);
    RemovalShrinks(accounts, k);
    accounts[k].amount + Total(accounts - {k})
  }

  lemma RemovalShrinks(accounts: map<Pubkey, TokenAccount>, k: Pubkey)
    requires k in accounts
    ensures |accounts - {k}| < |accounts|
  {
    assert (accounts - {k}).Keys == accounts.Keys - {k};
  }

  /** The total does not depend on the order in which accounts are summed. */
  lemma {:induction false} TotalWithout(accounts: map<Pubkey, TokenAccount>, k: Pubkey)
    requires k in accounts
    ensures Total(accounts) == accounts[k].amount + Total(accounts - {k})
    decreases |accounts|
  {
    var first := Pick(accounts);
    if first != k {
      RemovalShrinks(accounts, first);
      RemovalShrinks(accounts, k);
      TotalWithout(accounts - {first}, k);
      TotalWithout(accounts - {k}, first);
      assert accounts - {first} - {k} == accounts - {k} - {first};
    }
  }

  lemma TotalUpdate(accounts: map<Pubkey, TokenAccount>, k: Pubkey, a: TokenAccount)
    ensures Total(accounts[k := a]) ==
      Total(accounts) - (if k in accounts then accounts[k].amount else 0) + a.amount
  {
    TotalWithout(accounts[k := a], k);
    if k in accounts {
      TotalWithout(accounts, k);
      assert accounts[k := a] - {k} == accounts - {k};
    } else {
      assert accounts[k := a] - {k} == accounts;
    }
  }

  lemma BalanceWithinSupply(l: Ledger, k: Pubkey)
    requires l.Valid()
    ensures l.Balance(k) <= l.supply
  {
    if k in l.accounts { TotalWithout(l.accounts, k); }
  }

  lemma TwoBalancesWithinSupply(l: Ledger, j: Pubkey, k: Pubkey)
    requires l.Valid() && j != k
    ensures l.Balance(j) + l.Balance(k) <= l.supply
  {
    if j in l.accounts && k in l.accounts {
      TotalWithout(l.accounts, j);
      TotalWithout(l.accounts - {j}, k);
    } else {
      BalanceWithinSupply(l, j);
      BalanceWithinSupply(l, k);
    }
  }

  // ---------------------------------------------------------------- what each operation does

  /** Nobody but the named accounts is touched, and no account changes hands. */
  predicate OnlyTouched(before: Ledger, after: Ledger, touched: set<Pubkey>) {
    before.accounts.Keys == after.accounts.Keys &&
    (forall k <- before.accounts :: after.accounts[k].owner == before.accounts[k].owner) &&
    (forall k <- before.accounts :: k !in touched ==> after.accounts[k] == before.accounts[k])
  }

  /** `amount` left `source` for `destination`, and no other balance changed. */
  predicate Moved(before: Ledger, after: Ledger, source: Pubkey, destination: Pubkey, amount: nat) {
    && after.supply == before.supply
    && OnlyTouched(before, after, {source, destination})
    && (if source == destination then after == before else
          after.Balance(source) == before.Balance(source) - amount &&
          after.Balance(destination) == before.Balance(destination) + amount)
  }

  /** `amount` was burned from `source`, and no other balance changed. */
  predicate Burned(before: Ledger, after: Ledger, source: Pubkey, amount: nat) {
    && after.supply == before.supply - amount
    && OnlyTouched(before, after, {source})
    && after.Balance(source) == before.Balance(source) - amount
  }

  /** `amount` was minted to `destination`, and no other balance changed. */
  predicate MintedTo(before: Ledger, after: Ledger, destination: Pubkey, amount: nat) {
    && after.supply == before.supply + amount
    && OnlyTouched(before, after, {destination})
    && after.Balance(destination) == before.Balance(destination) + amount
  }

  /** `user` holds `amount` in its own account. */
  predicate Holds(l: Ledger, user: Pubkey, account: Pubkey, amount: u64) {
    l.Owns(user, account) && amount <= l.Balance(account)
  }

  lemma TransferEffect(l: Ledger, source: Pubkey, destination: Pubkey, authority: Pubkey, amount: u64)
    requires l.Transfer(source, destination, authority, amount).Ok?
    ensures var t := l.Transfer(source, destination, authority, amount).value;
      && t.supply == l.supply
      && OnlyTouched(l, t, {source, destination})
      && (l.Valid() ==> t.Valid())
      && (source != destination ==> t.Balance(source) == l.Balance(source) - amount)
      && (source != destination ==> t.Balance(destination) == l.Balance(destination) + amount)
      && (source == destination ==> t == l)
  {
    if source != destination { TransferKeepsTotal(l.accounts, source, destination, amount); }
  }

  lemma TransferKeepsTotal(accounts: map<Pubkey, TokenAccount>, source: Pubkey, destination: Pubkey, amount: u64)
    requires source in accounts && destination in accounts && source != destination
    requires amount <= accounts[source].amount && accounts[destination].amount + amount <= U64_MAX
    ensures Total(accounts[source := accounts[source].(amount := accounts[source].amount - amount)]
                          [destination := accounts[destination].(amount := accounts[destination].amount + amount)]) ==
                            Total(accounts)
  {
    var s := accounts[source].(amount := accounts[source].amount - amount);
    TotalUpdate(accounts, source, s);
    TotalUpdate(accounts[source := s], destination,
      accounts[destination].(amount := accounts[destination].amount + amount));
  }

  lemma MintEffect(l: Ledger, destination: Pubkey, amount: u64)
    requires l.MintTo(destination, amount).Ok?
    ensures var t := l.MintTo(destination, amount).value;
      && t.supply == l.supply + amount
      && OnlyTouched(l, t, {destination})
      && (l.Valid() ==> t.Valid())
      && t.Balance(destination) == l.Balance(destination) + amount
  {
    TotalUpdate(l.accounts, destination, l.accounts[destination].(amount := l.Balance(destination) + amount));
  }

  lemma BurnEffect(l: Ledger, source: Pubkey, authority: Pubkey, amount: u64)
    requires l.Burn(source, authority, amount).Ok?
    ensures var t := l.Burn(source, authority, amount).value;
      && t.supply == l.supply - amount
      && OnlyTouched(l, t, {source})
      && (l.Valid() ==> t.Valid())
      && t.Balance(source) == l.Balance(source) - amount
  {
    TotalUpdate(l.accounts, source, l.accounts[source].(amount := l.Balance(source) - amount));
  }

  lemma OpenEffect(l: Ledger, k: Pubkey, owner: Pubkey)
    requires l.Open(k, owner).Ok?
    ensures var t := l.Open(k, owner).value;
      && t.supply == l.supply
      && (l.Valid() ==> t.Valid())
      && (forall j <- l.accounts :: j in t.accounts && t.accounts[j] == l.accounts[j])
      && t.accounts[k] == TokenAccount(owner, 0)
      && (forall j :: t.Balance(j) == l.Balance(j))
  {
    TotalUpdate(l.accounts, k, TokenAccount(owner, 0));
  }

  /** In a valid ledger a burn is accepted exactly when the account is the signer's and holds enough. */
  lemma BurnAccepted(l: Ledger, source: Pubkey, authority: Pubkey, amount: u64)
    requires l.Valid()
    ensures l.Burn(source, authority, amount).Ok? <==> l.Owns(authority, source) && amount <= l.Balance(source)
  {
    BalanceWithinSupply(l, source);
  }

  /** In a valid ledger a transfer never fails for want of room in the destination. */
  lemma TransferAccepted(l: Ledger, source: Pubkey, destination: Pubkey, authority: Pubkey, amount: u64)
    requires l.Valid()
    ensures l.Transfer(source, destination, authority, amount).Ok? <==>
      l.Owns(authority, source) && destination in l.accounts && amount <= l.Balance(source)
  {
    if source != destination { TwoBalancesWithinSupply(l, source, destination); }
  }

  /** In a valid ledger minting fails only for a missing account or a full supply. */
  lemma MintAccepted(l: Ledger, destination: Pubkey, amount: u64)
    requires l.Valid()
    ensures l.MintTo(destination, amount).Ok? <==> destination in l.accounts && l.supply + amount <= U64_MAX
  {
    BalanceWithinSupply(l, destination);
  }
}
