/** Compliance credentials and travel-rule records. */
module Compliance {
  import opened Results
  import opened FixedPoint
  import opened TokenLedger

  const TRAVEL_RULE_THRESHOLD: int := 1_000_000_000

  const CREDENTIAL_STATUS_ACTIVE: int := 1
  const CREDENTIAL_STATUS_REVOKED: int := 3

  // ---------------------------------------------------------------- credentials

  datatype Credential = Credential(wallet: Pubkey, issuedAt: int, expiresAt: int, status: int)

  /** Credential accounts by the wallet in their address seeds. */
  type Credentials = map<Pubkey, Credential>

  /** Creates the account (`init` refuses an existing one) and activates it. */
  function Issue(cs: Credentials, wallet: Pubkey, issuedAt: int, expiresAt: int): Result<Credentials> {
    if wallet in cs then Err(AccountError)
    else Ok(cs[wallet := Credential(wallet, issuedAt, expiresAt, CREDENTIAL_STATUS_ACTIVE)])
  }

  function Revoke(cs: Credentials, wallet: Pubkey, alreadyRevoked: Error): Result<Credentials> {
    if wallet !in cs || cs[wallet].wallet != wallet then Err(AccountError)
    else if cs[wallet].status == CREDENTIAL_STATUS_REVOKED then Err(alreadyRevoked)
    else Ok(cs[wallet := cs[wallet].(status := CREDENTIAL_STATUS_REVOKED)])
  }

  /** Each account names the wallet it is derived from, and is active or revoked. */
  predicate WellKept(cs: Credentials) {
    forall w <- cs :: cs[w].wallet == w && cs[w].status in {CREDENTIAL_STATUS_ACTIVE, CREDENTIAL_STATUS_REVOKED}
  }

  predicate IsRevoked(cs: Credentials, wallet: Pubkey) {
    wallet in cs && cs[wallet].status == CREDENTIAL_STATUS_REVOKED
  }

  /** An account that a deposit of `wallet` at time `now` may rely on. */
  predicate InForce(cs: Credentials, wallet: Pubkey, now: int) {
    wallet in cs && cs[wallet].status == CREDENTIAL_STATUS_ACTIVE && cs[wallet].expiresAt > now
  }

  /** From `before` to `after` exactly one credential is new: active, for `wallet`, with these dates. */
  predicate Issued(before: Credentials, after: Credentials, wallet: Pubkey, issuedAt: int, expiresAt: int) {
    && wallet !in before && after.Keys == before.Keys + {wallet}
    && after[wallet].wallet == wallet && after[wallet].status == 1
    && after[wallet].issuedAt == issuedAt && after[wallet].expiresAt == expiresAt
    && forall w <- before :: after[w] == before[w]
  }

  /** From `before` to `after` exactly the status of the credential of `wallet` changes, to revoked. */
  predicate Revoked(before: Credentials, after: Credentials, wallet: Pubkey) {
    && wallet in before && after.Keys == before.Keys
    && before[wallet].status != 3 && after[wallet].status == 3
    && after[wallet].wallet == before[wallet].wallet
    && after[wallet].issuedAt == before[wallet].issuedAt && after[wallet].expiresAt == before[wallet].expiresAt
    && forall w <- before :: w != wallet ==> after[w] == before[w]
  }

  // ---------------------------------------------------------------- travel-rule records

  /** The seeds of a record's address. */
  datatype RecordId = RecordId(payer: Pubkey, nonce: nat)

  datatype Record = Record(payer: Pubkey, amount: u64, consumed: bool)

  type Records = map<RecordId, Record>

  function CreateRecord(rs: Records, payer: Pubkey, nonce: nat, amount: u64): Result<Records> {
    var id := RecordId(payer, nonce);
    if id in rs then Err(AccountError) else Ok(rs[id := Record(payer, amount, false)])
  }

  /** The checks of a large deposit; `spent` is the error for a record used before. */
  function ConsumeRecord(rs: Records, id: Option<RecordId>, payer: Pubkey, amount: u64, spent: Error): Result<Records> {
    if id.None? then Err(TravelRuleRequired)
    else if id.value !in rs then Err(AccountError)
    else
      var r := rs[id.value];
      if r.amount != amount || r.payer != payer then Err(InvalidTravelRule)
      else if r.consumed then Err(spent)
      else Ok(rs[id.value := r.(consumed := true)])
  }

  /** A record that a deposit of `amount` by `payer` may consume. */
  predicate Usable(rs: Records, id: Option<RecordId>, payer: Pubkey, amount: u64) {
    id.Some? && id.value in rs && rs[id.value] == Record(payer, amount, false)
  }

  /** From `before` to `after` exactly one record is new: unconsumed, for this payer and amount. */
  predicate Recorded(before: Records, after: Records, payer: Pubkey, nonce: nat, amount: u64) {
    && RecordId(payer, nonce) !in before && after.Keys == before.Keys + {RecordId(payer, nonce)}
    && after[RecordId(payer, nonce)].payer == payer && after[RecordId(payer, nonce)].amount == amount
    && !after[RecordId(payer, nonce)].consumed
    && forall id <- before :: after[id] == before[id]
  }

  predicate NoneConsumed(rs: Records) {
    forall id <- rs :: !rs[id].consumed
  }

  lemma ConsumeAccepted(rs: Records, id: Option<RecordId>, payer: Pubkey, amount: u64, spent: Error)
    ensures ConsumeRecord(rs, id, payer, amount, spent).Ok? <==> Usable(rs, id, payer, amount)
  {}
}

/** The life of travel-rule records over a run, as an abstract machine that both programs refine. */
module TravelRuleLog {
  import opened FixedPoint
  import opened TokenLedger
  import opened Compliance

  datatype Event =
    | Unrelated
    | Created(id: RecordId, payer: Pubkey, amount: u64)
    | Consumed(id: RecordId, payer: Pubkey, amount: u64)

  predicate Enabled(rs: Records, e: Event) {
    match e
    case Unrelated => true
    case Created(id, _, _) => id !in rs
    case Consumed(id, payer, amount) => id in rs && rs[id] == Record(payer, amount, false)
  }

  function Apply(rs: Records, e: Event): Records
    requires Enabled(rs, e)
  {
    match e
    case Unrelated => rs
    case Created(id, payer, amount) => rs[id := Record(payer, amount, false)]
    case Consumed(id, payer, amount) => rs[id := Record(payer, amount, true)]
  }

  predicate AllEnabled(rs: Records, es: seq<Event>)
    decreases es
  {
    es == [] || (Enabled(rs, es[0]) && AllEnabled(Apply(rs, es[0]), es[1..]))
  }

  function Run(rs: Records, es: seq<Event>): Records
    requires AllEnabled(rs, es)
    decreases es
  {
    if es == [] then rs else Run(Apply(rs, es[0]), es[1..])
  }

  /** Records are never deleted, re-created or un-consumed; payer and amount never change. */
  predicate Extends(earlier: Records, later: Records) {
    forall id <- earlier :: id in later &&
      later[id].payer == earlier[id].payer && later[id].amount == earlier[id].amount &&
      (earlier[id].consumed ==> later[id].consumed)
  }

  lemma {:induction false} RunExtends(rs: Records, es: seq<Event>)
    requires AllEnabled(rs, es)
    ensures Extends(rs, Run(rs, es))
    decreases es
  {
    if es != [] {
      RunExtends(Apply(rs, es[0]), es[1..]);
    }
  }

  /** A consumption names a record not consumed at the start; it is consumed at the end. */
  lemma {:induction false} ConsumptionAt(rs: Records, es: seq<Event>, i: nat)
    requires AllEnabled(rs, es) && i < |es| && es[i].Consumed?
    ensures es[i].id in rs ==> !rs[es[i].id].consumed
    ensures es[i].id in Run(rs, es) && Run(rs, es)[es[i].id] == Record(es[i].payer, es[i].amount, true)
    decreases es
  {
    if i == 0 {
      RunExtends(Apply(rs, es[0]), es[1..]);
    } else {
      ConsumptionAt(Apply(rs, es[0]), es[1..], i - 1);
    }
  }

  /** Two consumptions never share a record. */
  lemma {:induction false} ConsumptionsDistinct(rs: Records, es: seq<Event>, i: nat, j: nat)
    requires AllEnabled(rs, es) && i < j < |es| && es[i].Consumed? && es[j].Consumed?
    ensures es[i].id != es[j].id
    decreases es
  {
    if i == 0 {
      ConsumptionAt(Apply(rs, es[0]), es[1..], j - 1);
    } else {
      ConsumptionsDistinct(Apply(rs, es[0]), es[1..], i - 1, j - 1);
    }
  }

  /** A record consumed in the run and absent at the start was created earlier in the run, for the
      same payer and amount. */
  lemma {:induction false} CreatedBefore(rs: Records, es: seq<Event>, i: nat) returns (j: nat)
    requires AllEnabled(rs, es) && i < |es| && es[i].Consumed? && es[i].id !in rs
    ensures j < i && es[j] == Created(es[i].id, es[i].payer, es[i].amount)
    decreases es
  {
    if es[0].Created? && es[0].id == es[i].id {
      j := 0;
      ConsumptionAt(Apply(rs, es[0]), es[1..], i - 1);
      RunExtends(Apply(rs, es[0]), es[1..]);
    } else {
      j := CreatedBefore(Apply(rs, es[0]), es[1..], i - 1);
      j := j + 1;
    }
  }

  /** Every record consumed in the run has a consumption event. */
  lemma {:induction false} ConsumedHasEvent(rs: Records, es: seq<Event>, id: RecordId) returns (i: nat)
    requires AllEnabled(rs, es)
    requires id in Run(rs, es) && Run(rs, es)[id].consumed && (id in rs ==> !rs[id].consumed)
    ensures i < |es| && es[i].Consumed? && es[i].id == id
    decreases es
  {
    var next := Apply(rs, es[0]);
    if es[0].Consumed? && es[0].id == id {
      i := 0;
    } else {
      i := ConsumedHasEvent(next, es[1..], id);
      i := i + 1;
    }
  }

  // ---------------------------------------------------------------- totals per payer

  /** Amounts consumed by `payer` in the run. */
  function ConsumedBy(es: seq<Event>, payer: Pubkey): nat {
    if es == [] then 0 else
    (if es[0].Consumed? && es[0].payer == payer then es[0].amount else 0) + ConsumedBy(es[1..], payer)
  }

  ghost function Pick(rs: Records): RecordId
    requires rs != map[]
    ensures Pick(rs) in rs
  {
    var id :| id in rs; id
  }

  function Share(r: Record, payer: Pubkey): nat {
    if r.consumed && r.payer == payer then r.amount else 0
  }

  /** Sum of the amounts on `payer`'s consumed records. */
  ghost function ConsumedTotal(rs: Records, payer: Pubkey): nat
    decreases |rs|
  {
    if rs == map[] then 0 else
    var id := Pick(rs);
    RemovalShrinks(rs, id);
    Share(rs[id], payer) + ConsumedTotal(rs - {id}, payer)
  }

  lemma {:induction false} NothingConsumed(rs: Records, payer: Pubkey)
    requires NoneConsumed(rs)
    ensures ConsumedTotal(rs, payer) == 0
    decreases |rs|
  {
    if rs != map[] {
      RemovalShrinks(rs, Pick(rs));
      NothingConsumed(rs - {Pick(rs)}, payer);
    }
  }

  lemma RemovalShrinks(rs: Records, id: RecordId)
    requires id in rs
    ensures |rs - {id}| < |rs|
  {
    assert (rs - {id}).Keys == rs.Keys - {id};
  }

  lemma {:induction false} TotalWithout(rs: Records, id: RecordId, payer: Pubkey)
    requires id in rs
    ensures ConsumedTotal(rs, payer) == Share(rs[id], payer) + ConsumedTotal(rs - {id}, payer)
    decreases |rs|
  {
    var first := Pick(rs);
    if first != id {
      RemovalShrinks(rs, first);
      RemovalShrinks(rs, id);
      TotalWithout(rs - {first}, id, payer);
      TotalWithout(rs - {id}, first, payer);
      assert rs - {first} - {id} == rs - {id} - {first};
    }
  }

  lemma ApplyTotal(rs: Records, e: Event, payer: Pubkey)
    requires Enabled(rs, e)
    ensures ConsumedTotal(Apply(rs, e), payer) ==
      ConsumedTotal(rs, payer) + if e.Consumed? && e.payer == payer then e.amount else 0
  {
    if !e.Unrelated? {
      var t := Apply(rs, e);
      TotalWithout(t, e.id, payer);
      if e.id in rs {
        TotalWithout(rs, e.id, payer);
        assert t - {e.id} == rs - {e.id};
      } else {
        assert t - {e.id} == rs;
      }
    }
  }

  /** Per payer, what large deposits consumed in the run is what the consumed records grew by. */
  lemma {:induction false} TotalsAgree(rs: Records, es: seq<Event>, payer: Pubkey)
    requires AllEnabled(rs, es)
    ensures ConsumedTotal(Run(rs, es), payer) == ConsumedTotal(rs, payer) + ConsumedBy(es, payer)
    decreases es
  {
    if es != [] {
      ApplyTotal(rs, es[0], payer);
      TotalsAgree(Apply(rs, es[0]), es[1..], payer);
    }
  }
}
