/** Large deposits of the yield vault and the travel-rule records they consume. */
module OragamiTravelRule {
  import opened Results
  import opened FixedPoint
  import opened TokenLedger
  import opened Compliance
  import opened OragamiSpec
  import Log = TravelRuleLog

  /** What one event does to the records. */
  function LogEvent(s: State, e: Event): Log.Event {
    if Attempt(s, e).Err? then Log.Unrelated else
    match e
    case Program(Deposit(payer, _, _, record, amount)) =>
      if amount >= TRAVEL_RULE_THRESHOLD && record.Some? then Log.Consumed(record.value, payer, amount)
        else Log.Unrelated
    case Program(InitTravelRule(payer, nonce, amount)) => Log.Created(RecordId(payer, nonce), payer, amount)
    case _ => Log.Unrelated
  }

  function LogOf(s: State, es: seq<Event>): (log: seq<Log.Event>)
    ensures |log| == |es|
    decreases es
  {
    if es == [] then [] else [LogEvent(s, es[0])] + LogOf(Next(s, es[0]), es[1..])
  }

  lemma SurroundingsKeepRecords(s: State, o: Surroundings)
    requires Happen(s, o).Ok?
    ensures Happen(s, o).value.records == s.records
  {}

  lemma OthersKeepRecords(s: State, i: Instruction)
    requires !i.Deposit? && !i.InitTravelRule? && Execute(s, i).Ok?
    ensures Execute(s, i).value.records == s.records
  {}

  lemma StepRefinesLog(s: State, e: Event)
    ensures Log.Enabled(s.records, LogEvent(s, e))
    ensures Next(s, e).records == Log.Apply(s.records, LogEvent(s, e))
  {
    if Attempt(s, e).Ok? {
      match e
      case Outside(o) => SurroundingsKeepRecords(s, o);
      case Program(Deposit(_, _, _, _, _)) =>
      case Program(InitTravelRule(_, _, _)) =>
      case Program(i) => OthersKeepRecords(s, i);
    }
  }

  lemma {:induction false} RunRefinesLog(s: State, es: seq<Event>)
    ensures Log.AllEnabled(s.records, LogOf(s, es))
    ensures Run(s, es).records == Log.Run(s.records, LogOf(s, es))
    decreases es
  {
    if es != [] {
      StepRefinesLog(s, es[0]);
      RunRefinesLog(Next(s, es[0]), es[1..]);
      assert LogOf(s, es)[1..] == LogOf(Next(s, es[0]), es[1..]);
    }
  }

  lemma {:induction false} LogAt(s: State, es: seq<Event>, i: nat)
    requires i < |es|
    ensures LogOf(s, es)[i] == LogEvent(Run(s, es[..i]), es[i])
    decreases es
  {
    if i > 0 {
      LogAt(Next(s, es[0]), es[1..], i - 1);
      assert es[..i][1..] == es[1..][..i - 1];
    }
  }

  /** The i-th event is an accepted deposit at or above the threshold. */
  predicate LargeDeposit(s: State, es: seq<Event>, i: int) {
    0 <= i < |es| && es[i].Program? && es[i].instruction.Deposit? &&
    es[i].instruction.amount >= TRAVEL_RULE_THRESHOLD && Attempt(Run(s, es[..i]), es[i]).Ok?
  }

  /** The i-th event is an accepted creation of record `id`. */
  predicate Creation(s: State, es: seq<Event>, i: int, id: RecordId, amount: u64) {
    0 <= i < |es| && es[i] == Program(InitTravelRule(id.payer, id.nonce, amount)) && Attempt(Run(s, es[..i]), es[i]).Ok?
  }

  /** The record a deposit names. */
  function RecordOf(e: Event): RecordId
    requires e.Program? && e.instruction.Deposit?
  {
    if e.instruction.record.Some? then e.instruction.record.value else RecordId(e.instruction.payer, 0)
  }

  lemma LargeDepositLogged(s: State, es: seq<Event>, i: nat)
    requires i < |es|
    ensures LargeDeposit(s, es, i) <==> LogOf(s, es)[i].Consumed?
    ensures LargeDeposit(s, es, i) ==>
      LogOf(s, es)[i] == Log.Consumed(RecordOf(es[i]), es[i].instruction.payer, es[i].instruction.amount)
  {
    LogAt(s, es, i);
    if LargeDeposit(s, es, i) {
      LargeNeedsRecord(Run(s, es[..i]), es[i]);
    }
  }

  lemma LargeNeedsRecord(s: State, e: Event)
    requires e.Program? && e.instruction.Deposit? && e.instruction.amount >= TRAVEL_RULE_THRESHOLD
    requires Attempt(s, e).Ok?
    ensures e.instruction.record.Some?
  {}

  /** The record that the i-th event consumes: present unconsumed at the start or created before, and
      consumed at the end, for the same payer and amount throughout. */
  predicate OwnRecord(s: State, es: seq<Event>, i: int)
    requires LargeDeposit(s, es, i)
  {
    var id, payer, amount := RecordOf(es[i]), es[i].instruction.payer, es[i].instruction.amount;
    && id in Run(s, es).records && Run(s, es).records[id] == Record(payer, amount, true)
    && (id in s.records ==> s.records[id] == Record(payer, amount, false))
    && (id !in s.records ==> exists j :: 0 <= j < i && Creation(s, es, j, id, amount))
  }

  lemma LargeDepositHasOwnRecord(s: State, es: seq<Event>, i: nat)
    requires LargeDeposit(s, es, i)
    ensures OwnRecord(s, es, i)
  {
    RunRefinesLog(s, es);
    var log := LogOf(s, es);
    LargeDepositLogged(s, es, i);
    Log.ConsumptionAt(s.records, log, i);
    Log.RunExtends(s.records, log);
    if RecordOf(es[i]) !in s.records {
      var j := Log.CreatedBefore(s.records, log, i);
      LogAt(s, es, j);
      assert Creation(s, es, j, RecordOf(es[i]), es[i].instruction.amount);
    }
  }

  /** Every accepted large deposit consumes its own record, for the same payer and amount, which was
      either there unconsumed at the start or created earlier in the run; no two deposits share one. */
  lemma LargeDepositsHaveOwnRecords(s: State, es: seq<Event>)
    ensures forall i :: LargeDeposit(s, es, i) ==> OwnRecord(s, es, i)
    ensures forall i, j :: i < j && LargeDeposit(s, es, i) && LargeDeposit(s, es, j) ==>
      RecordOf(es[i]) != RecordOf(es[j])
  {
    RunRefinesLog(s, es);
    var log := LogOf(s, es);
    forall i | LargeDeposit(s, es, i)
      ensures OwnRecord(s, es, i)
    {
      LargeDepositHasOwnRecord(s, es, i);
    }
    forall i, j | i < j && LargeDeposit(s, es, i) && LargeDeposit(s, es, j)
      ensures RecordOf(es[i]) != RecordOf(es[j])
    {
      LargeDepositLogged(s, es, i);
      LargeDepositLogged(s, es, j);
      Log.ConsumptionsDistinct(s.records, log, i, j);
    }
  }

  /** And every record consumed at the end but not at the start was consumed by an accepted large deposit
      of the run. */
  lemma ConsumedRecordsHaveDeposits(s: State, es: seq<Event>, id: RecordId) returns (i: nat)
    requires id in Run(s, es).records && Run(s, es).records[id].consumed &&
      (id in s.records ==> !s.records[id].consumed)
    ensures LargeDeposit(s, es, i) && RecordOf(es[i]) == id
  {
    RunRefinesLog(s, es);
    i := Log.ConsumedHasEvent(s.records, LogOf(s, es), id);
    LargeDepositLogged(s, es, i);
  }

  /** Sum of a payer's accepted large deposits. */
  function LargeDepositsBy(s: State, es: seq<Event>, payer: Pubkey): nat
    decreases es
  {
    if es == [] then 0 else
    (if LargeDeposit(s, es, 0) && es[0].instruction.payer == payer then es[0].instruction.amount else 0)
    + LargeDepositsBy(Next(s, es[0]), es[1..], payer)
  }

  lemma {:induction false} LargeDepositsLogged(s: State, es: seq<Event>, payer: Pubkey)
    ensures LargeDepositsBy(s, es, payer) == Log.ConsumedBy(LogOf(s, es), payer)
    decreases es
  {
    if es != [] {
      LargeDepositLogged(s, es, 0);
      LargeDepositsLogged(Next(s, es[0]), es[1..], payer);
      assert LogOf(s, es)[1..] == LogOf(Next(s, es[0]), es[1..]);
    }
  }

  /** Per payer, accepted large deposits add up to exactly what the consumed records grew by; from
      launch, to exactly what they say. */
  lemma LargeDepositTotals(s: State, es: seq<Event>, payer: Pubkey)
    ensures Log.ConsumedTotal(Run(s, es).records, payer) ==
      Log.ConsumedTotal(s.records, payer) + LargeDepositsBy(s, es, payer)
    ensures NoneConsumed(s.records) ==> LargeDepositsBy(s, es, payer) == Log.ConsumedTotal(Run(s, es).records, payer)
  {
    if NoneConsumed(s.records) { Log.NothingConsumed(s.records, payer); }
    RunRefinesLog(s, es);
    LargeDepositsLogged(s, es, payer);
    Log.TotalsAgree(s.records, LogOf(s, es), payer);
  }

  /** Records are never removed, re-created, altered or un-consumed. */
  lemma RecordsArePermanent(s: State, es: seq<Event>)
    ensures Log.Extends(s.records, Run(s, es).records)
  {
    RunRefinesLog(s, es);
    Log.RunExtends(s.records, LogOf(s, es));
  }
}
