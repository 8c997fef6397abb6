/** Large deposits of the factory and the travel-rule records they consume, for vaults that require it. */
module CustodyTravelRule {
  import opened Results
  import opened FixedPoint
  import opened TokenLedger
  import opened Compliance
  import opened CustodySpec
  import Log = TravelRuleLog

  /** An instruction on which the travel rule bites. */
  predicate Regulated(f: Factory, i: Instruction) {
    i.Deposit? && i.amount >= TRAVEL_RULE_THRESHOLD && i.asset in f.vaults && f.vaults[i.asset].travelRuleRequired
  }

  function LogEvent(f: Factory, e: Event): Log.Event {
    if Attempt(f, e).Err? || e.Outside? then Log.Unrelated else
    var i := e.instruction;
    if Regulated(f, i) && i.record.Some? then Log.Consumed(i.record.value, i.depositor, i.amount)
    else if i.InitTravelRule? then Log.Created(RecordId(i.payer, i.nonce), i.payer, i.amount)
    else Log.Unrelated
  }

  function LogOf(f: Factory, es: seq<Event>): (log: seq<Log.Event>)
    ensures |log| == |es|
    decreases es
  {
    if es == [] then [] else [LogEvent(f, es[0])] + LogOf(Next(f, es[0]), es[1..])
  }

  lemma OthersKeepRecords(f: Factory, c: Context, i: Instruction)
    requires !i.Deposit? && !i.InitTravelRule? && Execute(f, c, i).Ok?
    ensures Execute(f, c, i).value.records == f.records
  {}

  lemma SurroundingsKeepRecords(f: Factory, o: Surroundings)
    requires Happen(f, o).Ok?
    ensures Happen(f, o).value.records == f.records
  {}

  lemma StepRefinesLog(f: Factory, e: Event)
    ensures Log.Enabled(f.records, LogEvent(f, e))
    ensures Next(f, e).records == Log.Apply(f.records, LogEvent(f, e))
  {
    if Attempt(f, e).Ok? {
      match e
      case Outside(o) => SurroundingsKeepRecords(f, o);
      case Program(_, Deposit(_, _, _, _, _, _)) =>
      case Program(_, InitTravelRule(_, _, _)) =>
      case Program(c, i) => OthersKeepRecords(f, c, i);
    }
  }

  lemma {:induction false} RunRefinesLog(f: Factory, es: seq<Event>)
    ensures Log.AllEnabled(f.records, LogOf(f, es))
    ensures Run(f, es).records == Log.Run(f.records, LogOf(f, es))
    decreases es
  {
    if es != [] {
      StepRefinesLog(f, es[0]);
      RunRefinesLog(Next(f, es[0]), es[1..]);
      assert LogOf(f, es)[1..] == LogOf(Next(f, es[0]), es[1..]);
    }
  }

  lemma {:induction false} LogAt(f: Factory, es: seq<Event>, i: nat)
    requires i < |es|
    ensures LogOf(f, es)[i] == LogEvent(Run(f, es[..i]), es[i])
    decreases es
  {
    if i > 0 {
      LogAt(Next(f, es[0]), es[1..], i - 1);
      assert es[..i][1..] == es[1..][..i - 1];
    }
  }

  /** The i-th event is an accepted deposit, at or above the threshold, into a vault that requires the
      travel rule at that moment. */
  predicate LargeDeposit(f: Factory, es: seq<Event>, i: int) {
    0 <= i < |es| && es[i].Program? && Regulated(Run(f, es[..i]), es[i].instruction) &&
      Attempt(Run(f, es[..i]), es[i]).Ok?
  }

  predicate Creation(f: Factory, es: seq<Event>, i: int, id: RecordId, amount: u64) {
    0 <= i < |es| && es[i].Program? && es[i].instruction == InitTravelRule(id.payer, id.nonce, amount) &&
    Attempt(Run(f, es[..i]), es[i]).Ok?
  }

  function RecordOf(i: Instruction): RecordId
    requires i.Deposit?
  {
    if i.record.Some? then i.record.value else RecordId(i.depositor, 0)
  }

  lemma RegulatedNeedsRecord(f: Factory, c: Context, i: Instruction)
    requires Regulated(f, i) && Execute(f, c, i).Ok?
    ensures i.record.Some?
  {}

  lemma LargeDepositLogged(f: Factory, es: seq<Event>, i: nat)
    requires i < |es|
    ensures LargeDeposit(f, es, i) <==> LogOf(f, es)[i].Consumed?
    ensures LargeDeposit(f, es, i) ==>
      LogOf(f, es)[i] == Log.Consumed(RecordOf(es[i].instruction), es[i].instruction.depositor,
        es[i].instruction.amount)
  {
    LogAt(f, es, i);
    if LargeDeposit(f, es, i) {
      RegulatedNeedsRecord(Run(f, es[..i]), es[i].context, es[i].instruction);
    }
  }

  /** Every accepted large deposit consumes its own record, for the same payer and amount, which was
      either there unconsumed at the start or created earlier in the run; no two deposits share one. */
  lemma LargeDepositsHaveOwnRecords(f: Factory, es: seq<Event>)
    ensures forall i :: LargeDeposit(f, es, i) ==>
      && RecordOf(es[i].instruction) in Run(f, es).records
      && Run(f, es).records[RecordOf(es[i].instruction)] ==
         Record(es[i].instruction.depositor, es[i].instruction.amount, true)
      && (RecordOf(es[i].instruction) !in f.records ==>
         exists j :: j < i && Creation(f, es, j, RecordOf(es[i].instruction), es[i].instruction.amount))
      && (RecordOf(es[i].instruction) in f.records ==>
         f.records[RecordOf(es[i].instruction)] == Record(es[i].instruction.depositor, es[i].instruction.amount, false))
    ensures forall i, j :: i < j && LargeDeposit(f, es, i) && LargeDeposit(f, es, j) ==>
      RecordOf(es[i].instruction) != RecordOf(es[j].instruction)
  {
    RunRefinesLog(f, es);
    var log := LogOf(f, es);
    forall i | LargeDeposit(f, es, i)
      ensures RecordOf(es[i].instruction) in Run(f, es).records
      ensures Run(f, es).records[RecordOf(es[i].instruction)] ==
        Record(es[i].instruction.depositor, es[i].instruction.amount, true)
      ensures RecordOf(es[i].instruction) !in f.records ==>
        exists j :: j < i && Creation(f, es, j, RecordOf(es[i].instruction), es[i].instruction.amount)
      ensures RecordOf(es[i].instruction) in f.records ==>
        f.records[RecordOf(es[i].instruction)] == Record(es[i].instruction.depositor, es[i].instruction.amount, false)
    {
      LargeDepositLogged(f, es, i);
      Log.ConsumptionAt(f.records, log, i);
      Log.RunExtends(f.records, log);
      if RecordOf(es[i].instruction) !in f.records {
        var j := Log.CreatedBefore(f.records, log, i);
        LogAt(f, es, j);
        assert Creation(f, es, j, RecordOf(es[i].instruction), es[i].instruction.amount);
      }
    }
    forall i, j | i < j && LargeDeposit(f, es, i) && LargeDeposit(f, es, j)
      ensures RecordOf(es[i].instruction) != RecordOf(es[j].instruction)
    {
      LargeDepositLogged(f, es, i);
      LargeDepositLogged(f, es, j);
      Log.ConsumptionsDistinct(f.records, log, i, j);
    }
  }

  /** And every record consumed at the end but not at the start was consumed by an accepted large deposit
      of the run. */
  lemma ConsumedRecordsHaveDeposits(f: Factory, es: seq<Event>, id: RecordId) returns (i: nat)
    requires id in Run(f, es).records && Run(f, es).records[id].consumed &&
      (id in f.records ==> !f.records[id].consumed)
    ensures LargeDeposit(f, es, i) && RecordOf(es[i].instruction) == id
  {
    RunRefinesLog(f, es);
    i := Log.ConsumedHasEvent(f.records, LogOf(f, es), id);
    LargeDepositLogged(f, es, i);
  }

  function LargeDepositsBy(f: Factory, es: seq<Event>, payer: Pubkey): nat
    decreases es
  {
    if es == [] then 0 else
    (if LargeDeposit(f, es, 0) && es[0].instruction.depositor == payer then es[0].instruction.amount else 0)
    + LargeDepositsBy(Next(f, es[0]), es[1..], payer)
  }

  lemma {:induction false} LargeDepositsLogged(f: Factory, es: seq<Event>, payer: Pubkey)
    ensures LargeDepositsBy(f, es, payer) == Log.ConsumedBy(LogOf(f, es), payer)
    decreases es
  {
    if es != [] {
      LargeDepositLogged(f, es, 0);
      LargeDepositsLogged(Next(f, es[0]), es[1..], payer);
      assert LogOf(f, es)[1..] == LogOf(Next(f, es[0]), es[1..]);
    }
  }

  /** Per payer, regulated deposits add up to exactly what the consumed records grew by, and from a new
      factory to exactly what they say; records are never removed, re-created, altered or un-consumed. */
  lemma LargeDepositTotals(f: Factory, es: seq<Event>, payer: Pubkey)
    ensures Log.ConsumedTotal(Run(f, es).records, payer) ==
      Log.ConsumedTotal(f.records, payer) + LargeDepositsBy(f, es, payer)
    ensures NoneConsumed(f.records) ==> LargeDepositsBy(f, es, payer) == Log.ConsumedTotal(Run(f, es).records, payer)
    ensures Log.Extends(f.records, Run(f, es).records)
  {
    if NoneConsumed(f.records) { Log.NothingConsumed(f.records, payer); }
    RunRefinesLog(f, es);
    LargeDepositsLogged(f, es, payer);
    Log.TotalsAgree(f.records, LogOf(f, es), payer);
    Log.RunExtends(f.records, LogOf(f, es));
  }
}
