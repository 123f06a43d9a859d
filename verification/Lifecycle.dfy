/** The application lifecycle as a state machine: what each engine call answers and changes, and what holds over every
    sequence of calls, read off the calls and their answers alone. */
module Lifecycle {
  import opened Common
  import opened Bytes
  import opened Execution
  import opened Blocks
  import opened Mempool
  import opened Durability
  import CometValidators

  /** The identity an engine announces at bootstrap. */
  datatype Announcement = Announcement(
    chainId: string, initialHeight: int, parameters: Id, validators: seq<CometValidators.CometValidator>)

  datatype TransactionResult = TransactionResult(intent: Id, recordHash: Id, stateId: Id)

  datatype FinalizeResult = FinalizeResult(appHash: Id, results: seq<TransactionResult>)

  datatype Pending = Pending(decision: Decision, transactions: seq<seq<u8>>, executed: Executed, result: FinalizeResult)

  datatype ProposalStatus = Accept | Reject

  function ResultOf(e: Executed): FinalizeResult {
    FinalizeResult(e.appHash, seq(|e.records|, i requires 0 <= i < |e.records| =>
      TransactionResult(e.records[i].fields.intent, e.records[i].hash, e.records[i].fields.resulting)))
  }

  /** The result names the block's application hash and, per transaction in order, its intent, the hash of its record
      and the state it led to. */
  ghost predicate Reports(e: Executed, result: FinalizeResult) {
    result.appHash == e.appHash && |result.results| == |e.records| &&
    forall i | 0 <= i < |e.records| ::
      result.results[i].intent == e.records[i].fields.intent && result.results[i].recordHash == e.records[i].hash &&
      result.results[i].stateId == e.records[i].fields.resulting
  }

  function ReceiptOf(e: Executed): Receipt {
    Receipt(e.header.height, e.header.id, e.appHash, e.header.resultingStateId)
  }

  function NextProposal(tip: Committed, decision: Decision, txs: seq<seq<u8>>): Proposal {
    Proposal(tip.height + 1, decision, txs)
  }

  /** The decision is the one the engine must make for the block after the tip. */
  predicate NextDecision(env: Environment, tip: Committed, decision: Decision) {
    tip.height < U64_MAX && DecisionValid(env.network, decision, tip.height + 1)
  }

  // ----- the machine

  /** What never changes: the announced identity, the environment, and its transaction and block execution. */
  datatype Machine = Machine(identity: Announcement, env: Environment, step: StepRule, execute: BlockRule)

  datatype Pool = Pool(candidate: Candidate, transactions: seq<seq<u8>>, bytes: nat)

  datatype Core = Core(
    running: bool, pending: Option<Pending>, tip: Committed, journal: seq<Stored>, appHash: Option<Id>, writable: bool,
    pool: Pool)

  datatype Call =
    | CallInit(request: Announcement) | CallCheck(transaction: seq<u8>)
    | CallPrepare(engineHeight: int, maximumBytes: int, nextValidators: Id, offered: seq<seq<u8>>)
    | CallProcess(decision: Decision, transactions: seq<seq<u8>>)
    | CallFinalize(decision: Decision, transactions: seq<seq<u8>>)
    | CallCommit(appended: bool)

  datatype Event =
    | Bootstrapped | Checked | Prepared(selected: seq<seq<u8>>) | Processed(status: ProposalStatus)
    | FinalizedBlock(result: FinalizeResult) | Durable(receipt: Receipt) | Refused

  predicate Admissible(m: Machine, pool: Pool, transaction: seq<u8>) {
    |pool.transactions| < MAX_PENDING_TRANSACTIONS && pool.bytes + |transaction| <= MAX_PENDING_TRANSACTION_BYTES &&
    m.step(pool.candidate, transaction).Ok?
  }

  predicate Preparable(m: Machine, tip: Committed, engineHeight: int, maximumBytes: int, nextValidators: Id) {
    tip.height < U64_MAX && 0 <= maximumBytes && 0 <= engineHeight &&
    EngineHeight(m.env.network, tip.height + 1) == Some(engineHeight) && nextValidators == m.env.network.validatorsHash
  }

  /** The smaller of the engine's limit and the configured one. */
  function ByteLimit(m: Machine, maximumBytes: nat): (limit: nat)
    ensures limit <= maximumBytes && limit <= m.env.config.maximumBytes
    ensures limit == maximumBytes || limit == m.env.config.maximumBytes
  {
    if maximumBytes < m.env.config.maximumBytes then maximumBytes else m.env.config.maximumBytes
  }

  /** What executing a request on a tip answers. */
  ghost function ExecutedOn(m: Machine, tip: Committed, decision: Decision, txs: seq<seq<u8>>): Option<Executed> {
    if !NextDecision(m.env, tip, decision) then None
    else match m.execute(tip, NextProposal(tip, decision, txs)) case Ok(e) => Some(e) case Err(_) => None
  }

  ghost function Answer(m: Machine, s: Core, call: Call): Event {
    if call.CallInit? then if s.tip.height == 0 && call.request == m.identity then Bootstrapped else Refused
    else if !s.running then Refused
    else match call
      case CallCheck(transaction) => if Admissible(m, s.pool, transaction) then Checked else Refused
      case CallPrepare(engineHeight, maximumBytes, nextValidators, offered) =>
        if !Preparable(m, s.tip, engineHeight, maximumBytes, nextValidators) then Refused
        else
          var records := m.env.config.maximumRecords;
          Prepared(Selected(m.step, CandidateOf(s.tip), offered, ByteLimit(m, maximumBytes), records))
      case CallProcess(decision, txs) =>
        if !NextDecision(m.env, s.tip, decision) then Refused
        else Processed(if ExecutedOn(m, s.tip, decision, txs).Some? then Accept else Reject)
      case CallFinalize(decision, txs) => FinalizeAnswer(m, s, decision, txs)
      case CallCommit(appended) =>
        if s.pending.Some? && s.writable && appended then Durable(ReceiptOf(s.pending.value.executed)) else Refused
  }

  ghost function FinalizeAnswer(m: Machine, s: Core, decision: Decision, txs: seq<seq<u8>>): Event {
    if s.pending.Some? then
      var held := s.pending.value;
      if held.decision == decision && held.transactions == txs then FinalizedBlock(held.result) else Refused
    else
      match ExecutedOn(m, s.tip, decision, txs) case Some(e) => FinalizedBlock(ResultOf(e)) case None => Refused
  }

  ghost function After(m: Machine, s: Core, call: Call): Core {
    match Answer(m, s, call)
    case Bootstrapped => s.(running := true)
    case Checked => s.(pool := Grown(m, s.pool, call.transaction))
    case FinalizedBlock(result) =>
      if s.pending.Some? then s
      else s.(pending := Some(Pending(call.decision, call.transactions,
                                      ExecutedOn(m, s.tip, call.decision, call.transactions).value, result)))
    case Durable(_) => Durably(s, s.pending.value.executed)
    case Refused =>
      if call.CallCommit? && s.running && s.pending.Some? then s.(writable := s.writable && call.appended) else s
    case _ => s
  }

  ghost function Grown(m: Machine, pool: Pool, transaction: seq<u8>): Pool
    requires Admissible(m, pool, transaction)
  {
    Pool(m.step(pool.candidate, transaction).value.candidate, pool.transactions + [transaction],
         pool.bytes + |transaction|)
  }

  /** The core after `e` became durable: one more frame, its tip, an empty pool on that tip. */
  ghost function Durably(s: Core, e: Executed): Core {
    Core(true, None, Next(e), s.journal + [StoredOf(e)], Some(e.appHash), true, Pool(CandidateOf(Next(e)), [], 0))
  }

  /** Where a sequence of calls ends, and what it was answered. */
  datatype Trace = Trace(core: Core, log: seq<Event>)

  ghost function RunCalls(m: Machine, s: Core, calls: seq<Call>): (t: Trace)
    ensures |t.log| == |calls|
  {
    if calls == [] then Trace(s, [])
    else
      var before, last := RunCalls(m, s, calls[..|calls| - 1]), calls[|calls| - 1];
      Trace(After(m, before.core, last), before.log + [Answer(m, before.core, last)])
  }

  // ----- what the calls and their answers tell

  function Commits(log: seq<Event>): nat {
    if log == [] then 0 else Commits(log[..|log| - 1]) + if log[|log| - 1].Durable? then 1 else 0
  }

  /** The finalize call whose block waits to be committed: the first one answered since the last durable answer. */
  ghost function Held(calls: seq<Call>, log: seq<Event>): Option<Call>
    requires |calls| == |log|
  {
    if log == [] then None
    else
      var n := |log| - 1;
      var before := Held(calls[..n], log[..n]);
      if log[n].Durable? then None else if log[n].FinalizedBlock? && before.None? then Some(calls[n]) else before
  }

  /** Writing stays open until an append of a waiting block fails. */
  ghost function Writable(open: bool, calls: seq<Call>, log: seq<Event>): bool
    requires |calls| == |log|
  {
    if log == [] then open
    else
      var n := |log| - 1;
      Writable(open, calls[..n], log[..n]) && !(calls[n] == CallCommit(false) && Held(calls[..n], log[..n]).Some?)
  }

  datatype Reached = Reached(tip: Committed, frames: seq<Stored>)

  /** Executes, for each durable answer in order, the finalize call that waited, on the tip the previous one left. */
  ghost function Replayed(m: Machine, start: Committed, calls: seq<Call>, log: seq<Event>): Reached
    requires |calls| == |log|
  {
    if log == [] then Reached(start, [])
    else
      var n := |log| - 1;
      var before := Replayed(m, start, calls[..n], log[..n]);
      if log[n].Durable? then Redone(m, before, Held(calls[..n], log[..n])) else before
  }

  ghost function Redone(m: Machine, before: Reached, held: Option<Call>): Reached {
    if held.None? || !held.value.CallFinalize? then before
    else match ExecutedOn(m, before.tip, held.value.decision, held.value.transactions)
      case None => before
      case Some(e) => Reached(Next(e), before.frames + [StoredOf(e)])
  }

  ghost predicate BootstrappedIn(log: seq<Event>) {
    exists j :: 0 <= j < |log| && log[j].Bootstrapped?
  }

  /** The core is what its history says: the journal is the old one plus the replayed frames, the tip the replayed
      tip, and a pending block the execution of the held finalize call on that tip. */
  ghost predicate Told(m: Machine, s: Core, calls: seq<Call>, t: Trace)
    requires |calls| == |t.log|
  {
    var reached := Replayed(m, s.tip, calls, t.log);
    t.core.tip == reached.tip && t.core.journal == s.journal + reached.frames && |reached.frames| == Commits(t.log) &&
    (t.core.running <==> s.running || BootstrappedIn(t.log)) &&
    t.core.writable == Writable(s.writable, calls, t.log) &&
    HoldsPending(m, t.core, Held(calls, t.log))
  }

  ghost predicate HoldsPending(m: Machine, core: Core, held: Option<Call>) {
    match core.pending
    case None => held == None
    case Some(p) =>
      core.running && held == Some(CallFinalize(p.decision, p.transactions)) &&
      ExecutedOn(m, core.tip, p.decision, p.transactions) == Some(p.executed) && p.result == ResultOf(p.executed)
  }

  /** From a core with nothing pending, whatever the calls, the core reached is what calls and answers tell. */
  lemma {:induction false} HistoryTells(m: Machine, s: Core, calls: seq<Call>)
    requires s.pending.None?
    ensures Told(m, s, calls, RunCalls(m, s, calls))
  {
    if calls == [] {
      assert s.journal + [] == s.journal;
    } else {
      var shorter := calls[..|calls| - 1];
      HistoryTells(m, s, shorter);
      TellsMore(m, s, shorter, RunCalls(m, s, shorter), calls[|calls| - 1]);
      assert calls == shorter + [calls[|calls| - 1]];
    }
  }

  /** One more call and its answer, seen by each of the history functions. */
  lemma OneMore(m: Machine, start: Committed, open: bool, calls: seq<Call>, log: seq<Event>, call: Call, event: Event)
    requires |calls| == |log|
    ensures var held := Held(calls, log);
            Held(calls + [call], log + [event]) ==
              (if event.Durable? then None else if event.FinalizedBlock? && held.None? then Some(call) else held) &&
            Writable(open, calls + [call], log + [event]) ==
              (Writable(open, calls, log) && !(call == CallCommit(false) && held.Some?)) &&
            Commits(log + [event]) == Commits(log) + (if event.Durable? then 1 else 0) &&
            Replayed(m, start, calls + [call], log + [event]) ==
              if event.Durable? then Redone(m, Replayed(m, start, calls, log), held) else Replayed(m, start, calls, log)
  {
    var all, said := calls + [call], log + [event];
    assert all[..|calls|] == calls && said[..|log|] == log;
  }

  lemma BootstrapGrows(log: seq<Event>, event: Event)
    ensures BootstrappedIn(log + [event]) <==> BootstrappedIn(log) || event.Bootstrapped?
  {
    var longer := log + [event];
    if BootstrappedIn(log) {
      var j :| 0 <= j < |log| && log[j].Bootstrapped?;
      assert longer[j].Bootstrapped?;
    }
    if event.Bootstrapped? {
      assert longer[|log|].Bootstrapped?;
    }
  }

  lemma TellsMore(m: Machine, s: Core, calls: seq<Call>, before: Trace, call: Call)
    requires |calls| == |before.log| && Told(m, s, calls, before)
    ensures Told(m, s, calls + [call], Trace(After(m, before.core, call), before.log + [Answer(m, before.core, call)]))
  {
    hide Selected, Held, Writable, Commits, Replayed, BootstrappedIn;
    var event := Answer(m, before.core, call);
    OneMore(m, s.tip, s.writable, calls, before.log, call, event);
    BootstrapGrows(before.log, event);
    if event.Durable? {
      var frames, stored := Replayed(m, s.tip, calls, before.log).frames, StoredOf(before.core.pending.value.executed);
      assert s.journal + frames + [stored] == s.journal + (frames + [stored]);
    }
  }

  lemma {:induction false} LogPrefix(m: Machine, s: Core, calls: seq<Call>, k: nat)
    requires k <= |calls|
    ensures RunCalls(m, s, calls[..k]).log == RunCalls(m, s, calls).log[..k]
    ensures k < |calls| ==> RunCalls(m, s, calls).log[k] == Answer(m, RunCalls(m, s, calls[..k]).core, calls[k])
  {
    hide Answer, After;
    if k == |calls| {
      assert calls[..k] == calls;
    } else {
      var shorter := calls[..|calls| - 1];
      LogPrefix(m, s, shorter, k);
      assert shorter[..k] == calls[..k];
    }
  }

  /** What a finalize call is answered, given the durable tip and the finalize call that waits: its own result again
      if it is that call, a refusal if it is another, and otherwise the result of executing it on the tip. */
  ghost function FinalizeTold(m: Machine, tip: Committed, held: Option<Call>, call: Call): Event
    requires call.CallFinalize?
  {
    match ExecutedOn(m, tip, call.decision, call.transactions)
    case None => Refused
    case Some(e) => if held == None || held == Some(call) then FinalizedBlock(ResultOf(e)) else Refused
  }

  /** Every answer follows from the calls and answers before it. A bootstrap is answered exactly for the genesis
      identity while nothing is durable; before one, a fresh core refuses everything else; a finalize call gets the
      result of executing its own data on the durable tip, the same again when repeated, and a refusal when another
      one waits; a commit becomes durable exactly when a call waits, writing is open and the append succeeds, and its
      receipt is that of the waiting call's execution on the durable tip. */
  lemma AnswersFollow(m: Machine, s: Core, calls: seq<Call>, k: nat)
    requires s.pending.None? && k < |calls|
    ensures var log := RunCalls(m, s, calls).log;
            var tip, held := Replayed(m, s.tip, calls[..k], log[..k]).tip, Held(calls[..k], log[..k]);
            var running := s.running || BootstrappedIn(log[..k]);
            (log[k] == Bootstrapped <==> calls[k] == CallInit(m.identity) && tip.height == 0) &&
            (!running ==> log[k] == Bootstrapped || log[k] == Refused) &&
            (running && calls[k].CallFinalize? ==> log[k] == FinalizeTold(m, tip, held, calls[k])) &&
            (running && calls[k].CallProcess? && NextDecision(m.env, tip, calls[k].decision) ==>
               log[k] == Processed(
                 if ExecutedOn(m, tip, calls[k].decision, calls[k].transactions).Some? then Accept else Reject)) &&
            (log[k].Durable? <==>
               calls[k] == CallCommit(true) && held.Some? && Writable(s.writable, calls[..k], log[..k])) &&
            (held.Some? ==> Waits(m, tip, held.value)) &&
            (log[k].Durable? ==> log[k] == Durable(ReceiptOf(
               ExecutedOn(m, tip, held.value.decision, held.value.transactions).value)))
  {
    LogPrefix(m, s, calls, k);
    HistoryTells(m, s, calls[..k]);
    var log := RunCalls(m, s, calls).log;
    AnswerTold(m, RunCalls(m, s, calls[..k]).core, Held(calls[..k], log[..k]), calls[k]);
    hide RunCalls, Replayed, Held, Writable, Answer, ExecutedOn, NextDecision, BootstrappedIn;
  }

  /** The same on one core, whose pending block is what the held call executes to. */
  lemma AnswerTold(m: Machine, core: Core, held: Option<Call>, call: Call)
    requires HoldsPending(m, core, held)
    ensures var event := Answer(m, core, call);
            (event == Bootstrapped <==> call == CallInit(m.identity) && core.tip.height == 0) &&
            (!core.running ==> event == Bootstrapped || event == Refused) &&
            (core.running && call.CallFinalize? ==> event == FinalizeTold(m, core.tip, held, call)) &&
            (core.running && call.CallProcess? && NextDecision(m.env, core.tip, call.decision) ==>
               event == Processed(
                 if ExecutedOn(m, core.tip, call.decision, call.transactions).Some? then Accept else Reject)) &&
            (event.Durable? <==> call == CallCommit(true) && held.Some? && core.writable) &&
            (held.Some? ==> Waits(m, core.tip, held.value)) &&
            (event.Durable? ==> event == Durable(ReceiptOf(
               ExecutedOn(m, core.tip, held.value.decision, held.value.transactions).value)))
  {
    hide Selected, ExecutedOn, NextDecision;
  }

  /** The waiting call is a finalize call that executes on the tip. */
  ghost predicate Waits(m: Machine, tip: Committed, call: Call) {
    call.CallFinalize? && ExecutedOn(m, tip, call.decision, call.transactions).Some?
  }
}
