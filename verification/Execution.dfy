/** Deterministic block execution: transactions applied in order to a candidate copy of the committed state,
    recorded in a linked chain, and sealed under a header and an application hash. */
module Execution {
  import opened Common
  import opened Bytes
  import opened Transactions
  import opened Ledger
  import Codec
  import Merkle
  import F = Finality

  const MAX_RECORD_TRANSACTION_BYTES: nat := 32 * 1024 * 1024
  const I64_MAX: nat := 0x7FFF_FFFF_FFFF_FFFF

  // ----- the values

  datatype RecordFields = RecordFields(sequence: nat, previous: Id, bytes: seq<u8>, intent: Id, resulting: Id)

  datatype Record = Record(fields: RecordFields, hash: Id)

  /** The position the next record must extend. */
  datatype RecordChain = RecordChain(nextSequence: nat, stateId: Id)

  /** A discardable ledger and the record position it belongs to. */
  datatype Candidate = Candidate(ledger: LedgerState, chain: RecordChain)

  datatype Committed = Committed(ledger: LedgerState, chain: RecordChain, height: nat, blockId: Option<Id>,
      terminal: Option<Id>)

  datatype Decision = Decision(networkId: Id, height: nat, blockHash: Id, nextValidators: Id)

  datatype Network = Network(id: Id, initialHeight: nat, validatorsHash: Id)

  datatype Proposal = Proposal(height: nat, decision: Decision, transactions: seq<seq<u8>>)

  datatype AppInput = AppInput(genesisId: Id, contextId: Id, configId: Id, decision: Decision, height: nat, blockId: Id,
                               sequence: int, terminal: Option<Id>, stateId: Id)

  /** The immutable execution context; hashes over canonical fields are functions of those fields. */
  datatype Environment = Environment(
    rules: Rules, suite: Suite, anchor: F.Anchor, config: F.ConsensusConfig, network: Network,
    intentId: Transaction -> Id, recordHash: RecordFields -> Id, commitRecords: seq<Id> -> Id,
    blockId: F.Header -> Id, appHash: AppInput -> Id)
  {
    ghost predicate Valid() {
      config.Valid() && anchor.configId == config.id
    }
  }

  datatype Executed = Executed(header: F.Header, decision: Decision, records: seq<Record>, result: Candidate,
      terminal: Option<Id>, appHash: Id)

  datatype ExecutionError =
    | HeightOverflow | UnexpectedHeight(expected: nat, actual: nat) | EngineIdentity | CommittedStateIdMismatch
    | TooManyTransactions | ProposalBytesExceeded
    | TransactionBytesExceeded | TransactionCodec(codec: Codec.CodecError) | NonCanonicalTransaction | SuiteMismatch
    | LedgerRejected(ledger: LedgerError) | SequenceOverflow | Consensus

  // ----- one transaction

  function ContextOf(env: Environment, intent: Id, stateId: Id): Context {
    Context(env.anchor.genesisId, env.anchor.contextId, intent, stateId)
  }

  /** Decodes strictly and checks the configured suite. */
  function Admitted(env: Environment, bytes: seq<u8>): Result<Transaction, ExecutionError> {
    if |bytes| > MAX_RECORD_TRANSACTION_BYTES then Err(TransactionBytesExceeded)
    else match Codec.DecodeTransaction(bytes)
      case Err(e) => Err(TransactionCodec(e))
      case Ok(t) =>
        if Codec.TransactionBytes(t) != bytes then Err(NonCanonicalTransaction)
        else if t.suite != env.suite then Err(SuiteMismatch)
        else Ok(t)
  }

  function LedgerStep(env: Environment, c: Candidate, t: Transaction): Result<LedgerState, ExecutionError> {
    match Apply(env.rules, c.ledger, t, ContextOf(env, env.intentId(t), c.chain.stateId))
    case Err(e) => Err(LedgerRejected(e))
    case Ok(s) => Ok(s)
  }

  function RecordOf(env: Environment, c: Candidate, bytes: seq<u8>, t: Transaction, next: LedgerState): Record {
    var fields := RecordFields(c.chain.nextSequence, c.chain.stateId, bytes, env.intentId(t),
        env.rules.stateId(next, env.anchor.genesisId));
    Record(fields, env.recordHash(fields))
  }

  /** The record chain accepts exactly the next sequence on the current state. */
  function Advance(chain: RecordChain, record: Record): Result<RecordChain, ExecutionError> {
    if record.fields.sequence != chain.nextSequence || record.fields.previous != chain.stateId then Err(Consensus)
    else if chain.nextSequence >= U64_MAX then Err(SequenceOverflow)
    else Ok(RecordChain(chain.nextSequence + 1, record.fields.resulting))
  }

  datatype Stepped = Stepped(candidate: Candidate, record: Record)

  type StepRule = (Candidate, seq<u8>) -> Result<Stepped, ExecutionError>

  function StepOutcome(env: Environment, c: Candidate, bytes: seq<u8>): Result<Stepped, ExecutionError> {
    var t :- Admitted(env, bytes);
    var next :- LedgerStep(env, c, t);
    var record := RecordOf(env, c, bytes, t, next);
    var chain :- Advance(c.chain, record);
    Ok(Stepped(Candidate(next, chain), record))
  }

  // ----- many transactions

  datatype Ran = Ran(candidate: Candidate, records: seq<Record>)

  /** Every transaction in order, stopping at the first rejection. */
  function RunWith(step: StepRule, c: Candidate, txs: seq<seq<u8>>): Result<Ran, ExecutionError> {
    if txs == [] then Ok(Ran(c, []))
    else
      var before :- RunWith(step, c, txs[..|txs| - 1]);
      var next :- step(before.candidate, txs[|txs| - 1]);
      Ok(Ran(next.candidate, before.records + [next.record]))
  }

  function Stepper(env: Environment): StepRule {
    (c, bytes) => StepOutcome(env, c, bytes)
  }

  function RunOutcome(env: Environment, c: Candidate, txs: seq<seq<u8>>): Result<Ran, ExecutionError> {
    RunWith(Stepper(env), c, txs)
  }

  /** The record position names the ledger it stands at, and every record paid for itself with a leaf of the tree. */
  ghost predicate Coherent(env: Environment, c: Candidate) {
    Ledger.Valid(c.ledger) && c.chain.stateId == env.rules.stateId(c.ledger, env.anchor.genesisId) &&
    0 < c.chain.nextSequence <= 1 + |c.ledger.tree|
  }

  /** The tree's capacity keeps record sequences far below their limit. */
  lemma SequencesAreSmall(env: Environment, c: Candidate)
    requires Coherent(env, c)
    ensures c.chain.nextSequence <= 1 + Merkle.MAX_COMMITMENTS < U64_MAX
  {
  }

  /** The strict decoder leaves nothing for the canonical-form comparison to reject. */
  lemma NonCanonicalUnreachable(env: Environment, bytes: seq<u8>)
    ensures Admitted(env, bytes) != Err(NonCanonicalTransaction)
    ensures Admitted(env, bytes).Ok? ==>
        Admitted(env, bytes).value.WellTyped() && Codec.DecodeTransaction(bytes) == Ok(Admitted(env, bytes).value)
  {
    if Codec.DecodeTransaction(bytes).Ok? {
      Codec.AcceptedIsCanonical(bytes);
    }
  }

  lemma StepKeepsCoherent(env: Environment, c: Candidate, bytes: seq<u8>)
    requires Coherent(env, c) && StepOutcome(env, c, bytes).Ok?
    ensures Coherent(env, StepOutcome(env, c, bytes).value.candidate)
  {
    NonCanonicalUnreachable(env, bytes);
    hide Codec.DecodeTransaction;
    var t := Admitted(env, bytes).value;
    var context := ContextOf(env, env.intentId(t), c.chain.stateId);
    ApplyDecides(env.rules, c.ledger, t, context);
    ApplyKeepsValid(env.rules, c.ledger, t, context);
  }

  /** The reasons that lie in the submitted transaction itself. */
  predicate Submitted(e: ExecutionError) {
    e.TransactionBytesExceeded? || e.TransactionCodec? || e.SuiteMismatch? ||
    (e.LedgerRejected? && e.ledger != ValidationStateIdMismatch)
  }

  /** What the executor accepts from a coherent candidate: bytes within the limit that decode to a transaction of the
      configured suite which the ledger allows under the deployment's own context at the candidate's state. */
  ghost predicate Acceptable(env: Environment, c: Candidate, bytes: seq<u8>) {
    |bytes| <= 32 * 1024 * 1024 && Codec.DecodeTransaction(bytes).Ok? &&
    var t := Codec.DecodeTransaction(bytes).value;
    t.suite == env.suite &&
    Allowed(env.rules, c.ledger, t,
            Context(env.anchor.genesisId, env.anchor.contextId, env.intentId(t), c.chain.stateId))
  }

  /** A step succeeds exactly on acceptable bytes. It commits the decoded transaction to the ledger and records those
      bytes, their intent and the identifiers of the state before and after, at the next sequence. */
  lemma StepDecides(env: Environment, c: Candidate, bytes: seq<u8>)
    requires Coherent(env, c)
    ensures StepOutcome(env, c, bytes).Ok? <==> Acceptable(env, c, bytes)
    ensures StepOutcome(env, c, bytes).Ok? ==>
              var t, next := Codec.DecodeTransaction(bytes).value, StepOutcome(env, c, bytes).value;
              var after := env.rules.stateId(next.candidate.ledger, env.anchor.genesisId);
              next.candidate == Candidate(Commit(c.ledger, t), RecordChain(c.chain.nextSequence + 1, after)) &&
              next.record.fields ==
                RecordFields(c.chain.nextSequence, c.chain.stateId, bytes, env.intentId(t), after) &&
              next.record.hash == env.recordHash(next.record.fields)
  {
    NonCanonicalUnreachable(env, bytes);
    SequencesAreSmall(env, c);
    if Codec.DecodeTransaction(bytes).Ok? {
      Codec.AcceptedIsCanonical(bytes);
      var t := Codec.DecodeTransaction(bytes).value;
      ApplyDecides(env.rules, c.ledger, t, ContextOf(env, env.intentId(t), c.chain.stateId));
    }
    hide Codec.DecodeTransaction, Allowed, Check;
  }

  /** From a coherent candidate a step fails only on its bytes, its suite or its ledger rules: neither the
      canonical-form comparison nor the ledger's state comparison nor the record chain's position checks nor its
      sequence limit ever rejects. */
  lemma StepFailures(env: Environment, c: Candidate, bytes: seq<u8>)
    requires Coherent(env, c)
    ensures StepOutcome(env, c, bytes).Err? ==> Submitted(StepOutcome(env, c, bytes).error)
  {
    NonCanonicalUnreachable(env, bytes);
    hide Codec.DecodeTransaction;
    SequencesAreSmall(env, c);
    if Admitted(env, bytes).Ok? {
      var t := Admitted(env, bytes).value;
      RefusedBefore(env.rules, c.ledger, t, ContextOf(env, env.intentId(t), c.chain.stateId));
    }
  }

  /** How bytes are refused before the ledger sees them: too long, then undecodable, then of another suite. */
  lemma AdmitRefusals(env: Environment, bytes: seq<u8>)
    ensures var r, decoded := Admitted(env, bytes), Codec.DecodeTransaction(bytes);
            var fits := |bytes| <= 32 * 1024 * 1024;
            (r == Err(TransactionBytesExceeded) <==> !fits) &&
            (forall e :: r == Err(TransactionCodec(e)) <==> fits && decoded == Err(e)) &&
            (r == Err(SuiteMismatch) <==> fits && decoded.Ok? && decoded.value.suite != env.suite) &&
            (r.Ok? <==> fits && decoded.Ok? && decoded.value.suite == env.suite) && (r.Ok? ==> r.value == decoded.value)
  {
    NonCanonicalUnreachable(env, bytes);
    if Codec.DecodeTransaction(bytes).Ok? {
      Codec.AcceptedIsCanonical(bytes);
    }
    hide Codec.DecodeTransaction, Codec.TransactionBytes;
  }

  /** A step from a coherent candidate is refused for the bytes' own reason or for the ledger's, never for another. */
  lemma StepRefusals(env: Environment, c: Candidate, bytes: seq<u8>)
    requires Coherent(env, c)
    ensures Admitted(env, bytes).Err? ==> StepOutcome(env, c, bytes) == Err(Admitted(env, bytes).error)
    ensures Admitted(env, bytes).Ok? ==>
              var t := Admitted(env, bytes).value;
              var context := Context(env.anchor.genesisId, env.anchor.contextId, env.intentId(t), c.chain.stateId);
              forall e :: StepOutcome(env, c, bytes) == Err(LedgerRejected(e)) <==>
                          Apply(env.rules, c.ledger, t, context) == Err(e)
  {
    SequencesAreSmall(env, c);
    hide Codec.DecodeTransaction, Apply, Admitted;
  }

  // ----- what a run's records say

  /** Consecutive sequences, each record starting at the state the previous one produced. */
  ghost predicate Linked(from: RecordChain, records: seq<Record>, to: RecordChain) {
    to.nextSequence == from.nextSequence + |records| &&
    to.stateId == (if records == [] then from.stateId else records[|records| - 1].fields.resulting) &&
    forall i | 0 <= i < |records| :: LinkedAt(from, records, i)
  }

  ghost predicate LinkedAt(from: RecordChain, records: seq<Record>, i: nat)
    requires i < |records|
  {
    records[i].fields.sequence == from.nextSequence + i &&
    records[i].fields.previous == if i == 0 then from.stateId else records[i - 1].fields.resulting
  }

  /** The ledger step a record stands for. */
  function StepOf(env: Environment, record: Record): Result<Step, ExecutionError> {
    match Codec.DecodeTransaction(record.fields.bytes)
    case Err(e) => Err(TransactionCodec(e))
    case Ok(t) => Ok(Step(t, ContextOf(env, record.fields.intent, record.fields.previous)))
  }

  function StepsOf(env: Environment, records: seq<Record>): (steps: seq<Step>)
    ensures |steps| <= |records|
  {
    if records == [] then []
    else
      var before := StepsOf(env, records[..|records| - 1]);
      match StepOf(env, records[|records| - 1]) case Err(_) => before case Ok(step) => before + [step]
  }

  /** Linked records that carry exactly the given bytes under their own hashes, ending at a coherent candidate. */
  ghost predicate Recorded(env: Environment, c: Candidate, txs: seq<seq<u8>>, ran: Ran) {
    Coherent(env, ran.candidate) && |ran.records| == |txs| && Linked(c.chain, ran.records, ran.candidate.chain) &&
    forall i | 0 <= i < |txs| :: RecordedAt(env, txs[i], ran.records[i])
  }

  ghost predicate RecordedAt(env: Environment, bytes: seq<u8>, record: Record) {
    record.fields.bytes == bytes && record.hash == env.recordHash(record.fields)
  }

  /** The ledger moved by exactly the steps the records stand for. */
  ghost predicate Replays(env: Environment, c: Candidate, ran: Ran) {
    WellTypedSteps(StepsOf(env, ran.records)) && |StepsOf(env, ran.records)| == |ran.records| &&
    Run(env.rules, c.ledger, StepsOf(env, ran.records)) == Ok(ran.candidate.ledger)
  }

  lemma StepRecords(env: Environment, c: Candidate, bytes: seq<u8>)
    requires Coherent(env, c) && StepOutcome(env, c, bytes).Ok?
    ensures var step := StepOutcome(env, c, bytes).value;
            Coherent(env, step.candidate) && RecordedAt(env, bytes, step.record) &&
                Advance(c.chain, step.record) == Ok(step.candidate.chain)
  {
    StepKeepsCoherent(env, c, bytes);
    hide Codec.DecodeTransaction, Apply;
  }

  lemma RecordMore(env: Environment, c: Candidate, txs: seq<seq<u8>>, before: Ran, bytes: seq<u8>, step: Stepped)
    requires Recorded(env, c, txs, before) && Coherent(env, step.candidate) && RecordedAt(env, bytes, step.record)
    requires Advance(before.candidate.chain, step.record) == Ok(step.candidate.chain)
    ensures Recorded(env, c, txs + [bytes], Ran(step.candidate, before.records + [step.record]))
  {
    LinkMore(c.chain, before.records, before.candidate.chain, step.record, step.candidate.chain);
  }

  /** One accepted step from a coherent candidate, as far as the record chain is concerned. */
  ghost predicate RecordsAt(env: Environment, step: StepRule, c: Candidate, bytes: seq<u8>) {
    Coherent(env, c) && step(c, bytes).Ok? ==>
      var next := step(c, bytes).value;
      Coherent(env, next.candidate) && RecordedAt(env, bytes, next.record) &&
          Advance(c.chain, next.record) == Ok(next.candidate.chain)
  }

  lemma {:induction false} RunRecordsWith(env: Environment, step: StepRule, c: Candidate, txs: seq<seq<u8>>)
    requires Coherent(env, c) && RunWith(step, c, txs).Ok?
    requires forall x, b {:trigger RecordsAt(env, step, x, b)} :: RecordsAt(env, step, x, b)
    ensures Recorded(env, c, txs, RunWith(step, c, txs).value)
  {
    if txs != [] {
      var shorter, last := txs[..|txs| - 1], txs[|txs| - 1];
      RunRecordsWith(env, step, c, shorter);
      var before := RunWith(step, c, shorter).value;
      assert RecordsAt(env, step, before.candidate, last);
      RecordMore(env, c, shorter, before, last, step(before.candidate, last).value);
      assert txs == shorter + [last];
    }
  }

  /** Every completed run leaves a contiguous, linked record chain that ends at the state identifier of its ledger. */
  lemma RunRecords(env: Environment, c: Candidate, txs: seq<seq<u8>>)
    requires Coherent(env, c) && RunOutcome(env, c, txs).Ok?
    ensures Recorded(env, c, txs, RunOutcome(env, c, txs).value)
  {
    forall x, b ensures RecordsAt(env, Stepper(env), x, b) {
      if Coherent(env, x) && StepOutcome(env, x, b).Ok? {
        StepRecords(env, x, b);
      }
    }
    RunRecordsWith(env, Stepper(env), c, txs);
  }

  /** A run from a coherent candidate fails only for a reason in one of its transactions. */
  lemma {:induction false} RunFailures(env: Environment, c: Candidate, txs: seq<seq<u8>>)
    requires Coherent(env, c)
    ensures RunOutcome(env, c, txs).Err? ==> Submitted(RunOutcome(env, c, txs).error)
  {
    if txs != [] {
      var shorter := txs[..|txs| - 1];
      RunFailures(env, c, shorter);
      if RunOutcome(env, c, shorter).Ok? {
        RunRecords(env, c, shorter);
        hide StepOutcome;
        StepFailures(env, RunOutcome(env, c, shorter).value.candidate, txs[|txs| - 1]);
      }
    }
  }

  lemma StepReplays(env: Environment, c: Candidate, bytes: seq<u8>)
    requires StepOutcome(env, c, bytes).Ok?
    ensures var step := StepOutcome(env, c, bytes).value;
            StepOf(env, step.record).Ok? && StepOf(env, step.record).value.transaction.WellTyped() &&
            Run(env.rules, c.ledger, [StepOf(env, step.record).value]) == Ok(step.candidate.ledger)
  {
    NonCanonicalUnreachable(env, bytes);
    hide Codec.DecodeTransaction, Apply;
    var last := StepOf(env, StepOutcome(env, c, bytes).value.record).value;
    assert [last][..0] == [];
  }

  lemma ReplayMore(env: Environment, c: Candidate, before: Ran, step: Stepped)
    requires Replays(env, c, before) && StepOf(env, step.record).Ok? &&
        StepOf(env, step.record).value.transaction.WellTyped()
    requires Run(env.rules, before.candidate.ledger, [StepOf(env, step.record).value]) == Ok(step.candidate.ledger)
    ensures Replays(env, c, Ran(step.candidate, before.records + [step.record]))
  {
    hide Codec.DecodeTransaction, Apply;
    var last := StepOf(env, step.record).value;
    var records := before.records + [step.record];
    assert records[..|records| - 1] == before.records;
    LedgerRunMore(env, c.ledger, StepsOf(env, before.records), before.candidate.ledger, last);
    assert [last][..0] == [];
  }

  /** Every completed run replays as a ledger run of the transactions its records carry. */
  lemma {:induction false} RunReplays(env: Environment, c: Candidate, txs: seq<seq<u8>>)
    requires RunOutcome(env, c, txs).Ok?
    ensures Replays(env, c, RunOutcome(env, c, txs).value)
  {
    if txs != [] {
      var shorter, last := txs[..|txs| - 1], txs[|txs| - 1];
      RunReplays(env, c, shorter);
      var before := RunOutcome(env, c, shorter).value;
      StepReplays(env, before.candidate, last);
      ReplayMore(env, c, before, StepOutcome(env, before.candidate, last).value);
    }
  }

  lemma LinkMore(from: RecordChain, records: seq<Record>, middle: RecordChain, record: Record, to: RecordChain)
    requires Linked(from, records, middle) && Advance(middle, record) == Ok(to)
    ensures Linked(from, records + [record], to)
  {
    var all := records + [record];
    forall i | 0 <= i < |all| ensures LinkedAt(from, all, i) {
      assert i < |records| ==> LinkedAt(from, records, i);
    }
  }

  lemma LedgerRunMore(env: Environment, start: LedgerState, steps: seq<Step>, middle: LedgerState, last: Step)
    requires Run(env.rules, start, steps) == Ok(middle)
    ensures Run(env.rules, start, steps + [last]) == Apply(env.rules, middle, last.transaction, last.context)
  {
    assert (steps + [last])[..|steps|] == steps;
  }

  /** Running a list is running any prefix and then the rest from where it ended. */
  lemma {:induction false} RunAppend(step: StepRule, c: Candidate, first: seq<seq<u8>>, second: seq<seq<u8>>)
    requires RunWith(step, c, first).Ok?
    ensures var ran := RunWith(step, c, first).value;
            RunWith(step, c, first + second) ==
              match RunWith(step, ran.candidate, second)
              case Err(e) => Err(e)
              case Ok(more) => Ok(Ran(more.candidate, ran.records + more.records))
  {
    var ran := RunWith(step, c, first).value;
    if second == [] {
      assert first + second == first && ran.records + [] == ran.records;
    } else {
      var all, shorter := first + second, second[..|second| - 1];
      assert all[..|all| - 1] == first + shorter;
      RunAppend(step, c, first, shorter);
      if RunWith(step, ran.candidate, shorter).Ok? {
        var more := RunWith(step, ran.candidate, shorter).value;
        var next := step(more.candidate, second[|second| - 1]);
        if next.Ok? {
          assert ran.records + (more.records + [next.value.record]) == ran.records + more.records + [next.value.record];
        }
      }
    }
  }
}
