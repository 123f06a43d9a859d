/** The executor as the source runs it: one loop that updates a candidate ledger and record chain in place. */
module Executor {
  import opened Common
  import opened Bytes
  import opened Transactions
  import opened Ledger
  import opened Execution
  import opened Blocks
  import Codec
  import CodecReader
  import F = Finality

  /** The candidate a failed step leaves behind: the ledger moves before the record chain is asked. */
  function AfterFailure(env: Environment, c: Candidate, bytes: seq<u8>): Candidate {
    match Admitted(env, bytes)
    case Err(_) => c
    case Ok(t) => match LedgerStep(env, c, t) case Err(_) => c case Ok(next) => Candidate(next, c.chain)
  }

  /** On any candidate at all, coherent or not: a failed step changes its argument exactly when the bytes are
      admitted, the ledger accepts them and the record sequence is exhausted. */
  lemma FailedStepGuard(env: Environment, c: Candidate, bytes: seq<u8>)
    requires StepOutcome(env, c, bytes).Err?
    ensures AfterFailure(env, c, bytes) != c <==>
              c.chain.nextSequence >= U64_MAX && Admitted(env, bytes).Ok? &&
              LedgerStep(env, c, Admitted(env, bytes).value).Ok?
  {
    hide Codec.DecodeTransaction;
    if Admitted(env, bytes).Ok? {
      var t := Admitted(env, bytes).value;
      if LedgerStep(env, c, t).Ok? {
        ApplyDecides(env.rules, c.ledger, t, ContextOf(env, env.intentId(t), c.chain.stateId));
        assert t.id in LedgerStep(env, c, t).value.accepted;
      }
    }
  }

  /** No candidate reached from genesis is there: a failed step leaves it exactly as it was. */
  lemma FailedStepChangesNothing(env: Environment, c: Candidate, bytes: seq<u8>)
    requires Coherent(env, c) && StepOutcome(env, c, bytes).Err?
    ensures AfterFailure(env, c, bytes) == c
  {
    FailedStepGuard(env, c, bytes);
    SequencesAreSmall(env, c);
  }

  method AdmitBytes(env: Environment, bytes: seq<u8>) returns (r: Result<Transaction, ExecutionError>)
    ensures r == Admitted(env, bytes)
  {
    if |bytes| > MAX_RECORD_TRANSACTION_BYTES {
      return Err(TransactionBytesExceeded);
    }
    var decoded := CodecReader.Decode(bytes);
    if decoded.Err? {
      return Err(TransactionCodec(decoded.error));
    }
    Codec.AcceptedIsCanonical(bytes);
    var canonical := Codec.EncodeTransaction(decoded.value);
    match canonical {
      case Err(e) => return Err(TransactionCodec(e));
      case Ok(written) => r := Compared(env, decoded.value, written, bytes);
    }
  }

  function Compared(env: Environment, t: Transaction, canonical: seq<u8>, bytes: seq<u8>): Result<Transaction,
      ExecutionError> {
    if canonical != bytes then Err(NonCanonicalTransaction)
    else if t.suite != env.suite then Err(SuiteMismatch)
    else Ok(t)
  }

  /** Applies one transaction to the candidate; `after` is the candidate as the call leaves it, also on failure. */
  method ApplyTransaction(env: Environment, c: Candidate, bytes: seq<u8>)
      returns (after: Candidate, r: Result<Record, ExecutionError>)
    ensures match StepOutcome(env, c, bytes) {
              case Ok(step) => r == Ok(step.record) && after == step.candidate
              case Err(e) => r == Err(e) && after == AfterFailure(env, c, bytes)
            }
    ensures Coherent(env, c) ==> (r.Ok? <==> Acceptable(env, c, bytes))
  {
    if Coherent(env, c) {
      StepDecides(env, c, bytes);
    }
    hide Acceptable, Codec.DecodeTransaction, Apply;
    after := c;
    var admitted := AdmitBytes(env, bytes);
    if admitted.Err? {
      return after, Err(admitted.error);
    }
    var t := admitted.value;
    var applied := LedgerStep(env, c, t);
    if applied.Err? {
      return after, Err(applied.error);
    }
    after := after.(ledger := applied.value);
    var record := RecordOf(env, c, bytes, t, after.ledger);
    var advanced := Advance(after.chain, record);
    if advanced.Err? {
      return after, Err(advanced.error);
    }
    after := after.(chain := advanced.value);
    r := Ok(record);
  }

  /** `step` is transaction application in `env`. */
  ghost predicate Applies(env: Environment, step: StepRule) {
    forall c, bytes {:trigger AppliesAt(env, step, c, bytes)} :: AppliesAt(env, step, c, bytes)
  }

  ghost predicate AppliesAt(env: Environment, step: StepRule, c: Candidate, bytes: seq<u8>) {
    step(c, bytes) == StepOutcome(env, c, bytes)
  }

  /** The simulation step of the mempool and of proposal selection. */
  method SimulateTransaction(env: Environment, ghost step: StepRule, c: Candidate, bytes: seq<u8>)
    returns (after: Candidate, r: Result<Record, ExecutionError>)
    requires Applies(env, step)
    ensures match step(c, bytes) {
              case Ok(next) => r == Ok(next.record) && after == next.candidate
              case Err(e) => r == Err(e)
            }
  {
    assert AppliesAt(env, step, c, bytes);
    after, r := ApplyTransaction(env, c, bytes);
  }

  lemma {:induction false} RunStops(step: StepRule, c: Candidate, txs: seq<seq<u8>>, n: nat)
    requires n <= |txs| && RunWith(step, c, txs[..n]).Err?
    ensures RunWith(step, c, txs) == RunWith(step, c, txs[..n])
  {
    if n < |txs| {
      var shorter := txs[..|txs| - 1];
      assert shorter[..n] == txs[..n];
      RunStops(step, c, shorter, n);
    } else {
      assert txs[..n] == txs;
    }
  }

  lemma RunNext(step: StepRule, c: Candidate, txs: seq<seq<u8>>, i: nat)
    requires i < |txs| && RunWith(step, c, txs[..i]).Ok?
    ensures var ran := RunWith(step, c, txs[..i]).value;
            match step(ran.candidate, txs[i]) {
              case Err(e) => RunWith(step, c, txs) == Err(e)
              case Ok(next) => RunWith(step, c, txs[..i + 1]) == Ok(Ran(next.candidate, ran.records + [next.record]))
            }
  {
    assert txs[..i + 1][..i] == txs[..i];
    if RunWith(step, c, txs[..i + 1]).Err? {
      RunStops(step, c, txs, i + 1);
    }
  }

  method RunTransactions(env: Environment, c: Candidate, txs: seq<seq<u8>>) returns (r: Result<Ran, ExecutionError>)
    ensures r == RunOutcome(env, c, txs)
  {
    var candidate, records := c, [];
    for i := 0 to |txs|
      invariant RunWith(Stepper(env), c, txs[..i]) == Ok(Ran(candidate, records))
    {
      RunNext(Stepper(env), c, txs, i);
      var after, outcome := ApplyTransaction(env, candidate, txs[i]);
      if outcome.Err? {
        return Err(outcome.error);
      }
      candidate, records := after, records + [outcome.value];
    }
    assert txs[..|txs|] == txs;
    r := Ok(Ran(candidate, records));
  }

  method SumBytes(txs: seq<seq<u8>>) returns (total: nat)
    ensures total == TotalBytes(txs)
  {
    total := 0;
    for i := 0 to |txs|
      invariant total == TotalBytes(txs[..i])
    {
      assert txs[..i + 1][..i] == txs[..i];
      total := total + |txs[i]|;
    }
    assert txs[..|txs|] == txs;
  }

  /** The same proposal on the same tip always gives the same block, header and application hash. */
  method ExecuteBlock(env: Environment, tip: Committed, p: Proposal) returns (r: Result<Executed, ExecutionError>)
    ensures r == BlockOutcome(env, tip, p)
    ensures env.Valid() && Standing(env, tip) && r.Ok? ==>
              Continues(env, tip, p, r.value) && SealedOn(env, tip, r.value)
  {
    if env.Valid() && Standing(env, tip) && BlockOutcome(env, tip, p).Ok? {
      BlockContinues(env, tip, p);
      BlockSeals(env, tip, p);
    }
    hide Continues, SealedOn, Standing, StepOutcome, HeaderOver;
    if tip.height >= U64_MAX {
      return Err(HeightOverflow);
    }
    if p.height != tip.height + 1 {
      return Err(UnexpectedHeight(tip.height + 1, p.height));
    }
    if !DecisionValid(env.network, p.decision, p.height) {
      return Err(EngineIdentity);
    }
    if env.rules.stateId(tip.ledger, env.anchor.genesisId) != tip.chain.stateId {
      return Err(CommittedStateIdMismatch);
    }
    if |p.transactions| > env.config.maximumRecords {
      return Err(TooManyTransactions);
    }
    var total := SumBytes(p.transactions);
    if total > env.config.maximumBytes {
      return Err(ProposalBytesExceeded);
    }
    var ran := RunTransactions(env, CandidateOf(tip), p.transactions);
    r := if ran.Err? then Err(ran.error) else SealOutcome(env, tip, p, ran.value);
  }
}
