/** The application core as an object: the engine's calls as methods that implement the lifecycle machine. */
module Abci {
  import opened Common
  import opened Bytes
  import opened Execution
  import opened Blocks
  import opened Executor
  import opened Mempool
  import opened Durability
  import opened Lifecycle

  datatype Phase = GenesisUnverified | Running

  datatype AppInfo = AppInfo(lastHeight: nat, appHash: Option<Id>)

  datatype AbciError =
    | InitChainAfterCommit | InitChainMismatch | ConsensusBeforeInitChain | NextHeightOverflow | UnexpectedEngineHeight
    | UnexpectedNextValidatorsHash | NegativeMaximumTransactionBytes | InvalidDecision | FinalizeConflict
    | MissingFinalizedBlock | Storage(persist: PersistError)

  class NoxisCometCore {
    const identity: Announcement
    const execution: PersistentExecution
    const mempool: MempoolOverlay
    ghost const step: StepRule
    var phase: Phase
    var pending: Option<Pending>

    /** The overlay runs from the durable tip, and a pending block is the execution of its data on that tip. */
    ghost predicate Valid()
      reads this, execution, mempool
    {
      execution.Valid() && Applies(execution.env, step) && mempool.Overlays(step, CandidateOf(execution.committed)) &&
      (execution.committed.height > 0 ==> phase.Running?) &&
      (pending.Some? ==> phase.Running? && Finalized(pending.value))
    }

    ghost predicate Finalized(p: Pending)
      reads this, execution
    {
      ExecutedOn(Rules(), execution.committed, p.decision, p.transactions) == Some(p.executed) &&
      p.result == ResultOf(p.executed)
    }

    ghost function Rules(): Machine {
      Machine(identity, execution.env, step, execution.execute)
    }

    ghost function View(): Core
      reads this, execution, mempool
    {
      Core(phase.Running?, pending, execution.committed, execution.journal, execution.appHash,
           execution.writesAvailable, Pool(mempool.candidate, mempool.transactions, mempool.totalBytes))
    }

    constructor (execution: PersistentExecution, identity: Announcement)
      requires execution.Valid()
      ensures Valid() && this.execution == execution && this.identity == identity && step == Stepper(execution.env)
      ensures fresh(mempool) && pending.None? && mempool.transactions == []
      ensures phase.Running? <==> execution.committed.height > 0
    {
      this.execution, this.identity, step, pending := execution, identity, Stepper(execution.env), None;
      mempool := new MempoolOverlay(CandidateOf(execution.committed));
      phase := if execution.committed.height == 0 then GenesisUnverified else Running;
    }

    /** Reports the durable tip alone: the engine height of its last block and that block's application hash. A
        durable block always has an engine height, so the report never fails. */
    method Info() returns (r: Result<AppInfo, AbciError>)
      requires Valid()
      ensures r.Ok? && r.value.appHash == execution.appHash
      ensures execution.journal == [] ==> r.value == AppInfo(0, None)
      ensures execution.journal != [] ==>
                var last := execution.journal[|execution.journal| - 1];
                r.value == AppInfo(last.decision.height, Some(last.appHash)) &&
                EngineHeight(execution.env.network, |execution.journal|) == Some(last.decision.height)
    {
      hide MempoolOverlay.Overlays, Applies, BlockOutcome, StepOutcome;
      if execution.committed.height == 0 {
        return Ok(AppInfo(0, execution.appHash));
      }
      DurableHeight(execution);
      hide PersistentExecution.Valid;
      var height := EngineHeight(execution.env.network, execution.committed.height);
      if height.None? {
        return Err(NextHeightOverflow);
      }
      r := Ok(AppInfo(height.value, execution.appHash));
    }

    method InitChain(request: Announcement) returns (r: Result<(), AbciError>)
      requires Valid()
      modifies this`phase
      ensures Valid()
      ensures r.Ok? <==> execution.committed.height == 0 && request == identity
      ensures phase == if r.Ok? then Running else old(phase)
      ensures r.Err? ==>
                r.error == if execution.committed.height != 0 then InitChainAfterCommit else InitChainMismatch
    {
      hide PersistentExecution.Valid, MempoolOverlay.Overlays, Applies;
      if execution.committed.height != 0 {
        return Err(InitChainAfterCommit);
      }
      if request != identity {
        return Err(InitChainMismatch);
      }
      phase := Running;
      r := Ok(());
    }

    method CheckTx(transaction: seq<u8>) returns (accepted: bool)
      requires Valid()
      modifies mempool
      ensures Valid()
      ensures accepted <==> phase.Running? && Admissible(Rules(), old(View()).pool, transaction)
      ensures View().pool == if accepted then Grown(Rules(), old(View()).pool, transaction) else old(View()).pool
    {
      hide PersistentExecution.Valid, Applies;
      if !phase.Running? {
        return false;
      }
      var admitted := mempool.Admit(execution.env, step, transaction, CandidateOf(execution.committed));
      accepted := admitted.Ok?;
    }

    /** What is proposed is the selection from the durable tip, and executes under every decision for the next
        height. */
    method PrepareProposal(engineHeight: int, maximumBytes: int, nextValidators: Id, txs: seq<seq<u8>>)
      returns (r: Result<seq<seq<u8>>, AbciError>)
      requires Valid()
      ensures r.Ok? <==>
                phase.Running? && Preparable(Rules(), execution.committed, engineHeight, maximumBytes, nextValidators)
      ensures r.Ok? <==>
                phase.Running? && execution.committed.height < U64_MAX && 0 <= maximumBytes && 0 <= engineHeight &&
                EngineHeight(execution.env.network, execution.committed.height + 1) == Some(engineHeight) &&
                nextValidators == execution.env.network.validatorsHash
      ensures r.Ok? ==>
                r.value == Selected(step, CandidateOf(execution.committed), txs, ByteLimit(Rules(), maximumBytes),
                                    execution.env.config.maximumRecords)
      ensures r.Ok? ==> TotalBytes(r.value) <= maximumBytes && TotalBytes(r.value) <= execution.env.config.maximumBytes
                        && |r.value| <= execution.env.config.maximumRecords
      ensures r.Ok? ==> forall d {:trigger NextDecision(execution.env, execution.committed, d)} ::
                NextDecision(execution.env, execution.committed, d) ==>
                  ExecutedOn(Rules(), execution.committed, d, r.value).Some?
    {
      if !phase.Running? {
        return Err(ConsensusBeforeInitChain);
      }
      if execution.committed.height >= U64_MAX {
        return Err(NextHeightOverflow);
      }
      var expected := EngineHeight(execution.env.network, execution.committed.height + 1);
      if expected.None? || engineHeight != expected.value {
        return Err(UnexpectedEngineHeight);
      }
      if nextValidators != execution.env.network.validatorsHash {
        return Err(UnexpectedNextValidatorsHash);
      }
      if maximumBytes < 0 {
        return Err(NegativeMaximumTransactionBytes);
      }
      var limit := execution.env.config.maximumBytes;
      if maximumBytes < limit {
        limit := maximumBytes;
      }
      SelectedExecutes(execution, step, Rules(), txs, limit);
      hide PersistentExecution.Valid, MempoolOverlay.Overlays, Selected, ExecutedOn, NextDecision;
      var selected := SelectTransactions(execution.env, step, CandidateOf(execution.committed), txs, limit,
                                         execution.env.config.maximumRecords);
      r := Ok(selected);
    }

    method ProcessProposal(decision: Decision, txs: seq<seq<u8>>) returns (r: Result<ProposalStatus, AbciError>)
      requires Valid()
      ensures r.Ok? <==> phase.Running? && NextDecision(execution.env, execution.committed, decision)
      ensures r.Ok? ==> (r.value.Accept? <==> ExecutedOn(Rules(), execution.committed, decision, txs).Some?)
      ensures r.Err? ==>
                r.error == if !phase.Running? then ConsensusBeforeInitChain
                           else if execution.committed.height >= U64_MAX then NextHeightOverflow else InvalidDecision
    {
      hide PersistentExecution.Valid, MempoolOverlay.Overlays, Applies;
      if !phase.Running? {
        return Err(ConsensusBeforeInitChain);
      }
      if execution.committed.height >= U64_MAX {
        return Err(NextHeightOverflow);
      }
      if !DecisionValid(execution.env.network, decision, execution.committed.height + 1) {
        return Err(InvalidDecision);
      }
      var executed := Execute(execution, decision, txs);
      r := Ok(if executed.Ok? then Accept else Reject);
    }

    /** The first request for a height executes it; the same request again returns the same result, and any other
        is refused until the block is committed. */
    method FinalizeBlock(decision: Decision, txs: seq<seq<u8>>) returns (r: Result<FinalizeResult, AbciError>)
      requires Valid()
      modifies this`pending
      ensures Valid()
      ensures match FinalizeAnswer(Rules(), old(View()), decision, txs) {
                case FinalizedBlock(result) => phase.Running? ==> r == Ok(result)
                case _ => r.Err?
              }
      ensures !phase.Running? ==> r == Err(ConsensusBeforeInitChain)
      ensures r.Ok? ==> pending.Some? && Reports(pending.value.executed, r.value)
      ensures old(pending).Some? ==> pending == old(pending) && (r.Err? ==> r.error == FinalizeConflict)
      ensures old(pending).None? && r.Err? ==> pending.None?
      ensures old(pending).None? && r.Ok? ==>
                ExecutedOn(Rules(), execution.committed, decision, txs).Some? &&
                pending == Some(Pending(decision, txs,
                                        ExecutedOn(Rules(), execution.committed, decision, txs).value, r.value))
    {
      hide PersistentExecution.Valid, MempoolOverlay.Overlays, Applies;
      if !phase.Running? {
        return Err(ConsensusBeforeInitChain);
      }
      if pending.Some? {
        if pending.value.decision == decision && pending.value.transactions == txs {
          return Ok(pending.value.result);
        }
        return Err(FinalizeConflict);
      }
      if execution.committed.height >= U64_MAX {
        return Err(NextHeightOverflow);
      }
      if !DecisionValid(execution.env.network, decision, execution.committed.height + 1) {
        return Err(InvalidDecision);
      }
      var executed := Execute(execution, decision, txs);
      if executed.Err? {
        return Err(Storage(ExecutionFailed(executed.error)));
      }
      var result := ResultOf(executed.value);
      pending := Some(Pending(decision, txs, executed.value, result));
      r := Ok(result);
    }

    /** Only a successful commit changes durable state: it appends exactly the pending block, whose result was
        returned, and rebases the overlay. Otherwise everything but the write permission stays as it was. */
    method Commit(appended: bool) returns (r: Result<Receipt, AbciError>)
      requires Valid()
      modifies this`pending, execution, mempool
      ensures Valid()
      ensures r.Ok? <==> old(pending).Some? && old(execution.writesAvailable) && appended
      ensures r.Ok? ==> r.value == ReceiptOf(old(pending).value.executed)
      ensures r.Ok? ==>
                var e := old(pending).value.executed;
                r.value.height == e.header.height && r.value.blockId == e.header.id && r.value.appHash == e.appHash &&
                r.value.stateId == e.header.resultingStateId
      ensures r.Ok? ==> View() == Durably(old(View()), old(pending).value.executed)
      ensures r.Err? ==>
                View() == old(View()).(writable := old(execution.writesAvailable) && (appended || old(pending).None?))
    {
      hide BlockOutcome, StepOutcome;
      if !phase.Running? {
        return Err(ConsensusBeforeInitChain);
      }
      if pending.None? {
        return Err(MissingFinalizedBlock);
      }
      var block := pending.value.executed;
      ghost var p := NextProposal(execution.committed, pending.value.decision, pending.value.transactions);
      assert execution.execute(execution.committed, p) == Ok(block);
      hide PersistentExecution.Valid, MempoolOverlay.Overlays, Applies, ExecutedOn;
      hide NextDecision, NextProposal, ResultOf;
      var committed := execution.Commit(block, appended, Some(p));
      if committed.Err? {
        return Err(Storage(committed.error));
      }
      assert execution.committed == Next(block) && execution.journal == old(execution.journal) + [StoredOf(block)];
      hide PersistentExecution.Appended;
      pending := None;
      mempool.Reset(step, CandidateOf(execution.committed));
      r := Ok(committed.value);
    }
  }

  /** The last durable block was decided for the engine height of its own height. */
  lemma DurableHeight(execution: PersistentExecution)
    requires execution.Valid() && execution.journal != []
    ensures var last := execution.journal[|execution.journal| - 1];
            EngineHeight(execution.env.network, |execution.journal|) == Some(last.decision.height)
  {
    var journal, genesis, tip := execution.journal, execution.genesis, execution.committed;
    var earlier, last := journal[..|journal| - 1], journal[|journal| - 1];
    assert journal == earlier + [last];
    var middle := PrefixReplays(execution.execute, genesis, journal, |earlier|, tip);
    FrameReexecutes(execution.execute, genesis, earlier, last, middle, tip);
    FrameExtends(execution.execute, genesis, earlier, middle, last);
    assert Agrees(execution.env, execution.execute, middle, ProposalOf(last));
    hide SealOutcome, RunOutcome, Standing, ChainWith, StoredBlocks, ProposalsOf;
  }

  method Execute(execution: PersistentExecution, decision: Decision, txs: seq<seq<u8>>)
    returns (r: Result<Executed, ExecutionError>)
    requires execution.Valid()
    ensures r == execution.execute(execution.committed, NextProposal(execution.committed, decision, txs))
  {
    var p := NextProposal(execution.committed, decision, txs);
    assert Agrees(execution.env, execution.execute, execution.committed, p);
    hide BlockOutcome;
    r := ExecuteBlock(execution.env, execution.committed, p);
  }

  lemma SelectedExecutes(execution: PersistentExecution, step: StepRule, m: Machine, txs: seq<seq<u8>>, limit: nat)
    requires execution.Valid() && Applies(execution.env, step) && limit <= execution.env.config.maximumBytes
    requires m.env == execution.env && m.execute == execution.execute
    ensures var selected :=
              Selected(step, CandidateOf(execution.committed), txs, limit, execution.env.config.maximumRecords);
            forall d {:trigger NextDecision(execution.env, execution.committed, d)} ::
              NextDecision(execution.env, execution.committed, d) ==>
                ExecutedOn(m, execution.committed, d, selected).Some?
  {
    var selected := Selected(step, CandidateOf(execution.committed), txs, limit, execution.env.config.maximumRecords);
    forall d | NextDecision(execution.env, execution.committed, d)
      ensures ExecutedOn(m, execution.committed, d, selected).Some?
    {
      var p := NextProposal(execution.committed, d, selected);
      assert Agrees(execution.env, execution.execute, execution.committed, p);
      SelectionExecutes(execution.env, step, execution.committed, txs, limit, p);
    }
  }

  // ----- every sequence of calls

  /** Every call answers and changes exactly what the machine says. */
  method Serve(core: NoxisCometCore, call: Call) returns (event: Event)
    requires core.Valid()
    modifies core`phase, core`pending, core.execution, core.mempool
    ensures core.Valid() && event == Answer(core.Rules(), old(core.View()), call)
    ensures core.View() == After(core.Rules(), old(core.View()), call)
  {
    hide PersistentExecution.Valid, MempoolOverlay.Overlays, Applies, ExecutedOn, NextDecision, Selected;
    event := Refused;
    match call {
      case CallInit(request) =>
        var r := core.InitChain(request);
        if r.Ok? {
          event := Bootstrapped;
        }
      case CallCheck(transaction) =>
        var accepted := core.CheckTx(transaction);
        if accepted {
          event := Checked;
        }
      case CallPrepare(engineHeight, maximumBytes, nextValidators, offered) =>
        var r := core.PrepareProposal(engineHeight, maximumBytes, nextValidators, offered);
        if r.Ok? {
          event := Prepared(r.value);
        }
      case CallProcess(decision, transactions) =>
        var r := core.ProcessProposal(decision, transactions);
        if r.Ok? {
          event := Processed(r.value);
        }
      case CallFinalize(decision, transactions) =>
        var r := core.FinalizeBlock(decision, transactions);
        if r.Ok? {
          event := FinalizedBlock(r.value);
        }
      case CallCommit(appended) =>
        var r := core.Commit(appended);
        if r.Ok? {
          event := Durable(r.value);
        }
    }
  }

  /** Any calls on any valid core, fresh or reopened: the log and the final state are those of the machine. With
      nothing pending at the start, the journal grew by exactly the executions of the finalize calls that backed the
      durable answers, in order, and the tip is theirs. */
  method Drive(core: NoxisCometCore, calls: seq<Call>) returns (log: seq<Event>)
    requires core.Valid()
    modifies core`phase, core`pending, core.execution, core.mempool
    ensures core.Valid() && Trace(core.View(), log) == RunCalls(core.Rules(), old(core.View()), calls)
    ensures old(core.pending).None? ==>
              var reached := Replayed(core.Rules(), old(core.execution.committed), calls, log);
              core.execution.journal == old(core.execution.journal) + reached.frames &&
              core.execution.committed == reached.tip &&
              |core.execution.journal| == old(|core.execution.journal|) + Commits(log)
  {
    hide NoxisCometCore.Valid, Answer, After;
    log := [];
    for n := 0 to |calls|
      invariant core.Valid() && Trace(core.View(), log) == RunCalls(core.Rules(), old(core.View()), calls[..n])
    {
      var event := Serve(core, calls[n]);
      log := log + [event];
      assert calls[..n + 1][..n] == calls[..n];
    }
    assert calls[..|calls|] == calls;
    if old(core.pending).None? {
      HistoryTells(core.Rules(), old(core.View()), calls);
    }
  }
}
