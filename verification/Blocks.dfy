/** Blocks: the checks around a run of transactions, the header that seals it, and chains of blocks from genesis. */
module Blocks {
  import opened Common
  import opened Bytes
  import opened Ledger
  import opened Execution
  import F = Finality

  function CandidateOf(tip: Committed): Candidate {
    Candidate(tip.ledger, tip.chain)
  }

  /** The state before the first block, whose identifier the anchor must name. */
  function Genesis(env: Environment, ledger: LedgerState): Result<Committed, ExecutionError> {
    if env.rules.stateId(ledger, env.anchor.genesisId) != env.anchor.genesisStateId then Err(CommittedStateIdMismatch)
    else Ok(Committed(ledger, RecordChain(1, env.anchor.genesisStateId), 0, None, None))
  }

  /** The engine height of an execution height: both are one-based and shifted by the engine's initial height. */
  function EngineHeight(network: Network, height: nat): Option<nat> {
    if height == 0 || height - 1 > I64_MAX || network.initialHeight + (height - 1) > I64_MAX then None
    else Some(network.initialHeight + (height - 1))
  }

  predicate DecisionValid(network: Network, d: Decision, height: nat) {
    d.networkId == network.id && EngineHeight(network, height) == Some(d.height) &&
        d.nextValidators == network.validatorsHash
  }

  function TotalBytes(txs: seq<seq<u8>>): nat {
    if txs == [] then 0 else TotalBytes(txs[..|txs| - 1]) + |txs[|txs| - 1]|
  }

  function RecordHashes(records: seq<Record>): (hashes: seq<Id>)
    ensures |hashes| == |records| && forall i | 0 <= i < |records| :: hashes[i] == records[i].hash
  {
    seq(|records|, i requires 0 <= i < |records| => records[i].hash)
  }

  // ----- sealing a run

  predicate HeaderWellFormed(h: F.Header) {
    h.protocolVersion != 0 && h.height != 0 &&
    (h.height == 1 ==> h.parent.None?) && (h.height > 1 ==> h.parent.Some?) &&
    h.firstRecordSequence != 0 && h.recordCount <= F.MAX_BLOCK_RECORDS &&
    (h.recordCount > 0 ==> h.firstRecordSequence + (h.recordCount - 1) <= U64_MAX)
  }

  function HeaderOver(env: Environment, tip: Committed, height: nat, ran: Ran): F.Header {
    var unsigned := F.Header(
      env.config.protocolVersion, env.anchor.genesisId, env.anchor.contextId, env.config.id, env.config.validatorSet.id,
      height, 0, 0, tip.blockId, tip.chain.stateId, ran.candidate.chain.stateId,
      tip.chain.nextSequence, |ran.records|, env.commitRecords(RecordHashes(ran.records)), 0);
    unsigned.(id := env.blockId(unsigned))
  }

  function TerminalAfter(tip: Committed, records: seq<Record>): Option<Id> {
    if records == [] then tip.terminal else Some(records[|records| - 1].hash)
  }

  function AppHashOf(env: Environment, h: F.Header, d: Decision, chain: RecordChain, terminal: Option<Id>): Id {
    env.appHash(AppInput(env.anchor.genesisId, env.anchor.contextId, env.config.id, d, h.height, h.id,
        chain.nextSequence - 1, terminal, h.resultingStateId))
  }

  function SealOutcome(env: Environment, tip: Committed, p: Proposal, ran: Ran): Result<Executed, ExecutionError> {
    if |ran.records| > F.MAX_BLOCK_RECORDS then Err(Consensus)
    else
      var header := HeaderOver(env, tip, p.height, ran);
      if !HeaderWellFormed(header) || !F.HeaderAccepted(header, env.anchor, env.config) then Err(Consensus)
      else
        var terminal := TerminalAfter(tip, ran.records);
        Ok(Executed(header, p.decision, ran.records, ran.candidate, terminal,
            AppHashOf(env, header, p.decision, ran.candidate.chain, terminal)))
  }

  // ----- one block

  function PreflightOutcome(env: Environment, tip: Committed, p: Proposal): Option<ExecutionError> {
    if tip.height >= U64_MAX then Some(HeightOverflow)
    else if p.height != tip.height + 1 then Some(UnexpectedHeight(tip.height + 1, p.height))
    else if !DecisionValid(env.network, p.decision, p.height) then Some(EngineIdentity)
    else if env.rules.stateId(tip.ledger, env.anchor.genesisId) != tip.chain.stateId then Some(CommittedStateIdMismatch)
    else if |p.transactions| > env.config.maximumRecords then Some(TooManyTransactions)
    else if TotalBytes(p.transactions) > env.config.maximumBytes then Some(ProposalBytesExceeded)
    else None
  }

  function BlockOutcome(env: Environment, tip: Committed, p: Proposal): Result<Executed, ExecutionError> {
    if PreflightOutcome(env, tip, p).Some? then Err(PreflightOutcome(env, tip, p).value)
    else
      var ran :- RunOutcome(env, CandidateOf(tip), p.transactions);
      SealOutcome(env, tip, p, ran)
  }

  /** What holds of every committed tip. */
  ghost predicate Standing(env: Environment, tip: Committed) {
    Coherent(env, CandidateOf(tip)) && tip.height <= U64_MAX && (tip.height == 0 <==> tip.blockId.None?) &&
    (tip.height == 0 ==> tip.terminal.None? && tip.chain == RecordChain(1, env.anchor.genesisStateId))
  }

  /** A network starts exactly from the ledger whose identifier its anchor names, at height zero and record one. */
  lemma GenesisStands(env: Environment, ledger: LedgerState)
    requires Ledger.Valid(ledger)
    ensures Genesis(env, ledger).Ok? <==>
              env.rules.stateId(ledger, env.anchor.genesisId) == env.anchor.genesisStateId
    ensures Genesis(env, ledger).Ok? ==>
              var tip := Genesis(env, ledger).value;
              Standing(env, tip) && tip.ledger == ledger && tip.height == 0
  {
  }

  /** The first block has the engine's initial height and each next one a height more, as long as that fits `i64`. */
  lemma EngineHeights(network: Network, height: nat)
    ensures EngineHeight(network, 0) == None
    ensures network.initialHeight <= I64_MAX ==> EngineHeight(network, 1) == Some(network.initialHeight)
    ensures height > 0 && EngineHeight(network, height).Some? ==>
              var at := EngineHeight(network, height).value;
              EngineHeight(network, height + 1) == if at < 0x7FFF_FFFF_FFFF_FFFF then Some(at + 1) else None
    ensures height > 0 && EngineHeight(network, height).None? ==> EngineHeight(network, height + 1).None?
  {
  }

  /** Once its transactions ran, a block always seals: no header or anchor check can fail any more. */
  lemma SealSucceeds(env: Environment, tip: Committed, p: Proposal, ran: Ran)
    requires env.Valid() && Standing(env, tip) && p.height == tip.height + 1
    requires Recorded(env, CandidateOf(tip), p.transactions, ran) && |p.transactions| <= env.config.maximumRecords
    ensures SealOutcome(env, tip, p, ran).Ok?
  {
  }

  /** The decision is of this network, for the engine height of the proposal, and keeps the validators. */
  ghost predicate Decided(network: Network, p: Proposal) {
    p.decision.networkId == network.id && EngineHeight(network, p.height) == Some(p.decision.height) &&
    p.decision.nextValidators == network.validatorsHash
  }

  /** A block executes exactly when its height and decision are the next ones, it fits both limits, and every
      transaction is accepted at its turn. In particular the committed-state comparison never fails. */
  lemma BlockDecides(env: Environment, tip: Committed, p: Proposal)
    requires env.Valid() && Standing(env, tip)
    ensures BlockOutcome(env, tip, p).Ok? <==>
              tip.height < U64_MAX && p.height == tip.height + 1 && Decided(env.network, p) &&
              |p.transactions| <= env.config.maximumRecords && TotalBytes(p.transactions) <= env.config.maximumBytes &&
              RunOutcome(env, CandidateOf(tip), p.transactions).Ok?
    ensures PreflightOutcome(env, tip, p) != Some(CommittedStateIdMismatch)
  {
    hide StepOutcome, RunOutcome, SealOutcome;
    if RunOutcome(env, CandidateOf(tip), p.transactions).Ok? {
      RunRecords(env, CandidateOf(tip), p.transactions);
      if PreflightOutcome(env, tip, p).None? {
        SealSucceeds(env, tip, p, RunOutcome(env, CandidateOf(tip), p.transactions).value);
      }
    }
  }

  /** On a committed tip a block fails only for its height, its decision, a limit or one of its transactions: the
      state, header, anchor and record-chain checks never reject. */
  lemma BlockFailures(env: Environment, tip: Committed, p: Proposal)
    requires env.Valid() && Standing(env, tip)
    ensures BlockOutcome(env, tip, p).Err? ==>
              var e := BlockOutcome(env, tip, p).error;
              e.HeightOverflow? || e.UnexpectedHeight? || e.EngineIdentity? || e.TooManyTransactions? ||
              e.ProposalBytesExceeded? || Submitted(e)
  {
    hide StepOutcome;
    RunFailures(env, CandidateOf(tip), p.transactions);
    BlockDecides(env, tip, p);
  }

  /** How a block is refused before it runs, each reason exactly when all earlier checks pass. */
  lemma PreflightRefusals(env: Environment, tip: Committed, p: Proposal)
    requires Standing(env, tip)
    ensures var r, next := PreflightOutcome(env, tip, p), tip.height < U64_MAX && p.height == tip.height + 1;
            var decided := next && Decided(env.network, p);
            var few := decided && |p.transactions| <= env.config.maximumRecords;
            (r == Some(HeightOverflow) <==> tip.height == U64_MAX) &&
            (r == Some(UnexpectedHeight(tip.height + 1, p.height)) <==> tip.height < U64_MAX && !next) &&
            (r == Some(EngineIdentity) <==> next && !decided) &&
            (r == Some(TooManyTransactions) <==> decided && !few) &&
            (r == Some(ProposalBytesExceeded) <==> few && TotalBytes(p.transactions) > env.config.maximumBytes) &&
            (r == None <==> few && TotalBytes(p.transactions) <= env.config.maximumBytes)
  {
    hide TotalBytes, EngineHeight;
  }

  /** After those checks a block is refused exactly for the reason that stopped its run. */
  lemma BlockRefusals(env: Environment, tip: Committed, p: Proposal)
    requires env.Valid() && Standing(env, tip)
    ensures PreflightOutcome(env, tip, p).Some? ==>
              BlockOutcome(env, tip, p) == Err(PreflightOutcome(env, tip, p).value)
    ensures PreflightOutcome(env, tip, p).None? ==>
              var ran := RunOutcome(env, CandidateOf(tip), p.transactions);
              BlockOutcome(env, tip, p).Ok? == ran.Ok? && (ran.Err? ==> BlockOutcome(env, tip, p) == Err(ran.error))
  {
    BlockDecides(env, tip, p);
    hide RunOutcome, SealOutcome, Standing;
  }

  function Next(e: Executed): Committed {
    Committed(e.result.ledger, e.result.chain, e.header.height, Some(e.header.id), e.terminal)
  }

  /** How a block continues the tip it was executed on. */
  ghost predicate Continues(env: Environment, tip: Committed, p: Proposal, e: Executed) {
    e.header.height == tip.height + 1 && e.header.parent == tip.blockId && e.decision == p.decision &&
    e.header.previousStateId == tip.chain.stateId && e.header.resultingStateId == e.result.chain.stateId &&
    e.header.firstRecordSequence == tip.chain.nextSequence && e.header.recordCount == |p.transactions| &&
    e.header.recordsCommitment == env.commitRecords(RecordHashes(e.records)) &&
    Recorded(env, CandidateOf(tip), p.transactions, Ran(e.result, e.records)) &&
    RunOutcome(env, CandidateOf(tip), p.transactions) == Ok(Ran(e.result, e.records))
  }

  lemma BlockContinues(env: Environment, tip: Committed, p: Proposal)
    requires env.Valid() && Standing(env, tip) && BlockOutcome(env, tip, p).Ok?
    ensures Continues(env, tip, p, BlockOutcome(env, tip, p).value) &&
        Standing(env, Next(BlockOutcome(env, tip, p).value))
  {
    RunRecords(env, CandidateOf(tip), p.transactions);
  }

  /** What a block is sealed under: a header for this deployment whose identifier is the hash of its other fields, the
      hash of its last record, or of the last one before it when it has none, and the application hash over the
      deployment, the decision, the block, the last record and the resulting state. */
  ghost predicate SealedOn(env: Environment, tip: Committed, e: Executed) {
    var h := e.header;
    h.protocolVersion == env.config.protocolVersion && h.genesisId == env.anchor.genesisId &&
    h.contextId == env.anchor.contextId && h.configId == env.config.id &&
    h.validatorSetId == env.config.validatorSet.id && h.epoch == 0 && h.round == 0 &&
    h.id == env.blockId(h.(id := 0)) &&
    e.terminal == (if e.records == [] then tip.terminal else Some(e.records[|e.records| - 1].hash)) &&
    e.appHash == env.appHash(SealingInput(env, tip, e))
  }

  /** What the application hash of a block is taken over. */
  ghost function SealingInput(env: Environment, tip: Committed, e: Executed): AppInput {
    AppInput(env.anchor.genesisId, env.anchor.contextId, env.config.id, e.decision, e.header.height, e.header.id,
             tip.chain.nextSequence + |e.records| - 1, e.terminal, e.header.resultingStateId)
  }

  lemma BlockSeals(env: Environment, tip: Committed, p: Proposal)
    requires env.Valid() && Standing(env, tip) && BlockOutcome(env, tip, p).Ok?
    ensures SealedOn(env, tip, BlockOutcome(env, tip, p).value)
    ensures var e := BlockOutcome(env, tip, p).value;
            var next := Next(e);
            next.ledger == e.result.ledger && next.chain == e.result.chain && next.height == tip.height + 1 &&
            next.blockId == Some(e.header.id) && next.terminal == e.terminal
  {
    hide StepOutcome, Standing, HeaderWellFormed, F.HeaderAccepted, PreflightOutcome;
    BlockContinues(env, tip, p);
  }

  /** The empty block always executes on a standing tip, and leaves ledger, record position and terminal record
      as they were. */
  lemma EmptyBlockExecutes(env: Environment, tip: Committed, p: Proposal)
    requires env.Valid() && Standing(env, tip) && tip.height < U64_MAX && p.transactions == []
    requires p.height == tip.height + 1 && DecisionValid(env.network, p.decision, p.height)
    ensures BlockOutcome(env, tip, p).Ok?
    ensures var next := Next(BlockOutcome(env, tip, p).value);
            next.ledger == tip.ledger && next.chain == tip.chain && next.terminal == tip.terminal &&
                next.height == tip.height + 1
  {
    assert RunOutcome(env, CandidateOf(tip), p.transactions) == Ok(Ran(CandidateOf(tip), []));
    BlockDecides(env, tip, p);
  }

  // ----- the journal's own check of a stored block

  datatype StoreError = RecordCountMismatch | RecordCommitmentMismatch | FirstRecordSequenceMismatch
    | PreviousStateMismatch(index: nat) | RecordSequenceMismatch(index: nat) | ResultingStateMismatch
        | EmptyBlockStateMismatch

  /** The records are the header's: count, commitment, position, links and resulting state. */
  ghost predicate Storable(env: Environment, h: F.Header, records: seq<Record>) {
    |records| == h.recordCount && env.commitRecords(RecordHashes(records)) == h.recordsCommitment &&
    if records == [] then h.previousStateId == h.resultingStateId
    else Linked(RecordChain(h.firstRecordSequence, h.previousStateId), records,
                RecordChain(h.firstRecordSequence + |records|, h.resultingStateId))
  }

  method ValidateBlock(env: Environment, h: F.Header, records: seq<Record>) returns (r: Result<(), StoreError>)
    ensures r.Ok? <==> Storable(env, h, records)
  {
    if |records| != h.recordCount {
      return Err(RecordCountMismatch);
    }
    if env.commitRecords(RecordHashes(records)) != h.recordsCommitment {
      return Err(RecordCommitmentMismatch);
    }
    if records == [] {
      return if h.previousStateId == h.resultingStateId then Ok(()) else Err(EmptyBlockStateMismatch);
    }
    ghost var from := RecordChain(h.firstRecordSequence, h.previousStateId);
    if records[0].fields.sequence != h.firstRecordSequence {
      assert !LinkedAt(from, records, 0);
      return Err(FirstRecordSequenceMismatch);
    }
    if records[0].fields.previous != h.previousStateId {
      assert !LinkedAt(from, records, 0);
      return Err(PreviousStateMismatch(0));
    }
    for i := 1 to |records|
      invariant forall k | 0 <= k < i :: LinkedAt(from, records, k)
    {
      assert LinkedAt(from, records, i - 1);
      if records[i].fields.sequence != records[i - 1].fields.sequence + 1 {
        assert !LinkedAt(from, records, i);
        return Err(RecordSequenceMismatch(i));
      }
      if records[i].fields.previous != records[i - 1].fields.resulting {
        assert !LinkedAt(from, records, i);
        return Err(PreviousStateMismatch(i));
      }
    }
    var resulting := records[|records| - 1].fields.resulting;
    return if resulting == h.resultingStateId then Ok(()) else Err(ResultingStateMismatch);
  }

  /** The journal accepts every block the executor produces. */
  lemma ExecutedIsStorable(env: Environment, tip: Committed, p: Proposal, e: Executed)
    requires Continues(env, tip, p, e)
    ensures Storable(env, e.header, e.records)
  {
    if e.records != [] {
      var from := RecordChain(e.header.firstRecordSequence, e.header.previousStateId);
      assert from == tip.chain;
    }
  }

  // ----- chains of blocks

  datatype History = History(tip: Committed, blocks: seq<Executed>)

  type BlockRule = (Committed, Proposal) -> Result<Executed, ExecutionError>

  type BlockRelation = (Committed, Proposal, Executed) -> bool

  /** Every proposal in order on the tip the previous one left, stopping at the first rejection. */
  function ChainWith(execute: BlockRule, start: Committed, proposals: seq<Proposal>): Result<History, ExecutionError> {
    if proposals == [] then Ok(History(start, []))
    else
      var before :- ChainWith(execute, start, proposals[..|proposals| - 1]);
      var block :- execute(before.tip, proposals[|proposals| - 1]);
      Ok(History(Next(block), before.blocks + [block]))
  }

  function BlockExecutor(env: Environment): BlockRule {
    (tip, p) => BlockOutcome(env, tip, p)
  }

  function ChainOutcome(env: Environment, start: Committed, proposals: seq<Proposal>): Result<History, ExecutionError> {
    ChainWith(BlockExecutor(env), start, proposals)
  }

  ghost function TipAt(start: Committed, blocks: seq<Executed>, i: nat): Committed
    requires i <= |blocks|
  {
    if i == 0 then start else Next(blocks[i - 1])
  }

  /** Every block stands in `relation` to the tip it was executed on, and the last one made the final tip. */
  ghost predicate ChainLinked(relation: BlockRelation, start: Committed, proposals: seq<Proposal>, history: History) {
    |history.blocks| == |proposals| && history.tip == TipAt(start, history.blocks, |proposals|) &&
    forall i | 0 <= i < |proposals| :: LinkedBlock(relation, start, proposals, history.blocks, i)
  }

  ghost predicate LinkedBlock(relation: BlockRelation, start: Committed, proposals: seq<Proposal>,
                              blocks: seq<Executed>, i: nat)
    requires i < |proposals| && i < |blocks|
  {
    relation(TipAt(start, blocks, i), proposals[i], blocks[i])
  }

  ghost predicate Keeps(execute: BlockRule, good: Committed -> bool,
                        relation: BlockRelation, tip: Committed, p: Proposal) {
    good(tip) && execute(tip, p).Ok? ==> good(Next(execute(tip, p).value)) && relation(tip, p, execute(tip, p).value)
  }

  /** What one block keeps and establishes holds along every chain. */
  lemma {:induction false} ChainKeeps(execute: BlockRule, good: Committed -> bool,
                                      relation: BlockRelation, start: Committed, proposals: seq<Proposal>)
    requires good(start) && forall t, p :: Keeps(execute, good, relation, t, p)
    requires ChainWith(execute, start, proposals).Ok?
    ensures var history := ChainWith(execute, start, proposals).value;
            good(history.tip) && ChainLinked(relation, start, proposals, history)
  {
    if proposals != [] {
      var shorter, last := proposals[..|proposals| - 1], proposals[|proposals| - 1];
      ChainKeeps(execute, good, relation, start, shorter);
      var before := ChainWith(execute, start, shorter).value;
      var block := execute(before.tip, last).value;
      assert Keeps(execute, good, relation, before.tip, last);
      var blocks := before.blocks + [block];
      forall i | 0 <= i < |proposals| ensures LinkedBlock(relation, start, proposals, blocks, i) {
        assert TipAt(start, blocks, i) == TipAt(start, before.blocks, i);
        if i < |shorter| {
          assert LinkedBlock(relation, start, shorter, before.blocks, i);
          assert proposals[i] == shorter[i] && blocks[i] == before.blocks[i];
        }
      }
    }
  }

  ghost function ContinuesIn(env: Environment): BlockRelation {
    (tip, p, e) => Continues(env, tip, p, e)
  }

  ghost function StandingIn(env: Environment): Committed -> bool {
    tip => Standing(env, tip)
  }

  /** Over every chain of executed blocks: every tip is standing and every block continues the one before it. */
  lemma ChainIsLinked(env: Environment, start: Committed, proposals: seq<Proposal>)
    requires env.Valid() && Standing(env, start) && ChainOutcome(env, start, proposals).Ok?
    ensures var history := ChainOutcome(env, start, proposals).value;
            Standing(env, history.tip) && ChainLinked(ContinuesIn(env), start, proposals, history)
  {
    forall t, p ensures Keeps(BlockExecutor(env), StandingIn(env), ContinuesIn(env), t, p) {
      if Standing(env, t) && BlockOutcome(env, t, p).Ok? {
        BlockContinues(env, t, p);
      }
    }
    ChainKeeps(BlockExecutor(env), StandingIn(env), ContinuesIn(env), start, proposals);
  }

  ghost predicate Rises(relation: BlockRelation, tip: Committed, p: Proposal, e: Executed) {
    relation(tip, p, e) ==> e.header.height == tip.height + 1
  }

  lemma {:induction false} HeightAt(relation: BlockRelation, start: Committed, proposals: seq<Proposal>,
      history: History, i: nat)
    requires forall t, p, e :: Rises(relation, t, p, e)
    requires ChainLinked(relation, start, proposals, history) && i <= |proposals|
    ensures TipAt(start, history.blocks, i).height == start.height + i
  {
    if i > 0 {
      assert LinkedBlock(relation, start, proposals, history.blocks, i - 1);
      assert Rises(relation, TipAt(start, history.blocks, i - 1), proposals[i - 1], history.blocks[i - 1]);
      HeightAt(relation, start, proposals, history, i - 1);
    }
  }

  /** Each header names its predecessor's identifier, resulting state and next record sequence. */
  lemma HeadersLink(env: Environment, start: Committed, proposals: seq<Proposal>, i: nat)
    requires env.Valid() && Standing(env, start) && start.height == 0 && ChainOutcome(env, start, proposals).Ok? &&
        i < |proposals|
    ensures var blocks := ChainOutcome(env, start, proposals).value.blocks;
            |blocks| == |proposals| && blocks[i].header.height == i + 1 &&
            if i == 0 then
              blocks[i].header.parent == None && blocks[i].header.previousStateId == env.anchor.genesisStateId &&
                  blocks[i].header.firstRecordSequence == 1
            else
              blocks[i].header.parent == Some(blocks[i - 1].header.id) &&
              blocks[i].header.previousStateId == blocks[i - 1].header.resultingStateId &&
              blocks[i].header.firstRecordSequence ==
                blocks[i - 1].header.firstRecordSequence + blocks[i - 1].header.recordCount
  {
    ChainIsLinked(env, start, proposals);
    var history := ChainOutcome(env, start, proposals).value;
    HeightAt(ContinuesIn(env), start, proposals, history, i);
    assert LinkedBlock(ContinuesIn(env), start, proposals, history.blocks, i);
    if i > 0 {
      assert LinkedBlock(ContinuesIn(env), start, proposals, history.blocks, i - 1);
    }
  }

  // ----- a chain is one run

  function AllTransactions(proposals: seq<Proposal>): seq<seq<u8>> {
    if proposals == [] then []
    else AllTransactions(proposals[..|proposals| - 1]) + proposals[|proposals| - 1].transactions
  }

  function AllRecords(blocks: seq<Executed>): seq<Record> {
    if blocks == [] then [] else AllRecords(blocks[..|blocks| - 1]) + blocks[|blocks| - 1].records
  }

  /** How transactions are cut into blocks does not matter: a chain ends where one run of all its transactions ends,
      with the same records. */
  lemma {:induction false} ChainIsOneRun(env: Environment, start: Committed, proposals: seq<Proposal>)
    requires env.Valid() && Standing(env, start) && ChainOutcome(env, start, proposals).Ok?
    ensures var history := ChainOutcome(env, start, proposals).value;
            RunOutcome(env, CandidateOf(start),
                AllTransactions(proposals)) == Ok(Ran(CandidateOf(history.tip), AllRecords(history.blocks)))
  {
    hide BlockOutcome, StepOutcome, Standing, Recorded;
    if proposals != [] {
      var shorter, last := proposals[..|proposals| - 1], proposals[|proposals| - 1];
      ChainIsOneRun(env, start, shorter);
      ChainIsLinked(env, start, shorter);
      var before := ChainOutcome(env, start, shorter).value;
      BlockContinues(env, before.tip, last);
      var block := BlockOutcome(env, before.tip, last).value;
      assert (before.blocks + [block])[..|before.blocks|] == before.blocks;
      RunAppend(Stepper(env), CandidateOf(start), AllTransactions(shorter), last.transactions);
    }
  }

  /** Over every chain from genesis: one contiguous linked record chain from sequence one, a valid ledger, every
      nullifier, commitment and transaction identifier used once, and supply equal to what was minted. */
  lemma ChainAccounts(env: Environment, ledger: LedgerState, proposals: seq<Proposal>)
    requires env.Valid() && Ledger.Valid(ledger) && Genesis(env, ledger).Ok?
    requires ChainOutcome(env, Genesis(env, ledger).value, proposals).Ok?
    ensures var history := ChainOutcome(env, Genesis(env, ledger).value, proposals).value;
            var steps := StepsOf(env, AllRecords(history.blocks));
            Linked(RecordChain(1, env.anchor.genesisStateId), AllRecords(history.blocks), history.tip.chain) &&
            Ledger.Valid(history.tip.ledger) && Accounts(ledger, history.tip.ledger, steps) &&
            Fresh(Nullifiers(steps), ledger.spent) && Fresh(Outputs(steps), ledger.commitments) &&
            Fresh(TransactionIds(steps), ledger.accepted)
  {
    var start := Genesis(env, ledger).value;
    GenesisStands(env, ledger);
    ChainIsOneRun(env, start, proposals);
    RunRecords(env, CandidateOf(start), AllTransactions(proposals));
    RunReplays(env, CandidateOf(start), AllTransactions(proposals));
    RunAccounts(env.rules, ledger, StepsOf(env, AllRecords(ChainOutcome(env, start, proposals).value.blocks)));
  }
}
