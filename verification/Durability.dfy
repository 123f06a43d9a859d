/** Durable execution: whole blocks appended to a journal only after they re-execute on the current tip. */
module Durability {
  import opened Common
  import opened Bytes
  import opened Ledger
  import opened Execution
  import opened Blocks
  import opened Executor
  import F = Finality

  /** One journal frame. */
  datatype Stored = Stored(header: F.Header, appHash: Id, decision: Decision, records: seq<Record>)

  datatype Receipt = Receipt(height: nat, blockId: Id, appHash: Id, stateId: Id)

  datatype PersistError =
    | WriteUnavailable | ConflictingCommitAtHeight(height: nat) | UnexpectedCommitHeight(expected: nat, actual: nat)
    | CommitHeightOverflow | Journal(store: StoreError) | AppendFailed | ExecutionFailed(error: ExecutionError)
        | ReplayMismatch(height: nat)

  function StoredOf(e: Executed): Stored {
    Stored(e.header, e.appHash, e.decision, e.records)
  }

  function BytesOf(records: seq<Record>): (r: seq<seq<u8>>)
    ensures |r| == |records|
  {
    seq(|records|, i requires 0 <= i < |records| => records[i].fields.bytes)
  }

  function ProposalOf(s: Stored): Proposal {
    Proposal(s.header.height, s.decision, BytesOf(s.records))
  }

  ghost function ProposalsOf(journal: seq<Stored>): (r: seq<Proposal>)
    ensures |r| == |journal|
  {
    seq(|journal|, i requires 0 <= i < |journal| => ProposalOf(journal[i]))
  }

  ghost function StoredBlocks(blocks: seq<Executed>): (r: seq<Stored>)
    ensures |r| == |blocks|
  {
    seq(|blocks|, i requires 0 <= i < |blocks| => StoredOf(blocks[i]))
  }

  /** Executing the journal's frames in order from genesis reproduces the frames and ends at the tip. */
  ghost predicate JournalReplays(execute: BlockRule, genesis: Committed, journal: seq<Stored>, tip: Committed) {
    ChainWith(execute, genesis, ProposalsOf(journal)).Ok? &&
    ChainWith(execute, genesis, ProposalsOf(journal)).value.tip == tip &&
    StoredBlocks(ChainWith(execute, genesis, ProposalsOf(journal)).value.blocks) == journal
  }

  /** A frame that re-executes to itself extends a journal that replays. */
  lemma FrameExtends(execute: BlockRule, genesis: Committed, journal: seq<Stored>, tip: Committed, s: Stored)
    requires JournalReplays(execute, genesis, journal, tip) && execute(tip, ProposalOf(s)).Ok? &&
        StoredOf(execute(tip, ProposalOf(s)).value) == s
    ensures JournalReplays(execute, genesis, journal + [s], Next(execute(tip, ProposalOf(s)).value))
  {
    var proposals := ProposalsOf(journal + [s]);
    assert proposals[..|journal|] == ProposalsOf(journal);
    var blocks := ChainWith(execute, genesis, ProposalsOf(journal)).value.blocks;
    var e := execute(tip, ProposalOf(s)).value;
    assert StoredBlocks(blocks + [e]) == StoredBlocks(blocks) + [s];
  }

  /** A journal replays only if every prefix does. */
  lemma FrameReexecutes(execute: BlockRule, genesis: Committed, journal: seq<Stored>, s: Stored, tip: Committed,
      end: Committed)
    requires JournalReplays(execute, genesis, journal, tip) && JournalReplays(execute, genesis, journal + [s], end)
    ensures execute(tip, ProposalOf(s)).Ok? && StoredOf(execute(tip, ProposalOf(s)).value) == s
  {
    var proposals := ProposalsOf(journal + [s]);
    assert proposals[..|journal|] == ProposalsOf(journal);
    var blocks := ChainWith(execute, genesis, proposals).value.blocks;
    assert StoredBlocks(blocks)[|journal|] == s;
  }

  /** Executed transactions can be read back from the records. */
  lemma BytesBack(env: Environment, tip: Committed, p: Proposal, e: Executed)
    requires Continues(env, tip, p, e)
    ensures BytesOf(e.records) == p.transactions
  {
    assert forall i | 0 <= i < |p.transactions| :: RecordedAt(env, p.transactions[i], e.records[i]);
  }

  /** A block built on the current tip passes the journal's checks and re-executes to itself. */
  lemma FreshBlockReplays(env: Environment, tip: Committed, p: Proposal)
    requires env.Valid() && Standing(env, tip) && BlockOutcome(env, tip, p).Ok?
    ensures var e := BlockOutcome(env, tip, p).value;
            ProposalOf(StoredOf(e)) == p && e.header.height == tip.height + 1 <= U64_MAX &&
            Storable(env, e.header, e.records)
  {
    var e := BlockOutcome(env, tip, p).value;
    BlockContinues(env, tip, p);
    BytesBack(env, tip, p, e);
    ExecutedIsStorable(env, tip, p, e);
    BlockDecides(env, tip, p);
  }

  /** `execute` is block execution in `env`. */
  ghost predicate Executes(env: Environment, execute: BlockRule) {
    forall tip, p {:trigger Agrees(env, execute, tip, p)} :: Agrees(env, execute, tip, p)
  }

  ghost predicate Agrees(env: Environment, execute: BlockRule, tip: Committed, p: Proposal) {
    execute(tip, p) == BlockOutcome(env, tip, p)
  }

  method Reexecute(env: Environment, ghost execute: BlockRule, tip: Committed, s: Stored)
    returns (r: Result<Executed, PersistError>)
    requires Executes(env, execute)
    ensures r.Ok? <==> execute(tip, ProposalOf(s)).Ok? && StoredOf(execute(tip, ProposalOf(s)).value) == s
    ensures r.Ok? ==> r.value == execute(tip, ProposalOf(s)).value
    ensures r.Err? ==> r.error.ExecutionFailed? || r.error.ReplayMismatch?
  {
    hide BlockOutcome;
    assert Agrees(env, execute, tip, ProposalOf(s));
    var executed := ExecuteBlock(env, tip, ProposalOf(s));
    if executed.Err? {
      return Err(ExecutionFailed(executed.error));
    }
    if StoredOf(executed.value) != s {
      return Err(ReplayMismatch(s.header.height));
    }
    r := Ok(executed.value);
  }

  class PersistentExecution {
    const env: Environment
    ghost const genesis: Committed
    ghost const execute: BlockRule
    var journal: seq<Stored>
    var committed: Committed
    var appHash: Option<Id>
    var writesAvailable: bool

    ghost predicate Valid()
      reads this
    {
      env.Valid() && Executes(env, execute) && Standing(env, genesis) && genesis.height == 0 &&
          Standing(env, committed) &&
      JournalReplays(execute, genesis, journal, committed) &&
      committed.height == |journal| &&
      (if journal == [] then appHash == None else appHash == Some(journal[|journal| - 1].appHash))
    }

    constructor (env: Environment, genesis: Committed)
      requires env.Valid() && Standing(env, genesis) && genesis.height == 0
      ensures Valid() && this.env == env && this.genesis == genesis && execute == BlockExecutor(env) &&
          journal == [] && committed == genesis && writesAvailable
    {
      this.env, this.genesis, execute := env, genesis, BlockExecutor(env);
      journal, committed, appHash, writesAvailable := [], genesis, None, true;
    }

    /** What appending one re-executed frame makes of the tip. */
    ghost predicate Appended(before: Committed, earlier: seq<Stored>, s: Stored)
      reads this
    {
      journal == earlier + [s] && appHash == Some(s.appHash) && committed.height == before.height + 1 &&
      execute(before, ProposalOf(s)).Ok? && StoredOf(execute(before, ProposalOf(s)).value) == s &&
      committed == Next(execute(before, ProposalOf(s)).value)
    }

    /** The block is the next one, its records are its header's, and re-executing it on the tip gives it back. */
    ghost predicate Committable(tip: Committed, block: Executed) {
      tip.height < U64_MAX && block.header.height == tip.height + 1 && Storable(env, block.header, block.records) &&
      execute(tip, ProposalOf(StoredOf(block))).Ok? &&
      StoredOf(execute(tip, ProposalOf(StoredOf(block))).value) == StoredOf(block)
    }

    method Append(s: Stored, e: Executed)
      requires Valid() && execute(committed, ProposalOf(s)) == Ok(e) && StoredOf(e) == s
      modifies this
      ensures Valid() && Appended(old(committed), old(journal), s) && writesAvailable == old(writesAvailable)
    {
      hide BlockOutcome, JournalReplays, Standing;
      FrameExtends(execute, genesis, journal, committed, s);
      assert Agrees(env, execute, committed, ProposalOf(s));
      BlockContinues(env, committed, ProposalOf(s));
      journal := journal + [s];
      appHash := Some(e.appHash);
      committed := Next(e);
    }

    /** Re-executes the block on the current tip before anything is written; `appended` is the outcome of the physical
        append. Only a successful commit changes the durable state, by exactly one block. A block built on the current
        tip from `origin` fails only if the append fails. */
    method Commit(block: Executed, appended: bool, ghost origin: Option<Proposal>)
        returns (r: Result<Receipt, PersistError>)
      requires Valid()
      modifies this
      ensures Valid()
      ensures r.Err? ==> journal == old(journal) && committed == old(committed) && appHash == old(appHash)
      ensures r.Ok? && block.header.height == old(committed.height) ==>
                journal == old(journal) && committed == old(committed) && committed.blockId == Some(block.header.id) &&
                    appHash == Some(block.appHash) &&
                r.value == Receipt(committed.height, block.header.id, block.appHash, committed.chain.stateId)
      ensures block.header.height == old(committed.height) ==>
                (r.Ok? <==> old(writesAvailable) && old(committed.height) > 0 &&
                            old(committed.blockId) == Some(block.header.id) && old(appHash) == Some(block.appHash))
      ensures block.header.height != old(committed.height) ==>
                (r.Ok? <==> old(writesAvailable) && appended && Committable(old(committed), block))
      ensures r.Ok? && block.header.height != old(committed.height) ==>
                Appended(old(committed), old(journal), StoredOf(block)) &&
                r.value == Receipt(block.header.height, block.header.id, block.appHash, block.header.resultingStateId)
      ensures writesAvailable == old(writesAvailable) || !appended
      ensures origin.Some? && execute(old(committed), origin.value) == Ok(block) ==>
                (r.Ok? <==> old(writesAvailable) && appended) &&
                writesAvailable == (old(writesAvailable) && appended) &&
                ProposalOf(StoredOf(block)) == origin.value && block.header.height != old(committed.height)
      ensures r == Err(WriteUnavailable) <==> !old(writesAvailable)
      ensures r == Err(AppendFailed) <==>
                old(writesAvailable) && block.header.height != old(committed.height) &&
                Committable(old(committed), block) && !appended
      ensures writesAvailable == (old(writesAvailable) && r != Err(AppendFailed))
    {
      hide BlockOutcome, JournalReplays, Standing, ProposalOf, Storable;
      if origin.Some? && execute(committed, origin.value) == Ok(block) {
        assert Agrees(env, execute, committed, origin.value);
        FreshBlockReplays(env, committed, origin.value);
      }
      if !writesAvailable {
        return Err(WriteUnavailable);
      }
      if block.header.height == committed.height {
        if committed.height > 0 && committed.blockId == Some(block.header.id) && appHash == Some(block.appHash) {
          return Ok(Receipt(committed.height, block.header.id, block.appHash, committed.chain.stateId));
        }
        return Err(ConflictingCommitAtHeight(committed.height));
      }
      if committed.height >= U64_MAX {
        return Err(CommitHeightOverflow);
      }
      if block.header.height != committed.height + 1 {
        return Err(UnexpectedCommitHeight(committed.height + 1, block.header.height));
      }
      var checked := ValidateBlock(env, block.header, block.records);
      if checked.Err? {
        return Err(Journal(checked.error));
      }
      var s := StoredOf(block);
      var executed := Reexecute(env, execute, committed, s);
      if executed.Err? {
        return Err(executed.error);
      }
      if !appended {
        writesAvailable := false;
        return Err(AppendFailed);
      }
      Append(s, executed.value);
      r := Ok(Receipt(block.header.height, block.header.id, block.appHash, block.header.resultingStateId));
    }
  }

  /** Opening re-executes every complete frame: it succeeds exactly on a journal that replays, and ends at its tip. */
  method Open(env: Environment, ledger: LedgerState, frames: seq<Stored>)
      returns (r: Result<PersistentExecution, PersistError>)
    requires env.Valid() && Ledger.Valid(ledger)
    ensures r.Ok? <==>
              Genesis(env, ledger).Ok? &&
              exists tip :: JournalReplays(BlockExecutor(env), Genesis(env, ledger).value, frames, tip)
    ensures r.Ok? ==>
        fresh(r.value) && r.value.Valid() && r.value.env == env && r.value.journal == frames &&
        r.value.writesAvailable && r.value.execute == BlockExecutor(env)
                      && r.value.genesis == Genesis(env, ledger).value
  {
    var genesis := Genesis(env, ledger);
    if genesis.Err? {
      return Err(ExecutionFailed(genesis.error));
    }
    GenesisStands(env, ledger);
    var execution := new PersistentExecution(env, genesis.value);
    var failed := ReplayFrames(execution, frames);
    if failed.Some? {
      return Err(failed.value);
    }
    r := Ok(execution);
  }

  method ReplayFrames(execution: PersistentExecution, frames: seq<Stored>) returns (failed: Option<PersistError>)
    requires execution.Valid() && execution.journal == []
    modifies execution
    ensures execution.Valid() && execution.writesAvailable == old(execution.writesAvailable)
    ensures failed.None? ==> execution.journal == frames
    ensures failed.Some? ==> forall tip :: !JournalReplays(execution.execute, execution.genesis, frames, tip)
  {
    hide BlockOutcome, Standing, Executes;
    for i := 0 to |frames|
      invariant execution.Valid() && execution.journal == frames[..i] &&
          execution.writesAvailable == old(execution.writesAvailable)
    {
      failed := ReplayFrame(execution, frames, i);
      if failed.Some? {
        return;
      }
    }
    assert frames[..|frames|] == frames;
    failed := None;
  }

  method ReplayFrame(execution: PersistentExecution, frames: seq<Stored>, i: nat) returns (failed: Option<PersistError>)
    requires execution.Valid() && i < |frames| && execution.journal == frames[..i]
    modifies execution
    ensures execution.Valid() && execution.writesAvailable == old(execution.writesAvailable)
    ensures failed.None? ==> execution.journal == frames[..i + 1]
    ensures failed.Some? ==> forall tip :: !JournalReplays(execution.execute, execution.genesis, frames, tip)
  {
    hide BlockOutcome, JournalReplays, Standing, Executes;
    var executed := Reexecute(execution.env, execution.execute, execution.committed, frames[i]);
    if executed.Err? {
      MismatchStops(execution.execute, execution.genesis, frames, i, execution.committed);
      return Some(executed.error);
    }
    execution.Append(frames[i], executed.value);
    assert frames[..i + 1] == frames[..i] + [frames[i]];
    failed := None;
  }

  /** If frame `i` does not re-execute to itself, the journal replays to no tip. */
  lemma MismatchStops(execute: BlockRule, genesis: Committed, frames: seq<Stored>, i: nat, tip: Committed)
    requires i < |frames| && JournalReplays(execute, genesis, frames[..i], tip)
    requires !(execute(tip, ProposalOf(frames[i])).Ok? &&
        StoredOf(execute(tip, ProposalOf(frames[i])).value) == frames[i])
    ensures forall end :: !JournalReplays(execute, genesis, frames, end)
  {
    forall end ensures !JournalReplays(execute, genesis, frames, end) {
      if JournalReplays(execute, genesis, frames, end) {
        var middle := PrefixReplays(execute, genesis, frames, i + 1, end);
        assert frames[..i + 1] == frames[..i] + [frames[i]];
        FrameReexecutes(execute, genesis, frames[..i], frames[i], tip, middle);
      }
    }
  }

  lemma {:induction false} PrefixReplays(execute: BlockRule, genesis: Committed, frames: seq<Stored>, n: nat,
      end: Committed)
    returns (middle: Committed)
    requires n <= |frames| && JournalReplays(execute, genesis, frames, end)
    ensures JournalReplays(execute, genesis, frames[..n], middle)
  {
    if n == |frames| {
      assert frames[..n] == frames;
      middle := end;
    } else {
      var shorter := frames[..|frames| - 1];
      var proposals := ProposalsOf(frames);
      assert proposals[..|frames| - 1] == ProposalsOf(shorter);
      var history := ChainWith(execute, genesis, ProposalsOf(shorter)).value;
      var blocks := ChainWith(execute, genesis, proposals).value.blocks;
      assert blocks[..|frames| - 1] == history.blocks;
      assert StoredBlocks(history.blocks) == shorter;
      assert shorter[..n] == frames[..n];
      middle := PrefixReplays(execute, genesis, shorter, n, history.tip);
    }
  }

  function JournalRecords(journal: seq<Stored>): seq<Record> {
    if journal == [] then [] else JournalRecords(journal[..|journal| - 1]) + journal[|journal| - 1].records
  }

  lemma {:induction false} JournalRecordsOf(blocks: seq<Executed>)
    ensures JournalRecords(StoredBlocks(blocks)) == AllRecords(blocks)
  {
    if blocks != [] {
      var shorter := blocks[..|blocks| - 1];
      JournalRecordsOf(shorter);
      assert StoredBlocks(blocks)[..|blocks| - 1] == StoredBlocks(shorter);
    }
  }

  /** The records of every journal that replays form one linked chain from genesis, and the ledger at its tip accounts
      for them: no nullifier, commitment or transaction identifier twice, and supply exactly as minted. */
  lemma JournalAccounts(env: Environment, ledger: LedgerState, journal: seq<Stored>, tip: Committed)
    requires env.Valid() && Ledger.Valid(ledger) && Genesis(env, ledger).Ok?
    requires JournalReplays(BlockExecutor(env), Genesis(env, ledger).value, journal, tip)
    ensures var steps := StepsOf(env, JournalRecords(journal));
            Linked(RecordChain(1, env.anchor.genesisStateId), JournalRecords(journal), tip.chain) &&
            Ledger.Valid(tip.ledger) && Accounts(ledger, tip.ledger, steps) &&
            Fresh(Nullifiers(steps), ledger.spent) && Fresh(Outputs(steps), ledger.commitments) &&
            Fresh(TransactionIds(steps), ledger.accepted)
  {
    var start := Genesis(env, ledger).value;
    ChainAccounts(env, ledger, ProposalsOf(journal));
    JournalRecordsOf(ChainOutcome(env, start, ProposalsOf(journal)).value.blocks);
  }
}
