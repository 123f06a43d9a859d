/** What an application hash commits to: the block it seals and, through parent identifiers and record commitments,
    every block, record and transaction before it. */
module ChainHistory {
  import opened Common
  import opened Bytes
  import opened Hashing
  import opened Execution
  import opened Blocks
  import F = Finality

  /** Two executed blocks, in whatever deployments and on whatever tips, with one application hash: without a
      collision between the two hashed inputs they agree on deployment, decision, height, block, last record and
      state. */
  lemma AppHashBinds(envA: Environment, envB: Environment, tipA: Committed, tipB: Committed, p: Proposal, q: Proposal)
    requires envA.Valid() && envB.Valid() && Standing(envA, tipA) && Standing(envB, tipB)
    requires BlockOutcome(envA, tipA, p).Ok? && BlockOutcome(envB, tipB, q).Ok?
    requires var a, b := BlockOutcome(envA, tipA, p).value, BlockOutcome(envB, tipB, q).value;
             a.appHash == b.appHash && envA.appHash == envB.appHash &&
             Separated(envA.appHash, SealingInput(envA, tipA, a), SealingInput(envB, tipB, b))
    ensures envA.anchor.genesisId == envB.anchor.genesisId && envA.anchor.contextId == envB.anchor.contextId &&
            envA.config.id == envB.config.id
    ensures var a, b := BlockOutcome(envA, tipA, p).value, BlockOutcome(envB, tipB, q).value;
            p.decision == q.decision && a.header.height == b.header.height && a.header.id == b.header.id &&
            a.result.chain == b.result.chain && a.terminal == b.terminal &&
            a.header.resultingStateId == b.header.resultingStateId
  {
    BlockSeals(envA, tipA, p);
    BlockSeals(envB, tipB, q);
    BlockContinues(envA, tipA, p);
    BlockContinues(envB, tipB, q);
    hide BlockOutcome;
  }

  // ----- what a block identifier fixes

  ghost predicate RecordsApart(env: Environment, a: seq<Record>, b: seq<Record>) {
    Separated(env.commitRecords, RecordHashes(a), RecordHashes(b)) &&
    forall i | 0 <= i < |a| && i < |b| :: Separated(env.recordHash, a[i].fields, b[i].fields)
  }

  ghost predicate Hashed(env: Environment, txs: seq<seq<u8>>, records: seq<Record>) {
    |records| == |txs| && forall i | 0 <= i < |txs| :: RecordedAt(env, txs[i], records[i])
  }

  /** One commitment is a commitment to one list of records, and so to one list of transactions. */
  lemma CommitmentBinds(env: Environment, txs: seq<seq<u8>>, others: seq<seq<u8>>, a: seq<Record>, b: seq<Record>)
    requires Hashed(env, txs, a) && Hashed(env, others, b) && RecordsApart(env, a, b)
    requires env.commitRecords(RecordHashes(a)) == env.commitRecords(RecordHashes(b))
    ensures a == b && txs == others
  {
    var x, y := RecordHashes(a), RecordHashes(b);
    assert x == y;
    forall i | 0 <= i < |a| ensures a[i] == b[i] && txs[i] == others[i] {
      assert x[i] == y[i];
      assert RecordedAt(env, txs[i], a[i]) && RecordedAt(env, others[i], b[i]);
      assert Separated(env.recordHash, a[i].fields, b[i].fields);
    }
  }

  /** A header fixes the records stored under it: they continue one another from its first sequence and previous state
      to its resulting state, and without collisions no other records do. */
  lemma StoredRecordsFixed(env: Environment, h: F.Header, txs: seq<seq<u8>>, others: seq<seq<u8>>,
                           a: seq<Record>, b: seq<Record>)
    requires Storable(env, h, a) && Storable(env, h, b)
    requires Hashed(env, txs, a) && Hashed(env, others, b) && RecordsApart(env, a, b)
    ensures a == b && txs == others && |a| == h.recordCount
    ensures a == [] ==> h.previousStateId == h.resultingStateId
    ensures forall i | 0 <= i < |a| :: a[i].fields.sequence == h.firstRecordSequence + i
    ensures forall i | 0 < i < |a| :: a[i].fields.previous == a[i - 1].fields.resulting
    ensures a != [] ==> a[0].fields.previous == h.previousStateId && a[|a| - 1].fields.resulting == h.resultingStateId
  {
    CommitmentBinds(env, txs, others, a, b);
    var from := RecordChain(h.firstRecordSequence, h.previousStateId);
    if a != [] {
      assert Linked(from, a, RecordChain(h.firstRecordSequence + |a|, h.resultingStateId)) && LinkedAt(from, a, 0);
    }
    forall i | 0 <= i < |a|
      ensures a[i].fields.sequence == h.firstRecordSequence + i
      ensures a[i].fields.previous == if i == 0 then h.previousStateId else a[i - 1].fields.resulting
    {
      assert LinkedAt(from, a, i);
    }
  }

  /** The hashes taken along two chains that must not collide: headers, record commitments and records. */
  ghost predicate ChainsApart(env: Environment, a: seq<Executed>, b: seq<Executed>) {
    forall i, j | 0 <= i < |a| && 0 <= j < |b| :: BlocksApart(env, a[i], b[j])
  }

  ghost predicate BlocksApart(env: Environment, a: Executed, b: Executed) {
    Separated(env.blockId, a.header.(id := 0), b.header.(id := 0)) && RecordsApart(env, a.records, b.records)
  }

  lemma BlockIdBinds(env: Environment, tipA: Committed, tipB: Committed, p: Proposal, q: Proposal)
    requires env.Valid() && Standing(env, tipA) && Standing(env, tipB)
    requires BlockOutcome(env, tipA, p).Ok? && BlockOutcome(env, tipB, q).Ok?
    requires var a, b := BlockOutcome(env, tipA, p).value, BlockOutcome(env, tipB, q).value;
             a.header.id == b.header.id && BlocksApart(env, a, b)
    ensures var a, b := BlockOutcome(env, tipA, p).value, BlockOutcome(env, tipB, q).value;
            a.header == b.header && a.records == b.records && p.transactions == q.transactions &&
            tipA.blockId == tipB.blockId && tipA.height == tipB.height
  {
    BlockSeals(env, tipA, p);
    BlockSeals(env, tipB, q);
    BlockContinues(env, tipA, p);
    BlockContinues(env, tipB, q);
    var a, b := BlockOutcome(env, tipA, p).value, BlockOutcome(env, tipB, q).value;
    hide BlockOutcome, RecordsApart;
    assert a.header.(id := 0) == b.header.(id := 0);
    assert a.header == b.header.(id := a.header.id);
    CommitmentBinds(env, p.transactions, q.transactions, a.records, b.records);
  }

  // ----- what the last block of a chain fixes

  /** The last block of a chain, the tip it was executed on and the chain before it. */
  lemma LastBlock(env: Environment, start: Committed, proposals: seq<Proposal>)
    requires env.Valid() && Standing(env, start) && start.height == 0 && proposals != []
    requires ChainOutcome(env, start, proposals).Ok?
    ensures ChainOutcome(env, start, proposals[..|proposals| - 1]).Ok?
    ensures var n := |proposals| - 1;
            var history := ChainOutcome(env, start, proposals).value;
            var before := ChainOutcome(env, start, proposals[..n]).value;
            Standing(env, before.tip) && before.tip.height == n && |before.blocks| == n &&
            BlockOutcome(env, before.tip, proposals[n]).Ok? &&
            history.blocks == before.blocks + [BlockOutcome(env, before.tip, proposals[n]).value] &&
            history.tip == Next(BlockOutcome(env, before.tip, proposals[n]).value)
  {
    hide BlockOutcome, Standing;
    var shorter := proposals[..|proposals| - 1];
    ChainIsLinked(env, start, shorter);
    var before := ChainOutcome(env, start, shorter).value;
    HeightAt(ContinuesIn(env), start, shorter, before, |shorter|);
  }

  ghost predicate SameBlocks(a: seq<Executed>, b: seq<Executed>) {
    |a| == |b| && forall i | 0 <= i < |a| :: a[i].header == b[i].header && a[i].records == b[i].records
  }

  ghost predicate SameTransactions(a: seq<Proposal>, b: seq<Proposal>) {
    |a| == |b| && forall i | 0 <= i < |a| :: a[i].transactions == b[i].transactions
  }

  /** Without collisions, two chains from one genesis that end in one block identifier are, block by block, the same
      headers, records and transactions. */
  lemma {:induction false} BlockIdFixesChain(env: Environment, start: Committed, a: seq<Proposal>, b: seq<Proposal>)
    requires env.Valid() && Standing(env, start) && start.height == 0 && a != [] && b != []
    requires ChainOutcome(env, start, a).Ok? && ChainOutcome(env, start, b).Ok?
    requires var x, y := ChainOutcome(env, start, a).value, ChainOutcome(env, start, b).value;
             x.tip.blockId == y.tip.blockId && ChainsApart(env, x.blocks, y.blocks)
    ensures SameTransactions(a, b)
    ensures SameBlocks(ChainOutcome(env, start, a).value.blocks, ChainOutcome(env, start, b).value.blocks)
  {
    LastBlock(env, start, a);
    LastBlock(env, start, b);
    var m, n := |a| - 1, |b| - 1;
    var u, v := ChainOutcome(env, start, a[..m]).value, ChainOutcome(env, start, b[..n]).value;
    var c, d := BlockOutcome(env, u.tip, a[m]).value, BlockOutcome(env, v.tip, b[n]).value;
    ApartBefore(env, u.blocks, v.blocks, c, d);
    hide BlockOutcome, Standing, ChainOutcome, BlocksApart, ChainsApart;
    BlockIdBinds(env, u.tip, v.tip, a[m], b[n]);
    hide Next;
    if m > 0 {
      BlockIdFixesChain(env, start, a[..m], b[..n]);
    }
    SameMore(a, b, u.blocks, v.blocks, c, d);
  }

  lemma ApartBefore(env: Environment, a: seq<Executed>, b: seq<Executed>, c: Executed, d: Executed)
    requires ChainsApart(env, a + [c], b + [d])
    ensures ChainsApart(env, a, b) && BlocksApart(env, c, d)
  {
    hide BlocksApart;
    var x, y := a + [c], b + [d];
    forall i, j | 0 <= i < |a| && 0 <= j < |b| ensures BlocksApart(env, a[i], b[j]) {
      assert BlocksApart(env, x[i], y[j]);
    }
    assert BlocksApart(env, x[|a|], y[|b|]);
  }

  lemma SameMore(a: seq<Proposal>, b: seq<Proposal>, u: seq<Executed>, v: seq<Executed>, c: Executed, d: Executed)
    requires |a| == |b| > 0 && SameBlocks(u, v) && SameTransactions(a[..|a| - 1], b[..|b| - 1])
    requires a[|a| - 1].transactions == b[|b| - 1].transactions && c.header == d.header && c.records == d.records
    ensures SameTransactions(a, b) && SameBlocks(u + [c], v + [d])
  {
    forall i | 0 <= i < |a| ensures a[i].transactions == b[i].transactions {
      assert i < |a| - 1 ==> a[..|a| - 1][i].transactions == b[..|b| - 1][i].transactions;
    }
  }

  /** The hashed inputs of the two last application hashes do not collide. */
  ghost predicate SealsApart(env: Environment, tipA: Committed, a: Executed, tipB: Committed, b: Executed) {
    Separated(env.appHash, SealingInput(env, tipA, a), SealingInput(env, tipB, b))
  }

  /** Without collisions, two chains from one genesis that end in one application hash are the same chain: the same
      headers, records and transactions, block by block, the same last decision and the same ledger at the tip. */
  lemma AppHashFixesHistory(env: Environment, start: Committed, a: seq<Proposal>, b: seq<Proposal>)
    requires env.Valid() && Standing(env, start) && start.height == 0 && a != [] && b != []
    requires ChainOutcome(env, start, a).Ok? && ChainOutcome(env, start, b).Ok?
    requires var x, y := ChainOutcome(env, start, a).value, ChainOutcome(env, start, b).value;
             |x.blocks| == |a| && |y.blocks| == |b| && ChainsApart(env, x.blocks, y.blocks) &&
             x.blocks[|a| - 1].appHash == y.blocks[|b| - 1].appHash &&
             SealsApart(env, TipAt(start, x.blocks, |a| - 1), x.blocks[|a| - 1],
                        TipAt(start, y.blocks, |b| - 1), y.blocks[|b| - 1])
    ensures SameTransactions(a, b) && a[|a| - 1].decision == b[|b| - 1].decision
    ensures var x, y := ChainOutcome(env, start, a).value, ChainOutcome(env, start, b).value;
            SameBlocks(x.blocks, y.blocks) && x.tip == y.tip
  {
    LastBlock(env, start, a);
    LastBlock(env, start, b);
    LastTip(env, start, a);
    LastTip(env, start, b);
    hide BlockOutcome, Standing, ChainsApart;
    var m, n := |a| - 1, |b| - 1;
    var x, y := ChainOutcome(env, start, a).value, ChainOutcome(env, start, b).value;
    var u, v := ChainOutcome(env, start, a[..m]).value, ChainOutcome(env, start, b[..n]).value;
    AppHashBinds(env, env, u.tip, v.tip, a[m], b[n]);
    BlockIdFixesChain(env, start, a, b);
    ChainIsOneRun(env, start, a);
    ChainIsOneRun(env, start, b);
    SameAll(a, b);
  }

  lemma LastTip(env: Environment, start: Committed, proposals: seq<Proposal>)
    requires env.Valid() && Standing(env, start) && start.height == 0 && proposals != []
    requires ChainOutcome(env, start, proposals).Ok?
    ensures var n := |proposals| - 1;
            |ChainOutcome(env, start, proposals).value.blocks| == n + 1 &&
            ChainOutcome(env, start, proposals[..n]).Ok? &&
            ChainOutcome(env, start, proposals[..n]).value.tip ==
              TipAt(start, ChainOutcome(env, start, proposals).value.blocks, n)
  {
    hide BlockOutcome, Continues, Standing;
    LastBlock(env, start, proposals);
    ChainIsLinked(env, start, proposals[..|proposals| - 1]);
  }

  lemma {:induction false} SameAll(a: seq<Proposal>, b: seq<Proposal>)
    requires SameTransactions(a, b)
    ensures AllTransactions(a) == AllTransactions(b)
  {
    if a != [] {
      SameAll(a[..|a| - 1], b[..|b| - 1]);
    }
  }
}
