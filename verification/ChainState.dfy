/** State identifiers along chains: with the ledger's own identifier plugged in, the identifier at a tip, in a record
    or in a header fixes the whole ledger it stands for. */
module ChainState {
  import opened Common
  import opened Bytes
  import opened Hashing
  import opened Ledger
  import opened Snapshot
  import opened StateId
  import opened Execution
  import opened Blocks
  import Merkle
  import PaddedTree

  /** The rules identify states by hashing their canonical listing. */
  ghost predicate Identifies(rules: Rules, sha: Sha) {
    forall s: LedgerState, g: Id {:trigger IdentifiesAt(rules, sha, s, g)} | s.depth <= Merkle.MAX_DEPTH ::
      IdentifiesAt(rules, sha, s, g)
  }

  ghost predicate IdentifiesAt(rules: Rules, sha: Sha, s: LedgerState, g: Id)
    requires s.depth <= Merkle.MAX_DEPTH
  {
    rules.stateId(s, g) == StateIdOf(sha, rules.hash, s, g)
  }

  ghost function ListedBytes(rules: Rules, s: LedgerState, g: Id): seq<u8>
    requires s.depth <= Merkle.MAX_DEPTH
  {
    StateBytes(g, s.depth, PaddedTree.CompleteRoot(rules.hash, s.depth, s.tree), SnapshotOf(s))
  }

  /** The bytes listed for the two states and the nodes hashed for their two trees do not collide. */
  ghost predicate Apart(rules: Rules, sha: Sha, s: LedgerState, t: LedgerState, g: Id)
    requires s.depth <= Merkle.MAX_DEPTH && t.depth <= Merkle.MAX_DEPTH
  {
    Separated(sha, ListedBytes(rules, s, g), ListedBytes(rules, t, g)) &&
    NoCollision(rules.hash,
        PaddedTree.TreeQueries(rules.hash, s.tree, s.depth, 0) + PaddedTree.TreeQueries(rules.hash, t.tree, t.depth, 0))
  }

  ghost predicate Comparable(rules: Rules, sha: Sha, s: LedgerState, t: LedgerState, g: Id) {
    Ledger.Valid(s) && Ledger.Valid(t) && Countable(SnapshotOf(s)) && Countable(SnapshotOf(t)) &&
    Apart(rules, sha, s, t, g)
  }

  /** Two committed tips that carry one state identifier hold the same ledger, commitment order included. */
  lemma TipsBind(env: Environment, sha: Sha, a: Committed, b: Committed)
    requires Identifies(env.rules, sha) && Standing(env, a) && Standing(env, b)
    requires Comparable(env.rules, sha, a.ledger, b.ledger, env.anchor.genesisId)
    requires a.chain.stateId == b.chain.stateId
    ensures a.ledger == b.ledger
  {
    var g := env.anchor.genesisId;
    assert IdentifiesAt(env.rules, sha, a.ledger, g) && IdentifiesAt(env.rules, sha, b.ledger, g);
    StateIdBinds(sha, env.rules.hash, a.ledger, b.ledger, g, g);
  }

  /** Two chains, of whatever blocks from whatever committed tips, whose last headers name one resulting state end in
      the same ledger. */
  lemma ChainsBind(env: Environment, sha: Sha, startA: Committed, startB: Committed, a: seq<Proposal>, b: seq<Proposal>)
    requires env.Valid() && Identifies(env.rules, sha) && Standing(env, startA) && Standing(env, startB)
    requires ChainOutcome(env, startA, a).Ok? && ChainOutcome(env, startB, b).Ok? && a != [] && b != []
    requires var ha, hb := ChainOutcome(env, startA, a).value, ChainOutcome(env, startB, b).value;
             Comparable(env.rules, sha, ha.tip.ledger, hb.tip.ledger, env.anchor.genesisId) &&
             |ha.blocks| == |a| && |hb.blocks| == |b| &&
             ha.blocks[|a| - 1].header.resultingStateId == hb.blocks[|b| - 1].header.resultingStateId
    ensures ChainOutcome(env, startA, a).value.tip.ledger == ChainOutcome(env, startB, b).value.tip.ledger
  {
    LastHeader(env, startA, a);
    LastHeader(env, startB, b);
    hide ChainWith, BlockOutcome;
    TipsBind(env, sha, ChainOutcome(env, startA, a).value.tip, ChainOutcome(env, startB, b).value.tip);
  }

  /** The last header of a chain names the state identifier at its tip. */
  lemma LastHeader(env: Environment, start: Committed, proposals: seq<Proposal>)
    requires env.Valid() && Standing(env, start) && proposals != [] && ChainOutcome(env, start, proposals).Ok?
    ensures var history := ChainOutcome(env, start, proposals).value;
            Standing(env, history.tip) && |history.blocks| == |proposals| &&
            history.blocks[|proposals| - 1].header.resultingStateId == history.tip.chain.stateId
  {
    ChainIsLinked(env, start, proposals);
    var history := ChainOutcome(env, start, proposals).value;
    hide ChainWith, BlockOutcome, RunOutcome, Recorded;
    var n := |proposals| - 1;
    assert LinkedBlock(ContinuesIn(env), start, proposals, history.blocks, n);
  }
}
