/** The ledger as an object: the validate-then-mutate methods over its maps, sets and tree. */
module PublicLedger {
  import opened Common
  import opened Bytes
  import opened Transactions
  import opened Ledger
  import Merkle
  import PaddedTree

  /** Inserts into a growing seen-set and stops at the first element that repeats or is already used. */
  method FindReused(xs: seq<Id>, used: set<Id>) returns (r: Option<Id>)
    ensures r == FirstReused(xs, used)
  {
    var seen: set<Id> := {};
    assert xs[0..] == xs && used + seen == used;
    for i := 0 to |xs|
      invariant FirstReused(xs, used) == FirstReused(xs[i..], used + seen)
    {
      if xs[i] in seen || xs[i] in used {
        return Some(xs[i]);
      }
      assert xs[i..][1..] == xs[i + 1..] && used + seen + {xs[i]} == used + (seen + {xs[i]});
      seen := seen + {xs[i]};
    }
    r := None;
  }

  class LedgerObject {
    const rules: Rules
    const depth: nat
    var assets: map<Id, Asset>
    var commitments: set<Id>
    var tree: seq<Id>
    var spent: set<Id>
    var supply: map<Id, nat>
    var accepted: set<Id>

    function View(): LedgerState
      reads this
    {
      LedgerState(depth, assets, commitments, tree, spent, supply, accepted)
    }

    constructor (rules: Rules, depth: nat)
      requires Merkle.MIN_DEPTH <= depth <= Merkle.MAX_DEPTH
      ensures this.rules == rules && View() == LedgerState(depth, map[], {}, [], {}, map[], {}) && Valid(View())
    {
      this.rules, this.depth := rules, depth;
      assets, commitments, tree, spent, supply, accepted := map[], {}, [], {}, map[], {};
    }

    method RegisterAsset(id: Id, asset: Asset) returns (r: Result<(), LedgerError>)
      requires Valid(View()) && TickerAllowed(asset.ticker)
      modifies this
      ensures Valid(View())
      ensures if id in old(assets) then r == Err(AssetAlreadyRegistered) && View() == old(View())
              else r.Ok? && View() == old(View()).(assets := old(assets)[id := asset])
    {
      if id in assets {
        return Err(AssetAlreadyRegistered);
      }
      assets := assets[id := asset];
      r := Ok(());
    }

    method EnsureOutputs(outputs: seq<Id>) returns (r: Option<LedgerError>)
      ensures r == CheckOutputs(View(), outputs)
    {
      if outputs == [] {
        return Some(EmptyField);
      }
      var reused := FindReused(outputs, commitments);
      if reused.Some? {
        return Some(CommitmentAlreadyExists(reused.value));
      }
      r := if |tree| + |outputs| > Merkle.Capacity(depth) then Some(TreeFull) else None;
    }

    method StateRoot() returns (root: Id)
      requires Valid(View())
      ensures root == PaddedTree.CompleteRoot(rules.hash, depth, tree)
    {
      root := PaddedTree.RootFromCommitments(rules.hash, depth, tree);
    }

    method ValidateTransfer(suite: Suite, op: Operation, context: Context) returns (r: Option<LedgerError>)
      requires Valid(View()) && op.Transfer?
      ensures r == CheckTransfer(rules, View(), suite, op, context)
      ensures r.None? <==> TransferAllowed(rules, View(), suite, op, context)
    {
      TransferDecides(rules, View(), suite, op, context);
      if op.asset !in assets {
        return Some(UnknownAsset);
      }
      if op.nullifiers == [] {
        return Some(EmptyField);
      }
      var reused := FindReused(op.nullifiers, spent);
      if reused.Some? {
        return Some(NullifierAlreadySpent(reused.value));
      }
      var outputs := EnsureOutputs(op.commitments);
      if outputs.Some? {
        return outputs;
      }
      var root := StateRoot();
      if op.proofVersion != suite.version {
        return Some(UnsupportedSuite);
      }
      var statement := TransferStatement(context, op.asset, op.nullifiers, op.commitments, root, depth);
      r := if rules.verify(statement, op.proof) then None else Some(ProofRejected);
    }

    method ValidateMint(op: Operation, context: Context) returns (r: Option<LedgerError>)
      requires Valid(View()) && op.Mint?
      ensures r == CheckMint(rules, View(), op, context)
      ensures r.None? <==> MintAllowed(rules, View(), op, context)
    {
      MintDecides(rules, View(), op, context);
      if op.asset !in assets {
        return Some(UnknownAsset);
      }
      var outputs := EnsureOutputs(op.commitments);
      if outputs.Some? {
        return outputs;
      }
      var root := StateRoot();
      var before := SupplyOf(View(), op.asset);
      var statement := MintStatement(context, op.asset, op.amount, op.commitments, root, depth, before);
      if !rules.authorize(statement, op.authorization) {
        return Some(MintDenied);
      }
      r := if Issued(View(), op.asset) + op.amount > U128_MAX then Some(SupplyOverflow) else None;
    }

    /** Builds the next tree aside and installs it only when every commitment fitted. */
    method AppendCommitments(outputs: seq<Id>) returns (r: Result<(), LedgerError>)
      requires |tree| <= Merkle.Capacity(depth)
      modifies this`tree, this`commitments
      ensures r.Ok? <==> |old(tree)| + |outputs| <= Merkle.Capacity(depth)
      ensures r.Ok? ==> tree == old(tree) + outputs && commitments == old(commitments) + Ids(outputs)
      ensures r.Err? ==> tree == old(tree) && commitments == old(commitments)
    {
      var nextTree := tree;
      for i := 0 to |outputs|
        invariant nextTree == tree + outputs[..i] && |nextTree| <= Merkle.Capacity(depth)
      {
        if |nextTree| >= Merkle.Capacity(depth) {
          return Err(TreeFull);
        }
        nextTree := nextTree + [outputs[i]];
      }
      assert outputs[..|outputs|] == outputs;
      tree := nextTree;
      commitments := commitments + Ids(outputs);
      r := Ok(());
    }

    method ValidateTransaction(t: Transaction, context: Context) returns (r: Option<LedgerError>)
      requires Valid(View())
      ensures r == Check(rules, View(), t, context)
    {
      if rules.stateId(View(), context.genesis) != context.stateId {
        return Some(ValidationStateIdMismatch);
      }
      if t.id in accepted {
        return Some(DuplicateTransaction);
      }
      if t.operation.Transfer? {
        r := ValidateTransfer(t.suite, t.operation, context);
      } else {
        r := ValidateMint(t.operation, context);
      }
    }

    method CommitPlan(t: Transaction) returns (r: Result<(), LedgerError>)
      requires |tree| <= Merkle.Capacity(depth)
      modifies this
      ensures r.Ok? <==> |old(tree)| + |t.operation.commitments| <= Merkle.Capacity(depth)
      ensures View() == if r.Ok? then Commit(old(View()), t) else old(View())
    {
      var issued := Issued(View(), t.operation.asset);
      var appended := AppendCommitments(t.operation.commitments);
      if appended.Err? {
        return appended;
      }
      if t.operation.Transfer? {
        spent := spent + Ids(t.operation.nullifiers);
      } else {
        supply := supply[t.operation.asset := issued + t.operation.amount];
      }
      accepted := accepted + {t.id};
      r := Ok(());
    }

    /** A rejected transaction changes nothing; an accepted one installs its whole plan and cannot fail midway. */
    method ApplyTransaction(t: Transaction, context: Context) returns (r: Result<(), LedgerError>)
      requires Valid(View()) && t.WellTyped()
      modifies this
      ensures Valid(View())
      ensures r.Ok? <==> Allowed(rules, old(View()), t, context)
      ensures match Apply(rules, old(View()), t, context) {
                case Ok(next) => r.Ok? && View() == next
                case Err(e) => r == Err(e) && View() == old(View())
              }
    {
      ApplyDecides(rules, View(), t, context);
      hide TransferProved, MintAuthorized, Check, Fresh;
      var rejected := ValidateTransaction(t, context);
      if rejected.Some? {
        return Err(rejected.value);
      }
      ApplyKeepsValid(rules, View(), t, context);
      r := CommitPlan(t);
    }
  }
}
