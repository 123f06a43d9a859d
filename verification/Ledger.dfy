/** The public ledger: validate a transaction completely, then commit the validated plan. */
module Ledger {
  import opened Common
  import opened Bytes
  import opened Transactions
  import Merkle
  import PaddedTree

  datatype AssetKind = NativeBacked | Synthetic

  datatype Asset = Asset(ticker: seq<u8>, kind: AssetKind)

  /** One to sixteen upper-case ASCII letters. */
  predicate TickerAllowed(ticker: seq<u8>) {
    1 <= |ticker| <= 16 && forall i | 0 <= i < |ticker| :: 65 <= ticker[i] <= 90
  }

  datatype LedgerState = LedgerState(
    depth: nat,
    assets: map<Id, Asset>,
    commitments: set<Id>,
    tree: seq<Id>,
    spent: set<Id>,
    supply: map<Id, nat>,
    accepted: set<Id>)

  datatype Context = Context(genesis: Id, contextId: Id, intentId: Id, stateId: Id)

  datatype TransferStatement = TransferStatement(
    context: Context, asset: Id, nullifiers: seq<Id>, commitments: seq<Id>, root: Id, depth: nat)

  datatype MintStatement = MintStatement(
    context: Context, asset: Id, amount: nat, commitments: seq<Id>, root: Id, depth: nat, supplyBefore: Option<nat>)

  /** The cryptographic components a deployment plugs in, and the state identifier. */
  datatype Rules = Rules(
    hash: Merkle.Hash,
    stateId: (LedgerState, Id) -> Id,
    verify: (TransferStatement, seq<u8>) -> bool,
    authorize: (MintStatement, seq<u8>) -> bool)

  datatype LedgerError =
    | ValidationStateIdMismatch | DuplicateTransaction | UnknownAsset | EmptyField
    | NullifierAlreadySpent(nullifier: Id) | CommitmentAlreadyExists(commitment: Id)
    | TreeFull | ProofRejected | UnsupportedSuite | MintDenied | SupplyOverflow | AssetAlreadyRegistered

  // ----- distinct identifiers

  function Ids(xs: seq<Id>): set<Id> {
    set x | x in xs
  }

  /** No element repeats and none is in `used`. */
  predicate Fresh(xs: seq<Id>, used: set<Id>) {
    (forall i, j | 0 <= i < j < |xs| :: xs[i] != xs[j]) && (forall i | 0 <= i < |xs| :: xs[i] !in used)
  }

  /** The first element that repeats or is already used. */
  function FirstReused(xs: seq<Id>, used: set<Id>): Option<Id> {
    if xs == [] then None
    else if xs[0] in used then Some(xs[0])
    else FirstReused(xs[1..], used + {xs[0]})
  }

  lemma {:induction false} FirstReusedDecides(xs: seq<Id>, used: set<Id>)
    ensures FirstReused(xs, used).None? <==> Fresh(xs, used)
  {
    if xs != [] {
      FirstReusedDecides(xs[1..], used + {xs[0]});
      assert xs == [xs[0]] + xs[1..];
      if Fresh(xs[1..], used + {xs[0]}) && xs[0] !in used {
        forall i | 0 <= i < |xs| ensures xs[i] !in used {
          assert i > 0 ==> xs[1..][i - 1] !in used + {xs[0]};
        }
        forall i, j | 0 <= i < j < |xs| ensures xs[i] != xs[j] {
          assert xs[1..][j - 1] !in used + {xs[0]};
          assert i > 0 ==> xs[1..][i - 1] != xs[1..][j - 1];
        }
      }
    }
  }

  /** `x` stands at `i`, is used there already, and everything before it is fresh. */
  ghost predicate ReusedAt(xs: seq<Id>, used: set<Id>, i: nat, x: Id) {
    i < |xs| && xs[i] == x && (x in used || x in xs[..i]) && Fresh(xs[..i], used)
  }

  lemma FreshCons(x: Id, xs: seq<Id>, used: set<Id>)
    requires x !in used && Fresh(xs, used + {x})
    ensures Fresh([x] + xs, used)
  {
    forall i, j | 0 <= i < j < |[x] + xs| ensures ([x] + xs)[i] != ([x] + xs)[j] {
      assert xs[j - 1] !in used + {x};
    }
  }

  /** What is reported is the first element that repeats or was used before. */
  lemma {:induction false} FirstReusedIsFirst(xs: seq<Id>, used: set<Id>)
    requires FirstReused(xs, used).Some?
    ensures exists i :: ReusedAt(xs, used, i, FirstReused(xs, used).value)
  {
    if xs[0] in used {
      assert ReusedAt(xs, used, 0, xs[0]);
    } else {
      var rest, x := xs[1..], FirstReused(xs, used).value;
      FirstReusedIsFirst(rest, used + {xs[0]});
      var i: nat :| ReusedAt(rest, used + {xs[0]}, i, x);
      FreshCons(xs[0], rest[..i], used);
      assert xs[..i + 1] == [xs[0]] + rest[..i];
      assert ReusedAt(xs, used, i + 1, x);
    }
  }

  // ----- validation

  function CheckOutputs(s: LedgerState, outputs: seq<Id>): Option<LedgerError> {
    if outputs == [] then Some(EmptyField)
    else match FirstReused(outputs, s.commitments)
      case Some(c) => Some(CommitmentAlreadyExists(c))
      case None => if |s.tree| + |outputs| > Merkle.Capacity(s.depth) then Some(TreeFull) else None
  }

  function CheckTransfer(rules: Rules, s: LedgerState, suite: Suite, op: Operation,
      context: Context): Option<LedgerError>
    requires op.Transfer?
  {
    if op.asset !in s.assets then Some(UnknownAsset)
    else if op.nullifiers == [] then Some(EmptyField)
    else match FirstReused(op.nullifiers, s.spent)
      case Some(n) => Some(NullifierAlreadySpent(n))
      case None =>
        match CheckOutputs(s, op.commitments)
        case Some(e) => Some(e)
        case None =>
          if op.proofVersion != suite.version then Some(UnsupportedSuite)
          else if !rules.verify(TransferStatementOf(rules, s, op, context), op.proof) then Some(ProofRejected)
          else None
  }

  function TransferStatementOf(rules: Rules, s: LedgerState, op: Operation, context: Context): TransferStatement
    requires op.Transfer?
  {
    TransferStatement(context, op.asset, op.nullifiers, op.commitments,
                      PaddedTree.CompleteRoot(rules.hash, s.depth, s.tree), s.depth)
  }

  function SupplyOf(s: LedgerState, asset: Id): Option<nat> {
    if asset in s.supply then Some(s.supply[asset]) else None
  }

  function Issued(s: LedgerState, asset: Id): nat {
    if asset in s.supply then s.supply[asset] else 0
  }

  function MintStatementOf(rules: Rules, s: LedgerState, op: Operation, context: Context): MintStatement
    requires op.Mint?
  {
    MintStatement(context, op.asset, op.amount, op.commitments,
                  PaddedTree.CompleteRoot(rules.hash, s.depth, s.tree), s.depth, SupplyOf(s, op.asset))
  }

  function CheckMint(rules: Rules, s: LedgerState, op: Operation, context: Context): Option<LedgerError>
    requires op.Mint?
  {
    if op.asset !in s.assets then Some(UnknownAsset)
    else match CheckOutputs(s, op.commitments)
      case Some(e) => Some(e)
      case None =>
        if !rules.authorize(MintStatementOf(rules, s, op, context), op.authorization) then Some(MintDenied)
        else if Issued(s, op.asset) + op.amount > U128_MAX then Some(SupplyOverflow)
        else None
  }

  function Check(rules: Rules, s: LedgerState, t: Transaction, context: Context): Option<LedgerError> {
    if rules.stateId(s, context.genesis) != context.stateId then Some(ValidationStateIdMismatch)
    else if t.id in s.accepted then Some(DuplicateTransaction)
    else match t.operation
      case Transfer(_, _, _, _, _) => CheckTransfer(rules, s, t.suite, t.operation, context)
      case Mint(_, _, _, _) => CheckMint(rules, s, t.operation, context)
  }

  // ----- commitment

  function Commit(s: LedgerState, t: Transaction): LedgerState {
    var outputs := t.operation.commitments;
    var placed := s.(tree := s.tree + outputs, commitments := s.commitments + Ids(outputs),
        accepted := s.accepted + {t.id});
    match t.operation
    case Transfer(_, nullifiers, _, _, _) => placed.(spent := s.spent + Ids(nullifiers))
    case Mint(asset, amount, _, _) => placed.(supply := s.supply[asset := Issued(s, asset) + amount])
  }

  /** One transition: the committed plan, or the first failed check. */
  function Apply(rules: Rules, s: LedgerState, t: Transaction, context: Context): Result<LedgerState, LedgerError> {
    match Check(rules, s, t, context)
    case Some(e) => Err(e)
    case None => Ok(Commit(s, t))
  }

  // ----- what every transition keeps

  /** The tree holds each commitment once, within its capacity; supply is positive, bounded and of known assets. */
  ghost predicate Valid(s: LedgerState) {
    Merkle.MIN_DEPTH <= s.depth <= Merkle.MAX_DEPTH && |s.tree| <= Merkle.Capacity(s.depth) &&
    Fresh(s.tree, {}) && s.commitments == Ids(s.tree) &&
    s.supply.Keys <= s.assets.Keys &&
    (forall a | a in s.supply :: 0 < s.supply[a] <= U128_MAX) &&
    (forall a | a in s.assets :: TickerAllowed(s.assets[a].ticker))
  }

  /** Fresh elements appended to fresh elements stay fresh. */
  lemma FreshGrow(xs: seq<Id>, used: set<Id>, ys: seq<Id>)
    requires Fresh(xs, used) && Fresh(ys, used + Ids(xs))
    ensures Fresh(xs + ys, used) && Ids(xs + ys) == Ids(xs) + Ids(ys)
  {
    forall i, j | 0 <= i < j < |xs + ys| ensures (xs + ys)[i] != (xs + ys)[j] {
      if i < |xs| <= j {
        assert ys[j - |xs|] !in used + Ids(xs) && xs[i] in Ids(xs);
      }
    }
  }

  /** The outputs can be appended: there are some, none was used before or twice, and the tree has room for all. */
  ghost predicate OutputsAllowed(s: LedgerState, outputs: seq<Id>) {
    outputs != [] && Fresh(outputs, s.commitments) && |s.tree| + |outputs| <= Merkle.Capacity(s.depth)
  }

  /** Everything a transfer must meet, with the statement its proof is verified against. */
  ghost predicate TransferAllowed(rules: Rules, s: LedgerState, suite: Suite, op: Operation, context: Context)
    requires op.Transfer?
  {
    op.asset in s.assets && op.nullifiers != [] && Fresh(op.nullifiers, s.spent) && OutputsAllowed(s, op.commitments) &&
    op.proofVersion == suite.version && TransferProved(rules, s, op, context)
  }

  ghost predicate TransferProved(rules: Rules, s: LedgerState, op: Operation, context: Context)
    requires op.Transfer?
  {
    rules.verify(
      TransferStatement(context, op.asset, op.nullifiers, op.commitments,
                        PaddedTree.CompleteRoot(rules.hash, s.depth, s.tree), s.depth),
      op.proof)
  }

  /** Everything a mint must meet, with the statement its authorization is asked about. */
  ghost predicate MintAllowed(rules: Rules, s: LedgerState, op: Operation, context: Context)
    requires op.Mint?
  {
    op.asset in s.assets && OutputsAllowed(s, op.commitments) && MintAuthorized(rules, s, op, context) &&
    (op.asset in s.supply ==> s.supply[op.asset] + op.amount <= U128_MAX) && op.amount <= U128_MAX
  }

  ghost predicate MintAuthorized(rules: Rules, s: LedgerState, op: Operation, context: Context)
    requires op.Mint?
  {
    rules.authorize(
      MintStatement(context, op.asset, op.amount, op.commitments,
                    PaddedTree.CompleteRoot(rules.hash, s.depth, s.tree), s.depth,
                    if op.asset in s.supply then Some(s.supply[op.asset]) else None),
      op.authorization)
  }

  lemma TransferDecides(rules: Rules, s: LedgerState, suite: Suite, op: Operation, context: Context)
    requires op.Transfer?
    ensures CheckTransfer(rules, s, suite, op, context).None? <==> TransferAllowed(rules, s, suite, op, context)
  {
    FirstReusedDecides(op.commitments, s.commitments);
    FirstReusedDecides(op.nullifiers, s.spent);
  }

  lemma MintDecides(rules: Rules, s: LedgerState, op: Operation, context: Context)
    requires op.Mint?
    ensures CheckMint(rules, s, op, context).None? <==> MintAllowed(rules, s, op, context)
  {
    FirstReusedDecides(op.commitments, s.commitments);
  }

  /** The context names the ledger's own state, the transaction identifier is new and the operation is allowed. */
  ghost predicate Allowed(rules: Rules, s: LedgerState, t: Transaction, context: Context) {
    rules.stateId(s, context.genesis) == context.stateId && t.id !in s.accepted &&
    match t.operation
    case Transfer(_, _, _, _, _) => TransferAllowed(rules, s, t.suite, t.operation, context)
    case Mint(_, _, _, _) => MintAllowed(rules, s, t.operation, context)
  }

  /** Which transactions the ledger accepts: exactly the allowed ones. No other reason refuses. */
  lemma ApplyDecides(rules: Rules, s: LedgerState, t: Transaction, context: Context)
    ensures Apply(rules, s, t, context).Ok? <==> Allowed(rules, s, t, context)
  {
    match t.operation {
      case Transfer(_, _, _, _, _) => TransferDecides(rules, s, t.suite, t.operation, context);
      case Mint(_, _, _, _) => MintDecides(rules, s, t.operation, context);
    }
  }

  /** The checks before any operation come first, then the asset; a state mismatch hides everything else. */
  lemma RefusedBefore(rules: Rules, s: LedgerState, t: Transaction, context: Context)
    ensures var r, stands := Apply(rules, s, t, context), rules.stateId(s, context.genesis) == context.stateId;
            (r == Err(ValidationStateIdMismatch) <==> !stands) &&
            (r == Err(DuplicateTransaction) <==> stands && t.id in s.accepted) &&
            (r == Err(UnknownAsset) <==> stands && t.id !in s.accepted && t.operation.asset !in s.assets)
  {
    hide Commit, TransferStatementOf, MintStatementOf, FirstReused;
  }

  /** The refusals of a transfer of a registered asset, each exactly when all earlier checks pass and its own fails.
      */
  lemma TransferRefusals(rules: Rules, s: LedgerState, suite: Suite, op: Operation, context: Context)
    requires op.Transfer? && op.asset in s.assets
    ensures var e, spendable := CheckTransfer(rules, s, suite, op, context), Fresh(op.nullifiers, s.spent);
            (e == Some(EmptyField) <==> op.nullifiers == [] || (spendable && op.commitments == [])) &&
            (e.Some? && e.value.NullifierAlreadySpent? <==> !spendable) &&
            (!spendable ==> exists i :: ReusedAt(op.nullifiers, s.spent, i, e.value.nullifier)) &&
            (e == Some(UnsupportedSuite) <==>
               op.nullifiers != [] && spendable && OutputsAllowed(s, op.commitments) &&
               op.proofVersion != suite.version) &&
            (e == Some(ProofRejected) <==>
               op.nullifiers != [] && spendable && OutputsAllowed(s, op.commitments) &&
               op.proofVersion == suite.version && !TransferProved(rules, s, op, context)) &&
            (op.nullifiers != [] && spendable ==> OutputRefusals(s, op.commitments, e))
  {
    FirstReusedDecides(op.nullifiers, s.spent);
    if FirstReused(op.nullifiers, s.spent).Some? {
      FirstReusedIsFirst(op.nullifiers, s.spent);
    }
    OutputsRefused(s, op.commitments);
    hide FirstReused, ReusedAt, Fresh;
  }

  /** How unusable outputs are refused: none, then the first one used before, then a full tree. */
  ghost predicate OutputRefusals(s: LedgerState, outputs: seq<Id>, e: Option<LedgerError>) {
    (outputs == [] ==> e == Some(EmptyField)) &&
    (e.Some? && e.value.CommitmentAlreadyExists? <==> !Fresh(outputs, s.commitments)) &&
    (!Fresh(outputs, s.commitments) ==> exists i :: ReusedAt(outputs, s.commitments, i, e.value.commitment)) &&
    (e == Some(TreeFull) <==>
       outputs != [] && Fresh(outputs, s.commitments) && |s.tree| + |outputs| > Merkle.Capacity(s.depth))
  }

  lemma OutputsRefused(s: LedgerState, outputs: seq<Id>)
    ensures OutputRefusals(s, outputs, CheckOutputs(s, outputs))
    ensures CheckOutputs(s, outputs).None? <==> OutputsAllowed(s, outputs)
    ensures CheckOutputs(s, outputs) == Some(EmptyField) <==> outputs == []
  {
    FirstReusedDecides(outputs, s.commitments);
    if FirstReused(outputs, s.commitments).Some? {
      FirstReusedIsFirst(outputs, s.commitments);
    }
  }

  /** The refusals of a mint of a registered asset. */
  lemma MintRefusals(rules: Rules, s: LedgerState, op: Operation, context: Context)
    requires op.Mint? && op.asset in s.assets
    ensures var e := CheckMint(rules, s, op, context);
            (e == Some(EmptyField) <==> op.commitments == []) && OutputRefusals(s, op.commitments, e) &&
            (e == Some(MintDenied) <==> OutputsAllowed(s, op.commitments) && !MintAuthorized(rules, s, op, context)) &&
            (e == Some(SupplyOverflow) <==>
               OutputsAllowed(s, op.commitments) && MintAuthorized(rules, s, op, context) &&
               Issued(s, op.asset) + op.amount > U128_MAX)
  {
    OutputsRefused(s, op.commitments);
    hide FirstReused, ReusedAt, Fresh;
  }

  lemma ApplyKeepsValid(rules: Rules, s: LedgerState, t: Transaction, context: Context)
    requires Valid(s) && t.WellTyped() && Apply(rules, s, t, context).Ok?
    ensures Valid(Apply(rules, s, t, context).value)
  {
    ApplyDecides(rules, s, t, context);
    assert {} + Ids(s.tree) == Ids(s.tree);
    FreshGrow(s.tree, {}, t.operation.commitments);
  }

  // ----- whole runs

  datatype Step = Step(transaction: Transaction, context: Context)

  /** Applies the steps in order; the run stops at the first rejection. */
  function Run(rules: Rules, start: LedgerState, steps: seq<Step>): Result<LedgerState, LedgerError> {
    if steps == [] then Ok(start)
    else
      var s :- Run(rules, start, steps[..|steps| - 1]);
      Apply(rules, s, steps[|steps| - 1].transaction, steps[|steps| - 1].context)
  }

  function Nullifiers(steps: seq<Step>): seq<Id> {
    if steps == [] then []
    else
      var op := steps[|steps| - 1].transaction.operation;
      Nullifiers(steps[..|steps| - 1]) + if op.Transfer? then op.nullifiers else []
  }

  function Outputs(steps: seq<Step>): seq<Id> {
    if steps == [] then []
    else Outputs(steps[..|steps| - 1]) + steps[|steps| - 1].transaction.operation.commitments
  }

  function TransactionIds(steps: seq<Step>): seq<Id> {
    if steps == [] then [] else TransactionIds(steps[..|steps| - 1]) + [steps[|steps| - 1].transaction.id]
  }

  function Minted(steps: seq<Step>, asset: Id): nat {
    if steps == [] then 0
    else
      var op := steps[|steps| - 1].transaction.operation;
      Minted(steps[..|steps| - 1], asset) + if op.Mint? && op.asset == asset then op.amount else 0
  }

  ghost predicate WellTypedSteps(steps: seq<Step>) {
    forall i | 0 <= i < |steps| :: steps[i].transaction.WellTyped()
  }

  /** What a completed run did to the state, component by component. */
  ghost predicate Accounts(start: LedgerState, end: LedgerState, steps: seq<Step>) {
    end.depth == start.depth && end.assets == start.assets &&
    end.tree == start.tree + Outputs(steps) &&
    end.spent == start.spent + Ids(Nullifiers(steps)) &&
    end.accepted == start.accepted + Ids(TransactionIds(steps)) &&
    forall asset :: Issued(end, asset) == Issued(start, asset) + Minted(steps, asset)
  }

  /** Over every run: the state stays valid, every nullifier, commitment and transaction ID is used by one
      accepted transaction only and was unused before, and supply is what was there plus what was minted. */
  lemma {:induction false} RunAccounts(rules: Rules, start: LedgerState, steps: seq<Step>)
    requires Valid(start) && WellTypedSteps(steps) && Run(rules, start, steps).Ok?
    ensures var end := Run(rules, start, steps).value;
            Valid(end) && Accounts(start, end, steps) &&
            Fresh(Nullifiers(steps), start.spent) &&
            Fresh(Outputs(steps), start.commitments) &&
            Fresh(TransactionIds(steps), start.accepted)
  {
    if steps == [] {
      EmptyRunAccounts(start);
    } else {
      var before, last := steps[..|steps| - 1], steps[|steps| - 1];
      RunLast(rules, start, before, last);
      assert steps == before + [last];
      hide *;
      RunAccounts(rules, start, before);
      var s := Run(rules, start, before).value;
      ApplyKeepsValid(rules, s, last.transaction, last.context);
      RunStep(rules, start, s, before, last);
    }
  }

  lemma RunLast(rules: Rules, start: LedgerState, before: seq<Step>, last: Step)
    requires WellTypedSteps(before + [last]) && Run(rules, start, before + [last]).Ok?
    ensures WellTypedSteps(before) && last.transaction.WellTyped() && Run(rules, start, before).Ok?
    ensures Apply(rules, Run(rules, start, before).value, last.transaction, last.context) ==
            Run(rules, start, before + [last])
  {
    hide Apply;
    assert (before + [last])[..|before|] == before && (before + [last])[|before|] == last;
    forall i | 0 <= i < |before| ensures before[i].transaction.WellTyped() {
      assert (before + [last])[i] == before[i];
    }
  }

  lemma EmptyRunAccounts(start: LedgerState)
    ensures Accounts(start, start, [])
    ensures Fresh(Nullifiers([]), start.spent) && Fresh(Outputs([]), start.commitments)
    ensures Fresh(TransactionIds([]), start.accepted)
  {
    assert start.tree + [] == start.tree;
  }

  lemma LastStep(before: seq<Step>, last: Step)
    ensures var steps, op := before + [last], last.transaction.operation;
            Outputs(steps) == Outputs(before) + op.commitments &&
            Nullifiers(steps) == Nullifiers(before) + (if op.Transfer? then op.nullifiers else []) &&
            TransactionIds(steps) == TransactionIds(before) + [last.transaction.id] &&
            forall a :: Minted(steps, a) == Minted(before, a) + if op.Mint? && op.asset == a then op.amount else 0
  {
    var steps := before + [last];
    assert steps[..|steps| - 1] == before;
  }

  lemma RunStep(rules: Rules, start: LedgerState, s: LedgerState, before: seq<Step>, last: Step)
    requires Accounts(start, s, before) && Valid(s) && Valid(start)
    requires Fresh(Nullifiers(before), start.spent) && Fresh(Outputs(before), start.commitments)
    requires Fresh(TransactionIds(before), start.accepted)
    requires Apply(rules, s, last.transaction, last.context).Ok?
    ensures var steps, end := before + [last], Apply(rules, s, last.transaction, last.context).value;
            Accounts(start, end, steps) && Fresh(Nullifiers(steps), start.spent) &&
            Fresh(Outputs(steps), start.commitments) && Fresh(TransactionIds(steps), start.accepted)
  {
    hide Fresh, Outputs, Nullifiers, TransactionIds, Minted;
    var op := last.transaction.operation;
    LastStep(before, last);
    ApplyDecides(rules, s, last.transaction, last.context);
    FreshGrow(TransactionIds(before), start.accepted, [last.transaction.id]);
    IdsAppend(start.tree, Outputs(before));
    FreshGrow(Outputs(before), start.commitments, op.commitments);
    StepAccounts(start, s, before, last);
    if op.Transfer? {
      FreshGrow(Nullifiers(before), start.spent, op.nullifiers);
    } else {
      assert Nullifiers(before) + [] == Nullifiers(before);
    }
  }

  lemma StepAccounts(start: LedgerState, s: LedgerState, before: seq<Step>, last: Step)
    requires Accounts(start, s, before)
    ensures Accounts(start, Commit(s, last.transaction), before + [last])
  {
    var op := last.transaction.operation;
    LastStep(before, last);
    hide Outputs, Nullifiers, TransactionIds, Minted;
    assert s.tree + op.commitments == start.tree + (Outputs(before) + op.commitments);
    IdsAppend(Nullifiers(before), if op.Transfer? then op.nullifiers else []);
    IdsAppend(TransactionIds(before), [last.transaction.id]);
  }

  lemma IdsAppend(xs: seq<Id>, ys: seq<Id>)
    ensures Ids(xs + ys) == Ids(xs) + Ids(ys)
  {
  }
}
