/** The public statement that two nullifiers of one private transfer were spent in order, and the local
    two-path witness that replays it. */
module NullifierTransition {
  import opened Common
  import opened Hashing
  import opened NodePosition
  import opened SparseTree
  import opened SparseProofs

  /** Identity of the one supported sparse-tree candidate. */
  const CANDIDATE: nat := 1

  /** The identifiers by which an intent names the state it extends. */
  datatype Binding = Binding(genesis: nat, context: nat, treeParameters: nat, noteRoot: nat, stateId: nat)

  datatype Anchor = Anchor(binding: Binding, nullifierRoot: Digest, spentCount: nat)

  /** An intent carries two different nullifiers; `rest` stands for its remaining fields. */
  datatype RawIntent = Intent(binding: Binding, first: Key, second: Key, rest: seq<nat>)
  type Intent = i: RawIntent | i.first != i.second
    witness Intent(Binding(0, 0, 0, 0, 0), Root().key, FlipBit(Root().key, 0), [])

  datatype Transition = Transition(
    candidate: nat, preStateId: nat, preRoot: Digest, preCount: nat, postRoot: Digest, postCount: nat,
    first: Key, second: Key, intentCommitment: Digest, id: nat)

  /** The two other hashes of the statement: the commitment to the whole intent, and the identifier over all other
      fields of the statement. */
  datatype StatementHashes = StatementHashes(commitIntent: RawIntent -> Digest, identify: Transition -> nat)

  datatype Witness = Witness(firstPath: seq<Digest>, secondPath: seq<Digest>)

  datatype TransitionError =
    | AnchorMismatch
    | AnchorRootMismatch
    | AnchorCountMismatch(anchor: nat, tree: nat)
    | InputAlreadySpent(index: nat)
    | CandidateMismatch
    | SpentCountMismatch
    | PostRootMismatch
    | PublicStatementMismatch
    | Tree(error: TreeError)

  function Identified(hashes: StatementHashes, t: Transition): Transition {
    t.(id := hashes.identify(t.(id := 0)))
  }

  /** The transition of an intent from the tree over `spent`: it marks the first and then the second nullifier. */
  ghost function Spending(h: Hasher, hashes: StatementHashes, spent: set<Key>, intent: RawIntent): Transition {
    Identified(hashes, Transition(
      CANDIDATE, intent.binding.stateId, TreeRoot(h, spent), |spent|,
      TreeRoot(h, spent + {intent.first} + {intent.second}), |spent| + 2,
      intent.first, intent.second, hashes.commitIntent(intent), 0))
  }

  /** Builds the public statement by checking absence and spending both nullifiers on a copy of the tree. */
  method BuildTransition(hashes: StatementHashes, anchor: Anchor, preTree: SparseTreeState, intent: Intent)
    returns (r: Result<Transition, TransitionError>)
    requires preTree.Valid() && preTree.spentCount + 2 <= U64_MAX
    ensures r.Ok? <==> anchor.binding == intent.binding
                       && anchor.nullifierRoot == TreeRoot(preTree.hasher, preTree.spent)
                       && anchor.spentCount == |preTree.spent|
                       && intent.first !in preTree.spent && intent.second !in preTree.spent
    ensures r.Ok? ==> r.value == Spending(preTree.hasher, hashes, preTree.spent, intent)
    ensures r.Ok? ==>
              r.value.candidate == 1 && r.value.first == intent.first && r.value.second == intent.second &&
              r.value.preStateId == intent.binding.stateId && r.value.preRoot == anchor.nullifierRoot &&
              r.value.preCount == anchor.spentCount && r.value.postCount == anchor.spentCount + 2 &&
              r.value.postRoot == TreeRoot(preTree.hasher, preTree.spent + {intent.first, intent.second}) &&
              r.value.intentCommitment == hashes.commitIntent(intent) &&
              r.value.id == hashes.identify(r.value.(id := 0))
    ensures r.Err? ==>
              r.error == if anchor.binding != intent.binding then AnchorMismatch
                         else if anchor.nullifierRoot != TreeRoot(preTree.hasher, preTree.spent) then AnchorRootMismatch
                         else if anchor.spentCount != |preTree.spent| then
                           AnchorCountMismatch(anchor.spentCount, |preTree.spent|)
                         else InputAlreadySpent(if intent.first in preTree.spent then 0 else 1)
  {
    if anchor.binding != intent.binding {
      return Err(AnchorMismatch);
    }
    var preRoot := preTree.CurrentRoot();
    if preRoot != anchor.nullifierRoot {
      return Err(AnchorRootMismatch);
    }
    if preTree.spentCount != anchor.spentCount {
      return Err(AnchorCountMismatch(anchor.spentCount, preTree.spentCount));
    }
    var nullifiers := [intent.first, intent.second];
    for index := 0 to 2
      invariant forall i | 0 <= i < index :: nullifiers[i] !in preTree.spent
    {
      assert index == 1 ==> nullifiers[0] !in preTree.spent;
      if preTree.IsSpent(nullifiers[index]) {
        return Err(InputAlreadySpent(index));
      }
      var proof := preTree.Prove(nullifiers[index]);
      OwnAbsence(preTree, nullifiers[index], proof);
      var absent := VerifyAbsence(preTree.hasher, preRoot, nullifiers[index], proof);
      match absent {
        case Err(e) => return Err(Tree(e));
        case Ok(_) =>
      }
    }
    assert nullifiers[0] !in preTree.spent && nullifiers[1] !in preTree.spent;
    var postTree := new SparseTreeState.Clone(preTree);
    var marked := postTree.MarkSpent(intent.first);
    match marked {
      case Err(e) => return Err(Tree(e));
      case Ok(_) =>
    }
    marked := postTree.MarkSpent(intent.second);
    match marked {
      case Err(e) => return Err(Tree(e));
      case Ok(_) =>
    }
    assert preTree.spent + {intent.first} + {intent.second} == preTree.spent + {intent.first, intent.second};
    r := Ok(Identified(hashes, Transition(
      CANDIDATE, anchor.binding.stateId, preRoot, preTree.spentCount, postTree.CurrentRoot(), postTree.spentCount,
      intent.first, intent.second, hashes.commitIntent(intent), 0)));
  }

  lemma OwnAbsence(tree: SparseTreeState, n: Key, siblings: seq<Digest>)
    requires tree.Valid() && n !in tree.spent
    requires |siblings| == DEPTH && HonestSiblings(tree.hasher, tree.spent, n, siblings, DEPTH)
    ensures VerifyAbsence(tree.hasher, TreeRoot(tree.hasher, tree.spent), n, siblings) == Ok(())
  {
    HonestPathRoots(tree.hasher, tree.spent, n, siblings);
    assert tree.spent - {n} == tree.spent;
  }

  /** Rebuilds the statement and compares every public field. */
  method RevalidateTransition(
    hashes: StatementHashes, t: Transition, anchor: Anchor, preTree: SparseTreeState, intent: Intent)
    returns (r: Result<(), TransitionError>)
    requires preTree.Valid() && preTree.spentCount + 2 <= U64_MAX
    ensures r.Ok? <==> t == Spending(preTree.hasher, hashes, preTree.spent, intent)
                       && anchor.binding == intent.binding && anchor.nullifierRoot == t.preRoot &&
                           anchor.spentCount == t.preCount
                       && intent.first !in preTree.spent && intent.second !in preTree.spent
    ensures r == Err(PublicStatementMismatch) <==>
              t != Spending(preTree.hasher, hashes, preTree.spent, intent) && anchor.binding == intent.binding &&
              anchor.nullifierRoot == TreeRoot(preTree.hasher, preTree.spent) &&
              anchor.spentCount == |preTree.spent| &&
              intent.first !in preTree.spent && intent.second !in preTree.spent
  {
    var expected := BuildTransition(hashes, anchor, preTree, intent);
    if expected.Err? {
      return Err(expected.error);
    }
    if expected.value != t {
      return Err(PublicStatementMismatch);
    }
    r := Ok(());
  }

  /** Derives the two paths: the first from the tree, the second after the first nullifier is spent. */
  method WitnessFromPreTree(preTree: SparseTreeState, intent: Intent) returns (r: Result<Witness, TransitionError>)
    requires preTree.Valid() && preTree.spentCount < U64_MAX
    ensures r.Ok? <==> intent.first !in preTree.spent && intent.second !in preTree.spent
    ensures r.Err? ==> r.error == InputAlreadySpent(if intent.first in preTree.spent then 0 else 1)
    ensures r.Ok? ==> OrderedPaths(preTree.hasher, preTree.spent, intent.first, intent.second, r.value)
  {
    if preTree.IsSpent(intent.first) {
      return Err(InputAlreadySpent(0));
    }
    var firstPath := preTree.Prove(intent.first);
    var afterFirst := new SparseTreeState.Clone(preTree);
    var marked := afterFirst.MarkSpent(intent.first);
    match marked {
      case Err(e) => return Err(Tree(e));
      case Ok(_) =>
    }
    if afterFirst.IsSpent(intent.second) {
      return Err(InputAlreadySpent(1));
    }
    var secondPath := afterFirst.Prove(intent.second);
    r := Ok(Witness(firstPath, secondPath));
  }

  /** The first path belongs to the tree over `spent`, the second to the tree after the first spend. */
  ghost predicate OrderedPaths(h: Hasher, spent: set<Key>, first: Key, second: Key, w: Witness) {
    |w.firstPath| == DEPTH && |w.secondPath| == DEPTH &&
    HonestSiblings(h, spent, first, w.firstPath, DEPTH) &&
    HonestSiblings(h, spent + {first}, second, w.secondPath, DEPTH)
  }

  /** Replays both paths against the public statement, through the root between the two spends. */
  function Revalidate(h: Hasher, w: Witness, t: Transition): Result<(), TransitionError> {
    if t.candidate != CANDIDATE then Err(CandidateMismatch)
    else if t.preCount + 2 > U64_MAX || t.postCount != t.preCount + 2 then Err(SpentCountMismatch)
    else
      var absent := VerifyAbsence(h, t.preRoot, t.first, w.firstPath);
      if absent.Err? then Err(Tree(absent.error)) else
      var middle := RootFromPath(h, t.first, LeafQuery(t.first), w.firstPath);
      if middle.Err? then Err(Tree(middle.error)) else
      var absentAfter := VerifyAbsence(h, middle.value, t.second, w.secondPath);
      if absentAfter.Err? then Err(Tree(absentAfter.error)) else
      var post := RootFromPath(h, t.second, LeafQuery(t.second), w.secondPath);
      if post.Err? then Err(Tree(post.error))
      else if post.value != t.postRoot then Err(PostRootMismatch)
      else Ok(())
  }

  /** How a replay is refused: for the candidate, then for the counts, then for the first path at the pre-root, then
      for the second at the root between, and last for the post-root. */
  lemma ReplayRefusals(h: Hasher, w: Witness, t: Transition)
    ensures var r, counted := Revalidate(h, w, t), t.postCount == t.preCount + 2 <= U64_MAX;
            var first := VerifyAbsence(h, t.preRoot, t.first, w.firstPath);
            (r == Err(CandidateMismatch) <==> t.candidate != 1) &&
            (r == Err(SpentCountMismatch) <==> t.candidate == 1 && !counted) &&
            (t.candidate == 1 && counted && first.Err? ==> r == Err(Tree(first.error))) &&
            (t.candidate == 1 && counted && first.Ok? ==>
               var middle := RootFromPath(h, t.first, LeafQuery(t.first), w.firstPath);
               middle.Ok? &&
               var second := VerifyAbsence(h, middle.value, t.second, w.secondPath);
               (second.Err? ==> r == Err(Tree(second.error))) &&
               (second.Ok? ==>
                  r == if RootFromPath(h, t.second, LeafQuery(t.second), w.secondPath) == Ok(t.postRoot) then Ok(())
                       else Err(PostRootMismatch)))
  {
    hide PathValue;
  }

  /** Completeness: the derived witness replays the transition built from the same tree. */
  lemma DerivedWitnessRevalidates(h: Hasher, hashes: StatementHashes, spent: set<Key>, intent: Intent, w: Witness)
    requires h.Valid() && |spent| + 2 <= U64_MAX
    requires intent.first !in spent && intent.second !in spent
    requires OrderedPaths(h, spent, intent.first, intent.second, w)
    ensures Revalidate(h, w, Spending(h, hashes, spent, intent)) == Ok(())
  {
    var first, second := intent.first, intent.second;
    HonestPathRoots(h, spent, first, w.firstPath);
    HonestPathRoots(h, spent + {first}, second, w.secondPath);
    assert spent - {first} == spent;
    assert spent + {first} - {second} == spent + {first};
  }

  /** The hash calls made while replaying a witness, together with those of the two trees it speaks about. */
  ghost function ReplayQueries(h: Hasher, spent: set<Key>, t: Transition, w: Witness): set<Query>
    requires |w.firstPath| == DEPTH && |w.secondPath| == DEPTH
  {
    RootQueries(h, spent) + RootQueries(h, spent + {t.first})
    + PathQueries(h, t.first, EmptyQuery, w.firstPath, DEPTH)
    + PathQueries(h, t.second, EmptyQuery, w.secondPath, DEPTH)
  }

  /** The identifier covers the whole statement. Without a collision between the two hashed statements, transitions
      built from whatever trees and intents that carry one identifier are the same transition; without one between the
      two hashed intents they are of one intent, and without one between the two trees of one spent set. */
  lemma IdentifierBinds(
    h: Hasher, g: Hasher, hashes: StatementHashes, spent: set<Key>, other: set<Key>, intent: RawIntent, also: RawIntent)
    requires var a, b := Spending(h, hashes, spent, intent), Spending(g, hashes, other, also);
             a.id == b.id && Separated(hashes.identify, a.(id := 0), b.(id := 0))
    ensures Spending(h, hashes, spent, intent) == Spending(g, hashes, other, also)
    ensures Separated(hashes.commitIntent, intent, also) ==> intent == also
    ensures h == g && NoCollision(h.hash, RootQueries(h, spent) + RootQueries(h, other)) ==> spent == other
  {
    var a, b := Spending(h, hashes, spent, intent), Spending(g, hashes, other, also);
    assert a == a.(id := 0).(id := a.id) && b == b.(id := 0).(id := b.id);
    if h == g && NoCollision(h.hash, RootQueries(h, spent) + RootQueries(h, other)) {
      RootBindsSet(h, spent, other);
    }
  }

  /** Soundness: whatever the paths, a replay accepted at the root over `spent` forces both nullifiers to be
      new and different and the post-root to be the root over `spent` with both added. */
  lemma AcceptedReplaySpendsBoth(h: Hasher, spent: set<Key>, w: Witness, t: Transition)
    requires h.Valid()
    requires |w.firstPath| == DEPTH && |w.secondPath| == DEPTH
    requires t.preRoot == TreeRoot(h, spent)
    requires Revalidate(h, w, t).Ok?
    requires NoCollision(h.hash, ReplayQueries(h, spent, t, w))
    ensures t.first !in spent && t.second !in spent && t.first != t.second
    ensures t.postRoot == TreeRoot(h, spent + {t.first, t.second})
    ensures t.postCount == t.preCount + 2
    ensures OrderedPaths(h, spent, t.first, t.second, w)
  {
    var all := ReplayQueries(h, spent, t, w);
    NoCollisionShrinks(h.hash, RootQueries(h, spent) + PathQueries(h, t.first, EmptyQuery, w.firstPath, DEPTH), all);
    AcceptedPathIsHonest(h, spent, t.first, EmptyQuery, w.firstPath);
    HonestPathRoots(h, spent, t.first, w.firstPath);
    var grown := spent + {t.first};
    NoCollisionShrinks(h.hash, RootQueries(h, grown) + PathQueries(h, t.second, EmptyQuery, w.secondPath, DEPTH), all);
    AcceptedPathIsHonest(h, grown, t.second, EmptyQuery, w.secondPath);
    HonestPathRoots(h, grown, t.second, w.secondPath);
    assert grown + {t.second} == spent + {t.first, t.second};
  }

  /** Replay is exact. From the root over `spent`, a witness of two full paths is accepted if and only if it spends
      two different new nullifiers along the tree's own paths, the second in the tree after the first, and the
      statement names the supported candidate, two more spent nullifiers and the root with both. */
  lemma ReplayDecides(h: Hasher, spent: set<Key>, w: Witness, t: Transition)
    requires h.Valid() && |w.firstPath| == DEPTH && |w.secondPath| == DEPTH && t.preRoot == TreeRoot(h, spent)
    requires NoCollision(h.hash, ReplayQueries(h, spent, t, w))
    ensures Revalidate(h, w, t).Ok? <==>
              t.candidate == 1 && t.postCount == t.preCount + 2 <= U64_MAX &&
              t.first !in spent && t.second !in spent && t.first != t.second &&
              OrderedPaths(h, spent, t.first, t.second, w) && t.postRoot == TreeRoot(h, spent + {t.first, t.second})
  {
    if Revalidate(h, w, t).Ok? {
      AcceptedReplaySpendsBoth(h, spent, w, t);
    }
    hide TreeRoot, ReplayQueries;
    if OrderedPaths(h, spent, t.first, t.second, w) && t.first !in spent && t.second !in spent + {t.first} {
      HonestPathRoots(h, spent, t.first, w.firstPath);
      HonestPathRoots(h, spent + {t.first}, t.second, w.secondPath);
      assert spent - {t.first} == spent && spent + {t.first} - {t.second} == spent + {t.first};
      assert spent + {t.first} + {t.second} == spent + {t.first, t.second};
    }
  }
}
