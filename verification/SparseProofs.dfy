/** Inclusion and absence proofs of the sparse nullifier tree: what verification accepts for the tree's own
    paths, and what it can accept for any path at all when the hash calls involved do not collide. */
module SparseProofs {
  import opened Common
  import opened Hashing
  import opened NodePosition
  import opened SparseTree

  function RootFromPath(h: Hasher, n: Key, leaf: Query, siblings: seq<Digest>): Result<Digest, TreeError> {
    if |siblings| != DEPTH then Err(InvalidPathLength(|siblings|, DEPTH))
    else if !AllCanonical(siblings) then Err(NonCanonicalDigest)
    else Ok(PathValue(h, n, leaf, siblings, DEPTH))
  }

  predicate AllCanonical(siblings: seq<Digest>) {
    forall i | 0 <= i < |siblings| :: Canonical(siblings[i])
  }

  /** Rebuilds a root from a leaf-to-root sibling path, rejecting the first non-canonical sibling. */
  method RebuildRoot(h: Hasher, n: Key, leaf: Query, siblings: seq<Digest>) returns (r: Result<Digest, TreeError>)
    requires h.Valid()
    ensures r == RootFromPath(h, n, leaf, siblings)
    ensures r.Ok? <==> |siblings| == 512 && forall i | 0 <= i < 512 :: Canonical(siblings[i])
    ensures |siblings| != 512 ==> r == Err(InvalidPathLength(|siblings|, 512))
    ensures |siblings| == 512 && r.Err? ==> r.error == NonCanonicalDigest
    ensures r.Ok? ==> Canonical(r.value)
  {
    if |siblings| != DEPTH {
      return Err(InvalidPathLength(|siblings|, DEPTH));
    }
    var current := h.hash(leaf);
    for level := 0 to DEPTH
      invariant current == PathValue(h, n, leaf, siblings, level)
      invariant AllCanonical(siblings[..level])
    {
      var sibling := siblings[level];
      if !Canonical(sibling) {
        return Err(NonCanonicalDigest);
      }
      current := if n[level] then h.Node(sibling, current) else h.Node(current, sibling);
    }
    assert siblings[..DEPTH] == siblings;
    assert Canonical(h.hash(PathQuery(h, n, leaf, siblings, DEPTH - 1)));
    r := Ok(current);
  }

  function Check(computed: Result<Digest, TreeError>, root: Digest): Result<(), TreeError> {
    match computed
    case Err(e) => Err(e)
    case Ok(value) => if value == root then Ok(()) else Err(RootMismatch)
  }

  function VerifyInclusion(h: Hasher, root: Digest, n: Key, siblings: seq<Digest>): Result<(), TreeError> {
    Check(RootFromPath(h, n, LeafQuery(n), siblings), root)
  }

  function VerifyAbsence(h: Hasher, root: Digest, n: Key, siblings: seq<Digest>): Result<(), TreeError> {
    Check(RootFromPath(h, n, EmptyQuery, siblings), root)
  }

  /** How a path is refused: for its length, then for a digest that is not canonical, then for its root. */
  lemma PathRefusals(h: Hasher, root: Digest, n: Key, siblings: seq<Digest>)
    ensures forall leaf | leaf == LeafQuery(n) || leaf == EmptyQuery ::
              var r, canonical := Check(RootFromPath(h, n, leaf, siblings), root), AllCanonical(siblings);
              (r == Err(InvalidPathLength(|siblings|, 512)) <==> |siblings| != 512) &&
              (r == Err(NonCanonicalDigest) <==> |siblings| == 512 && !canonical) &&
              (r == Err(RootMismatch) <==>
                 |siblings| == 512 && canonical && PathValue(h, n, leaf, siblings, 512) != root) &&
              (r == Ok(()) <==> |siblings| == 512 && canonical && PathValue(h, n, leaf, siblings, 512) == root)
    ensures VerifyInclusion(h, root, n, siblings) == Check(RootFromPath(h, n, LeafQuery(n), siblings), root)
    ensures VerifyAbsence(h, root, n, siblings) == Check(RootFromPath(h, n, EmptyQuery, siblings), root)
  {
    hide PathValue;
  }

  // ----- completeness: the tree's own paths

  lemma HonestCanonical(h: Hasher, spent: set<Key>, n: Key, siblings: seq<Digest>)
    requires h.Valid() && |siblings| == DEPTH && HonestSiblings(h, spent, n, siblings, DEPTH)
    ensures AllCanonical(siblings)
  {
    forall i | 0 <= i < DEPTH ensures Canonical(siblings[i]) {
      TreeValueHashed(h, spent, i, FlipBit(AncestorKey(n, i), i));
    }
  }

  lemma TreeValueHashed(h: Hasher, spent: set<Key>, height: nat, key: Key)
    requires h.Valid() && height <= DEPTH
    ensures Canonical(TreeValue(h, spent, height, key))
  {
    if height == 0 {
      assert Canonical(h.hash(LeafQueryFor(spent, key)));
    } else {
      assert Canonical(h.hash(NodeQuery(TreeValue(h, spent, height - 1, key),
                                        TreeValue(h, spent, height - 1, FlipBit(key, height - 1)))));
    }
  }

  /** The path of `n` in the tree over `spent` rebuilds the root over `spent` without and with `n`. */
  lemma HonestPathRoots(h: Hasher, spent: set<Key>, n: Key, siblings: seq<Digest>)
    requires h.Valid() && |siblings| == DEPTH && HonestSiblings(h, spent, n, siblings, DEPTH)
    ensures RootFromPath(h, n, EmptyQuery, siblings) == Ok(TreeRoot(h, spent - {n}))
    ensures RootFromPath(h, n, LeafQuery(n), siblings) == Ok(TreeRoot(h, spent + {n}))
  {
    HonestCanonical(h, spent, n, siblings);
    AncestorWalk(n, DEPTH);
    PathRebuildsTree(h, spent, spent - {n}, n, siblings, DEPTH);
    PathRebuildsTree(h, spent, spent + {n}, n, siblings, DEPTH);
  }

  // ----- the hash calls behind a tree and a path

  ghost function TreeQueries(h: Hasher, spent: set<Key>, height: nat, key: Key): set<Query>
    requires height <= DEPTH
  {
    if height == 0 then {LeafQueryFor(spent, key)}
    else
      var right := FlipBit(key, height - 1);
      {NodeQuery(TreeValue(h, spent, height - 1, key), TreeValue(h, spent, height - 1, right))}
      + TreeQueries(h, spent, height - 1, key) + TreeQueries(h, spent, height - 1, right)
  }

  ghost function PathQueries(h: Hasher, n: Key, leaf: Query, siblings: seq<Digest>, level: nat): set<Query>
    requires level <= |siblings| && level <= DEPTH
  {
    if level == 0 then {leaf}
    else {PathQuery(h, n, leaf, siblings, level - 1)} + PathQueries(h, n, leaf, siblings, level - 1)
  }

  ghost function RootQueries(h: Hasher, spent: set<Key>): set<Query> {
    TreeQueries(h, spent, DEPTH, Root().key)
  }

  /** The two children hashed for the ancestor of `n` at `level`. */
  ghost function ParentQuery(h: Hasher, spent: set<Key>, n: Key, level: nat): Query
    requires 0 < level <= DEPTH
  {
    var up := AncestorKey(n, level);
    NodeQuery(TreeValue(h, spent, level - 1, up), TreeValue(h, spent, level - 1, FlipBit(up, level - 1)))
  }

  /** The last query of a path and of a subtree, and all those below, are among their queries. */
  lemma QueriesBelow(h: Hasher, spent: set<Key>, n: Key, leaf: Query, siblings: seq<Digest>, level: nat)
    requires 0 < level <= |siblings| && level <= DEPTH
    ensures PathQuery(h, n, leaf, siblings, level - 1) in PathQueries(h, n, leaf, siblings, level)
    ensures PathQueries(h, n, leaf, siblings, level - 1) <= PathQueries(h, n, leaf, siblings, level)
    ensures ParentQuery(h, spent, n, level) in TreeQueries(h, spent, level, AncestorKey(n, level))
    ensures TreeQueries(h, spent, level - 1, AncestorKey(n, level - 1)) <=
            TreeQueries(h, spent, level, AncestorKey(n, level))
    ensures TreeValue(h, spent, level, AncestorKey(n, level)) == h.hash(ParentQuery(h, spent, n, level))
    ensures PathValue(h, n, leaf, siblings, level) == h.hash(PathQuery(h, n, leaf, siblings, level - 1))
  {
    AncestorStep(n, level - 1);
    hide AncestorKey, FlipBit;
  }

  /** Equal queries one level up have equal values below and the tree's sibling beside. */
  lemma QueryBinds(h: Hasher, spent: set<Key>, n: Key, leaf: Query, siblings: seq<Digest>, level: nat)
    requires 0 < level <= |siblings| && level <= DEPTH
    requires PathQuery(h, n, leaf, siblings, level - 1) == ParentQuery(h, spent, n, level)
    ensures PathValue(h, n, leaf, siblings, level - 1) == TreeValue(h, spent, level - 1, AncestorKey(n, level - 1))
    ensures siblings[level - 1] == SiblingValue(h, spent, n, level - 1)
  {
    AncestorStep(n, level - 1);
    hide AncestorKey, TreeValue, PathValue;
  }

  /** Soundness step: a path that reaches the tree's value must carry the tree's siblings and leaf. */
  lemma {:induction false} PathBinds(
    h: Hasher, spent: set<Key>, n: Key, leaf: Query, siblings: seq<Digest>, level: nat, queries: set<Query>)
    requires level <= |siblings| && level <= DEPTH
    requires PathValue(h, n, leaf, siblings, level) == TreeValue(h, spent, level, AncestorKey(n, level))
    requires TreeQueries(h, spent, level, AncestorKey(n, level)) <= queries
    requires PathQueries(h, n, leaf, siblings, level) <= queries
    requires NoCollision(h.hash, queries)
    ensures HonestSiblings(h, spent, n, siblings, level)
    ensures leaf == LeafQueryFor(spent, n)
  {
    if level == 0 {
      AncestorWalk(n, 0);
      assert Separated(h.hash, leaf, LeafQueryFor(spent, n));
    } else {
      QueriesBelow(h, spent, n, leaf, siblings, level);
      var query := ParentQuery(h, spent, n, level);
      assert Separated(h.hash, query, PathQuery(h, n, leaf, siblings, level - 1));
      QueryBinds(h, spent, n, leaf, siblings, level);
      hide AncestorKey, FlipBit, TreeValue, TreeQueries, PathQueries, PathValue, PathQuery, ParentQuery;
      PathBinds(h, spent, n, leaf, siblings, level - 1, queries);
    }
  }

  /** Without collisions, any accepted path into the root over `spent` is the tree's own path, an accepted
      inclusion means spent and an accepted absence means unspent. */
  lemma AcceptedPathIsHonest(
    h: Hasher, spent: set<Key>, n: Key, leaf: Query, siblings: seq<Digest>)
    requires RootFromPath(h, n, leaf, siblings) == Ok(TreeRoot(h, spent))
    requires NoCollision(h.hash, RootQueries(h, spent) + PathQueries(h, n, leaf, siblings, DEPTH))
    ensures HonestSiblings(h, spent, n, siblings, DEPTH) && leaf == LeafQueryFor(spent, n)
  {
    AncestorWalk(n, DEPTH);
    PathBinds(h, spent, n, leaf, siblings, DEPTH,
              RootQueries(h, spent) + PathQueries(h, n, leaf, siblings, DEPTH));
  }

  /** No sibling list proves a spent nullifier absent or an unspent one included. */
  lemma NoForgedProof(h: Hasher, spent: set<Key>, n: Key, siblings: seq<Digest>)
    requires |siblings| == DEPTH
    requires NoCollision(h.hash, RootQueries(h, spent) + PathQueries(h, n, LeafQuery(n), siblings, DEPTH)
                            + PathQueries(h, n, EmptyQuery, siblings, DEPTH))
    ensures VerifyInclusion(h, TreeRoot(h, spent), n, siblings).Ok? ==> n in spent
    ensures VerifyAbsence(h, TreeRoot(h, spent), n, siblings).Ok? ==> n !in spent
  {
    if VerifyInclusion(h, TreeRoot(h, spent), n, siblings).Ok? {
      AcceptedPathIsHonest(h, spent, n, LeafQuery(n), siblings);
    }
    if VerifyAbsence(h, TreeRoot(h, spent), n, siblings).Ok? {
      AcceptedPathIsHonest(h, spent, n, EmptyQuery, siblings);
    }
  }

  /** Verification is exact. Against the root over `spent`, inclusion is accepted for a spent nullifier with the
      tree's 512 siblings beside it, absence for an unspent one with them, and nothing else is. */
  lemma ProofsDecide(h: Hasher, spent: set<Key>, n: Key, siblings: seq<Digest>)
    requires h.Valid() && |siblings| == DEPTH
    requires NoCollision(h.hash, RootQueries(h, spent) + PathQueries(h, n, LeafQuery(n), siblings, DEPTH)
                            + PathQueries(h, n, EmptyQuery, siblings, DEPTH))
    ensures VerifyInclusion(h, TreeRoot(h, spent), n, siblings).Ok? <==>
              n in spent && HonestSiblings(h, spent, n, siblings, DEPTH)
    ensures VerifyAbsence(h, TreeRoot(h, spent), n, siblings).Ok? <==>
              n !in spent && HonestSiblings(h, spent, n, siblings, DEPTH)
  {
    NoForgedProof(h, spent, n, siblings);
    if VerifyInclusion(h, TreeRoot(h, spent), n, siblings).Ok? {
      AcceptedPathIsHonest(h, spent, n, LeafQuery(n), siblings);
    }
    if VerifyAbsence(h, TreeRoot(h, spent), n, siblings).Ok? {
      AcceptedPathIsHonest(h, spent, n, EmptyQuery, siblings);
    }
    hide TreeValue, PathQueries, RootQueries, AncestorKey;
    if HonestSiblings(h, spent, n, siblings, DEPTH) {
      HonestPathRoots(h, spent, n, siblings);
      assert n in spent ==> spent + {n} == spent;
      assert n !in spent ==> spent - {n} == spent;
    }
  }

  /** In every reachable tree, the generated path decides membership. */
  lemma OwnPathDecides(tree: SparseTreeState, n: Key, siblings: seq<Digest>)
    requires tree.Valid()
    requires |siblings| == DEPTH && HonestSiblings(tree.hasher, tree.spent, n, siblings, DEPTH)
    requires NoCollision(tree.hasher.hash, RootQueries(tree.hasher, tree.spent)
                         + PathQueries(tree.hasher, n, LeafQuery(n), siblings, DEPTH)
                         + PathQueries(tree.hasher, n, EmptyQuery, siblings, DEPTH))
    ensures VerifyInclusion(tree.hasher, tree.CurrentRoot(), n, siblings).Ok? <==> n in tree.spent
    ensures VerifyAbsence(tree.hasher, tree.CurrentRoot(), n, siblings).Ok? <==> n !in tree.spent
  {
    HonestPathRoots(tree.hasher, tree.spent, n, siblings);
    assert n in tree.spent ==> tree.spent + {n} == tree.spent;
    assert n !in tree.spent ==> tree.spent - {n} == tree.spent;
    NoForgedProof(tree.hasher, tree.spent, n, siblings);
  }

  // ----- the root as a commitment to the set

  /** Two subtrees with one value agree on every leaf below them. */
  lemma {:induction false} ValueBindsLeaf(
    h: Hasher, a: set<Key>, b: set<Key>, n: Key, height: nat, queries: set<Query>)
    requires height <= DEPTH
    requires TreeValue(h, a, height, AncestorKey(n, height)) == TreeValue(h, b, height, AncestorKey(n, height))
    requires TreeQueries(h, a, height, AncestorKey(n, height)) <= queries
    requires TreeQueries(h, b, height, AncestorKey(n, height)) <= queries
    requires NoCollision(h.hash, queries)
    ensures n in a <==> n in b
  {
    if height == 0 {
      AncestorWalk(n, 0);
      assert Separated(h.hash, LeafQueryFor(a, n), LeafQueryFor(b, n));
    } else {
      AncestorStep(n, height - 1);
      var up := AncestorKey(n, height);
      var right := FlipBit(up, height - 1);
      assert Separated(h.hash, NodeQuery(TreeValue(h, a, height - 1, up), TreeValue(h, a, height - 1, right)),
                       NodeQuery(TreeValue(h, b, height - 1, up), TreeValue(h, b, height - 1, right)));
      ValueBindsLeaf(h, a, b, n, height - 1, queries);
    }
  }

  lemma RootBindsSet(h: Hasher, a: set<Key>, b: set<Key>)
    requires TreeRoot(h, a) == TreeRoot(h, b)
    requires NoCollision(h.hash, RootQueries(h, a) + RootQueries(h, b))
    ensures a == b
  {
    forall n: Key ensures n in a <==> n in b {
      AncestorWalk(n, DEPTH);
      ValueBindsLeaf(h, a, b, n, DEPTH, RootQueries(h, a) + RootQueries(h, b));
    }
  }

  // ----- whole runs

  /** Any run of spends leaves the index of exactly the nullifiers submitted, duplicates refused. */
  method SpendAll(tree: SparseTreeState, nullifiers: seq<Key>)
    requires tree.Valid() && tree.spentCount + |nullifiers| <= U64_MAX
    modifies tree
    ensures tree.Valid() && tree.spent == old(tree.spent) + set n | n in nullifiers
  {
    for i := 0 to |nullifiers|
      invariant tree.Valid() && tree.spentCount <= old(tree.spentCount) + i
      invariant tree.spent == old(tree.spent) + set n | n in nullifiers[..i]
    {
      var _ := tree.MarkSpent(nullifiers[i]);
      assert nullifiers[..i + 1] == nullifiers[..i] + [nullifiers[i]];
    }
    assert nullifiers[..|nullifiers|] == nullifiers;
  }

  /** Two reachable trees over one set are equal node for node, whatever the order of their spends. */
  lemma OrderIrrelevant(a: SparseTreeState, b: SparseTreeState)
    requires a.Valid() && b.Valid() && a.hasher == b.hasher && a.spent == b.spent
    ensures a.nodes == b.nodes && a.spentCount == b.spentCount && a.CurrentRoot() == b.CurrentRoot()
  {
    IndexUnique(a.hasher, a.nodes, b.nodes, a.spent);
  }
}
