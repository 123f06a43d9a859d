/** A binary tree of fixed depth over a list of leaves, completed with empty leaves: level-by-level roots and paths
    with padding, proved against the complete tree, and what roots and paths commit to. */
module PaddedTree {
  import opened Common
  import opened Hashing

  /** One call of the hash, separated by domain. */
  datatype Query<W> = EmptyLeaf | Leaf(commitment: W) | Node(left: W, right: W)

  type TreeHash<!W> = Query<W> -> W

  datatype InclusionProof<W> = InclusionProof(leafIndex: nat, siblings: seq<W>)

  // ----- the complete tree

  function LeafQuery<W>(leaves: seq<W>, index: nat): Query<W> {
    if index < |leaves| then Leaf(leaves[index]) else EmptyLeaf
  }

  /** The query behind node `index` at `height`: its two children, or its own leaf. */
  function NodeQuery<W>(h: TreeHash<W>, leaves: seq<W>, height: nat, index: nat): Query<W>
    decreases height, 0
  {
    if height == 0 then LeafQuery(leaves, index)
    else Node(NodeValue(h, leaves, height - 1, 2 * index), NodeValue(h, leaves, height - 1, 2 * index + 1))
  }

  /** The value of node `index` at `height` of the complete tree with `leaves` first and empty leaves after. */
  function NodeValue<W>(h: TreeHash<W>, leaves: seq<W>, height: nat, index: nat): W
    decreases height, 1
  {
    h(NodeQuery(h, leaves, height, index))
  }

  function CompleteRoot<W>(h: TreeHash<W>, depth: nat, leaves: seq<W>): W {
    NodeValue(h, leaves, depth, 0)
  }

  /** The order of hashing at its smallest: commitments from left to right, each under the leaf domain. */
  lemma TwoLeafRoot<W>(h: TreeHash<W>, a: W, b: W)
    ensures CompleteRoot(h, 1, [a, b]) == h(Node(h(Leaf(a)), h(Leaf(b))))
    ensures CompleteRoot(h, 1, [a]) == h(Node(h(Leaf(a)), h(EmptyLeaf)))
  {
    assert NodeQuery(h, [a, b], 1, 0) == Node(NodeValue(h, [a, b], 0, 0), NodeValue(h, [a, b], 0, 1));
    assert NodeQuery(h, [a], 1, 0) == Node(NodeValue(h, [a], 0, 0), NodeValue(h, [a], 0, 1));
  }

  function EmptyHash<W>(h: TreeHash<W>, height: nat): W {
    if height == 0 then h(EmptyLeaf) else h(Node(EmptyHash(h, height - 1), EmptyHash(h, height - 1)))
  }

  // ----- one level

  ghost predicate EmptyAt<W>(h: TreeHash<W>, leaves: seq<W>, height: nat, index: nat) {
    NodeValue(h, leaves, height, index) == EmptyHash(h, height)
  }

  /** `level` starts the row at `height`, and every node to its right is empty. */
  ghost predicate IsLevel<W>(h: TreeHash<W>, leaves: seq<W>, height: nat, level: seq<W>) {
    (forall i | 0 <= i < |level| :: level[i] == NodeValue(h, leaves, height, i)) &&
    (forall i: nat {:trigger EmptyAt(h, leaves, height, i)} | i >= |level| :: EmptyAt(h, leaves, height, i))
  }

  method EmptyHashes<W>(h: TreeHash<W>, depth: nat) returns (hashes: seq<W>)
    ensures |hashes| == depth + 1 && forall i | 0 <= i <= depth :: hashes[i] == EmptyHash(h, i)
  {
    hashes := [h(EmptyLeaf)];
    for height := 1 to depth + 1
      invariant |hashes| == height && forall i | 0 <= i < height :: hashes[i] == EmptyHash(h, i)
    {
      hashes := hashes + [h(Node(hashes[height - 1], hashes[height - 1]))];
    }
  }

  method LeafLevel<W>(h: TreeHash<W>, leaves: seq<W>) returns (level: seq<W>)
    ensures |level| == |leaves| && IsLevel(h, leaves, 0, level)
  {
    level := [];
    for i := 0 to |leaves|
      invariant |level| == i && forall j | 0 <= j < i :: level[j] == NodeValue(h, leaves, 0, j)
    {
      level := level + [h(Leaf(leaves[i]))];
    }
    assert forall i: nat {:trigger EmptyAt(h, leaves, 0, i)} | i >= |leaves| :: EmptyAt(h, leaves, 0, i);
  }

  /** An odd level is completed with the empty hash of its height. */
  method Pad<W>(h: TreeHash<W>, ghost leaves: seq<W>, height: nat, emptyHash: W, level: seq<W>)
      returns (padded: seq<W>)
    requires IsLevel(h, leaves, height, level) && emptyHash == EmptyHash(h, height)
    ensures IsLevel(h, leaves, height, padded)
    ensures |padded| == |level| + |level| % 2
  {
    padded := level;
    if |level| % 2 == 1 {
      assert EmptyAt(h, leaves, height, |level|);
      padded := level + [emptyHash];
    }
  }

  method ParentLevel<W>(h: TreeHash<W>, ghost leaves: seq<W>, ghost height: nat, children: seq<W>)
      returns (parents: seq<W>)
    requires IsLevel(h, leaves, height, children) && |children| % 2 == 0
    ensures |parents| == |children| / 2 && IsLevel(h, leaves, height + 1, parents)
  {
    parents := [];
    for i := 0 to |children| / 2
      invariant |parents| == i && forall j | 0 <= j < i :: parents[j] == NodeValue(h, leaves, height + 1, j)
    {
      assert children[2 * i] == NodeValue(h, leaves, height, 2 * i);
      assert children[2 * i + 1] == NodeValue(h, leaves, height, 2 * i + 1);
      parents := parents + [h(Node(children[2 * i], children[2 * i + 1]))];
    }
    ghost var up := height + 1;
    forall i: nat | i >= |parents| ensures EmptyAt(h, leaves, up, i) {
      assert EmptyAt(h, leaves, height, 2 * i) && EmptyAt(h, leaves, height, 2 * i + 1);
    }
  }

  lemma {:induction false} AllEmpty<W>(h: TreeHash<W>, height: nat, index: nat)
    ensures NodeValue(h, [], height, index) == EmptyHash(h, height)
  {
    if height > 0 {
      AllEmpty(h, height - 1, 2 * index);
      AllEmpty(h, height - 1, 2 * index + 1);
    }
  }

  /** The level-by-level padded root is the root of the complete tree, for every depth and occupancy. */
  method RootFromCommitments<W>(h: TreeHash<W>, depth: nat, commitments: seq<W>) returns (root: W)
    requires |commitments| <= Pow2(depth)
    ensures root == CompleteRoot(h, depth, commitments)
  {
    var empty := EmptyHashes(h, depth);
    if commitments == [] {
      AllEmpty(h, depth, 0);
      return empty[depth];
    }
    var level := LeafLevel(h, commitments);
    for height := 0 to depth
      invariant IsLevel(h, commitments, height, level) && 1 <= |level| <= Pow2(depth - height)
    {
      level := Pad(h, commitments, height, empty[height], level);
      level := ParentLevel(h, commitments, height, level);
    }
    root := level[0];
  }

  // ----- paths

  /** The value after absorbing the first `level` siblings of a path that starts at leaf `index`. */
  function PathValue<W>(h: TreeHash<W>, leaf: Query<W>, index: nat, siblings: seq<W>, level: nat): W
    requires level <= |siblings|
    decreases level, 1
  {
    h(PathQuery(h, leaf, index, siblings, level))
  }

  function PathQuery<W>(h: TreeHash<W>, leaf: Query<W>, index: nat, siblings: seq<W>, level: nat): Query<W>
    requires level <= |siblings|
    decreases level, 0
  {
    if level == 0 then leaf
    else
      var below := PathValue(h, leaf, index, siblings, level - 1);
      if Up(index, level - 1) % 2 == 0 then Node(below, siblings[level - 1]) else Node(siblings[level - 1], below)
  }

  /** The index of the node above leaf `index` at `level`. */
  function Up(index: nat, level: nat): nat {
    if level == 0 then index else Up(index, level - 1) / 2
  }

  function Beside(index: nat): nat {
    if index % 2 == 0 then index + 1 else index - 1
  }

  /** The siblings that the complete tree shows beside the path of leaf `index`. */
  ghost predicate HonestPath<W>(h: TreeHash<W>, leaves: seq<W>, index: nat, siblings: seq<W>, level: nat) {
    level <= |siblings| &&
    forall i | 0 <= i < level :: siblings[i] == NodeValue(h, leaves, i, Beside(Up(index, i)))
  }

  method BuildPath<W>(h: TreeHash<W>, depth: nat, commitments: seq<W>, index: nat) returns (siblings: seq<W>)
    requires index < |commitments| <= Pow2(depth)
    ensures |siblings| == depth && HonestPath(h, commitments, index, siblings, depth)
  {
    var empty := EmptyHashes(h, depth);
    var level := LeafLevel(h, commitments);
    var current := index;
    siblings := [];
    for height := 0 to depth
      invariant IsLevel(h, commitments, height, level)
      invariant current == Up(index, height) < |level|
      invariant |siblings| == height && HonestPath(h, commitments, index, siblings, height)
    {
      var padded := Pad(h, commitments, height, empty[height], level);
      assert Beside(current) < |padded|;
      siblings := siblings + [padded[Beside(current)]];
      level := ParentLevel(h, commitments, height, padded);
      current := current / 2;
    }
  }

  /** The sibling loop of verification. */
  method FoldPath<W>(h: TreeHash<W>, commitment: W, leafIndex: nat, siblings: seq<W>) returns (current: W)
    ensures current == PathValue(h, Leaf(commitment), leafIndex, siblings, |siblings|)
  {
    current := h(Leaf(commitment));
    var index := leafIndex;
    for i := 0 to |siblings|
      invariant current == PathValue(h, Leaf(commitment), leafIndex, siblings, i) && index == Up(leafIndex, i)
    {
      current := if index % 2 == 0 then h(Node(current, siblings[i])) else h(Node(siblings[i], current));
      index := index / 2;
    }
  }

  /** An honest path from the leaf the tree has at `index` rebuilds every node above it. */
  lemma {:induction false} HonestPathRebuilds<W>(
    h: TreeHash<W>, leaves: seq<W>, index: nat, siblings: seq<W>, level: nat)
    requires HonestPath(h, leaves, index, siblings, level)
    ensures PathValue(h, LeafQuery(leaves, index), index, siblings, level) == NodeValue(h, leaves, level,
        Up(index, level))
  {
    if level > 0 {
      HonestPathRebuilds(h, leaves, index, siblings, level - 1);
      assert siblings[level - 1] == NodeValue(h, leaves, level - 1, Beside(Up(index, level - 1)));
    }
  }

  // ----- soundness

  ghost function TreeQueries<W>(h: TreeHash<W>, leaves: seq<W>, height: nat, index: nat): set<Query<W>> {
    {NodeQuery(h, leaves, height, index)} +
    if height == 0 then {}
    else TreeQueries(h, leaves, height - 1, 2 * index) + TreeQueries(h, leaves, height - 1, 2 * index + 1)
  }

  ghost function PathQueries<W>(h: TreeHash<W>, leaf: Query<W>, index: nat, siblings: seq<W>, level: nat): set<Query<W>>
    requires level <= |siblings|
  {
    {PathQuery(h, leaf, index, siblings, level)} +
    if level == 0 then {} else PathQueries(h, leaf, index, siblings, level - 1)
  }

  /** The two indices turn the same way at every level below `level`. */
  ghost predicate SameTurns(index: nat, at: nat, level: nat) {
    forall i | 0 <= i < level :: Up(index, i) % 2 == Up(at, i) % 2
  }

  /** The last query of a path and of a subtree, and all those below, are among their queries. */
  lemma QueriesBelow<W>(
    h: TreeHash<W>, leaves: seq<W>, leaf: Query<W>, index: nat, siblings: seq<W>, level: nat, at: nat)
    requires level <= |siblings|
    ensures PathQuery(h, leaf, index, siblings, level) in PathQueries(h, leaf, index, siblings, level)
    ensures NodeQuery(h, leaves, level, Up(at, level)) in TreeQueries(h, leaves, level, Up(at, level))
    ensures level > 0 ==>
              PathQueries(h, leaf, index, siblings, level - 1) <= PathQueries(h, leaf, index, siblings, level) &&
              TreeQueries(h, leaves, level - 1, Up(at, level - 1)) <= TreeQueries(h, leaves, level, Up(at, level)) &&
              Up(at, level) == Up(at, level - 1) / 2
  {
  }

  /** A path that reaches a node's value carries the tree's siblings and the tree's leaf. */
  lemma {:induction false} PathBinds<W(!new)>(
    h: TreeHash<W>, leaves: seq<W>, leaf: Query<W>, index: nat, siblings: seq<W>, level: nat, at: nat,
    queries: set<Query<W>>)
    requires level <= |siblings| && SameTurns(index, at, level)
    requires PathValue(h, leaf, index, siblings, level) == NodeValue(h, leaves, level, Up(at, level))
    requires TreeQueries(h, leaves, level, Up(at, level)) <= queries
    requires PathQueries(h, leaf, index, siblings, level) <= queries
    requires NoCollision(h, queries)
    ensures leaf == LeafQuery(leaves, at)
    ensures HonestPath(h, leaves, at, siblings, level)
  {
    QueriesBelow(h, leaves, leaf, index, siblings, level, at);
    assert Separated(h, PathQuery(h, leaf, index, siblings, level), NodeQuery(h, leaves, level, Up(at, level)));
    if level > 0 {
      QueryBinds(h, leaves, leaf, index, siblings, level, at);
      PathBinds(h, leaves, leaf, index, siblings, level - 1, at, queries);
      hide TreeQueries, PathQueries, Up, PathQuery, NodeQuery, PathValue, NodeValue, Beside;
    }
  }

  /** Equal queries one level up have equal values below and the tree's node beside. */
  lemma QueryBinds<W>(h: TreeHash<W>, leaves: seq<W>, leaf: Query<W>, index: nat, siblings: seq<W>, level: nat, at: nat)
    requires 0 < level <= |siblings| && SameTurns(index, at, level)
    requires PathQuery(h, leaf, index, siblings, level) == NodeQuery(h, leaves, level, Up(at, level))
    ensures SameTurns(index, at, level - 1)
    ensures PathValue(h, leaf, index, siblings, level - 1) == NodeValue(h, leaves, level - 1, Up(at, level - 1))
    ensures siblings[level - 1] == NodeValue(h, leaves, level - 1, Beside(Up(at, level - 1)))
  {
    hide PathValue, NodeValue;
    assert Up(index, level - 1) % 2 == Up(at, level - 1) % 2;
  }

  /** The low `depth` bits of a leaf index: all that a path of that depth can see. */
  function Low(index: nat, depth: nat): nat {
    if depth == 0 then 0 else 2 * Low(index / 2, depth - 1) + index % 2
  }

  /** `Low(index, depth)` is the remainder of `index` by `2^depth`, and `Up(index, depth)` the quotient. */
  lemma {:induction false} LowIsRemainder(index: nat, depth: nat)
    ensures index == Up(index, depth) * Pow2(depth) + Low(index, depth)
    ensures Low(index, depth) < Pow2(depth)
  {
    if depth > 0 {
      LowIsRemainder(index / 2, depth - 1);
      UpHalf(index, depth);
      Doubled(Up(index, depth), Pow2(depth - 1));
    }
  }

  lemma Doubled(u: nat, d: nat)
    ensures u * (2 * d) == 2 * (u * d)
  {
  }

  lemma {:induction false} UpHalf(index: nat, level: nat)
    requires level > 0
    ensures Up(index, level) == Up(index / 2, level - 1)
  {
    if level > 1 {
      UpHalf(index, level - 1);
    }
  }

  lemma {:induction false} LowUp(index: nat, depth: nat, level: nat)
    requires level <= depth
    ensures Up(Low(index, depth), level) == Low(Up(index, level), depth - level)
  {
    if level > 0 {
      LowUp(index, depth, level - 1);
    }
  }

  /** An index and its low bits turn the same way all the way up, and the low bits end at the root. */
  lemma LowTurns(index: nat, depth: nat)
    ensures SameTurns(index, Low(index, depth), depth) && Up(Low(index, depth), depth) == 0
  {
    forall i | 0 <= i < depth ensures Up(index, i) % 2 == Up(Low(index, depth), i) % 2 {
      LowUp(index, depth, i);
    }
    LowUp(index, depth, depth);
  }

  ghost function VerifyQueries<W>(h: TreeHash<W>, leaves: seq<W>, depth: nat, commitment: W,
      proof: InclusionProof<W>): set<Query<W>> {
    TreeQueries(h, leaves, depth, 0)
    + PathQueries(h, Leaf(commitment), proof.leafIndex, proof.siblings, |proof.siblings|)
  }

  /** Without collisions, a path accepted at a tree's root proves the leaf at the low bits of its index. */
  lemma AcceptedLeafIsThere<W(!new)>(
    h: TreeHash<W>, depth: nat, leaves: seq<W>, commitment: W, proof: InclusionProof<W>)
    requires |proof.siblings| == depth
    requires PathValue(h, Leaf(commitment), proof.leafIndex, proof.siblings, depth) == CompleteRoot(h, depth, leaves)
    requires NoCollision(h, VerifyQueries(h, leaves, depth, commitment, proof))
    ensures var at := Low(proof.leafIndex, depth);
            at < |leaves| && leaves[at] == commitment && HonestPath(h, leaves, at, proof.siblings, depth)
  {
    var at := Low(proof.leafIndex, depth);
    LowTurns(proof.leafIndex, depth);
    hide Low, Up, SameTurns, PathValue, NodeValue, TreeQueries, PathQueries, HonestPath;
    PathBinds(h, leaves, Leaf(commitment), proof.leafIndex, proof.siblings, depth, at,
              VerifyQueries(h, leaves, depth, commitment, proof));
  }

  /** An index above the tree still verifies, for the leaf at its low bits: the direction bits above the depth
      are never read. */
  lemma {:induction false} HighIndexBitsUnread<W>(
    h: TreeHash<W>, leaf: Query<W>, index: nat, siblings: seq<W>, level: nat)
    requires level <= |siblings|
    ensures PathValue(h, leaf, index, siblings, level) == PathValue(h, leaf, Low(index, |siblings|), siblings, level)
  {
    if level > 0 {
      HighIndexBitsUnread(h, leaf, index, siblings, level - 1);
      LowUp(index, |siblings|, level - 1);
    }
  }

  /** The proof shows the commitment at the leaf its low index bits name, with the siblings that tree has there. */
  ghost predicate ProvesLeaf<W>(h: TreeHash<W>, depth: nat, leaves: seq<W>, commitment: W, proof: InclusionProof<W>) {
    var at := Low(proof.leafIndex, depth);
    at < |leaves| && leaves[at] == commitment && HonestPath(h, leaves, at, proof.siblings, depth)
  }

  /** Without collisions, a path of a tree's depth reaches its root if and only if it shows an occupied leaf of it. */
  lemma PathDecides<W(!new)>(h: TreeHash<W>, depth: nat, leaves: seq<W>, commitment: W, proof: InclusionProof<W>)
    requires |proof.siblings| == depth && NoCollision(h, VerifyQueries(h, leaves, depth, commitment, proof))
    ensures ProvesLeaf(h, depth, leaves, commitment, proof) <==>
              PathValue(h, Leaf(commitment), proof.leafIndex, proof.siblings, depth) == CompleteRoot(h, depth, leaves)
  {
    hide Low, Up, SameTurns, TreeQueries, PathQueries, HonestPath;
    if PathValue(h, Leaf(commitment), proof.leafIndex, proof.siblings, depth) == CompleteRoot(h, depth, leaves) {
      AcceptedLeafIsThere(h, depth, leaves, commitment, proof);
    }
    if ProvesLeaf(h, depth, leaves, commitment, proof) {
      HonestPathRebuilds(h, leaves, Low(proof.leafIndex, depth), proof.siblings, depth);
      LowTurns(proof.leafIndex, depth);
      HighIndexBitsUnread(h, Leaf(commitment), proof.leafIndex, proof.siblings, depth);
    }
  }

  // ----- the root as a commitment to the list

  lemma {:induction false} ValueBindsLeaf<W(!new)>(
    h: TreeHash<W>, a: seq<W>, b: seq<W>, height: nat, at: nat, queries: set<Query<W>>)
    requires NodeValue(h, a, height, Up(at, height)) == NodeValue(h, b, height, Up(at, height))
    requires TreeQueries(h, a, height, Up(at, height)) <= queries
    requires TreeQueries(h, b, height, Up(at, height)) <= queries
    requires NoCollision(h, queries)
    ensures LeafQuery(a, at) == LeafQuery(b, at)
  {
    assert Separated(h, NodeQuery(h, a, height, Up(at, height)), NodeQuery(h, b, height, Up(at, height)));
    if height > 0 {
      ValueBindsLeaf(h, a, b, height - 1, at, queries);
    }
  }

  /** Without collisions, two lists that fit one depth and share a root are the same list. */
  lemma RootBindsList<W(!new)>(h: TreeHash<W>, depth: nat, a: seq<W>, b: seq<W>)
    requires |a| <= Pow2(depth) && |b| <= Pow2(depth)
    requires CompleteRoot(h, depth, a) == CompleteRoot(h, depth, b)
    requires NoCollision(h, TreeQueries(h, a, depth, 0) + TreeQueries(h, b, depth, 0))
    ensures a == b
  {
    forall at | 0 <= at < Pow2(depth) ensures LeafQuery(a, at) == LeafQuery(b, at) {
      UpToTop(at, depth);
      ValueBindsLeaf(h, a, b, depth, at, TreeQueries(h, a, depth, 0) + TreeQueries(h, b, depth, 0));
    }
    assert |a| < Pow2(depth) ==> LeafQuery(a, |a|) == LeafQuery(b, |a|);
    assert |b| < Pow2(depth) ==> LeafQuery(a, |b|) == LeafQuery(b, |b|);
    forall i | 0 <= i < |a| ensures a[i] == b[i] {
      assert LeafQuery(a, i) == LeafQuery(b, i);
    }
  }

  lemma {:induction false} UpBelow(at: nat, depth: nat, level: nat)
    requires level <= depth && at < Pow2(depth)
    ensures Up(at, level) < Pow2(depth - level)
  {
    if level > 0 {
      UpBelow(at, depth, level - 1);
    }
  }

  lemma UpToTop(at: nat, depth: nat)
    requires at < Pow2(depth)
    ensures Up(at, depth) == 0
  {
    UpBelow(at, depth, depth);
  }
}
