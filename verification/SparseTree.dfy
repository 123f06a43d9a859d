/** The sparse nullifier tree: the complete 512-level hash tree over a set of spent nullifiers as the
    specification, and the sparse index that stores only its non-empty nodes. */
module SparseTree {
  import opened Common
  import opened NodePosition

  const BABYBEAR_MODULUS: nat := 2_013_265_921

  /** The lanes of one digest. */
  datatype Digest = Digest(elements: seq<nat>)

  predicate Canonical(d: Digest) {
    forall i | 0 <= i < |d.elements| :: d.elements[i] < BABYBEAR_MODULUS
  }

  /** One call of the domain-separated sponge. */
  datatype Query = EmptyQuery | LeafQuery(nullifier: Key) | NodeQuery(left: Digest, right: Digest)

  datatype Hasher = Hasher(hash: Query -> Digest) {
    /** Every output lane is a field element. */
    ghost predicate Valid() {
      forall q {:trigger Canonical(hash(q))} :: Canonical(hash(q))
    }
    function SpentLeaf(nullifier: Key): Digest { hash(LeafQuery(nullifier)) }
    function Node(left: Digest, right: Digest): Digest { hash(NodeQuery(left, right)) }
  }

  // ----- the complete tree over a set of spent nullifiers

  function EmptyValue(h: Hasher, height: nat): Digest {
    if height == 0 then h.hash(EmptyQuery)
    else h.Node(EmptyValue(h, height - 1), EmptyValue(h, height - 1))
  }

  function LeafQueryFor(spent: set<Key>, key: Key): Query {
    if key in spent then LeafQuery(key) else EmptyQuery
  }

  /** The value of the node `(height, key)` of the complete tree whose spent leaves are `spent`. */
  function TreeValue(h: Hasher, spent: set<Key>, height: nat, key: Key): Digest
    requires height <= DEPTH
  {
    if height == 0 then h.hash(LeafQueryFor(spent, key))
    else h.Node(TreeValue(h, spent, height - 1, key), TreeValue(h, spent, height - 1, FlipBit(key, height - 1)))
  }

  function TreeRoot(h: Hasher, spent: set<Key>): Digest {
    TreeValue(h, spent, DEPTH, Root().key)
  }

  /** Some spent nullifier lies at or below the node. */
  ghost predicate Occupied(spent: set<Key>, p: Position) {
    p.height <= DEPTH && exists n | n in spent :: Ancestor(n, p.height) == p
  }

  lemma {:induction false} UnoccupiedIsEmpty(h: Hasher, spent: set<Key>, height: nat, key: Key)
    requires height <= DEPTH && Aligned(key, height)
    requires !Occupied(spent, Position(height, key))
    ensures TreeValue(h, spent, height, key) == EmptyValue(h, height)
  {
    if height == 0 {
      AncestorWalk(key, 0);
    } else {
      forall n | n in spent
        ensures Ancestor(n, height - 1) != Position(height - 1, key)
        ensures Ancestor(n, height - 1) != Position(height - 1, FlipBit(key, height - 1))
      {
        assert Ancestor(n, height) != Position(height, key);
        BelowChildren(n, key, height - 1);
      }
      BelowChildren(key, key, height - 1);
      UnoccupiedIsEmpty(h, spent, height - 1, key);
      UnoccupiedIsEmpty(h, spent, height - 1, FlipBit(key, height - 1));
    }
  }

  /** A node's value depends only on the spent nullifiers below it. */
  lemma {:induction false} TreeValueLocal(h: Hasher, spent: set<Key>, other: set<Key>, n: Key, height: nat, key: Key)
    requires height <= DEPTH && Aligned(key, height)
    requires spent - {n} == other - {n}
    requires AncestorKey(n, height) != key
    ensures TreeValue(h, spent, height, key) == TreeValue(h, other, height, key)
  {
    if height == 0 {
      AncestorWalk(n, 0);
      assert key in spent <==> key in spent - {n};
      assert key in other <==> key in other - {n};
    } else {
      BelowChildren(n, key, height - 1);
      TreeValueLocal(h, spent, other, n, height - 1, key);
      TreeValueLocal(h, spent, other, n, height - 1, FlipBit(key, height - 1));
    }
  }

  // ----- leaf-to-root paths

  /** The value after absorbing the first `level` siblings, in the direction the nullifier bits give. */
  function PathValue(h: Hasher, n: Key, leaf: Query, siblings: seq<Digest>, level: nat): Digest
    requires level <= |siblings| && level <= DEPTH
    decreases level, 0
  {
    if level == 0 then h.hash(leaf)
    else h.hash(PathQuery(h, n, leaf, siblings, level - 1))
  }

  function PathQuery(h: Hasher, n: Key, leaf: Query, siblings: seq<Digest>, level: nat): Query
    requires level < |siblings| && level < DEPTH
    decreases level, 1
  {
    var below := PathValue(h, n, leaf, siblings, level);
    if n[level] then NodeQuery(siblings[level], below) else NodeQuery(below, siblings[level])
  }

  function SiblingValue(h: Hasher, spent: set<Key>, n: Key, level: nat): Digest
    requires level < DEPTH
  {
    TreeValue(h, spent, level, FlipBit(AncestorKey(n, level), level))
  }

  /** The siblings the tree over `spent` shows along the path of `n`. */
  ghost predicate HonestSiblings(h: Hasher, spent: set<Key>, n: Key, siblings: seq<Digest>, level: nat) {
    level <= |siblings| && level <= DEPTH &&
    forall i | 0 <= i < level :: siblings[i] == SiblingValue(h, spent, n, i)
  }

  /** The node above `n` at `level + 1` hashes the node below it with that node's sibling. */
  lemma TreeStep(h: Hasher, spent: set<Key>, n: Key, level: nat)
    requires level < DEPTH
    ensures TreeValue(h, spent, level + 1, AncestorKey(n, level + 1)) ==
            var here, beside := TreeValue(h, spent, level, AncestorKey(n, level)), SiblingValue(h, spent, n, level);
            if n[level] then h.Node(beside, here) else h.Node(here, beside)
  {
    AncestorStep(n, level);
  }

  /** Siblings do not see the leaf they lead to. */
  lemma SiblingIgnoresLeaf(h: Hasher, spent: set<Key>, other: set<Key>, n: Key, level: nat)
    requires level < DEPTH && spent - {n} == other - {n}
    ensures SiblingValue(h, spent, n, level) == SiblingValue(h, other, n, level)
  {
    var here := AncestorKey(n, level);
    assert FlipBit(here, level)[level] != here[level];
    TreeValueLocal(h, spent, other, n, level, FlipBit(here, level));
  }

  /** The siblings of `spent` rebuild the tree over any set that differs from `spent` at most in `n`. */
  lemma {:induction false} PathRebuildsTree(
    h: Hasher, spent: set<Key>, other: set<Key>, n: Key, siblings: seq<Digest>, level: nat)
    requires HonestSiblings(h, spent, n, siblings, level) && spent - {n} == other - {n}
    ensures PathValue(h, n, LeafQueryFor(other, n), siblings, level) == TreeValue(h, other, level,
        AncestorKey(n, level))
  {
    if level == 0 {
      AncestorWalk(n, 0);
    } else {
      PathRebuildsTree(h, spent, other, n, siblings, level - 1);
      SiblingIgnoresLeaf(h, spent, other, n, level - 1);
      TreeStep(h, other, n, level - 1);
    }
  }

  // ----- the sparse index

  /** The index holds at `p` what the complete tree has there. */
  ghost predicate IndexedAt(h: Hasher, nodes: map<Position, Digest>, spent: set<Key>, p: Position) {
    (p in nodes <==> Occupied(spent, p)) &&
    (p in nodes && p.height <= DEPTH ==> nodes[p] == TreeValue(h, spent, p.height, p.key))
  }

  /** `nodes` stores exactly the occupied nodes of the tree over `spent`, each with its value. */
  ghost predicate Indexes(h: Hasher, nodes: map<Position, Digest>, spent: set<Key>) {
    forall p {:trigger IndexedAt(h, nodes, spent, p)} :: IndexedAt(h, nodes, spent, p)
  }

  function Lookup(nodes: map<Position, Digest>, emptyValues: seq<Digest>, p: Position): Digest
    requires p.height < |emptyValues|
  {
    if p in nodes then nodes[p] else emptyValues[p.height]
  }

  ghost predicate EmptyTable(h: Hasher, emptyValues: seq<Digest>) {
    |emptyValues| == DEPTH + 1 && forall i | 0 <= i <= DEPTH :: emptyValues[i] == EmptyValue(h, i)
  }

  /** A stored node or, where none is stored, the empty value of its height is the complete tree's value. */
  lemma LookupIsTreeValue(h: Hasher, nodes: map<Position, Digest>, emptyValues: seq<Digest>, spent: set<Key>,
      p: Position)
    requires Indexes(h, nodes, spent) && EmptyTable(h, emptyValues)
    requires p.height <= DEPTH && Aligned(p.key, p.height)
    ensures Lookup(nodes, emptyValues, p) == TreeValue(h, spent, p.height, p.key)
  {
    assert IndexedAt(h, nodes, spent, p);
    if p !in nodes {
      UnoccupiedIsEmpty(h, spent, p.height, p.key);
    }
  }

  /** The index of a set is unique: it fixes every stored node and hence the root. */
  lemma IndexUnique(h: Hasher, a: map<Position, Digest>, b: map<Position, Digest>, spent: set<Key>)
    requires Indexes(h, a, spent) && Indexes(h, b, spent)
    ensures a == b
  {
    forall p: Position ensures p in a <==> p in b ensures p in a ==> a[p] == b[p] {
      assert IndexedAt(h, a, spent, p) && IndexedAt(h, b, spent, p);
    }
  }

  /** A leaf is stored exactly when its nullifier is spent. */
  lemma LeafStored(h: Hasher, nodes: map<Position, Digest>, spent: set<Key>, n: Key)
    requires Indexes(h, nodes, spent)
    ensures Leaf(n) in nodes <==> n in spent
  {
    AncestorWalk(n, 0);
    assert IndexedAt(h, nodes, spent, Leaf(n));
    if Occupied(spent, Leaf(n)) {
      var m :| m in spent && Ancestor(m, 0) == Leaf(n);
      AncestorWalk(m, 0);
    }
  }

  function Extend(nodes: map<Position, Digest>, updates: seq<(Position, Digest)>): map<Position, Digest> {
    if updates == [] then nodes
    else Extend(nodes, updates[..|updates| - 1])[updates[|updates| - 1].0 := updates[|updates| - 1].1]
  }

  /** The leaf-to-root updates of one spend: every ancestor of `n` with its value after the spend. */
  ghost predicate PathUpdates(h: Hasher, spent: set<Key>, n: Key, updates: seq<(Position, Digest)>) {
    |updates| <= DEPTH + 1 &&
    forall i | 0 <= i < |updates| ::
      updates[i] == (Ancestor(n, i), TreeValue(h, spent + {n}, i, AncestorKey(n, i)))
  }

  lemma {:induction false} ExtendLookup(
    h: Hasher, spent: set<Key>, n: Key, nodes: map<Position, Digest>, updates: seq<(Position, Digest)>, p: Position)
    requires PathUpdates(h, spent, n, updates)
    ensures var onPath := p.height < |updates| && p == Ancestor(n, p.height);
            var after := Extend(nodes, updates);
            (p in after <==> onPath || p in nodes) &&
            (p in after ==> after[p] == if onPath then TreeValue(h, spent + {n}, p.height, p.key) else nodes[p])
  {
    if updates != [] {
      var last := |updates| - 1;
      ExtendLookup(h, spent, n, nodes, updates[..last], p);
      assert updates[last] == (Ancestor(n, last), TreeValue(h, spent + {n}, last, AncestorKey(n, last)));
    }
  }

  /** Installing the full path turns the index of `spent` into the index of `spent + {n}`. */
  lemma ExtendIndexes(
    h: Hasher, spent: set<Key>, n: Key, nodes: map<Position, Digest>, updates: seq<(Position, Digest)>)
    requires Indexes(h, nodes, spent) && PathUpdates(h, spent, n, updates) && |updates| == DEPTH + 1
    ensures Indexes(h, Extend(nodes, updates), spent + {n})
  {
    var after, grown := Extend(nodes, updates), spent + {n};
    forall p: Position
      ensures IndexedAt(h, after, grown, p)
    {
      ExtendLookup(h, spent, n, nodes, updates, p);
      assert IndexedAt(h, nodes, spent, p);
      if p in nodes && p != Ancestor(n, p.height) {
        OccupiedAligned(spent, p);
        TreeValueLocal(h, spent, grown, n, p.height, p.key);
      }
      if p.height <= DEPTH && p == Ancestor(n, p.height) {
        assert n in grown;
      }
    }
  }

  lemma OccupiedAligned(spent: set<Key>, p: Position)
    requires Occupied(spent, p)
    ensures Aligned(p.key, p.height)
  {
  }

  datatype TreeError =
    | AlreadySpent(nullifier: Key)
    | InvalidPathLength(actual: nat, expected: nat)
    | NonCanonicalDigest
    | RootMismatch

  /** Observable result of one accepted spend. */
  datatype TreeUpdate = TreeUpdate(nullifier: Key, previousRoot: Digest, root: Digest)

  /** `E0..E512`: the value of an all-empty subtree of each height. */
  method DeriveEmptyValues(h: Hasher) returns (values: seq<Digest>)
    ensures EmptyTable(h, values)
  {
    var current := h.hash(EmptyQuery);
    values := [current];
    for i := 0 to DEPTH
      invariant |values| == i + 1 && current == EmptyValue(h, i)
      invariant forall j | 0 <= j <= i :: values[j] == EmptyValue(h, j)
    {
      current := h.Node(current, current);
      values := values + [current];
    }
  }

  class SparseTreeState {
    const hasher: Hasher
    const emptyValues: seq<Digest>
    var nodes: map<Position, Digest>
    var spentCount: nat

    /** The nullifiers accepted so far. */
    ghost var spent: set<Key>

    ghost predicate Valid()
      reads this
    {
      hasher.Valid() && EmptyTable(hasher, emptyValues) && Indexes(hasher, nodes, spent) && spentCount == |spent|
    }

    constructor (h: Hasher)
      requires h.Valid()
      ensures Valid() && hasher == h && spent == {}
    {
      var values := DeriveEmptyValues(h);
      hasher, emptyValues, nodes, spentCount, spent := h, values, map[], 0, {};
    }

    constructor Clone(tree: SparseTreeState)
      requires tree.Valid()
      ensures Valid() && hasher == tree.hasher && nodes == tree.nodes && spentCount == tree.spentCount &&
          spent == tree.spent
    {
      hasher, emptyValues, nodes, spentCount, spent := tree.hasher, tree.emptyValues, tree.nodes, tree.spentCount,
          tree.spent;
    }

    function ValueAt(p: Position): (d: Digest)
      requires Valid() && p.height <= DEPTH
      reads this
      ensures Aligned(p.key, p.height) ==> d == TreeValue(hasher, spent, p.height, p.key)
    {
      assert Aligned(p.key, p.height) ==>
          Lookup(nodes, emptyValues, p) == TreeValue(hasher, spent, p.height, p.key) by {
        if Aligned(p.key, p.height) {
          LookupIsTreeValue(hasher, nodes, emptyValues, spent, p);
        }
      }
      Lookup(nodes, emptyValues, p)
    }

    function CurrentRoot(): (d: Digest)
      requires Valid()
      reads this
      ensures d == TreeRoot(hasher, spent)
    {
      ValueAt(Root())
    }

    predicate IsSpent(n: Key)
      requires Valid()
      reads this
      ensures IsSpent(n) <==> n in spent
    {
      LeafStored(hasher, nodes, spent, n);
      Leaf(n) in nodes
    }

    /** The inclusion-or-absence path of `n`: the tree's values beside the path, leaf to root. */
    method Prove(n: Key) returns (siblings: seq<Digest>)
      requires Valid()
      ensures |siblings| == DEPTH && HonestSiblings(hasher, spent, n, siblings, DEPTH)
    {
      var position := Leaf(n);
      siblings := [];
      AncestorWalk(n, 0);
      for level := 0 to DEPTH
        invariant |siblings| == level && position == Ancestor(n, level)
        invariant HonestSiblings(hasher, spent, n, siblings, level)
      {
        AncestorWalk(n, level);
        siblings := siblings + [ValueAt(Sibling(position))];
        position := Parent(position);
      }
    }

    /** Hashes the whole leaf-to-root path of `n` without touching the index. */
    method PrepareSpend(n: Key) returns (updates: seq<(Position, Digest)>)
      requires Valid()
      ensures PathUpdates(hasher, spent, n, updates) && |updates| == DEPTH + 1
    {
      ghost var grown := spent + {n};
      var position, current := Leaf(n), hasher.SpentLeaf(n);
      updates := [(position, current)];
      AncestorWalk(n, 0);
      for level := 0 to DEPTH
        invariant |updates| == level + 1 && position == Ancestor(n, level)
        invariant current == TreeValue(hasher, grown, level, AncestorKey(n, level))
        invariant PathUpdates(hasher, spent, n, updates)
      {
        AncestorWalk(n, level);
        SiblingIgnoresLeaf(hasher, spent, grown, n, level);
        TreeStep(hasher, grown, n, level);
        var sibling := ValueAt(Sibling(position));
        current := if PathBit(position) then hasher.Node(sibling, current) else hasher.Node(current, sibling);
        position := Parent(position);
        updates := updates + [(position, current)];
      }
    }

    /** Spends `n` once. The counter is a `u64` that the source requires not to overflow. */
    method MarkSpent(n: Key) returns (r: Result<TreeUpdate, TreeError>)
      requires Valid() && spentCount < U64_MAX
      modifies this
      ensures Valid()
      ensures n in old(spent) ==> r == Err(AlreadySpent(n)) && nodes == old(nodes) && spentCount == old(spentCount)
      ensures n !in old(spent) ==>
                r == Ok(TreeUpdate(n, TreeRoot(hasher, old(spent)), TreeRoot(hasher, spent)))
      ensures spent == old(spent) + {n}
    {
      var previousRoot := CurrentRoot();
      if IsSpent(n) {
        return Err(AlreadySpent(n));
      }
      var updates := PrepareSpend(n);
      AncestorWalk(n, DEPTH);
      var root := updates[|updates| - 1].1;
      ExtendIndexes(hasher, spent, n, nodes, updates);
      nodes := Extend(nodes, updates);
      spentCount := spentCount + 1;
      spent := spent + {n};
      r := Ok(TreeUpdate(n, previousRoot, root));
    }
  }
}
