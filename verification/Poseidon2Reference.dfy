/** The dense Poseidon2-BabyBear-P24 reference: every linear layer is a full matrix product modulo the prime. */
module Poseidon2Reference {
  import opened Common
  import PaddedTree

  const MODULUS: nat := 2_013_265_921
  const WIDTH := 24
  const HALF_FULL_ROUNDS := 4
  const PARTIAL_ROUNDS := 21
  const TOTAL_ROUNDS := 29
  const DIAGONAL_OFFSET := 0
  const EXTERNAL_OFFSET := 24
  const INTERNAL_OFFSET := 600
  const ROUND_CONSTANT_OFFSET := 1176
  const IV_OFFSET := 1872
  const PARAMETER_COUNT := 1899
  const RATE := 15
  const DIGEST_ELEMENTS := 16
  const TREE_DEPTH := 32

  datatype Domain = Leaf | Node | EmptyBase {
    function InputElements(): nat {
      match this case Leaf => 16 case Node => 32 case EmptyBase => 0
    }
    function Index(): nat {
      match this case Leaf => 0 case Node => 1 case EmptyBase => 2
    }
  }

  datatype P24Error =
    | NonCanonical(index: nat, value: nat)
    | InvalidDomainArity(actual: nat, expected: nat)
    | TooManySmallTreeNotes(actual: nat)
    | SmallTreePathIndexOutOfBounds(index: nat, count: nat)

  predicate Canonical(s: seq<nat>) {
    forall i | 0 <= i < |s| :: s[i] < MODULUS
  }

  // ----- field and dense linear algebra

  function Add(a: nat, b: nat): nat { (a + b) % MODULUS }

  function Multiply(a: nat, b: nat): nat { a * b % MODULUS }

  lemma ModMultiple(k: int, t: int)
    ensures (k * MODULUS + t) % MODULUS == t % MODULUS
  {
  }

  lemma ReduceFactor(x: nat, y: nat)
    ensures Multiply(x % MODULUS, y) == Multiply(x, y)
  {
    var q, r := x / MODULUS, x % MODULUS;
    assert x == q * MODULUS + r;
    assert x * y == (q * y) * MODULUS + r * y;
    ModMultiple(q * y, r * y);
  }

  function SboxSeven(value: nat): nat {
    var square := Multiply(value, value);
    var fourth := Multiply(square, square);
    Multiply(Multiply(fourth, square), value)
  }

  function RowDot(row: seq<nat>, s: seq<nat>, n: nat): nat
    requires n <= |row| && n <= |s|
  {
    if n == 0 then 0 else Add(RowDot(row, s, n - 1), Multiply(row[n - 1], s[n - 1]))
  }

  /** Row `row` of a 24-column matrix stored at `offset` of the flat parameters. */
  function Row(values: seq<nat>, offset: nat, row: nat): seq<nat>
    requires offset + (row + 1) * WIDTH <= |values|
  {
    values[offset + row * WIDTH..offset + (row + 1) * WIDTH]
  }

  function MatVec(values: seq<nat>, offset: nat, s: seq<nat>): (r: seq<nat>)
    requires offset + WIDTH * WIDTH <= |values| && |s| == WIDTH
    ensures |r| == WIDTH && Canonical(r)
  {
    var r := seq(WIDTH, row requires 0 <= row < WIDTH => RowDot(Row(values, offset, row), s, WIDTH));
    assert forall row | 0 <= row < WIDTH :: r[row] < MODULUS by {
      forall row | 0 <= row < WIDTH ensures r[row] < MODULUS {
        assert r[row] == RowDot(Row(values, offset, row), s, WIDTH);
      }
    }
    r
  }

  function AddConstants(s: seq<nat>, constants: seq<nat>): (r: seq<nat>)
    requires |s| == |constants|
    ensures |r| == |s| && Canonical(r)
  {
    seq(|s|, i requires 0 <= i < |s| => Add(s[i], constants[i]))
  }

  function SboxAll(s: seq<nat>): (r: seq<nat>)
    ensures |r| == |s| && Canonical(r)
  {
    seq(|s|, i requires 0 <= i < |s| => SboxSeven(s[i]))
  }

  // ----- parameters

  /** What loading checks: the payload length, canonical elements, and the `J + diagonal` internal matrix. */
  ghost predicate Loaded(values: seq<nat>) {
    |values| == PARAMETER_COUNT && Canonical(values) && InternalMatches(values)
  }

  ghost predicate InternalMatches(values: seq<nat>)
    requires |values| == PARAMETER_COUNT
  {
    forall row, column | 0 <= row < WIDTH && 0 <= column < WIDTH ::
      values[INTERNAL_OFFSET + row * WIDTH + column] == ExpectedInternal(values, row, column)
  }

  function ExpectedInternal(values: seq<nat>, row: nat, column: nat): nat
    requires |values| == PARAMETER_COUNT && row < WIDTH
  {
    if row == column then Add(values[DIAGONAL_OFFSET + row], 1) else 1
  }

  /** The element-by-element check of the stored internal matrix. */
  method ValidateInternalMatrix(values: seq<nat>) returns (ok: bool)
    requires |values| == PARAMETER_COUNT
    ensures ok <==> InternalMatches(values)
  {
    for row := 0 to WIDTH
      invariant forall r, c | 0 <= r < row && 0 <= c < WIDTH ::
                  values[INTERNAL_OFFSET + r * WIDTH + c] == ExpectedInternal(values, r, c)
    {
      for column := 0 to WIDTH
        invariant forall c | 0 <= c < column ::
                    values[INTERNAL_OFFSET + row * WIDTH + c] == ExpectedInternal(values, row, c)
      {
        if values[INTERNAL_OFFSET + row * WIDTH + column] != ExpectedInternal(values, row, column) {
          return false;
        }
      }
    }
    ok := true;
  }

  function Constants(values: seq<nat>, round: nat): seq<nat>
    requires |values| == PARAMETER_COUNT && round < TOTAL_ROUNDS
  {
    Row(values, ROUND_CONSTANT_OFFSET, round)
  }

  function Iv(values: seq<nat>, domain: Domain): seq<nat>
    requires |values| == PARAMETER_COUNT
  {
    values[IV_OFFSET + domain.Index() * 9..IV_OFFSET + domain.Index() * 9 + 9]
  }

  // ----- the permutation

  predicate IsPartial(round: nat) {
    HALF_FULL_ROUNDS <= round < HALF_FULL_ROUNDS + PARTIAL_ROUNDS
  }

  function Round(values: seq<nat>, round: nat, s: seq<nat>): (r: seq<nat>)
    requires |values| == PARAMETER_COUNT && round < TOTAL_ROUNDS && |s| == WIDTH
    ensures |r| == WIDTH && Canonical(r)
  {
    if IsPartial(round) then
      MatVec(values, INTERNAL_OFFSET, s[0 := SboxSeven(Add(s[0], Constants(values, round)[0]))])
    else
      MatVec(values, EXTERNAL_OFFSET, SboxAll(AddConstants(s, Constants(values, round))))
  }

  /** The state after the initial external layer and the first `n` rounds. */
  function Rounds(values: seq<nat>, n: nat, s: seq<nat>): (r: seq<nat>)
    requires |values| == PARAMETER_COUNT && n <= TOTAL_ROUNDS && |s| == WIDTH
    ensures |r| == WIDTH && Canonical(r)
  {
    if n == 0 then MatVec(values, EXTERNAL_OFFSET, s) else Round(values, n - 1, Rounds(values, n - 1, s))
  }

  function Permute(values: seq<nat>, s: seq<nat>): (r: seq<nat>)
    requires |values| == PARAMETER_COUNT && |s| == WIDTH
    ensures |r| == WIDTH && Canonical(r)
  {
    Rounds(values, TOTAL_ROUNDS, s)
  }

  // ----- the fixed-arity hash and paths

  function AddBlock(s: seq<nat>, block: seq<nat>): (r: seq<nat>)
    requires |s| == WIDTH && |block| <= RATE
    ensures |r| == WIDTH && (Canonical(s) ==> Canonical(r))
  {
    seq(WIDTH, i requires 0 <= i < WIDTH => if i < |block| then Add(s[i], block[i]) else s[i])
  }

  function Absorb(values: seq<nat>, s: seq<nat>, input: seq<nat>): (r: seq<nat>)
    requires |values| == PARAMETER_COUNT && |s| == WIDTH
    ensures |r| == WIDTH && (Canonical(s) ==> Canonical(r))
    decreases |input|
  {
    if input == [] then s
    else
      var k := if |input| < RATE then |input| else RATE;
      Absorb(values, Permute(values, AddBlock(s, input[..k])), input[k..])
  }

  function InitialState(values: seq<nat>, domain: Domain): (r: seq<nat>)
    requires |values| == PARAMETER_COUNT
    ensures |r| == WIDTH && (Canonical(values) ==> Canonical(r))
  {
    seq(RATE, _ => 0) + Iv(values, domain)
  }

  function Absorbed(values: seq<nat>, domain: Domain, input: seq<nat>): (r: seq<nat>)
    requires |values| == PARAMETER_COUNT
    ensures |r| == WIDTH && (Canonical(values) ==> Canonical(r))
  {
    if input == [] then Permute(values, InitialState(values, domain))
    else Absorb(values, InitialState(values, domain), input)
  }

  function Hash16(values: seq<nat>, domain: Domain, input: seq<nat>): (r: seq<nat>)
    requires |values| == PARAMETER_COUNT
    ensures |r| == DIGEST_ELEMENTS && (Canonical(values) ==> Canonical(r))
  {
    var s := Absorbed(values, domain, input);
    s[..RATE] + [Permute(values, s)[0]]
  }

  function FirstNonCanonical(s: seq<nat>, from: nat): Option<P24Error>
    requires from <= |s|
    decreases |s| - from
  {
    if from == |s| then None
    else if s[from] >= MODULUS then Some(NonCanonical(from, s[from]))
    else FirstNonCanonical(s, from + 1)
  }

  lemma {:induction false} FirstNonCanonicalDecides(s: seq<nat>, from: nat)
    requires from <= |s|
    ensures FirstNonCanonical(s, from).None? <==> Canonical(s[from..])
    ensures FirstNonCanonical(s, from).Some? ==>
              var at := FirstNonCanonical(s, from).value;
              at.NonCanonical? && from <= at.index < |s| && at.value == s[at.index] >= MODULUS &&
              Canonical(s[from..at.index])
    decreases |s| - from
  {
    if from < |s| {
      FirstNonCanonicalDecides(s, from + 1);
      assert forall i | 1 <= i < |s| - from :: s[from..][i] == s[from + 1..][i - 1];
      if Canonical(s[from..]) {
        assert s[from..][0] < MODULUS;
      }
      assert s[from + 1..] == s[from..][1..];
    }
  }

  function CheckedHash(values: seq<nat>, domain: Domain, input: seq<nat>): Result<seq<nat>, P24Error>
    requires |values| == PARAMETER_COUNT
  {
    if |input| != domain.InputElements() then Err(InvalidDomainArity(|input|, domain.InputElements()))
    else match FirstNonCanonical(input, 0)
      case Some(e) => Err(e)
      case None => Ok(Hash16(values, domain, input))
  }

  /** Bit `level` of a leaf index. */
  predicate IndexBit(index: nat, level: nat) {
    PaddedTree.Up(index, level) % 2 == 1
  }

  /** The ordered children of a path step: the sibling goes left when the index bit is set. */
  function Children(bit: bool, below: seq<nat>, sibling: seq<nat>): seq<nat> {
    if bit then sibling + below else below + sibling
  }

  /** The root above `leaf` along the first `level` siblings; index bit `i` gives the direction at level `i`. */
  function PathRoot(values: seq<nat>, leaf: seq<nat>, index: nat, siblings: seq<seq<nat>>, level: nat): seq<nat>
    requires |values| == PARAMETER_COUNT && level <= |siblings|
  {
    if level == 0 then leaf
    else Hash16(values, Node, Children(IndexBit(index, level - 1),
                                       PathRoot(values, leaf, index, siblings, level - 1), siblings[level - 1]))
  }

  ghost predicate CanonicalDigests(siblings: seq<seq<nat>>) {
    forall i | 0 <= i < |siblings| :: |siblings[i]| == DIGEST_ELEMENTS && Canonical(siblings[i])
  }

  // ----- the note tree

  /** The three domains as the hash of a padded tree: empty leaves, notes, and left child before right child. */
  function NoteHash(values: seq<nat>): PaddedTree.TreeHash<seq<nat>>
    requires |values| == PARAMETER_COUNT
  {
    (query: PaddedTree.Query<seq<nat>>) =>
      match query
      case EmptyLeaf => Hash16(values, EmptyBase, [])
      case Leaf(note) => Hash16(values, Leaf, note)
      case Node(left, right) => Hash16(values, Node, left + right)
  }

  /** The root of the tree of the given depth over the notes. */
  function NoteRoot(values: seq<nat>, depth: nat, notes: seq<seq<nat>>): seq<nat>
    requires |values| == PARAMETER_COUNT
  {
    PaddedTree.CompleteRoot(NoteHash(values), depth, notes)
  }

  lemma TwoNoteRoot(values: seq<nat>, a: seq<nat>, b: seq<nat>)
    requires |values| == PARAMETER_COUNT
    ensures PaddedTree.CompleteRoot(NoteHash(values), 1, [a, b]) ==
            Hash16(values, Node, Hash16(values, Leaf, a) + Hash16(values, Leaf, b))
    ensures PaddedTree.CompleteRoot(NoteHash(values), 1, [a]) ==
            Hash16(values, Node, Hash16(values, Leaf, a) + Hash16(values, EmptyBase, []))
  {
    PaddedTree.TwoLeafRoot(NoteHash(values), a, b);
  }

  lemma NodeOf(values: seq<nat>, bit: bool, below: seq<nat>, sibling: seq<nat>)
    requires |values| == PARAMETER_COUNT
    ensures Hash16(values, Node, Children(bit, below, sibling)) ==
            NoteHash(values)(if bit then PaddedTree.Node(sibling, below) else PaddedTree.Node(below, sibling))
  {
  }

  lemma {:induction false} PathRootIsPathValue(
    values: seq<nat>, note: seq<nat>, index: nat, siblings: seq<seq<nat>>, level: nat)
    requires |values| == PARAMETER_COUNT && level <= |siblings|
    ensures PathRoot(values, Hash16(values, Leaf, note), index, siblings, level) ==
            PaddedTree.PathValue(NoteHash(values), PaddedTree.Leaf(note), index, siblings, level)
  {
    hide Hash16, PaddedTree.Up;
    var h, leaf := NoteHash(values), PaddedTree.Leaf(note);
    if level > 0 {
      PathRootIsPathValue(values, note, index, siblings, level - 1);
      var below := PaddedTree.PathValue(h, leaf, index, siblings, level - 1);
      NodeOf(values, IndexBit(index, level - 1), below, siblings[level - 1]);
      hide NoteHash;
    }
  }

  /** The siblings beside leaf `index` in the tree over the notes. */
  ghost predicate NoteSiblings(values: seq<nat>, notes: seq<seq<nat>>, index: nat, siblings: seq<seq<nat>>)
    requires |values| == PARAMETER_COUNT
  {
    index < |notes| <= Pow2(|siblings|) &&
    PaddedTree.HonestPath(NoteHash(values), notes, index, siblings, |siblings|)
  }

  /** A note and the siblings beside it rebuild the root of its tree. */
  lemma NotePathRebuilds(values: seq<nat>, notes: seq<seq<nat>>, index: nat, siblings: seq<seq<nat>>)
    requires |values| == PARAMETER_COUNT && NoteSiblings(values, notes, index, siblings)
    ensures PathRoot(values, Hash16(values, Leaf, notes[index]), index, siblings, |siblings|) ==
            NoteRoot(values, |siblings|, notes)
  {
    PaddedTree.UpToTop(index, |siblings|);
    hide Hash16, NoteHash, PathRoot, Pow2, PaddedTree.Up;
    PathRootIsPathValue(values, notes[index], index, siblings, |siblings|);
    PaddedTree.HonestPathRebuilds(NoteHash(values), notes, index, siblings, |siblings|);
    hide PaddedTree.PathValue, PaddedTree.NodeValue, PaddedTree.HonestPath;
  }

  /** The siblings a tree shows are canonical digests. */
  lemma NoteSiblingsCanonical(values: seq<nat>, notes: seq<seq<nat>>, index: nat, siblings: seq<seq<nat>>)
    requires Loaded(values) && NoteSiblings(values, notes, index, siblings)
    ensures CanonicalDigests(siblings)
  {
    forall i | 0 <= i < |siblings| ensures |siblings[i]| == DIGEST_ELEMENTS && Canonical(siblings[i]) {
      var query := PaddedTree.NodeQuery(NoteHash(values), notes, i, PaddedTree.Beside(PaddedTree.Up(index, i)));
      NoteHashCanonical(values, query);
      hide NoteHash, Hash16, PaddedTree.Up, PaddedTree.Beside, Loaded;
      assert siblings[i] == NoteHash(values)(query);
    }
  }

  lemma NoteHashCanonical(values: seq<nat>, query: PaddedTree.Query<seq<nat>>)
    requires Loaded(values)
    ensures |NoteHash(values)(query)| == DIGEST_ELEMENTS && Canonical(NoteHash(values)(query))
  {
  }

  /** The first non-canonical element of the notes, in order. */
  method CheckNotes(notes: seq<seq<nat>>) returns (bad: Option<P24Error>)
    ensures bad.None? <==> forall i | 0 <= i < |notes| :: Canonical(notes[i])
  {
    for i := 0 to |notes|
      invariant forall k | 0 <= k < i :: Canonical(notes[k])
    {
      bad := FirstNonCanonical(notes[i], 0);
      CanonicalDecides(notes[i]);
      if bad.Some? {
        return;
      }
    }
    bad := None;
  }

  /** The root over at most four notes appended from index zero. */
  method SmallTreeRoot(values: seq<nat>, notes: seq<seq<nat>>) returns (r: Result<seq<nat>, P24Error>)
    requires Loaded(values) && forall i | 0 <= i < |notes| :: |notes[i]| == DIGEST_ELEMENTS
    ensures r.Ok? <==> |notes| <= 4 && CanonicalDigests(notes)
    ensures |notes| > 4 ==> r == Err(TooManySmallTreeNotes(|notes|))
    ensures r.Ok? ==> r.value == NoteRoot(values, TREE_DEPTH, notes)
  {
    if |notes| > 4 {
      return Err(TooManySmallTreeNotes(|notes|));
    }
    var bad := CheckNotes(notes);
    if bad.Some? {
      return Err(bad.value);
    }
    SmallFits();
    hide NoteHash, Pow2;
    var root := PaddedTree.RootFromCommitments(NoteHash(values), TREE_DEPTH, notes);
    r := Ok(root);
  }

  lemma SmallFits()
    ensures 4 <= Pow2(TREE_DEPTH)
  {
    GrowsFrom(2, TREE_DEPTH);
  }

  lemma {:induction false} GrowsFrom(low: nat, high: nat)
    requires low <= high
    ensures Pow2(low) <= Pow2(high)
  {
    if low < high {
      GrowsFrom(low, high - 1);
    }
  }

  datatype NotePath = NotePath(leaf: seq<nat>, siblings: seq<seq<nat>>, root: seq<nat>)

  /** The leaf, the siblings beside it on every level and the root: a missing sibling is the empty value of its level,
      and an odd level is completed with it. */
  method SmallTreePath(values: seq<nat>, notes: seq<seq<nat>>, leafIndex: nat) returns (r: Result<NotePath, P24Error>)
    requires Loaded(values) && forall i | 0 <= i < |notes| :: |notes[i]| == DIGEST_ELEMENTS
    ensures r.Ok? <==> |notes| <= 4 && leafIndex < |notes| && CanonicalDigests(notes)
    ensures |notes| > 4 ==> r == Err(TooManySmallTreeNotes(|notes|))
    ensures |notes| <= 4 && leafIndex >= |notes| ==> r == Err(SmallTreePathIndexOutOfBounds(leafIndex, |notes|))
    ensures r.Ok? ==> r.value.leaf == Hash16(values, Leaf, notes[leafIndex])
                      && r.value.root == NoteRoot(values, TREE_DEPTH, notes)
                      && |r.value.siblings| == TREE_DEPTH && NoteSiblings(values, notes, leafIndex, r.value.siblings)
  {
    hide NoteHash, Hash16, Pow2, FirstNonCanonical, PaddedTree.HonestPath, PaddedTree.CompleteRoot;
    if |notes| > 4 {
      return Err(TooManySmallTreeNotes(|notes|));
    }
    if leafIndex >= |notes| {
      return Err(SmallTreePathIndexOutOfBounds(leafIndex, |notes|));
    }
    var bad := FirstNonCanonical(notes[leafIndex], 0);
    CanonicalDecides(notes[leafIndex]);
    if bad.Some? {
      return Err(bad.value);
    }
    bad := CheckNotes(notes);
    if bad.Some? {
      return Err(bad.value);
    }
    SmallFits();
    var leaf := Hash16(values, Leaf, notes[leafIndex]);
    hide Loaded, Canonical;
    var siblings, root := ClimbFrom(NoteHash(values), TREE_DEPTH, notes, leafIndex);
    r := Ok(NotePath(leaf, siblings, root));
  }

  /** The level loop of the path builder. */
  method ClimbFrom(h: PaddedTree.TreeHash<seq<nat>>, depth: nat, notes: seq<seq<nat>>, leafIndex: nat)
    returns (siblings: seq<seq<nat>>, root: seq<nat>)
    requires leafIndex < |notes| <= Pow2(depth)
    ensures |siblings| == depth && PaddedTree.HonestPath(h, notes, leafIndex, siblings, depth)
    ensures root == PaddedTree.CompleteRoot(h, depth, notes)
  {
    PaddedTree.UpToTop(leafIndex, depth);
    hide Pow2;
    var empty := PaddedTree.EmptyHashes(h, depth);
    var nodes := PaddedTree.LeafLevel(h, notes);
    var index := leafIndex;
    siblings := [];
    for level := 0 to depth
      invariant PaddedTree.IsLevel(h, notes, level, nodes) && index == PaddedTree.Up(leafIndex, level) < |nodes|
      invariant |siblings| == level && PaddedTree.HonestPath(h, notes, leafIndex, siblings, level)
    {
      var beside := PaddedTree.Beside(index);
      assert beside >= |nodes| ==> PaddedTree.EmptyAt(h, notes, level, beside);
      siblings := siblings + [if beside < |nodes| then nodes[beside] else empty[level]];
      var padded := PaddedTree.Pad(h, notes, level, empty[level], nodes);
      nodes := PaddedTree.ParentLevel(h, notes, level, padded);
      index := index / 2;
    }
    root := nodes[0];
  }

  /** The sibling loop: each sibling is checked, then hashed on the side its index bit says. */
  method FoldSiblings(values: seq<nat>, leaf: seq<nat>, index: nat, siblings: seq<seq<nat>>)
    returns (r: Result<seq<nat>, P24Error>)
    requires Loaded(values) && |leaf| == DIGEST_ELEMENTS && Canonical(leaf)
    requires forall i | 0 <= i < |siblings| :: |siblings[i]| == DIGEST_ELEMENTS
    ensures r.Ok? <==> CanonicalDigests(siblings)
    ensures r.Ok? ==> r.value == PathRoot(values, leaf, index, siblings, |siblings|)
  {
    hide FirstNonCanonical, CheckedHash, Hash16;
    var current := leaf;
    for level := 0 to |siblings|
      invariant current == PathRoot(values, leaf, index, siblings, level)
      invariant |current| == DIGEST_ELEMENTS && Canonical(current)
      invariant forall i | 0 <= i < level :: Canonical(siblings[i])
    {
      var bad := FirstNonCanonical(siblings[level], 0);
      CanonicalDecides(siblings[level]);
      if bad.Some? {
        return Err(bad.value);
      }
      NodeHashes(values, IndexBit(index, level), current, siblings[level]);
      current := CheckedHash(values, Node, Children(IndexBit(index, level), current, siblings[level])).value;
    }
    r := Ok(current);
  }

  lemma LeafPathRebuilds(values: seq<nat>, leaf: seq<nat>, index: nat, siblings: seq<seq<nat>>)
    requires Loaded(values)
    ensures forall notes | NoteSiblings(values, notes, index, siblings) && leaf == Hash16(values, Leaf, notes[index]) ::
              Canonical(leaf) && CanonicalDigests(siblings) &&
              PathRoot(values, leaf, index, siblings, |siblings|) == NoteRoot(values, |siblings|, notes)
  {
    forall notes | NoteSiblings(values, notes, index, siblings) && leaf == Hash16(values, Leaf, notes[index])
      ensures Canonical(leaf) && CanonicalDigests(siblings)
      ensures PathRoot(values, leaf, index, siblings, |siblings|) == NoteRoot(values, |siblings|, notes)
    {
      NotePathRebuilds(values, notes, index, siblings);
      NoteSiblingsCanonical(values, notes, index, siblings);
    }
  }

  /** Rebuilds a root from a leaf digest, rejecting non-canonical digests first. From the digest of a note and the
      siblings beside it in a tree, the result is the root of that tree. */
  method RootFromPath(values: seq<nat>, leaf: seq<nat>, index: nat, siblings: seq<seq<nat>>)
    returns (r: Result<seq<nat>, P24Error>)
    requires Loaded(values) && |leaf| == DIGEST_ELEMENTS && |siblings| == TREE_DEPTH
    requires forall i | 0 <= i < TREE_DEPTH :: |siblings[i]| == DIGEST_ELEMENTS
    ensures r.Ok? <==> Canonical(leaf) && CanonicalDigests(siblings)
    ensures r.Ok? ==> r.value == PathRoot(values, leaf, index, siblings, |siblings|)
    ensures forall notes | NoteSiblings(values, notes, index, siblings) && leaf == Hash16(values, Leaf, notes[index]) ::
              r == Ok(NoteRoot(values, |siblings|, notes))
  {
    LeafPathRebuilds(values, leaf, index, siblings);
    hide FirstNonCanonical, Hash16, NoteSiblings, NoteRoot, NoteHash, Loaded, PathRoot;
    var bad := FirstNonCanonical(leaf, 0);
    CanonicalDecides(leaf);
    if bad.Some? {
      return Err(bad.value);
    }
    r := FoldSiblings(values, leaf, index, siblings);
  }

  /** Canonical children hash to a canonical digest. */
  lemma NodeHashes(values: seq<nat>, bit: bool, below: seq<nat>, sibling: seq<nat>)
    requires |values| == PARAMETER_COUNT && Canonical(values)
    requires |below| == |sibling| == DIGEST_ELEMENTS
    ensures Canonical(below) && Canonical(sibling) <==> CheckedHash(values, Node, Children(bit, below, sibling)).Ok?
    ensures Canonical(below) && Canonical(sibling) ==>
              CheckedHash(values, Node, Children(bit, below, sibling)) == Ok(Hash16(values, Node,
                  Children(bit, below, sibling)))
  {
    CanonicalDecides(Children(bit, below, sibling));
    CanonicalParts(below, sibling);
    CanonicalParts(sibling, below);
  }

  lemma CanonicalParts(a: seq<nat>, b: seq<nat>)
    ensures Canonical(a + b) <==> Canonical(a) && Canonical(b)
  {
    if Canonical(a + b) {
      assert forall i | 0 <= i < |a| :: a[i] == (a + b)[i];
      assert forall i | 0 <= i < |b| :: b[i] == (a + b)[|a| + i];
    }
  }

  lemma CanonicalDecides(s: seq<nat>)
    ensures FirstNonCanonical(s, 0).None? <==> Canonical(s)
  {
    FirstNonCanonicalDecides(s, 0);
    assert s[0..] == s;
  }
}
