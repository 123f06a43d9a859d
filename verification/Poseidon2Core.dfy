/** The allocation-free Poseidon2 kernel: conditional subtraction, flat parameters and the `J + diagonal`
    internal layer, proved to compute the dense reference on every input. */
module Poseidon2Core {
  import opened Common
  import opened Hashing
  import PaddedTree
  import opened Poseidon2Reference

  // ----- field arithmetic

  /** One conditional subtraction reduces the sum of two canonical elements, and the sum fits `u32`. */
  function FastAdd(left: nat, right: nat): (r: nat)
    requires left < MODULUS && right < MODULUS
    ensures left + right <= U32_MAX
    ensures r == Add(left, right) && r < MODULUS
  {
    var sum := left + right;
    if sum >= MODULUS then sum - MODULUS else sum
  }

  /** The product of two canonical elements fits the `u64` it is reduced in. */
  lemma ProductFits(left: nat, right: nat)
    requires left < MODULUS && right < MODULUS
    ensures left * right <= U64_MAX
  {
    assert left * right <= left * MODULUS;
    assert left * MODULUS <= MODULUS * MODULUS;
  }

  // ----- the internal layer

  /** The running sum of the state lanes. */
  function LaneSum(s: seq<nat>, n: nat): nat
    requires n <= |s|
  {
    if n == 0 then 0 else Add(LaneSum(s, n - 1), s[n - 1])
  }

  /** A dense row of ones with `diagonal + 1` at `at` is the lane sum plus the diagonal product. */
  lemma {:induction false} DenseRowIsSumPlusDiagonal(row: seq<nat>, s: seq<nat>, at: nat, diagonal: nat, n: nat)
    requires n <= |row| == |s| && at < |s| && Canonical(s)
    requires forall c | 0 <= c < |row| :: row[c] == if c == at then Add(diagonal, 1) else 1
    ensures RowDot(row, s, n) == if at < n then Add(LaneSum(s, n), Multiply(diagonal, s[at])) else LaneSum(s, n)
  {
    if n > 0 {
      DenseRowIsSumPlusDiagonal(row, s, at, diagonal, n - 1);
      var sum, lane := LaneSum(s, n - 1), s[n - 1];
      if n - 1 == at {
        DiagonalProduct(diagonal, lane);
        SplitProduct(sum, diagonal * lane, lane);
      } else if at < n - 1 {
        assert Multiply(1, lane) == lane;
        AddSwap(sum, Multiply(diagonal, s[at]), lane);
      } else {
        assert Multiply(1, lane) == lane;
      }
    }
  }

  lemma AddSwap(a: nat, b: nat, c: nat)
    ensures Add(Add(a, b), c) == Add(Add(a, c), b)
  {
  }

  lemma SplitProduct(a: nat, t: nat, c: nat)
    ensures Add(a, (t + c) % MODULUS) == Add(Add(a, c), t % MODULUS)
  {
  }

  lemma DiagonalProduct(diagonal: nat, lane: nat)
    ensures Multiply(Add(diagonal, 1), lane) == (diagonal * lane + lane) % MODULUS
  {
    ReduceFactor(diagonal + 1, lane);
    assert (diagonal + 1) * lane == diagonal * lane + lane;
  }

  lemma InternalRow(values: seq<nat>, row: nat)
    requires Loaded(values) && row < WIDTH
    ensures forall c | 0 <= c < WIDTH ::
              Row(values, INTERNAL_OFFSET, row)[c] == if c == row then Add(values[DIAGONAL_OFFSET + row], 1) else 1
  {
    forall c | 0 <= c < WIDTH
      ensures Row(values, INTERNAL_OFFSET, row)[c] == if c == row then Add(values[DIAGONAL_OFFSET + row], 1) else 1
    {
      assert Row(values, INTERNAL_OFFSET, row)[c] == values[INTERNAL_OFFSET + row * WIDTH + c];
      assert values[INTERNAL_OFFSET + row * WIDTH + c] == ExpectedInternal(values, row, c);
    }
  }

  ghost predicate IsState(state: array<nat>)
    reads state
  {
    state.Length == WIDTH && Canonical(state[..])
  }

  /** `J + diagonal` in place of the dense internal product. */
  method InternalJPlusDiagonal(values: seq<nat>, state: array<nat>) returns (output: array<nat>)
    requires Loaded(values) && IsState(state)
    ensures fresh(output) && IsState(output) && output[..] == MatVec(values, INTERNAL_OFFSET, state[..])
  {
    var sum := 0;
    ghost var s := state[..];
    for i := 0 to WIDTH
      invariant sum == LaneSum(s, i) < MODULUS
    {
      assert s[i] == state[i];
      sum := FastAdd(sum, state[i]);
    }
    output := new nat[WIDTH];
    for i := 0 to WIDTH
      invariant state[..] == s
      invariant forall j | 0 <= j < i :: output[j] == RowDot(Row(values, INTERNAL_OFFSET, j), s, WIDTH)
    {
      InternalRow(values, i);
      DenseRowIsSumPlusDiagonal(Row(values, INTERNAL_OFFSET, i), s, i, values[DIAGONAL_OFFSET + i], WIDTH);
      assert s[i] == state[i];
      output[i] := FastAdd(sum, Multiply(values[DIAGONAL_OFFSET + i], state[i]));
    }
    assert output[..] == MatVec(values, INTERNAL_OFFSET, s);
  }

  /** The dense external layer over the flat parameters, with the fast addition. */
  method MatmulParameters(values: seq<nat>, offset: nat, state: array<nat>) returns (output: array<nat>)
    requires |values| == PARAMETER_COUNT && offset + WIDTH * WIDTH <= |values| && IsState(state)
    ensures fresh(output) && IsState(output) && output[..] == MatVec(values, offset, state[..])
  {
    ghost var s := state[..];
    output := new nat[WIDTH];
    for row := 0 to WIDTH
      invariant state[..] == s
      invariant forall j | 0 <= j < row :: output[j] == RowDot(Row(values, offset, j), s, WIDTH)
    {
      var accumulated := 0;
      for column := 0 to WIDTH
        invariant accumulated == RowDot(Row(values, offset, row), s, column) < MODULUS
      {
        var matrixValue := values[offset + row * WIDTH + column];
        assert Row(values, offset, row)[column] == matrixValue && s[column] == state[column];
        accumulated := FastAdd(accumulated, Multiply(matrixValue, state[column]));
      }
      output[row] := accumulated;
    }
    assert output[..] == MatVec(values, offset, s);
  }

  method AddRoundConstants(values: seq<nat>, state: array<nat>, round: nat)
    requires |values| == PARAMETER_COUNT && Canonical(values) && round < TOTAL_ROUNDS && IsState(state)
    modifies state
    ensures IsState(state) && state[..] == AddConstants(old(state[..]), Constants(values, round))
  {
    for lane := 0 to WIDTH
      invariant forall i | 0 <= i < lane :: state[i] == Add(old(state[i]), Constants(values, round)[i])
      invariant forall i | lane <= i < WIDTH :: state[i] == old(state[i])
    {
      assert Constants(values, round)[lane] == values[ROUND_CONSTANT_OFFSET + round * WIDTH + lane];
      assert old(state[..])[lane] < MODULUS;
      state[lane] := FastAdd(state[lane], values[ROUND_CONSTANT_OFFSET + round * WIDTH + lane]);
    }
    assert state[..] == AddConstants(old(state[..]), Constants(values, round));
  }

  method ApplySboxToAll(state: array<nat>)
    requires IsState(state)
    modifies state
    ensures IsState(state) && state[..] == SboxAll(old(state[..]))
  {
    for i := 0 to WIDTH
      invariant forall j | 0 <= j < i :: state[j] == SboxSeven(old(state[j]))
      invariant forall j | i <= j < WIDTH :: state[j] == old(state[j])
    {
      state[i] := SboxSeven(state[i]);
    }
    assert state[..] == SboxAll(old(state[..]));
  }

  // ----- rounds

  method FullRound(values: seq<nat>, state: array<nat>, round: nat) returns (next: array<nat>)
    requires Loaded(values) && round < TOTAL_ROUNDS && !IsPartial(round) && IsState(state)
    modifies state
    ensures fresh(next) && IsState(next) && next[..] == Round(values, round, old(state[..]))
  {
    AddRoundConstants(values, state, round);
    ApplySboxToAll(state);
    next := MatmulParameters(values, EXTERNAL_OFFSET, state);
  }

  method PartialRound(values: seq<nat>, state: array<nat>, round: nat) returns (next: array<nat>)
    requires Loaded(values) && IsPartial(round) && IsState(state)
    modifies state
    ensures fresh(next) && IsState(next) && next[..] == Round(values, round, old(state[..]))
  {
    ghost var s := state[..];
    var constant := values[ROUND_CONSTANT_OFFSET + round * WIDTH];
    assert Constants(values, round)[0] == constant && s[0] == state[0];
    state[0] := FastAdd(state[0], constant);
    state[0] := SboxSeven(state[0]);
    assert state[..] == s[0 := SboxSeven(Add(s[0], constant))];
    next := InternalJPlusDiagonal(values, state);
  }

  function PermutationResult(values: seq<nat>, s: seq<nat>): Result<seq<nat>, P24Error>
    requires |values| == PARAMETER_COUNT && |s| == WIDTH
  {
    match FirstNonCanonical(s, 0)
    case Some(e) => Err(e)
    case None => Ok(Permute(values, s))
  }

  method ValidateElements(input: seq<nat>) returns (bad: Option<P24Error>)
    ensures bad == FirstNonCanonical(input, 0)
  {
    for i := 0 to |input|
      invariant FirstNonCanonical(input, 0) == FirstNonCanonical(input, i)
    {
      if input[i] >= MODULUS {
        return Some(NonCanonical(i, input[i]));
      }
    }
    bad := None;
  }

  /** The fast permutation is the dense permutation on every state, and rejects exactly the non-canonical ones. */
  method Permutation(values: seq<nat>, input: seq<nat>) returns (r: Result<seq<nat>, P24Error>)
    requires Loaded(values) && |input| == WIDTH
    ensures r == PermutationResult(values, input)
  {
    hide Round, MatVec;
    var bad := ValidateElements(input);
    CanonicalDecides(input);
    if bad.Some? {
      return Err(bad.value);
    }
    var state := new nat[WIDTH](i requires 0 <= i < WIDTH => input[i]);
    assert state[..] == input;
    state := MatmulParameters(values, EXTERNAL_OFFSET, state);
    for round := 0 to HALF_FULL_ROUNDS
      invariant fresh(state) && IsState(state) && state[..] == Rounds(values, round, input)
    {
      state := FullRound(values, state, round);
    }
    for round := HALF_FULL_ROUNDS to HALF_FULL_ROUNDS + PARTIAL_ROUNDS
      invariant fresh(state) && IsState(state) && state[..] == Rounds(values, round, input)
    {
      state := PartialRound(values, state, round);
    }
    for round := HALF_FULL_ROUNDS + PARTIAL_ROUNDS to TOTAL_ROUNDS
      invariant fresh(state) && IsState(state) && state[..] == Rounds(values, round, input)
    {
      state := FullRound(values, state, round);
    }
    r := Ok(state[..]);
  }

  // ----- hashing

  /** Adds one block of at most fifteen elements into the rate lanes. */
  method AbsorbBlock(s: seq<nat>, block: seq<nat>) returns (next: seq<nat>)
    requires |s| == WIDTH && Canonical(s) && |block| <= RATE && Canonical(block)
    ensures next == AddBlock(s, block)
  {
    next := s;
    for i := 0 to |block|
      invariant |next| == WIDTH
      invariant forall j | 0 <= j < i :: next[j] == Add(s[j], block[j])
      invariant forall j | i <= j < WIDTH :: next[j] == s[j]
    {
      next := next[i := FastAdd(next[i], block[i])];
    }
  }

  /** The fast `Hash16` is the dense one for every domain and input, including its rejections. */
  method FastHash16(values: seq<nat>, domain: Domain, input: seq<nat>) returns (r: Result<seq<nat>, P24Error>)
    requires Loaded(values)
    ensures r == CheckedHash(values, domain, input)
  {
    if |input| != domain.InputElements() {
      return Err(InvalidDomainArity(|input|, domain.InputElements()));
    }
    var bad := ValidateElements(input);
    CanonicalDecides(input);
    if bad.Some? {
      return Err(bad.value);
    }
    var state := InitialState(values, domain);
    if input == [] {
      state := PermuteCanonical(values, state);
    } else {
      state := AbsorbAll(values, state, input);
    }
    var squeezed := PermuteCanonical(values, state);
    r := Ok(state[..RATE] + [squeezed[0]]);
  }

  method AbsorbAll(values: seq<nat>, initial: seq<nat>, input: seq<nat>) returns (state: seq<nat>)
    requires Loaded(values) && |initial| == WIDTH && Canonical(initial) && Canonical(input)
    ensures state == Absorb(values, initial, input)
  {
    state := initial;
    var offset := 0;
    assert input[0..] == input;
    while offset < |input|
      invariant 0 <= offset <= |input| && |state| == WIDTH && Canonical(state)
      invariant Absorb(values, state, input[offset..]) == Absorb(values, initial, input)
    {
      var end := if |input| - offset < RATE then |input| else offset + RATE;
      assert input[offset..][..end - offset] == input[offset..end];
      assert input[offset..][end - offset..] == input[end..];
      state := AbsorbBlock(state, input[offset..end]);
      state := PermuteCanonical(values, state);
      offset := end;
    }
    assert input[|input|..] == [];
  }

  method PermuteCanonical(values: seq<nat>, s: seq<nat>) returns (t: seq<nat>)
    requires Loaded(values) && |s| == WIDTH && Canonical(s)
    ensures t == Permute(values, s)
  {
    var r := Permutation(values, s);
    CanonicalDecides(s);
    t := r.value;
  }

  /** The sibling loop of the note path; a sibling is checked by the hash that absorbs it. */
  method FastFold(values: seq<nat>, leaf: seq<nat>, index: nat, siblings: seq<seq<nat>>)
    returns (r: Result<seq<nat>, P24Error>)
    requires Loaded(values) && |leaf| == DIGEST_ELEMENTS && Canonical(leaf)
    requires forall i | 0 <= i < |siblings| :: |siblings[i]| == DIGEST_ELEMENTS
    ensures r.Ok? <==> CanonicalDigests(siblings)
    ensures r.Ok? ==> r.value == PathRoot(values, leaf, index, siblings, |siblings|)
  {
    hide CheckedHash, Hash16;
    var current := leaf;
    for level := 0 to |siblings|
      invariant current == PathRoot(values, leaf, index, siblings, level)
      invariant |current| == DIGEST_ELEMENTS && Canonical(current)
      invariant forall i | 0 <= i < level :: Canonical(siblings[i])
    {
      NodeHashes(values, IndexBit(index, level), current, siblings[level]);
      var next := FastHash16(values, Node, Children(IndexBit(index, level), current, siblings[level]));
      if next.Err? {
        return next;
      }
      current := next.value;
    }
    r := Ok(current);
  }

  /** The fast note path: the leaf hash of the note followed by the dense path, accepted on the same inputs. */
  method RootFromNotePath(values: seq<nat>, note: seq<nat>, index: nat, siblings: seq<seq<nat>>)
    returns (r: Result<seq<nat>, P24Error>)
    requires Loaded(values) && |note| == DIGEST_ELEMENTS && |siblings| == TREE_DEPTH
    requires forall i | 0 <= i < TREE_DEPTH :: |siblings[i]| == DIGEST_ELEMENTS
    ensures r.Ok? <==> Canonical(note) && CanonicalDigests(siblings)
    ensures r.Ok? ==> r.value == PathRoot(values, Hash16(values, Leaf, note), index, siblings, |siblings|)
    ensures forall notes | NoteSiblings(values, notes, index, siblings) && note == notes[index] && Canonical(note) ::
              r == Ok(NoteRoot(values, |siblings|, notes))
    ensures forall notes {:trigger NoteRoot(values, |siblings|, notes)} |
              NotesApart(values, notes, note, index, siblings) && r.Ok? ::
              r.value == NoteRoot(values, |siblings|, notes) <==> ProvesNote(values, notes, note, index, siblings)
  {
    NotePathDecides(values, note, index, siblings);
    hide NoteSiblings, NoteRoot, NotesApart, ProvesNote, Hash16, FirstNonCanonical, Loaded, PathRoot;
    var first := FastHash16(values, Leaf, note);
    CanonicalDecides(note);
    if first.Err? {
      return first;
    }
    r := FastFold(values, first.value, index, siblings);
  }

  /** Of the hashes taken for the tree over the notes and along the path, no two collide. */
  ghost predicate NotesApart(values: seq<nat>, notes: seq<seq<nat>>, note: seq<nat>, index: nat,
      siblings: seq<seq<nat>>)
    requires |values| == PARAMETER_COUNT
  {
    NoCollision(NoteHash(values), PaddedTree.VerifyQueries(NoteHash(values), notes, |siblings|, note,
                                                           PaddedTree.InclusionProof(index, siblings)))
  }

  /** The path shows the note at an occupied leaf of the tree, beside the siblings the tree has there. */
  ghost predicate ProvesNote(values: seq<nat>, notes: seq<seq<nat>>, note: seq<nat>, index: nat,
      siblings: seq<seq<nat>>)
    requires |values| == PARAMETER_COUNT
  {
    PaddedTree.ProvesLeaf(NoteHash(values), |siblings|, notes, note, PaddedTree.InclusionProof(index, siblings))
  }

  /** A path rebuilds the root of the tree it was taken from, and without collisions of no tree it was not taken
      from. */
  lemma NotePathDecides(values: seq<nat>, note: seq<nat>, index: nat, siblings: seq<seq<nat>>)
    requires Loaded(values)
    ensures forall notes | NoteSiblings(values, notes, index, siblings) && note == notes[index] ::
              CanonicalDigests(siblings) &&
              PathRoot(values, Hash16(values, Leaf, note), index, siblings, |siblings|) ==
              NoteRoot(values, |siblings|, notes)
    ensures forall notes {:trigger NoteRoot(values, |siblings|, notes)} |
              NotesApart(values, notes, note, index, siblings) ::
              PathRoot(values, Hash16(values, Leaf, note), index, siblings, |siblings|) ==
              NoteRoot(values, |siblings|, notes) <==>
              ProvesNote(values, notes, note, index, siblings)
  {
    hide Hash16, NoteHash, PathRoot;
    forall notes | NoteSiblings(values, notes, index, siblings) && note == notes[index]
      ensures CanonicalDigests(siblings)
      ensures PathRoot(values, Hash16(values, Leaf, note), index, siblings, |siblings|) ==
              NoteRoot(values, |siblings|, notes)
    {
      NotePathRebuilds(values, notes, index, siblings);
      NoteSiblingsCanonical(values, notes, index, siblings);
    }
    PathRootIsPathValue(values, note, index, siblings, |siblings|);
    forall notes {:trigger NoteRoot(values, |siblings|, notes)} | NotesApart(values, notes, note, index, siblings)
      ensures PathRoot(values, Hash16(values, Leaf, note), index, siblings, |siblings|) ==
              NoteRoot(values, |siblings|, notes) <==>
              ProvesNote(values, notes, note, index, siblings)
    {
      hide NoteSiblings;
      PaddedTree.PathDecides(NoteHash(values), |siblings|, notes, note, PaddedTree.InclusionProof(index, siblings));
    }
  }
}
