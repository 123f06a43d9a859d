/** Node addressing of the 512-level sparse nullifier tree: a node is a height and a 512-bit key whose
    bits below that height are cleared, and moving up one level consumes one key bit. */
module NodePosition {

  /** One level for every bit of a nullifier. */
  const DEPTH := 512

  /** The bits of a 64-byte nullifier; bit `i` is consumed between heights `i` and `i + 1`. */
  type Key = k: seq<bool> | |k| == DEPTH witness seq(DEPTH, _ => false)

  datatype Position = Position(height: nat, key: Key)

  function FlipBit(key: Key, level: nat): Key
    requires level < DEPTH
  {
    key[level := !key[level]]
  }

  function ClearBit(key: Key, level: nat): Key
    requires level < DEPTH
  {
    key[level := false]
  }

  function Leaf(nullifier: Key): Position {
    Position(0, nullifier)
  }

  function Root(): Position {
    Position(DEPTH, seq(DEPTH, _ => false))
  }

  function Sibling(p: Position): Position
    requires p.height < DEPTH
  {
    Position(p.height, FlipBit(p.key, p.height))
  }

  function Parent(p: Position): Position
    requires p.height < DEPTH
  {
    Position(p.height + 1, ClearBit(p.key, p.height))
  }

  predicate PathBit(p: Position)
    requires p.height < DEPTH
  {
    p.key[p.height]
  }

  // ----- ancestors

  /** `key` with its bits below `height` cleared: the prefix that addresses a node at `height`. */
  function AncestorKey(key: Key, height: nat): Key
    requires height <= DEPTH
  {
    seq(DEPTH, i requires 0 <= i < DEPTH => height <= i && key[i])
  }

  function Ancestor(key: Key, height: nat): Position
    requires height <= DEPTH
  {
    Position(height, AncestorKey(key, height))
  }

  /** A key that addresses a node at `height`. */
  ghost predicate Aligned(key: Key, height: nat)
    requires height <= DEPTH
  {
    forall i | 0 <= i < height :: !key[i]
  }

  /** A walk by `Parent` visits the ancestors of its leaf and ends at the root. */
  lemma AncestorWalk(key: Key, height: nat)
    requires height <= DEPTH
    ensures Ancestor(key, 0) == Leaf(key)
    ensures Ancestor(key, DEPTH) == Root()
    ensures height < DEPTH ==> Parent(Ancestor(key, height)) == Ancestor(key, height + 1)
    ensures height < DEPTH ==> PathBit(Ancestor(key, height)) == key[height]
  {
    assert AncestorKey(key, 0) == key;
    assert AncestorKey(key, DEPTH) == Root().key;
    assert height < DEPTH ==> ClearBit(AncestorKey(key, height), height) == AncestorKey(key, height + 1);
  }

  /** A walk stands on the left or the right child of its next position, as its path bit says,
      and its sibling on the other one. */
  lemma AncestorStep(key: Key, height: nat)
    requires height < DEPTH
    ensures var here, up := AncestorKey(key, height), AncestorKey(key, height + 1);
            if key[height] then here == FlipBit(up, height) && FlipBit(here, height) == up
            else here == up
  {
    var here, up := AncestorKey(key, height), AncestorKey(key, height + 1);
    if key[height] {
      assert here == FlipBit(up, height);
      assert FlipBit(here, height) == up;
    } else {
      assert here == up;
    }
  }

  /** The keys below an aligned position are those below its left child and those below its right child. */
  lemma BelowChildren(key: Key, top: Key, height: nat)
    requires height < DEPTH && Aligned(top, height + 1)
    ensures AncestorKey(key, height + 1) == top <==>
            AncestorKey(key, height) == top || AncestorKey(key, height) == FlipBit(top, height)
    ensures Aligned(top, height) && Aligned(FlipBit(top, height), height)
  {
    AncestorStep(key, height);
    var here, up := AncestorKey(key, height), AncestorKey(key, height + 1);
    if here == top {
      assert !key[height] by { assert here[height] == key[height]; }
    } else if here == FlipBit(top, height) {
      assert key[height] by { assert here[height] == key[height]; }
      assert FlipBit(here, height) == top;
    }
  }
}
