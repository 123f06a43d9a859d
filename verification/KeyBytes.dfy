/** The byte form of a node position. The source stores a key as 64 bytes and edits or reads one byte at a time; this
    module proves that each byte operation is the bit operation of `NodePosition` on the 512 key bits. */
module KeyBytes {
  import opened NodePosition

  const KEY_BYTES := 64

  type ByteKey = k: seq<bv8> | |k| == KEY_BYTES witness seq(KEY_BYTES, _ => 0)

  /** A position as the source holds it. */
  datatype BytePosition = BytePosition(height: nat, key: ByteKey)

  // ----- one byte

  /** The byte with a single bit set. */
  function Mask(bit: nat): bv8
    requires bit < 8
  {
    match bit
    case 0 => 1 case 1 => 2 case 2 => 4 case 3 => 8
    case 4 => 16 case 5 => 32 case 6 => 64 case _ => 128
  }

  predicate ByteBit(b: bv8, bit: nat)
    requires bit < 8
  {
    b & Mask(bit) != 0
  }

  lemma MaskIsShift(bit: nat)
    requires bit < 8
    ensures Mask(bit) == (1 as bv8) << bit
  {
    match bit
    case 0 => case 1 => case 2 => case 3 => case 4 => case 5 => case 6 => case _ =>
  }

  lemma LowBitIsShift(b: bv8, bit: nat)
    requires bit < 4
    ensures ByteBit(b, bit) <==> (b >> bit) & 1 == 1
  {
    match bit case 0 => case 1 => case 2 => case _ =>
  }

  lemma HighBitIsShift(b: bv8, bit: nat)
    requires 4 <= bit < 8
    ensures ByteBit(b, bit) <==> (b >> bit) & 1 == 1
  {
    match bit case 4 => case 5 => case 6 => case _ =>
  }

  lemma MasksMeet(bit: nat, other: nat)
    requires bit < 8 && other < 8
    ensures Mask(bit) & Mask(other) == if bit == other then Mask(bit) else 0
  {
  }

  lemma OneBitOrNone(b: bv8, bit: nat)
    requires bit < 8
    ensures b & Mask(bit) == 0 || b & Mask(bit) == Mask(bit)
  {
    match bit
    case 0 => case 1 => case 2 => case 3 => case 4 => case 5 => case 6 => case _ =>
  }

  lemma XorThenAnd(b: bv8, m: bv8, n: bv8)
    ensures (b ^ m) & n == (b & n) ^ (m & n)
  {
  }

  lemma ClearThenAnd(b: bv8, m: bv8, n: bv8)
    ensures (b & !m) & n == (b & n) & !(m & n)
  {
  }

  lemma FlipByte(b: bv8, bit: nat, other: nat)
    requires bit < 8 && other < 8
    ensures ByteBit(b ^ Mask(bit), other) == if other == bit then !ByteBit(b, other) else ByteBit(b, other)
  {
    XorThenAnd(b, Mask(bit), Mask(other));
    MasksMeet(bit, other);
    OneBitOrNone(b, other);
  }

  lemma ClearByte(b: bv8, bit: nat, other: nat)
    requires bit < 8 && other < 8
    ensures ByteBit(b & !Mask(bit), other) == (other != bit && ByteBit(b, other))
  {
    ClearThenAnd(b, Mask(bit), Mask(other));
    MasksMeet(bit, other);
    OneBitOrNone(b, other);
  }

  lemma EqualBytes(a: bv8, b: bv8)
    requires forall bit | 0 <= bit < 8 :: ByteBit(a, bit) == ByteBit(b, bit)
    ensures a == b
  {
    assert ByteBit(a, 0) == ByteBit(b, 0) && ByteBit(a, 1) == ByteBit(b, 1)
        && ByteBit(a, 2) == ByteBit(b, 2) && ByteBit(a, 3) == ByteBit(b, 3)
        && ByteBit(a, 4) == ByteBit(b, 4) && ByteBit(a, 5) == ByteBit(b, 5)
        && ByteBit(a, 6) == ByteBit(b, 6) && ByteBit(a, 7) == ByteBit(b, 7);
  }

  // ----- a whole key

  /** The 512 bits of a key: bit `level` is bit `level % 8` of byte `level / 8`, least significant first. */
  function Bits(key: ByteKey): Key {
    seq(DEPTH, level requires 0 <= level < DEPTH => ByteBit(key[level / 8], level % 8))
  }

  function Abstract(p: BytePosition): Position {
    Position(p.height, Bits(p.key))
  }

  /** Distinct byte keys have distinct bits, so a map over byte positions is a map over bit positions. */
  lemma BitsInjective(a: ByteKey, b: ByteKey)
    requires Bits(a) == Bits(b)
    ensures a == b
  {
    forall j | 0 <= j < KEY_BYTES ensures a[j] == b[j] {
      forall bit | 0 <= bit < 8 ensures ByteBit(a[j], bit) == ByteBit(b[j], bit) {
        assert Bits(a)[8 * j + bit] == Bits(b)[8 * j + bit];
      }
      EqualBytes(a[j], b[j]);
    }
  }

  lemma BitAt(key: ByteKey, level: nat)
    requires level < DEPTH
    ensures Bits(key)[level] == ByteBit(key[level / 8], level % 8)
  {
  }

  lemma BitsElsewhere(key: ByteKey, level: nat, byte: bv8, other: nat)
    requires level < DEPTH && other < DEPTH
    ensures Bits(key[level / 8 := byte])[other] ==
              if other / 8 == level / 8 then ByteBit(byte, other % 8) else Bits(key)[other]
  {
    hide Mask, ByteBit;
  }

  // ----- the source's operations

  function ByteRoot(): BytePosition {
    BytePosition(DEPTH, seq(KEY_BYTES, _ => 0))
  }

  function ByteLeaf(nullifier: ByteKey): BytePosition {
    BytePosition(0, nullifier)
  }

  function ByteSibling(p: BytePosition): BytePosition
    requires p.height < DEPTH
  {
    p.(key := p.key[p.height / 8 := p.key[p.height / 8] ^ ((1 as bv8) << (p.height % 8))])
  }

  function ByteParent(p: BytePosition): BytePosition
    requires p.height < DEPTH
  {
    BytePosition(p.height + 1, p.key[p.height / 8 := p.key[p.height / 8] & !((1 as bv8) << (p.height % 8))])
  }

  predicate BytePathBit(p: BytePosition)
    requires p.height < DEPTH
  {
    (p.key[p.height / 8] >> (p.height % 8)) & 1 == 1
  }

  lemma SameBit(level: nat, other: nat)
    ensures other == level <==> other / 8 == level / 8 && other % 8 == level % 8
  {
    assert other == 8 * (other / 8) + other % 8 && level == 8 * (level / 8) + level % 8;
  }

  lemma FlipKey(key: ByteKey, level: nat)
    requires level < DEPTH
    ensures Bits(key[level / 8 := key[level / 8] ^ Mask(level % 8)]) == FlipBit(Bits(key), level)
  {
    var flipped := key[level / 8 := key[level / 8] ^ Mask(level % 8)];
    forall other | 0 <= other < DEPTH ensures Bits(flipped)[other] == FlipBit(Bits(key), level)[other] {
      FlipKeyAt(key, level, other);
    }
    hide Mask, ByteBit, Bits;
  }

  lemma FlipKeyAt(key: ByteKey, level: nat, other: nat)
    requires level < DEPTH && other < DEPTH
    ensures Bits(key[level / 8 := key[level / 8] ^ Mask(level % 8)])[other] == FlipBit(Bits(key), level)[other]
  {
    BitAt(key, other);
    BitsElsewhere(key, level, key[level / 8] ^ Mask(level % 8), other);
    FlipByte(key[level / 8], level % 8, other % 8);
    SameBit(level, other);
    hide Mask, ByteBit, Bits;
  }

  lemma ClearKey(key: ByteKey, level: nat)
    requires level < DEPTH
    ensures Bits(key[level / 8 := key[level / 8] & !Mask(level % 8)]) == ClearBit(Bits(key), level)
  {
    var cleared := key[level / 8 := key[level / 8] & !Mask(level % 8)];
    forall other | 0 <= other < DEPTH ensures Bits(cleared)[other] == ClearBit(Bits(key), level)[other] {
      ClearKeyAt(key, level, other);
    }
    hide Mask, ByteBit, Bits;
  }

  lemma ClearKeyAt(key: ByteKey, level: nat, other: nat)
    requires level < DEPTH && other < DEPTH
    ensures Bits(key[level / 8 := key[level / 8] & !Mask(level % 8)])[other] == ClearBit(Bits(key), level)[other]
  {
    BitAt(key, other);
    BitsElsewhere(key, level, key[level / 8] & !Mask(level % 8), other);
    ClearByte(key[level / 8], level % 8, other % 8);
    SameBit(level, other);
    hide Mask, ByteBit, Bits;
  }

  /** The shifted xor flips exactly key bit `height`. */
  lemma SiblingRefines(p: BytePosition)
    requires p.height < DEPTH
    ensures Abstract(ByteSibling(p)) == Sibling(Abstract(p))
  {
    hide Mask, Bits;
    MaskIsShift(p.height % 8);
    FlipKey(p.key, p.height);
  }

  /** The shifted mask clears exactly key bit `height`. */
  lemma ParentRefines(p: BytePosition)
    requires p.height < DEPTH
    ensures Abstract(ByteParent(p)) == Parent(Abstract(p))
  {
    hide Mask, Bits;
    MaskIsShift(p.height % 8);
    ClearKey(p.key, p.height);
  }

  /** The shifted test reads exactly key bit `height`. */
  lemma PathBitRefines(p: BytePosition)
    requires p.height < DEPTH
    ensures BytePathBit(p) == PathBit(Abstract(p))
  {
    hide Mask, ByteBit;
    if p.height % 8 < 4 {
      LowBitIsShift(p.key[p.height / 8], p.height % 8);
    } else {
      HighBitIsShift(p.key[p.height / 8], p.height % 8);
    }
  }

  /** The all-zero key at full height is the root, and a nullifier's own bytes are its leaf. */
  lemma EndsRefine(nullifier: ByteKey)
    ensures Abstract(ByteRoot()) == Root() && Abstract(ByteLeaf(nullifier)) == Leaf(Bits(nullifier))
  {
    ZeroBits();
  }

  lemma ZeroBits()
    ensures Bits(seq(KEY_BYTES, _ => 0)) == Root().key
  {
  }
}
