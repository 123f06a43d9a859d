/** The validator-set hash: the Merkle Tree Hash of section 2.1 of RFC 6962 over the leaves. */
module CometMerkle {
  import opened Common
  import opened Hashing

  /** One call of the hash: `0x00 || leaf` or `0x01 || left || right`. */
  datatype Query<L> = LeafQuery(leaf: L) | NodeQuery(left: nat, right: nat)

  /** The number of significant bits: the word width minus the leading zeros. */
  function BitLength(n: nat): nat {
    if n == 0 then 0 else 1 + BitLength(n / 2)
  }

  /** `1 << (BITS - (n - 1).leading_zeros() - 1)`. */
  function LargestPowerOfTwoBelow(n: nat): nat
    requires n > 1
  {
    Pow2(BitLength(n - 1) - 1)
  }

  lemma {:induction false} BitLengthBounds(n: nat)
    requires n > 0
    ensures BitLength(n) > 0 && Pow2(BitLength(n) - 1) <= n < Pow2(BitLength(n))
  {
    if n > 1 {
      BitLengthBounds(n / 2);
    }
  }

  ghost predicate IsSplit(n: nat, k: nat) {
    k < n <= 2 * k && exists e: nat :: k == Pow2(e)
  }

  /** The split is the largest power of two strictly below `n`, and the only one with `k < n <= 2k`. */
  lemma SplitIsLargestPowerBelow(n: nat, k: nat)
    requires n > 1
    ensures IsSplit(n, LargestPowerOfTwoBelow(n))
    ensures IsSplit(n, k) ==> k == LargestPowerOfTwoBelow(n)
    ensures (exists e: nat :: k == Pow2(e)) && k < n ==> k <= LargestPowerOfTwoBelow(n)
  {
    BitLengthBounds(n - 1);
    var at := BitLength(n - 1) - 1;
    assert LargestPowerOfTwoBelow(n) == Pow2(at);
    if e: nat :| k == Pow2(e) {
      if e < at {
        Pow2Doubles(e, at);
      } else if at < e {
        Pow2Doubles(at, e);
      }
    }
  }

  lemma {:induction false} Pow2Doubles(a: nat, b: nat)
    requires a < b
    ensures 2 * Pow2(a) <= Pow2(b)
  {
    if a < b - 1 {
      Pow2Doubles(a, b - 1);
    }
  }

  /** The recursion of the source over leaf hashes, with the split as it computes it. */
  function MerkleRoot<L>(h: Query<L> -> nat, leaves: seq<L>): nat
    requires |leaves| > 0
    decreases |leaves|, 1
  {
    h(RootQuery(h, leaves))
  }

  function RootQuery<L>(h: Query<L> -> nat, leaves: seq<L>): Query<L>
    requires |leaves| > 0
    decreases |leaves|, 0
  {
    if |leaves| == 1 then LeafQuery(leaves[0])
    else
      var k := LargestPowerOfTwoBelow(|leaves|);
      SplitIsLargestPowerBelow(|leaves|, k);
      NodeQuery(MerkleRoot(h, leaves[..k]), MerkleRoot(h, leaves[k..]))
  }

  /** RFC 6962: `MTH(D[n]) = HASH(0x01 || MTH(D[0:k]) || MTH(D[k:n]))` for the power of two `k < n <= 2k`. */
  lemma MerkleTreeHash<L>(h: Query<L> -> nat, leaves: seq<L>, k: nat)
    requires |leaves| > 1 && IsSplit(|leaves|, k)
    ensures MerkleRoot(h, leaves) == h(NodeQuery(MerkleRoot(h, leaves[..k]), MerkleRoot(h, leaves[k..])))
  {
    SplitIsLargestPowerBelow(|leaves|, k);
  }

  ghost function Queries<L>(h: Query<L> -> nat, leaves: seq<L>): set<Query<L>>
    requires |leaves| > 0
    decreases |leaves|
  {
    {RootQuery(h, leaves)} +
    if |leaves| == 1 then {}
    else
      var k := LargestPowerOfTwoBelow(|leaves|);
      SplitIsLargestPowerBelow(|leaves|, k);
      Queries(h, leaves[..k]) + Queries(h, leaves[k..])
  }

  /** Without collisions, equal roots come from equal leaf lists, of whatever lengths. */
  lemma {:induction false} RootBindsLeaves<L(!new)>(h: Query<L> -> nat, a: seq<L>, b: seq<L>, queries: set<Query<L>>)
    requires |a| > 0 && |b| > 0 && MerkleRoot(h, a) == MerkleRoot(h, b)
    requires Queries(h, a) <= queries && Queries(h, b) <= queries && NoCollision(h, queries)
    ensures a == b
    decreases |a|
  {
    assert Separated(h, RootQuery(h, a), RootQuery(h, b));
    if |a| > 1 && |b| > 1 {
      var i, j := LargestPowerOfTwoBelow(|a|), LargestPowerOfTwoBelow(|b|);
      SplitIsLargestPowerBelow(|a|, i);
      SplitIsLargestPowerBelow(|b|, j);
      RootBindsLeaves(h, a[..i], b[..j], queries);
      RootBindsLeaves(h, a[i..], b[j..], queries);
      assert a == a[..i] + a[i..] && b == b[..j] + b[j..];
    }
  }
}
