/** The append-only commitment tree: a padded tree between depth 1 and 32, its proofs and their verification. */
module Merkle {
  import opened Common
  import opened Hashing
  import opened PaddedTree
  import Bytes

  const MIN_DEPTH := 1
  const MAX_DEPTH := 32
  const MAX_COMMITMENTS := 1_048_576

  /** A 32-byte value: a commitment or a digest. */
  type Word = Bytes.Id

  type Hash = TreeHash<Word>

  datatype MerkleError =
    | InvalidDepth(depth: nat)
    | TreeFull(capacity: nat)
    | LeafIndexOutOfRange(index: nat, occupied: nat)
    | ProofDepthMismatch(rootDepth: nat, proofDepth: nat)

  datatype MerkleRoot = MerkleRoot(digest: Word, depth: nat)

  /** All the leaves of the depth, or the protocol's maximum if that is smaller. */
  function Capacity(depth: nat): (capacity: nat)
    ensures capacity <= Pow2(depth) && capacity <= 1_048_576
    ensures capacity == Pow2(depth) || capacity == 1_048_576
  {
    if Pow2(depth) <= MAX_COMMITMENTS then Pow2(depth) else MAX_COMMITMENTS
  }

  // ----- the tree object

  class MerkleTree {
    const hash: Hash
    const depth: nat
    var commitments: seq<Word>

    ghost predicate Valid()
      reads this
    {
      MIN_DEPTH <= depth <= MAX_DEPTH && |commitments| <= Capacity(depth)
    }

    constructor (h: Hash, depth: nat)
      requires MIN_DEPTH <= depth <= MAX_DEPTH
      ensures Valid() && this.hash == h && this.depth == depth && commitments == []
    {
      this.hash, this.depth, commitments := h, depth, [];
    }

    static method New(h: Hash, depth: nat) returns (r: Result<MerkleTree, MerkleError>)
      ensures r.Ok? <==> MIN_DEPTH <= depth <= MAX_DEPTH
      ensures r.Ok? ==>
          fresh(r.value) && r.value.Valid() && r.value.hash == h && r.value.depth == depth && r.value.commitments == []
    {
      if !(MIN_DEPTH <= depth <= MAX_DEPTH) {
        return Err(InvalidDepth(depth));
      }
      var tree := new MerkleTree(h, depth);
      r := Ok(tree);
    }

    method Append(commitment: Word) returns (r: Result<nat, MerkleError>)
      requires Valid()
      modifies this
      ensures Valid()
      ensures r == if |old(commitments)| < Capacity(depth) then Ok(|old(commitments)|)
                   else Err(TreeFull(Capacity(depth)))
      ensures commitments == if r.Ok? then old(commitments) + [commitment] else old(commitments)
    {
      if |commitments| >= Capacity(depth) {
        return Err(TreeFull(Capacity(depth)));
      }
      r := Ok(|commitments|);
      commitments := commitments + [commitment];
    }

    method Root() returns (r: MerkleRoot)
      requires Valid()
      ensures r == MerkleRoot(CompleteRoot(hash, depth, commitments), depth)
    {
      var digest := RootFromCommitments(hash, depth, commitments);
      r := MerkleRoot(digest, depth);
    }

    method Prove(leafIndex: nat) returns (r: Result<InclusionProof<Word>, MerkleError>)
      requires Valid()
      ensures r.Ok? <==> leafIndex < |commitments|
      ensures r.Err? ==> r.error == LeafIndexOutOfRange(leafIndex, |commitments|)
      ensures r.Ok? ==> r.value.leafIndex == leafIndex && |r.value.siblings| == depth
                        && HonestPath(hash, commitments, leafIndex, r.value.siblings, depth)
    {
      if leafIndex >= |commitments| {
        return Err(LeafIndexOutOfRange(leafIndex, |commitments|));
      }
      var siblings := BuildPath(hash, depth, commitments, leafIndex);
      r := Ok(InclusionProof(leafIndex, siblings));
    }
  }

  function VerifyResult(h: Hash, root: MerkleRoot, commitment: Word, proof: InclusionProof<Word>)
    : Result<bool, MerkleError>
  {
    var proofDepth := |proof.siblings|;
    if !(MIN_DEPTH <= proofDepth <= MAX_DEPTH) then Err(InvalidDepth(proofDepth))
    else if proofDepth != root.depth then Err(ProofDepthMismatch(root.depth, proofDepth))
    else Ok(PathValue(h, Leaf(commitment), proof.leafIndex, proof.siblings, proofDepth) == root.digest)
  }

  /** Against the root of a tree and without collisions, the verifier answers yes to exactly the proofs that show an
      occupied leaf of that tree, and no to every other proof of its depth. */
  lemma VerifyDecides(h: Hash, depth: nat, leaves: seq<Word>, commitment: Word, proof: InclusionProof<Word>)
    requires MIN_DEPTH <= depth <= MAX_DEPTH && |proof.siblings| == depth
    requires NoCollision(h, VerifyQueries(h, leaves, depth, commitment, proof))
    ensures VerifyResult(h, MerkleRoot(CompleteRoot(h, depth, leaves), depth), commitment, proof) ==
            Ok(ProvesLeaf(h, depth, leaves, commitment, proof))
  {
    PathDecides(h, depth, leaves, commitment, proof);
  }

  /** An answer only for a path of the root's own depth, between 1 and 32. Against the root of any tree, and without
      collisions, the answer is yes if and only if the proof shows the commitment at an occupied leaf of that tree. */
  method Verify(h: Hash, root: MerkleRoot, commitment: Word, proof: InclusionProof<Word>)
      returns (r: Result<bool, MerkleError>)
    ensures r == VerifyResult(h, root, commitment, proof)
    ensures !(1 <= |proof.siblings| <= 32) ==> r == Err(InvalidDepth(|proof.siblings|))
    ensures 1 <= |proof.siblings| <= 32 && |proof.siblings| != root.depth ==>
              r == Err(ProofDepthMismatch(root.depth, |proof.siblings|))
    ensures forall leaves {:trigger CompleteRoot(h, root.depth, leaves)} ::
              1 <= |proof.siblings| <= 32 && |proof.siblings| == root.depth &&
              root.digest == CompleteRoot(h, root.depth, leaves) &&
              NoCollision(h, VerifyQueries(h, leaves, root.depth, commitment, proof)) ==>
                r == Ok(ProvesLeaf(h, root.depth, leaves, commitment, proof))
  {
    forall leaves {:trigger CompleteRoot(h, root.depth, leaves)} |
        1 <= |proof.siblings| <= 32 && |proof.siblings| == root.depth &&
        root.digest == CompleteRoot(h, root.depth, leaves) &&
        NoCollision(h, VerifyQueries(h, leaves, root.depth, commitment, proof))
      ensures VerifyResult(h, root, commitment, proof) == Ok(ProvesLeaf(h, root.depth, leaves, commitment, proof))
    {
      VerifyDecides(h, root.depth, leaves, commitment, proof);
    }
    hide ProvesLeaf, CompleteRoot, VerifyQueries, NoCollision, PathValue;
    var proofDepth := |proof.siblings|;
    if !(MIN_DEPTH <= proofDepth <= MAX_DEPTH) {
      return Err(InvalidDepth(proofDepth));
    }
    if proofDepth != root.depth {
      return Err(ProofDepthMismatch(root.depth, proofDepth));
    }
    var digest := FoldPath(h, commitment, proof.leafIndex, proof.siblings);
    r := Ok(digest == root.digest);
  }

  /** Every path the tree generates verifies for the commitment at its index. */
  lemma OwnProofVerifies(tree: MerkleTree, proof: InclusionProof<Word>)
    requires tree.Valid() && proof.leafIndex < |tree.commitments| && |proof.siblings| == tree.depth
    requires HonestPath(tree.hash, tree.commitments, proof.leafIndex, proof.siblings, tree.depth)
    ensures VerifyResult(tree.hash, MerkleRoot(CompleteRoot(tree.hash, tree.depth, tree.commitments), tree.depth),
                         tree.commitments[proof.leafIndex], proof) == Ok(true)
  {
    HonestPathRebuilds(tree.hash, tree.commitments, proof.leafIndex, proof.siblings, tree.depth);
    UpToTop(proof.leafIndex, tree.depth);
  }
}
