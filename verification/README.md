# Noxis, verified

A Dafny model of the deterministic core of the Noxis protocol: the sparse nullifier tree and its two-step spending
witness, weighted finality certificates, the padded commitment tree, the public ledger with its state identifier,
snapshots and checkpoints, block execution, the CometBFT application lifecycle, the Poseidon2 kernel and the strict
wire codecs.

Each module follows one component. Where the source loops over a buffer or updates fields the model has methods, loops
and classes, each proved against a specification function; where the source only computes, it has functions and lemmas.

| part | modules |
|---|---|
| nullifier tree | `NodePosition`, `KeyBytes`, `SparseTree`, `SparseProofs`, `NullifierTransition` |
| consensus | `Finality`, `CometMerkle`, `CometValidators` |
| ledger | `Transactions`, `PaddedTree`, `Merkle`, `Ledger`, `PublicLedger`, `Snapshot`, `StateId`, `Checkpoint`, `CheckpointFile` |
| execution | `Execution`, `Blocks`, `ChainState`, `ChainHistory`, `Executor`, `Mempool`, `Durability`, `Lifecycle`, `Abci` |
| Poseidon2 | `Poseidon2Reference`, `Poseidon2Formulas`, `Poseidon2Core` |
| bytes | `Bytes`, `Cursors`, `Codec`, `CodecReader`, `Varint` |
| shared | `Common`, `Hashing`, `Sorting`, `IdSets` |

Conventions that hold throughout:

- A 32-byte identifier is its big-endian number below 2^256, so number order is byte order. Fixed integer widths are
  written out wherever an overflow or a cast can be observed.
- A hash function is a parameter over the queries it can be asked; domain separation is the query's constructor or the
  domain prefix of the hashed bytes. Soundness results do not assume a globally injective hash: they assume that no two
  of the queries actually made in the statement collide. A real hash can satisfy that.
- Proof verification, mint authorization, signature verification and the outcome of a physical journal append are
  parameters. Hashes of whole records, headers and transactions in the execution modules are functions of their fields.
- Errors are values. Error payloads that are only diagnostic (byte offsets, record indices inside messages) are dropped.

Four places where reading the code alone may mislead:

- Genesis accepts two validators with one public key when an entry of another power sorts between them, and bootstrap
  then refuses every announcement. Bootstrap accepts an announcement if and only if the genesis keys are pairwise
  different and it reorders the genesis set (`CometValidators.InitAcceptsReorderings`,
  `CometValidators.DuplicateKeyPassesGenesis`).
- A commitment-tree proof is checked only against the low `depth` bits of its leaf index, so the index proves its
  remainder modulo `2^depth` (`PaddedTree.HighIndexBitsUnread`, `PaddedTree.AcceptedLeafIsThere`).
- The transaction step moves the ledger before it asks the record chain, so as a bare function it is atomic exactly
  while the record sequence has room (`Executor.FailedStepGuard`). No candidate reached from genesis is short of room:
  every record appended a tree leaf, and the tree is bounded. There every failed step leaves its argument as it was
  (`Executor.FailedStepChangesNothing`).
- The checkpoint decoder's last comparison and the executor's canonical-form comparison can never fail, because the
  strict readers in front of them accept nothing but the written form.

## Model

| member | source | states |
|---|---|---|
| `KeyBytes.EndsRefine` | crates/noxis-nullifier-tree-state/src/position.rs:16-28 | the all-zero key at full height is the root position and a nullifier's own bytes are its leaf position |
| `KeyBytes.SiblingRefines` | crates/noxis-nullifier-tree-state/src/position.rs:34-42 | the byte-level sibling position is the one whose 512-bit key differs in exactly the bit of its height |
| `KeyBytes.ParentRefines` | crates/noxis-nullifier-tree-state/src/position.rs:44-52 | the byte-level parent position is one higher, with exactly the consumed bit cleared |
| `KeyBytes.PathBitRefines` | crates/noxis-nullifier-tree-state/src/position.rs:54-57 | the byte-level path bit is the key bit at the position's height |
| `KeyBytes.BitsInjective` | crates/noxis-nullifier-tree-reference/src/lib.rs:222-225 | 64-byte nullifiers with the same path bits are the same bytes |
| `NodePosition.AncestorWalk` | crates/noxis-nullifier-tree-state/src/position.rs:34-57 | climbing by `sibling`, `parent` and `path_bit` visits exactly the ancestors of a leaf, each aligned to its height |
| `SparseTree.DeriveEmptyValues` | crates/noxis-nullifier-tree-reference/src/lib.rs:99-108 | the loop fills the table with the value of an empty subtree at every height |
| `SparseTree.UnoccupiedIsEmpty` | crates/noxis-nullifier-tree-state/src/state.rs:100-105 | a subtree of the complete 2^512 tree without spent leaves hashes to the empty value of its height |
| `SparseTree.LookupIsTreeValue` | crates/noxis-nullifier-tree-state/src/state.rs:100-105 | the sparse lookup, stored node or empty default, equals the hash of the complete tree at every aligned position |
| `SparseTree.IndexUnique` | crates/noxis-nullifier-tree-state/src/state.rs:18-33 | the stored node map is determined by the spent set |
| `SparseTree.ExtendIndexes` | crates/noxis-nullifier-tree-state/src/transition.rs:51-55 | installing the prepared leaf-to-root path turns the index of a set into the index of the set with the nullifier added |
| `SparseTree.SparseTreeState.ValueAt` | crates/noxis-nullifier-tree-state/src/state.rs:100-105 | in every reachable tree, the value at a position is the complete-tree hash over the spent set |
| `SparseTree.SparseTreeState.CurrentRoot` | crates/noxis-nullifier-tree-state/src/state.rs:35-40 | the root is the complete-tree root of the spent set |
| `SparseTree.SparseTreeState.Prove` | crates/noxis-nullifier-tree-state/src/state.rs:58-67 | the 512 returned siblings are the complete-tree values beside the path |
| `SparseTree.SparseTreeState.PrepareSpend` | crates/noxis-nullifier-tree-state/src/transition.rs:62-82 | the loop computes, for every ancestor, its value in the tree with the nullifier added |
| `SparseTree.SparseTreeState.MarkSpent` | crates/noxis-nullifier-tree-state/src/transition.rs:31-60 | spending adds exactly one nullifier, returns the roots before and after, keeps index and count exact; a duplicate is refused and changes nothing |
| `SparseProofs.RebuildRoot` | crates/noxis-nullifier-tree-reference/src/lib.rs:120-144 | the path loop computes the specified root for exactly the lists of 512 canonical digests and reports the length or the digest otherwise |
| `SparseProofs.HonestPathRoots` | crates/noxis-nullifier-tree-reference/src/lib.rs:120-171 | the honest siblings of a nullifier give the root without it under the empty leaf and the root with it under its leaf |
| `SparseProofs.AcceptedPathIsHonest` | crates/noxis-nullifier-tree-reference/src/lib.rs:146-171 | any sibling list that reproduces the root of a set consists of the honest siblings and proves the actual leaf |
| `SparseProofs.NoForgedProof` | crates/noxis-nullifier-tree-reference/src/lib.rs:146-171 | no sibling list proves inclusion of an unspent or absence of a spent nullifier |
| `SparseProofs.ProofsDecide` | crates/noxis-nullifier-tree-reference/src/lib.rs:146-171 | inclusion is accepted exactly for a spent nullifier with the tree's own 512 siblings, absence exactly for an unspent one with them |
| `SparseProofs.PathRefusals` | crates/noxis-nullifier-tree-reference/src/lib.rs:120-171 | a path is refused for its length, then for a non-canonical digest, then for its root, each exactly then |
| `SparseProofs.OwnPathDecides` | crates/noxis-nullifier-tree-state/src/state.rs:58-90 | a tree's own path verifies inclusion exactly for spent and absence exactly for unspent nullifiers |
| `SparseProofs.RootBindsSet` | crates/noxis-nullifier-tree-state/src/state.rs:35-40 | equal roots are roots of equal spent sets |
| `SparseProofs.SpendAll` | crates/noxis-nullifier-tree-state/src/transition.rs:31-60 | after any list of spends, duplicates included, the spent set is the old set plus the listed nullifiers |
| `SparseProofs.OrderIrrelevant` | crates/noxis-nullifier-tree-state/src/state.rs:18-40 | trees over one set have the same nodes, count and root, whatever the insertion order |
| `NullifierTransition.BuildTransition` | crates/noxis-private-proof-contract/src/nxsm_transition.rs:55-110 | succeeds exactly for a matching anchor and two unspent inputs, with every public field named: roots and counts of the set and of the set with both, intent commitment, pre-state and transition identifiers; otherwise reports the first mismatch |
| `NullifierTransition.IdentifierBinds` | crates/noxis-private-proof-contract/src/nxsm_transition.rs:96-109 | transitions with one identifier are one transition, of one intent and one spent set |
| `NullifierTransition.RevalidateTransition` | crates/noxis-private-proof-contract/src/nxsm_transition.rs:183-194 | accepts exactly the transition that the tree and the intent determine |
| `NullifierTransition.WitnessFromPreTree` | crates/noxis-private-proof-contract/src/nxsm_witness.rs:35-60 | derives the honest path of the first input in the tree and of the second in the tree after the first spend, or names the spent input |
| `NullifierTransition.DerivedWitnessRevalidates` | crates/noxis-private-proof-contract/src/nxsm_witness.rs:65-108 | the derived witness replays the transition built from the same tree |
| `NullifierTransition.AcceptedReplaySpendsBoth` | crates/noxis-private-proof-contract/src/nxsm_witness.rs:65-108 | any accepted witness forces both nullifiers to be new and different and the post-root to be the root with both added, also when the paths overlap |
| `NullifierTransition.ReplayDecides` | crates/noxis-private-proof-contract/src/nxsm_witness.rs:65-108 | a witness is accepted if and only if it spends two different new nullifiers along the tree's own ordered paths and the statement names the candidate, the counts and the root with both |
| `NullifierTransition.ReplayRefusals` | crates/noxis-private-proof-contract/src/nxsm_witness.rs:65-108 | the order and the reason of every refusal |
| `Finality.NewValidatorSet` | crates/noxis-consensus/src/config.rs:96-116 | accepts exactly the non-empty bounded sets of distinct positive validators whose power fits `u64`, and returns a sorted reordering |
| `Finality.NewConfig` | crates/noxis-consensus/src/config.rs:157-206 | accepts exactly the configurations whose declared Byzantine power is below one third, and returns one carrying every given field and its identifier; otherwise the first failed check |
| `Finality.NewCertificate` | crates/noxis-consensus/src/finality.rs:149-166 | accepts exactly distinct, bounded, signed votes and returns a sorted reordering |
| `Finality.IndexOf` | crates/noxis-consensus/src/config.rs:137-142 | the binary search finds the validator or proves it absent |
| `Finality.QuorumIsExact` | crates/noxis-consensus/src/config.rs:127-131 | the split computation is floor(2T/3)+1 and no intermediate value leaves `u64` |
| `Finality.ValidateStructure` | crates/noxis-consensus/src/finality.rs:182-212 | accepts exactly certificates whose target names every field of a header of this deployment and whose known, distinct voters hold more than two thirds; the running sum never overflows; each refusal exactly in its case |
| `Finality.Verify` | crates/noxis-consensus/src/finality.rs:216-249 | accepts exactly structurally accepted certificates in which every vote's signature verifies, and otherwise names a voter whose signature does not |
| `Finality.HonestPowerReachesQuorum` | crates/noxis-consensus/src/config.rs:184-190 | the validators outside any set within the Byzantine budget reach the quorum alone |
| `Finality.QuorumIntersection` | crates/noxis-consensus/src/finality.rs:182-212 | the common voters of two accepted certificates hold more than the declared Byzantine power |
| `Finality.VerifiedCertificatesAgree` | crates/noxis-consensus/src/finality.rs:216-249 | two verified certificates for one height name one block when every verified vote of a validator outside the Byzantine set is a precommit it issued, and it issued one target per height |
| `CometMerkle.SplitIsLargestPowerBelow` | crates/noxis-consensus/src/engine.rs:537-541 | the bit trick is the unique power of two k with k < n <= 2k, and the largest below n |
| `CometMerkle.MerkleTreeHash` | crates/noxis-consensus/src/engine.rs:509-535 | the recursion satisfies the defining equation of the Merkle Tree Hash, section 2.1 of RFC 6962, at every such split |
| `CometMerkle.RootBindsLeaves` | crates/noxis-consensus/src/engine.rs:509-535 | equal roots are roots of equal leaf lists, length included |
| `CometValidators.RankIsPowerThenAddress` | crates/noxis-consensus/src/engine.rs:308-315 | the sort key orders by descending power, then ascending address |
| `CometValidators.ConversionDecides` | crates/noxis-consensus/src/engine.rs:187-256 | exactly the Ed25519 validators with a 32-byte key and a power in range convert, keeping identifier, key and power |
| `CometValidators.GenesisValidators` | crates/noxis-consensus/src/engine.rs:286-332 | succeeds exactly when every key converts, the power is bounded and no neighbours tie after sorting; the result is strictly sorted |
| `CometValidators.MapInitValidators` | crates/noxis-comet-abci/src/server.rs:318-350 | the loop maps each announced key to its genesis entry and sorts, or reports the first mismatch |
| `CometValidators.InitAcceptsReorderings` | crates/noxis-comet-abci/src/app.rs:168-182 | bootstrap accepts an announcement if and only if the genesis keys are pairwise different and it reorders the genesis validators |
| `CometValidators.DuplicateKeyPassesGenesis` | crates/noxis-consensus/src/engine.rs:286-332 | a configured three-validator set with a repeated key passes every genesis check and is then refused at bootstrap under every announcement |
| `CometValidators.HashBytesInjective` | crates/noxis-consensus/src/engine.rs:258-273 | the hashed validator bytes determine the key and the power |
| `CometValidators.HashBytesLayout` | crates/noxis-consensus/src/engine.rs:258-273 | the protobuf tags, lengths, key and power at their places |
| `CometValidators.HashBindsValidators` | crates/noxis-consensus/src/engine.rs:286-332 | equal validator hashes are hashes of the same keys and powers in the same order |
| `PaddedTree.RootFromCommitments` | crates/noxis-merkle/src/lib.rs:217-232 | the padded level-by-level root equals the recursive root of the complete tree with empty leaves, for every depth and occupancy |
| `PaddedTree.EmptyHashes` | crates/noxis-merkle/src/lib.rs:234-241 | the table holds the empty-subtree hash of every height |
| `Merkle.MerkleTree.New` | crates/noxis-merkle/src/lib.rs:78-84 | builds an empty tree of the given depth exactly within the depth bounds |
| `Merkle.MerkleTree.Append` | crates/noxis-merkle/src/lib.rs:115-126 | appends at the next index exactly while there is capacity, and changes nothing otherwise |
| `Merkle.MerkleTree.Prove` | crates/noxis-merkle/src/lib.rs:136-171 | returns the complete-tree siblings of an occupied leaf, and an error for every other index |
| `Merkle.OwnProofVerifies` | crates/noxis-merkle/src/lib.rs:174-198 | every path from `prove` verifies |
| `Merkle.Verify` | crates/noxis-merkle/src/lib.rs:174-198 | against the root of any tree the answer is yes exactly if the proof shows the commitment at an occupied leaf beside that tree's siblings, and no otherwise; a depth outside 1 to 32 or other than the root's is an error |
| `PaddedTree.PathDecides` | crates/noxis-merkle/src/lib.rs:174-198 | a path of a tree's depth reaches its root if and only if it shows an occupied leaf of it |
| `PaddedTree.TwoLeafRoot` | crates/noxis-merkle/src/lib.rs:217-232 | the order of hashing at two leaves and at one, written out |
| `PaddedTree.AcceptedLeafIsThere` | crates/noxis-merkle/src/lib.rs:174-198 | a verifying path of matching depth proves the commitment at the leaf index modulo 2^depth, an occupied leaf |
| `PaddedTree.HighIndexBitsUnread` | crates/noxis-merkle/src/lib.rs:186-197 | the path value depends only on the low `depth` bits of the index |
| `PaddedTree.RootBindsList` | crates/noxis-merkle/src/lib.rs:217-232 | lists that share a root at one depth are equal, although empty leaves pad them |
| `Ledger.FirstReusedDecides` | crates/noxis-ledger/src/invariants.rs:178-206 | the growing seen-set finds a reused element exactly when some element repeats or was used before |
| `Ledger.FirstReusedIsFirst` | crates/noxis-ledger/src/invariants.rs:178-206 | what is reported is the first element that repeats or was used before |
| `Ledger.ApplyDecides` | crates/noxis-ledger/src/invariants.rs:81-165 | a transaction is accepted if and only if its context names the ledger's state, its identifier is new, its asset registered, its outputs new, present and within capacity, and: for a transfer, new inputs, the suite's proof version and a proof of the written-out statement; for a mint, authorization of the written-out statement and a supply within 128 bits |
| `Ledger.RefusedBefore` | crates/noxis-ledger/src/invariants.rs:81-106 | state mismatch, known transaction and unknown asset are reported in that order, each exactly in its case |
| `Ledger.TransferRefusals` | crates/noxis-ledger/src/invariants.rs:108-135 | every other refusal of a transfer, in order, with the first reused element |
| `Ledger.MintRefusals` | crates/noxis-ledger/src/invariants.rs:137-165 | every other refusal of a mint, in order |
| `Ledger.ApplyKeepsValid` | crates/noxis-ledger/src/mutation.rs:53-86 | the commitment set stays the tree's duplicate-free list and supply stays positive, bounded and of registered assets |
| `Ledger.RunAccounts` | crates/noxis-ledger/src/mutation.rs:53-99 | over every run: no nullifier, commitment or transaction ID is used twice or was used before, the tree is the old list plus all outputs in order, and supply is the old supply plus the accepted mints |
| `PublicLedger.FindReused` | crates/noxis-ledger/src/invariants.rs:178-206 | the loop returns the first reused element |
| `PublicLedger.LedgerObject.RegisterAsset` | crates/noxis-ledger/src/mutation.rs:13-19 | registers a new asset and nothing else; a known one is refused unchanged |
| `PublicLedger.LedgerObject.ValidateTransfer` | crates/noxis-ledger/src/invariants.rs:108-135 | passes exactly the allowed transfers and otherwise reports the first failed check, in the source's order |
| `PublicLedger.LedgerObject.ValidateMint` | crates/noxis-ledger/src/invariants.rs:137-165 | passes exactly the allowed mints and otherwise reports the first failed check, in the source's order |
| `PublicLedger.LedgerObject.AppendCommitments` | crates/noxis-ledger/src/mutation.rs:88-99 | all outputs are appended, or none when they do not fit |
| `PublicLedger.LedgerObject.ApplyTransaction` | crates/noxis-ledger/src/mutation.rs:53-86 | succeeds exactly on allowed transactions; installs the whole validated plan or changes nothing; after validation the append cannot fail |
| `IdSets.SortedElements` | crates/noxis-ledger/src/state.rs:96-97 | collecting a set in any order and sorting gives its one strictly increasing list |
| `IdSets.SortedEntries` | crates/noxis-ledger/src/state.rs:98-103 | collecting a map in any order and sorting by key gives its one strictly increasing entry list |
| `Snapshot.CheckAssets` | crates/noxis-ledger/src/invariants.rs:32-43 | passes exactly strictly sorted assets with valid tickers; an error index is the first offending entry |
| `Snapshot.CanonicalAssetsMeans` | crates/noxis-ledger/src/invariants.rs:32-43 | canonical assets are listed by increasing identifier, each ticker one to sixteen letters A to Z |
| `Snapshot.FromCanonicalParts` | crates/noxis-ledger/src/invariants.rs:24-77 | accepts exactly canonical parts, unchanged; unsorted nullifiers and transactions are reported in their turn |
| `Snapshot.Export` | crates/noxis-ledger/src/state.rs:92-116 | the snapshot of a live ledger always passes its own validation and lists each part of the ledger in its one order |
| `Snapshot.Import` | crates/noxis-ledger/src/mutation.rs:22-50 | succeeds exactly on canonical parts, with a valid ledger holding exactly those parts |
| `Snapshot.RestoreInvertsSnapshot` | crates/noxis-ledger/src/mutation.rs:22-50 | restoring the snapshot of a state gives that state back, commitment order included |
| `Snapshot.SnapshotInvertsRestore` | crates/noxis-ledger/src/state.rs:92-116 | every canonical snapshot is the snapshot of the valid state it restores |
| `StateId.ComputeStateId` | crates/noxis-ledger/src/state.rs:119-161 | the record-by-record hashing computes the hash of the canonical listing |
| `StateId.StateLayout` | crates/noxis-ledger/src/state.rs:119-161 | the hashed bytes field by field, in order |
| `StateId.RowLayout` | crates/noxis-ledger/src/state.rs:129-150 | the bytes of one asset and of one supply entry |
| `StateId.StateBytesInjective` | crates/noxis-ledger/src/state.rs:119-161 | the hashed bytes determine the genesis, depth, tree root, assets, supply, nullifiers and transactions |
| `StateId.StateIdBinds` | crates/noxis-ledger/src/state.rs:119-161 | two ledger states with one identifier are the same state, commitment order included, under the same genesis |
| `Checkpoint.PayloadBound` | crates/noxis-checkpoint/src/lib.rs:336-346 | the collection limits bound every payload by 101,064,725 bytes, below 128 MiB |
| `Checkpoint.ReadPartsWritten` | crates/noxis-checkpoint/src/lib.rs:278-322 | reading a written payload gives the same parts |
| `Checkpoint.PartsStrict` | crates/noxis-checkpoint/src/lib.rs:278-322 | a payload that reads is the written form of what it reads to, within the limits |
| `Checkpoint.DecodeInvertsEncode` | crates/noxis-checkpoint/src/lib.rs:138-238 | decoding an encoded checkpoint gives the same checkpoint |
| `Checkpoint.DecodesExactlyTheImage` | crates/noxis-checkpoint/src/lib.rs:160-238 | accepted bytes are exactly encodings of sound checkpoints, so the final re-encoding comparison never fails |
| `Checkpoint.FileLayout` | crates/noxis-checkpoint/src/lib.rs:138-157 | the 180-byte header, the payload and the closing hash, field by field |
| `Checkpoint.PayloadLayout` | crates/noxis-checkpoint/src/lib.rs:241-276 | the payload field by field |
| `Checkpoint.FileRefusals` | crates/noxis-checkpoint/src/lib.rs:160-180 | a short file and a wrong closing hash are refused first, as such |
| `Checkpoint.TickerRefusals` | crates/noxis-checkpoint/src/lib.rs:278-322 | a ticker is refused as text before it is refused for its letters |
| `CheckpointFile.Capture` | crates/noxis-checkpoint/src/lib.rs:57-84 | succeeds exactly for a positive sequence equal to the accepted count and bounded canonical parts; each refusal exactly in its case |
| `CheckpointFile.Encode` | crates/noxis-checkpoint/src/lib.rs:138-157 | encoding a constructed checkpoint never fails |
| `CheckpointFile.EncodeSnapshot` | crates/noxis-checkpoint/src/lib.rs:241-276 | the payload writer succeeds exactly within the limits and writes the specified bytes |
| `CheckpointFile.Decode` | crates/noxis-checkpoint/src/lib.rs:160-238 | the cursor-based decoder computes the specified result, every error included |
| `CheckpointFile.DecodeParts` | crates/noxis-checkpoint/src/lib.rs:278-322 | the payload cursor and its loops compute the specified parse, text-encoding and ticker errors apart |
| `CheckpointFile.RestoreState` | crates/noxis-checkpoint/src/lib.rs:88-111 | restores exactly under the checkpoint's own deployment and state identifier |
| `CheckpointFile.RoundTrip` | crates/noxis-checkpoint/src/lib.rs:57-238 | export, capture, encode, decode and restore give back the ledger they started from |
| `Execution.NonCanonicalUnreachable` | crates/noxis-execution/src/executor.rs:247-253 | the canonical-form comparison after strict decoding never fails |
| `Execution.StepDecides` | crates/noxis-execution/src/executor.rs:233-294 | from a reached candidate a step succeeds if and only if the bytes fit, decode to a transaction of the configured suite and the ledger allows it under the written-out context; the new ledger, position and record are given field by field |
| `Execution.AdmitRefusals` | crates/noxis-execution/src/executor.rs:240-262 | too long, then undecodable, then of another suite, each exactly in its case |
| `Execution.StepRefusals` | crates/noxis-execution/src/executor.rs:233-294 | a step is refused for the bytes' own reason or for the ledger's, never for another |
| `Execution.StepKeepsCoherent` | crates/noxis-execution/src/executor.rs:233-294 | after an accepted transaction the record chain again names the ledger's state identifier and has no more records than the tree has leaves |
| `Execution.StepFailures` | crates/noxis-record-chain/src/lib.rs:221-241 | the ledger's state comparison and the record chain's sequence, previous-state and limit checks never reject the executor's own step: it fails only on its bytes, its suite or the rest of the ledger rules |
| `Execution.RunFailures` | crates/noxis-execution/src/executor.rs:157-162 | a run from a reached candidate fails only for a reason in one of its transactions |
| `Execution.RunRecords` | crates/noxis-execution/src/executor.rs:157-162 | every completed run leaves contiguous records, each starting at the state the previous one produced, carrying exactly the given bytes |
| `Execution.RunReplays` | crates/noxis-execution/src/executor.rs:157-162 | every completed run is the ledger run of the transactions its records carry |
| `Execution.RunAppend` | crates/noxis-execution/src/executor.rs:157-162 | running a list is running a prefix and then the rest from where it ended |
| `Blocks.GenesisStands` | crates/noxis-execution/src/state.rs:23-65 | a network starts exactly from the ledger whose identifier the anchor names, at height zero, with the construction rules of a committed state |
| `Blocks.EngineHeights` | crates/noxis-consensus/src/engine.rs:142-151 | the first block has the initial engine height, each next one a height more, up to the `i64` limit and never after |
| `Blocks.SealSucceeds` | crates/noxis-consensus/src/block.rs:192-221 | once its transactions ran, no header or anchor check of a block can fail |
| `Blocks.BlockDecides` | crates/noxis-execution/src/executor.rs:95-217 | a block executes if and only if its height is the next one, its decision is of this network, height and validators, it fits both limits and every transaction is accepted at its turn; the committed-state comparison never fails |
| `Blocks.PreflightRefusals` | crates/noxis-execution/src/executor.rs:100-150 | height, decision and limits are refused in that order, each exactly in its case |
| `Blocks.BlockRefusals` | crates/noxis-execution/src/executor.rs:95-217 | after those checks a block is refused exactly for the reason that stopped its run |
| `Blocks.BlockFailures` | crates/noxis-execution/src/executor.rs:95-217 | on a committed tip a block fails only for its height, its decision, a limit or one of its transactions |
| `Blocks.BlockContinues` | crates/noxis-execution/src/executor.rs:95-217 | the header continues the tip in height, parent, state and record sequence, and the next tip again satisfies the construction rules |
| `Blocks.BlockSeals` | crates/noxis-execution/src/executor.rs:163-217 | the header carries the deployment and the hash of its other fields, the terminal record is the block's last or the tip's, and the application hash is taken over deployment, decision, height, block, last sequence, terminal record and resulting state |
| `Blocks.EmptyBlockExecutes` | crates/noxis-execution/src/executor.rs:95-217 | the empty block executes on every committed tip and changes nothing but the height and the block identifier |
| `Blocks.ValidateBlock` | crates/noxis-storage/src/block_journal.rs:626-690 | the journal check accepts exactly records that match the header's count, commitment, position, links and result |
| `Blocks.ExecutedIsStorable` | crates/noxis-storage/src/block_journal.rs:626-690 | every executed block passes the journal check |
| `Blocks.ChainIsLinked` | crates/noxis-execution/src/state.rs:38-102 | over every chain of executed blocks, each block continues the tip before it and every tip satisfies the construction rules |
| `Blocks.HeadersLink` | crates/noxis-execution/src/executor.rs:163-197 | from genesis, block i has height i+1 and names its predecessor's identifier, resulting state and next record sequence |
| `Blocks.ChainIsOneRun` | crates/noxis-execution/src/executor.rs:95-217 | the tip and the records of a chain depend only on its concatenated transactions, not on how they were cut into blocks |
| `Blocks.ChainAccounts` | crates/noxis-execution/src/executor.rs:95-217 | over every chain from genesis: one linked record chain from sequence one, no nullifier, commitment or transaction ID twice, supply exactly as minted |
| `ChainState.TipsBind` | crates/noxis-execution/src/state.rs:38-102 | committed tips whose state identifier, computed from the canonical listing, is the same hold the same ledger, commitment order included |
| `ChainState.ChainsBind` | crates/noxis-execution/src/executor.rs:163-197 | two chains, of whatever blocks from whatever tips, whose last headers name one resulting state end in the same ledger |
| `ChainHistory.AppHashBinds` | crates/noxis-execution/src/executor.rs:296-327 | two executed blocks with one application hash, in whatever deployments, agree on deployment, decision, height, block, record position, terminal record and state |
| `ChainHistory.BlockIdFixesChain` | crates/noxis-execution/src/executor.rs:163-197 | two chains from one genesis with one last block identifier have the same headers, records and transactions, block by block |
| `ChainHistory.AppHashFixesHistory` | crates/noxis-execution/src/executor.rs:296-327 | two chains from one genesis with one last application hash are the same history: headers, records, transactions, last decision and the whole tip, ledger included |
| `ChainHistory.StoredRecordsFixed` | crates/noxis-storage/src/block_journal.rs:626-690 | a header fixes the records stored under it: their list, their consecutive sequences and their links from its previous to its resulting state |
| `Executor.FailedStepGuard` | crates/noxis-execution/src/executor.rs:233-294 | on any candidate at all, a failed step changes its argument if and only if the sequence is exhausted, the bytes are admitted and the ledger accepts them |
| `Executor.FailedStepChangesNothing` | crates/noxis-execution/src/executor.rs:233-294 | on every candidate reached from genesis a failed step changes nothing |
| `Executor.ApplyTransaction` | crates/noxis-execution/src/executor.rs:233-294 | the step's result, the candidate it leaves behind on success and on failure, and success exactly on acceptable bytes |
| `Executor.RunTransactions` | crates/noxis-execution/src/executor.rs:157-162 | the block loop computes the run, stopping at the first rejection |
| `Executor.ExecuteBlock` | crates/noxis-execution/src/executor.rs:95-217 | one outcome per tip and proposal, which continues the tip and is sealed as stated |
| `Mempool.MempoolOverlay.Admit` | crates/noxis-comet-abci/src/mempool.rs:36-57 | the candidate stays the run of the admitted transactions from the tip and the byte total their length sum; admission succeeds exactly within limits on an accepted step, otherwise changes nothing and tells a full pool from a rejected step |
| `Mempool.MempoolOverlay.Reset` | crates/noxis-comet-abci/src/mempool.rs:28-32 | the overlay is rebased on the new tip and empty |
| `Mempool.SelectTransactions` | crates/noxis-comet-abci/src/app.rs:228-258 | the selection loop, with its early stop, computes the specified selection |
| `Mempool.SelectionIsSound` | crates/noxis-comet-abci/src/app.rs:213-258 | the selection is an order-preserving subsequence within both limits that runs from the tip |
| `Mempool.SelectionIsMaximal` | crates/noxis-comet-abci/src/app.rs:235-257 | every omitted transaction met a full list, did not fit, or was invalid at its turn |
| `Mempool.SelectionExecutes` | crates/noxis-comet-abci/src/app.rs:213-280 | the selection executes as the next block under every valid decision |
| `Durability.FreshBlockReplays` | crates/noxis-storage/src/persistent_execution.rs:253-284 | a block built on the current tip passes the journal check and re-executes to itself |
| `Durability.PersistentExecution.Commit` | crates/noxis-storage/src/persistent_execution.rs:180-227 | a repeated tip is acknowledged exactly if identifier and application hash match; another block is committed exactly if writing is open, it is the next one, storable, re-executes to itself and the append succeeds; a failed append, and nothing else, closes the writer |
| `Durability.Open` | crates/noxis-storage/src/persistent_execution.rs:58-95 | opening succeeds exactly on frames that replay from genesis, and ends at their tip |
| `Durability.JournalAccounts` | crates/noxis-storage/src/persistent_execution.rs:253-284 | the records of every journal that replays form one linked chain and its ledger accounts for them without double use |
| `Abci.NoxisCometCore.constructor` | crates/noxis-comet-abci/src/app.rs:118-142 | a core starts running exactly when a block is already durable, with an overlay at the tip |
| `Abci.NoxisCometCore.Info` | crates/noxis-comet-abci/src/app.rs:149-162 | reports the engine height and application hash of the last durable block, and never fails |
| `Abci.NoxisCometCore.InitChain` | crates/noxis-comet-abci/src/app.rs:168-182 | bootstrap succeeds exactly for the matching announcement at height zero |
| `Abci.NoxisCometCore.CheckTx` | crates/noxis-comet-abci/src/app.rs:189-206 | admits exactly when running, within limits and accepted on the overlay |
| `Abci.NoxisCometCore.PrepareProposal` | crates/noxis-comet-abci/src/app.rs:213-258 | for exactly the next engine height, the genesis validators and a non-negative limit, proposes the selection from the durable tip within the engine's and the configured limits, which executes under every decision valid for the next height |
| `Abci.NoxisCometCore.ProcessProposal` | crates/noxis-comet-abci/src/app.rs:261-280 | accepts exactly the proposals that execute on the durable tip |
| `Abci.NoxisCometCore.FinalizeBlock` | crates/noxis-comet-abci/src/app.rs:287-319 | repeating the pending request returns the same result, different data is refused, and a new pending block is its execution on the durable tip; the result names the application hash and, per transaction, intent, record hash and state |
| `Abci.NoxisCometCore.Commit` | crates/noxis-comet-abci/src/app.rs:322-336 | succeeds exactly when a block is pending, writing is open and the append succeeds; makes that block durable, with its receipt, and rebases the overlay; on failure only the writer may close |
| `Lifecycle.HistoryTells` | crates/noxis-comet-abci/src/app.rs:287-336 | over every call sequence: the journal is the old one plus the executions of the finalize calls that back each durable answer, in order, the tip is theirs, and a pending block is the execution of the finalize call still waiting |
| `Lifecycle.AnswersFollow` | crates/noxis-comet-abci/src/app.rs:168-336 | every answer follows from the calls and answers before it: bootstrap exactly for the genesis identity while nothing is durable, only refusals before it, a finalization's result from its own data on the durable tip, the same result on repetition, refusal of different data, and durability exactly for a commit of a waiting call while writing is open and the append succeeds |
| `Abci.Serve` | crates/noxis-comet-abci/src/app.rs:168-336 | the core answers and changes exactly as the specified machine, for every call |
| `Abci.Drive` | crates/noxis-comet-abci/src/app.rs:118-373 | over every call sequence on any valid core, fresh or reopened, log and state are those of the machine; with nothing pending at the start the journal grew by exactly the executions of the committed finalize calls, one per durable answer |
| `Poseidon2Reference.ValidateInternalMatrix` | crates/noxis-poseidon2-reference/src/lib.rs:318-335 | the check passes exactly when the matrix is all ones plus the diagonal |
| `Poseidon2Reference.RootFromPath` | crates/noxis-poseidon2-reference/src/lib.rs:273-291 | the reference path loop rejects non-canonical digests and otherwise computes the specified root; from a note's digest and the siblings beside it, the root of its tree |
| `Poseidon2Reference.SmallTreeRoot` | crates/noxis-poseidon2-reference/src/lib.rs:195-225 | for at most four canonical notes, the root of the depth-32 tree over them |
| `Poseidon2Reference.SmallTreePath` | crates/noxis-poseidon2-reference/src/lib.rs:228-270 | the leaf, the tree's sibling on every level and the root, for exactly the notes and indices in range |
| `Poseidon2Reference.TwoNoteRoot` | crates/noxis-poseidon2-reference/src/lib.rs:163-193 | leaf, node and empty-leaf hashing at two notes and at one, left before right |
| `Poseidon2Formulas.SboxIsSeventhPower` | crates/noxis-poseidon2-reference/src/lib.rs:390-394 | the S-box is the seventh power modulo the prime |
| `Poseidon2Formulas.RoundFormula` | crates/noxis-poseidon2-reference/src/lib.rs:86-115 | every lane of every round as one integer sum over the matrix row and the raised lanes, reduced once |
| `Poseidon2Formulas.PermutationFormula` | crates/noxis-poseidon2-reference/src/lib.rs:86-115 | the external matrix once, then the 29 rounds in order |
| `Poseidon2Formulas.HashFormula` | crates/noxis-poseidon2-reference/src/lib.rs:118-160 | the empty, leaf and node hashes unrolled block by block |
| `Poseidon2Formulas.BlockLanes` | crates/noxis-poseidon2-reference/src/lib.rs:140-152 | absorbing adds the block lane by lane modulo the prime and leaves the other lanes |
| `Poseidon2Core.FastAdd` | crates/noxis-poseidon2-core/src/lib.rs:177-187 | conditional subtraction is addition modulo p and its sum fits `u32` |
| `Poseidon2Core.ProductFits` | crates/noxis-poseidon2-core/src/lib.rs:189-191 | a product of canonical elements fits `u64` |
| `Poseidon2Core.DenseRowIsSumPlusDiagonal` | crates/noxis-poseidon2-core/src/lib.rs:212-220 | a dense row of ones with the diagonal added is the lane sum plus one product |
| `Poseidon2Core.InternalJPlusDiagonal` | crates/noxis-poseidon2-core/src/lib.rs:212-220 | the two-pass internal layer equals the dense matrix product on every canonical state |
| `Poseidon2Core.Permutation` | crates/noxis-poseidon2-core/src/lib.rs:81-102 | the in-place rounds equal the dense reference permutation, or report the first non-canonical lane |
| `Poseidon2Core.FastHash16` | crates/noxis-poseidon2-core/src/lib.rs:104-134 | the fast sponge equals the reference sponge |
| `Poseidon2Core.RootFromNotePath` | crates/noxis-poseidon2-core/src/lib.rs:152-166 | the fast note path equals the reference leaf followed by the reference path; it gives a tree's root for the note and siblings of that tree and, without collisions, for nothing else |
| `Codec.EncodeTransaction` | crates/noxis-codec/src/lib.rs:137-166 | the buffer writer produces the specified bytes, or the first shape violation |
| `Codec.ShapeRefusals` | crates/noxis-codec/src/lib.rs:273-302 | which shapes are refused and as what, in order: suite, missing lists, long lists, long envelope, proof of another suite version |
| `Codec.WireLayout` | crates/noxis-codec/src/lib.rs:137-166 | the wire form field by field, with every tag |
| `Bytes.BEOrdered` | crates/noxis-codec/src/lib.rs:137-166 | number order is byte order: the most significant byte comes first |
| `Codec.DecodeInvertsEncode` | crates/noxis-codec/src/lib.rs:168-195 | decoding an encoded transaction gives the same transaction |
| `Codec.AcceptedIsCanonical` | crates/noxis-codec/src/lib.rs:168-195 | accepted bytes re-encode to themselves and decode to an encodable transaction |
| `Codec.DecodesExactlyTheImage` | crates/noxis-codec/src/lib.rs:243-302 | bytes decode to a transaction if and only if they are its encoding |
| `Codec.TrailingRefused` | crates/noxis-codec/src/lib.rs:168-195 | bytes after a complete transaction are refused and counted |
| `Codec.HeadRefusals` | crates/noxis-codec/src/lib.rs:168-179 | a short head, a wrong magic and another version are refused as such |
| `CodecReader.Decode` | crates/noxis-codec/src/lib.rs:474-572 | the cursor-based decoder computes the specified result, errors included |
| `CodecReader.TakeIds` | crates/noxis-codec/src/lib.rs:422-432 | the length check before the loop never changes the outcome of the strict list parse |
| `Varint.WriteUvarint` | crates/noxis-comet-abci/src/wire.rs:887-893 | the shifting loop writes the base-128 form |
| `Varint.UvarintOf300` | crates/noxis-comet-abci/src/wire.rs:887-893 | the groups of 300, least significant first |
| `Varint.UvarintWidth` | crates/noxis-comet-abci/src/wire.rs:895-902 | the computed width is the written length |
| `Varint.UvarintCanonical` | crates/noxis-comet-abci/src/wire.rs:887-893 | the written form has no redundant last group and reads back to its value |
| `Varint.CanonicalIsUvarint` | crates/noxis-comet-abci/src/wire.rs:804-826 | every minimal form is the written form of its value |
| `Varint.UvarintPrefixFree` | crates/noxis-comet-abci/src/wire.rs:804-826 | no written form is a prefix of another, so at most one value is written at a position |
| `Varint.ReadUvarint` | crates/noxis-comet-abci/src/wire.rs:804-826 | accepts exactly written forms of 64-bit values; whatever follows a written value, reading returns it and stops behind it |

## Left out

- Sockets, threads, timeouts and frame input and output in the ABCI server, and the protobuf request and response layouts: plumbing around the modelled core.
- The node binary, service composition, demos and configuration paths: wiring.
- STARK proving and verification, recipient-envelope encryption, packet scanning, and the private-transfer packet codec: foreign backends, or the same codec shape once more.
- The bytes of journal frames, their checksums, incomplete-tail truncation and directory synchronization: a journal is its list of complete frames and an append either happens or fails.
- SHA-256 and the concrete Poseidon2 constants: hashes and parameters are abstract.
- The encodings under the hashes of block headers, record fields, certificates, configurations and the transaction intent: each is a function of the hashed fields.
- Settlement authorization and the identity checks of the execution context: the environment is assumed to be constructed.
- Journal-frame and request limits expressed in machine words (`usize`): lengths are unbounded numbers compared with the source's limits.
- NullifierTransition.AcceptedReplaySpendsBoth: speaks about 512-element paths, the only length the path check accepts.
- Finality.VerifiedCertificatesAgree: takes as hypothesis which precommits the validators outside the Byzantine set issued, one target per height; the engine's locking rules across rounds are not part of this model.
- StateId.ComputeStateId: assumes every list length fits 32 bits, where the source stops the process.
- Finality.ValidateStructure: reports every header that is not of this deployment with one error, where the source names the differing field.
- Durability.Open: the validation of each frame's bytes is not modelled, only its re-execution.
- SparseTree.SparseTreeState.MarkSpent: assumes the 64-bit counter does not overflow, where the source stops the process.
