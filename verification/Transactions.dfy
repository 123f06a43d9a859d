/** Ledger transactions and the algorithm suite they name. */
module Transactions {
  import opened Common
  import opened Bytes

  datatype Algorithm = Sha256 | Sha3_256 | X25519 | MlKem768 | Ed25519 | MlDsa65 | PluggableProofSystem

  datatype Suite = Suite(version: nat, hash: Algorithm, transportKem: Algorithm, signature: Algorithm,
      proofSystem: Algorithm)

  datatype Operation =
    | Transfer(asset: Id, nullifiers: seq<Id>, commitments: seq<Id>, proofVersion: nat, proof: seq<u8>)
    | Mint(asset: Id, amount: nat, commitments: seq<Id>, authorization: seq<u8>)

  datatype Transaction = Transaction(id: Id, suite: Suite, operation: Operation) {
    /** The values the source's field types can hold: `u16` versions and a positive `u128` amount. */
    predicate WellTyped() {
      suite.version < Pow256(2) && WellTypedOperation(operation)
    }
  }

  predicate WellTypedOperation(op: Operation) {
    match op
    case Transfer(_, _, _, proofVersion, _) => proofVersion < Pow256(2)
    case Mint(_, amount, _, _) => 0 < amount < Pow256(16)
  }

  predicate SuiteAllowed(s: Suite) {
    s.version != 0 && (s.hash.Sha256? || s.hash.Sha3_256?) && (s.transportKem.X25519? || s.transportKem.MlKem768?)
    && (s.signature.Ed25519? || s.signature.MlDsa65?) && s.proofSystem.PluggableProofSystem?
  }
}
