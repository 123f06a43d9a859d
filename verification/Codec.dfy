/** The canonical transaction codec: one byte string per transaction, and a decoder that accepts exactly those. */
module Codec {
  import opened Common
  import opened Bytes
  import opened Transactions

  const MAX_COLLECTION_ITEMS := 65_536
  const MAX_OPAQUE_BYTES := 16 * 1024 * 1024
  const FORMAT_VERSION := 1
  const MAGIC: seq<u8> := [0x4e, 0x4f, 0x58, 0x54]
  const OPERATION_TRANSFER: u8 := 1
  const OPERATION_MINT: u8 := 2

  datatype CodecError =
    | InvalidMagic | UnsupportedFormatVersion(version: nat) | UnknownOperation(tag: nat) | UnknownAlgorithm(tag: nat)
    | InvalidCryptoSuite | EmptyRequiredField | ZeroMintAmount | TrailingBytes(count: nat) | ProofSuiteVersionMismatch
    | CollectionLimit | OpaqueLimit
    | Read(error: ReadError)

  // ----- shape

  function Shape(t: Transaction): Option<CodecError> {
    if !SuiteAllowed(t.suite) then Some(InvalidCryptoSuite)
    else match t.operation
      case Transfer(_, nullifiers, commitments, proofVersion, proof) =>
        if |nullifiers| == 0 || |commitments| == 0 then Some(EmptyRequiredField)
        else if |nullifiers| > MAX_COLLECTION_ITEMS || |commitments| > MAX_COLLECTION_ITEMS then Some(CollectionLimit)
        else if |proof| > MAX_OPAQUE_BYTES then Some(OpaqueLimit)
        else if t.suite.version != proofVersion then Some(ProofSuiteVersionMismatch)
        else None
      case Mint(_, _, commitments, authorization) =>
        if |commitments| == 0 then Some(EmptyRequiredField)
        else if |commitments| > MAX_COLLECTION_ITEMS then Some(CollectionLimit)
        else if |authorization| > MAX_OPAQUE_BYTES then Some(OpaqueLimit)
        else None
  }

  /** The transactions that have an encoding. */
  predicate Encodable(t: Transaction) {
    t.WellTyped() && Shape(t).None?
  }

  /** A versioned suite with one algorithm of the right kind in each place. */
  ghost predicate KnownSuite(s: Suite) {
    s.version > 0 && s.hash in {Sha256, Sha3_256} && s.transportKem in {X25519, MlKem768} &&
    s.signature in {Ed25519, MlDsa65} && s.proofSystem == PluggableProofSystem
  }

  /** The lists an operation must not leave empty: outputs, and for a transfer also inputs. */
  ghost predicate SomethingMissing(op: Operation) {
    op.commitments == [] || (op.Transfer? && op.nullifiers == [])
  }

  ghost predicate ListTooLong(op: Operation) {
    |op.commitments| > 65_536 || (op.Transfer? && |op.nullifiers| > 65_536)
  }

  ghost function Envelope(op: Operation): seq<u8> {
    match op case Transfer(_, _, _, _, proof) => proof case Mint(_, _, _, authorization) => authorization
  }

  /** Which shape is refused, and as what: the suite first, then missing lists, long lists, the long envelope, and
      last a proof made for another suite version. */
  lemma ShapeRefusals(t: Transaction)
    ensures var e, op := Shape(t), t.operation;
            var lists := KnownSuite(t.suite) && !SomethingMissing(op);
            var fits := lists && !ListTooLong(op) && |Envelope(op)| <= 16 * 1024 * 1024;
            var current := op.Transfer? ==> op.proofVersion == t.suite.version;
            (e == None <==> fits && current) &&
            (e == Some(InvalidCryptoSuite) <==> !KnownSuite(t.suite)) &&
            (e == Some(EmptyRequiredField) <==> KnownSuite(t.suite) && SomethingMissing(op)) &&
            (e == Some(CollectionLimit) <==> lists && ListTooLong(op)) &&
            (e == Some(OpaqueLimit) <==> lists && !ListTooLong(op) && !fits) &&
            (e == Some(ProofSuiteVersionMismatch) <==> fits && !current)
  {
  }

  // ----- encoding

  function AlgorithmTag(a: Algorithm): u8 {
    match a
    case Sha3_256 => 1 case X25519 => 2 case MlKem768 => 3 case Ed25519 => 4
    case MlDsa65 => 5 case PluggableProofSystem => 6 case Sha256 => 7
  }

  function AlgorithmOf(tag: u8): Result<Algorithm, CodecError> {
    match tag
    case 1 => Ok(Sha3_256) case 2 => Ok(X25519) case 3 => Ok(MlKem768) case 4 => Ok(Ed25519)
    case 5 => Ok(MlDsa65) case 6 => Ok(PluggableProofSystem) case 7 => Ok(Sha256)
    case _ => Err(UnknownAlgorithm(tag))
  }

  function SuiteThen(s: Suite, tail: seq<u8>): (bytes: seq<u8>)
    ensures |bytes| == 6 + |tail|
  {
    BE(s.version, 2) + ([AlgorithmTag(s.hash)] + ([AlgorithmTag(s.transportKem)]
    + ([AlgorithmTag(s.signature)] + ([AlgorithmTag(s.proofSystem)] + tail))))
  }

  /** The operation's fields in wire order, followed by `tail`. */
  function OperationThen(op: Operation, tail: seq<u8>): seq<u8> {
    match op
    case Transfer(asset, nullifiers, commitments, proofVersion, proof) =>
      BE(asset, 32) + (PrefixedIds(nullifiers) + (PrefixedIds(commitments) + (BE(proofVersion,
          2) + (PrefixedBytes(proof) + tail))))
    case Mint(asset, amount, commitments, authorization) =>
      BE(asset, 32) + (BE(amount, 16) + (PrefixedIds(commitments) + (PrefixedBytes(authorization) + tail)))
  }

  function OperationTag(op: Operation): u8 {
    if op.Transfer? then OPERATION_TRANSFER else OPERATION_MINT
  }

  /** The sole wire representation of a transaction. */
  function TransactionBytes(t: Transaction): seq<u8> {
    MAGIC + (BE(FORMAT_VERSION, 2) + (BE(t.id, 32)
    + SuiteThen(t.suite, [OperationTag(t.operation)] + OperationThen(t.operation, []))))
  }

  method WriteIdentifiers(output: seq<u8>, ids: seq<Id>) returns (written: seq<u8>)
    requires |ids| <= MAX_COLLECTION_ITEMS
    ensures written == output + PrefixedIds(ids)
  {
    written := output + BE(|ids|, 4);
    for i := 0 to |ids|
      invariant written + Concat(ids[i..]) == output + PrefixedIds(ids)
    {
      assert Concat(ids[i..]) == BE(ids[i], 32) + Concat(ids[i + 1..]);
      written := written + BE(ids[i], 32);
    }
    assert written + [] == written;
  }

  lemma SuiteThenAppends(s: Suite, tail: seq<u8>)
    ensures SuiteThen(s, []) + tail == SuiteThen(s, tail)
  {
    var hash, kem := [AlgorithmTag(s.hash)], [AlgorithmTag(s.transportKem)];
    var signature, proof := [AlgorithmTag(s.signature)], [AlgorithmTag(s.proofSystem)];
    assert hash + (kem + (signature + (proof + []))) + tail == hash + (kem + (signature + (proof + tail)));
  }

  /** Appending head fields, tag and operation fields in order gives the wire representation. */
  lemma HeadThenFields(t: Transaction)
    ensures MAGIC + BE(FORMAT_VERSION, 2) + BE(t.id, 32) + SuiteThen(t.suite, []) + [OperationTag(t.operation)]
            + OperationThen(t.operation, []) == TransactionBytes(t)
  {
    var tag, fields, suite := [OperationTag(t.operation)], OperationThen(t.operation, []), SuiteThen(t.suite, []);
    SuiteThenAppends(t.suite, tag + fields);
    Associate(MAGIC + BE(FORMAT_VERSION, 2) + BE(t.id, 32) + suite, tag, fields);
    Reassociate(MAGIC, BE(FORMAT_VERSION, 2), BE(t.id, 32), suite, tag + fields);
  }

  method WriteTransfer(output: seq<u8>, op: Operation) returns (written: seq<u8>)
    requires op.Transfer? && |op.nullifiers| <= MAX_COLLECTION_ITEMS && |op.commitments| <= MAX_COLLECTION_ITEMS
    ensures written == output + OperationThen(op, [])
  {
    var fields := BE(op.asset, 32);
    fields := WriteIdentifiers(fields, op.nullifiers);
    fields := WriteIdentifiers(fields, op.commitments);
    fields := fields + BE(op.proofVersion, 2) + PrefixedBytes(op.proof);
    assert fields == OperationThen(op, []);
    written := output + fields;
  }

  method WriteMint(output: seq<u8>, op: Operation) returns (written: seq<u8>)
    requires op.Mint? && |op.commitments| <= MAX_COLLECTION_ITEMS
    ensures written == output + OperationThen(op, [])
  {
    var fields := BE(op.asset, 32) + BE(op.amount, 16);
    fields := WriteIdentifiers(fields, op.commitments);
    fields := fields + PrefixedBytes(op.authorization);
    assert fields == OperationThen(op, []);
    written := output + fields;
  }

  /** Appends field after field; rejects exactly the transactions without the required shape. */
  method EncodeTransaction(t: Transaction) returns (r: Result<seq<u8>, CodecError>)
    requires t.WellTyped()
    ensures r == if Shape(t).Some? then Err(Shape(t).value) else Ok(TransactionBytes(t))
  {
    var shape := Shape(t);
    if shape.Some? {
      return Err(shape.value);
    }
    var output := MAGIC + BE(FORMAT_VERSION, 2) + BE(t.id, 32) + SuiteThen(t.suite, []);
    if t.operation.Transfer? {
      output := WriteTransfer(output + [OPERATION_TRANSFER], t.operation);
    } else {
      output := WriteMint(output + [OPERATION_MINT], t.operation);
    }
    HeadThenFields(t);
    r := Ok(output);
  }

  /** The wire form, field by field: magic, format version, identifier, suite, operation tag, and the operation's own
      fields, every number big-endian and every list behind its 32-bit length. */
  lemma WireLayout(t: Transaction)
    ensures var op := t.operation;
            TransactionBytes(t) ==
              [0x4e, 0x4f, 0x58, 0x54] + [0, 1] + BE(t.id, 32) + BE(t.suite.version, 2) +
              [AlgorithmTag(t.suite.hash), AlgorithmTag(t.suite.transportKem), AlgorithmTag(t.suite.signature),
               AlgorithmTag(t.suite.proofSystem)] +
              match op {
                case Transfer(asset, nullifiers, commitments, proofVersion, proof) =>
                  [1] + BE(asset, 32) + BE(|nullifiers|, 4) + Concat(nullifiers) + BE(|commitments|, 4) +
                  Concat(commitments) + BE(proofVersion, 2) + BE(|proof|, 4) + proof
                case Mint(asset, amount, commitments, authorization) =>
                  [2] + BE(asset, 32) + BE(amount, 16) + BE(|commitments|, 4) + Concat(commitments) +
                  BE(|authorization|, 4) + authorization
              }
    ensures AlgorithmTag(Sha3_256) == 1 && AlgorithmTag(X25519) == 2 && AlgorithmTag(MlKem768) == 3 &&
            AlgorithmTag(Ed25519) == 4 && AlgorithmTag(MlDsa65) == 5 && AlgorithmTag(PluggableProofSystem) == 6 &&
            AlgorithmTag(Sha256) == 7
  {
    HeadThenFields(t);
    FieldsFlat(t.operation);
    hide OperationThen, TransactionBytes;
    assert BE(1, 2) == [0, 1];
    var tags := [AlgorithmTag(t.suite.hash), AlgorithmTag(t.suite.transportKem), AlgorithmTag(t.suite.signature),
                 AlgorithmTag(t.suite.proofSystem)];
    assert SuiteThen(t.suite, []) == BE(t.suite.version, 2) + tags;
  }

  lemma FieldsFlat(op: Operation)
    ensures [OperationTag(op)] + OperationThen(op, []) ==
              match op {
                case Transfer(asset, nullifiers, commitments, proofVersion, proof) =>
                  [1] + BE(asset, 32) + BE(|nullifiers|, 4) + Concat(nullifiers) + BE(|commitments|, 4) +
                  Concat(commitments) + BE(proofVersion, 2) + BE(|proof|, 4) + proof
                case Mint(asset, amount, commitments, authorization) =>
                  [2] + BE(asset, 32) + BE(amount, 16) + BE(|commitments|, 4) + Concat(commitments) +
                  BE(|authorization|, 4) + authorization
              }
  {
    hide BE, Concat;
  }

  // ----- decoding

  function Lift<T>(r: Result<Parsed<T>, ReadError>): Result<Parsed<T>, CodecError> {
    match r case Ok(p) => Ok(p) case Err(e) => Err(Read(e))
  }

  function ReadAlgorithm(rest: seq<u8>): Result<Parsed<Algorithm>, CodecError> {
    if |rest| < 1 then Err(Read(UnexpectedEnd)) else
    var algorithm :- AlgorithmOf(rest[0]);
    Ok(Parsed(algorithm, rest[1..]))
  }

  function ReadSuite(rest: seq<u8>): Result<Parsed<Suite>, CodecError> {
    var version :- Lift(ReadBE(rest, 2));
    var hash :- ReadAlgorithm(version.rest);
    var kem :- ReadAlgorithm(hash.rest);
    var signature :- ReadAlgorithm(kem.rest);
    var proofSystem :- ReadAlgorithm(signature.rest);
    Ok(Parsed(Suite(version.value, hash.value, kem.value, signature.value, proofSystem.value), proofSystem.rest))
  }

  function ReadTransfer(rest: seq<u8>): Result<Parsed<Operation>, CodecError> {
    var asset :- Lift(ReadId(rest));
    var nullifiers :- Lift(ReadIds(asset.rest, MAX_COLLECTION_ITEMS));
    var commitments :- Lift(ReadIds(nullifiers.rest, MAX_COLLECTION_ITEMS));
    var proofVersion :- Lift(ReadBE(commitments.rest, 2));
    var proof :- Lift(ReadBytes(proofVersion.rest, MAX_OPAQUE_BYTES));
    Ok(Parsed(Transfer(asset.value, nullifiers.value, commitments.value, proofVersion.value, proof.value), proof.rest))
  }

  function ReadMint(rest: seq<u8>): Result<Parsed<Operation>, CodecError> {
    var asset :- Lift(ReadId(rest));
    var amount :- Lift(ReadBE(asset.rest, 16));
    if amount.value == 0 then Err(ZeroMintAmount) else
    var commitments :- Lift(ReadIds(amount.rest, MAX_COLLECTION_ITEMS));
    var authorization :- Lift(ReadBytes(commitments.rest, MAX_OPAQUE_BYTES));
    Ok(Parsed(Mint(asset.value, amount.value, commitments.value, authorization.value), authorization.rest))
  }

  function ReadOperation(tag: u8, rest: seq<u8>): Result<Parsed<Operation>, CodecError> {
    if tag == OPERATION_TRANSFER then ReadTransfer(rest)
    else if tag == OPERATION_MINT then ReadMint(rest)
    else Err(UnknownOperation(tag))
  }

  function ReadTagged(rest: seq<u8>): Result<Parsed<Operation>, CodecError> {
    if |rest| < 1 then Err(Read(UnexpectedEnd)) else ReadOperation(rest[0], rest[1..])
  }

  /** Magic, format version and transaction ID. */
  function ReadHead(bytes: seq<u8>): Result<Parsed<Id>, CodecError> {
    var magic :- Lift(ReadExact(bytes, 4));
    if magic.value != MAGIC then Err(InvalidMagic) else
    var version :- Lift(ReadBE(magic.rest, 2));
    if version.value != FORMAT_VERSION then Err(UnsupportedFormatVersion(version.value))
    else Lift(ReadId(version.rest))
  }

  function CheckShape(t: Transaction): Result<Transaction, CodecError> {
    match Shape(t) case Some(e) => Err(e) case None => Ok(t)
  }

  /** Decodes exactly one transaction, every byte consumed. */
  function DecodeTransaction(bytes: seq<u8>): Result<Transaction, CodecError> {
    var id :- ReadHead(bytes);
    var suite :- ReadSuite(id.rest);
    var operation :- ReadTagged(suite.rest);
    if |operation.rest| > 0 then Err(TrailingBytes(|operation.rest|))
    else CheckShape(Transaction(id.value, suite.value, operation.value))
  }

  /** How a wrong head is refused: too short, then the magic, then too short again, then the version. */
  lemma HeadRefusals(bytes: seq<u8>)
    ensures var r := DecodeTransaction(bytes);
            (|bytes| < 4 ==> r == Err(Read(UnexpectedEnd))) &&
            (r == Err(InvalidMagic) <==> |bytes| >= 4 && bytes[..4] != [0x4e, 0x4f, 0x58, 0x54]) &&
            (|bytes| >= 6 && bytes[..4] == [0x4e, 0x4f, 0x58, 0x54] && FromBE(bytes[4..6]) != 1 ==>
               r == Err(UnsupportedFormatVersion(FromBE(bytes[4..6]))))
  {
    hide ReadSuite, ReadTagged, ReadId, FromBE;
    if |bytes| >= 6 {
      assert bytes[4..][..2] == bytes[4..6];
    }
    NeverMagic(bytes);
  }

  /** Nothing behind the head is ever refused as a wrong magic. */
  lemma NeverMagic(bytes: seq<u8>)
    ensures ReadHead(bytes).Ok? ==> DecodeTransaction(bytes) != Err(InvalidMagic)
  {
    hide ReadIds, ReadBE, ReadBytes, ReadHead, ReadId;
  }

  // ----- the decoder inverts the encoder

  lemma Limits()
    ensures MAX_COLLECTION_ITEMS < Pow256(4) && MAX_OPAQUE_BYTES < Pow256(4) && FORMAT_VERSION < Pow256(2)
  {
    SmallPowers();
  }

  lemma ReadOperationWritten(t: Transaction, tail: seq<u8>)
    requires Encodable(t)
    ensures ReadOperation(OperationTag(t.operation), OperationThen(t.operation, tail)) == Ok(Parsed(t.operation, tail))
  {
    Limits();
    hide ReadId, ReadIds, ReadBE, ReadBytes, PrefixedIds, PrefixedBytes;
    match t.operation {
      case Transfer(asset, nullifiers, commitments, proofVersion, proof) =>
        var afterVersion := PrefixedBytes(proof) + tail;
        var afterCommitments := BE(proofVersion, 2) + afterVersion;
        var afterNullifiers := PrefixedIds(commitments) + afterCommitments;
        ReadIdWritten(asset, PrefixedIds(nullifiers) + afterNullifiers);
        ReadIdsWritten(nullifiers, MAX_COLLECTION_ITEMS, afterNullifiers);
        ReadIdsWritten(commitments, MAX_COLLECTION_ITEMS, afterCommitments);
        ReadBEWritten(proofVersion, 2, afterVersion);
        ReadBytesWritten(proof, MAX_OPAQUE_BYTES, tail);
      case Mint(asset, amount, commitments, authorization) =>
        var afterCommitments := PrefixedBytes(authorization) + tail;
        var afterAmount := PrefixedIds(commitments) + afterCommitments;
        ReadIdWritten(asset, BE(amount, 16) + afterAmount);
        ReadBEWritten(amount, 16, afterAmount);
        ReadIdsWritten(commitments, MAX_COLLECTION_ITEMS, afterCommitments);
        ReadBytesWritten(authorization, MAX_OPAQUE_BYTES, tail);
    }
  }

  lemma ReadAlgorithmWritten(a: Algorithm, tail: seq<u8>)
    ensures ReadAlgorithm([AlgorithmTag(a)] + tail) == Ok(Parsed(a, tail))
  {
    assert ([AlgorithmTag(a)] + tail)[1..] == tail;
  }

  lemma ReadAlgorithmStrict(rest: seq<u8>)
    requires ReadAlgorithm(rest).Ok?
    ensures rest == [AlgorithmTag(ReadAlgorithm(rest).value.value)] + ReadAlgorithm(rest).value.rest
  {
    assert rest == [rest[0]] + rest[1..];
  }

  lemma ReadSuiteWritten(s: Suite, tail: seq<u8>)
    requires s.version < Pow256(2)
    ensures ReadSuite(SuiteThen(s, tail)) == Ok(Parsed(s, tail))
  {
    var d := [AlgorithmTag(s.proofSystem)] + tail;
    var c := [AlgorithmTag(s.signature)] + d;
    var b := [AlgorithmTag(s.transportKem)] + c;
    ReadBEWritten(s.version, 2, [AlgorithmTag(s.hash)] + b);
    ReadAlgorithmWritten(s.hash, b);
    ReadAlgorithmWritten(s.transportKem, c);
    ReadAlgorithmWritten(s.signature, d);
    ReadAlgorithmWritten(s.proofSystem, tail);
  }

  lemma ReadHeadWritten(id: Id, tail: seq<u8>)
    ensures ReadHead(MAGIC + (BE(FORMAT_VERSION, 2) + (BE(id, 32) + tail))) == Ok(Parsed(id, tail))
  {
    Limits();
    var afterMagic := BE(FORMAT_VERSION, 2) + (BE(id, 32) + tail);
    assert (MAGIC + afterMagic)[..4] == MAGIC && (MAGIC + afterMagic)[4..] == afterMagic;
    ReadBEWritten(FORMAT_VERSION, 2, BE(id, 32) + tail);
    ReadIdWritten(id, tail);
  }

  lemma ReadHeadStrict(bytes: seq<u8>)
    requires ReadHead(bytes).Ok?
    ensures var p := ReadHead(bytes).value;
            bytes == MAGIC + (BE(FORMAT_VERSION, 2) + (BE(p.value, 32) + p.rest))
  {
    assert bytes == MAGIC + bytes[4..];
    ReadBEStrict(bytes[4..], 2);
    ReadIdStrict(ReadBE(bytes[4..], 2).value.rest);
  }

  /** Decoding an encoded transaction returns it. */
  lemma DecodeInvertsEncode(t: Transaction)
    requires Encodable(t)
    ensures DecodeTransaction(TransactionBytes(t)) == Ok(t)
  {
    var fields := OperationThen(t.operation, []);
    var tagged := [OperationTag(t.operation)] + fields;
    ReadHeadWritten(t.id, SuiteThen(t.suite, tagged));
    ReadSuiteWritten(t.suite, tagged);
    assert tagged[1..] == fields;
    ReadOperationWritten(t, []);
  }

  /** Bytes after a complete transaction are refused, and counted. */
  lemma TrailingRefused(t: Transaction, tail: seq<u8>)
    requires Encodable(t) && tail != []
    ensures DecodeTransaction(TransactionBytes(t) + tail) == Err(TrailingBytes(|tail|))
  {
    var op := t.operation;
    var tagged := [OperationTag(op)] + OperationThen(op, tail);
    TailMoves(t, tail);
    ReadHeadWritten(t.id, SuiteThen(t.suite, tagged));
    ReadSuiteWritten(t.suite, tagged);
    assert tagged[1..] == OperationThen(op, tail);
    ReadOperationWritten(t, tail);
  }

  lemma TailMoves(t: Transaction, tail: seq<u8>)
    ensures TransactionBytes(t) + tail == MAGIC + (BE(FORMAT_VERSION, 2) + (BE(t.id, 32)
            + SuiteThen(t.suite, [OperationTag(t.operation)] + OperationThen(t.operation, tail))))
  {
    hide BE, AlgorithmTag;
    var op := t.operation;
    assert OperationThen(op, []) + tail == OperationThen(op, tail);
    var before, after := [OperationTag(op)] + OperationThen(op, []), [OperationTag(op)] + OperationThen(op, tail);
    assert before + tail == after;
    SuiteThenAppends(t.suite, before);
    SuiteThenAppends(t.suite, after);
    Reassociate(MAGIC, BE(FORMAT_VERSION, 2), BE(t.id, 32), SuiteThen(t.suite, []), before);
    Reassociate(MAGIC, BE(FORMAT_VERSION, 2), BE(t.id, 32), SuiteThen(t.suite, []), after);
  }

  // ----- and accepts nothing else

  lemma ReadOperationStrict(tag: u8, rest: seq<u8>)
    requires ReadOperation(tag, rest).Ok?
    ensures var p := ReadOperation(tag, rest).value;
            tag == OperationTag(p.value) && rest == OperationThen(p.value, p.rest)
    ensures WellTypedOperation(ReadOperation(tag, rest).value.value)
  {
    if tag == OPERATION_TRANSFER {
      ReadTransferStrict(rest);
    } else {
      ReadMintStrict(rest);
    }
  }

  lemma ReadTransferStrict(rest: seq<u8>)
    requires ReadTransfer(rest).Ok?
    ensures var p := ReadTransfer(rest).value;
            p.value.Transfer? && p.value.proofVersion < Pow256(2) && rest == OperationThen(p.value, p.rest)
  {
    hide ReadId, ReadIds, ReadBE, ReadBytes, PrefixedIds, PrefixedBytes;
    ReadIdStrict(rest);
    var asset := ReadId(rest).value;
    ReadIdsStrict(asset.rest, MAX_COLLECTION_ITEMS);
    var nullifiers := ReadIds(asset.rest, MAX_COLLECTION_ITEMS).value;
    ReadIdsStrict(nullifiers.rest, MAX_COLLECTION_ITEMS);
    var commitments := ReadIds(nullifiers.rest, MAX_COLLECTION_ITEMS).value;
    ReadBEStrict(commitments.rest, 2);
    ReadBytesStrict(ReadBE(commitments.rest, 2).value.rest, MAX_OPAQUE_BYTES);
  }

  lemma ReadMintStrict(rest: seq<u8>)
    requires ReadMint(rest).Ok?
    ensures var p := ReadMint(rest).value;
            p.value.Mint? && 0 < p.value.amount < Pow256(16) && rest == OperationThen(p.value, p.rest)
  {
    hide ReadId, ReadIds, ReadBE, ReadBytes, PrefixedIds, PrefixedBytes;
    ReadIdStrict(rest);
    var asset := ReadId(rest).value;
    ReadBEStrict(asset.rest, 16);
    var amount := ReadBE(asset.rest, 16).value;
    ReadIdsStrict(amount.rest, MAX_COLLECTION_ITEMS);
    ReadBytesStrict(ReadIds(amount.rest, MAX_COLLECTION_ITEMS).value.rest, MAX_OPAQUE_BYTES);
  }

  lemma ReadSuiteStrict(rest: seq<u8>)
    requires ReadSuite(rest).Ok?
    ensures var p := ReadSuite(rest).value;
            p.value.version < Pow256(2) && rest == SuiteThen(p.value, p.rest)
  {
    ReadBEStrict(rest, 2);
    var version := ReadBE(rest, 2).value;
    ReadAlgorithmStrict(version.rest);
    var hash := ReadAlgorithm(version.rest).value;
    ReadAlgorithmStrict(hash.rest);
    var kem := ReadAlgorithm(hash.rest).value;
    ReadAlgorithmStrict(kem.rest);
    ReadAlgorithmStrict(ReadAlgorithm(kem.rest).value.rest);
  }

  lemma ReadTaggedStrict(rest: seq<u8>)
    requires ReadTagged(rest).Ok?
    ensures var p := ReadTagged(rest).value;
            WellTypedOperation(p.value) && rest == [OperationTag(p.value)] + OperationThen(p.value, p.rest)
  {
    hide ReadTransfer, ReadMint;
    ReadOperationStrict(rest[0], rest[1..]);
    assert rest == [rest[0]] + rest[1..];
  }

  /** Whatever the decoder accepts is the encoding of what it returns. */
  lemma AcceptedIsCanonical(bytes: seq<u8>)
    requires DecodeTransaction(bytes).Ok?
    ensures Encodable(DecodeTransaction(bytes).value)
    ensures TransactionBytes(DecodeTransaction(bytes).value) == bytes
  {
    hide ReadHead, ReadSuite, ReadTagged, SuiteThen, OperationThen;
    ReadHeadStrict(bytes);
    var id := ReadHead(bytes).value;
    ReadSuiteStrict(id.rest);
    var suite := ReadSuite(id.rest).value;
    ReadTaggedStrict(suite.rest);
  }

  /** The decoder accepts exactly the encoder's image, so encoding is injective. */
  lemma DecodesExactlyTheImage(bytes: seq<u8>, t: Transaction)
    ensures DecodeTransaction(bytes) == Ok(t) <==> Encodable(t) && TransactionBytes(t) == bytes
  {
    if DecodeTransaction(bytes) == Ok(t) {
      AcceptedIsCanonical(bytes);
    }
    if Encodable(t) {
      DecodeInvertsEncode(t);
    }
  }
}
