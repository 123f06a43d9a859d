/** The decoder as the source runs it: a cursor over the bytes whose reads advance an offset. */
module CodecReader {
  import opened Common
  import opened Bytes
  import opened Transactions
  import opened Codec
  import opened Cursors

  type Reader = Cursor<CodecError>

  function OfRead(e: ReadError): CodecError {
    Read(e)
  }

  /** A cursor that reports its read errors as codec errors. */
  ghost predicate Ready(reader: Reader)
    reads reader
  {
    reader.Valid() && reader.lift == OfRead
  }

  lemma {:induction false} ShortIdList(rest: seq<u8>, count: nat)
    requires |rest| < count * 32
    ensures ReadIdList(rest, count) == Err(UnexpectedEnd)
  {
    if |rest| >= 32 {
      ShortIdList(rest[32..], count - 1);
    }
  }

  /** A bounded count, checked against the remaining bytes before any identifier is read. */
  method TakeIds(reader: Reader) returns (r: Result<seq<Id>, CodecError>)
    requires Ready(reader)
    modifies reader
    ensures Ready(reader) && Reads(r, Lift(ReadIds(old(reader.Rest()), MAX_COLLECTION_ITEMS)), reader.Rest())
  {
    hide ReadIdList;
    var count :- reader.TakeBE(4);
    if count > MAX_COLLECTION_ITEMS {
      return Err(Read(CollectionTooLarge(count, MAX_COLLECTION_ITEMS)));
    }
    var remaining := reader.Remaining();
    if remaining < count * 32 {
      ShortIdList(reader.Rest(), count);
      return Err(Read(UnexpectedEnd));
    }
    r := reader.TakeIdList(count);
  }

  method TakeBytes(reader: Reader) returns (r: Result<seq<u8>, CodecError>)
    requires Ready(reader)
    modifies reader
    ensures Ready(reader) && Reads(r, Lift(ReadBytes(old(reader.Rest()), MAX_OPAQUE_BYTES)), reader.Rest())
  {
    var length :- reader.TakeBE(4);
    if length > MAX_OPAQUE_BYTES {
      return Err(Read(OpaqueDataTooLarge(length, MAX_OPAQUE_BYTES)));
    }
    r := reader.TakeExact(length);
  }

  method TakeAlgorithm(reader: Reader) returns (r: Result<Algorithm, CodecError>)
    requires Ready(reader)
    modifies reader
    ensures Ready(reader) && Reads(r, ReadAlgorithm(old(reader.Rest())), reader.Rest())
  {
    var tag :- reader.TakeExact(1);
    r := AlgorithmOf(tag[0]);
  }

  method TakeSuite(reader: Reader) returns (r: Result<Suite, CodecError>)
    requires Ready(reader)
    modifies reader
    ensures Ready(reader) && Reads(r, ReadSuite(old(reader.Rest())), reader.Rest())
  {
    var version :- reader.TakeBE(2);
    var hash :- TakeAlgorithm(reader);
    var kem :- TakeAlgorithm(reader);
    var signature :- TakeAlgorithm(reader);
    var proofSystem :- TakeAlgorithm(reader);
    r := Ok(Suite(version, hash, kem, signature, proofSystem));
  }

  method TakeTransfer(reader: Reader) returns (r: Result<Operation, CodecError>)
    requires Ready(reader)
    modifies reader
    ensures Ready(reader) && Reads(r, ReadTransfer(old(reader.Rest())), reader.Rest())
  {
    var asset :- reader.TakeId();
    var nullifiers :- TakeIds(reader);
    var commitments :- TakeIds(reader);
    var proofVersion :- reader.TakeBE(2);
    var proof :- TakeBytes(reader);
    r := Ok(Transfer(asset, nullifiers, commitments, proofVersion, proof));
  }

  method TakeMint(reader: Reader) returns (r: Result<Operation, CodecError>)
    requires Ready(reader)
    modifies reader
    ensures Ready(reader) && Reads(r, ReadMint(old(reader.Rest())), reader.Rest())
  {
    var asset :- reader.TakeId();
    var amount :- reader.TakeBE(16);
    if amount == 0 {
      return Err(ZeroMintAmount);
    }
    var commitments :- TakeIds(reader);
    var authorization :- TakeBytes(reader);
    r := Ok(Mint(asset, amount, commitments, authorization));
  }

  method TakeTagged(reader: Reader) returns (r: Result<Operation, CodecError>)
    requires Ready(reader)
    modifies reader
    ensures Ready(reader) && Reads(r, ReadTagged(old(reader.Rest())), reader.Rest())
  {
    var tag :- reader.TakeExact(1);
    if tag[0] == OPERATION_TRANSFER {
      r := TakeTransfer(reader);
    } else if tag[0] == OPERATION_MINT {
      r := TakeMint(reader);
    } else {
      r := Err(UnknownOperation(tag[0]));
    }
  }

  method TakeHead(reader: Reader) returns (r: Result<Id, CodecError>)
    requires Ready(reader)
    modifies reader
    ensures Ready(reader) && Reads(r, ReadHead(old(reader.Rest())), reader.Rest())
  {
    var magic :- reader.TakeExact(4);
    if magic != MAGIC {
      return Err(InvalidMagic);
    }
    var version :- reader.TakeBE(2);
    if version != FORMAT_VERSION {
      return Err(UnsupportedFormatVersion(version));
    }
    r := reader.TakeId();
  }

  /** Decodes exactly one message and then checks its shape. */
  method Decode(bytes: seq<u8>) returns (r: Result<Transaction, CodecError>)
    ensures r == DecodeTransaction(bytes)
  {
    var reader := new Cursor(bytes, OfRead);
    var id :- TakeHead(reader);
    var suite :- TakeSuite(reader);
    var operation :- TakeTagged(reader);
    var remaining := reader.Remaining();
    if remaining > 0 {
      assert DecodeTransaction(bytes).Err? && DecodeTransaction(bytes).error.TrailingBytes?;
      return Err(TrailingBytes(remaining));
    }
    r := CheckShape(Transaction(id, suite, operation));
  }
}
