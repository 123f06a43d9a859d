/** Checkpoint construction, writing, reading and restoration as the source runs them: byte buffers and cursors. */
module CheckpointFile {
  import opened Common
  import opened Bytes
  import opened IdSets
  import opened Ledger
  import opened PublicLedger
  import opened Snapshot
  import opened StateId
  import opened Checkpoint
  import opened Cursors

  // ----- reading

  type Reader = Cursor<CheckpointError>

  function OfRead(e: ReadError): CheckpointError {
    Read(e)
  }

  /** A cursor that reports its read errors as checkpoint errors. */
  ghost predicate Ready(cursor: Reader)
    reads cursor
  {
    cursor.Valid() && cursor.lift == OfRead
  }

  method TakeCount(cursor: Reader, maximum: nat) returns (r: Result<nat, CheckpointError>)
    requires Ready(cursor)
    modifies cursor
    ensures Ready(cursor) && Reads(r, ReadCount(old(cursor.Rest()), maximum), cursor.Rest())
  {
    var count :- cursor.TakeBE(4);
    if count > maximum {
      return Err(Read(CollectionTooLarge(count, maximum)));
    }
    r := Ok(count);
  }

  method TakeIds(cursor: Reader, maximum: nat) returns (r: Result<seq<Id>, CheckpointError>)
    requires Ready(cursor)
    modifies cursor
    ensures Ready(cursor) && Reads(r, Lift(ReadIds(old(cursor.Rest()), maximum)), cursor.Rest())
  {
    hide ReadIdList;
    var count :- TakeCount(cursor, maximum);
    r := cursor.TakeIdList(count);
  }

  method TakeTicker(cursor: Reader) returns (r: Result<seq<u8>, CheckpointError>)
    requires Ready(cursor)
    modifies cursor
    ensures Ready(cursor) && Reads(r, ReadTicker(old(cursor.Rest())), cursor.Rest())
  {
    var length :- cursor.TakeBE(1);
    if length > MAX_TICKER_BYTES {
      return Err(TickerTooLong(length));
    }
    var ticker :- cursor.TakeExact(length);
    if !Utf8(ticker) {
      return Err(InvalidTickerEncoding);
    }
    r := if TickerAllowed(ticker) then Ok(ticker) else Err(InvalidTicker);
  }

  method TakeAsset(cursor: Reader) returns (r: Result<Entry<Asset>, CheckpointError>)
    requires Ready(cursor)
    modifies cursor
    ensures Ready(cursor) && Reads(r, ReadAsset(old(cursor.Rest())), cursor.Rest())
  {
    var id :- cursor.TakeId();
    var tag :- cursor.TakeBE(1);
    var kind :- ReadKind(tag);
    var ticker :- TakeTicker(cursor);
    r := Ok(Entry(id, Asset(ticker, kind)));
  }

  method TakeAssets(cursor: Reader, count: nat) returns (r: Result<seq<Entry<Asset>>, CheckpointError>)
    requires Ready(cursor)
    modifies cursor
    ensures Ready(cursor) && Reads(r, ReadMany(ReadAsset, old(cursor.Rest()), count), cursor.Rest())
  {
    hide ReadAsset, ReadMany;
    ghost var start := cursor.Rest();
    var assets: seq<Entry<Asset>> := [];
    PrependNothing(ReadMany(ReadAsset, start, count));
    for i := 0 to count
      invariant Ready(cursor) && ReadMany(ReadAsset, start, count) == Prepend(assets,
          ReadMany(ReadAsset, cursor.Rest(), count - i))
    {
      PrependStep(assets, ReadAsset, cursor.Rest(), count - i);
      var asset :- TakeAsset(cursor);
      assets := assets + [asset];
    }
    PrependEnd(assets, ReadAsset, cursor.Rest());
    r := Ok(assets);
  }

  method TakeSupplyEntry(cursor: Reader) returns (r: Result<Entry<nat>, CheckpointError>)
    requires Ready(cursor)
    modifies cursor
    ensures Ready(cursor) && Reads(r, ReadSupplyEntry(old(cursor.Rest())), cursor.Rest())
  {
    var id :- cursor.TakeId();
    var amount :- cursor.TakeBE(16);
    r := if amount == 0 then Err(ZeroSupply) else Ok(Entry(id, amount));
  }

  method TakeSupply(cursor: Reader, count: nat) returns (r: Result<seq<Entry<nat>>, CheckpointError>)
    requires Ready(cursor)
    modifies cursor
    ensures Ready(cursor) && Reads(r, ReadMany(ReadSupplyEntry, old(cursor.Rest()), count), cursor.Rest())
  {
    hide ReadSupplyEntry, ReadMany;
    ghost var start := cursor.Rest();
    var supply: seq<Entry<nat>> := [];
    PrependNothing(ReadMany(ReadSupplyEntry, start, count));
    for i := 0 to count
      invariant Ready(cursor) && ReadMany(ReadSupplyEntry, start, count) == Prepend(supply,
          ReadMany(ReadSupplyEntry, cursor.Rest(), count - i))
    {
      PrependStep(supply, ReadSupplyEntry, cursor.Rest(), count - i);
      var entry :- TakeSupplyEntry(cursor);
      supply := supply + [entry];
    }
    PrependEnd(supply, ReadSupplyEntry, cursor.Rest());
    r := Ok(supply);
  }

  method TakeVersions(cursor: Reader) returns (r: Result<(), CheckpointError>)
    requires Ready(cursor)
    modifies cursor
    ensures Ready(cursor) && Reads(r, ReadVersions(old(cursor.Rest())), cursor.Rest())
  {
    var magic :- cursor.TakeExact(4);
    if magic != MAGIC {
      return Err(InvalidMagic);
    }
    var format :- cursor.TakeBE(2);
    if format != 1 {
      return Err(UnsupportedFormatVersion(format));
    }
    var snapshot :- cursor.TakeBE(2);
    if snapshot != 1 {
      return Err(UnsupportedSnapshotVersion(snapshot));
    }
    r := Ok(());
  }

  method TakeDetails(cursor: Reader, genesis: Id, context: Id) returns (r: Result<Header, CheckpointError>)
    requires Ready(cursor)
    modifies cursor
    ensures Ready(cursor) && Reads(r, ReadDetails(genesis, context, old(cursor.Rest())), cursor.Rest())
  {
    var sequence :- cursor.TakeBE(8);
    if sequence == 0 {
      return Err(GenesisCheckpointUnsupported);
    }
    var stateId :- cursor.TakeId();
    var terminal :- cursor.TakeId();
    var length :- cursor.TakeBE(4);
    if length > MAX_SNAPSHOT_BYTES {
      return Err(SnapshotTooLarge(length));
    }
    var payloadHash :- cursor.TakeId();
    r := Ok(Header(genesis, context, sequence, stateId, terminal, length, payloadHash));
  }

  method TakeHeader(cursor: Reader) returns (r: Result<Header, CheckpointError>)
    requires Ready(cursor)
    modifies cursor
    ensures Ready(cursor) && Reads(r, ReadHeader(old(cursor.Rest())), cursor.Rest())
  {
    var _ :- TakeVersions(cursor);
    var genesis :- cursor.TakeId();
    var context :- cursor.TakeId();
    r := TakeDetails(cursor, genesis, context);
  }

  method DecodeCollections(cursor: Reader, depth: nat, assets: seq<Entry<Asset>>)
      returns (r: Result<LedgerSnapshot, CheckpointError>)
    requires Ready(cursor)
    modifies cursor
    ensures r == ReadCollections(depth, assets, old(cursor.Rest()))
  {
    hide ReadIds, ReadMany;
    var commitments :- TakeIds(cursor, MAX_SNAPSHOT_IDENTIFIERS);
    var spent :- TakeIds(cursor, MAX_SNAPSHOT_IDENTIFIERS);
    var count :- TakeCount(cursor, MAX_SNAPSHOT_ASSETS);
    var supply :- TakeSupply(cursor, count);
    var accepted :- TakeIds(cursor, MAX_SNAPSHOT_IDENTIFIERS);
    var remaining := cursor.Remaining();
    if remaining != 0 {
      return Err(TrailingBytes(remaining));
    }
    r := Ok(LedgerSnapshot(depth, assets, commitments, spent, supply, accepted));
  }

  method DecodeParts(bytes: seq<u8>) returns (r: Result<LedgerSnapshot, CheckpointError>)
    ensures r == ReadParts(bytes)
  {
    var cursor := new Cursor(bytes, OfRead);
    hide ReadParts;
    r := TakeParts(cursor);
  }

  method TakeParts(cursor: Reader) returns (r: Result<LedgerSnapshot, CheckpointError>)
    requires Ready(cursor)
    modifies cursor
    ensures r == ReadParts(old(cursor.Rest()))
  {
    hide ReadCollections, ReadMany, ReadBE, ReadAsset;
    var depth :- cursor.TakeBE(1);
    var count :- TakeCount(cursor, MAX_SNAPSHOT_ASSETS);
    var assets :- TakeAssets(cursor, count);
    r := DecodeCollections(cursor, depth, assets);
  }

  // ----- writing

  method EncodeSnapshot(p: LedgerSnapshot) returns (r: Result<seq<u8>, CheckpointError>)
    requires Canonical(p)
    ensures r.Ok? <==> Bounded(p)
    ensures r.Ok? ==> r.value == SnapshotBytes(p)
  {
    var _ :- CheckBounds(p);
    var bytes := FeedAssets([p.depth], p.assets, 1);
    bytes := FeedIds(bytes, p.commitments);
    bytes := FeedIds(bytes, p.spent);
    bytes := FeedSupply(bytes, p.supply);
    bytes := FeedIds(bytes, p.accepted);
    PayloadPairs(p);
    PayloadBound(p);
    r := WithinLimit(bytes);
  }

  function WithinLimit(payload: seq<u8>): Result<seq<u8>, CheckpointError> {
    if |payload| > MAX_SNAPSHOT_BYTES then Err(SnapshotTooLarge(|payload|)) else Ok(payload)
  }

  lemma PayloadPairs(p: LedgerSnapshot)
    requires p.depth < 256
    ensures SnapshotBytes(p) == [p.depth] + (BE(|p.assets|, 4) + AssetRows(p.assets,
        1)) + PrefixedIds(p.commitments) + PrefixedIds(p.spent)
                                + (BE(|p.supply|, 4) + SupplyRows(p.supply)) + PrefixedIds(p.accepted)
  {
    var assets, supply := BE(|p.assets|, 4) + AssetRows(p.assets, 1), BE(|p.supply|, 4) + SupplyRows(p.supply);
    var front := [p.depth] + assets;
    Reassociate(front, PrefixedIds(p.commitments), PrefixedIds(p.spent), supply, PrefixedIds(p.accepted));
    Associate(BE(|p.supply|, 4), SupplyRows(p.supply), PrefixedIds(p.accepted));
    Associate([p.depth], assets, Collections(p));
    Associate(BE(|p.assets|, 4), AssetRows(p.assets, 1), Collections(p));
  }

  method CheckBounds(p: LedgerSnapshot) returns (r: Result<(), CheckpointError>)
    ensures r.Ok? <==> Bounded(p)
    ensures r.Err? ==> r.error.TooMany?
    ensures r.Ok? <==> |p.assets| <= 4096 && |p.supply| <= 4096 && |p.commitments| <= 1_048_576
                       && |p.spent| <= 1_048_576 && |p.accepted| <= 1_048_576
  {
    var _ :- EnsureCount(|p.assets|, MAX_SNAPSHOT_ASSETS);
    var _ :- EnsureCount(|p.commitments|, MAX_SNAPSHOT_IDENTIFIERS);
    var _ :- EnsureCount(|p.spent|, MAX_SNAPSHOT_IDENTIFIERS);
    var _ :- EnsureCount(|p.supply|, MAX_SNAPSHOT_ASSETS);
    r := EnsureCount(|p.accepted|, MAX_SNAPSHOT_IDENTIFIERS);
  }

  function EnsureCount(actual: nat, maximum: nat): Result<(), CheckpointError> {
    if actual > maximum then Err(TooMany(actual, maximum)) else Ok(())
  }

  /** Writing a sound checkpoint never fails. */
  method Encode(hashes: Hashes, c: Checkpoint) returns (r: Result<seq<u8>, CheckpointError>)
    requires Sound(hashes, c)
    ensures r == Ok(Encoded(hashes.sha, c))
  {
    var written := EncodeSnapshot(c.snapshot);
    match written {
      case Err(e) => return Err(e);
      case Ok(payload) =>
        var body := HeaderThen(HeaderOf(hashes.sha, c, payload), payload);
        r := Ok(body + BE(FileHash(hashes.sha, body), 32));
    }
  }

  // ----- construction and restoration

  /** Captures a snapshot exactly when it follows at least one record, counts one accepted transaction per record,
      fits the limits and is canonical. */
  method Capture(sha: Sha, rules: Rules, genesis: Id, context: Id, sequence: nat, terminal: Id,
      snapshot: LedgerSnapshot)
    returns (r: Result<Checkpoint, CheckpointError>)
    requires Amounts(snapshot.supply)
    ensures r.Ok? <==> 0 < sequence == |snapshot.accepted| && Bounded(snapshot) && Canonical(snapshot)
    ensures r.Ok? ==>
        Sound(Hashes(sha, rules.hash), r.value) &&
        r.value.(stateId := 0) == Checkpoint(genesis, context, sequence, 0, terminal, snapshot)
    ensures r == Err(GenesisCheckpointUnsupported) <==> sequence == 0
    ensures r == Err(SnapshotSequenceMismatch) <==> sequence > 0 && |snapshot.accepted| != sequence
    ensures r == Err(InvalidSnapshot) <==>
              0 < sequence == |snapshot.accepted| && Bounded(snapshot) && !Canonical(snapshot)
  {
    hide StateIdOf, SnapshotOf, Restored, Canonical;
    if sequence == 0 {
      return Err(GenesisCheckpointUnsupported);
    }
    if |snapshot.accepted| != sequence {
      return Err(SnapshotSequenceMismatch);
    }
    var _ :- CheckBounds(snapshot);
    var restored := Import(rules, snapshot);
    if restored.Err? {
      return Err(InvalidSnapshot);
    }
    SnapshotInvertsRestore(snapshot);
    var stateId := ComputeStateId(sha, restored.value, genesis);
    r := Ok(Checkpoint(genesis, context, sequence, stateId, terminal, snapshot));
  }

  method Decode(sha: Sha, rules: Rules, bytes: seq<u8>) returns (r: Result<Checkpoint, CheckpointError>)
    ensures r == Decoded(Hashes(sha, rules.hash), bytes)
  {
    hide ReadHeader, FramedPayload, ReadParts, Accept;
    if |bytes| < HEADER_BYTES + HASH_BYTES {
      return Err(Read(UnexpectedEnd));
    }
    var body := bytes[..|bytes| - HASH_BYTES];
    if bytes[|bytes| - HASH_BYTES..] != BE(FileHash(sha, body), 32) {
      return Err(CheckpointHashMismatch);
    }
    var cursor := new Cursor(body, OfRead);
    var header :- TakeHeader(cursor);
    var payload :- TakePayload(sha, cursor, header);
    var parts :- DecodeParts(payload);
    PartsStrict(payload);
    r := AcceptParts(sha, rules, header, parts, bytes);
  }

  method TakePayload(sha: Sha, cursor: Reader, h: Header) returns (r: Result<seq<u8>, CheckpointError>)
    requires Ready(cursor)
    modifies cursor
    ensures r == FramedPayload(sha, h, old(cursor.Rest()))
  {
    var payload :- cursor.TakeExact(h.length);
    if h.payloadHash != PayloadHash(sha, payload) {
      return Err(SnapshotHashMismatch);
    }
    var remaining := cursor.Remaining();
    r := if remaining != 0 then Err(TrailingBytes(remaining)) else Ok(payload);
  }

  method AcceptParts(sha: Sha, rules: Rules, h: Header, p: LedgerSnapshot, bytes: seq<u8>)
      returns (r: Result<Checkpoint, CheckpointError>)
    requires Amounts(p.supply) && Bounded(p)
    ensures r == Accept(Hashes(sha, rules.hash), h, p, bytes)
  {
    hide Encoded, StateIdOf, SnapshotOf, Restored;
    var checked := FromCanonicalParts(p);
    if checked.Err? {
      return Err(InvalidSnapshot);
    }
    if |p.accepted| != h.sequence {
      return Err(SnapshotSequenceMismatch);
    }
    var restored := Import(rules, p);
    match restored {
      case Err(_) => return Err(InvalidSnapshot);
      case Ok(ledger) =>
        SnapshotInvertsRestore(p);
        var computed := ComputeStateId(sha, ledger, h.genesis);
        if computed != h.stateId {
          return Err(StateIdMismatch);
        }
    }
    var c := Checkpoint(h.genesis, h.context, h.sequence, h.stateId, h.terminal, p);
    r := if Encoded(sha, c) != bytes then Err(NonCanonicalEncoding) else Ok(c);
  }

  /** Restores the state of a checkpoint under the deployment it was made for. */
  method RestoreState(sha: Sha, rules: Rules, c: Checkpoint, genesis: Id, context: Id)
      returns (r: Result<LedgerObject, CheckpointError>)
    requires Amounts(c.snapshot.supply) && Bounded(c.snapshot)
    ensures r.Ok? <==> c.genesis == genesis && c.context == context && Canonical(c.snapshot)
                       && c.stateId == StateIdOf(sha, rules.hash, Restored(c.snapshot), genesis)
    ensures r.Ok? ==> fresh(r.value) && Valid(r.value.View()) && r.value.View() == Restored(c.snapshot)
    ensures r == Err(AnchorMismatch) <==> c.genesis != genesis || c.context != context
    ensures r == Err(InvalidSnapshot) <==> c.genesis == genesis && c.context == context && !Canonical(c.snapshot)
  {
    hide StateIdOf, SnapshotOf, Restored, Canonical;
    if c.genesis != genesis || c.context != context {
      return Err(AnchorMismatch);
    }
    var restored := Import(rules, c.snapshot);
    if restored.Err? {
      return Err(InvalidSnapshot);
    }
    SnapshotInvertsRestore(c.snapshot);
    var computed := ComputeStateId(sha, restored.value, genesis);
    if computed != c.stateId {
      return Err(StateIdMismatch);
    }
    r := Ok(restored.value);
  }

  /** Export, capture, write, read and restore: the whole trip gives back the ledger it started from. */
  method RoundTrip(sha: Sha, ledger: LedgerObject, genesis: Id, context: Id, terminal: Id)
      returns (restored: LedgerObject)
    requires Valid(ledger.View()) && ledger.accepted != {} && Bounded(SnapshotOf(ledger.View()))
    ensures fresh(restored) && restored.View() == ledger.View()
  {
    var exported := Export(ledger);
    var snapshot := exported.value;
    SnapshotCanonical(ledger.View());
    RestoreInvertsSnapshot(ledger.View());
    var captured := Capture(sha, ledger.rules, genesis, context, |snapshot.accepted|, terminal, snapshot);
    var written := Encode(Hashes(sha, ledger.rules.hash), captured.value);
    DecodeInvertsEncode(Hashes(sha, ledger.rules.hash), captured.value);
    var read := Decode(sha, ledger.rules, written.value);
    var result := RestoreState(sha, ledger.rules, read.value, genesis, context);
    restored := result.value;
  }
}
