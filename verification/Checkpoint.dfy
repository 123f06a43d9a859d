/** Checkpoints: the one byte form of a bounded canonical snapshot at a record, and its strict decoder. */
module Checkpoint {
  import opened Common
  import opened Bytes
  import opened IdSets
  import opened Ledger
  import opened Snapshot
  import opened StateId
  import Merkle

  const MAX_SNAPSHOT_BYTES: nat := 128 * 1024 * 1024
  const MAX_SNAPSHOT_ASSETS: nat := 4096
  const MAX_SNAPSHOT_IDENTIFIERS: nat := 1048576
  const HEADER_BYTES: nat := 180
  const HASH_BYTES: nat := 32
  const MAX_TICKER_BYTES: nat := 16

  /** "NXCP" */
  const MAGIC: seq<u8> := [78, 88, 67, 80]
  /** "NOXIS/CHECKPOINT/V1/SNAPSHOT" and a zero byte. */
  const SNAPSHOT_DOMAIN: seq<u8> := [78, 79, 88, 73, 83, 47, 67, 72, 69, 67, 75, 80, 79, 73, 78, 84, 47, 86, 49, 47,
      83, 78, 65, 80, 83, 72, 79, 84, 0]
  /** "NOXIS/CHECKPOINT/V1" and a zero byte. */
  const CHECKPOINT_DOMAIN: seq<u8> := [78, 79, 88, 73, 83, 47, 67, 72, 69, 67, 75, 80, 79, 73, 78, 84, 47, 86, 49, 0]

  datatype CheckpointError =
    | Read(error: ReadError) | TrailingBytes(count: nat)
    | InvalidMagic | UnsupportedFormatVersion(version: nat) | UnsupportedSnapshotVersion(version: nat)
    | GenesisCheckpointUnsupported | SnapshotTooLarge(actual: nat) | SnapshotHashMismatch | CheckpointHashMismatch
    | UnknownAssetKind(tag: nat) | TickerTooLong(actual: nat) | InvalidTickerEncoding | InvalidTicker | ZeroSupply
    | InvalidSnapshot | SnapshotSequenceMismatch | StateIdMismatch | NonCanonicalEncoding
    | TooMany(actual: nat, maximum: nat) | AnchorMismatch

  function Lift<T>(r: Result<T, ReadError>): Result<T, CheckpointError> {
    match r case Ok(v) => Ok(v) case Err(e) => Err(Read(e))
  }

  // ----- the snapshot payload

  /** The collection limits checked before a checkpoint is made. */
  predicate Bounded(p: LedgerSnapshot) {
    |p.assets| <= MAX_SNAPSHOT_ASSETS && |p.supply| <= MAX_SNAPSHOT_ASSETS &&
    |p.commitments| <= MAX_SNAPSHOT_IDENTIFIERS && |p.spent| <= MAX_SNAPSHOT_IDENTIFIERS &&
    |p.accepted| <= MAX_SNAPSHOT_IDENTIFIERS
  }

  function SnapshotBytes(p: LedgerSnapshot): seq<u8>
    requires p.depth < 256
  {
    [p.depth] + (BE(|p.assets|, 4) + (AssetRows(p.assets, 1) + Collections(p)))
  }

  /** Everything after the assets. */
  function Collections(p: LedgerSnapshot): seq<u8> {
    PrefixedIds(p.commitments) + (PrefixedIds(p.spent) + (BE(|p.supply|,
        4) + (SupplyRows(p.supply) + PrefixedIds(p.accepted))))
  }

  ghost predicate AllowedAssets(es: seq<Entry<Asset>>) {
    forall i | 0 <= i < |es| :: TickerAllowed(es[i].value.ticker)
  }

  lemma {:induction false} AssetRowsLength(es: seq<Entry<Asset>>)
    requires AllowedAssets(es)
    ensures |AssetRows(es, 1)| <= 50 * |es|
  {
    if es != [] {
      AssetRowsLength(es[1..]);
    }
  }

  /** The limits keep every payload far below its 128 MiB maximum. */
  lemma PayloadBound(p: LedgerSnapshot)
    requires Canonical(p) && Bounded(p)
    ensures |SnapshotBytes(p)| <= 101064725 < MAX_SNAPSHOT_BYTES
  {
    AssetRowsLength(p.assets);
    SupplyRowsLength(p.supply);
  }

  // ----- reading the payload

  function ReadKind(tag: nat): Result<AssetKind, CheckpointError> {
    if tag == 1 then Ok(NativeBacked) else if tag == 2 then Ok(Synthetic) else Err(UnknownAssetKind(tag))
  }

  predicate Continuation(b: u8) {
    0x80 <= b <= 0xBF
  }

  /** Well-formed UTF-8, section 4 of RFC 3629. */
  predicate Utf8(s: seq<u8>) {
    if s == [] then true
    else if s[0] <= 0x7F then Utf8(s[1..])
    else if 0xC2 <= s[0] <= 0xDF then |s| >= 2 && Continuation(s[1]) && Utf8(s[2..])
    else if 0xE0 <= s[0] <= 0xEF then
      |s| >= 3 && Continuation(s[1]) && Continuation(s[2]) && (s[0] == 0xE0 ==> s[1] >= 0xA0) &&
      (s[0] == 0xED ==> s[1] <= 0x9F) && Utf8(s[3..])
    else
      0xF0 <= s[0] <= 0xF4 && |s| >= 4 && Continuation(s[1]) && Continuation(s[2]) && Continuation(s[3]) &&
      (s[0] == 0xF0 ==> s[1] >= 0x90) && (s[0] == 0xF4 ==> s[1] <= 0x8F) && Utf8(s[4..])
  }

  /** Upper-case letters are well-formed text, so an allowed ticker never fails the text check. */
  lemma {:induction false} LettersAreUtf8(s: seq<u8>)
    requires forall i | 0 <= i < |s| :: 65 <= s[i] <= 90
    ensures Utf8(s)
  {
    if s != [] {
      LettersAreUtf8(s[1..]);
    }
  }

  function ReadTicker(rest: seq<u8>): Result<Parsed<seq<u8>>, CheckpointError> {
    var length :- Lift(ReadBE(rest, 1));
    if length.value > MAX_TICKER_BYTES then Err(TickerTooLong(length.value))
    else
      var ticker :- Lift(ReadExact(length.rest, length.value));
      if !Utf8(ticker.value) then Err(InvalidTickerEncoding)
      else if !TickerAllowed(ticker.value) then Err(InvalidTicker)
      else Ok(ticker)
  }

  /** How a ticker of at most sixteen bytes is refused: as text first, then for its letters; what is left is read. */
  lemma TickerRefusals(ticker: seq<u8>, tail: seq<u8>)
    requires |ticker| <= 16
    ensures var r := ReadTicker(BE(|ticker|, 1) + (ticker + tail));
            (r == Err(InvalidTickerEncoding) <==> !Utf8(ticker)) &&
            (r == Err(InvalidTicker) <==> Utf8(ticker) && !TickerAllowed(ticker)) &&
            (r == Ok(Parsed(ticker, tail)) <==> TickerAllowed(ticker))
  {
    SmallPowers();
    ReadBEWritten(|ticker|, 1, ticker + tail);
    assert (ticker + tail)[..|ticker|] == ticker && (ticker + tail)[|ticker|..] == tail;
    if TickerAllowed(ticker) {
      LettersAreUtf8(ticker);
    }
    hide Utf8, BE;
  }

  function ReadAsset(rest: seq<u8>): Result<Parsed<Entry<Asset>>, CheckpointError> {
    var id :- Lift(ReadId(rest));
    var tag :- Lift(ReadBE(id.rest, 1));
    var kind :- ReadKind(tag.value);
    var ticker :- ReadTicker(tag.rest);
    Ok(Parsed(Entry(id.value, Asset(ticker.value, kind)), ticker.rest))
  }

  function ReadSupplyEntry(rest: seq<u8>): Result<Parsed<Entry<nat>>, CheckpointError> {
    var id :- Lift(ReadId(rest));
    var amount :- Lift(ReadBE(id.rest, 16));
    if amount.value == 0 then Err(ZeroSupply) else Ok(Parsed(Entry(id.value, amount.value), amount.rest))
  }

  function ReadCount(rest: seq<u8>, maximum: nat): Result<Parsed<nat>, CheckpointError> {
    var count :- Lift(ReadBE(rest, 4));
    if count.value > maximum then Err(Read(CollectionTooLarge(count.value, maximum))) else Ok(count)
  }

  function ReadCollections(depth: nat, assets: seq<Entry<Asset>>, rest: seq<u8>): Result<LedgerSnapshot,
      CheckpointError> {
    var commitments :- Lift(ReadIds(rest, MAX_SNAPSHOT_IDENTIFIERS));
    var spent :- Lift(ReadIds(commitments.rest, MAX_SNAPSHOT_IDENTIFIERS));
    var count :- ReadCount(spent.rest, MAX_SNAPSHOT_ASSETS);
    var supply :- ReadMany(ReadSupplyEntry, count.rest, count.value);
    var accepted :- Lift(ReadIds(supply.rest, MAX_SNAPSHOT_IDENTIFIERS));
    if accepted.rest != [] then Err(TrailingBytes(|accepted.rest|))
    else Ok(LedgerSnapshot(depth, assets, commitments.value, spent.value, supply.value, accepted.value))
  }

  function ReadParts(bytes: seq<u8>): Result<LedgerSnapshot, CheckpointError> {
    var depth :- Lift(ReadBE(bytes, 1));
    var count :- ReadCount(depth.rest, MAX_SNAPSHOT_ASSETS);
    var assets :- ReadMany(ReadAsset, count.rest, count.value);
    ReadCollections(depth.value, assets.value, assets.rest)
  }

  // ----- the payload reader inverts the payload writer, and accepts nothing else

  lemma ReadOneByte(value: u8, tail: seq<u8>)
    ensures ReadBE([value] + tail, 1) == Ok(Parsed(value, tail))
  {
    assert BE(value, 1) == [value] by {
      assert BE(value / 256, 0) == [];
    }
    SmallPowers();
    ReadBEWritten(value, 1, tail);
  }

  lemma OneByteStrict(rest: seq<u8>)
    requires ReadBE(rest, 1).Ok?
    ensures ReadBE(rest, 1).value.value < 256 && rest == [ReadBE(rest, 1).value.value] + ReadBE(rest, 1).value.rest
  {
    SmallPowers();
    ReadBEStrict(rest, 1);
    var p := ReadBE(rest, 1).value;
    assert BE(p.value, 1) == [p.value] by {
      assert BE(p.value / 256, 0) == [];
    }
  }

  lemma ReadTickerWritten(ticker: seq<u8>, tail: seq<u8>)
    requires TickerAllowed(ticker)
    ensures ReadTicker(BE(|ticker|, 1) + (ticker + tail)) == Ok(Parsed(ticker, tail))
  {
    SmallPowers();
    LettersAreUtf8(ticker);
    ReadBEWritten(|ticker|, 1, ticker + tail);
    assert (ticker + tail)[..|ticker|] == ticker && (ticker + tail)[|ticker|..] == tail;
  }

  lemma TickerStrict(rest: seq<u8>)
    requires ReadTicker(rest).Ok?
    ensures var p := ReadTicker(rest).value;
            TickerAllowed(p.value) && rest == BE(|p.value|, 1) + (p.value + p.rest)
  {
    ReadBEStrict(rest, 1);
    var length, p := ReadBE(rest, 1).value, ReadTicker(rest).value;
    assert length.rest == p.value + p.rest && |p.value| == length.value;
  }

  lemma ReadAssetWritten(e: Entry<Asset>, tail: seq<u8>)
    requires TickerAllowed(e.value.ticker)
    ensures ReadAsset(AssetRow(e, 1) + tail) == Ok(Parsed(e, tail))
  {
    var sized := BE(|e.value.ticker|, 1) + (e.value.ticker + tail);
    AssetRowParts(e, 1, tail);
    ReadIdWritten(e.id, [KindTag(e.value.kind)] + sized);
    ReadOneByte(KindTag(e.value.kind), sized);
    ReadTickerWritten(e.value.ticker, tail);
  }

  lemma AssetStrict(rest: seq<u8>)
    requires ReadAsset(rest).Ok?
    ensures var p := ReadAsset(rest).value;
            TickerAllowed(p.value.value.ticker) && rest == AssetRow(p.value, 1) + p.rest
  {
    var id := ReadId(rest).value;
    var tag := ReadBE(id.rest, 1).value;
    assert rest == BE(id.value, 32) + id.rest by { ReadIdStrict(rest); }
    assert tag.value < 256 && id.rest == [tag.value] + tag.rest by { OneByteStrict(id.rest); }
    TickerStrict(tag.rest);
    AssetRowParts(ReadAsset(rest).value.value, 1, ReadAsset(rest).value.rest);
  }

  predicate AllowedAsset(e: Entry<Asset>) {
    TickerAllowed(e.value.ticker)
  }

  lemma ReadAssetsWritten(es: seq<Entry<Asset>>, tail: seq<u8>)
    requires AllowedAssets(es)
    ensures ReadMany(ReadAsset, AssetRows(es, 1) + tail, |es|) == Ok(Parsed(es, tail))
  {
    forall i, t | 0 <= i < |es| ensures ReadsBack(ReadAsset, AssetWriter(1), es[i], t) {
      ReadAssetWritten(es[i], t);
    }
    ReadManyWritten(ReadAsset, AssetWriter(1), es, tail);
  }

  lemma AssetsStrict(rest: seq<u8>, count: nat)
    requires ReadMany(ReadAsset, rest, count).Ok?
    ensures var p := ReadMany(ReadAsset, rest, count).value;
            |p.value| == count && AllowedAssets(p.value) && rest == AssetRows(p.value, 1) + p.rest
  {
    forall r ensures ReadsOnly(ReadAsset, AssetWriter(1), AllowedAsset, r) {
      if ReadAsset(r).Ok? {
        AssetStrict(r);
      }
    }
    ReadManyStrict(ReadAsset, AssetWriter(1), AllowedAsset, rest, count);
  }

  lemma ReadSupplyEntryWritten(e: Entry<nat>, tail: seq<u8>)
    requires 0 < e.value <= U128_MAX
    ensures ReadSupplyEntry(SupplyRow(e) + tail) == Ok(Parsed(e, tail))
  {
    SmallPowers();
    Associate(BE(e.id, 32), BE(e.value, 16), tail);
    ReadIdWritten(e.id, BE(e.value, 16) + tail);
    ReadBEWritten(e.value, 16, tail);
  }

  lemma SupplyEntryStrict(rest: seq<u8>)
    requires ReadSupplyEntry(rest).Ok?
    ensures var p := ReadSupplyEntry(rest).value;
            0 < p.value.value <= U128_MAX && rest == SupplyRow(p.value) + p.rest
  {
    SmallPowers();
    ReadIdStrict(rest);
    var id := ReadId(rest).value;
    ReadBEStrict(id.rest, 16);
    var p := ReadSupplyEntry(rest).value;
    Associate(BE(p.value.id, 32), BE(p.value.value, 16), p.rest);
  }

  predicate AllowedAmount(e: Entry<nat>) {
    0 < e.value <= U128_MAX
  }

  lemma ReadSupplyWritten(es: seq<Entry<nat>>, tail: seq<u8>)
    requires Amounts(es)
    ensures ReadMany(ReadSupplyEntry, SupplyRows(es) + tail, |es|) == Ok(Parsed(es, tail))
  {
    forall i, t | 0 <= i < |es| ensures ReadsBack(ReadSupplyEntry, SupplyRow, es[i], t) {
      ReadSupplyEntryWritten(es[i], t);
    }
    ReadManyWritten(ReadSupplyEntry, SupplyRow, es, tail);
  }

  lemma SupplyStrict(rest: seq<u8>, count: nat)
    requires ReadMany(ReadSupplyEntry, rest, count).Ok?
    ensures var p := ReadMany(ReadSupplyEntry, rest, count).value;
            |p.value| == count && Amounts(p.value) && rest == SupplyRows(p.value) + p.rest
  {
    forall r ensures ReadsOnly(ReadSupplyEntry, SupplyRow, AllowedAmount, r) {
      if ReadSupplyEntry(r).Ok? {
        SupplyEntryStrict(r);
      }
    }
    ReadManyStrict(ReadSupplyEntry, SupplyRow, AllowedAmount, rest, count);
  }

  lemma ReadCountWritten(count: nat, maximum: nat, tail: seq<u8>)
    requires count <= maximum < Pow256(4)
    ensures ReadCount(BE(count, 4) + tail, maximum) == Ok(Parsed(count, tail))
  {
    ReadBEWritten(count, 4, tail);
  }

  lemma ReadCollectionsWritten(p: LedgerSnapshot)
    requires Bounded(p) && Amounts(p.supply)
    ensures ReadCollections(p.depth, p.assets, Collections(p)) == Ok(p)
  {
    SmallPowers();
    var supply := SupplyRows(p.supply) + PrefixedIds(p.accepted);
    ReadIdsWritten(p.commitments, MAX_SNAPSHOT_IDENTIFIERS, PrefixedIds(p.spent) + (BE(|p.supply|, 4) + supply));
    ReadIdsWritten(p.spent, MAX_SNAPSHOT_IDENTIFIERS, BE(|p.supply|, 4) + supply);
    ReadCountWritten(|p.supply|, MAX_SNAPSHOT_ASSETS, supply);
    ReadSupplyWritten(p.supply, PrefixedIds(p.accepted));
    assert PrefixedIds(p.accepted) + [] == PrefixedIds(p.accepted);
    ReadIdsWritten(p.accepted, MAX_SNAPSHOT_IDENTIFIERS, []);
  }

  lemma CollectionsStrict(depth: nat, assets: seq<Entry<Asset>>, rest: seq<u8>)
    requires ReadCollections(depth, assets, rest).Ok?
    ensures var p := ReadCollections(depth, assets, rest).value;
            p.depth == depth && p.assets == assets && rest == Collections(p) && Amounts(p.supply)
            && |p.commitments| <= MAX_SNAPSHOT_IDENTIFIERS && |p.spent| <= MAX_SNAPSHOT_IDENTIFIERS
            && |p.supply| <= MAX_SNAPSHOT_ASSETS && |p.accepted| <= MAX_SNAPSHOT_IDENTIFIERS
  {
    ReadIdsStrict(rest, MAX_SNAPSHOT_IDENTIFIERS);
    var commitments := ReadIds(rest, MAX_SNAPSHOT_IDENTIFIERS).value;
    ReadIdsStrict(commitments.rest, MAX_SNAPSHOT_IDENTIFIERS);
    var spent := ReadIds(commitments.rest, MAX_SNAPSHOT_IDENTIFIERS).value;
    ReadBEStrict(spent.rest, 4);
    var count := ReadCount(spent.rest, MAX_SNAPSHOT_ASSETS).value;
    SupplyStrict(count.rest, count.value);
    var supply := ReadMany(ReadSupplyEntry, count.rest, count.value).value;
    ReadIdsStrict(supply.rest, MAX_SNAPSHOT_IDENTIFIERS);
    var accepted := ReadIds(supply.rest, MAX_SNAPSHOT_IDENTIFIERS).value;
    assert PrefixedIds(accepted.value) + [] == PrefixedIds(accepted.value);
  }

  /** Reading back a written payload gives the same parts. */
  lemma ReadPartsWritten(p: LedgerSnapshot)
    requires Canonical(p) && Bounded(p) && Amounts(p.supply)
    ensures ReadParts(SnapshotBytes(p)) == Ok(p)
  {
    SmallPowers();
    ReadOneByte(p.depth, BE(|p.assets|, 4) + (AssetRows(p.assets, 1) + Collections(p)));
    ReadCountWritten(|p.assets|, MAX_SNAPSHOT_ASSETS, AssetRows(p.assets, 1) + Collections(p));
    ReadAssetsWritten(p.assets, Collections(p));
    ReadCollectionsWritten(p);
  }

  /** A payload that reads at all is the written form of the parts it reads to. */
  lemma PartsStrict(bytes: seq<u8>)
    requires ReadParts(bytes).Ok?
    ensures var p := ReadParts(bytes).value;
            p.depth < 256 && bytes == SnapshotBytes(p) && Bounded(p) && Amounts(p.supply)
  {
    OneByteStrict(bytes);
    var depth := ReadBE(bytes, 1).value;
    ReadBEStrict(depth.rest, 4);
    var count := ReadCount(depth.rest, MAX_SNAPSHOT_ASSETS).value;
    AssetsStrict(count.rest, count.value);
    var assets := ReadMany(ReadAsset, count.rest, count.value).value;
    CollectionsStrict(depth.value, assets.value, assets.rest);
  }

  // ----- the complete file

  datatype Checkpoint = Checkpoint(genesis: Id, context: Id, sequence: nat, stateId: Id, terminal: Id,
      snapshot: LedgerSnapshot)

  /** The two hash functions a deployment uses: SHA-256 over bytes, and the commitment-tree hash. */
  datatype Hashes = Hashes(sha: Sha, tree: Merkle.Hash)

  /** What construction guarantees: a positive sequence that counts the accepted transactions, bounded canonical
      contents, and the identifier of the state they restore. */
  ghost predicate Sound(hashes: Hashes, c: Checkpoint) {
    Canonical(c.snapshot) && Amounts(c.snapshot.supply) && Bounded(c.snapshot) &&
    0 < c.sequence == |c.snapshot.accepted| &&
    c.stateId == StateIdOf(hashes.sha, hashes.tree, Restored(c.snapshot), c.genesis)
  }

  datatype Header = Header(genesis: Id, context: Id, sequence: nat, stateId: Id, terminal: Id, length: nat,
      payloadHash: Id)

  function HeaderThen(h: Header, tail: seq<u8>): seq<u8> {
    MAGIC + (BE(1, 2) + (BE(1, 2) + (BE(h.genesis, 32) + (BE(h.context, 32) + DetailsThen(h, tail)))))
  }

  function DetailsThen(h: Header, tail: seq<u8>): seq<u8> {
    BE(h.sequence, 8) + (BE(h.stateId, 32) + (BE(h.terminal, 32) + (BE(h.length, 4) + (BE(h.payloadHash, 32) + tail))))
  }

  function PayloadHash(sha: Sha, payload: seq<u8>): Id {
    sha(SNAPSHOT_DOMAIN + payload)
  }

  function FileHash(sha: Sha, body: seq<u8>): Id {
    sha(CHECKPOINT_DOMAIN + body)
  }

  function HeaderOf(sha: Sha, c: Checkpoint, payload: seq<u8>): Header {
    Header(c.genesis, c.context, c.sequence, c.stateId, c.terminal, |payload|, PayloadHash(sha, payload))
  }

  function Sealed(sha: Sha, body: seq<u8>): seq<u8> {
    body + BE(FileHash(sha, body), 32)
  }

  function Encoded(sha: Sha, c: Checkpoint): seq<u8>
    requires c.snapshot.depth < 256
  {
    var payload := SnapshotBytes(c.snapshot);
    Sealed(sha, HeaderThen(HeaderOf(sha, c, payload), payload))
  }

  function ReadVersions(rest: seq<u8>): Result<Parsed<()>, CheckpointError> {
    var magic :- Lift(ReadExact(rest, 4));
    if magic.value != MAGIC then Err(InvalidMagic)
    else
      var format :- Lift(ReadBE(magic.rest, 2));
      if format.value != 1 then Err(UnsupportedFormatVersion(format.value))
      else
        var snapshot :- Lift(ReadBE(format.rest, 2));
        if snapshot.value != 1 then Err(UnsupportedSnapshotVersion(snapshot.value))
        else Ok(Parsed((), snapshot.rest))
  }

  function ReadDetails(genesis: Id, context: Id, rest: seq<u8>): Result<Parsed<Header>, CheckpointError> {
    var sequence :- Lift(ReadBE(rest, 8));
    if sequence.value == 0 then Err(GenesisCheckpointUnsupported)
    else
      var stateId :- Lift(ReadId(sequence.rest));
      var terminal :- Lift(ReadId(stateId.rest));
      var length :- Lift(ReadBE(terminal.rest, 4));
      if length.value > MAX_SNAPSHOT_BYTES then Err(SnapshotTooLarge(length.value))
      else
        var payloadHash :- Lift(ReadId(length.rest));
        Ok(Parsed(Header(genesis, context, sequence.value, stateId.value, terminal.value, length.value,
            payloadHash.value), payloadHash.rest))
  }

  function ReadHeader(rest: seq<u8>): Result<Parsed<Header>, CheckpointError> {
    var versions :- ReadVersions(rest);
    var genesis :- Lift(ReadId(versions.rest));
    var context :- Lift(ReadId(genesis.rest));
    ReadDetails(genesis.value, context.value, context.rest)
  }

  /** The payload whose length and hash the header gives, with nothing after it. */
  function FramedPayload(sha: Sha, h: Header, rest: seq<u8>): Result<seq<u8>, CheckpointError> {
    var payload :- Lift(ReadExact(rest, h.length));
    if h.payloadHash != PayloadHash(sha, payload.value) then Err(SnapshotHashMismatch)
    else if payload.rest != [] then Err(TrailingBytes(|payload.rest|))
    else Ok(payload.value)
  }

  /** The checks that follow once the parts are read. */
  ghost function Accept(hashes: Hashes, h: Header, p: LedgerSnapshot, bytes: seq<u8>)
    : Result<Checkpoint, CheckpointError>
  {
    if !Canonical(p) then Err(InvalidSnapshot)
    else if |p.accepted| != h.sequence then Err(SnapshotSequenceMismatch)
    else if StateIdOf(hashes.sha, hashes.tree, Restored(p), h.genesis) != h.stateId then Err(StateIdMismatch)
    else
      var c := Checkpoint(h.genesis, h.context, h.sequence, h.stateId, h.terminal, p);
      if Encoded(hashes.sha, c) != bytes then Err(NonCanonicalEncoding) else Ok(c)
  }

  ghost function DecodedBody(hashes: Hashes, body: seq<u8>, bytes: seq<u8>): Result<Checkpoint, CheckpointError> {
    var header :- ReadHeader(body);
    var payload :- FramedPayload(hashes.sha, header.value, header.rest);
    var parts :- ReadParts(payload);
    Accept(hashes, header.value, parts, bytes)
  }

  ghost function Decoded(hashes: Hashes, bytes: seq<u8>): Result<Checkpoint, CheckpointError> {
    if |bytes| < HEADER_BYTES + HASH_BYTES then Err(Read(UnexpectedEnd))
    else
      var body := bytes[..|bytes| - HASH_BYTES];
      if bytes[|bytes| - HASH_BYTES..] != BE(FileHash(hashes.sha, body), 32) then Err(CheckpointHashMismatch)
      else DecodedBody(hashes, body, bytes)
  }

  /** The payload, field by field. */
  lemma PayloadLayout(p: LedgerSnapshot)
    requires p.depth < 256
    ensures SnapshotBytes(p) ==
            [p.depth] + BE(|p.assets|, 4) + AssetRows(p.assets, 1) + BE(|p.commitments|, 4) + Concat(p.commitments) +
            BE(|p.spent|, 4) + Concat(p.spent) + BE(|p.supply|, 4) + SupplyRows(p.supply) +
            BE(|p.accepted|, 4) + Concat(p.accepted)
  {
    hide BE, Concat, Rows, AssetRows, SupplyRows;
  }

  /** The file, field by field: a 180-byte header over the payload, and the hash of all of it at the end. */
  lemma FileLayout(sha: Sha, c: Checkpoint)
    requires c.snapshot.depth < 256
    ensures var payload := SnapshotBytes(c.snapshot);
            var body := [0x4e, 0x58, 0x43, 0x50] + [0, 1] + [0, 1] + BE(c.genesis, 32) + BE(c.context, 32) +
                        BE(c.sequence, 8) + BE(c.stateId, 32) + BE(c.terminal, 32) + BE(|payload|, 4) +
                        BE(sha(SNAPSHOT_DOMAIN + payload), 32) + payload;
            |body| == 180 + |payload| && Encoded(sha, c) == body + BE(sha(CHECKPOINT_DOMAIN + body), 32)
  {
    assert BE(1, 2) == [0, 1];
    hide BE, SnapshotBytes, HeaderThen;
    var payload := SnapshotBytes(c.snapshot);
    HeaderFlat(HeaderOf(sha, c, payload), payload);
  }

  lemma HeaderFlat(h: Header, tail: seq<u8>)
    ensures HeaderThen(h, tail) ==
            MAGIC + BE(1, 2) + BE(1, 2) + BE(h.genesis, 32) + BE(h.context, 32) + BE(h.sequence, 8) +
            BE(h.stateId, 32) + BE(h.terminal, 32) + BE(h.length, 4) + BE(h.payloadHash, 32) + tail
  {
    hide BE;
    var details := DetailsThen(h, tail);
    Reassociate(MAGIC, BE(1, 2), BE(1, 2), BE(h.genesis, 32), BE(h.context, 32) + details);
    var head := MAGIC + BE(1, 2) + BE(1, 2) + BE(h.genesis, 32);
    Associate(head, BE(h.context, 32), details);
    var front := head + BE(h.context, 32);
    hide DetailsThen, HeaderThen;
    DetailsFlat(h, tail, front);
    Associate(front + BE(h.sequence, 8) + BE(h.stateId, 32) + BE(h.terminal, 32) + BE(h.length, 4),
              BE(h.payloadHash, 32), tail);
  }

  lemma DetailsFlat(h: Header, tail: seq<u8>, front: seq<u8>)
    ensures front + DetailsThen(h, tail) ==
            front + BE(h.sequence, 8) + BE(h.stateId, 32) + BE(h.terminal, 32) + BE(h.length, 4) +
            (BE(h.payloadHash, 32) + tail)
  {
    hide BE;
    var end := BE(h.payloadHash, 32) + tail;
    Associate(front, BE(h.sequence, 8), BE(h.stateId, 32) + (BE(h.terminal, 32) + (BE(h.length, 4) + end)));
    Reassociate(front + BE(h.sequence, 8), BE(h.stateId, 32), BE(h.terminal, 32), BE(h.length, 4), end);
  }

  /** How a damaged file is refused: too short for a header and a hash, then by the hash over everything before it. */
  lemma FileRefusals(hashes: Hashes, bytes: seq<u8>)
    ensures var r, n := Decoded(hashes, bytes), |bytes| - 32;
            (|bytes| < 212 ==> r == Err(Read(UnexpectedEnd))) &&
            (|bytes| >= 212 && bytes[n..] != BE(hashes.sha(CHECKPOINT_DOMAIN + bytes[..n]), 32) ==>
               r == Err(CheckpointHashMismatch)) &&
            (r.Ok? ==> bytes[n..] == BE(hashes.sha(CHECKPOINT_DOMAIN + bytes[..n]), 32))
  {
    hide DecodedBody, BE;
  }

  // ----- the file decoder inverts the encoder, and accepts nothing else

  lemma VersionsWritten(tail: seq<u8>)
    ensures ReadVersions(MAGIC + (BE(1, 2) + (BE(1, 2) + tail))) == Ok(Parsed((), tail))
  {
    SmallPowers();
    var versions := BE(1, 2) + (BE(1, 2) + tail);
    assert (MAGIC + versions)[..4] == MAGIC && (MAGIC + versions)[4..] == versions;
    ReadBEWritten(1, 2, BE(1, 2) + tail);
    ReadBEWritten(1, 2, tail);
  }

  lemma VersionsStrict(rest: seq<u8>)
    requires ReadVersions(rest).Ok?
    ensures rest == MAGIC + (BE(1, 2) + (BE(1, 2) + ReadVersions(rest).value.rest))
  {
    assert rest == rest[..4] + rest[4..];
    ReadBEStrict(rest[4..], 2);
    ReadBEStrict(ReadBE(rest[4..], 2).value.rest, 2);
  }

  lemma DetailsWritten(h: Header, tail: seq<u8>)
    requires 0 < h.sequence <= U64_MAX && h.length <= MAX_SNAPSHOT_BYTES
    ensures ReadDetails(h.genesis, h.context, DetailsThen(h, tail)) == Ok(Parsed(h, tail))
  {
    SmallPowers();
    var hashed := BE(h.payloadHash, 32) + tail;
    ReadBEWritten(h.sequence, 8, BE(h.stateId, 32) + (BE(h.terminal, 32) + (BE(h.length, 4) + hashed)));
    ReadIdWritten(h.stateId, BE(h.terminal, 32) + (BE(h.length, 4) + hashed));
    ReadIdWritten(h.terminal, BE(h.length, 4) + hashed);
    ReadBEWritten(h.length, 4, hashed);
    ReadIdWritten(h.payloadHash, tail);
  }

  lemma DetailsStrict(genesis: Id, context: Id, rest: seq<u8>)
    requires ReadDetails(genesis, context, rest).Ok?
    ensures var p := ReadDetails(genesis, context, rest).value;
            p.value.genesis == genesis && p.value.context == context && rest == DetailsThen(p.value, p.rest)
            && 0 < p.value.sequence <= U64_MAX && p.value.length <= MAX_SNAPSHOT_BYTES
  {
    SmallPowers();
    ReadBEStrict(rest, 8);
    var sequence := ReadBE(rest, 8).value;
    ReadIdStrict(sequence.rest);
    var stateId := ReadId(sequence.rest).value;
    ReadIdStrict(stateId.rest);
    var terminal := ReadId(stateId.rest).value;
    ReadBEStrict(terminal.rest, 4);
    ReadIdStrict(ReadBE(terminal.rest, 4).value.rest);
  }

  lemma HeaderWritten(h: Header, tail: seq<u8>)
    requires 0 < h.sequence <= U64_MAX && h.length <= MAX_SNAPSHOT_BYTES
    ensures ReadHeader(HeaderThen(h, tail)) == Ok(Parsed(h, tail))
    ensures |HeaderThen(h, tail)| == HEADER_BYTES + |tail|
  {
    var details := DetailsThen(h, tail);
    VersionsWritten(BE(h.genesis, 32) + (BE(h.context, 32) + details));
    ReadIdWritten(h.genesis, BE(h.context, 32) + details);
    ReadIdWritten(h.context, details);
    DetailsWritten(h, tail);
  }

  lemma HeaderStrict(rest: seq<u8>)
    requires ReadHeader(rest).Ok?
    ensures var p := ReadHeader(rest).value;
            rest == HeaderThen(p.value, p.rest) && 0 < p.value.sequence <= U64_MAX &&
                p.value.length <= MAX_SNAPSHOT_BYTES
  {
    VersionsStrict(rest);
    var versions := ReadVersions(rest).value;
    ReadIdStrict(versions.rest);
    var genesis := ReadId(versions.rest).value;
    ReadIdStrict(genesis.rest);
    var context := ReadId(genesis.rest).value;
    DetailsStrict(genesis.value, context.value, context.rest);
  }

  lemma SealedParts(sha: Sha, body: seq<u8>)
    ensures var bytes := Sealed(sha, body);
            |bytes| == |body| + HASH_BYTES && bytes[..|bytes| - HASH_BYTES] == body
            && bytes[|bytes| - HASH_BYTES..] == BE(FileHash(sha, body), 32)
  {
  }

  /** Decoding an encoded checkpoint gives back the same checkpoint. */
  lemma DecodeInvertsEncode(hashes: Hashes, c: Checkpoint)
    requires Sound(hashes, c)
    ensures Decoded(hashes, Encoded(hashes.sha, c)) == Ok(c)
  {
    hide SnapshotBytes, HeaderThen, ReadHeader, ReadParts, StateIdOf, Restored;
    var payload := SnapshotBytes(c.snapshot);
    var h := HeaderOf(hashes.sha, c, payload);
    PayloadBound(c.snapshot);
    HeaderWritten(h, payload);
    SealedParts(hashes.sha, HeaderThen(h, payload));
    assert payload[..|payload|] == payload && payload[|payload|..] == [];
    ReadPartsWritten(c.snapshot);
  }

  lemma FramedStrict(sha: Sha, h: Header, rest: seq<u8>)
    requires FramedPayload(sha, h, rest).Ok?
    ensures FramedPayload(sha, h, rest).value == rest && h.length == |rest| && h.payloadHash == PayloadHash(sha, rest)
  {
    assert rest == rest[..h.length] + rest[h.length..];
  }

  lemma AcceptStrict(hashes: Hashes, h: Header, p: LedgerSnapshot, payload: seq<u8>, bytes: seq<u8>)
    requires p.depth < 256 && payload == SnapshotBytes(p) && Bounded(p) && Amounts(p.supply) && 0 < h.sequence
    requires h.length == |payload| && h.payloadHash == PayloadHash(hashes.sha, payload)
    requires bytes == Sealed(hashes.sha, HeaderThen(h, payload))
    ensures Accept(hashes, h, p, bytes).Ok? ==>
              Sound(hashes, Accept(hashes, h, p, bytes).value) &&
                  bytes == Encoded(hashes.sha, Accept(hashes, h, p, bytes).value)
    ensures Accept(hashes, h, p, bytes) != Err(NonCanonicalEncoding)
  {
    hide SnapshotBytes, HeaderThen, StateIdOf, Restored;
    assert HeaderOf(hashes.sha, Checkpoint(h.genesis, h.context, h.sequence, h.stateId, h.terminal, p), payload) == h;
  }

  lemma DecodedBodyStrict(hashes: Hashes, body: seq<u8>, bytes: seq<u8>)
    requires bytes == Sealed(hashes.sha, body)
    ensures DecodedBody(hashes, body, bytes).Ok? ==>
              Sound(hashes, DecodedBody(hashes, body, bytes).value) &&
                  bytes == Encoded(hashes.sha, DecodedBody(hashes, body, bytes).value)
    ensures DecodedBody(hashes, body, bytes) != Err(NonCanonicalEncoding)
  {
    hide ReadHeader, ReadParts, Accept, Sound, Encoded, Sealed;
    HeaderNever(body);
    if ReadHeader(body).Ok? {
      HeaderStrict(body);
      var header := ReadHeader(body).value;
      if FramedPayload(hashes.sha, header.value, header.rest).Ok? {
        FramedStrict(hashes.sha, header.value, header.rest);
        PartsNever(header.rest);
        if ReadParts(header.rest).Ok? {
          PartsStrict(header.rest);
          AcceptStrict(hashes, header.value, ReadParts(header.rest).value, header.rest, bytes);
        }
      }
    }
  }

  lemma HeaderNever(rest: seq<u8>)
    ensures ReadHeader(rest) != Err(NonCanonicalEncoding)
  {
  }

  lemma {:induction false} ManyNever<T>(read: seq<u8> -> Result<Parsed<T>, CheckpointError>, rest: seq<u8>, count: nat)
    requires forall r :: read(r) != Err(NonCanonicalEncoding)
    ensures ReadMany(read, rest, count) != Err(NonCanonicalEncoding)
    decreases count
  {
    if count > 0 && read(rest).Ok? {
      ManyNever(read, read(rest).value.rest, count - 1);
    }
  }

  lemma PartsNever(bytes: seq<u8>)
    ensures ReadParts(bytes) != Err(NonCanonicalEncoding)
  {
    forall r, n ensures ReadMany(ReadAsset, r, n) != Err(NonCanonicalEncoding) {
      ManyNever(ReadAsset, r, n);
    }
    forall r, n ensures ReadMany(ReadSupplyEntry, r, n) != Err(NonCanonicalEncoding) {
      ManyNever(ReadSupplyEntry, r, n);
    }
  }

  /** Accepted bytes are exactly the encodings of sound checkpoints, so the final re-encoding comparison never fails.
      */
  lemma DecodesExactlyTheImage(hashes: Hashes, bytes: seq<u8>)
    ensures Decoded(hashes, bytes).Ok? ==>
        Sound(hashes, Decoded(hashes, bytes).value) && bytes == Encoded(hashes.sha, Decoded(hashes, bytes).value)
    ensures Decoded(hashes, bytes) != Err(NonCanonicalEncoding)
  {
    if |bytes| >= HEADER_BYTES + HASH_BYTES {
      var body := bytes[..|bytes| - HASH_BYTES];
      assert bytes == body + bytes[|bytes| - HASH_BYTES..];
      if bytes == Sealed(hashes.sha, body) {
        DecodedBodyStrict(hashes, body, bytes);
      }
    }
  }
}
