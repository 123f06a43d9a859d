/** The state identifier: a hash over the canonical listing of every public ledger component. */
module StateId {
  import opened Common
  import opened Bytes
  import opened Hashing
  import opened IdSets
  import opened Ledger
  import opened PublicLedger
  import opened Snapshot
  import Merkle
  import PaddedTree

  type Sha = seq<u8> -> Id

  /** "NOXIS/STATE/V2" and a zero byte. */
  const DOMAIN: seq<u8> := [78, 79, 88, 73, 83, 47, 83, 84, 65, 84, 69, 47, 86, 50, 0]

  function KindTag(kind: AssetKind): u8 {
    match kind case NativeBacked => 1 case Synthetic => 2
  }

  /** An asset, its ticker behind a big-endian length of `width` bytes. */
  function AssetRow(e: Entry<Asset>, width: nat): seq<u8> {
    BE(e.id, 32) + ([KindTag(e.value.kind)] + (BE(|e.value.ticker|, width) + e.value.ticker))
  }

  function AssetWriter(width: nat): Entry<Asset> -> seq<u8> {
    e => AssetRow(e, width)
  }

  function AssetRows(es: seq<Entry<Asset>>, width: nat): seq<u8> {
    Rows(AssetWriter(width), es)
  }

  function SupplyRow(e: Entry<nat>): seq<u8> {
    BE(e.id, 32) + BE(e.value, 16)
  }

  function SupplyRows(es: seq<Entry<nat>>): seq<u8> {
    Rows(SupplyRow, es)
  }

  lemma {:induction false} SupplyRowsLength(es: seq<Entry<nat>>)
    ensures |SupplyRows(es)| == 48 * |es|
  {
    if es != [] {
      SupplyRowsLength(es[1..]);
    }
  }

  /** The lists that follow the commitment-tree root. */
  function Listing(p: LedgerSnapshot): seq<u8> {
    BE(|p.assets|, 4) + (AssetRows(p.assets,
        4) + (BE(|p.supply|, 4) + (SupplyRows(p.supply) + (PrefixedIds(p.spent) + PrefixedIds(p.accepted)))))
  }

  function StateBytes(genesis: Id, depth: u8, root: Id, p: LedgerSnapshot): seq<u8> {
    DOMAIN + (BE(genesis, 32) + ([depth] + (BE(root, 32) + Listing(p))))
  }

  /** Every list length is written in 32 bits. */
  predicate Countable(p: LedgerSnapshot) {
    |p.assets| <= U32_MAX && |p.supply| <= U32_MAX && |p.spent| <= U32_MAX && |p.accepted| <= U32_MAX
  }

  ghost function StateIdOf(sha: Sha, hash: Merkle.Hash, s: LedgerState, genesis: Id): Id
    requires s.depth <= Merkle.MAX_DEPTH
  {
    sha(StateBytes(genesis, s.depth, PaddedTree.CompleteRoot(hash, s.depth, s.tree), SnapshotOf(s)))
  }

  /** What is hashed, field by field: the domain, genesis, depth and root, then assets, supply, nullifiers and
      transactions, each list behind its 32-bit length, every number big-endian. */
  lemma StateLayout(genesis: Id, depth: u8, root: Id, p: LedgerSnapshot)
    ensures StateBytes(genesis, depth, root, p) ==
            DOMAIN + BE(genesis, 32) + [depth] + BE(root, 32) +
            BE(|p.assets|, 4) + AssetRows(p.assets, 4) + BE(|p.supply|, 4) + SupplyRows(p.supply) +
            BE(|p.spent|, 4) + Concat(p.spent) + BE(|p.accepted|, 4) + Concat(p.accepted)
  {
    hide BE, Concat, Rows, AssetRows, SupplyRows;
    assert StateBytes(genesis, depth, root, p) == DOMAIN + BE(genesis, 32) + [depth] + BE(root, 32) + Listing(p);
  }

  /** A row: the identifier, 1 for a native-backed and 2 for a synthetic asset, the ticker behind its length; or the
      identifier and the 128-bit amount. */
  lemma RowLayout(e: Entry<Asset>, width: nat, f: Entry<nat>)
    ensures AssetRow(e, width) == BE(e.id, 32) + [if e.value.kind == NativeBacked then 1 else 2] +
                                  BE(|e.value.ticker|, width) + e.value.ticker
    ensures SupplyRow(f) == BE(f.id, 32) + BE(f.value, 16)
  {
    hide BE;
  }

  // ----- the fields can be told apart

  lemma SplitSame(x: seq<u8>, y: seq<u8>, s: seq<u8>, t: seq<u8>)
    requires |x| == |y| && x + s == y + t
    ensures x == y && s == t
  {
    assert (x + s)[..|x|] == x && (y + t)[..|y|] == y;
    assert (x + s)[|x|..] == s && (y + t)[|y|..] == t;
  }

  lemma SplitNumber(a: nat, b: nat, width: nat, s: seq<u8>, t: seq<u8>)
    requires a < Pow256(width) && b < Pow256(width) && BE(a, width) + s == BE(b, width) + t
    ensures a == b && s == t
  {
    ReadBEWritten(a, width, s);
    ReadBEWritten(b, width, t);
  }

  lemma SplitId(a: Id, b: Id, s: seq<u8>, t: seq<u8>)
    requires BE(a, 32) + s == BE(b, 32) + t
    ensures a == b && s == t
  {
    IdPower();
    SplitNumber(a, b, 32, s, t);
  }

  ghost predicate TickersFit(es: seq<Entry<Asset>>, width: nat) {
    forall i | 0 <= i < |es| :: |es[i].value.ticker| < Pow256(width)
  }

  lemma SplitSized(a: seq<u8>, b: seq<u8>, width: nat, s: seq<u8>, t: seq<u8>)
    requires |a| < Pow256(width) && |b| < Pow256(width)
    requires BE(|a|, width) + (a + s) == BE(|b|, width) + (b + t)
    ensures a == b && s == t
  {
    SplitNumber(|a|, |b|, width, a + s, b + t);
    SplitSame(a, b, s, t);
  }

  lemma AssetRowParts(a: Entry<Asset>, width: nat, s: seq<u8>)
    ensures AssetRow(a, width) + s == BE(a.id,
        32) + ([KindTag(a.value.kind)] + (BE(|a.value.ticker|, width) + (a.value.ticker + s)))
  {
    var id, kind, size, ticker := BE(a.id, 32), [KindTag(a.value.kind)], BE(|a.value.ticker|, width), a.value.ticker;
    assert size + ticker + s == size + (ticker + s);
    assert kind + (size + ticker) + s == kind + (size + ticker + s);
    assert id + (kind + (size + ticker)) + s == id + (kind + (size + ticker) + s);
  }

  lemma SplitAsset(a: Entry<Asset>, b: Entry<Asset>, width: nat, s: seq<u8>, t: seq<u8>)
    requires |a.value.ticker| < Pow256(width) && |b.value.ticker| < Pow256(width)
    requires AssetRow(a, width) + s == AssetRow(b, width) + t
    ensures a == b && s == t
  {
    AssetRowParts(a, width, s);
    AssetRowParts(b, width, t);
    var sizedA, sizedB := BE(|a.value.ticker|, width) + (a.value.ticker + s),
        BE(|b.value.ticker|, width) + (b.value.ticker + t);
    SplitId(a.id, b.id, [KindTag(a.value.kind)] + sizedA, [KindTag(b.value.kind)] + sizedB);
    SplitSame([KindTag(a.value.kind)], [KindTag(b.value.kind)], sizedA, sizedB);
    SplitSized(a.value.ticker, b.value.ticker, width, s, t);
  }

  lemma {:induction false} SplitAssets(a: seq<Entry<Asset>>, b: seq<Entry<Asset>>, width: nat, s: seq<u8>, t: seq<u8>)
    requires |a| == |b| && TickersFit(a, width) && TickersFit(b, width)
    requires AssetRows(a, width) + s == AssetRows(b, width) + t
    ensures a == b && s == t
  {
    hide AssetRow;
    if a == [] {
      SplitSame([], [], s, t);
    } else {
      var restA, restB := AssetRows(a[1..], width) + s, AssetRows(b[1..], width) + t;
      assert AssetRows(a, width) + s == AssetRow(a[0], width) + restA;
      assert AssetRows(b, width) + t == AssetRow(b[0], width) + restB;
      SplitAsset(a[0], b[0], width, restA, restB);
      SplitAssets(a[1..], b[1..], width, s, t);
      assert a == [a[0]] + a[1..] && b == [b[0]] + b[1..];
    }
  }

  lemma {:induction false} SplitSupply(a: seq<Entry<nat>>, b: seq<Entry<nat>>, s: seq<u8>, t: seq<u8>)
    requires |a| == |b| && Amounts(a) && Amounts(b)
    requires SupplyRows(a) + s == SupplyRows(b) + t
    ensures a == b && s == t
  {
    SupplyRowsLength(a);
    SupplyRowsLength(b);
    SplitSame(SupplyRows(a), SupplyRows(b), s, t);
    if a != [] {
      SmallPowers();
      var restA, restB := BE(a[0].value, 16) + SupplyRows(a[1..]), BE(b[0].value, 16) + SupplyRows(b[1..]);
      assert SupplyRows(a) == BE(a[0].id, 32) + restA && SupplyRows(b) == BE(b[0].id, 32) + restB;
      SplitId(a[0].id, b[0].id, restA, restB);
      SplitNumber(a[0].value, b[0].value, 16, SupplyRows(a[1..]), SupplyRows(b[1..]));
      SplitSupply(a[1..], b[1..], [], []);
      assert a == [a[0]] + a[1..] && b == [b[0]] + b[1..];
    }
  }

  lemma SplitIds(a: seq<Id>, b: seq<Id>, s: seq<u8>, t: seq<u8>)
    requires |a| <= U32_MAX && |b| <= U32_MAX && PrefixedIds(a) + s == PrefixedIds(b) + t
    ensures a == b && s == t
  {
    SmallPowers();
    ReadIdsWritten(a, U32_MAX, s);
    ReadIdsWritten(b, U32_MAX, t);
  }

  /** Equal listings list the same components. */
  lemma ListingInjective(a: LedgerSnapshot, b: LedgerSnapshot)
    requires Countable(a) && Countable(b) && Amounts(a.supply) && Amounts(b.supply)
    requires TickersFit(a.assets, 4) && TickersFit(b.assets, 4)
    requires Listing(a) == Listing(b)
    ensures a.assets == b.assets && a.supply == b.supply && a.spent == b.spent && a.accepted == b.accepted
  {
    SmallPowers();
    var idsA, idsB := PrefixedIds(a.spent) + PrefixedIds(a.accepted), PrefixedIds(b.spent) + PrefixedIds(b.accepted);
    var supplyA, supplyB := SupplyRows(a.supply) + idsA, SupplyRows(b.supply) + idsB;
    var countA, countB := BE(|a.supply|, 4) + supplyA, BE(|b.supply|, 4) + supplyB;
    SplitNumber(|a.assets|, |b.assets|, 4, AssetRows(a.assets, 4) + countA, AssetRows(b.assets, 4) + countB);
    SplitAssets(a.assets, b.assets, 4, countA, countB);
    SplitNumber(|a.supply|, |b.supply|, 4, supplyA, supplyB);
    SplitSupply(a.supply, b.supply, idsA, idsB);
    SplitIds(a.spent, b.spent, PrefixedIds(a.accepted), PrefixedIds(b.accepted));
    assert PrefixedIds(a.accepted) + [] == PrefixedIds(b.accepted) + [];
    SplitIds(a.accepted, b.accepted, [], []);
  }

  /** Equal state bytes agree on the genesis, the depth, the tree root and every list. */
  lemma StateBytesInjective(g: Id, h: Id, d: u8, e: u8, x: Id, y: Id, a: LedgerSnapshot, b: LedgerSnapshot)
    requires Countable(a) && Countable(b) && Amounts(a.supply) && Amounts(b.supply)
    requires TickersFit(a.assets, 4) && TickersFit(b.assets, 4)
    requires StateBytes(g, d, x, a) == StateBytes(h, e, y, b)
    ensures g == h && d == e && x == y
    ensures a.assets == b.assets && a.supply == b.supply && a.spent == b.spent && a.accepted == b.accepted
  {
    var rootA, rootB := BE(x, 32) + Listing(a), BE(y, 32) + Listing(b);
    SplitSame(DOMAIN, DOMAIN, BE(g, 32) + ([d] + rootA), BE(h, 32) + ([e] + rootB));
    SplitId(g, h, [d] + rootA, [e] + rootB);
    SplitSame([d], [e], rootA, rootB);
    SplitId(x, y, Listing(a), Listing(b));
    ListingInjective(a, b);
  }

  /** Two ledger states with one identifier are the same state, commitment order included, unless a hash
      collision lies among the bytes hashed for the two identifiers or the nodes hashed for the two trees. */
  lemma StateIdBinds(sha: Sha, hash: Merkle.Hash, s: LedgerState, t: LedgerState, g: Id, h: Id)
    requires Valid(s) && Valid(t) && Countable(SnapshotOf(s)) && Countable(SnapshotOf(t))
    requires StateIdOf(sha, hash, s, g) == StateIdOf(sha, hash, t, h)
    requires var a, b := StateBytes(g, s.depth, PaddedTree.CompleteRoot(hash, s.depth, s.tree), SnapshotOf(s)),
                         StateBytes(h, t.depth, PaddedTree.CompleteRoot(hash, t.depth, t.tree), SnapshotOf(t));
             sha(a) == sha(b) ==> a == b
    requires NoCollision(hash,
        PaddedTree.TreeQueries(hash, s.tree, s.depth, 0) + PaddedTree.TreeQueries(hash, t.tree, t.depth, 0))
    ensures s == t && g == h
  {
    hide StateBytes, Listing, PaddedTree.CompleteRoot, PaddedTree.TreeQueries;
    hide TickersFit, CanonicalAssets, CanonicalSupply, Restored;
    var a, b := SnapshotOf(s), SnapshotOf(t);
    SnapshotCanonical(s);
    SnapshotCanonical(t);
    TickersAreShort(a);
    TickersAreShort(b);
    StateBytesInjective(g, h, s.depth, t.depth, PaddedTree.CompleteRoot(hash, s.depth, s.tree),
                        PaddedTree.CompleteRoot(hash, t.depth, t.tree), a, b);
    PaddedTree.RootBindsList(hash, s.depth, s.tree, t.tree);
    RestoreInvertsSnapshot(s);
    RestoreInvertsSnapshot(t);
  }

  lemma TickersAreShort(p: LedgerSnapshot)
    requires CanonicalAssets(p.assets)
    ensures TickersFit(p.assets, 1) && TickersFit(p.assets, 4)
  {
    SmallPowers();
  }

  // ----- the computation

  /** Feeds the sorted components to the hash one record at a time. */
  method ComputeStateId(sha: Sha, ledger: LedgerObject, genesis: Id) returns (id: Id)
    requires Valid(ledger.View()) && Countable(SnapshotOf(ledger.View()))
    ensures id == StateIdOf(sha, ledger.rules.hash, ledger.View(), genesis)
  {
    var root := ledger.StateRoot();
    var parts := SortedParts(ledger);
    var fed := FeedState(genesis, ledger.depth, root, parts);
    id := sha(fed);
  }

  method FeedState(genesis: Id, depth: u8, root: Id, p: LedgerSnapshot) returns (r: seq<u8>)
    ensures r == StateBytes(genesis, depth, root, p)
  {
    r := FeedLists(DOMAIN + BE(genesis, 32) + [depth] + BE(root, 32), p);
    Reassociate(DOMAIN, BE(genesis, 32), [depth], BE(root, 32), Listing(p));
  }

  method FeedLists(fed: seq<u8>, p: LedgerSnapshot) returns (r: seq<u8>)
    ensures r == fed + Listing(p)
  {
    r := FeedAssets(fed, p.assets, 4);
    r := FeedSupply(r, p.supply);
    r := FeedIds(r, p.spent);
    r := FeedIds(r, p.accepted);
    Reassociate(fed, BE(|p.assets|, 4) + AssetRows(p.assets, 4), BE(|p.supply|, 4) + SupplyRows(p.supply),
                PrefixedIds(p.spent), PrefixedIds(p.accepted));
    ListingPairs(p);
  }

  lemma ListingPairs(p: LedgerSnapshot)
    ensures Listing(p) == (BE(|p.assets|, 4) + AssetRows(p.assets, 4)) +
                          ((BE(|p.supply|, 4) + SupplyRows(p.supply)) +
                           (PrefixedIds(p.spent) + PrefixedIds(p.accepted)))
  {
    var ids := PrefixedIds(p.spent) + PrefixedIds(p.accepted);
    Associate(BE(|p.supply|, 4), SupplyRows(p.supply), ids);
    Associate(BE(|p.assets|, 4), AssetRows(p.assets, 4), BE(|p.supply|, 4) + SupplyRows(p.supply) + ids);
  }

  method FeedAssets(fed: seq<u8>, assets: seq<Entry<Asset>>, width: nat) returns (r: seq<u8>)
    ensures r == fed + (BE(|assets|, 4) + AssetRows(assets, width))
  {
    r := fed + BE(|assets|, 4);
    for i := 0 to |assets|
      invariant r + AssetRows(assets[i..], width) == fed + BE(|assets|, 4) + AssetRows(assets, width)
    {
      assert assets[i..][1..] == assets[i + 1..];
      Associate(r, AssetRow(assets[i], width), AssetRows(assets[i + 1..], width));
      r := r + AssetRow(assets[i], width);
    }
    Associate(fed, BE(|assets|, 4), AssetRows(assets, width));
  }

  method FeedSupply(fed: seq<u8>, supply: seq<Entry<nat>>) returns (r: seq<u8>)
    ensures r == fed + (BE(|supply|, 4) + SupplyRows(supply))
  {
    r := fed + BE(|supply|, 4);
    for i := 0 to |supply|
      invariant r + SupplyRows(supply[i..]) == fed + BE(|supply|, 4) + SupplyRows(supply)
    {
      assert supply[i..][1..] == supply[i + 1..];
      Associate(r, SupplyRow(supply[i]), SupplyRows(supply[i + 1..]));
      r := r + SupplyRow(supply[i]);
    }
    Associate(fed, BE(|supply|, 4), SupplyRows(supply));
  }

  method FeedIds(fed: seq<u8>, ids: seq<Id>) returns (r: seq<u8>)
    ensures r == fed + PrefixedIds(ids)
  {
    r := fed + BE(|ids|, 4);
    for i := 0 to |ids|
      invariant r + Concat(ids[i..]) == fed + BE(|ids|, 4) + Concat(ids)
    {
      assert ids[i..][1..] == ids[i + 1..];
      Associate(r, BE(ids[i], 32), Concat(ids[i + 1..]));
      r := r + BE(ids[i], 32);
    }
    Associate(fed, BE(|ids|, 4), Concat(ids));
  }
}
