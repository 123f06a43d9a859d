/** Canonical ledger snapshots: exactly one per ledger state, and every accepted one restores its state. */
module Snapshot {
  import opened Common
  import opened Bytes
  import opened IdSets
  import opened Sorting
  import opened Ledger
  import opened PublicLedger
  import Merkle

  datatype LedgerSnapshot = LedgerSnapshot(
    depth: nat,
    assets: seq<Entry<Asset>>,
    commitments: seq<Id>,
    spent: seq<Id>,
    supply: seq<Entry<nat>>,
    accepted: seq<Id>)

  datatype SnapshotError =
    | AssetsNotStrictlySorted(index: nat) | InvalidAsset(index: nat)
    | InvalidDepth | DuplicateCommitment(commitment: Id) | TreeFull
    | NullifiersNotStrictlySorted | TransactionsNotStrictlySorted
    | SupplyNotStrictlySorted(index: nat) | SupplyForUnknownAsset(asset: Id)

  /** Amounts are positive 128-bit numbers. */
  ghost predicate Amounts(supply: seq<Entry<nat>>) {
    forall i | 0 <= i < |supply| :: 0 < supply[i].value <= U128_MAX
  }

  ghost predicate CanonicalAssets(assets: seq<Entry<Asset>>) {
    StrictlySorted(EntryRank<Asset>, assets) && forall i | 0 <= i < |assets| :: TickerAllowed(assets[i].value.ticker)
  }

  function AssetIds(assets: seq<Entry<Asset>>): set<Id> {
    set e | e in assets :: e.id
  }

  ghost predicate CanonicalSupply(supply: seq<Entry<nat>>, assets: set<Id>) {
    StrictlySorted(EntryRank<nat>, supply) && forall i | 0 <= i < |supply| :: supply[i].id in assets
  }

  ghost predicate CanonicalCommitments(depth: nat, commitments: seq<Id>) {
    Merkle.MIN_DEPTH <= depth <= Merkle.MAX_DEPTH && |commitments| <= Merkle.Capacity(depth) && Fresh(commitments, {})
  }

  /** Maps and sets strictly sorted, commitments distinct and within the tree, supply only of listed assets. */
  ghost predicate Canonical(p: LedgerSnapshot) {
    CanonicalAssets(p.assets) && CanonicalCommitments(p.depth, p.commitments) &&
    StrictlySorted(Rank, p.spent) && StrictlySorted(Rank, p.accepted) &&
    CanonicalSupply(p.supply, AssetIds(p.assets))
  }

  /** Canonical assets are listed by increasing identifier, each with one to sixteen letters from A to Z. */
  lemma CanonicalAssetsMeans(assets: seq<Entry<Asset>>)
    ensures CanonicalAssets(assets) <==>
              (forall i, j | 0 <= i < j < |assets| :: assets[i].id < assets[j].id) &&
              (forall i | 0 <= i < |assets| :: 1 <= |assets[i].value.ticker| <= 16) &&
              (forall i, k | 0 <= i < |assets| && 0 <= k < |assets[i].value.ticker| ::
                 'A' as int <= assets[i].value.ticker[k] <= 'Z' as int)
  {
    if CanonicalAssets(assets) {
      forall i, j | 0 <= i < j < |assets| ensures assets[i].id < assets[j].id {
        assert EntryRank(assets[i]) < EntryRank(assets[j]);
      }
    }
  }

  // ----- the validating constructor

  method CheckAssets(assets: seq<Entry<Asset>>) returns (r: Option<SnapshotError>)
    ensures r.None? <==> CanonicalAssets(assets)
    ensures r.Some? ==> (r.value.AssetsNotStrictlySorted? || r.value.InvalidAsset?) && r.value.index < |assets| &&
                        CanonicalAssets(assets[..r.value.index]) && !CanonicalAssets(assets[..r.value.index + 1])
  {
    for index := 0 to |assets|
      invariant forall i | 0 < i < index :: EntryRank(assets[i - 1]) < EntryRank(assets[i])
      invariant forall i | 0 <= i < index :: TickerAllowed(assets[i].value.ticker)
    {
      StrictFromNeighbours(EntryRank<Asset>, assets[..index]);
      ghost var next := assets[..index + 1];
      if index > 0 && assets[index - 1].id >= assets[index].id {
        assert EntryRank(next[index - 1]) >= EntryRank(next[index]);
        return Some(AssetsNotStrictlySorted(index));
      }
      if !TickerAllowed(assets[index].value.ticker) {
        assert next[index] == assets[index];
        return Some(InvalidAsset(index));
      }
    }
    StrictFromNeighbours(EntryRank<Asset>, assets);
    r := None;
  }

  method CheckCommitments(depth: nat, commitments: seq<Id>) returns (r: Option<SnapshotError>)
    ensures r.None? <==> CanonicalCommitments(depth, commitments)
    ensures r.Some? && r.value.DuplicateCommitment? ==> !Fresh(commitments, {}) && r.value.commitment in commitments
    ensures r.Some? && r.value.TreeFull? ==> |commitments| > Merkle.Capacity(depth)
    ensures r.Some? && r.value.InvalidDepth? <==> !(Merkle.MIN_DEPTH <= depth <= Merkle.MAX_DEPTH)
    ensures r.Some? ==> r.value.DuplicateCommitment? || r.value.TreeFull? || r.value.InvalidDepth?
  {
    if depth < Merkle.MIN_DEPTH || depth > Merkle.MAX_DEPTH {
      return Some(InvalidDepth);
    }
    var seen: set<Id> := {};
    for i := 0 to |commitments|
      invariant forall x :: x in seen <==> x in commitments[..i]
      invariant Fresh(commitments[..i], {}) && i <= Merkle.Capacity(depth)
    {
      if commitments[i] in seen {
        var j :| 0 <= j < i && commitments[j] == commitments[i];
        return Some(DuplicateCommitment(commitments[i]));
      }
      seen := seen + {commitments[i]};
      if i >= Merkle.Capacity(depth) {
        return Some(SnapshotError.TreeFull);
      }
      assert commitments[..i + 1] == commitments[..i] + [commitments[i]];
    }
    assert commitments[..|commitments|] == commitments;
    r := None;
  }

  method IsStrictlySorted(xs: seq<Id>) returns (b: bool)
    ensures b <==> StrictlySorted(Rank, xs)
  {
    for i := 0 to |xs|
      invariant forall k | 0 < k < i :: Rank(xs[k - 1]) < Rank(xs[k])
    {
      if i > 0 && xs[i - 1] >= xs[i] {
        assert Rank(xs[i - 1]) >= Rank(xs[i]);
        return false;
      }
    }
    StrictFromNeighbours(Rank, xs);
    b := true;
  }

  method CheckSupply(supply: seq<Entry<nat>>, assets: set<Id>) returns (r: Option<SnapshotError>)
    ensures r.None? <==> CanonicalSupply(supply, assets)
    ensures r.Some? ==> r.value.SupplyNotStrictlySorted? || r.value.SupplyForUnknownAsset?
  {
    for index := 0 to |supply|
      invariant forall i | 0 < i < index :: EntryRank(supply[i - 1]) < EntryRank(supply[i])
      invariant forall i | 0 <= i < index :: supply[i].id in assets
    {
      if index > 0 && supply[index - 1].id >= supply[index].id {
        assert EntryRank(supply[index - 1]) >= EntryRank(supply[index]);
        return Some(SupplyNotStrictlySorted(index));
      }
      if supply[index].id !in assets {
        return Some(SupplyForUnknownAsset(supply[index].id));
      }
    }
    StrictFromNeighbours(EntryRank<nat>, supply);
    r := None;
  }

  /** Accepts exactly the canonical parts, unchanged. */
  method FromCanonicalParts(parts: LedgerSnapshot) returns (r: Result<LedgerSnapshot, SnapshotError>)
    ensures r.Ok? <==> Canonical(parts)
    ensures r.Ok? ==> r.value == parts
    ensures var listed := CanonicalAssets(parts.assets) && CanonicalCommitments(parts.depth, parts.commitments);
            (r == Err(NullifiersNotStrictlySorted) <==> listed && !StrictlySorted(Rank, parts.spent)) &&
            (r == Err(TransactionsNotStrictlySorted) <==>
               listed && StrictlySorted(Rank, parts.spent) && !StrictlySorted(Rank, parts.accepted))
  {
    var assets := CheckAssets(parts.assets);
    if assets.Some? {
      return Err(assets.value);
    }
    var commitments := CheckCommitments(parts.depth, parts.commitments);
    if commitments.Some? {
      return Err(commitments.value);
    }
    var spent := IsStrictlySorted(parts.spent);
    if !spent {
      return Err(NullifiersNotStrictlySorted);
    }
    var accepted := IsStrictlySorted(parts.accepted);
    if !accepted {
      return Err(TransactionsNotStrictlySorted);
    }
    var supply := CheckSupply(parts.supply, AssetIds(parts.assets));
    if supply.Some? {
      return Err(supply.value);
    }
    r := Ok(parts);
  }

  // ----- states and snapshots correspond one to one

  ghost function SnapshotOf(s: LedgerState): LedgerSnapshot {
    LedgerSnapshot(s.depth, Entries(s.assets), s.tree, Ascending(s.spent), Entries(s.supply), Ascending(s.accepted))
  }

  function Restored(p: LedgerSnapshot): LedgerState {
    LedgerState(p.depth, FromEntries(p.assets), Ids(p.commitments), p.commitments, Ids(p.spent), FromEntries(p.supply),
        Ids(p.accepted))
  }

  lemma AscendingRestores(s: set<Id>)
    ensures Ids(Ascending(s)) == s
  {
    forall x ensures x in Ids(Ascending(s)) <==> x in s {
      assert x in Ascending(s) <==> x in s;
    }
  }

  lemma AscendingOfIds(xs: seq<Id>)
    requires StrictlySorted(Rank, xs)
    ensures Ascending(Ids(xs)) == xs
  {
    AscendingUnique(Ids(xs), xs);
  }

  /** Every live ledger state has a canonical snapshot. */
  lemma SnapshotCanonical(s: LedgerState)
    requires Valid(s)
    ensures Canonical(SnapshotOf(s)) && Amounts(SnapshotOf(s).supply)
  {
    EntriesCanonical(s.assets);
    ListedAssets(s.assets);
    SupplyCanonical(s.supply, s.assets.Keys);
  }

  lemma EntriesCanonical(assets: map<Id, Asset>)
    requires forall a | a in assets :: TickerAllowed(assets[a].ticker)
    ensures CanonicalAssets(Entries(assets))
  {
    var es := Entries(assets);
    forall i | 0 <= i < |es| ensures TickerAllowed(es[i].value.ticker) {
      assert Holds(assets, es[i]);
    }
  }

  lemma SupplyCanonical(supply: map<Id, nat>, assets: set<Id>)
    requires supply.Keys <= assets && forall a | a in supply :: 0 < supply[a] <= U128_MAX
    ensures CanonicalSupply(Entries(supply), assets) && Amounts(Entries(supply))
  {
    var es := Entries(supply);
    forall i | 0 <= i < |es| ensures 0 < es[i].value <= U128_MAX && es[i].id in assets {
      assert es[i] in es && Holds(supply, es[i]);
      assert es[i].id in supply.Keys;
    }
  }

  lemma ListedAssets(assets: map<Id, Asset>)
    ensures AssetIds(Entries(assets)) == assets.Keys
  {
    var es := Entries(assets);
    hide Entries, StrictlySorted;
    forall id ensures id in AssetIds(es) <==> id in assets {
      if id in assets {
        assert Holds(assets, Entry(id, assets[id]));
        assert Entry(id, assets[id]) in es;
      }
      if id in AssetIds(es) {
        var e :| e in es && e.id == id;
        assert Holds(assets, e);
      }
    }
  }

  /** Restoring the snapshot of a state gives back that state: contents, commitment order, everything. */
  lemma RestoreInvertsSnapshot(s: LedgerState)
    requires Valid(s)
    ensures Restored(SnapshotOf(s)) == s
  {
    EntriesRestore(s.assets);
    EntriesRestore(s.supply);
    AscendingRestores(s.spent);
    AscendingRestores(s.accepted);
  }

  /** Every canonical snapshot is the snapshot of the valid state it restores. */
  lemma SnapshotInvertsRestore(p: LedgerSnapshot)
    requires Canonical(p) && Amounts(p.supply)
    ensures Valid(Restored(p)) && SnapshotOf(Restored(p)) == p
  {
    EntriesOfRestored(p.assets);
    EntriesOfRestored(p.supply);
    AscendingOfIds(p.spent);
    AscendingOfIds(p.accepted);
    RestoredAssets(p);
    RestoredSupply(p);
  }

  lemma RestoredAssets(p: LedgerSnapshot)
    requires CanonicalAssets(p.assets)
    ensures forall a | a in FromEntries(p.assets) :: TickerAllowed(FromEntries(p.assets)[a].ticker)
    ensures FromEntries(p.assets).Keys == AssetIds(p.assets)
  {
    var m := FromEntries(p.assets);
    FromEntriesHolds(p.assets);
    forall a | a in m ensures TickerAllowed(m[a].ticker) && a in AssetIds(p.assets) {
      assert Holds(m, Entry(a, m[a]));
      assert Entry(a, m[a]) in p.assets;
    }
    forall e | e in p.assets ensures e.id in m {
      assert Holds(m, e);
    }
  }

  lemma RestoredSupply(p: LedgerSnapshot)
    requires CanonicalSupply(p.supply, AssetIds(p.assets)) && Amounts(p.supply)
    ensures forall a | a in FromEntries(p.supply) :: 0 < FromEntries(p.supply)[a] <= U128_MAX
    ensures FromEntries(p.supply).Keys <= AssetIds(p.assets)
  {
    var m := FromEntries(p.supply);
    FromEntriesHolds(p.supply);
    forall a | a in m ensures 0 < m[a] <= U128_MAX && a in AssetIds(p.assets) {
      assert Holds(m, Entry(a, m[a])) && Entry(a, m[a]) in p.supply;
      var i :| 0 <= i < |p.supply| && p.supply[i] == Entry(a, m[a]);
    }
  }

  // ----- export and import

  /** The components of a ledger, each collected in arbitrary order and sorted. */
  method SortedParts(ledger: LedgerObject) returns (parts: LedgerSnapshot)
    ensures parts == SnapshotOf(ledger.View())
  {
    var assets := SortedEntries(ledger.assets);
    var spent := SortedElements(ledger.spent);
    var supply := SortedEntries(ledger.supply);
    var accepted := SortedElements(ledger.accepted);
    parts := LedgerSnapshot(ledger.depth, assets, ledger.tree, spent, supply, accepted);
  }

  /** The export of a live ledger never fails its own validation. */
  method Export(ledger: LedgerObject) returns (r: Result<LedgerSnapshot, SnapshotError>)
    requires Valid(ledger.View())
    ensures r == Ok(SnapshotOf(ledger.View()))
    ensures r.value.depth == ledger.depth && r.value.commitments == ledger.tree
    ensures r.value.spent == Ascending(ledger.spent) && r.value.accepted == Ascending(ledger.accepted)
    ensures r.value.assets == Entries(ledger.assets) && r.value.supply == Entries(ledger.supply)
  {
    var parts := SortedParts(ledger);
    SnapshotCanonical(ledger.View());
    r := FromCanonicalParts(parts);
  }

  /** Registers and appends the parts one by one into an empty ledger. */
  method Import(rules: Rules, parts: LedgerSnapshot) returns (r: Result<LedgerObject, SnapshotError>)
    requires Amounts(parts.supply)
    ensures r.Ok? <==> Canonical(parts)
    ensures r.Ok? ==>
        fresh(r.value) && r.value.rules == rules && Valid(r.value.View()) && r.value.View() == Restored(parts)
    ensures r.Ok? ==> r.value.depth == parts.depth && r.value.tree == parts.commitments
                      && r.value.commitments == Ids(parts.commitments) && r.value.spent == Ids(parts.spent)
                      && r.value.accepted == Ids(parts.accepted) && r.value.assets == FromEntries(parts.assets)
                      && r.value.supply == FromEntries(parts.supply)
  {
    var checked := FromCanonicalParts(parts);
    if checked.Err? {
      return Err(checked.error);
    }
    var ledger := new LedgerObject(rules, parts.depth);
    Fill(ledger, parts);
    r := Ok(ledger);
  }

  method Fill(ledger: LedgerObject, parts: LedgerSnapshot)
    requires ledger.View() == LedgerState(parts.depth, map[], {}, [], {}, map[], {}) && Canonical(parts) &&
        Amounts(parts.supply)
    modifies ledger
    ensures Valid(ledger.View()) && ledger.View() == Restored(parts)
  {
    RegisterAll(ledger, parts.assets);
    AppendAll(ledger, parts.commitments);
    ledger.spent := Ids(parts.spent);
    ledger.supply := FromEntries(parts.supply);
    ledger.accepted := Ids(parts.accepted);
    assert Valid(Restored(parts)) by {
      SnapshotInvertsRestore(parts);
    }
  }

  method RegisterAll(ledger: LedgerObject, assets: seq<Entry<Asset>>)
    requires Valid(ledger.View()) && ledger.assets == map[] && CanonicalAssets(assets)
    modifies ledger
    ensures Valid(ledger.View()) && ledger.View() == old(ledger.View()).(assets := FromEntries(assets))
  {
    for i := 0 to |assets|
      invariant Valid(ledger.View()) && ledger.View() == old(ledger.View()).(assets := FromEntries(assets[..i]))
    {
      NewKey(assets, i);
      assert assets[..i + 1][..i] == assets[..i];
      var registered := ledger.RegisterAsset(assets[i].id, assets[i].value);
    }
    assert assets[..|assets|] == assets;
  }

  lemma NewKey(assets: seq<Entry<Asset>>, i: nat)
    requires i < |assets| && CanonicalAssets(assets)
    ensures assets[i].id !in FromEntries(assets[..i])
  {
    var before := assets[..i];
    FromEntriesHolds(before);
    if assets[i].id in FromEntries(before) {
      assert Holds(FromEntries(before), Entry(assets[i].id, FromEntries(before)[assets[i].id]));
    }
  }

  method AppendAll(ledger: LedgerObject, commitments: seq<Id>)
    requires ledger.tree == [] && ledger.commitments == {} && |commitments| <= Merkle.Capacity(ledger.depth)
    modifies ledger
    ensures ledger.View() == old(ledger.View()).(tree := commitments, commitments := Ids(commitments))
  {
    for i := 0 to |commitments|
      invariant ledger.View() == old(ledger.View()).(tree := commitments[..i], commitments := Ids(commitments[..i]))
    {
      var appended := ledger.AppendCommitments([commitments[i]]);
      assert commitments[..i + 1] == commitments[..i] + [commitments[i]];
    }
    assert commitments[..|commitments|] == commitments;
  }
}
