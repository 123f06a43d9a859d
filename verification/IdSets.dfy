/** Identifier sets and maps in their canonical form: the one strictly increasing list of their entries. */
module IdSets {
  import opened Bytes
  import opened Sorting

  function Rank(id: Id): int { id }

  ghost function Least(s: set<Id>): (m: Id)
    requires s != {}
    ensures m in s && forall x | x in s :: m <= x
  {
    var x :| x in s;
    if s == {x} then x
    else
      var rest := Least(s - {x});
      assert s == (s - {x}) + {x};
      if x < rest then x else rest
  }

  /** The elements of `s` in increasing order. */
  ghost function Ascending(s: set<Id>): (r: seq<Id>)
    ensures StrictlySorted(Rank, r) && |r| == |s|
    ensures forall x :: x in r <==> x in s
  {
    if s == {} then []
    else
      var m := Least(s);
      [m] + Ascending(s - {m})
  }

  lemma AscendingUnique(s: set<Id>, r: seq<Id>)
    requires StrictlySorted(Rank, r) && forall x :: x in r <==> x in s
    ensures r == Ascending(s)
  {
    StrictlySortedUnique(Rank, r, Ascending(s));
  }

  /** Collects a set in arbitrary order and sorts it. */
  method SortedElements(s: set<Id>) returns (r: seq<Id>)
    ensures r == Ascending(s)
  {
    var rest := s;
    var collected: seq<Id> := [];
    while rest != {}
      invariant forall x :: x in s <==> x in rest || x in collected
      invariant forall x | x in collected :: x !in rest
      invariant DistinctRanks(Rank, collected)
      decreases |rest|
    {
      var x :| x in rest;
      collected := collected + [x];
      rest := rest - {x};
    }
    r := Sort(Rank, collected);
    SortCanonical(Rank, collected);
    AscendingUnique(s, r);
  }

  // ----- maps keyed by identifiers

  datatype Entry<V> = Entry(id: Id, value: V)

  function EntryRank<V>(e: Entry<V>): int { e.id }

  ghost predicate Holds<V>(m: map<Id, V>, e: Entry<V>) {
    e.id in m && m[e.id] == e.value
  }

  /** The entries of `m` in increasing key order. */
  ghost function Entries<V(!new)>(m: map<Id, V>): (es: seq<Entry<V>>)
    ensures StrictlySorted(EntryRank<V>, es) && |es| == |m.Keys|
    ensures forall e: Entry<V> :: e in es <==> Holds(m, e)
  {
    var es := EntriesAt(m, Ascending(m.Keys));
    EntriesAtHold(m, es);
    es
  }

  ghost function EntriesAt<V>(m: map<Id, V>, keys: seq<Id>): (es: seq<Entry<V>>)
    requires forall i | 0 <= i < |keys| :: keys[i] in m
    ensures |es| == |keys| && forall i | 0 <= i < |es| :: es[i] == Entry(keys[i], m[keys[i]])
  {
    seq(|keys|, i requires 0 <= i < |keys| => Entry(keys[i], m[keys[i]]))
  }

  lemma EntriesAtHold<V(!new)>(m: map<Id, V>, es: seq<Entry<V>>)
    requires es == EntriesAt(m, Ascending(m.Keys))
    ensures forall e: Entry<V> :: e in es <==> Holds(m, e)
  {
    forall e: Entry<V> | Holds(m, e) ensures e in es {
      assert e.id in Ascending(m.Keys);
      var i :| 0 <= i < |es| && Ascending(m.Keys)[i] == e.id;
      assert es[i] == e;
    }
  }

  /** Inserts the entries one after the other. */
  function FromEntries<V>(es: seq<Entry<V>>): map<Id, V> {
    if es == [] then map[] else FromEntries(es[..|es| - 1])[es[|es| - 1].id := es[|es| - 1].value]
  }

  lemma LastIsNew<V(!new)>(es: seq<Entry<V>>)
    requires StrictlySorted(EntryRank<V>, es) && es != []
    ensures StrictlySorted(EntryRank<V>, es[..|es| - 1])
    ensures forall e | e in es[..|es| - 1] :: e.id != es[|es| - 1].id
  {
    forall e | e in es[..|es| - 1] ensures e.id != es[|es| - 1].id {
      var i :| 0 <= i < |es| - 1 && es[i] == e;
      assert EntryRank(es[i]) < EntryRank(es[|es| - 1]);
    }
  }

  lemma {:induction false} FromEntriesHolds<V(!new)>(es: seq<Entry<V>>)
    requires StrictlySorted(EntryRank<V>, es)
    ensures forall e: Entry<V> :: e in es <==> Holds(FromEntries(es), e)
  {
    if es != [] {
      var before, last := es[..|es| - 1], es[|es| - 1];
      FromEntriesHolds(before);
      assert es == before + [last];
      LastIsNew(es);
      assert FromEntries(es) == FromEntries(before)[last.id := last.value];
      hide StrictlySorted, FromEntries;
      forall e: Entry<V> ensures e in es <==> Holds(FromEntries(es), e) {
        assert e in es <==> e in before || e == last;
        assert Holds(FromEntries(es), e) <==> e == last || (e.id != last.id && Holds(FromEntries(before), e));
      }
    }
  }

  /** A map is determined by its entries. */
  lemma EntriesRestore<V(!new)>(m: map<Id, V>)
    ensures FromEntries(Entries(m)) == m
  {
    FromEntriesHolds(Entries(m));
    SameHoldings(m, FromEntries(Entries(m)));
  }

  lemma SameHoldings<V(!new)>(m: map<Id, V>, n: map<Id, V>)
    requires forall e: Entry<V> :: Holds(m, e) <==> Holds(n, e)
    ensures m == n
  {
    forall k ensures k in m <==> k in n {
      assert k in m ==> Holds(m, Entry(k, m[k]));
      assert k in n ==> Holds(n, Entry(k, n[k]));
    }
    forall k | k in m ensures m[k] == n[k] {
      assert Holds(m, Entry(k, m[k]));
    }
  }

  lemma EntriesUnique<V(!new)>(m: map<Id, V>, es: seq<Entry<V>>)
    requires StrictlySorted(EntryRank<V>, es)
    requires forall e: Entry<V> :: e in es <==> Holds(m, e)
    ensures es == Entries(m)
  {
    StrictlySortedUnique(EntryRank<V>, es, Entries(m));
  }

  /** A strictly sorted entry list is the canonical form of the map it builds. */
  lemma EntriesOfRestored<V(!new)>(es: seq<Entry<V>>)
    requires StrictlySorted(EntryRank<V>, es)
    ensures Entries(FromEntries(es)) == es
  {
    FromEntriesHolds(es);
    EntriesUnique(FromEntries(es), es);
  }

  /** Collects a map in arbitrary order and sorts it by key. */
  method SortedEntries<V(!new)>(m: map<Id, V>) returns (es: seq<Entry<V>>)
    ensures es == Entries(m)
  {
    var rest := m.Keys;
    var collected: seq<Entry<V>> := [];
    while rest != {}
      invariant rest <= m.Keys
      invariant forall i | 0 <= i < |collected| ::
          collected[i].id in m && collected[i].id !in rest && collected[i].value == m[collected[i].id]
      invariant forall k | k in m && k !in rest :: Entry(k, m[k]) in collected
      invariant DistinctRanks(EntryRank<V>, collected)
      decreases |rest|
    {
      var k :| k in rest;
      collected := collected + [Entry(k, m[k])];
      rest := rest - {k};
    }
    es := Sort(EntryRank<V>, collected);
    SortCanonical(EntryRank<V>, collected);
    EntriesUnique(m, es);
  }
}
