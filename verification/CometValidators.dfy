/** The CometBFT view of the validator set: its canonical order and hash, and the bootstrap comparison of
    the announced validators with the genesis set. */
module CometValidators {
  import opened Common
  import opened Hashing
  import opened Sorting
  import Bytes
  import Finality
  import Varint
  import CometMerkle

  const ED25519_SCHEME := 1
  const PUBLIC_KEY_LENGTH := 32
  const MAX_TOTAL_VOTING_POWER: nat := 0x7FFF_FFFF_FFFF_FFFF / 8
  /** One more than the largest 20-byte address. */
  const ADDRESS_BOUND: nat := 0x1_0000_0000_0000_0000_0000_0000_0000_0000_0000_0000

  type PublicKey = k: seq<u8> | |k| == PUBLIC_KEY_LENGTH witness seq(PUBLIC_KEY_LENGTH, _ => 0)

  type Address = a: nat | a < ADDRESS_BOUND

  /** The address of a raw public key. */
  type Addressing = PublicKey -> Address

  datatype CometValidator = CometValidator(noxisId: Bytes.Id, address: Address, publicKey: PublicKey, power: nat)

  datatype Update = Update(publicKey: PublicKey, power: nat)

  datatype EngineError =
    | UnsupportedSignatureScheme | InvalidPublicKeyLength | InvalidVotingPower | TotalVotingPowerTooLarge
    | DuplicateAddress | UnknownInitValidator | InitValidatorPowerMismatch | InitChainMismatch

  // ----- the canonical order

  /** Ranks by voting power descending, then by address ascending. */
  function Rank(v: CometValidator): int {
    v.address - v.power * ADDRESS_BOUND
  }

  lemma RankIsPowerThenAddress(a: CometValidator, b: CometValidator)
    ensures Rank(a) < Rank(b) <==> a.power > b.power || (a.power == b.power && a.address < b.address)
    ensures Rank(a) == Rank(b) <==> a.power == b.power && a.address == b.address
  {
  }

  function FromKey(addressing: Addressing, id: Bytes.Id, key: PublicKey, power: nat)
    : Result<CometValidator, EngineError>
  {
    if power == 0 || power > MAX_TOTAL_VOTING_POWER then Err(InvalidVotingPower)
    else Ok(CometValidator(id, addressing(key), key, power))
  }

  function FromNoxis(addressing: Addressing, v: Finality.Validator): Result<CometValidator, EngineError> {
    if v.key.scheme != ED25519_SCHEME then Err(UnsupportedSignatureScheme)
    else if |v.key.bytes| != PUBLIC_KEY_LENGTH || exists i | 0 <= i < PUBLIC_KEY_LENGTH :: v.key.bytes[i] >= 256 then
      Err(InvalidPublicKeyLength)
    else FromKey(addressing, v.id, KeyOf(v.key.bytes), v.power)
  }

  function KeyOf(bytes: seq<nat>): PublicKey
    requires |bytes| == PUBLIC_KEY_LENGTH && forall i | 0 <= i < PUBLIC_KEY_LENGTH :: bytes[i] < 256
  {
    seq(PUBLIC_KEY_LENGTH, i requires 0 <= i < PUBLIC_KEY_LENGTH => bytes[i] as u8)
  }

  /** Entries built by the mapping: the address is the key's and the power is in range. */
  ghost predicate Derived(addressing: Addressing, vs: seq<CometValidator>) {
    forall v | v in vs :: v.address == addressing(v.publicKey) && 0 < v.power <= MAX_TOTAL_VOTING_POWER
  }

  ghost predicate NoEqualNeighbours(vs: seq<CometValidator>) {
    forall i | 0 < i < |vs| :: vs[i - 1].address != vs[i].address
  }

  ghost predicate Convertible(addressing: Addressing, validators: seq<Finality.Validator>) {
    forall i | 0 <= i < |validators| :: FromNoxis(addressing, validators[i]).Ok?
  }

  ghost function Converted(addressing: Addressing, validators: seq<Finality.Validator>): seq<CometValidator>
    requires Convertible(addressing, validators)
  {
    seq(|validators|, i requires 0 <= i < |validators| => FromNoxis(addressing, validators[i]).value)
  }

  /** An Ed25519 key of 32 bytes and a power the engine can hold. */
  ghost predicate EngineKey(v: Finality.Validator) {
    v.key.scheme == 1 && |v.key.bytes| == 32 && (forall i | 0 <= i < 32 :: v.key.bytes[i] < 256) &&
    0 < v.power <= 0x0FFF_FFFF_FFFF_FFFF
  }

  /** Which validators convert, and to what: the identifier and the power are kept and the address is the key's. */
  lemma ConversionDecides(addressing: Addressing, v: Finality.Validator)
    ensures FromNoxis(addressing, v).Ok? <==> EngineKey(v)
    ensures FromNoxis(addressing, v).Ok? ==>
              var c := FromNoxis(addressing, v).value;
              c.noxisId == v.id && c.publicKey == v.key.bytes && c.address == addressing(c.publicKey) &&
              c.power == v.power
    ensures FromNoxis(addressing, v) == Err(UnsupportedSignatureScheme) <==> v.key.scheme != 1
  {
  }

  method ConvertAll(addressing: Addressing, validators: seq<Finality.Validator>)
    returns (r: Result<seq<CometValidator>, EngineError>)
    ensures r.Ok? <==> Convertible(addressing, validators)
    ensures r.Ok? ==> r.value == Converted(addressing, validators) && Derived(addressing, r.value)
  {
    var mapped := [];
    for i := 0 to |validators|
      invariant |mapped| == i && Derived(addressing, mapped)
      invariant forall j | 0 <= j < i :: FromNoxis(addressing, validators[j]) == Ok(mapped[j])
    {
      var one := FromNoxis(addressing, validators[i]);
      if one.Err? {
        return Err(one.error);
      }
      mapped := mapped + [one.value];
    }
    r := Ok(mapped);
  }

  method EqualNeighbours(vs: seq<CometValidator>) returns (found: bool)
    ensures found <==> !NoEqualNeighbours(vs)
  {
    var i := 1;
    while i < |vs|
      invariant 1 <= i
      invariant forall j | 0 < j < i && j < |vs| :: vs[j - 1].address != vs[j].address
    {
      if vs[i - 1].address == vs[i].address {
        return true;
      }
      i := i + 1;
    }
    found := false;
  }

  /** Maps every validator, bounds the total, sorts, and refuses equal neighbouring addresses. */
  method GenesisValidators(addressing: Addressing, validators: seq<Finality.Validator>)
    returns (r: Result<seq<CometValidator>, EngineError>)
    ensures r.Ok? <==> Convertible(addressing, validators) && Finality.TotalPower(validators) <= MAX_TOTAL_VOTING_POWER
                       && NoEqualNeighbours(Sort(Rank, Converted(addressing, validators)))
    ensures r.Ok? ==> r.value == Sort(Rank, Converted(addressing, validators))
                      && Derived(addressing, r.value) && StrictlySorted(Rank, r.value)
  {
    var mapped := ConvertAll(addressing, validators);
    if mapped.Err? {
      return Err(mapped.error);
    }
    var total := 0;
    for i := 0 to |validators|
      invariant total + Finality.TotalPower(validators[i..]) == Finality.TotalPower(validators)
    {
      total := total + mapped.value[i].power;
    }
    if total > MAX_TOTAL_VOTING_POWER {
      return Err(TotalVotingPowerTooLarge);
    }
    var sorted := Sort(Rank, mapped.value);
    SortSorts(Rank, mapped.value);
    SortCanonical(Rank, mapped.value);
    var duplicate := EqualNeighbours(sorted);
    if duplicate {
      return Err(DuplicateAddress);
    }
    GenesisStrict(sorted);
    r := Ok(sorted);
  }

  /** The neighbour check makes the order strict: addresses are distinct within one power. */
  lemma GenesisStrict(vs: seq<CometValidator>)
    requires Sorted(Rank, vs) && NoEqualNeighbours(vs)
    ensures StrictlySorted(Rank, vs)
  {
    forall i | 0 < i < |vs| ensures Rank(vs[i - 1]) < Rank(vs[i]) {
      assert Rank(vs[i - 1]) <= Rank(vs[i]);
      RankIsPowerThenAddress(vs[i - 1], vs[i]);
    }
    StrictFromNeighbours(Rank, vs);
  }

  // ----- bootstrap

  ghost predicate DistinctKeys(vs: seq<CometValidator>) {
    forall i, j | 0 <= i < j < |vs| :: vs[i].publicKey != vs[j].publicKey
  }

  function FirstWithKey(vs: seq<CometValidator>, key: PublicKey): Option<CometValidator> {
    if vs == [] then None else if vs[0].publicKey == key then Some(vs[0]) else FirstWithKey(vs[1..], key)
  }

  lemma {:induction false} FirstWithKeyFinds(vs: seq<CometValidator>, key: PublicKey, i: nat)
    requires i < |vs| && vs[i].publicKey == key && forall j | 0 <= j < i :: vs[j].publicKey != key
    ensures FirstWithKey(vs, key) == Some(vs[i])
  {
    if i > 0 {
      FirstWithKeyFinds(vs[1..], key, i - 1);
    }
  }

  lemma {:induction false} FirstWithKeyIsMember(vs: seq<CometValidator>, key: PublicKey)
    ensures FirstWithKey(vs, key).Some? ==>
        FirstWithKey(vs, key).value in vs && FirstWithKey(vs, key).value.publicKey == key
  {
    if vs != [] {
      FirstWithKeyIsMember(vs[1..], key);
    }
  }

  function Announced(v: CometValidator): Update {
    Update(v.publicKey, v.power)
  }

  function MatchOne(expected: seq<CometValidator>, u: Update): Result<CometValidator, EngineError> {
    match FirstWithKey(expected, u.publicKey)
    case None => Err(UnknownInitValidator)
    case Some(v) => if v.power == u.power then Ok(v) else Err(InitValidatorPowerMismatch)
  }

  function Prepend(front: seq<CometValidator>, r: Result<seq<CometValidator>,
      EngineError>): Result<seq<CometValidator>, EngineError> {
    if r.Err? then r else Ok(front + r.value)
  }

  /** The genesis entries the updates name, in the updates' order, or the first mismatch. */
  function MatchAll(expected: seq<CometValidator>, updates: seq<Update>): Result<seq<CometValidator>, EngineError> {
    if updates == [] then Ok([])
    else match MatchOne(expected, updates[0])
      case Err(e) => Err(e)
      case Ok(v) => Prepend([v], MatchAll(expected, updates[1..]))
  }

  /** Associates every announced validator with its genesis entry and sorts canonically. */
  method MapInitValidators(addressing: Addressing, expected: seq<CometValidator>, updates: seq<Update>)
    returns (r: Result<seq<CometValidator>, EngineError>)
    requires Derived(addressing, expected)
    ensures r == MappedInit(expected, updates)
  {
    var mapped := [];
    assert updates[0..] == updates;
    PrependNothing(MatchAll(expected, updates));
    for i := 0 to |updates|
      invariant MatchAll(expected, updates) == Prepend(mapped, MatchAll(expected, updates[i..]))
    {
      assert updates[i..][0] == updates[i] && updates[i..][1..] == updates[i + 1..];
      var found := FirstWithKey(expected, updates[i].publicKey);
      FirstWithKeyIsMember(expected, updates[i].publicKey);
      if found.None? {
        return Err(UnknownInitValidator);
      }
      if found.value.power != updates[i].power {
        return Err(InitValidatorPowerMismatch);
      }
      var one := FromKey(addressing, found.value.noxisId, updates[i].publicKey, updates[i].power);
      assert one == Ok(found.value);
      PrependTwice(mapped, one.value, MatchAll(expected, updates[i + 1..]));
      mapped := mapped + [one.value];
    }
    assert mapped + [] == mapped;
    r := Ok(Sort(Rank, mapped));
  }

  lemma PrependNothing(r: Result<seq<CometValidator>, EngineError>)
    ensures Prepend([], r) == r
  {
    if r.Ok? {
      assert [] + r.value == r.value;
    }
  }

  lemma PrependTwice(front: seq<CometValidator>, v: CometValidator, r: Result<seq<CometValidator>, EngineError>)
    ensures Prepend(front, Prepend([v], r)) == Prepend(front + [v], r)
  {
    if r.Ok? {
      assert front + ([v] + r.value) == (front + [v]) + r.value;
    }
  }

  function MappedInit(expected: seq<CometValidator>, updates: seq<Update>): Result<seq<CometValidator>, EngineError> {
    match MatchAll(expected, updates)
    case Err(e) => Err(e)
    case Ok(matched) => Ok(Sort(Rank, matched))
  }

  /** Bootstrap compares the mapped list with the genesis list. */
  predicate InitAccepted(expected: seq<CometValidator>, updates: seq<Update>) {
    MappedInit(expected, updates) == Ok(expected)
  }

  lemma {:induction false} MatchAllPointwise(expected: seq<CometValidator>, updates: seq<Update>)
    ensures MatchAll(expected, updates).Ok? <==> forall i | 0 <= i < |updates| :: MatchOne(expected, updates[i]).Ok?
    ensures MatchAll(expected, updates).Ok? ==>
              |MatchAll(expected, updates).value| == |updates| &&
              forall i | 0 <= i < |updates| ::
                MatchOne(expected, updates[i]) == Ok(MatchAll(expected, updates).value[i])
  {
    if updates != [] {
      MatchAllPointwise(expected, updates[1..]);
      assert forall i | 1 <= i < |updates| :: updates[i] == updates[1..][i - 1];
    }
  }

  lemma MatchOneNames(expected: seq<CometValidator>, u: Update)
    requires MatchOne(expected, u).Ok?
    ensures MatchOne(expected, u).value in expected && Announced(MatchOne(expected, u).value) == u
  {
    FirstWithKeyIsMember(expected, u.publicKey);
  }

  lemma MatchOneFinds(expected: seq<CometValidator>, k: nat)
    requires DistinctKeys(expected) && k < |expected|
    ensures MatchOne(expected, Announced(expected[k])) == Ok(expected[k])
  {
    FirstWithKeyFinds(expected, expected[k].publicKey, k);
  }

  /** The announced list of `vs`. */
  function AnnouncedAll(vs: seq<CometValidator>): seq<Update> {
    seq(|vs|, i requires 0 <= i < |vs| => Announced(vs[i]))
  }

  lemma {:induction false} SortAnnounces(vs: seq<CometValidator>)
    ensures multiset(AnnouncedAll(Sort(Rank, vs))) == multiset(AnnouncedAll(vs))
  {
    if vs != [] {
      SortAnnounces(vs[1..]);
      InsertAnnounces(vs[0], Sort(Rank, vs[1..]));
      assert AnnouncedAll(vs) == [Announced(vs[0])] + AnnouncedAll(vs[1..]);
    }
  }

  lemma {:induction false} InsertAnnounces(v: CometValidator, vs: seq<CometValidator>)
    ensures multiset(AnnouncedAll(Insert(Rank, v, vs))) == multiset(AnnouncedAll(vs)) + multiset{Announced(v)}
  {
    hide AnnouncedAll, Announced;
    if vs == [] {
      AnnouncedCons(v, []);
      assert [v] + [] == [v];
    } else if Rank(v) <= Rank(vs[0]) {
      AnnouncedCons(v, vs);
    } else {
      InsertAnnounces(v, vs[1..]);
      AnnouncedCons(vs[0], Insert(Rank, v, vs[1..]));
      AnnouncedCons(vs[0], vs[1..]);
      assert vs == [vs[0]] + vs[1..];
    }
  }

  lemma AnnouncedCons(v: CometValidator, vs: seq<CometValidator>)
    ensures AnnouncedAll([v] + vs) == [Announced(v)] + AnnouncedAll(vs) && AnnouncedAll([]) == []
  {
  }

  /** Whatever is accepted announces the genesis set, reordered. */
  lemma AcceptedIsReordering(expected: seq<CometValidator>, updates: seq<Update>)
    requires InitAccepted(expected, updates)
    ensures multiset(updates) == multiset(AnnouncedAll(expected))
  {
    var matched := MatchAll(expected, updates).value;
    MatchAllPointwise(expected, updates);
    forall i | 0 <= i < |updates| ensures AnnouncedAll(matched)[i] == updates[i] {
      MatchOneNames(expected, updates[i]);
    }
    assert AnnouncedAll(matched) == updates;
    SortAnnounces(matched);
  }

  /** With distinct keys, the announcements of the genesis set are distinct. */
  lemma AnnouncementsDistinct(expected: seq<CometValidator>, updates: seq<Update>, i: nat, j: nat)
    requires DistinctKeys(expected) && multiset(updates) == multiset(AnnouncedAll(expected)) && i < j < |updates|
    ensures updates[i] != updates[j]
  {
    if updates[i] == updates[j] {
      TwoPlaces(updates, i, j);
      TwoOccurrences(AnnouncedAll(expected), updates[i]);
    }
  }

  /** With distinct keys, every reordering of the genesis set is accepted. */
  lemma ReorderingIsAccepted(expected: seq<CometValidator>, updates: seq<Update>)
    requires StrictlySorted(Rank, expected) && DistinctKeys(expected)
    requires multiset(updates) == multiset(AnnouncedAll(expected))
    ensures InitAccepted(expected, updates)
  {
    MatchAllPointwise(expected, updates);
    forall i | 0 <= i < |updates| ensures MatchOne(expected, updates[i]).Ok? {
      assert updates[i] in multiset(AnnouncedAll(expected));
      var k :| 0 <= k < |expected| && AnnouncedAll(expected)[k] == updates[i];
      MatchOneFinds(expected, k);
    }
    MatchedIsGenesis(expected, updates, MatchAll(expected, updates).value);
  }

  /** A list that names a reordered genesis set, entry by entry, sorts to the genesis set. */
  lemma MatchedIsGenesis(expected: seq<CometValidator>, updates: seq<Update>, matched: seq<CometValidator>)
    requires StrictlySorted(Rank, expected) && DistinctKeys(expected)
    requires multiset(updates) == multiset(AnnouncedAll(expected)) && |matched| == |updates|
    requires forall i | 0 <= i < |updates| :: MatchOne(expected, updates[i]) == Ok(matched[i])
    ensures Sort(Rank, matched) == expected
  {
    forall i, j | 0 <= i < j < |matched| ensures Rank(matched[i]) != Rank(matched[j]) {
      MatchOneNames(expected, updates[i]);
      MatchOneNames(expected, updates[j]);
      AnnouncementsDistinct(expected, updates, i, j);
      SameRankSameEntry(expected, matched[i], matched[j]);
    }
    forall v ensures v in matched <==> v in expected {
      if v in matched {
        var i :| 0 <= i < |matched| && matched[i] == v;
        MatchOneNames(expected, updates[i]);
      }
      if v in expected {
        EntryIsMatched(expected, updates, matched, v);
      }
    }
    SortCanonical(Rank, matched);
    StrictlySortedUnique(Rank, Sort(Rank, matched), expected);
  }

  lemma EntryIsMatched(expected: seq<CometValidator>, updates: seq<Update>, matched: seq<CometValidator>,
      v: CometValidator)
    requires DistinctKeys(expected) && v in expected
    requires multiset(updates) == multiset(AnnouncedAll(expected)) && |matched| == |updates|
    requires forall i | 0 <= i < |updates| :: MatchOne(expected, updates[i]) == Ok(matched[i])
    ensures v in matched
  {
    var k :| 0 <= k < |expected| && expected[k] == v;
    assert AnnouncedAll(expected)[k] in multiset(updates);
    var i :| 0 <= i < |updates| && updates[i] == Announced(v);
    MatchOneFinds(expected, k);
  }

  lemma SameRankSameEntry(expected: seq<CometValidator>, a: CometValidator, b: CometValidator)
    requires StrictlySorted(Rank, expected) && a in expected && b in expected
    ensures Rank(a) == Rank(b) ==> a == b
  {
  }

  /** Bootstrap accepts an announcement if and only if the genesis keys are pairwise different and the announcement
      reorders the genesis set: a shared key makes bootstrap impossible under every announcement. */
  lemma InitAcceptsReorderings(addressing: Addressing, expected: seq<CometValidator>, updates: seq<Update>)
    requires StrictlySorted(Rank, expected) && Derived(addressing, expected)
    ensures InitAccepted(expected, updates) <==>
              DistinctKeys(expected) && multiset(updates) == multiset(AnnouncedAll(expected))
  {
    if InitAccepted(expected, updates) {
      AcceptedIsReordering(expected, updates);
      AcceptedNeedsDistinctKeys(addressing, expected, updates);
    }
    if DistinctKeys(expected) && multiset(updates) == multiset(AnnouncedAll(expected)) {
      ReorderingIsAccepted(expected, updates);
    }
  }

  /** The second holder of a shared key is announced with a power the first holder does not have. */
  lemma AcceptedNeedsDistinctKeys(addressing: Addressing, expected: seq<CometValidator>, updates: seq<Update>)
    requires StrictlySorted(Rank, expected) && Derived(addressing, expected) && InitAccepted(expected, updates)
    ensures DistinctKeys(expected)
  {
    AcceptedIsReordering(expected, updates);
    MatchAllPointwise(expected, updates);
    forall i, j | 0 <= i < j < |expected| ensures expected[i].publicKey != expected[j].publicKey {
      assert AnnouncedAll(expected)[j] in multiset(updates);
      var u :| 0 <= u < |updates| && updates[u] == AnnouncedAll(expected)[j];
      assert MatchOne(expected, updates[u]).Ok?;
      if expected[i].publicKey == expected[j].publicKey {
        SharedKeyMismatches(addressing, expected, i, j);
      }
    }
  }

  lemma SharedKeyMismatches(addressing: Addressing, expected: seq<CometValidator>, i: nat, j: nat)
    requires StrictlySorted(Rank, expected) && Derived(addressing, expected)
    requires i < j < |expected| && expected[i].publicKey == expected[j].publicKey
    ensures MatchOne(expected, AnnouncedAll(expected)[j]) == Err(InitValidatorPowerMismatch)
  {
    var first := FirstIndexWithKey(expected, expected[j].publicKey, i);
    FirstWithKeyFinds(expected, expected[j].publicKey, first);
    assert expected[first] in expected && expected[j] in expected;
    RankIsPowerThenAddress(expected[first], expected[j]);
  }

  lemma FirstIndexWithKey(expected: seq<CometValidator>, key: PublicKey, i: nat) returns (first: nat)
    requires i < |expected| && expected[i].publicKey == key
    ensures first <= i && expected[first].publicKey == key && forall j | 0 <= j < first :: expected[j].publicKey != key
  {
    first := 0;
    while expected[first].publicKey != key
      invariant first <= i && forall j | 0 <= j < first :: expected[j].publicKey != key
      decreases i - first
    {
      first := first + 1;
    }
  }

  /** A configured set in which two validators share a key and a third one's power lies between theirs. */
  function SharedKeySet(shared: PublicKey, other: PublicKey): seq<Finality.Validator> {
    [Finality.Validator(1, 3, Finality.VerificationKey(ED25519_SCHEME, shared)),
     Finality.Validator(2, 2, Finality.VerificationKey(ED25519_SCHEME, other)),
     Finality.Validator(3, 1, Finality.VerificationKey(ED25519_SCHEME, shared))]
  }

  lemma SharedKeySetConverts(addressing: Addressing, shared: PublicKey, other: PublicKey)
    ensures Convertible(addressing, SharedKeySet(shared, other))
    ensures Converted(addressing, SharedKeySet(shared, other)) ==
              [CometValidator(1, addressing(shared), shared, 3), CometValidator(2, addressing(other), other, 2),
               CometValidator(3, addressing(shared), shared, 1)]
  {
    assert KeyOf(shared) == shared && KeyOf(other) == other;
  }

  /** Such a configured set passes every genesis check and is then refused at bootstrap whatever the engine
      announces. */
  lemma DuplicateKeyPassesGenesis(addressing: Addressing, shared: PublicKey, other: PublicKey)
    requires addressing(shared) != addressing(other)
    ensures var configured := SharedKeySet(shared, other);
            Finality.CanonicalValidators(configured) && Convertible(addressing, configured) &&
            Finality.TotalPower(configured) <= MAX_TOTAL_VOTING_POWER &&
            NoEqualNeighbours(Sort(Rank, Converted(addressing, configured))) &&
            forall updates :: !InitAccepted(Sort(Rank, Converted(addressing, configured)), updates)
  {
    var configured := SharedKeySet(shared, other);
    SharedKeySetConverts(addressing, shared, other);
    var expected := Converted(addressing, configured);
    assert Finality.TotalPower(configured[1..][1..]) == 1;
    SharedKeySorted(addressing, shared, other);
    hide Sort, Converted, InitAccepted, Rank;
    assert expected[0].publicKey == expected[2].publicKey;
    forall updates ensures !InitAccepted(expected, updates) {
      InitAcceptsReorderings(addressing, expected, updates);
    }
  }

  lemma SharedKeySorted(addressing: Addressing, shared: PublicKey, other: PublicKey)
    requires addressing(shared) != addressing(other)
    ensures var expected := [CometValidator(1, addressing(shared), shared, 3),
                             CometValidator(2, addressing(other), other, 2),
                             CometValidator(3, addressing(shared), shared, 1)];
            StrictlySorted(Rank, expected) && NoEqualNeighbours(expected) && Sort(Rank, expected) == expected
  {
    var expected := [CometValidator(1, addressing(shared), shared, 3), CometValidator(2, addressing(other), other, 2),
                     CometValidator(3, addressing(shared), shared, 1)];
    assert Sorted(Rank, expected) && NoEqualNeighbours(expected);
    hide Sort;
    AlreadySorted(expected);
    GenesisStrict(expected);
  }

  lemma {:induction false} AlreadySorted(vs: seq<CometValidator>)
    requires Sorted(Rank, vs)
    ensures Sort(Rank, vs) == vs
  {
    if vs != [] {
      AlreadySorted(vs[1..]);
    }
  }

  // ----- the validator-set hash

  /** The protobuf bytes of one `SimpleValidator`: the wrapped key, then the power. */
  function HashBytes(v: CometValidator): seq<u8> {
    [0x0a, 34, 0x0a, 32] + v.publicKey + [0x10] + Varint.Uvarint(v.power)
  }

  function HashLeaves(vs: seq<CometValidator>): seq<seq<u8>> {
    seq(|vs|, i requires 0 <= i < |vs| => HashBytes(vs[i]))
  }

  /** The protobuf layout: field 1 holds the key message of 34 bytes, whose own field 1 holds the 32 key bytes, and
      field 2 holds the power as a varint. A tag is the field number times eight plus the wire type. */
  lemma HashBytesLayout(v: CometValidator)
    ensures var bytes := HashBytes(v);
            bytes[0] == 8 * 1 + 2 && bytes[1] == 34 && bytes[2] == 8 * 1 + 2 && bytes[3] == 32 &&
            bytes[4..36] == v.publicKey && bytes[36] == 8 * 2 + 0 && bytes[37..] == Varint.Uvarint(v.power)
  {
  }

  lemma HashBytesInjective(a: CometValidator, b: CometValidator)
    requires HashBytes(a) == HashBytes(b)
    ensures Announced(a) == Announced(b)
  {
    assert HashBytes(a)[4..36] == a.publicKey && HashBytes(b)[4..36] == b.publicKey;
    assert HashBytes(a)[37..] == Varint.Uvarint(a.power) && HashBytes(b)[37..] == Varint.Uvarint(b.power);
    Varint.UvarintCanonical(a.power);
    Varint.UvarintCanonical(b.power);
  }

  /** Without collisions, one validator-set hash fixes the ordered keys and powers. */
  lemma HashBindsValidators(h: CometMerkle.Query<seq<u8>> -> nat, a: seq<CometValidator>, b: seq<CometValidator>)
    requires |a| > 0 && |b| > 0
    requires CometMerkle.MerkleRoot(h, HashLeaves(a)) == CometMerkle.MerkleRoot(h, HashLeaves(b))
    requires NoCollision(h, CometMerkle.Queries(h, HashLeaves(a)) + CometMerkle.Queries(h, HashLeaves(b)))
    ensures AnnouncedAll(a) == AnnouncedAll(b)
  {
    CometMerkle.RootBindsLeaves(h, HashLeaves(a), HashLeaves(b),
                                CometMerkle.Queries(h, HashLeaves(a)) + CometMerkle.Queries(h, HashLeaves(b)));
    assert |HashLeaves(a)| == |a| && |HashLeaves(b)| == |b|;
    forall i | 0 <= i < |a| ensures Announced(a[i]) == Announced(b[i]) {
      assert HashLeaves(a)[i] == HashLeaves(b)[i];
      HashBytesInjective(a[i], b[i]);
    }
  }
}
