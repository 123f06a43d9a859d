/** Weighted BFT finality: canonical validator sets, the quorum and fault-budget arithmetic, certificate
    validation, and the quorum intersection that makes two certificates for one height agree. */
module Finality {
  import opened Bytes
  import opened Common
  import opened Sorting

  const MAX_VALIDATORS := 10_000
  const MAX_SIGNATURE_BYTES := 16 * 1024
  const MAX_BLOCK_RECORDS := 1_000_000
  const MAX_BLOCK_TRANSACTION_BYTES := 64 * 1024 * 1024

  /** Public verification material: a scheme code and raw key bytes. */
  datatype VerificationKey = VerificationKey(scheme: nat, bytes: seq<nat>)

  datatype Validator = Validator(id: Id, power: nat, key: VerificationKey)

  datatype ValidatorSet = ValidatorSet(validators: seq<Validator>, total: nat, id: Id) {
    /** What construction guarantees. */
    ghost predicate Valid() {
      CanonicalValidators(validators) && total == TotalPower(validators) && total <= U64_MAX
    }

    /** The strictly-more-than-two-thirds threshold, computed without doubling the total. */
    function Quorum(): nat {
      total / 3 * 2 + total % 3 * 2 / 3 + 1
    }
  }

  datatype ConsensusConfig = ConsensusConfig(
    protocolVersion: nat, maximumRecords: nat, maximumBytes: nat, maximumByzantine: nat,
    validatorSet: ValidatorSet, id: Id)
  {
    ghost predicate Valid() {
      validatorSet.Valid() && 0 < protocolVersion && 0 < maximumRecords <= MAX_BLOCK_RECORDS &&
      0 < maximumBytes <= MAX_BLOCK_TRANSACTION_BYTES &&
      maximumByzantine <= (validatorSet.total - 1) / 3
    }
  }

  datatype Header = Header(
    protocolVersion: nat, genesisId: Id, contextId: Id, configId: Id, validatorSetId: Id,
    height: nat, epoch: nat, round: nat, parent: Option<Id>, previousStateId: Id, resultingStateId: Id,
    firstRecordSequence: nat, recordCount: nat, recordsCommitment: Id, id: Id)

  datatype Anchor = Anchor(genesisId: Id, contextId: Id, configId: Id, genesisStateId: Id)

  /** The exact block and consensus domain a precommit signature covers. */
  datatype Target = Target(
    genesisId: Id, contextId: Id, configId: Id, validatorSetId: Id, height: nat, epoch: nat, round: nat, blockId: Id)

  datatype Vote = Vote(validatorId: Id, signature: seq<nat>)

  datatype Certificate = Certificate(target: Target, votes: seq<Vote>) {
    /** What construction guarantees. */
    ghost predicate Valid() {
      CanonicalVotes(votes)
    }
    ghost function Voters(): set<Id> { set i | 0 <= i < |votes| :: votes[i].validatorId }
  }

  datatype VerifiedFinality = VerifiedFinality(blockId: Id, height: nat)

  datatype ConsensusError =
    | EmptyValidatorSet | TooManyValidators | ZeroVotingPower | DuplicateValidator
    | NonCanonicalValidatorOrder | VotingPowerOverflow
    | InvalidProtocolVersion | InvalidMaximumBlockRecords | InvalidMaximumBlockTransactionBytes
    | ByzantineFaultPowerExceedsSafetyLimit(declared: nat, maximum: nat)
    | EmptyCertificate | TooManyVotes | SignatureTooLarge | EmptySignature | DuplicateVote | NonCanonicalVoteOrder
    | HeaderMismatch | CertificateTargetMismatch | ValidatorSetMismatch | UnknownValidator
    | InsufficientVotingPower(signed: nat, required: nat)
    | InvalidSignature(validator: Id)

  function IdOf(v: Validator): int { v.id }
  function VoterOf(v: Vote): int { v.validatorId }

  // ----- voting power

  function TotalPower(vs: seq<Validator>): nat {
    if vs == [] then 0 else vs[0].power + TotalPower(vs[1..])
  }

  /** The power of the validators whose ID is in `ids`. */
  ghost function PowerOf(vs: seq<Validator>, ids: set<Id>): nat {
    if vs == [] then 0 else (if vs[0].id in ids then vs[0].power else 0) + PowerOf(vs[1..], ids)
  }

  lemma {:induction false} PowerBounds(vs: seq<Validator>, ids: set<Id>, more: set<Id>)
    requires ids <= more
    ensures PowerOf(vs, ids) <= PowerOf(vs, more) <= TotalPower(vs)
  {
    if vs != [] {
      PowerBounds(vs[1..], ids, more);
    }
  }

  lemma PowerOfNobody(vs: seq<Validator>)
    ensures PowerOf(vs, {}) == 0
  {
  }

  lemma {:induction false} InclusionExclusion(vs: seq<Validator>, a: set<Id>, b: set<Id>)
    ensures PowerOf(vs, a) + PowerOf(vs, b) == PowerOf(vs, a + b) + PowerOf(vs, a * b)
  {
    if vs != [] {
      InclusionExclusion(vs[1..], a, b);
    }
  }

  lemma {:induction false} PowerOfAbsent(vs: seq<Validator>, ids: set<Id>, id: Id)
    requires forall i | 0 <= i < |vs| :: vs[i].id != id
    ensures PowerOf(vs, ids + {id}) == PowerOf(vs, ids)
  {
    if vs != [] {
      PowerOfAbsent(vs[1..], ids, id);
      assert vs[0].id != id;
    }
  }

  /** Adding one new member adds exactly its power. */
  lemma {:induction false} PowerOfAdded(vs: seq<Validator>, ids: set<Id>, k: nat)
    requires StrictlySorted(IdOf, vs) && k < |vs| && vs[k].id !in ids
    ensures PowerOf(vs, ids + {vs[k].id}) == PowerOf(vs, ids) + vs[k].power
  {
    if k == 0 {
      forall i | 0 <= i < |vs| - 1 ensures vs[1..][i].id != vs[0].id {
        assert IdOf(vs[0]) < IdOf(vs[i + 1]);
      }
      PowerOfAbsent(vs[1..], ids, vs[0].id);
    } else {
      assert IdOf(vs[0]) < IdOf(vs[k]);
      PowerOfAdded(vs[1..], ids, k - 1);
    }
  }

  // ----- construction

  ghost predicate CanonicalValidators(vs: seq<Validator>) {
    0 < |vs| <= MAX_VALIDATORS && StrictlySorted(IdOf, vs) && forall v | v in vs :: 0 < v.power
  }

  /** Neighbour checks over a list in its supplied order. */
  method ValidateValidators(vs: seq<Validator>) returns (r: Result<(), ConsensusError>)
    ensures r.Ok? <==> CanonicalValidators(vs)
    ensures r.Err? && StrictlySorted(IdOf, vs) ==> !r.error.DuplicateValidator? && !r.error.NonCanonicalValidatorOrder?
  {
    if |vs| == 0 {
      return Err(EmptyValidatorSet);
    }
    if |vs| > MAX_VALIDATORS {
      return Err(TooManyValidators);
    }
    for i := 0 to |vs|
      invariant forall j | 0 < j < i :: IdOf(vs[j - 1]) < IdOf(vs[j])
      invariant forall j | 0 <= j < i :: 0 < vs[j].power
    {
      if vs[i].power == 0 {
        return Err(ZeroVotingPower);
      }
      if i > 0 {
        if IdOf(vs[i - 1]) == IdOf(vs[i]) {
          return Err(DuplicateValidator);
        }
        if IdOf(vs[i - 1]) > IdOf(vs[i]) {
          return Err(NonCanonicalValidatorOrder);
        }
      }
    }
    StrictFromNeighbours(IdOf, vs);
    r := Ok(());
  }

  /** Adds the powers with a checked `u64` addition. */
  method SumPowers(vs: seq<Validator>) returns (r: Result<nat, ConsensusError>)
    ensures r == if TotalPower(vs) <= U64_MAX then Ok(TotalPower(vs)) else Err(VotingPowerOverflow)
  {
    var total := 0;
    for i := 0 to |vs|
      invariant total + TotalPower(vs[i..]) == TotalPower(vs) && total <= U64_MAX
    {
      if total + vs[i].power > U64_MAX {
        return Err(VotingPowerOverflow);
      }
      total := total + vs[i].power;
    }
    r := Ok(total);
  }

  lemma {:induction false} SortKeepsTotal(vs: seq<Validator>)
    ensures TotalPower(Sort(IdOf, vs)) == TotalPower(vs)
  {
    if vs != [] {
      SortKeepsTotal(vs[1..]);
      InsertAddsPower(vs[0], Sort(IdOf, vs[1..]));
    }
  }

  lemma {:induction false} InsertAddsPower(v: Validator, vs: seq<Validator>)
    ensures TotalPower(Insert(IdOf, v, vs)) == v.power + TotalPower(vs)
  {
    if vs != [] {
      if IdOf(v) <= IdOf(vs[0]) {
        assert ([v] + vs)[1..] == vs;
      } else {
        InsertAddsPower(v, vs[1..]);
        assert ([vs[0]] + Insert(IdOf, v, vs[1..]))[1..] == Insert(IdOf, v, vs[1..]);
      }
    }
  }

  /** Sorts by validator ID and accepts exactly the non-empty, bounded, positive, duplicate-free lists. */
  method NewValidatorSet(validators: seq<Validator>, id: Id) returns (r: Result<ValidatorSet, ConsensusError>)
    ensures r.Ok? <==> 0 < |validators| <= MAX_VALIDATORS && DistinctRanks(IdOf, validators)
                       && (forall v | v in validators :: 0 < v.power) && TotalPower(validators) <= U64_MAX
    ensures r.Ok? ==> r.value.Valid() && multiset(r.value.validators) == multiset(validators) && r.value.id == id
  {
    var sorted := Sort(IdOf, validators);
    SortCanonical(IdOf, validators);
    SortKeepsTotal(validators);
    var canonical := ValidateValidators(sorted);
    if canonical.Err? {
      return Err(canonical.error);
    }
    var total := SumPowers(sorted);
    if total.Err? {
      return Err(total.error);
    }
    r := Ok(ValidatorSet(sorted, total.value, id));
  }

  /** Binds the limits and refuses a declared Byzantine power of a third of the total or more. */
  method NewConfig(protocolVersion: nat, maximumRecords: nat, maximumBytes: nat, maximumByzantine: nat,
                   validatorSet: ValidatorSet, id: Id) returns (r: Result<ConsensusConfig, ConsensusError>)
    requires validatorSet.Valid()
    ensures r.Ok? <==> 0 < protocolVersion && 0 < maximumRecords <= MAX_BLOCK_RECORDS
                       && 0 < maximumBytes <= MAX_BLOCK_TRANSACTION_BYTES && 3 * maximumByzantine < validatorSet.total
    ensures r.Ok? ==> r.value.Valid()
    ensures r.Err? ==>
              r.error == if protocolVersion == 0 then InvalidProtocolVersion
                         else if !(0 < maximumRecords <= 1_000_000) then InvalidMaximumBlockRecords
                         else if !(0 < maximumBytes <= 64 * 1024 * 1024) then InvalidMaximumBlockTransactionBytes
                         else ByzantineFaultPowerExceedsSafetyLimit(maximumByzantine, (validatorSet.total - 1) / 3)
    ensures r.Ok? ==> r.value == ConsensusConfig(
              protocolVersion, maximumRecords, maximumBytes, maximumByzantine, validatorSet, id)
  {
    PositiveTotal(validatorSet.validators);
    if protocolVersion == 0 {
      return Err(InvalidProtocolVersion);
    }
    if maximumRecords == 0 || maximumRecords > MAX_BLOCK_RECORDS {
      return Err(InvalidMaximumBlockRecords);
    }
    if maximumBytes == 0 || maximumBytes > MAX_BLOCK_TRANSACTION_BYTES {
      return Err(InvalidMaximumBlockTransactionBytes);
    }
    var maximum := (validatorSet.total - 1) / 3;
    if maximumByzantine > maximum {
      return Err(ByzantineFaultPowerExceedsSafetyLimit(maximumByzantine, maximum));
    }
    r := Ok(ConsensusConfig(protocolVersion, maximumRecords, maximumBytes, maximumByzantine, validatorSet, id));
  }

  lemma PositiveTotal(vs: seq<Validator>)
    requires vs != [] && forall v | v in vs :: 0 < v.power
    ensures 0 < TotalPower(vs)
  {
  }

  ghost predicate CanonicalVotes(votes: seq<Vote>) {
    0 < |votes| <= MAX_VALIDATORS && StrictlySorted(VoterOf, votes) &&
    forall v | v in votes :: 0 < |v.signature| <= MAX_SIGNATURE_BYTES
  }

  /** Neighbour checks over the votes in their supplied order. */
  method ValidateVotes(votes: seq<Vote>) returns (r: Result<(), ConsensusError>)
    ensures r.Ok? <==> CanonicalVotes(votes)
  {
    if |votes| == 0 {
      return Err(EmptyCertificate);
    }
    if |votes| > MAX_VALIDATORS {
      return Err(TooManyVotes);
    }
    for i := 0 to |votes|
      invariant forall j | 0 < j < i :: VoterOf(votes[j - 1]) < VoterOf(votes[j])
      invariant forall j | 0 <= j < i :: 0 < |votes[j].signature| <= MAX_SIGNATURE_BYTES
    {
      if |votes[i].signature| > MAX_SIGNATURE_BYTES {
        return Err(SignatureTooLarge);
      }
      if |votes[i].signature| == 0 {
        return Err(EmptySignature);
      }
      if i > 0 {
        if VoterOf(votes[i - 1]) == VoterOf(votes[i]) {
          return Err(DuplicateVote);
        }
        if VoterOf(votes[i - 1]) > VoterOf(votes[i]) {
          return Err(NonCanonicalVoteOrder);
        }
      }
    }
    StrictFromNeighbours(VoterOf, votes);
    r := Ok(());
  }

  /** Sorts by validator ID and accepts exactly the non-empty, bounded lists with one bounded signature per voter. */
  method NewCertificate(target: Target, votes: seq<Vote>) returns (r: Result<Certificate, ConsensusError>)
    ensures r.Ok? <==> 0 < |votes| <= MAX_VALIDATORS && DistinctRanks(VoterOf, votes)
                       && forall v | v in votes :: 0 < |v.signature| <= MAX_SIGNATURE_BYTES
    ensures r.Ok? ==> r.value.Valid() && multiset(r.value.votes) == multiset(votes) && r.value.target == target
  {
    var sorted := Sort(VoterOf, votes);
    SortCanonical(VoterOf, votes);
    var canonical := ValidateVotes(sorted);
    if canonical.Err? {
      return Err(canonical.error);
    }
    r := Ok(Certificate(target, sorted));
  }

  // ----- validation

  /** Binary search for a validator by ID. */
  method IndexOf(set_: ValidatorSet, id: Id) returns (r: Option<nat>)
    requires set_.Valid()
    ensures r.Some? ==> r.value < |set_.validators| && set_.validators[r.value].id == id
    ensures r.None? ==> forall i | 0 <= i < |set_.validators| :: set_.validators[i].id != id
  {
    var low, high := 0, |set_.validators|;
    while low < high
      invariant 0 <= low <= high <= |set_.validators|
      invariant forall i | 0 <= i < low :: IdOf(set_.validators[i]) < id
      invariant forall i | high <= i < |set_.validators| :: id < IdOf(set_.validators[i])
    {
      var middle := (low + high) / 2;
      var at := set_.validators[middle];
      if at.id == id {
        return Some(middle);
      } else if at.id < id {
        forall i | 0 <= i < middle ensures IdOf(set_.validators[i]) < id {
          assert IdOf(set_.validators[i]) < IdOf(at);
        }
        low := middle + 1;
      } else {
        forall i | middle < i < |set_.validators| ensures id < IdOf(set_.validators[i]) {
          assert IdOf(at) < IdOf(set_.validators[i]);
        }
        high := middle;
      }
    }
    forall i | 0 <= i < |set_.validators| ensures set_.validators[i].id != id {
      assert IdOf(set_.validators[i]) != id;
    }
    r := None;
  }

  function TargetOf(h: Header): Target {
    Target(h.genesisId, h.contextId, h.configId, h.validatorSetId, h.height, h.epoch, h.round, h.id)
  }

  predicate HeaderAccepted(h: Header, anchor: Anchor, config: ConsensusConfig) {
    h.protocolVersion == config.protocolVersion && h.configId == config.id &&
    h.validatorSetId == config.validatorSet.id && h.recordCount <= config.maximumRecords &&
    h.genesisId == anchor.genesisId && h.contextId == anchor.contextId && config.id == anchor.configId &&
    (h.height == 1 ==> h.previousStateId == anchor.genesisStateId)
  }

  ghost predicate KnownVoters(c: Certificate, config: ConsensusConfig) {
    forall id | id in c.Voters() ::
      exists i :: 0 <= i < |config.validatorSet.validators| && config.validatorSet.validators[i].id == id
  }

  /** The certificate is bound to this header and its voters hold a quorum of the configured power. */
  ghost predicate StructureAccepted(c: Certificate, h: Header, anchor: Anchor, config: ConsensusConfig) {
    HeaderAccepted(h, anchor, config) && c.target == TargetOf(h) && KnownVoters(c, config) &&
    PowerOf(config.validatorSet.validators, c.Voters()) >= config.validatorSet.Quorum()
  }

  /** The header belongs to this deployment: its protocol, configuration, validator set and genesis, within its record
      limit, and the first block starts at the genesis state. */
  ghost predicate OfDeployment(h: Header, anchor: Anchor, config: ConsensusConfig) {
    h.protocolVersion == config.protocolVersion && h.configId == config.id == anchor.configId &&
    h.validatorSetId == config.validatorSet.id && h.recordCount <= config.maximumRecords &&
    h.genesisId == anchor.genesisId && h.contextId == anchor.contextId &&
    (h.height == 1 ==> h.previousStateId == anchor.genesisStateId)
  }

  /** The target is this header's: deployment, height, epoch, round and block, each by name. */
  ghost predicate Names(t: Target, h: Header) {
    t.genesisId == h.genesisId && t.contextId == h.contextId && t.configId == h.configId &&
    t.validatorSetId == h.validatorSetId && t.height == h.height && t.epoch == h.epoch && t.round == h.round &&
    t.blockId == h.id
  }

  /** The running `u64` sum of the votes is the power of the distinct voters: it never overflows. */
  method ValidateStructure(c: Certificate, h: Header, anchor: Anchor, config: ConsensusConfig)
    returns (r: Result<(), ConsensusError>)
    requires c.Valid() && config.Valid()
    ensures r.Ok? <==> StructureAccepted(c, h, anchor, config)
    ensures r.Ok? <==>
              OfDeployment(h, anchor, config) && Names(c.target, h) && KnownVoters(c, config) &&
              3 * PowerOf(config.validatorSet.validators, c.Voters()) > 2 * config.validatorSet.total
    ensures r == Err(HeaderMismatch) <==> !OfDeployment(h, anchor, config)
    ensures r == Err(CertificateTargetMismatch) <==> OfDeployment(h, anchor, config) && !Names(c.target, h)
    ensures r == Err(UnknownValidator) <==>
              OfDeployment(h, anchor, config) && Names(c.target, h) && !KnownVoters(c, config)
    ensures r.Err? ==> r.error != VotingPowerOverflow
    ensures r.Err? && r.error.InsufficientVotingPower? ==> KnownVoters(c, config)
    ensures r.Err? && r.error.InsufficientVotingPower? ==>
              r.error.signed == PowerOf(config.validatorSet.validators, c.Voters()) < r.error.required
  {
    QuorumIsExact(config.validatorSet);
    if !HeaderAccepted(h, anchor, config) {
      return Err(HeaderMismatch);
    }
    if c.target != TargetOf(h) {
      return Err(CertificateTargetMismatch);
    }
    var vs := config.validatorSet.validators;
    var signed := 0;
    var i := 0;
    ghost var seen: set<Id> := {};
    PowerOfNobody(vs);
    while i < |c.votes|
      invariant 0 <= i <= |c.votes|
      invariant seen == set j | 0 <= j < i :: c.votes[j].validatorId
      invariant signed == PowerOf(vs, seen)
      invariant forall id | id in seen :: exists k :: 0 <= k < |vs| && vs[k].id == id
    {
      var id := c.votes[i].validatorId;
      var at := IndexOf(config.validatorSet, id);
      if at.None? {
        assert id in c.Voters();
        return Err(UnknownValidator);
      }
      forall j | 0 <= j < i ensures c.votes[j].validatorId != id {
        assert VoterOf(c.votes[j]) < VoterOf(c.votes[i]);
      }
      PowerOfAdded(vs, seen, at.value);
      PowerBounds(vs, seen + {id}, seen + {id});
      if signed + vs[at.value].power > U64_MAX {
        return Err(VotingPowerOverflow);
      }
      signed := signed + vs[at.value].power;
      seen := seen + {id};
      i := i + 1;
    }
    assert seen == c.Voters();
    var required := config.validatorSet.Quorum();
    if signed < required {
      return Err(InsufficientVotingPower(signed, required));
    }
    r := Ok(());
  }

  /** The validator's vote does not verify. */
  ghost predicate Rejects(c: Certificate, config: ConsensusConfig, verifier: (Target, seq<nat>, Validator) -> bool,
                          id: Id) {
    exists i :: 0 <= i < |c.votes| && c.votes[i].validatorId == id && !SignedBy(c.target, c.votes[i], config, verifier)
  }

  /** Structure first, then every signature against its configured validator. */
  method Verify(c: Certificate, h: Header, anchor: Anchor, config: ConsensusConfig,
                verifier: (Target, seq<nat>, Validator) -> bool) returns (r: Result<VerifiedFinality, ConsensusError>)
    requires c.Valid() && config.Valid()
    ensures r.Ok? <==> StructureAccepted(c, h, anchor, config) && Signed(c, config, verifier)
    ensures r.Ok? ==> r.value == VerifiedFinality(h.id, h.height)
    ensures StructureAccepted(c, h, anchor, config) && r.Err? ==>
              r.error.InvalidSignature? && Rejects(c, config, verifier, r.error.validator)
  {
    var structure := ValidateStructure(c, h, anchor, config);
    if structure.Err? {
      return Err(structure.error);
    }
    for i := 0 to |c.votes|
      invariant forall j | 0 <= j < i :: SignedBy(c.target, c.votes[j], config, verifier)
    {
      assert c.votes[i].validatorId in c.Voters();
      var at := IndexOf(config.validatorSet, c.votes[i].validatorId);
      if at.None? {
        return Err(UnknownValidator);
      }
      var validator := config.validatorSet.validators[at.value];
      if !verifier(c.target, c.votes[i].signature, validator) {
        forall k | 0 <= k < |config.validatorSet.validators| && k != at.value
          ensures config.validatorSet.validators[k].id != c.votes[i].validatorId
        {
          assert IdOf(config.validatorSet.validators[k]) != IdOf(validator);
        }
        return Err(InvalidSignature(c.votes[i].validatorId));
      }
    }
    r := Ok(VerifiedFinality(h.id, h.height));
  }

  /** Some configured validator with the vote's ID accepts its signature over the target. */
  ghost predicate SignedBy(t: Target, vote: Vote, config: ConsensusConfig,
      verifier: (Target, seq<nat>, Validator) -> bool) {
    exists k :: 0 <= k < |config.validatorSet.validators| &&
                config.validatorSet.validators[k].id == vote.validatorId &&
                verifier(t, vote.signature, config.validatorSet.validators[k])
  }

  ghost predicate Signed(c: Certificate, config: ConsensusConfig, verifier: (Target, seq<nat>, Validator) -> bool) {
    forall i | 0 <= i < |c.votes| :: SignedBy(c.target, c.votes[i], config, verifier)
  }

  // ----- the arithmetic of the quorum and the fault budget

  /** The quorum is `floor(2T/3) + 1`, every step fits `u64`, and it is the least power above two thirds. */
  lemma QuorumIsExact(vs: ValidatorSet)
    requires vs.Valid()
    ensures vs.Quorum() == 2 * vs.total / 3 + 1
    ensures vs.total / 3 * 2 <= U64_MAX && vs.Quorum() <= U64_MAX
    ensures 3 * vs.Quorum() > 2 * vs.total >= 3 * (vs.Quorum() - 1)
    ensures vs.Quorum() <= vs.total
  {
    PositiveTotal(vs.validators);
  }

  /** The validators outside any set of declared-Byzantine power still reach the quorum. */
  lemma HonestPowerReachesQuorum(config: ConsensusConfig, byzantine: set<Id>, rest: set<Id>)
    requires config.Valid()
    requires PowerOf(config.validatorSet.validators, byzantine) <= config.maximumByzantine
    requires forall i | 0 <= i < |config.validatorSet.validators| ::
               config.validatorSet.validators[i].id in byzantine || config.validatorSet.validators[i].id in rest
    ensures PowerOf(config.validatorSet.validators, rest) >= config.validatorSet.Quorum()
  {
    var vs := config.validatorSet.validators;
    InclusionExclusion(vs, byzantine, rest);
    PowerOfEverybody(vs, byzantine + rest);
    PowerBounds(vs, byzantine * rest, byzantine);
    QuorumIsExact(config.validatorSet);
  }

  lemma {:induction false} PowerOfEverybody(vs: seq<Validator>, ids: set<Id>)
    requires forall i | 0 <= i < |vs| :: vs[i].id in ids
    ensures PowerOf(vs, ids) == TotalPower(vs)
  {
    if vs != [] {
      PowerOfEverybody(vs[1..], ids);
    }
  }

  /** Quorum intersection: two accepted certificates share voters of more than the Byzantine power. */
  lemma QuorumIntersection(
    config: ConsensusConfig, a: Certificate, b: Certificate, ha: Header, hb: Header, anchorA: Anchor, anchorB: Anchor)
    requires config.Valid()
    requires StructureAccepted(a, ha, anchorA, config) && StructureAccepted(b, hb, anchorB, config)
    ensures PowerOf(config.validatorSet.validators, a.Voters() * b.Voters()) > config.maximumByzantine
  {
    var vs := config.validatorSet.validators;
    InclusionExclusion(vs, a.Voters(), b.Voters());
    PowerBounds(vs, a.Voters() + b.Voters(), a.Voters() + b.Voters());
    QuorumIsExact(config.validatorSet);
  }

  /** A precommit a validator made: its identifier and the exact target it signed. */
  datatype Precommit = Precommit(validator: Id, target: Target)

  /** Unforgeability, for one certificate: each vote that verifies for a validator outside `byzantine` was issued by
      it. */
  ghost predicate VotesWereIssued(c: Certificate, config: ConsensusConfig,
                                  verifier: (Target, seq<nat>, Validator) -> bool,
                                  byzantine: set<Id>, issued: set<Precommit>) {
    forall i | 0 <= i < |c.votes| && c.votes[i].validatorId !in byzantine ::
      SignedBy(c.target, c.votes[i], config, verifier) ==> Precommit(c.votes[i].validatorId, c.target) in issued
  }

  /** A validator outside `byzantine` issued precommits for at most one target at each height. */
  ghost predicate IssuedOncePerHeight(issued: set<Precommit>, byzantine: set<Id>) {
    forall p, q | p in issued && q in issued ::
      p.validator == q.validator && p.validator !in byzantine && p.target.height == q.target.height ==> p == q
  }

  /** Safety: with no more Byzantine power than declared, verified certificates for one height name one block. Nothing
      is asked of signatures that no certificate contains: `issued` is what the other validators actually signed. */
  lemma VerifiedCertificatesAgree(
    config: ConsensusConfig, byzantine: set<Id>,
    verifier: (Target, seq<nat>, Validator) -> bool, issued: set<Precommit>,
    a: Certificate, b: Certificate, ha: Header, hb: Header, anchorA: Anchor, anchorB: Anchor)
    requires config.Valid()
    requires StructureAccepted(a, ha, anchorA, config) && Signed(a, config, verifier)
    requires StructureAccepted(b, hb, anchorB, config) && Signed(b, config, verifier)
    requires PowerOf(config.validatorSet.validators, byzantine) <= config.maximumByzantine
    requires VotesWereIssued(a, config, verifier, byzantine, issued)
    requires VotesWereIssued(b, config, verifier, byzantine, issued)
    requires IssuedOncePerHeight(issued, byzantine)
    requires ha.height == hb.height
    ensures a.target == b.target && ha.id == hb.id
  {
    var vs := config.validatorSet.validators;
    QuorumIntersection(config, a, b, ha, hb, anchorA, anchorB);
    var k := HonestMember(vs, a.Voters() * b.Voters(), byzantine);
    var i :| 0 <= i < |a.votes| && a.votes[i].validatorId == vs[k].id;
    var j :| 0 <= j < |b.votes| && b.votes[j].validatorId == vs[k].id;
    assert SignedBy(a.target, a.votes[i], config, verifier) && SignedBy(b.target, b.votes[j], config, verifier);
    assert Precommit(vs[k].id, a.target) in issued && Precommit(vs[k].id, b.target) in issued;
  }

  /** A set that outweighs `byzantine` has a configured member outside it. */
  lemma {:induction false} HonestMember(vs: seq<Validator>, ids: set<Id>, byzantine: set<Id>) returns (k: nat)
    requires PowerOf(vs, ids) > PowerOf(vs, byzantine)
    ensures k < |vs| && vs[k].id in ids && vs[k].id !in byzantine
  {
    if vs[0].id in ids && vs[0].id !in byzantine {
      k := 0;
    } else {
      var rest := HonestMember(vs[1..], ids, byzantine);
      k := rest + 1;
    }
  }
}
