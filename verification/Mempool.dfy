/** Local transaction selection on discardable candidates: the mempool overlay and proposal selection. */
module Mempool {
  import opened Common
  import opened Bytes
  import opened Execution
  import opened Blocks
  import opened Executor

  const MAX_PENDING_TRANSACTIONS: nat := 10_000
  const MAX_PENDING_TRANSACTION_BYTES: nat := 64 * 1024 * 1024

  datatype AdmitError = MempoolLimitExceeded | Rejected(error: ExecutionError)

  lemma RunOneMore(step: StepRule, c: Candidate, txs: seq<seq<u8>>, bytes: seq<u8>)
    requires RunWith(step, c, txs).Ok? && step(RunWith(step, c, txs).value.candidate, bytes).Ok?
    ensures var ran := RunWith(step, c, txs).value;
            var next := step(ran.candidate, bytes).value;
            RunWith(step, c, txs + [bytes]) == Ok(Ran(next.candidate, ran.records + [next.record]))
    ensures TotalBytes(txs + [bytes]) == TotalBytes(txs) + |bytes|
  {
    assert (txs + [bytes])[..|txs|] == txs;
  }

  class MempoolOverlay {
    var candidate: Candidate
    var transactions: seq<seq<u8>>
    var totalBytes: nat

    /** The candidate is what running the admitted transactions from the tip gives, within both limits. */
    ghost predicate Overlays(step: StepRule, tip: Candidate)
      reads this
    {
      |transactions| <= MAX_PENDING_TRANSACTIONS &&
      totalBytes == TotalBytes(transactions) <= MAX_PENDING_TRANSACTION_BYTES &&
      RunWith(step, tip, transactions).Ok? && RunWith(step, tip, transactions).value.candidate == candidate
    }

    constructor (candidate: Candidate)
      ensures this.candidate == candidate && transactions == [] && totalBytes == 0
    {
      this.candidate, transactions, totalBytes := candidate, [], 0;
    }

    method Reset(ghost step: StepRule, tip: Candidate)
      modifies this
      ensures Overlays(step, tip) && candidate == tip && transactions == [] && totalBytes == 0
    {
      candidate, transactions, totalBytes := tip, [], 0;
    }

    /** Simulates on a copy, so a failed admission leaves the overlay as it was. */
    method Admit(env: Environment, ghost step: StepRule, transaction: seq<u8>, ghost tip: Candidate)
        returns (r: Result<(), AdmitError>)
      requires Applies(env, step) && Overlays(step, tip)
      modifies this
      ensures Overlays(step, tip)
      ensures r.Ok? <==> |old(transactions)| < MAX_PENDING_TRANSACTIONS
                         && old(totalBytes) + |transaction| <= MAX_PENDING_TRANSACTION_BYTES
                         && step(old(candidate), transaction).Ok?
      ensures r.Ok? ==> transactions == old(transactions) + [transaction]
                        && totalBytes == old(totalBytes) + |transaction|
                        && candidate == step(old(candidate), transaction).value.candidate
      ensures r == Err(MempoolLimitExceeded) <==>
                |old(transactions)| >= 10_000 || old(totalBytes) + |transaction| > 64 * 1024 * 1024
      ensures r.Err? && r.error.Rejected? ==> step(old(candidate), transaction) == Err(r.error.error)
      ensures r.Err? ==>
          candidate == old(candidate) && transactions == old(transactions) && totalBytes == old(totalBytes)
    {
      if |transactions| == MAX_PENDING_TRANSACTIONS {
        return Err(MempoolLimitExceeded);
      }
      var total := totalBytes + |transaction|;
      if total > MAX_PENDING_TRANSACTION_BYTES {
        return Err(MempoolLimitExceeded);
      }
      var next, simulated := SimulateTransaction(env, step, candidate, transaction);
      if simulated.Err? {
        return Err(Rejected(simulated.error));
      }
      RunOneMore(step, tip, transactions, transaction);
      candidate, transactions, totalBytes := next, transactions + [transaction], total;
      r := Ok(());
    }
  }

  // ----- proposal selection

  /** The chosen positions, the candidate they lead to and their length sum. */
  datatype Selection = Selection(picks: seq<nat>, candidate: Candidate, bytes: nat)

  ghost predicate Within(picks: seq<nat>, bound: nat) {
    forall i | 0 <= i < |picks| :: picks[i] < bound
  }

  ghost predicate Increasing(picks: seq<nat>) {
    forall i, j | 0 <= i < j < |picks| :: picks[i] < picks[j]
  }

  ghost function Picked(txs: seq<seq<u8>>, picks: seq<nat>): (r: seq<seq<u8>>)
    requires Within(picks, |txs|)
    ensures |r| == |picks| && forall i | 0 <= i < |picks| :: r[i] == txs[picks[i]]
  {
    seq(|picks|, i requires 0 <= i < |picks| => txs[picks[i]])
  }

  /** One pass: a transaction is taken when there is room for it and it is accepted at its turn. */
  function SelectWith(step: StepRule, start: Candidate, txs: seq<seq<u8>>, byteLimit: nat,
      recordLimit: nat): Selection {
    if txs == [] then Selection([], start, 0)
    else
      var before := SelectWith(step, start, txs[..|txs| - 1], byteLimit, recordLimit);
      var tx := txs[|txs| - 1];
      if |before.picks| >= recordLimit || before.bytes + |tx| > byteLimit then before
      else match step(before.candidate, tx)
        case Err(_) => before
        case Ok(next) => Selection(before.picks + [|txs| - 1], next.candidate, before.bytes + |tx|)
  }

  /** The picks are positions in increasing order, within both limits, that run as a list from the start. */
  ghost predicate Sound(step: StepRule, start: Candidate, txs: seq<seq<u8>>,
                        byteLimit: nat, recordLimit: nat, s: Selection) {
    Increasing(s.picks) && Within(s.picks, |txs|) &&
    |s.picks| <= recordLimit && s.bytes == TotalBytes(Picked(txs, s.picks)) <= byteLimit &&
    RunWith(step, start, Picked(txs, s.picks)).Ok? &&
        RunWith(step, start, Picked(txs, s.picks)).value.candidate == s.candidate
  }

  lemma {:induction false} SelectionIsSound(step: StepRule, start: Candidate, txs: seq<seq<u8>>,
                                            byteLimit: nat, recordLimit: nat)
    ensures Sound(step, start, txs, byteLimit, recordLimit, SelectWith(step, start, txs, byteLimit, recordLimit))
  {
    if txs != [] {
      var shorter, tx := txs[..|txs| - 1], txs[|txs| - 1];
      SelectionIsSound(step, start, shorter, byteLimit, recordLimit);
      var before := SelectWith(step, start, shorter, byteLimit, recordLimit);
      if |before.picks| < recordLimit && before.bytes + |tx| <= byteLimit && step(before.candidate, tx).Ok? {
        PickedSound(step, start, txs, byteLimit, recordLimit, before);
      } else {
        PickMore(txs, before.picks);
      }
    }
  }

  lemma PickedSound(step: StepRule, start: Candidate, txs: seq<seq<u8>>,
                    byteLimit: nat, recordLimit: nat, before: Selection)
    requires txs != [] && Sound(step, start, txs[..|txs| - 1], byteLimit, recordLimit, before) &&
        |before.picks| < recordLimit
    requires before.bytes + |txs[|txs| - 1]| <= byteLimit && step(before.candidate, txs[|txs| - 1]).Ok?
    ensures Sound(step, start, txs, byteLimit, recordLimit,
                  Selection(before.picks + [|txs| - 1], step(before.candidate, txs[|txs| - 1]).value.candidate,
                      before.bytes + |txs[|txs| - 1]|))
  {
    PickMore(txs, before.picks);
    RunOneMore(step, start, Picked(txs[..|txs| - 1], before.picks), txs[|txs| - 1]);
  }

  lemma PickMore(txs: seq<seq<u8>>, picks: seq<nat>)
    requires txs != [] && Increasing(picks) && Within(picks, |txs| - 1)
    ensures Within(picks, |txs|) && Picked(txs, picks) == Picked(txs[..|txs| - 1], picks)
    ensures Increasing(picks + [|txs| - 1]) && Within(picks + [|txs| - 1], |txs|)
    ensures Picked(txs, picks + [|txs| - 1]) == Picked(txs[..|txs| - 1], picks) + [txs[|txs| - 1]]
  {
  }

  ghost function Selected(step: StepRule, start: Candidate, txs: seq<seq<u8>>,
                          byteLimit: nat, recordLimit: nat): (r: seq<seq<u8>>)
    ensures |r| <= recordLimit && TotalBytes(r) <= byteLimit && RunWith(step, start, r).Ok?
  {
    SelectionIsSound(step, start, txs, byteLimit, recordLimit);
    Picked(txs, SelectWith(step, start, txs, byteLimit, recordLimit).picks)
  }

  /** Position `at` was left out for a reason: at its turn, after the first `k` picks, the list was full, the
      transaction did not fit, or it was invalid. */
  ghost predicate LeftOut(step: StepRule, start: Candidate, txs: seq<seq<u8>>,
                          byteLimit: nat, recordLimit: nat, picks: seq<nat>, at: nat, k: nat)
    requires at < |txs| && k <= |picks| && Within(picks, |txs|)
  {
    var earlier := Picked(txs, picks[..k]);
    (forall i | 0 <= i < k :: picks[i] < at) && (forall i | k <= i < |picks| :: at < picks[i]) &&
    (k >= recordLimit || TotalBytes(earlier) + |txs[at]| > byteLimit ||
     (RunWith(step, start, earlier).Ok? && step(RunWith(step, start, earlier).value.candidate, txs[at]).Err?))
  }

  /** Every position is picked, or was left out for a reason. */
  lemma SelectionIsMaximal(step: StepRule, start: Candidate, txs: seq<seq<u8>>,
                           byteLimit: nat, recordLimit: nat, at: nat)
    requires at < |txs|
    ensures var s := SelectWith(step, start, txs, byteLimit, recordLimit);
            Within(s.picks, |txs|) &&
            (at in s.picks ||
             exists k :: 0 <= k <= |s.picks| && LeftOut(step, start, txs, byteLimit, recordLimit, s.picks, at, k))
  {
    hide RunWith, TotalBytes;
    var s := SelectWith(step, start, txs, byteLimit, recordLimit);
    SelectionIsSound(step, start, txs, byteLimit, recordLimit);
    var prefix := txs[..at];
    var earlier := SelectWith(step, start, prefix, byteLimit, recordLimit);
    SelectionIsSound(step, start, prefix, byteLimit, recordLimit);
    SelectionGrows(step, start, txs, byteLimit, recordLimit, at);
    var k := |earlier.picks|;
    assert txs[..at + 1][..at] == prefix;
    SelectionGrows(step, start, txs, byteLimit, recordLimit, at + 1);
    var upto := SelectWith(step, start, txs[..at + 1], byteLimit, recordLimit);
    if upto.picks == earlier.picks + [at] {
      assert s.picks[k] == upto.picks[k] == at;
    } else {
      assert upto == earlier;
      assert Picked(txs, s.picks[..k]) == Picked(prefix, earlier.picks);
      assert LeftOut(step, start, txs, byteLimit, recordLimit, s.picks, at, k);
    }
  }

  /** The selection of a prefix is a prefix of the selection, and everything picked later lies beyond it. */
  lemma {:induction false} SelectionGrows(step: StepRule, start: Candidate, txs: seq<seq<u8>>,
                                          byteLimit: nat, recordLimit: nat, n: nat)
    requires n <= |txs|
    ensures var earlier, s := SelectWith(step, start, txs[..n], byteLimit, recordLimit),
        SelectWith(step, start, txs, byteLimit, recordLimit);
            earlier.picks <= s.picks && forall i | |earlier.picks| <= i < |s.picks| :: n <= s.picks[i]
  {
    if n == |txs| {
      assert txs[..n] == txs;
    } else {
      var shorter := txs[..|txs| - 1];
      assert shorter[..n] == txs[..n];
      SelectionGrows(step, start, shorter, byteLimit, recordLimit, n);
    }
  }

  /** Whatever is selected from a tip executes as a block on that tip under every decision valid for its height. */
  lemma SelectionExecutes(env: Environment, step: StepRule, tip: Committed, txs: seq<seq<u8>>, byteLimit: nat,
                          p: Proposal)
    requires env.Valid() && Applies(env, step) && Standing(env, tip) && tip.height < U64_MAX
    requires byteLimit <= env.config.maximumBytes
    requires p.height == tip.height + 1 && DecisionValid(env.network, p.decision, p.height)
    requires p.transactions == Selected(step, CandidateOf(tip), txs, byteLimit, env.config.maximumRecords)
    ensures BlockOutcome(env, tip, p).Ok?
  {
    StepperRuns(env, step, CandidateOf(tip), p.transactions);
    hide Selected, StepOutcome;
    BlockDecides(env, tip, p);
  }

  /** A rule that is transaction application in `env` runs lists as `env` does. */
  lemma {:induction false} StepperRuns(env: Environment, step: StepRule, c: Candidate, txs: seq<seq<u8>>)
    requires Applies(env, step)
    ensures RunWith(step, c, txs) == RunOutcome(env, c, txs)
  {
    hide StepOutcome;
    if txs != [] {
      var shorter := txs[..|txs| - 1];
      StepperRuns(env, step, c, shorter);
      if RunWith(step, c, shorter).Ok? {
        assert AppliesAt(env, step, RunWith(step, c, shorter).value.candidate, txs[|txs| - 1]);
      }
    }
  }

  /** The pass has reached the selection of the transactions seen so far. */
  ghost predicate Progress(step: StepRule, start: Candidate, seen: seq<seq<u8>>,
                           byteLimit: nat, recordLimit: nat, candidate: Candidate, total: nat, selected: seq<seq<u8>>) {
    var s := SelectWith(step, start, seen, byteLimit, recordLimit);
    s.candidate == candidate && s.bytes == total && selected == Selected(step, start, seen, byteLimit, recordLimit)
  }

  lemma SelectNext(step: StepRule, start: Candidate, txs: seq<seq<u8>>, byteLimit: nat, recordLimit: nat, i: nat)
    requires i < |txs|
    ensures var before, s := SelectWith(step, start, txs[..i], byteLimit, recordLimit),
        SelectWith(step, start, txs[..i + 1], byteLimit, recordLimit);
            var chosen := Selected(step, start, txs[..i], byteLimit, recordLimit);
            |chosen| == |before.picks| &&
            if |chosen| >= recordLimit || before.bytes + |txs[i]| > byteLimit ||
                step(before.candidate, txs[i]).Err? then
              s == before && Selected(step, start, txs[..i + 1], byteLimit, recordLimit) == chosen
            else
              s == Selection(before.picks + [i], step(before.candidate, txs[i]).value.candidate,
                  before.bytes + |txs[i]|) &&
              Selected(step, start, txs[..i + 1], byteLimit, recordLimit) == chosen + [txs[i]]
  {
    var seen := txs[..i + 1];
    assert seen[..i] == txs[..i];
    SelectionIsSound(step, start, txs[..i], byteLimit, recordLimit);
    PickMore(seen, SelectWith(step, start, txs[..i], byteLimit, recordLimit).picks);
  }

  lemma {:induction false} FullStaysFull(step: StepRule, start: Candidate, txs: seq<seq<u8>>, byteLimit: nat,
      recordLimit: nat, n: nat)
    requires n <= |txs| && |Selected(step, start, txs[..n], byteLimit, recordLimit)| >= recordLimit
    ensures Selected(step, start, txs, byteLimit, recordLimit) == Selected(step, start, txs[..n], byteLimit,
        recordLimit)
  {
    hide SelectWith, Selected;
    if n == |txs| {
      assert txs[..n] == txs;
    } else {
      var shorter := txs[..|txs| - 1];
      assert shorter[..n] == txs[..n];
      FullStaysFull(step, start, shorter, byteLimit, recordLimit, n);
      assert txs[..|txs|] == txs;
      SelectNext(step, start, txs, byteLimit, recordLimit, |txs| - 1);
    }
  }

  method SelectTransactions(env: Environment, ghost step: StepRule, start: Candidate, txs: seq<seq<u8>>,
      byteLimit: nat, recordLimit: nat)
    returns (selected: seq<seq<u8>>)
    requires Applies(env, step)
    ensures selected == Selected(step, start, txs, byteLimit, recordLimit)
  {
    var candidate: Candidate, total: nat := start, 0;
    selected := [];
    var i := 0;
    while i < |txs|
      invariant i <= |txs| && Progress(step, start, txs[..i], byteLimit, recordLimit, candidate, total, selected)
    {
      if |selected| >= recordLimit {
        break;
      }
      SelectNext(step, start, txs, byteLimit, recordLimit, i);
      if total + |txs[i]| <= byteLimit {
        var next, simulated := SimulateTransaction(env, step, candidate, txs[i]);
        if simulated.Ok? {
          candidate, total, selected := next, total + |txs[i]|, selected + [txs[i]];
        }
      }
      i := i + 1;
    }
    if i == |txs| {
      assert txs[..i] == txs;
    } else {
      FullStaysFull(step, start, txs, byteLimit, recordLimit, i);
    }
  }
}
