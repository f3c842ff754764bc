/** Rate keeping along runs: what a staged transaction under a soft limit consumed, and epochs that only grow. */
module Ratekeeping {
  import opened Types
  import opened Sets
  import opened Quorum
  import opened Certificates
  import opened Ordering
  import opened Domain
  import opened Events
  import opened Ledgers
  import opened Policies
  import Resolver

  // ---- what a granted reservation proves ----

  function CapacitySigners(attestations: seq<CapacityAttestation>): (signers: seq<U64>)
    ensures |signers| == |attestations|
  {
    seq(|attestations|, i requires 0 <= i < |attestations| => attestations[i].sample.signer)
  }

  function Eligible(attestations: seq<CapacityAttestation>, projected: U64, limit: U64): (marks: seq<bool>)
    ensures |marks| == |attestations|
  {
    seq(|attestations|, i requires 0 <= i < |attestations| =>
      SaturatingAdd(attestations[i].sample.retainedBytes, projected) <= limit)
  }

  lemma {:induction false} EligibleCountIsMarks(attestations: seq<CapacityAttestation>, projected: U64, limit: U64)
    ensures EligibleCount(attestations, projected, limit) == CountTrue(Eligible(attestations, projected, limit))
  {
    if attestations != [] {
      EligibleCountIsMarks(attestations[1..], projected, limit);
      assert Eligible(attestations, projected, limit)[1..] == Eligible(attestations[1..], projected, limit);
    }
  }

  lemma {:induction false} CertificateForIsOne(certificates: seq<CapacityCertificate>, logSet: U16) returns (k: nat)
    requires CertificateFor(certificates, logSet).Some?
    ensures k < |certificates| && CertificateFor(certificates, logSet) == Some(certificates[k])
    ensures certificates[k].statement.logSet == logSet
  {
    if certificates[0].statement.logSet == logSet {
      k := 0;
    } else {
      k := CertificateForIsOne(certificates[1..], logSet);
      k := k + 1;
    }
  }

  /** The sum is within the limit, except that a limit at the top of the counter admits every sum. */
  predicate WithinLimit(retained: U64, projected: U64, limit: U64) {
    retained + projected <= limit || limit == U64_MAX
  }

  /** The member vouched, for this very transaction, that the projected frame fits under the limit. */
  predicate Vouches(
    policy: LogSetPolicy, tx: Transaction, node: U64, sample: CapacitySample, statement: CapacityStatement)
  {
    && sample.signer == node
    && statement.logSet == policy.logSet
    && statement.policyEpoch == policy.epoch
    && statement.transactionIdentity == tx.identity
    && statement.transactionDigest == RatekeeperDigest(Resolver.Canonical(tx))
    && WithinLimit(sample.retainedBytes, statement.projectedFrameBytes, policy.softLimitBytes)
  }

  /** A quorum of different members of the log set vouched for the transaction. */
  ghost predicate RoomVouched(
    policy: LogSetPolicy, tx: Transaction, certificates: seq<CapacityCertificate>, signers: set<U64>)
  {
    && signers <= MemberMap(policy.members).Keys
    && |signers| >= policy.quorum
    && forall node :: node in signers ==> HasVouched(policy, tx, certificates, node)
  }

  predicate HasVouched(policy: LogSetPolicy, tx: Transaction, certificates: seq<CapacityCertificate>, node: U64) {
    exists k, i ::
      && 0 <= k < |certificates|
      && 0 <= i < |certificates[k].attestations|
      && SignedVoucher(policy, tx, certificates[k].statement, certificates[k].attestations[i], node)
  }

  predicate SignedVoucher(
    policy: LogSetPolicy, tx: Transaction, statement: CapacityStatement, attestation: CapacityAttestation, node: U64)
  {
    && Vouches(policy, tx, node, attestation.sample, statement)
    && node in MemberMap(policy.members)
    && attestation.signature
       == Signature(MemberMap(policy.members)[node], CapacityMessage(statement, attestation.sample))
  }

  /** A granted reservation rests, in every limited log set, on a quorum of different members with room. */
  lemma GrantedReservationHasRoom(d: Domain, tx: Transaction, certificates: seq<CapacityCertificate>, logSet: U16)
    returns (signers: set<U64>)
    requires PoliciesKeyed(d.policies)
    requires CapacityProofValid(d, tx, certificates) && RoomEverywhere(d, tx, certificates)
    requires logSet in tx.logTags && Limited(d.policies, logSet)
    ensures RoomVouched(d.policies[logSet], tx, certificates, signers)
  {
    hide ValidPolicy, MemberMap, LimitedSets, EligibleCount, SamplesFresh;
    var policy := d.policies[logSet];
    var tag :| 0 <= tag < |tx.logTags| && tx.logTags[tag] == logSet;
    assert RoomIn(policy, certificates);
    var k := CertificateForIsOne(certificates, policy.logSet);
    var certificate := certificates[k];
    assert CapacityEvidenceValid(d, tx, certificate, ReservationEpoch(certificates));
    signers := VouchersOf(policy, tx, certificate);
    forall node | node in signers
      ensures HasVouched(policy, tx, certificates, node)
    {
      var i :| 0 <= i < |certificate.attestations|
        && SignedVoucher(policy, tx, certificate.statement, certificate.attestations[i], node);
    }
  }

  lemma VouchersOf(policy: LogSetPolicy, tx: Transaction, certificate: CapacityCertificate) returns (signers: set<U64>)
    requires CapacityCertificateValid(certificate, policy)
    requires certificate.statement.transactionIdentity == tx.identity
    requires certificate.statement.transactionDigest == RatekeeperDigest(Resolver.Canonical(tx))
    requires EligibleCount(
               certificate.attestations, certificate.statement.projectedFrameBytes, policy.softLimitBytes)
             >= policy.quorum
    ensures signers <= MemberMap(policy.members).Keys && |signers| >= policy.quorum
    ensures forall node :: node in signers ==>
              exists i :: 0 <= i < |certificate.attestations|
                && SignedVoucher(policy, tx, certificate.statement, certificate.attestations[i], node)
  {
    hide MemberMap, EligibleCount, Resolver.Canonical;
    var attestations, votes := certificate.attestations, CapacityVotes(certificate);
    var projected, limit := certificate.statement.projectedFrameBytes, policy.softLimitBytes;
    var nodes, marks := CapacitySigners(attestations), Eligible(attestations, projected, limit);
    assert SignerList(votes) == nodes;
    EligibleCountIsMarks(attestations, projected, limit);
    MarksCountEntries(nodes, marks);
    signers := Marked(nodes, marks);
    forall node | node in signers
      ensures node in MemberMap(policy.members)
      ensures exists i :: 0 <= i < |attestations|
                && SignedVoucher(policy, tx, certificate.statement, attestations[i], node)
    {
      var i :| 0 <= i < |nodes| && marks[i] && nodes[i] == node;
      assert Admissible(votes[i], MemberMap(policy.members));
      assert SignedVoucher(policy, tx, certificate.statement, attestations[i], node);
    }
  }

  // ---- what each command does to reservations and epochs ----

  datatype RateChange =
    | NoChange
    | Attempted(transaction: Transaction, certificates: seq<CapacityCertificate>, granted: bool)
    | Consumed(identity: Identity)

  predicate RateChangeIs(d: Domain, next: Domain, change: RateChange) {
    match change
    case NoChange => next == d.(log := next.log, lastResolverCandidate := next.lastResolverCandidate,
                                lastResolverGeneration := next.lastResolverGeneration, policies := next.policies,
                                pending := next.pending, completed := next.completed)
    case Attempted(tx, certificates, granted) =>
      && CapacityProofValid(d, tx, certificates)
      && next == d.(attemptEpochs := d.attemptEpochs[tx.identity := ReservationEpoch(certificates)],
                    reservations := next.reservations)
      && if granted
         then
           && RoomEverywhere(d, tx, certificates)
           && next.reservations == d.reservations[
                tx.identity := Reservation(tx, ReservationEpoch(certificates), SamplesIn(certificates))]
         else next.reservations == d.reservations - {tx.identity}
    case Consumed(identity) =>
      && identity in d.reservations
      && next == d.(log := next.log, lastResolverCandidate := next.lastResolverCandidate,
                    lastResolverGeneration := next.lastResolverGeneration,
                    reservations := d.reservations - {identity},
                    sampleEpochs := MergeSamples(d.sampleEpochs, d.reservations[identity].sampleEpochs))
  }

  lemma ReserveChange(d: Domain, command: StagedCommand, tx: Transaction, certificates: seq<CapacityCertificate>)
    returns (change: RateChange)
    ensures RateChangeIs(d, ApplyReserve(d, command, tx, certificates).domain, change)
    ensures ApplyReserve(d, command, tx, certificates).status == CapacityReserved <==>
              change == Attempted(tx, certificates, true)
    ensures change.Attempted? ==> change.transaction == tx && change.certificates == certificates
  {
    hide ReserveRequestValid, BlockedByTransition, CapacityProofValid, RoomEverywhere, SamplesIn, Find,
      ReservationEpoch;
    var outcome := ApplyReserve(d, command, tx, certificates);
    change := if outcome.status == CapacityReserved then Attempted(tx, certificates, true)
      else if outcome.status == RateLimited then Attempted(tx, certificates, false)
      else NoChange;
  }

  lemma AdmitChange(d: Domain, tx: Transaction, logIndex: U64) returns (change: RateChange)
    ensures !change.Attempted?
    ensures var outcome := AdmitStage(d, tx, logIndex);
            && RateChangeIs(d, outcome.domain, change)
            && (outcome.domain.log != d.log && RatekeepingNeeded(d, tx) ==>
                  HoldsReservation(d, tx) && change == Consumed(tx.identity))
  {
    hide RatekeepingNeeded, CommittedConflict, StagedConflict, AppendStaged, MergeSamples;
    change := if AdmitStage(d, tx, logIndex).status == Staged && tx.identity in d.reservations
      then Consumed(tx.identity) else NoChange;
  }

  /** A transaction staged under a limit held a reservation for itself, and uses it up. */
  lemma StageChange(d: Domain, command: StagedCommand, tx: Transaction, logIndex: U64) returns (change: RateChange)
    ensures var outcome := ApplyStage(d, command, tx, logIndex);
            && RateChangeIs(d, outcome.domain, change)
            && (outcome.domain.log != d.log && RatekeepingNeeded(d, tx) ==>
                  HoldsReservation(d, tx) && change == Consumed(tx.identity))
    ensures !change.Attempted?
  {
    hide StageRequestValid, Resolver.Resolve, CandidateInOrder, BlockedByTransition, AdmitStage, MergeSamples;
    var index := Find(d.log.staged, command.transactionIdentity);
    if !StageRequestValid(d, command, tx) || BlockedByTransition(d, tx) || index < |d.log.staged| {
      change := NoChange;
    } else if tx.resolution.None? {
      change := AdmitChange(d, tx, logIndex);
    } else if CandidateInOrder(d, tx, tx.resolution.value)
              && Resolver.Resolve(tx, tx.resolution.value) == Some(Decision.Accept) {
      change := AdmitChange(NoteResolution(d, tx, tx.resolution.value), tx, logIndex);
    } else {
      change := NoChange;
    }
  }

  /** Every command is one of these changes. */
  lemma StepRateChange(d: Domain, entry: Entry) returns (change: RateChange)
    requires PolicyInvariant(d)
    ensures RateChangeIs(d, Step(d, entry), change)
    ensures change.Attempted? ==>
              && entry.StagedEntry?
              && entry.command.action == ReserveCapacity(change.transaction, change.certificates)
    ensures var event := EventOf(d, entry);
            event.Append? && RatekeepingNeeded(d, event.transaction) ==>
              HoldsReservation(d, event.transaction) && change == Consumed(event.transaction.identity)
  {
    hide ApplyDirect, ApplyInstall, ApplyPrepareTransition, ApplyCommitTransition, ApplyReserve, ApplyStage,
      ApplyReceipt, ApplyCertificate, ApplyPublish, ApplyTakeoverPublish, ApplyTakeoverAbort, ApplyRecoverPrefix,
      RecoverableCount, RatekeepingNeeded, HoldsReservation, RateChangeIs, AllDescribed, EvidenceHolds, PoliciesKeyed,
      PendingSound, Find, WindowIndexes;
    change := NoChange;
    if entry.StagedEntry? && ChangesPolicies(entry.command.action) {
      PolicyCommandRates(d, entry);
    } else {
      OtherKeepsPolicies(d, entry);
      if entry.StagedEntry? && entry.command.action.ReserveCapacity? {
        change := ReserveEntryChange(d, entry);
      } else if entry.StagedEntry? && entry.command.action.Stage? {
        change := StageEntryChange(d, entry);
      } else {
        OnlyOrderingKeepsRates(d, Step(d, entry));
      }
    }
  }

  lemma OnlyOrderingKeepsRates(d: Domain, next: Domain)
    requires OnlyOrdering(d, next)
    ensures RateChangeIs(d, next, NoChange)
  {
  }

  lemma ReserveEntryChange(d: Domain, entry: Entry) returns (change: RateChange)
    requires entry.StagedEntry? && entry.command.action.ReserveCapacity?
    ensures RateChangeIs(d, Step(d, entry), change)
    ensures change.Attempted? ==> entry.command.action == ReserveCapacity(change.transaction, change.certificates)
  {
    hide ApplyReserve, RateChangeIs;
    var StagedEntry(logIndex, command, authority) := entry;
    if command.generation == 0 || d.log.generation != command.generation {
      change := NoChange;
      OnlyOrderingKeepsRates(d, d);
    } else {
      change := ReserveChange(d, command, command.action.transaction, command.action.certificates);
    }
  }

  lemma StageEntryChange(d: Domain, entry: Entry) returns (change: RateChange)
    requires entry.StagedEntry? && entry.command.action.Stage?
    ensures RateChangeIs(d, Step(d, entry), change) && !change.Attempted?
    ensures Step(d, entry).log != d.log && RatekeepingNeeded(d, entry.command.action.transaction) ==>
              HoldsReservation(d, entry.command.action.transaction)
              && change == Consumed(entry.command.action.transaction.identity)
  {
    hide ApplyStage, RateChangeIs, RatekeepingNeeded, HoldsReservation;
    var StagedEntry(logIndex, command, authority) := entry;
    if command.generation == 0 || d.log.generation != command.generation {
      change := NoChange;
      OnlyOrderingKeepsRates(d, d);
    } else {
      change := StageChange(d, command, command.action.transaction, logIndex);
    }
  }

  lemma PolicyCommandRates(d: Domain, entry: Entry)
    requires PolicyInvariant(d) && entry.StagedEntry? && ChangesPolicies(entry.command.action)
    ensures RateChangeIs(d, Step(d, entry), NoChange)
  {
    hide ApplyInstall, ApplyPrepareTransition, ApplyCommitTransition, AllDescribed, EvidenceHolds, PoliciesKeyed,
      PendingSound, NothingUnresolved, RateChangeIs;
    var StagedEntry(logIndex, command, authority) := entry;
    var next := Step(d, entry);
    match command.action
    case InstallPolicies(policies) =>
      InstallPolicyEffect(d, command, policies);
      PolicyFieldsKeepRates(d, next);
    case PrepareTransition(transition, readiness) =>
      PreparePolicyEffect(d, command, transition, readiness);
      PolicyFieldsKeepRates(d, next);
    case CommitTransition(id, stage) =>
      CommitPolicyEffect(d, id, stage, logIndex);
      PolicyFieldsKeepRates(d, next);
    case _ =>
  }

  lemma PolicyFieldsKeepRates(d: Domain, next: Domain)
    requires || next == d.(policies := next.policies)
             || next == d.(pending := next.pending, log := next.log)
             || next == d.(
                          pending := next.pending, policies := next.policies, completed := next.completed,
                          log := next.log)
    ensures RateChangeIs(d, next, NoChange)
  {
  }

  // ---- along runs ----

  /** Step `m` of the run granted a reservation for this transaction on this evidence. */
  ghost predicate GrantedAt(t: Trace, m: nat, tx: Transaction, certificates: seq<CapacityCertificate>) {
    && m + 1 < |t.ledgers|
    && m < |t.entries|
    && t.entries[m].StagedEntry?
    && t.entries[m].command.action == ReserveCapacity(tx, certificates)
    && RateChangeIs(t.ledgers[m].domain, t.ledgers[m + 1].domain, Attempted(tx, certificates, true))
  }

  lemma StepKeepsReservation(d: Domain, next: Domain, change: RateChange, identity: Identity)
    requires RateChangeIs(d, next, change) && identity in next.reservations
    ensures || (identity in d.reservations && d.reservations[identity] == next.reservations[identity])
            || (change.Attempted? && change.granted && change.transaction == next.reservations[identity].transaction
                && change.transaction.identity == identity)
  {
    hide CapacityProofValid, RoomEverywhere, MergeSamples, SamplesIn;
  }

  /** Every reservation held was granted by an earlier step for the very transaction it names. */
  lemma {:induction false} ReservationWasGranted(t: Trace, n: nat, identity: Identity)
    returns (m: nat, certificates: seq<CapacityCertificate>)
    requires IsRun(t)
    requires n < |t.ledgers| && identity in t.ledgers[n].domain.reservations
    ensures m < n && GrantedAt(t, m, t.ledgers[n].domain.reservations[identity].transaction, certificates)
    decreases n
  {
    hide IsRun, Step, EventOf, PolicyInvariant, RateChangeIs, RatekeepingNeeded, HoldsReservation;
    RunStartsFresh(t);
    if n == 0 {
      assert false;
    } else {
      var d, next := t.ledgers[n - 1].domain, t.ledgers[n].domain;
      RunStep(t, n - 1);
      RunsKeepPolicyInvariant(t, n - 1);
      var change := StepRateChange(d, t.entries[n - 1]);
      StepKeepsReservation(d, next, change, identity);
      if change.Attempted? && change.granted && change.transaction == next.reservations[identity].transaction {
        m, certificates := n - 1, change.certificates;
      } else {
        m, certificates := ReservationWasGranted(t, n - 1, identity);
      }
    }
  }

  /**
  Rate keeping. In every run, a transaction staged while a soft limit covers one of its log sets uses up
  a reservation that an earlier step granted for the identical transaction, and at that step a quorum of
  different members of each limited log set had vouched that it fits.
  */
  lemma StagedUnderLimitHadRoom(t: Trace, n: nat) returns (m: nat, certificates: seq<CapacityCertificate>)
    requires IsRun(t)
    requires n < |t.entries| && EventOf(t.ledgers[n].domain, t.entries[n]).Append?
    requires var tx := EventOf(t.ledgers[n].domain, t.entries[n]).transaction;
             RatekeepingNeeded(t.ledgers[n].domain, tx)
    ensures var tx := EventOf(t.ledgers[n].domain, t.entries[n]).transaction;
            && m < n
            && GrantedAt(t, m, tx, certificates)
            && tx.identity !in t.ledgers[n + 1].domain.reservations
            && forall logSet :: logSet in tx.logTags && Limited(t.ledgers[m].domain.policies, logSet) ==>
                 exists signers :: RoomVouched(t.ledgers[m].domain.policies[logSet], tx, certificates, signers)
  {
    hide IsRun, Step, EventOf, PolicyInvariant, RatekeepingNeeded, CapacityProofValid, RoomEverywhere, MergeSamples,
      RoomVouched, SamplesIn;
    RunStep(t, n);
    var d, tx := t.ledgers[n].domain, EventOf(t.ledgers[n].domain, t.entries[n]).transaction;
    RunsKeepPolicyInvariant(t, n);
    var change := StepRateChange(d, t.entries[n]);
    m, certificates := ReservationWasGranted(t, n, tx.identity);
    RunsKeepPolicyInvariant(t, m);
    forall logSet | logSet in tx.logTags && Limited(t.ledgers[m].domain.policies, logSet)
      ensures exists signers :: RoomVouched(t.ledgers[m].domain.policies[logSet], tx, certificates, signers)
    {
      InvariantKeysPolicies(t.ledgers[m].domain);
      var signers := GrantedReservationHasRoom(t.ledgers[m].domain, tx, certificates, logSet);
    }
  }

  lemma InvariantKeysPolicies(d: Domain)
    requires PolicyInvariant(d)
    ensures PoliciesKeyed(d.policies)
  {
    hide AllDescribed, EvidenceHolds, PoliciesKeyed, PendingSound;
  }

  // ---- epochs ----

  function AttemptEpoch(d: Domain, identity: Identity): U64 {
    EpochOf(d.attemptEpochs, identity)
  }

  function SampleEpoch(d: Domain, logSet: U16, signer: U64): U64 {
    EpochOf(SamplesOf(d.sampleEpochs, logSet), signer)
  }

  lemma ChangeRaisesEpochs(d: Domain, next: Domain, change: RateChange, identity: Identity, logSet: U16, signer: U64)
    requires RateChangeIs(d, next, change)
    ensures AttemptEpoch(d, identity) <= AttemptEpoch(next, identity)
    ensures change.Attempted? && change.transaction.identity == identity ==>
              AttemptEpoch(d, identity) < AttemptEpoch(next, identity) == ReservationEpoch(change.certificates)
    ensures SampleEpoch(d, logSet, signer) <= SampleEpoch(next, logSet, signer)
  {
    hide LimitedSets, Distinct, CapacityEvidenceValid, RoomEverywhere, SamplesIn;
  }

  /** Along every run, attempt epochs and consumed sample epochs never decrease. */
  lemma {:induction false} EpochsNeverDecrease(t: Trace, i: nat, j: nat, identity: Identity, logSet: U16, signer: U64)
    requires IsRun(t)
    requires i <= j < |t.ledgers|
    ensures AttemptEpoch(t.ledgers[i].domain, identity) <= AttemptEpoch(t.ledgers[j].domain, identity)
    ensures SampleEpoch(t.ledgers[i].domain, logSet, signer) <= SampleEpoch(t.ledgers[j].domain, logSet, signer)
    decreases j
  {
    hide IsRun, Step, EventOf, PolicyInvariant, RateChangeIs, RatekeepingNeeded, HoldsReservation, AttemptEpoch,
      SampleEpoch;
    if i < j {
      EpochsNeverDecrease(t, i, j - 1, identity, logSet, signer);
      RunStartsFresh(t);
      RunStep(t, j - 1);
      RunsKeepPolicyInvariant(t, j - 1);
      var change := StepRateChange(t.ledgers[j - 1].domain, t.entries[j - 1]);
      ChangeRaisesEpochs(t.ledgers[j - 1].domain, t.ledgers[j].domain, change, identity, logSet, signer);
    }
  }

  /** Step `i` made an attempt for this identity with valid certificates, granted or not. */
  ghost predicate AttemptAt(t: Trace, i: nat, identity: Identity, epoch: U64) {
    && i + 1 < |t.ledgers|
    && exists change: RateChange ::
         && RateChangeIs(t.ledgers[i].domain, t.ledgers[i + 1].domain, change)
         && change.Attempted?
         && change.transaction.identity == identity
         && ReservationEpoch(change.certificates) == epoch
  }

  /** A later attempt for the same identity carries a strictly higher reservation epoch. */
  lemma AttemptEpochsIncrease(t: Trace, i: nat, j: nat, identity: Identity, earlier: U64, later: U64)
    requires IsRun(t)
    requires i < j && AttemptAt(t, i, identity, earlier) && AttemptAt(t, j, identity, later)
    ensures earlier < later
  {
    hide IsRun, RateChangeIs, AttemptEpoch, SampleEpoch, ReservationEpoch;
    var first: RateChange :|
      && RateChangeIs(t.ledgers[i].domain, t.ledgers[i + 1].domain, first)
      && first.Attempted?
      && first.transaction.identity == identity
      && ReservationEpoch(first.certificates) == earlier;
    var second: RateChange :|
      && RateChangeIs(t.ledgers[j].domain, t.ledgers[j + 1].domain, second)
      && second.Attempted?
      && second.transaction.identity == identity
      && ReservationEpoch(second.certificates) == later;
    ChangeRaisesEpochs(t.ledgers[i].domain, t.ledgers[i + 1].domain, first, identity, 0, 0);
    ChangeRaisesEpochs(t.ledgers[j].domain, t.ledgers[j + 1].domain, second, identity, 0, 0);
    EpochsNeverDecrease(t, i + 1, j, identity, 0, 0);
  }
}
