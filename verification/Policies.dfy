/**
Log-set policies along every run: what is installed is valid, evidence on unresolved records always
verifies against it, and a prepared change of a required log set freezes the domain.
*/
module Policies {
  import opened Keys
  import opened Types
  import opened Sets
  import opened Quorum
  import opened Certificates
  import opened Ordering
  import opened Domain
  import opened Events
  import opened Runs
  import opened Ledgers
  import Resolver
  import Generation

  // ---- records describe themselves ----

  /** The envelope names the domain, and its record's identity, sequence, generation and tags. */
  predicate Described(record: StagedTransaction, cell: Bytes, tenant: Bytes) {
    && record.identity == record.transaction.identity
    && record.envelope.cell == cell
    && record.envelope.tenant == tenant
    && record.envelope.identity == record.identity
    && record.envelope.versionSequence == record.sequence
    && record.envelope.generation == record.transaction.generation
    && record.envelope.requiredLogTags == record.transaction.logTags
  }

  predicate AllDescribed(d: Domain) {
    forall i :: 0 <= i < |d.log.staged| ==> Described(d.log.staged[i], d.cell, d.tenant)
  }

  // ---- evidence ----

  /** What a recorded certificate proves under a policy. */
  predicate CertificateSound(policy: LogSetPolicy, record: StagedTransaction, logSet: U16, cell: Bytes, tenant: Bytes)
    requires logSet in record.certificates
  {
    && record.certificates[logSet].statement.logSet == logSet
    && CertificateValid(record.certificates[logSet], policy, record, cell, tenant, record.envelope.generation)
  }

  /** What a recorded receipt proves: two different nodes hold the record at a position. */
  predicate ReceiptSound(record: StagedTransaction, logSet: U16)
    requires logSet in record.receipts
  {
    var receipt := record.receipts[logSet];
    && receipt.logSet == logSet
    && receipt.envelopeDigest == EnvelopeDigest(record.envelope)
    && receipt.durablePosition != 0
    && |receipt.quorumNodes| >= 2
    && Distinct(receipt.quorumNodes)
  }

  /** Certificates verify under the installed policies; receipts stand in where no policy is installed. */
  predicate RecordEvidence(policies: map<U16, LogSetPolicy>, record: StagedTransaction, cell: Bytes, tenant: Bytes) {
    && (forall logSet :: logSet in record.certificates ==>
          logSet in policies && CertificateSound(policies[logSet], record, logSet, cell, tenant))
    && (forall logSet :: logSet in record.receipts ==> logSet !in policies && ReceiptSound(record, logSet))
  }

  predicate EvidenceHolds(d: Domain) {
    forall i :: 0 <= i < |d.log.staged| && Unresolved(d.log.staged[i]) ==>
      RecordEvidence(d.policies, d.log.staged[i], d.cell, d.tenant)
  }

  // ---- installed and pending policies ----

  predicate PoliciesKeyed(policies: map<U16, LogSetPolicy>) {
    forall logSet :: logSet in policies ==>
      policies[logSet].logSet == logSet && ValidPolicy(policies[logSet], policies[logSet].generation)
  }

  /** One member exchanged, epoch advanced, everything else about the log set kept. */
  predicate OneStep(transition: LogSetTransition) {
    && transition.oldPolicy.logSet == transition.logSet
    && transition.oldPolicy.generation == transition.generation
    && ValidPolicy(transition.nextPolicy, transition.generation)
    && SucceedsPolicy(transition.nextPolicy, transition.oldPolicy)
    && SwapsOneMember(transition)
  }

  predicate PendingSound(d: Domain) {
    d.pending.Some? ==> OneStep(d.pending.value)
  }

  predicate PolicyInvariant(d: Domain) {
    && AllDescribed(d)
    && EvidenceHolds(d)
    && PoliciesKeyed(d.policies)
    && PendingSound(d)
  }

  // ---- staged records under one event ----

  /** Whatever is still unresolved is untouched; whatever is new has no evidence yet. */
  predicate LeavesUnresolved(before: seq<StagedTransaction>, after: seq<StagedTransaction>) {
    && |before| <= |after|
    && (forall i :: 0 <= i < |before| && Unresolved(after[i]) ==> after[i] == before[i])
    && (forall i :: |before| <= i < |after| ==> after[i].certificates == map[] && after[i].receipts == map[])
  }

  lemma {:induction false} DisposeLeavesUnresolved(log: CommitLog, indexes: seq<nat>, count: nat, generation: U64)
    requires InRange(log.staged, indexes)
    ensures LeavesUnresolved(log.staged, Dispose(log, indexes, count, generation).staged)
    decreases |indexes|
  {
    hide ApplyMutations, WritesAt;
    if indexes != [] {
      DisposeLeavesUnresolved(log, indexes[..|indexes| - 1], count, generation);
    }
  }

  lemma EventLeavesUnresolved(log: CommitLog, event: Event)
    requires Enabled(log, event) && !event.Evidence?
    ensures LeavesUnresolved(log.staged, Happen(log, event).staged)
  {
    hide ApplyMutations, WritesAt, ValidRequest, CommittedConflict, StagedConflict, UnresolvedIndexes, UnresolvedCount,
      NothingUnresolved, Dispose, EarlierPending, MakeEnvelope;
    if event.RecoverOver? {
      DisposeLeavesUnresolved(log, event.indexes, event.count, event.generation);
    }
  }

  lemma EvidenceIsKept(d: Domain, next: Domain)
    requires EvidenceHolds(d) && LeavesUnresolved(d.log.staged, next.log.staged)
    requires next.policies == d.policies && next.cell == d.cell && next.tenant == d.tenant
    ensures EvidenceHolds(next)
  {
    hide CertificateSound, ReceiptSound;
  }

  // ---- what each command does to the policies ----

  /** Policies and pending transition move only while nothing is unresolved, and only in these ways. */
  lemma InstallPolicyEffect(d: Domain, command: StagedCommand, policies: seq<LogSetPolicy>)
    requires PoliciesKeyed(d.policies)
    ensures var next := ApplyInstall(d, command, policies).domain;
            && next == d.(policies := next.policies)
            && PoliciesKeyed(next.policies)
            && (next.policies != d.policies ==> NothingUnresolved(d.log.staged))
  {
    hide NothingUnresolved, ValidPolicy;
    var next := ApplyInstall(d, command, policies).domain;
    if next != d {
      InstallAllKeyed(d.policies, policies, command.generation);
    }
  }

  lemma {:induction false} InstallAllKeyed(
    installed: map<U16, LogSetPolicy>, policies: seq<LogSetPolicy>, generation: U64)
    requires PoliciesKeyed(installed)
    requires forall i :: 0 <= i < |policies| ==> ValidPolicy(policies[i], generation)
    ensures PoliciesKeyed(InstallAll(installed, policies))
  {
    if policies != [] {
      var n := |policies| - 1;
      InstallAllKeyed(installed, policies[..n], generation);
      assert ValidPolicy(policies[n], policies[n].generation);
      hide ValidPolicy;
    }
  }

  lemma PreparePolicyEffect(
    d: Domain, command: StagedCommand, transition: LogSetTransition, readiness: RepairCertificate)
    requires PoliciesKeyed(d.policies) && PendingSound(d)
    ensures var next := ApplyPrepareTransition(d, command, transition, readiness).domain;
            && PendingSound(next)
            && next == d.(pending := next.pending, log := next.log)
            && next.log.staged == d.log.staged
            && (next != d ==>
                  && d.pending.None?
                  && next.pending == Some(transition)
                  && NothingUnresolved(d.log.staged)
                  && transition.logSet in d.policies
                  && transition.oldPolicy == d.policies[transition.logSet]
                  && transition.generation == command.generation)
  {
    hide NothingUnresolved, ValidPolicy, SwapsOneMember, QuorumVoted;
  }

  lemma CommitPolicyEffect(d: Domain, id: U64, stage: PolicyStageCertificate, logIndex: U64)
    requires PoliciesKeyed(d.policies) && PendingSound(d)
    ensures var next := ApplyCommitTransition(d, id, stage, logIndex).domain;
            && PendingSound(next)
            && PoliciesKeyed(next.policies)
            && next == d.(
                         pending := next.pending, policies := next.policies, completed := next.completed,
                         log := next.log)
            && next.log.staged == d.log.staged
            && (next != d ==>
                  && d.pending.Some?
                  && next.pending.None?
                  && NothingUnresolved(d.log.staged)
                  && next.policies == d.policies[d.pending.value.logSet := d.pending.value.nextPolicy])
  {
    hide NothingUnresolved, SwapsOneMember, PolicyStageCertificateValid, PolicyStageIdentity;
    if d.pending.Some? {
      PolicyStaysKeyed(d.policies, d.pending.value.logSet, d.pending.value.nextPolicy);
      hide ValidPolicy, PoliciesKeyed;
    }
  }

  lemma PolicyStaysKeyed(policies: map<U16, LogSetPolicy>, logSet: U16, policy: LogSetPolicy)
    requires PoliciesKeyed(policies)
    ensures policy.logSet == logSet && ValidPolicy(policy, policy.generation) ==>
              PoliciesKeyed(policies[logSet := policy])
  {
    hide ValidPolicy;
  }

  predicate SamePolicies(d: Domain, next: Domain) {
    next == d.(log := next.log, lastResolverCandidate := next.lastResolverCandidate,
               lastResolverGeneration := next.lastResolverGeneration, reservations := next.reservations,
               attemptEpochs := next.attemptEpochs, sampleEpochs := next.sampleEpochs)
  }

  /** Only the ordering core and the resolver order moved. */
  predicate OnlyOrdering(d: Domain, next: Domain) {
    next == d.(log := next.log, lastResolverCandidate := next.lastResolverCandidate,
               lastResolverGeneration := next.lastResolverGeneration)
  }

  predicate ChangesPolicies(action: StagedAction) {
    action.InstallPolicies? || action.PrepareTransition? || action.CommitTransition?
  }

  lemma DirectOnlyOrders(d: Domain, tx: Transaction, logIndex: U64)
    ensures OnlyOrdering(d, ApplyDirect(d, tx, logIndex).domain)
  {
    hide ValidRequest, CommittedConflict, Resolver.Resolve, CandidateInOrder, CommitDirectly, ContainsAll;
  }

  lemma ReserveKeepsPolicies(d: Domain, command: StagedCommand, tx: Transaction, certificates: seq<CapacityCertificate>)
    ensures SamePolicies(d, ApplyReserve(d, command, tx, certificates).domain)
  {
    hide ReserveRequestValid, BlockedByTransition, CapacityProofValid, RoomEverywhere, SamplesIn;
  }

  lemma AdmitKeepsPolicies(d: Domain, tx: Transaction, logIndex: U64)
    ensures SamePolicies(d, AdmitStage(d, tx, logIndex).domain)
  {
    hide RatekeepingNeeded, HoldsReservation, CommittedConflict, StagedConflict, AppendStaged, MergeSamples;
  }

  lemma StageKeepsPolicies(d: Domain, command: StagedCommand, tx: Transaction, logIndex: U64)
    ensures SamePolicies(d, ApplyStage(d, command, tx, logIndex).domain)
  {
    hide StageRequestValid, Resolver.Resolve, CandidateInOrder, BlockedByTransition, AdmitStage;
    AdmitKeepsPolicies(d, tx, logIndex);
    if tx.resolution.Some? {
      AdmitKeepsPolicies(NoteResolution(d, tx, tx.resolution.value), tx, logIndex);
    }
  }

  lemma ReceiptOnlyOrders(d: Domain, command: StagedCommand, receipt: Receipt)
    ensures OnlyOrdering(d, ApplyReceipt(d, command, receipt).domain)
  {
    hide ReceiptValid;
  }

  lemma CertificateOnlyOrders(d: Domain, command: StagedCommand, certificate: TaggedLogCertificate)
    ensures OnlyOrdering(d, ApplyCertificate(d, command, certificate).domain)
  {
    hide CertificateValid;
  }

  lemma PublishOnlyOrders(d: Domain, command: StagedCommand)
    ensures OnlyOrdering(d, ApplyPublish(d, command).domain)
  {
    hide DurableEverywhere, EarlierPending, Publish;
  }

  lemma TakeoverOnlyOrders(d: Domain, command: StagedCommand, authority: Generation.Authority)
    ensures command.action.TakeoverPublish? ==> OnlyOrdering(d, ApplyTakeoverPublish(d, command, authority).domain)
    ensures command.action.TakeoverAbort? ==> OnlyOrdering(d, ApplyTakeoverAbort(d, command, authority).domain)
  {
    hide SuccessorAuthorized, TakeoverMatches, Certified, AbortProofValid, Publish, Abort;
  }

  lemma RecoverOnlyOrders(d: Domain, command: StagedCommand, authority: Generation.Authority)
    requires command.action.TakeoverRecoverPrefix?
    ensures OnlyOrdering(d, ApplyRecoverPrefix(d, command, authority).domain)
  {
    hide PrefixRequestValid, InventoriesValid, RecoverableCount, Dispose, CountVisible, CountAborted;
  }

  /** Only the three policy commands touch the policies. */
  lemma OtherKeepsPolicies(d: Domain, entry: Entry)
    requires entry.StagedEntry? ==> !ChangesPolicies(entry.command.action)
    ensures SamePolicies(d, Step(d, entry))
    ensures entry.DirectEntry? || (!entry.command.action.ReserveCapacity? && !entry.command.action.Stage?) ==>
              OnlyOrdering(d, Step(d, entry))
  {
    hide ApplyDirect, ApplyReserve, ApplyStage, ApplyReceipt, ApplyCertificate, ApplyPublish, ApplyTakeoverPublish,
      ApplyTakeoverAbort, ApplyRecoverPrefix;
    match entry
    case DirectEntry(logIndex, tx) => DirectOnlyOrders(d, tx, logIndex);
    case StagedEntry(logIndex, command, authority) =>
      TakeoverOnlyOrders(d, command, authority);
      PublishOnlyOrders(d, command);
      match command.action
      case ReserveCapacity(tx, certificates) => ReserveKeepsPolicies(d, command, tx, certificates);
      case Stage(tx) => StageKeepsPolicies(d, command, tx, logIndex);
      case RecordReceipt(receipt) => ReceiptOnlyOrders(d, command, receipt);
      case RecordCertificate(certificate) => CertificateOnlyOrders(d, command, certificate);
      case TakeoverRecoverPrefix(_, _, _, _) => RecoverOnlyOrders(d, command, authority);
      case _ =>
  }

  // ---- recording evidence ----

  lemma ReceiptKeepsEvidence(d: Domain, command: StagedCommand, receipt: Receipt)
    requires EvidenceHolds(d) && AllDescribed(d)
    ensures EvidenceHolds(ApplyReceipt(d, command, receipt).domain)
  {
    hide CertificateSound;
    var i := Find(d.log.staged, command.transactionIdentity);
    var next := ApplyReceipt(d, command, receipt).domain;
    if next != d {
      forall j | 0 <= j < |next.log.staged| && Unresolved(next.log.staged[j])
        ensures RecordEvidence(next.policies, next.log.staged[j], next.cell, next.tenant)
      {
        assert RecordEvidence(d.policies, d.log.staged[j], d.cell, d.tenant);
        if j == i {
          ReceiptExtends(d.policies, d.log.staged[i], d.cell, d.tenant, receipt);
        }
      }
    }
  }

  lemma ReceiptExtends(
    policies: map<U16, LogSetPolicy>, record: StagedTransaction, cell: Bytes, tenant: Bytes, receipt: Receipt)
    requires RecordEvidence(policies, record, cell, tenant) && receipt.logSet !in policies
    requires receipt.envelopeDigest == EnvelopeDigest(record.envelope) && receipt.durablePosition != 0
    requires |receipt.quorumNodes| >= 2 && Distinct(receipt.quorumNodes)
    ensures RecordEvidence(policies, record.(receipts := record.receipts[receipt.logSet := receipt]), cell, tenant)
  {
    hide EnvelopeCertificateValid;
    var next := record.(receipts := record.receipts[receipt.logSet := receipt]);
    forall logSet | logSet in next.certificates
      ensures logSet in policies && CertificateSound(policies[logSet], next, logSet, cell, tenant)
    {
      assert CertificateSound(policies[logSet], record, logSet, cell, tenant);
    }
  }

  lemma CertificateKeepsEvidence(d: Domain, command: StagedCommand, certificate: TaggedLogCertificate)
    requires EvidenceHolds(d) && AllDescribed(d)
    ensures EvidenceHolds(ApplyCertificate(d, command, certificate).domain)
  {
    hide CertificateSound, EnvelopeCertificateValid;
    var i := Find(d.log.staged, command.transactionIdentity);
    var next := ApplyCertificate(d, command, certificate).domain;
    if next != d {
      var record := d.log.staged[i];
      forall j | 0 <= j < |next.log.staged| && Unresolved(next.log.staged[j])
        ensures RecordEvidence(next.policies, next.log.staged[j], next.cell, next.tenant)
      {
        assert RecordEvidence(d.policies, d.log.staged[j], d.cell, d.tenant);
        if j == i {
          CertificateExtends(d.policies, record, d.cell, d.tenant, certificate, command.generation);
        }
      }
    }
  }

  lemma CertificateExtends(
    policies: map<U16, LogSetPolicy>, record: StagedTransaction, cell: Bytes, tenant: Bytes,
    certificate: TaggedLogCertificate, generation: U64)
    requires RecordEvidence(policies, record, cell, tenant)
    requires certificate.statement.logSet in policies
    requires CertificateValid(certificate, policies[certificate.statement.logSet], record, cell, tenant, generation)
    ensures var logSet := certificate.statement.logSet;
            RecordEvidence(policies, record.(certificates := record.certificates[logSet := certificate]), cell, tenant)
  {
    var added := certificate.statement.logSet;
    var next := record.(certificates := record.certificates[added := certificate]);
    assert certificate.statement.generation == record.envelope.generation by {
      hide QuorumVoted, Decodes;
    }
    hide EnvelopeCertificateValid;
    forall logSet | logSet in next.certificates
      ensures logSet in policies && CertificateSound(policies[logSet], next, logSet, cell, tenant)
    {
      if logSet != added {
        assert CertificateSound(policies[logSet], record, logSet, cell, tenant);
      }
    }
    forall logSet | logSet in next.receipts
      ensures logSet !in policies && ReceiptSound(next, logSet)
    {
      assert ReceiptSound(record, logSet);
    }
  }

  // ---- every command ----

  /** A transaction that gets staged names this domain. */
  lemma StageNamesDomain(d: Domain, command: StagedCommand, tx: Transaction, logIndex: U64)
    ensures ApplyStage(d, command, tx, logIndex).domain.log != d.log ==> tx.cell == d.cell && tx.tenant == d.tenant
  {
    hide ValidRequest, ContainsAll, ConfiguredCount, Resolver.Resolve, CandidateInOrder, BlockedByTransition,
      AdmitStage;
  }

  lemma AppendedNamesDomain(d: Domain, entry: Entry)
    ensures var event := EventOf(d, entry);
            event.Append? ==> event.transaction.cell == d.cell && event.transaction.tenant == d.tenant
  {
    hide ApplyDirect, ApplyInstall, ApplyPrepareTransition, ApplyCommitTransition, ApplyReserve, ApplyStage,
      ApplyReceipt, ApplyCertificate, ApplyPublish, ApplyTakeoverPublish, ApplyTakeoverAbort, ApplyRecoverPrefix,
      RecoverableCount;
    if entry.StagedEntry? && entry.command.action.Stage? {
      StageNamesDomain(d, entry.command, entry.command.action.transaction, entry.logIndex);
    }
  }

  lemma EventKeepsDescribed(d: Domain, next: Domain, event: Event)
    requires AllDescribed(d) && Enabled(d.log, event) && next.log == Happen(d.log, event)
    requires next.cell == d.cell && next.tenant == d.tenant
    requires event.Append? ==> event.transaction.cell == d.cell && event.transaction.tenant == d.tenant
    ensures AllDescribed(next)
  {
    hide ChainTip, ValidRequest, CommittedConflict, StagedConflict, Publish, Dispose, UnresolvedIndexes,
      UnresolvedCount, NothingUnresolved, EarlierPending;
    EventAdvances(d.log, event);
    if !event.Append? {
      EventKeepsLength(d.log, event);
    }
  }

  lemma EventKeepsLength(log: CommitLog, event: Event)
    requires Enabled(log, event) && !event.Append?
    ensures |Happen(log, event).staged| == |log.staged|
  {
    hide ValidRequest, CommittedConflict, ApplyMutations, WritesAt, UnresolvedIndexes, UnresolvedCount,
      NothingUnresolved, EarlierPending;
  }

  /** Names and staged records stay, and policies change validly and only while nothing is unresolved. */
  predicate PolicyMove(d: Domain, next: Domain) {
    && PoliciesKeyed(next.policies)
    && PendingSound(next)
    && next.cell == d.cell
    && next.tenant == d.tenant
    && next.log.staged == d.log.staged
    && (next.policies != d.policies ==> NothingUnresolved(d.log.staged))
  }

  lemma InstallMove(d: Domain, command: StagedCommand, policies: seq<LogSetPolicy>)
    requires PoliciesKeyed(d.policies) && PendingSound(d)
    ensures PolicyMove(d, ApplyInstall(d, command, policies).domain)
  {
    hide ApplyInstall, PendingSound, PoliciesKeyed, NothingUnresolved;
    InstallPolicyEffect(d, command, policies);
    PendingKept(d, command, policies);
  }

  lemma PrepareMove(d: Domain, command: StagedCommand, transition: LogSetTransition, readiness: RepairCertificate)
    requires PoliciesKeyed(d.policies) && PendingSound(d)
    ensures PolicyMove(d, ApplyPrepareTransition(d, command, transition, readiness).domain)
  {
    hide ApplyPrepareTransition, PendingSound, PoliciesKeyed, NothingUnresolved;
    PreparePolicyEffect(d, command, transition, readiness);
  }

  lemma FinishMove(d: Domain, id: U64, stage: PolicyStageCertificate, logIndex: U64)
    requires PoliciesKeyed(d.policies) && PendingSound(d)
    ensures PolicyMove(d, ApplyCommitTransition(d, id, stage, logIndex).domain)
  {
    hide ApplyCommitTransition, PendingSound, PoliciesKeyed, NothingUnresolved;
    CommitPolicyEffect(d, id, stage, logIndex);
  }

  lemma NoMove(d: Domain)
    requires PoliciesKeyed(d.policies) && PendingSound(d)
    ensures PolicyMove(d, d)
  {
    hide PendingSound, PoliciesKeyed, NothingUnresolved;
  }

  lemma PolicyCommandEffect(d: Domain, entry: Entry)
    requires PoliciesKeyed(d.policies) && PendingSound(d)
    requires entry.StagedEntry? && ChangesPolicies(entry.command.action)
    ensures PolicyMove(d, Step(d, entry))
  {
    hide ApplyInstall, ApplyPrepareTransition, ApplyCommitTransition, PendingSound, PoliciesKeyed, PolicyMove;
    var StagedEntry(logIndex, command, authority) := entry;
    NoMove(d);
    match command.action
    case InstallPolicies(policies) => InstallMove(d, command, policies);
    case PrepareTransition(transition, readiness) => PrepareMove(d, command, transition, readiness);
    case CommitTransition(id, stage) => FinishMove(d, id, stage, logIndex);
    case _ =>
  }

  lemma PendingKept(d: Domain, command: StagedCommand, policies: seq<LogSetPolicy>)
    requires PendingSound(d)
    ensures PendingSound(ApplyInstall(d, command, policies).domain)
  {
    hide OneStep, Installable, InstallAll, NothingUnresolved;
  }

  lemma OtherKeepsEvidence(d: Domain, entry: Entry)
    requires EvidenceHolds(d) && AllDescribed(d)
    requires entry.StagedEntry? ==> !ChangesPolicies(entry.command.action)
    ensures EvidenceHolds(Step(d, entry))
  {
    hide ApplyDirect, ApplyReserve, ApplyStage, ApplyReceipt, ApplyCertificate, ApplyPublish, ApplyTakeoverPublish,
      ApplyTakeoverAbort, ApplyRecoverPrefix, EvidenceHolds, AllDescribed, Enabled, Happen, LeavesUnresolved,
      RecoverableCount, WindowIndexes;
    OtherKeepsPolicies(d, entry);
    StepIsEvent(d, entry);
    var event := EventOf(d, entry);
    if entry.StagedEntry? && entry.command.action.RecordReceipt? {
      ReceiptKeepsEvidence(d, entry.command, entry.command.action.receipt);
    } else if entry.StagedEntry? && entry.command.action.RecordCertificate? {
      CertificateKeepsEvidence(d, entry.command, entry.command.action.certificate);
    } else {
      EventLeavesUnresolved(d.log, event);
      EvidenceIsKept(d, Step(d, entry));
    }
  }

  /** Every command keeps the policy invariant. */
  lemma StepKeepsPolicyInvariant(d: Domain, entry: Entry)
    requires PolicyInvariant(d)
    ensures PolicyInvariant(Step(d, entry))
  {
    hide Step, EventOf, Enabled, Happen, EvidenceHolds, AllDescribed, PoliciesKeyed, PendingSound, NothingUnresolved;
    var next, event := Step(d, entry), EventOf(d, entry);
    StepIsEvent(d, entry);
    AppendedNamesDomain(d, entry);
    if entry.StagedEntry? && ChangesPolicies(entry.command.action) {
      PolicyCommandEffect(d, entry);
      EventKeepsDescribed(d, next, event);
      PolicyChangeKeepsEvidence(d, next);
    } else {
      OtherKeepsPolicies(d, entry);
      OtherKeepsEvidence(d, entry);
      EventKeepsDescribed(d, next, event);
      SamePending(d, next);
    }
  }

  lemma SamePending(d: Domain, next: Domain)
    requires SamePolicies(d, next) && PendingSound(d)
    ensures PendingSound(next)
  {
    hide OneStep;
  }

  lemma PolicyChangeKeepsEvidence(d: Domain, next: Domain)
    requires EvidenceHolds(d) && next.log.staged == d.log.staged && next.cell == d.cell && next.tenant == d.tenant
    requires next.policies != d.policies ==> NothingUnresolved(d.log.staged)
    ensures EvidenceHolds(next)
  {
    hide RecordEvidence;
  }

  /** Policy stability: in every run, at every point, all evidence on unresolved records verifies as installed. */
  lemma {:induction false} RunsKeepPolicyInvariant(t: Trace, i: nat)
    requires IsRun(t)
    requires i < |t.ledgers|
    ensures PolicyInvariant(t.ledgers[i].domain)
    decreases i
  {
    hide IsRun, Step, PolicyInvariant, Fresh;
    RunStartsFresh(t);
    if i == 0 {
      FreshPolicies(t.ledgers[0].domain);
    } else {
      RunsKeepPolicyInvariant(t, i - 1);
      RunStep(t, i - 1);
      StepKeepsPolicyInvariant(t.ledgers[i - 1].domain, t.entries[i - 1]);
    }
  }

  lemma FreshPolicies(d: Domain)
    requires d == Fresh(d.cell, d.tenant, d.log.generation)
    ensures PolicyInvariant(d)
  {
  }

  // ---- what publication rests on ----

  /** A quorum of different members of the policy signed the record as durable. */
  predicate QuorumSigned(policy: LogSetPolicy, record: StagedTransaction, certificate: TaggedLogCertificate) {
    var message, keys := DurableMessage(certificate.statement), MemberMap(policy.members);
    var signers := Signers(AttestationVotes(certificate.attestations, message));
    && certificate.statement.logSet == policy.logSet
    && certificate.statement.policyEpoch == policy.epoch
    && certificate.statement.envelopeDigest == EnvelopeDigest(record.envelope)
    && signers <= keys.Keys
    && |signers| >= policy.quorum
    && forall node :: node in signers ==> Attestation(node, Signature(keys[node], message)) in certificate.attestations
  }

  lemma ValidCertificateIsSigned(policy: LogSetPolicy, record: StagedTransaction, certificate: TaggedLogCertificate)
    requires EnvelopeCertificateValid(certificate, policy, record.envelope)
    ensures QuorumSigned(policy, record, certificate)
  {
    hide Decodes, MemberMap, NodeIds;
    var message, keys := DurableMessage(certificate.statement), MemberMap(policy.members);
    var votes := AttestationVotes(certificate.attestations, message);
    QuorumMeansMembers(votes, keys, policy.quorum);
    forall node | node in Signers(votes)
      ensures Attestation(node, Signature(keys[node], message)) in certificate.attestations
    {
      var i :| 0 <= i < |votes| && votes[i].signer == node && Admissible(votes[i], keys);
      assert certificate.attestations[i] == Attestation(node, Signature(keys[node], message));
    }
  }

  predicate Durable(d: Domain, record: StagedTransaction, logSet: U16) {
    if logSet in d.policies
    then logSet in record.certificates && QuorumSigned(d.policies[logSet], record, record.certificates[logSet])
    else logSet in record.receipts && ReceiptSound(record, logSet)
  }

  lemma EvidenceIsDurable(d: Domain, record: StagedTransaction, logSet: U16)
    requires RecordEvidence(d.policies, record, d.cell, d.tenant)
    requires if logSet in d.policies then logSet in record.certificates else logSet in record.receipts
    ensures Durable(d, record, logSet)
  {
    hide EnvelopeCertificateValid, QuorumSigned;
    if logSet in d.policies {
      assert CertificateSound(d.policies[logSet], record, logSet, d.cell, d.tenant);
      ValidCertificateIsSigned(d.policies[logSet], record, record.certificates[logSet]);
    }
  }

  /** What a publishing command checked about the record it made visible. */
  lemma PublicationChecks(d: Domain, command: StagedCommand, authority: Generation.Authority)
    ensures var i := Find(d.log.staged, command.transactionIdentity);
            command.action.PublishStaged? && ApplyPublish(d, command).status == StagedCommitted ==>
              i < |d.log.staged| && DurableEverywhere(d.policies, d.log.staged[i])
    ensures var i := Find(d.log.staged, command.transactionIdentity);
            command.action.TakeoverPublish? && ApplyTakeoverPublish(d, command, authority).status == StagedCommitted ==>
              i < |d.log.staged| && Certified(d.log.staged[i])
  {
    hide DurableEverywhere, EarlierPending, Publish, SuccessorAuthorized, TakeoverMatches, Certified;
  }

  /**
  In every run, whatever a publish or a publishing takeover makes visible has, for each of its log sets,
  a quorum of different members of the installed policy, or a receipt of two nodes where none is installed.
  */
  lemma PublishedRecordsAreDurable(t: Trace, n: nat, logSet: U16)
    requires IsRun(t)
    requires n < |t.entries| && t.entries[n].StagedEntry?
    requires var action := t.entries[n].command.action; action.PublishStaged? || action.TakeoverPublish?
    requires var entry := t.entries[n];
             ApplyStaged(t.ledgers[n].domain, entry.command, entry.logIndex, entry.authority).status == StagedCommitted
    ensures var d := t.ledgers[n].domain;
            var i := Find(d.log.staged, t.entries[n].command.transactionIdentity);
            && i < |d.log.staged|
            && (Unresolved(d.log.staged[i]) && logSet in d.log.staged[i].transaction.logTags ==>
                  Durable(d, d.log.staged[i], logSet))
  {
    hide IsRun, PoliciesKeyed, PendingSound, AllDescribed, RecordEvidence, Durable, ApplyPublish, ApplyTakeoverPublish;
    RunStep(t, n);
    RunsKeepPolicyInvariant(t, n);
    var d, command := t.ledgers[n].domain, t.entries[n].command;
    PublicationChecks(d, command, t.entries[n].authority);
    var record := d.log.staged[Find(d.log.staged, command.transactionIdentity)];
    if Unresolved(record) && logSet in record.transaction.logTags {
      EvidenceByTag(d, record, logSet);
      EvidenceIsDurable(d, record, logSet);
    }
  }

  lemma EvidenceByTag(d: Domain, record: StagedTransaction, logSet: U16)
    requires RecordEvidence(d.policies, record, d.cell, d.tenant) && logSet in record.transaction.logTags
    requires DurableEverywhere(d.policies, record) || Certified(record)
    ensures if logSet in d.policies then logSet in record.certificates else logSet in record.receipts
  {
    hide CertificateSound, ReceiptSound;
    var k :| 0 <= k < |record.transaction.logTags| && record.transaction.logTags[k] == logSet;
  }
}
