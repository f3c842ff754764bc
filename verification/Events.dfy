/**
What each command does to the ordering core. Twelve kinds of command come down to nine events; an
event records what its command's checks established.
*/
module Events {
  import opened Types
  import opened Certificates
  import opened Resolver
  import opened Ordering
  import opened Domain
  import opened History
  import Generation

  /** One entry of the replicated log addressed to the domain, with the generation authority it is applied under. */
  datatype Entry =
    | DirectEntry(logIndex: U64, transaction: Transaction)
    | StagedEntry(logIndex: U64, command: StagedCommand, authority: Generation.Authority)

  function Step(d: Domain, entry: Entry): Domain {
    match entry
    case DirectEntry(logIndex, tx) => ApplyDirect(d, tx, logIndex).domain
    case StagedEntry(logIndex, command, authority) => ApplyStaged(d, command, logIndex, authority).domain
  }

  datatype Event =
    | Quiet
    | Evidence(staged: seq<StagedTransaction>)
    | Bump
    | Append(transaction: Transaction, logIndex: U64)
    | PublishNext(index: nat)
    | PublishOver(index: nat, generation: U64)
    | AbortOver(index: nat, generation: U64)
    | RecoverOver(indexes: seq<nat>, count: nat, generation: U64)
    | CommitNow(transaction: Transaction, logIndex: U64)

  /** What the command's checks guarantee when the event happens. */
  predicate Enabled(log: CommitLog, event: Event) {
    match event
    case Quiet => true
    case Evidence(staged) => SameButEvidence(log.staged, staged)
    case Bump => NothingUnresolved(log.staged)
    case Append(tx, _) =>
      && ValidRequest(tx)
      && tx.generation == log.generation
      && tx.readVersion.sequence <= log.latestSequence
      && (tx.resolution.None? ==> !CommittedConflict(log, tx) && !StagedConflict(log, tx))
      && Find(log.staged, tx.identity) == |log.staged|
    case PublishNext(i) =>
      && i < |log.staged|
      && Unresolved(log.staged[i])
      && !EarlierPending(log.staged, log.staged[i].sequence)
    case PublishOver(i, generation) =>
      && i < |log.staged|
      && log.staged[i].transaction.generation == log.generation
      && generation == Successor(log.generation)
      && UnresolvedCount(log.staged) == 1
    case AbortOver(i, generation) =>
      && i < |log.staged|
      && !log.staged[i].visible
      && log.staged[i].transaction.generation == log.generation
      && generation == Successor(log.generation)
      && UnresolvedCount(log.staged) == 1
    case RecoverOver(indexes, count, generation) =>
      && indexes != []
      && indexes == UnresolvedIndexes(log.staged)
      && count <= |indexes|
      && InRange(log.staged, indexes)
      && generation == Successor(log.generation)
    case CommitNow(tx, _) =>
      && ValidRequest(tx)
      && tx.generation == log.generation
      && tx.readVersion.sequence <= log.latestSequence
      && (tx.resolution.None? ==> !CommittedConflict(log, tx))
  }

  function Happen(log: CommitLog, event: Event): CommitLog
    requires Enabled(log, event)
  {
    match event
    case Quiet => log
    case Evidence(staged) => log.(staged := staged)
    case Bump => BumpSequence(log)
    case Append(tx, logIndex) => AppendStaged(log, tx, logIndex)
    case PublishNext(i) => Publish(log, i, log.staged[i].transaction.generation)
    case PublishOver(i, generation) => Publish(log, i, generation)
    case AbortOver(i, generation) => Abort(log, i).(generation := generation)
    case RecoverOver(indexes, count, generation) =>
      Dispose(log, indexes, count, generation).(generation := generation)
    case CommitNow(tx, logIndex) => CommitDirectly(log, tx, logIndex)
  }

  // ---- which event a command is ----

  function EventOf(d: Domain, entry: Entry): Event {
    match entry
    case DirectEntry(logIndex, tx) =>
      if ApplyDirect(d, tx, logIndex).status == Committed then CommitNow(tx, logIndex) else Quiet
    case StagedEntry(logIndex, command, authority) =>
      StagedEventOf(d, command, logIndex, ApplyStaged(d, command, logIndex, authority))
  }

  function StagedEventOf(d: Domain, command: StagedCommand, logIndex: U64, outcome: Outcome): Event {
    var i := Find(d.log.staged, command.transactionIdentity);
    match command.action
    case InstallPolicies(_) => Quiet
    case ReserveCapacity(_, _) => Quiet
    case PrepareTransition(_, _) => if outcome.domain.log != d.log then Bump else Quiet
    case CommitTransition(_, _) => if outcome.domain.log != d.log then Bump else Quiet
    case Stage(tx) => if outcome.domain.log != d.log then Append(tx, logIndex) else Quiet
    case RecordReceipt(_) => Evidence(outcome.domain.log.staged)
    case RecordCertificate(_) => Evidence(outcome.domain.log.staged)
    case PublishStaged => if outcome.status == StagedCommitted then PublishNext(i) else Quiet
    case TakeoverPublish(_, _, _, _) =>
      if outcome.status == StagedCommitted then PublishOver(i, command.generation) else Quiet
    case TakeoverAbort(_, _, _, _, _) =>
      if outcome.status == Aborted then AbortOver(i, command.generation) else Quiet
    case TakeoverRecoverPrefix(_, _, window, inventories) =>
      var count := RecoverableCount(d.policies, inventories, window.records, 0);
      if outcome.status == PrefixRecovered && count.Some?
      then RecoverOver(WindowIndexes(d.log.staged, window.records), count.value, command.generation)
      else Quiet
  }

  // ---- one lemma per kind of command ----

  lemma DirectEffect(d: Domain, tx: Transaction, logIndex: U64)
    ensures var outcome := ApplyDirect(d, tx, logIndex);
            if outcome.status == Committed
            then Enabled(d.log, CommitNow(tx, logIndex)) && outcome.domain.log == CommitDirectly(d.log, tx, logIndex)
            else outcome.domain.log == d.log
  {
    hide ValidRequest, CommittedConflict, Resolve, CandidateInOrder, CommitDirectly, ContainsAll;
  }

  lemma PrepareEffect(d: Domain, command: StagedCommand, transition: LogSetTransition, readiness: RepairCertificate)
    ensures var log := ApplyPrepareTransition(d, command, transition, readiness).domain.log;
            log != d.log ==> log == BumpSequence(d.log) && NothingUnresolved(d.log.staged)
  {
    hide ValidTransition, NothingUnresolved;
  }

  lemma CommitEffect(d: Domain, id: U64, stage: PolicyStageCertificate, logIndex: U64)
    ensures var log := ApplyCommitTransition(d, id, stage, logIndex).domain.log;
            log != d.log ==> log == BumpSequence(d.log) && NothingUnresolved(d.log.staged)
  {
    hide PolicyStageCertificateValid, NothingUnresolved;
  }

  lemma ReserveEffect(d: Domain, command: StagedCommand, tx: Transaction, certificates: seq<CapacityCertificate>)
    ensures ApplyReserve(d, command, tx, certificates).domain.log == d.log
  {
    hide ReserveRequestValid, BlockedByTransition, CapacityProofValid, RoomEverywhere, SamplesIn;
  }

  lemma AdmitEffect(d: Domain, tx: Transaction, logIndex: U64)
    ensures var outcome := AdmitStage(d, tx, logIndex);
            outcome.domain.log != d.log ==>
              && outcome.domain.log == AppendStaged(d.log, tx, logIndex)
              && (tx.resolution.None? ==> !CommittedConflict(d.log, tx) && !StagedConflict(d.log, tx))
  {
    hide RatekeepingNeeded, HoldsReservation, CommittedConflict, StagedConflict, AppendStaged, MergeSamples;
  }

  lemma StageEffect(d: Domain, command: StagedCommand, tx: Transaction, logIndex: U64)
    requires d.log.generation == command.generation
    ensures var log := ApplyStage(d, command, tx, logIndex).domain.log;
            log != d.log ==> Enabled(d.log, Append(tx, logIndex)) && log == AppendStaged(d.log, tx, logIndex)
  {
    hide ValidRequest, CommittedConflict, StagedConflict, Resolve, CandidateInOrder, BlockedByTransition, AdmitStage,
      AppendStaged, ContainsAll;
    AdmitEffect(d, tx, logIndex);
    if tx.resolution.Some? {
      AdmitEffect(NoteResolution(d, tx, tx.resolution.value), tx, logIndex);
    }
  }

  lemma SameButEvidenceAt(
    staged: seq<StagedTransaction>, i: nat, receipts: map<U16, Receipt>, certificates: map<U16, TaggedLogCertificate>)
    requires i < |staged|
    ensures SameButEvidence(staged, staged[i := staged[i].(receipts := receipts, certificates := certificates)])
    ensures SameButEvidence(staged, staged)
  {
  }

  lemma ReceiptEffect(d: Domain, command: StagedCommand, receipt: Receipt)
    ensures var log := ApplyReceipt(d, command, receipt).domain.log;
            log == d.log.(staged := log.staged) && SameButEvidence(d.log.staged, log.staged)
  {
    var i := Find(d.log.staged, command.transactionIdentity);
    if i < |d.log.staged| {
      var record := d.log.staged[i];
      SameButEvidenceAt(d.log.staged, i, record.receipts[receipt.logSet := receipt], record.certificates);
      hide ReceiptValid, SameButEvidence;
    }
  }

  lemma CertificateEffect(d: Domain, command: StagedCommand, certificate: TaggedLogCertificate)
    ensures var log := ApplyCertificate(d, command, certificate).domain.log;
            log == d.log.(staged := log.staged) && SameButEvidence(d.log.staged, log.staged)
  {
    var i := Find(d.log.staged, command.transactionIdentity);
    if i < |d.log.staged| {
      var record := d.log.staged[i];
      SameButEvidenceAt(
        d.log.staged, i, record.receipts, record.certificates[certificate.statement.logSet := certificate]);
      hide CertificateValid, SameButEvidence;
    }
  }

  lemma PublishEffect(d: Domain, command: StagedCommand)
    ensures var outcome, i := ApplyPublish(d, command), Find(d.log.staged, command.transactionIdentity);
            if outcome.status == StagedCommitted
            then Enabled(d.log, PublishNext(i)) && outcome.domain.log == Happen(d.log, PublishNext(i))
            else outcome.domain.log == d.log
  {
    hide DurableEverywhere, EarlierPending, Publish;
  }

  lemma TakeoverPublishEffect(d: Domain, command: StagedCommand, authority: Generation.Authority)
    requires command.action.TakeoverPublish?
    ensures var outcome := ApplyTakeoverPublish(d, command, authority);
            var i := Find(d.log.staged, command.transactionIdentity);
            if outcome.status == StagedCommitted
            then Enabled(d.log, PublishOver(i, command.generation))
                 && outcome.domain.log == Publish(d.log, i, command.generation)
            else outcome.domain.log == d.log
  {
    hide SuccessorAuthorized, Certified, Publish, UnresolvedCount, Decodes;
  }

  lemma TakeoverAbortEffect(d: Domain, command: StagedCommand, authority: Generation.Authority)
    requires command.action.TakeoverAbort?
    ensures var outcome := ApplyTakeoverAbort(d, command, authority);
            var i := Find(d.log.staged, command.transactionIdentity);
            if outcome.status == Aborted
            then Enabled(d.log, AbortOver(i, command.generation))
                 && outcome.domain.log == Abort(d.log, i).(generation := command.generation)
            else outcome.domain.log == d.log
  {
    hide SuccessorAuthorized, AbortProofValid, Abort, UnresolvedCount, Decodes;
  }

  lemma {:induction false} RecoverableBound(
    policies: map<U16, LogSetPolicy>, inventories: seq<PrefixFenceCertificate>, records: seq<WindowRecord>, from: nat)
    requires from <= |records|
    ensures var count := RecoverableCount(policies, inventories, records, from);
            count.Some? ==> from <= count.value <= |records|
    decreases |records| - from
  {
    hide Unambiguous, PresentEverywhere, AbsentSomewhere;
    if from < |records| {
      RecoverableBound(policies, inventories, records, from + 1);
    }
  }

  lemma RecoverEffect(d: Domain, command: StagedCommand, authority: Generation.Authority)
    requires command.action.TakeoverRecoverPrefix?
    ensures var outcome, action := ApplyRecoverPrefix(d, command, authority), command.action;
            var count := RecoverableCount(d.policies, action.inventories, action.window.records, 0);
            var indexes := WindowIndexes(d.log.staged, action.window.records);
            if outcome.status == PrefixRecovered
            then
              && count.Some?
              && Enabled(d.log, RecoverOver(indexes, count.value, command.generation))
              && outcome.domain.log == Happen(d.log, RecoverOver(indexes, count.value, command.generation))
            else outcome.domain.log == d.log
  {
    hide SuccessorAuthorized, ValidWindow, ChainExact, InventoriesValid, RecoverableCount, Dispose, UnresolvedIndexes,
      TotalBytes, CountVisible, CountAborted;
    RecoverableBound(d.policies, command.action.inventories, command.action.window.records, 0);
  }

  /** The outcome moves the core as the command's event says, under that event's guarantees. */
  predicate Explained(d: Domain, command: StagedCommand, logIndex: U64, outcome: Outcome) {
    var event := StagedEventOf(d, command, logIndex, outcome);
    Enabled(d.log, event) && outcome.domain.log == Happen(d.log, event)
  }

  lemma PolicyStepIsEvent(d: Domain, command: StagedCommand, logIndex: U64, authority: Generation.Authority)
    requires command.generation == d.log.generation != 0
    requires command.action.InstallPolicies? || command.action.PrepareTransition? || command.action.CommitTransition?
             || command.action.ReserveCapacity?
    ensures Explained(d, command, logIndex, ApplyStaged(d, command, logIndex, authority))
  {
    hide ApplyInstall, ApplyPrepareTransition, ApplyCommitTransition, ApplyReserve, NothingUnresolved;
    match command.action
    case InstallPolicies(policies) => InstallEffect(d, command, policies);
    case PrepareTransition(transition, readiness) => PrepareEffect(d, command, transition, readiness);
    case CommitTransition(id, stage) => CommitEffect(d, id, stage, logIndex);
    case ReserveCapacity(tx, certificates) => ReserveEffect(d, command, tx, certificates);
    case _ =>
  }

  lemma RecordStepIsEvent(d: Domain, command: StagedCommand, logIndex: U64, authority: Generation.Authority)
    requires command.generation == d.log.generation != 0
    requires command.action.Stage? || command.action.RecordReceipt? || command.action.RecordCertificate?
    ensures Explained(d, command, logIndex, ApplyStaged(d, command, logIndex, authority))
  {
    hide ApplyStage, ApplyReceipt, ApplyCertificate, ValidRequest, SameButEvidence, CommittedConflict, StagedConflict,
      AppendStaged, Find;
    match command.action
    case Stage(tx) => StageEffect(d, command, tx, logIndex);
    case RecordReceipt(receipt) => ReceiptEffect(d, command, receipt);
    case RecordCertificate(certificate) => CertificateEffect(d, command, certificate);
    case _ =>
  }

  lemma PublishStepIsEvent(d: Domain, command: StagedCommand, logIndex: U64, authority: Generation.Authority)
    requires command.generation != 0
    requires command.action.PublishStaged? ==> command.generation == d.log.generation
    requires command.action.PublishStaged? || command.action.TakeoverPublish? || command.action.TakeoverAbort?
    ensures Explained(d, command, logIndex, ApplyStaged(d, command, logIndex, authority))
  {
    hide ApplyPublish, ApplyTakeoverPublish, ApplyTakeoverAbort, UnresolvedCount, Publish, Abort, EarlierPending, Find;
    match command.action
    case PublishStaged => PublishEffect(d, command);
    case TakeoverPublish(_, _, _, _) => TakeoverPublishEffect(d, command, authority);
    case TakeoverAbort(_, _, _, _, _) => TakeoverAbortEffect(d, command, authority);
    case _ =>
  }

  lemma RecoverStepIsEvent(d: Domain, command: StagedCommand, logIndex: U64, authority: Generation.Authority)
    requires command.generation != 0 && command.action.TakeoverRecoverPrefix?
    ensures Explained(d, command, logIndex, ApplyStaged(d, command, logIndex, authority))
  {
    hide ApplyRecoverPrefix, RecoverableCount, UnresolvedIndexes, Dispose, Find, WindowIndexes;
    RecoverEffect(d, command, authority);
  }

  lemma StagedStepIsEvent(d: Domain, command: StagedCommand, logIndex: U64, authority: Generation.Authority)
    requires command.generation != 0
    requires !IsTakeover(command.action) ==> d.log.generation == command.generation
    ensures Explained(d, command, logIndex, ApplyStaged(d, command, logIndex, authority))
  {
    hide ApplyStaged, Explained;
    match command.action
    case InstallPolicies(_) => PolicyStepIsEvent(d, command, logIndex, authority);
    case PrepareTransition(_, _) => PolicyStepIsEvent(d, command, logIndex, authority);
    case CommitTransition(_, _) => PolicyStepIsEvent(d, command, logIndex, authority);
    case ReserveCapacity(_, _) => PolicyStepIsEvent(d, command, logIndex, authority);
    case Stage(_) => RecordStepIsEvent(d, command, logIndex, authority);
    case RecordReceipt(_) => RecordStepIsEvent(d, command, logIndex, authority);
    case RecordCertificate(_) => RecordStepIsEvent(d, command, logIndex, authority);
    case PublishStaged => PublishStepIsEvent(d, command, logIndex, authority);
    case TakeoverPublish(_, _, _, _) => PublishStepIsEvent(d, command, logIndex, authority);
    case TakeoverAbort(_, _, _, _, _) => PublishStepIsEvent(d, command, logIndex, authority);
    case TakeoverRecoverPrefix(_, _, _, _) => RecoverStepIsEvent(d, command, logIndex, authority);
  }

  lemma InstallEffect(d: Domain, command: StagedCommand, policies: seq<LogSetPolicy>)
    ensures ApplyInstall(d, command, policies).domain.log == d.log
  {
    hide Installable, NothingUnresolved, InstallAll;
  }

  lemma RefusedStepIsQuiet(d: Domain, command: StagedCommand, logIndex: U64)
    ensures var event := StagedEventOf(d, command, logIndex, Reply(d, InvalidStagedRequest));
            Enabled(d.log, event) && d.log == Happen(d.log, event)
  {
    assert SameButEvidence(d.log.staged, d.log.staged);
  }

  /** Every command is its event: the core moves exactly as the event says, under the event's guarantees. */
  lemma StepIsEvent(d: Domain, entry: Entry)
    ensures Enabled(d.log, EventOf(d, entry))
    ensures Step(d, entry).log == Happen(d.log, EventOf(d, entry))
  {
    hide Enabled, StagedEventOf, ApplyInstall, ApplyPrepareTransition, ApplyCommitTransition, ApplyReserve, ApplyStage,
      ApplyReceipt, ApplyCertificate, ApplyPublish, ApplyTakeoverPublish, ApplyTakeoverAbort, ApplyRecoverPrefix;
    match entry
    case DirectEntry(logIndex, tx) =>
      DirectEffect(d, tx, logIndex);
      hide ApplyDirect, CommitDirectly;
      QuietAlwaysEnabled(d.log);
    case StagedEntry(logIndex, command, authority) =>
      if command.generation == 0 || (!IsTakeover(command.action) && d.log.generation != command.generation) {
        RefusedStepIsQuiet(d, command, logIndex);
      } else {
        StagedStepIsEvent(d, command, logIndex, authority);
      }
  }

  lemma QuietAlwaysEnabled(log: CommitLog)
    ensures Enabled(log, Quiet)
  {
  }

  // ---- several entries ----

  /** The domain after a sequence of entries. */
  function RunFrom(d: Domain, entries: seq<Entry>): Domain {
    hide Step;
    if entries == [] then d else Step(RunFrom(d, entries[..|entries| - 1]), entries[|entries| - 1])
  }

  lemma {:induction false} RunFromConcat(d: Domain, first: seq<Entry>, second: seq<Entry>)
    ensures RunFrom(d, first + second) == RunFrom(RunFrom(d, first), second)
    decreases |second|
  {
    hide Step;
    if second == [] {
      assert first + second == first;
    } else {
      var n := |second| - 1;
      RunFromConcat(d, first, second[..n]);
      assert (first + second)[..|first| + n] == first + second[..n];
    }
  }

  lemma RunFromOne(d: Domain, entry: Entry)
    ensures RunFrom(d, [entry]) == Step(d, entry)
  {
    hide Step;
    assert [entry][..0] == [];
    assert RunFrom(d, []) == d;
  }

  lemma RunFromSnoc(d: Domain, entries: seq<Entry>, entry: Entry)
    ensures RunFrom(d, entries + [entry]) == Step(RunFrom(d, entries), entry)
  {
    hide Step;
    assert (entries + [entry])[..|entries|] == entries;
  }
}
