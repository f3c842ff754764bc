/** Durability of what becomes visible: certified or recovered records are held by quorums, then and ever after. */
module Durability {
  import opened Keys
  import opened Types
  import opened Certificates
  import opened Ordering
  import opened Domain
  import opened Events
  import opened Policies
  import opened LogNodes
  import opened Safety
  import opened SystemRuns

  // ---- recorded certificates stay genuine ----

  predicate GenuineRecord(w: World, record: StagedTransaction) {
    forall logSet :: logSet in record.certificates ==> AuthenticCertificate(w, record.certificates[logSet])
  }

  /** Every certificate on an unresolved record was put together from signatures the nodes gave. */
  predicate Genuine(w: World, staged: seq<StagedTransaction>) {
    forall i :: 0 <= i < |staged| && Unresolved(staged[i]) ==> GenuineRecord(w, staged[i])
  }

  lemma HandleKeepsGenuine(w: World, key: Bytes, request: Request, staged: seq<StagedTransaction>)
    requires key in w.nodes && Genuine(w, staged)
    ensures Genuine(Handle(w, key, request), staged)
  {
    hide Serve;
    var next := Handle(w, key, request);
    forall i, logSet | 0 <= i < |staged| && Unresolved(staged[i]) && logSet in staged[i].certificates
      ensures AuthenticCertificate(next, staged[i].certificates[logSet])
    {
      assert GenuineRecord(w, staged[i]);
      assert AuthenticCertificate(w, staged[i].certificates[logSet]);
    }
  }

  lemma LeavingKeepsGenuine(w: World, before: seq<StagedTransaction>, after: seq<StagedTransaction>)
    requires Genuine(w, before) && LeavesUnresolved(before, after)
    ensures Genuine(w, after)
  {
    hide AuthenticCertificate;
  }

  lemma ReceiptKeepsGenuine(w: World, d: Domain, command: StagedCommand, receipt: Receipt)
    requires Genuine(w, d.log.staged)
    ensures Genuine(w, ApplyReceipt(d, command, receipt).domain.log.staged)
  {
    hide AuthenticCertificate, ReceiptValid;
    var i := Find(d.log.staged, command.transactionIdentity);
    var next := ApplyReceipt(d, command, receipt).domain.log.staged;
    forall j | 0 <= j < |next| && Unresolved(next[j])
      ensures GenuineRecord(w, next[j])
    {
      assert GenuineRecord(w, d.log.staged[j]);
    }
  }

  lemma CertificateKeepsGenuine(w: World, d: Domain, command: StagedCommand, certificate: TaggedLogCertificate)
    requires Genuine(w, d.log.staged) && AuthenticCertificate(w, certificate)
    ensures Genuine(w, ApplyCertificate(d, command, certificate).domain.log.staged)
  {
    hide AuthenticCertificate, CertificateValid;
    var i := Find(d.log.staged, command.transactionIdentity);
    var next := ApplyCertificate(d, command, certificate).domain.log.staged;
    forall j | 0 <= j < |next| && Unresolved(next[j])
      ensures GenuineRecord(w, next[j])
    {
      assert GenuineRecord(w, d.log.staged[j]);
    }
  }

  lemma StepKeepsGenuine(w: World, d: Domain, entry: Entry)
    requires Genuine(w, d.log.staged)
    requires entry.StagedEntry? ==> AuthenticCommand(w, entry.command)
    ensures Genuine(w, Step(d, entry).log.staged)
  {
    hide ApplyDirect, ApplyInstall, ApplyPrepareTransition, ApplyCommitTransition, ApplyReserve, ApplyStage,
      ApplyReceipt, ApplyCertificate, ApplyPublish, ApplyTakeoverPublish, ApplyTakeoverAbort, ApplyRecoverPrefix,
      Genuine, Enabled, Happen, LeavesUnresolved, RecoverableCount, WindowIndexes, AuthenticCertificate;
    StepIsEvent(d, entry);
    if entry.StagedEntry? && entry.command.action.RecordReceipt? {
      ReceiptKeepsGenuine(w, d, entry.command, entry.command.action.receipt);
    } else if entry.StagedEntry? && entry.command.action.RecordCertificate? {
      CertificateKeepsGenuine(w, d, entry.command, entry.command.action.certificate);
    } else {
      EventLeavesUnresolved(d.log, EventOf(d, entry));
      LeavingKeepsGenuine(w, d.log.staged, Step(d, entry).log.staged);
    }
  }

  lemma {:induction false} RunsKeepGenuine(t: SystemTrace, n: nat)
    requires IsSystemRun(t)
    requires n < |t.states|
    ensures Genuine(t.states[n].world, t.states[n].domain.log.staged)
    decreases n
  {
    hide Handle, Step, AuthenticCommand, AuthenticRepair, Genuine, ProvisionedAt, TrimmedAt, OrderedAt, IsSystemRun;
    RunStart(t);
    if n == 0 {
      NothingStagedIsGenuine(t.states[0].world);
    } else {
      RunsKeepGenuine(t, n - 1);
      RunMove(t, n - 1);
      var s, move := t.states[n - 1], t.moves[n - 1];
      match move
      case NodeMove(key, request) => HandleKeepsGenuine(s.world, key, request, s.domain.log.staged);
      case CommandMove(entry) => StepKeepsGenuine(s.world, s.domain, entry);
    }
  }

  lemma NothingStagedIsGenuine(w: World)
    ensures Genuine(w, [])
  {
  }

  // ---- where publication comes from ----

  lemma {:induction false} DisposePublishes(log: CommitLog, indexes: seq<nat>, count: nat, generation: U64, i: nat)
    returns (x: nat)
    requires InRange(log.staged, indexes) && i < |log.staged| && !log.staged[i].visible
    requires Dispose(log, indexes, count, generation).staged[i].visible
    ensures x < count && x < |indexes| && indexes[x] == i
    decreases |indexes|
  {
    hide ApplyMutations, WritesAt;
    var n := |indexes| - 1;
    if indexes[n] == i && n < count {
      x := n;
    } else {
      x := DisposePublishes(log, indexes[..n], count, generation, i);
    }
  }

  /** A record becomes visible by a publish, a publishing takeover or a prefix recovery of itself. */
  lemma EventPublishes(log: CommitLog, event: Event, i: nat) returns (x: nat)
    requires Enabled(log, event) && i < |log.staged| && !log.staged[i].visible
    requires i < |Happen(log, event).staged| && Happen(log, event).staged[i].visible
    ensures || (event.PublishNext? && event.index == i)
            || (event.PublishOver? && event.index == i)
            || (event.RecoverOver? && x < event.count && x < |event.indexes| && event.indexes[x] == i)
  {
    hide ApplyMutations, WritesAt, ValidRequest, CommittedConflict, StagedConflict, UnresolvedIndexes, UnresolvedCount,
      NothingUnresolved, Dispose, EarlierPending, MakeEnvelope;
    x := 0;
    if event.RecoverOver? {
      x := DisposePublishes(log, event.indexes, event.count, event.generation, i);
    }
  }

  lemma PublishEventIsCommand(d: Domain, entry: Entry)
    requires EventOf(d, entry).PublishNext? || EventOf(d, entry).PublishOver?
    ensures entry.StagedEntry?
    ensures EventOf(d, entry).index == Find(d.log.staged, entry.command.transactionIdentity)
    ensures || (entry.command.action.PublishStaged? && ApplyPublish(d, entry.command).status == StagedCommitted)
            || (entry.command.action.TakeoverPublish?
                && ApplyTakeoverPublish(d, entry.command, entry.authority).status == StagedCommitted)
  {
    hide ApplyDirect, ApplyInstall, ApplyPrepareTransition, ApplyCommitTransition, ApplyReserve, ApplyStage,
      ApplyReceipt, ApplyCertificate, ApplyPublish, ApplyTakeoverPublish, ApplyTakeoverAbort, ApplyRecoverPrefix,
      RecoverableCount, WindowIndexes, Find;
  }

  /** Evidence recorded for a log set with a policy means a quorum of its members holds the record. */
  lemma EvidenceIsHeld(w: World, d: Domain, record: StagedTransaction, logSet: U16)
    requires Honest(w) && Provisioned(w, d) && GenuineRecord(w, record) && Unpopped(w, record.envelope)
    requires RecordEvidence(d.policies, record, d.cell, d.tenant) && logSet in record.certificates
    ensures logSet in d.policies && HeldByQuorum(w, d.policies[logSet], record.envelope)
  {
    hide Honest, Known, Majority, EnvelopeCertificateValid, HeldByQuorum, KeptByQuorum, AuthenticCertificate,
      ReceiptSound, Unpopped;
    assert CertificateSound(d.policies[logSet], record, logSet, d.cell, d.tenant);
    CertifiedIsKept(w, d.policies[logSet], record.certificates[logSet], record.envelope);
    KeptIsHeld(w, d.policies[logSet], record.envelope);
  }

  /** A command that makes a record visible does so while a quorum of each configured log set holds it. */
  lemma PublicationRestsOnHolders(w: World, d: Domain, entry: Entry, i: nat, logSet: U16)
    requires Honest(w) && PolicyInvariant(d) && Provisioned(w, d) && Trimmed(w, d) && Genuine(w, d.log.staged)
    requires entry.StagedEntry? ==> AuthenticCommand(w, entry.command)
    requires i < |d.log.staged| && Unresolved(d.log.staged[i])
    requires i < |Step(d, entry).log.staged| && Step(d, entry).log.staged[i].visible
    requires logSet in d.log.staged[i].transaction.logTags && logSet in d.policies
    ensures HeldByQuorum(w, d.policies[logSet], d.log.staged[i].envelope)
  {
    hide Step, EventOf, Enabled, Happen, Honest, Provisioned, AuthenticCommand, HeldByQuorum, AllDescribed,
      PoliciesKeyed, PendingSound, ApplyPublish, ApplyTakeoverPublish, ApplyRecoverPrefix, RecoveryChecked,
      RecoverableCount, RecordEvidence, GenuineRecord, Find, DurableEverywhere, Certified, Unpopped;
    StepIsEvent(d, entry);
    var event, record := EventOf(d, entry), d.log.staged[i];
    var x := EventPublishes(d.log, event, i);
    assert RecordEvidence(d.policies, record, d.cell, d.tenant) && GenuineRecord(w, record);
    assert Unpopped(w, record.envelope);
    hide EvidenceHolds, Genuine, Trimmed;
    if event.RecoverOver? {
      RecoverOverIsRecovery(d, entry);
      var indexes, count := RecoveryChecks(d, entry.command, entry.authority);
      IndexesOfRecovery(d, entry.command, indexes, count);
      RecoveredIsHeld(w, d, entry.command, indexes, count, x, logSet);
    } else {
      PublishEventIsCommand(d, entry);
      PublicationChecks(d, entry.command, entry.authority);
      EvidenceByTag(d, record, logSet);
      EvidenceIsHeld(w, d, record, logSet);
    }
  }

  // ---- held for good ----

  lemma {:induction false} KeptForever(t: SystemTrace, m: nat, n: nat, policy: LogSetPolicy, envelope: Envelope)
    requires IsSystemRun(t)
    requires m <= n < |t.states| && KeptByQuorum(t.states[m].world, policy, envelope)
    ensures KeptByQuorum(t.states[n].world, policy, envelope)
    decreases n
  {
    hide KeptByQuorum, Handle, Step, AuthenticCommand, AuthenticRepair, ProvisionedAt, TrimmedAt, OrderedAt,
      IsSystemRun, Honest, PrefixClosed, SourcesKnown, PolicyInvariant;
    if m < n {
      RunStart(t);
      KeptForever(t, m, n - 1, policy, envelope);
      RunMove(t, n - 1);
      SystemRunKeepsInvariant(t, n - 1);
      if t.moves[n - 1].NodeMove? {
        QuorumKeepingStays(t.states[n - 1].world, t.moves[n - 1].key, t.moves[n - 1].request, policy, envelope);
      }
    }
  }

  /** Move `m` makes the unresolved record `i` visible. */
  predicate PublishedBy(t: SystemTrace, m: nat, i: nat) {
    && m + 1 < |t.states|
    && i < |t.states[m].domain.log.staged|
    && i < |t.states[m + 1].domain.log.staged|
    && Unresolved(t.states[m].domain.log.staged[i])
    && t.states[m + 1].domain.log.staged[i].visible
  }

  /**
  Durability. In every run of authority and nodes, a record that becomes visible is held at that point by a
  quorum of the members of each of its log sets' policies, as installed then, and ever after each of a quorum
  of them still holds it or has popped as far as its sequence.
  */
  lemma VisibleRecordsStayHeld(t: SystemTrace, m: nat, n: nat, i: nat, logSet: U16)
    requires IsSystemRun(t)
    requires PublishedBy(t, m, i) && m <= n < |t.states|
    requires logSet in t.states[m].domain.log.staged[i].transaction.logTags && logSet in t.states[m].domain.policies
    ensures var policy, envelope := t.states[m].domain.policies[logSet], t.states[m].domain.log.staged[i].envelope;
            && HeldByQuorum(t.states[m].world, policy, envelope)
            && KeptByQuorum(t.states[n].world, policy, envelope)
            && (Unpopped(t.states[n].world, envelope) ==> HeldByQuorum(t.states[n].world, policy, envelope))
  {
    hide Handle, Step, AuthenticCommand, AuthenticRepair, Provisioned, Trimmed, HeldByQuorum, KeptByQuorum, Honest,
      PrefixClosed, SourcesKnown, PolicyInvariant, Genuine, Unpopped, IsSystemRun, OrderedAt;
    RunStart(t);
    RunMove(t, m);
    SystemRunKeepsInvariant(t, m);
    RunsKeepGenuine(t, m);
    var s, move := t.states[m], t.moves[m];
    var policy, envelope := s.domain.policies[logSet], s.domain.log.staged[i].envelope;
    PublicationRestsOnHolders(s.world, s.domain, move.entry, i, logSet);
    HeldIsKept(s.world, policy, envelope);
    KeptForever(t, m, n, policy, envelope);
    if Unpopped(t.states[n].world, envelope) {
      KeptIsHeld(t.states[n].world, policy, envelope);
    }
  }
}
