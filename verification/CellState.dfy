/**
The domain as an object whose fields the commands assign. Every method is proved against the function
of the same command in `Domain`, so what is proved of those functions holds of the object.
*/
module CellState {
  import opened Keys
  import opened Types
  import opened Sets
  import opened Certificates
  import opened Resolver
  import opened Ordering
  import opened Domain
  import Generation

  class CellDomainState {
    const cell: Bytes
    const tenant: Bytes
    var generation: U64
    var latestSequence: U64
    var rows: Rows
    var committedWrites: seq<CommittedWrite>
    var committedEnvelopes: seq<Envelope>
    var previousLogChain: Digest
    var staged: seq<StagedTransaction>
    var lastResolverCandidate: U64
    var lastResolverGeneration: U64
    var policies: map<U16, LogSetPolicy>
    var pending: Option<LogSetTransition>
    var completed: map<U64, CompletedTransition>
    var reservations: map<Identity, Reservation>
    var attemptEpochs: map<Identity, U64>
    var sampleEpochs: map<U16, map<U64, U64>>

    function Log(): CommitLog
      reads this
    {
      CommitLog(generation, latestSequence, rows, committedWrites, committedEnvelopes, previousLogChain, staged)
    }

    function Value(): Domain
      reads this
    {
      Domain(cell, tenant, Log(), lastResolverCandidate, lastResolverGeneration, policies, pending, completed,
             reservations, attemptEpochs, sampleEpochs)
    }

    constructor (cell: Bytes, tenant: Bytes, generation: U64)
      ensures Value() == Fresh(cell, tenant, generation)
    {
      this.cell, this.tenant, this.generation := cell, tenant, generation;
      latestSequence, rows, committedWrites, committedEnvelopes := 0, map[], [], [];
      previousLogChain, staged := ZeroDigest, [];
      lastResolverCandidate, lastResolverGeneration := 0, 0;
      policies, pending, completed := map[], None, map[];
      reservations, attemptEpochs, sampleEpochs := map[], map[], map[];
    }

    // ---- making one transaction visible ----

    method ApplyRows(mutations: seq<Mutation>)
      modifies `rows
      ensures rows == ApplyMutations(old(rows), mutations)
    {
      for i := 0 to |mutations|
        invariant rows == ApplyMutations(old(rows), mutations[..i])
      {
        assert mutations[..i + 1][..i] == mutations[..i];
        match mutations[i] {
          case Clear(key) => rows := rows - {key};
          case Set(key, value) => rows := rows[key := value];
        }
      }
      assert mutations[..|mutations|] == mutations;
    }

    method PushWrites(ranges: seq<KeyRange>, sequence: U64)
      modifies `committedWrites
      ensures committedWrites == old(committedWrites) + WritesAt(ranges, sequence)
    {
      for i := 0 to |ranges|
        invariant committedWrites == old(committedWrites) + WritesAt(ranges, sequence)[..i]
      {
        committedWrites := committedWrites + [CommittedWrite(sequence, ranges[i])];
      }
    }

    method Commit(tx: Transaction, sequence: U64, envelope: Envelope, nextGeneration: U64)
      modifies this
      ensures Value() == old(Value()).(log := Ordering.Commit(old(Log()), tx, sequence, envelope, nextGeneration))
    {
      hide ApplyMutations, WritesAt;
      PushTransaction(tx, sequence);
      PushEnvelope(sequence, envelope, nextGeneration);
    }

    method PushTransaction(tx: Transaction, sequence: U64)
      modifies `rows, `committedWrites
      ensures rows == ApplyMutations(old(rows), tx.mutations)
      ensures committedWrites == old(committedWrites) + WritesAt(tx.writeConflicts, sequence)
    {
      hide ApplyMutations, WritesAt;
      ApplyRows(tx.mutations);
      PushWrites(tx.writeConflicts, sequence);
    }

    method PushEnvelope(sequence: U64, envelope: Envelope, nextGeneration: U64)
      modifies `generation, `latestSequence, `previousLogChain, `committedEnvelopes
      ensures generation == nextGeneration && latestSequence == sequence && previousLogChain == EnvelopeDigest(envelope)
      ensures committedEnvelopes == old(committedEnvelopes) + [envelope]
    {
      generation := nextGeneration;
      latestSequence := sequence;
      previousLogChain := EnvelopeDigest(envelope);
      committedEnvelopes := committedEnvelopes + [envelope];
    }

    method Publish(i: nat, nextGeneration: U64)
      requires i < |staged|
      modifies this
      ensures |staged| == |old(staged)|
      ensures Value() == old(Value()).(log := Ordering.Publish(old(Log()), i, nextGeneration))
    {
      var record := staged[i];
      Commit(record.transaction, record.sequence, record.envelope, nextGeneration);
      staged := staged[i := record.(visible := true)];
    }

    // ---- one-shot transactions ----

    method NoteCandidate(tx: Transaction, resolution: PartitionedResolution)
      modifies `lastResolverCandidate, `lastResolverGeneration
      ensures Value() == NoteResolution(old(Value()), tx, resolution)
    {
      lastResolverCandidate := resolution.candidateSequence;
      lastResolverGeneration := SystemGeneration(tx, resolution);
    }

    method ApplyTransaction(tx: Transaction, logIndex: U64) returns (status: DirectStatus)
      modifies this
      ensures DirectOutcome(Value(), status) == ApplyDirect(old(Value()), tx, logIndex)
    {
      hide ContainsAll, ValidRequest, CandidateInOrder, Resolve, CommittedConflict, Ordering.Commit, MakeEnvelope;
      if tx.generation == 0 || generation != tx.generation
         || (tx.readVersion.sequence != 0 && tx.readVersion.generation != tx.generation) {
        return InvalidReadVersion;
      }
      if tx.readVersion.sequence > latestSequence {
        return FutureReadVersion;
      }
      if !ContainsAll(tx.logTags, REQUIRED_LOG_TAGS) {
        return MissingLogTag;
      }
      if !ValidRequest(tx) {
        return InvalidRequest;
      }
      if tx.resolution.Some? {
        var resolution := tx.resolution.value;
        if !CandidateInOrder(Value(), tx, resolution) {
          return InvalidRequest;
        }
        var decision := VerifyResolution(tx, resolution);
        if decision.None? {
          return MissingResolver;
        }
        NoteCandidate(tx, resolution);
        if decision == Some(Decision.Conflict) {
          return Conflicted;
        }
      } else if !ContainsAll(tx.acceptedResolvers, REQUIRED_RESOLVERS) {
        return MissingResolver;
      } else if CommittedConflict(Log(), tx) {
        return Conflicted;
      }
      Commit(tx, logIndex, DirectEnvelope(Log(), tx, logIndex), tx.generation);
      return Committed;
    }

    // ---- policies ----

    method InstallPolicies(command: StagedCommand, installed: seq<LogSetPolicy>) returns (status: Status)
      modifies `policies
      ensures Reply(Value(), status) == ApplyInstall(old(Value()), command, installed)
    {
      hide NothingUnresolved, Installable;
      if installed == []
         || !NothingUnresolved(staged)
         || (exists i :: 0 <= i < |installed| && !Installable(Value(), installed[i], command.generation))
         || !Distinct(PolicyIds(installed)) {
        return InvalidLogSetPolicy;
      }
      for i := 0 to |installed|
        invariant policies == InstallAll(old(policies), installed[..i])
      {
        assert installed[..i + 1][..i] == installed[..i];
        policies := policies[installed[i].logSet := installed[i]];
      }
      assert installed[..|installed|] == installed;
      return LogSetPoliciesInstalled;
    }

    method PrepareTransition(command: StagedCommand, transition: LogSetTransition, readiness: RepairCertificate)
      returns (status: Status)
      modifies `pending, `latestSequence
      ensures Reply(Value(), status) == ApplyPrepareTransition(old(Value()), command, transition, readiness)
    {
      hide NothingUnresolved, ValidTransition;
      if transition.transitionId in completed {
        return if completed[transition.transitionId].transition == transition
          then AlreadyPolicyTransitionCommitted else InvalidPolicyTransition;
      }
      if pending.Some? {
        return if pending.value == transition then PolicyTransitionPrepared else InvalidPolicyTransition;
      }
      if !NothingUnresolved(staged) || transition.logSet !in policies {
        return InvalidPolicyTransition;
      }
      var valid := VerifyTransition(
        transition, readiness, policies[transition.logSet], cell, tenant, command.generation);
      if !valid {
        return InvalidPolicyTransition;
      }
      pending := Some(transition);
      latestSequence := Successor(latestSequence);
      return PolicyTransitionPrepared;
    }

    method CommitTransition(id: U64, stage: PolicyStageCertificate, logIndex: U64) returns (status: Status)
      modifies `pending, `latestSequence, `policies, `completed
      ensures Reply(Value(), status) == ApplyCommitTransition(old(Value()), id, stage, logIndex)
    {
      hide NothingUnresolved, PolicyStageCertificateValid, PolicyStageIdentity;
      if id in completed {
        return if completed[id].successorStageDigest == PolicyStageIdentity(stage)
          then AlreadyPolicyTransitionCommitted else InvalidPolicyTransition;
      }
      if pending.None? {
        return InvalidPolicyTransition;
      }
      var transition := pending.value;
      var valid := VerifyPolicyStageCertificate(stage, transition);
      if transition.transitionId != id || !NothingUnresolved(staged) || !valid {
        return InvalidPolicyTransition;
      }
      FinishTransition(CompletedTransition(transition, PolicyStageIdentity(stage), logIndex));
      return PolicyTransitionCommitted;
    }

    method FinishTransition(record: CompletedTransition)
      modifies `pending, `latestSequence, `policies, `completed
      ensures policies == old(policies)[record.transition.logSet := record.transition.nextPolicy]
      ensures completed == old(completed)[record.transition.transitionId := record]
      ensures pending == None && latestSequence == Successor(old(latestSequence))
    {
      policies := policies[record.transition.logSet := record.transition.nextPolicy];
      completed := completed[record.transition.transitionId := record];
      pending := None;
      latestSequence := Successor(latestSequence);
    }

    // ---- capacity ----

    method ReserveCapacity(command: StagedCommand, tx: Transaction, certificates: seq<CapacityCertificate>)
      returns (status: Status)
      modifies `reservations, `attemptEpochs
      ensures Reply(Value(), status) == ApplyReserve(old(Value()), command, tx, certificates)
    {
      hide ReserveRequestValid, BlockedByTransition, CapacityProofValid, RoomEverywhere, SamplesIn, ReservationEpoch,
        Find;
      if !ReserveRequestValid(Value(), command, tx) {
        return InvalidStagedRequest;
      }
      if BlockedByTransition(Value(), tx) {
        return InvalidPolicyTransition;
      }
      var index := Find(staged, command.transactionIdentity);
      if index < |staged| {
        return RetryStatus(staged[index], tx);
      }
      var proven := VerifyCapacityProof(Value(), tx, certificates);
      if !proven {
        return InvalidCapacityCertificate;
      }
      var room := RoomEverywhere(Value(), tx, certificates);
      attemptEpochs := attemptEpochs[tx.identity := ReservationEpoch(certificates)];
      if !room {
        reservations := reservations - {tx.identity};
        return RateLimited;
      }
      reservations := reservations[
        tx.identity := Reservation(tx, ReservationEpoch(certificates), SamplesIn(certificates))];
      return CapacityReserved;
    }

    method UseReservation(identity: Identity)
      modifies `reservations, `sampleEpochs
      ensures Value() == ConsumeReservation(old(Value()), identity)
    {
      if identity !in reservations {
        return;
      }
      var consumed := reservations[identity].sampleEpochs;
      reservations := reservations - {identity};
      var remaining := consumed.Keys;
      SamplesAtStart(sampleEpochs, consumed);
      while remaining != {}
        invariant remaining <= consumed.Keys
        invariant reservations == old(reservations) - {identity}
        invariant sampleEpochs == MergeSamples(old(sampleEpochs), consumed - remaining)
        decreases remaining
      {
        var logSet :| logSet in remaining;
        var retained := MergeEpochs(SamplesOf(sampleEpochs, logSet), consumed[logSet]);
        MergeOneMore(old(sampleEpochs), consumed, remaining, logSet);
        sampleEpochs := sampleEpochs[logSet := retained];
        remaining := remaining - {logSet};
      }
      assert consumed - {} == consumed;
    }

    // ---- staging and evidence ----

    method Admit(tx: Transaction, logIndex: U64) returns (status: Status)
      modifies this
      ensures Reply(Value(), status) == AdmitStage(old(Value()), tx, logIndex)
    {
      hide RatekeepingNeeded, HoldsReservation, CommittedConflict, StagedConflict, StagedRecord;
      if RatekeepingNeeded(Value(), tx) && !HoldsReservation(Value(), tx) {
        return RatekeepingRequired;
      }
      if tx.resolution.None? && (CommittedConflict(Log(), tx) || StagedConflict(Log(), tx)) {
        return StagedConflicted;
      }
      staged := staged + [StagedRecord(Log(), tx, logIndex)];
      UseReservation(tx.identity);
      return Staged;
    }

    method Stage(command: StagedCommand, tx: Transaction, logIndex: U64) returns (status: Status)
      modifies this
      ensures Reply(Value(), status) == ApplyStage(old(Value()), command, tx, logIndex)
    {
      hide StageRequestValid, BlockedByTransition, Find, AdmitStage, CandidateInOrder, Resolve;
      if !StageRequestValid(Value(), command, tx) {
        return InvalidStagedRequest;
      }
      if BlockedByTransition(Value(), tx) {
        return InvalidPolicyTransition;
      }
      var index := Find(staged, command.transactionIdentity);
      if index < |staged| {
        return RetryStatus(staged[index], tx);
      }
      if tx.resolution.Some? {
        var resolution := tx.resolution.value;
        if !CandidateInOrder(Value(), tx, resolution) {
          return InvalidStagedRequest;
        }
        var decision := VerifyResolution(tx, resolution);
        if decision.None? {
          return InvalidStagedRequest;
        }
        NoteCandidate(tx, resolution);
        if decision == Some(Decision.Conflict) {
          return StagedConflicted;
        }
      }
      status := Admit(tx, logIndex);
    }

    method RecordReceipt(command: StagedCommand, receipt: Receipt) returns (status: Status)
      modifies `staged
      ensures Reply(Value(), status) == ApplyReceipt(old(Value()), command, receipt)
    {
      hide ReceiptValid, Find;
      var i := Find(staged, command.transactionIdentity);
      if i == |staged| {
        return InvalidStagedRequest;
      }
      var record := staged[i];
      if record.aborted {
        return AlreadyAborted;
      }
      if receipt.logSet in policies || !ReceiptValid(receipt, command, record) {
        return InvalidLogReceipt;
      }
      if receipt.logSet in record.receipts {
        return if record.receipts[receipt.logSet] == receipt then LogReceiptRecorded else ConflictingLogReceipt;
      }
      staged := staged[i := record.(receipts := record.receipts[receipt.logSet := receipt])];
      return LogReceiptRecorded;
    }

    method RecordCertificate(command: StagedCommand, certificate: TaggedLogCertificate) returns (status: Status)
      modifies `staged
      ensures Reply(Value(), status) == ApplyCertificate(old(Value()), command, certificate)
    {
      hide CertificateValid, Find;
      var i, logSet := Find(staged, command.transactionIdentity), certificate.statement.logSet;
      if i == |staged| {
        return InvalidStagedRequest;
      }
      var record := staged[i];
      if record.aborted {
        return AlreadyAborted;
      }
      if logSet !in policies || command.credential != record.transaction.credential {
        return InvalidLogCertificate;
      }
      var valid := VerifyCertificate(certificate, policies[logSet], record, cell, tenant, command.generation);
      if !valid {
        return InvalidLogCertificate;
      }
      if logSet in record.certificates {
        return if record.certificates[logSet] == certificate then LogCertificateRecorded else ConflictingLogCertificate;
      }
      staged := staged[i := record.(certificates := record.certificates[logSet := certificate])];
      return LogCertificateRecorded;
    }

    // ---- publication and takeover ----

    method PublishStaged(command: StagedCommand) returns (status: Status)
      modifies this
      ensures Reply(Value(), status) == ApplyPublish(old(Value()), command)
    {
      hide DurableEverywhere, EarlierPending, Find, Ordering.Publish;
      var i := Find(staged, command.transactionIdentity);
      if i == |staged| {
        return InvalidStagedRequest;
      }
      var record := staged[i];
      if record.visible {
        return AlreadyCommitted;
      }
      if record.aborted {
        return AlreadyAborted;
      }
      if command.credential != record.transaction.credential {
        return InvalidStagedRequest;
      }
      if !DurableEverywhere(policies, record) || EarlierPending(staged, record.sequence) {
        return MissingLogReceipt;
      }
      Publish(i, record.transaction.generation);
      return StagedCommitted;
    }

    method TakeoverPublish(command: StagedCommand, authority: Generation.Authority) returns (status: Status)
      requires command.action.TakeoverPublish?
      modifies this
      ensures Reply(Value(), status) == ApplyTakeoverPublish(old(Value()), command, authority)
    {
      hide SuccessorAuthorized, TakeoverMatches, Certified, Find, Ordering.Publish;
      var action, i := command.action, Find(staged, command.transactionIdentity);
      if i == |staged| {
        return InvalidGenerationTakeover;
      }
      var record := staged[i];
      if record.visible && generation == command.generation {
        return AlreadyCommitted;
      }
      if !SuccessorAuthorized(command, authority, action.recoveryId)
         || !TakeoverMatches(
               Value(), command, record, action.previousGeneration, action.expectedSequence, action.expectedDigest)
         || !Certified(record) {
        return InvalidGenerationTakeover;
      }
      Publish(i, command.generation);
      return StagedCommitted;
    }

    method TakeoverAbort(command: StagedCommand, authority: Generation.Authority) returns (status: Status)
      requires command.action.TakeoverAbort?
      modifies `staged, `generation
      ensures Reply(Value(), status) == ApplyTakeoverAbort(old(Value()), command, authority)
    {
      hide SuccessorAuthorized, TakeoverMatches, AbortProofValid, Find;
      var action, i := command.action, Find(staged, command.transactionIdentity);
      if i == |staged| {
        return InvalidGenerationTakeover;
      }
      var record := staged[i];
      if record.aborted && generation == command.generation {
        return AlreadyAborted;
      }
      if !SuccessorAuthorized(command, authority, action.recoveryId)
         || !TakeoverMatches(
               Value(), command, record, action.previousGeneration, action.expectedSequence, action.expectedDigest)
         || record.visible {
        return InvalidGenerationTakeover;
      }
      var proven := VerifyAbortProof(Value(), record, action.fences, action.previousGeneration, action.recoveryId);
      if !proven {
        return InvalidGenerationTakeover;
      }
      staged := staged[i := record.(aborted := true)];
      generation := command.generation;
      return Aborted;
    }

    /** Publish the first `count` named records in order and abort the others. */
    method DisposeWindow(indexes: seq<nat>, count: nat, nextGeneration: U64)
      requires InRange(staged, indexes)
      modifies this
      ensures InRange(old(staged), indexes)
      ensures Value() == old(Value()).(log := Dispose(old(Log()), indexes, count, nextGeneration))
    {
      hide Ordering.Publish, Ordering.Abort;
      for offset := 0 to |indexes|
        invariant |staged| == |old(staged)|
        invariant Value() == old(Value()).(log := Dispose(old(Log()), indexes[..offset], count, nextGeneration))
      {
        assert indexes[..offset + 1][..offset] == indexes[..offset];
        if offset < count {
          Publish(indexes[offset], nextGeneration);
        } else {
          AbortRecord(indexes[offset]);
        }
      }
      assert indexes[..|indexes|] == indexes;
    }

    method AbortRecord(i: nat)
      requires i < |staged|
      modifies `staged
      ensures |staged| == |old(staged)|
      ensures Value() == old(Value()).(log := Ordering.Abort(old(Log()), i))
    {
      staged := staged[i := staged[i].(aborted := true)];
    }

    method RecoverCheckedWindow(command: StagedCommand, indexes: seq<nat>)
      returns (status: Status, recovered: nat, aborted: nat)
      requires command.action.TakeoverRecoverPrefix? && InRange(staged, indexes) && indexes != []
      modifies this
      ensures InRange(old(staged), indexes)
      ensures Outcome(Value(), status, recovered, aborted) == RecoverWindow(old(Value()), command, indexes)
    {
      hide InventoriesValid, RecoverableCount, Dispose, CountVisible, CountAborted, Elements;
      var action := command.action;
      var required := Elements(staged[indexes[0]].transaction.logTags);
      var valid := VerifyInventories(
        Value(), required, action.window, action.inventories, action.previousGeneration, action.recoveryId);
      var count := ScanPrefix(policies, action.inventories, action.window.records);
      if !valid || count.None? {
        return InvalidStagedPrefix, 0, 0;
      }
      status := AlreadyPrefixRecovered;
      if !IsRetry(Value(), command, indexes) {
        DisposeWindow(indexes, count.value, command.generation);
        generation := command.generation;
        status := PrefixRecovered;
      }
      recovered, aborted := CountOutcomes(staged, indexes);
    }

    method RecoverPrefix(command: StagedCommand, authority: Generation.Authority)
      returns (status: Status, recovered: nat, aborted: nat)
      requires command.action.TakeoverRecoverPrefix?
      modifies this
      ensures Outcome(Value(), status, recovered, aborted) == ApplyRecoverPrefix(old(Value()), command, authority)
    {
      if !PrefixRequestValid(Value(), command, authority) {
        return InvalidStagedPrefix, 0, 0;
      }
      WindowIsStaged(Value(), command, authority);
      hide PrefixRequestValid, RecoverWindow, WindowIndexes;
      var indexes := WindowIndexes(staged, command.action.window.records);
      status, recovered, aborted := RecoverCheckedWindow(command, indexes);
    }

    /** One staged command, as the replicated log delivers it. */
    method ApplyCommand(command: StagedCommand, logIndex: U64, authority: Generation.Authority)
      returns (status: Status, recovered: nat, aborted: nat)
      modifies this
      ensures Outcome(Value(), status, recovered, aborted) == ApplyStaged(old(Value()), command, logIndex, authority)
    {
      hide ApplyInstall, ApplyPrepareTransition, ApplyCommitTransition, ApplyReserve, ApplyStage, ApplyReceipt,
        ApplyCertificate, ApplyPublish, ApplyTakeoverPublish, ApplyTakeoverAbort, ApplyRecoverPrefix;
      recovered, aborted := 0, 0;
      if command.generation == 0 || (!IsTakeover(command.action) && generation != command.generation) {
        return InvalidStagedRequest, 0, 0;
      }
      match command.action {
        case InstallPolicies(installed) => status := InstallPolicies(command, installed);
        case PrepareTransition(transition, readiness) => status := PrepareTransition(command, transition, readiness);
        case CommitTransition(id, stage) => status := CommitTransition(id, stage, logIndex);
        case ReserveCapacity(tx, certificates) => status := ReserveCapacity(command, tx, certificates);
        case Stage(tx) => status := Stage(command, tx, logIndex);
        case RecordReceipt(receipt) => status := RecordReceipt(command, receipt);
        case RecordCertificate(certificate) => status := RecordCertificate(command, certificate);
        case PublishStaged => status := PublishStaged(command);
        case TakeoverPublish(_, _, _, _) => status := TakeoverPublish(command, authority);
        case TakeoverAbort(_, _, _, _, _) => status := TakeoverAbort(command, authority);
        case TakeoverRecoverPrefix(_, _, _, _) => status, recovered, aborted := RecoverPrefix(command, authority);
      }
    }
  }

  // ---- proofs that commands carry ----

  method VerifyCertificate(
    certificate: TaggedLogCertificate, policy: LogSetPolicy, record: StagedTransaction, cell: Bytes, tenant: Bytes,
    generation: U64) returns (valid: bool)
    ensures valid <==> CertificateValid(certificate, policy, record, cell, tenant, generation)
  {
    hide EnvelopeCertificateValid;
    var statement := certificate.statement;
    if statement.cell != cell || statement.tenant != tenant || statement.generation != generation
       || statement.transactionIdentity != record.identity || statement.commitSequence != record.sequence
       || statement.logSet !in record.transaction.logTags {
      return false;
    }
    valid := VerifyEnvelopeCertificate(certificate, policy, record.envelope);
  }

  method VerifyTransition(
    transition: LogSetTransition, readiness: RepairCertificate, current: LogSetPolicy, cell: Bytes, tenant: Bytes,
    generation: U64) returns (valid: bool)
    ensures valid <==> ValidTransition(transition, readiness, current, cell, tenant, generation)
  {
    hide ValidPolicy, SucceedsPolicy, SwapsOneMember, ReadinessMatches, RepairCertificateValid;
    if transition.formatVersion != 1 || transition.cell != cell || transition.tenant != tenant
       || transition.generation != generation || transition.transitionId == 0
       || transition.logSet != current.logSet || transition.oldPolicy != current
       || !ValidPolicy(transition.nextPolicy, generation) || !SucceedsPolicy(transition.nextPolicy, current)
       || !SwapsOneMember(transition) || transition.learnerIncarnation == ZERO16 || |transition.learnerKey| != 32
       || !ReadinessMatches(readiness, transition) {
      return false;
    }
    valid := VerifyRepairCertificate(readiness, current);
  }

  method VerifyCapacityEvidence(d: Domain, tx: Transaction, certificate: CapacityCertificate, epoch: U64)
    returns (valid: bool)
    ensures valid <==> CapacityEvidenceValid(d, tx, certificate, epoch)
  {
    hide SamplesFresh, CapacityCertificateValid, Canonical;
    var statement := certificate.statement;
    if statement.logSet !in d.policies || statement.logSet !in tx.logTags || statement.cell != tx.cell
       || statement.tenant != tx.tenant || statement.generation != tx.generation
       || statement.transactionIdentity != tx.identity
       || statement.transactionDigest != RatekeeperDigest(Canonical(tx))
       || statement.softLimitBytes != d.policies[statement.logSet].softLimitBytes
       || statement.reservationEpoch != epoch || !SamplesFresh(d, certificate) {
      return false;
    }
    valid := VerifyCapacityCertificate(certificate, d.policies[statement.logSet]);
  }

  method VerifyCapacityProof(d: Domain, tx: Transaction, certificates: seq<CapacityCertificate>)
    returns (valid: bool)
    ensures valid <==> CapacityProofValid(d, tx, certificates)
  {
    hide CapacityEvidenceValid, LimitedSets;
    var sets, epoch := LimitedSets(d.policies, tx.logTags), ReservationEpoch(certificates);
    if sets == [] || |sets| != |certificates| || !Distinct(CertificateSets(certificates))
       || epoch <= EpochOf(d.attemptEpochs, tx.identity) {
      return false;
    }
    for i := 0 to |certificates|
      invariant forall k :: 0 <= k < i ==> CapacityEvidenceValid(d, tx, certificates[k], epoch)
    {
      valid := VerifyCapacityEvidence(d, tx, certificates[i], epoch);
      if !valid {
        return false;
      }
    }
    return true;
  }

  method VerifyAbortProof(
    d: Domain, record: StagedTransaction, fences: seq<FenceCertificate>, generation: U64, recoveryId: U64)
    returns (valid: bool)
    ensures valid <==> AbortProofValid(d, record, fences, generation, recoveryId)
  {
    hide FenceCertificateValid, AbsenceProven, Elements, Distinct;
    if Elements(FenceSets(fences)) != Elements(record.transaction.logTags) || !Distinct(FenceSets(fences)) {
      return false;
    }
    var absent := false;
    for i := 0 to |fences|
      invariant forall k :: 0 <= k < i ==>
                  && fences[k].statement.logSet in d.policies
                  && FenceCertificateValid(
                       fences[k], d.policies[fences[k].statement.logSet], record, d.cell, d.tenant, generation,
                       recoveryId)
      invariant absent <==> exists k :: 0 <= k < i && AbsenceProven(d, record, fences[k])
    {
      if fences[i].statement.logSet !in d.policies {
        return false;
      }
      valid := VerifyFenceCertificate(
        fences[i], d.policies[fences[i].statement.logSet], record, d.cell, d.tenant, generation, recoveryId);
      if !valid {
        return false;
      }
      absent := absent || AbsenceProven(d, record, fences[i]);
    }
    return absent;
  }

  method VerifyInventories(
    d: Domain, required: set<U16>, window: StagedWindow, inventories: seq<PrefixFenceCertificate>, generation: U64,
    recoveryId: U64) returns (valid: bool)
    ensures valid <==> InventoriesValid(d, required, window, inventories, generation, recoveryId)
  {
    hide PrefixFenceCertificateValid, Elements, Distinct;
    if Elements(InventorySets(inventories)) != required || !Distinct(InventorySets(inventories)) {
      return false;
    }
    for i := 0 to |inventories|
      invariant forall k :: 0 <= k < i ==>
                  && inventories[k].statement.logSet in d.policies
                  && PrefixFenceCertificateValid(
                       inventories[k], d.policies[inventories[k].statement.logSet], window, d.cell, d.tenant,
                       generation, recoveryId)
    {
      if inventories[i].statement.logSet !in d.policies {
        return false;
      }
      valid := VerifyPrefixFenceCertificate(
        inventories[i], d.policies[inventories[i].statement.logSet], window, d.cell, d.tenant, generation, recoveryId);
      if !valid {
        return false;
      }
    }
    return true;
  }

  lemma WindowIsStaged(d: Domain, command: StagedCommand, authority: Generation.Authority)
    requires command.action.TakeoverRecoverPrefix? && PrefixRequestValid(d, command, authority)
    ensures var indexes := WindowIndexes(d.log.staged, command.action.window.records);
            InRange(d.log.staged, indexes) && indexes != []
  {
    hide SuccessorAuthorized, ValidWindow, ChainExact, UnresolvedIndexes, TotalBytes, Find;
  }

  /** Scan the window until the first record that is absent somewhere; refuse what is undecided or contradictory. */
  method ScanPrefix(
    policies: map<U16, LogSetPolicy>, inventories: seq<PrefixFenceCertificate>, records: seq<WindowRecord>)
    returns (count: Option<nat>)
    ensures count == RecoverableCount(policies, inventories, records, 0)
  {
    hide Unambiguous, PresentEverywhere, AbsentSomewhere;
    for offset := 0 to |records|
      invariant RecoverableCount(policies, inventories, records, 0)
                == RecoverableCount(policies, inventories, records, offset)
    {
      var unambiguous, present, absent := ScanRecord(policies, inventories, records[offset]);
      if !unambiguous {
        return None;
      }
      if !present {
        return if absent then Some(offset) else None;
      }
    }
    return Some(|records|);
  }

  /** What all inventories together say of one record. */
  method ScanRecord(policies: map<U16, LogSetPolicy>, inventories: seq<PrefixFenceCertificate>, record: WindowRecord)
    returns (unambiguous: bool, present: bool, absent: bool)
    ensures unambiguous <==> Unambiguous(policies, inventories, record)
    ensures unambiguous ==> (present <==> PresentEverywhere(policies, inventories, record))
    ensures unambiguous ==> (absent <==> AbsentSomewhere(policies, inventories, record))
  {
    hide QuorumReports;
    present, absent := true, false;
    for i := 0 to |inventories|
      invariant present <==> forall k :: 0 <= k < i ==> QuorumReports(policies, inventories[k], record, true)
      invariant absent <==> exists k :: 0 <= k < i && QuorumReports(policies, inventories[k], record, false)
      invariant forall k :: 0 <= k < i ==>
                  !(QuorumReports(policies, inventories[k], record, true)
                    && QuorumReports(policies, inventories[k], record, false))
    {
      var here, gone :=
        QuorumReports(policies, inventories[i], record, true), QuorumReports(policies, inventories[i], record, false);
      if here && gone {
        return false, present, absent;
      }
      present, absent := present && here, absent || gone;
    }
    unambiguous := true;
  }

  method CountOutcomes(staged: seq<StagedTransaction>, indexes: seq<nat>) returns (visible: nat, aborted: nat)
    requires InRange(staged, indexes)
    ensures visible == CountVisible(staged, indexes) && aborted == CountAborted(staged, indexes)
  {
    visible, aborted := 0, 0;
    for k := 0 to |indexes|
      invariant visible == CountVisible(staged, indexes[..k]) && aborted == CountAborted(staged, indexes[..k])
    {
      assert indexes[..k + 1][..k] == indexes[..k];
      var record := staged[indexes[k]];
      visible := if record.visible then visible + 1 else visible;
      aborted := if record.aborted then aborted + 1 else aborted;
    }
    assert indexes[..|indexes|] == indexes;
  }

  /** Keep the newer epoch of each signer. */
  method MergeEpochs(kept: map<U64, U64>, consumed: map<U64, U64>) returns (merged: map<U64, U64>)
    ensures merged == NewerEpochs(kept, consumed)
  {
    merged := kept;
    var remaining := consumed.Keys;
    while remaining != {}
      invariant remaining <= consumed.Keys
      invariant merged == NewerEpochs(kept, consumed - remaining)
      decreases remaining
    {
      var signer :| signer in remaining;
      var epoch := consumed[signer];
      merged := merged[signer := if signer in merged && merged[signer] >= epoch then merged[signer] else epoch];
      remaining := remaining - {signer};
    }
    assert consumed - {} == consumed;
  }

  lemma SamplesAtStart(kept: map<U16, map<U64, U64>>, consumed: map<U16, map<U64, U64>>)
    ensures MergeSamples(kept, consumed - consumed.Keys) == kept
  {
    var none := consumed - consumed.Keys;
    forall logSet | logSet in kept
      ensures NewerEpochs(SamplesOf(kept, logSet), SamplesOf(none, logSet)) == kept[logSet]
    {
      assert SamplesOf(none, logSet) == map[];
    }
  }

  lemma NewerThanNothing(kept: map<U64, U64>)
    ensures NewerEpochs(kept, map[]) == kept
  {
  }

  /** A log set not merged yet still has its own samples. */
  lemma NotYetMerged(kept: map<U16, map<U64, U64>>, consumed: map<U16, map<U64, U64>>, logSet: U16)
    requires logSet !in consumed
    ensures SamplesOf(MergeSamples(kept, consumed), logSet) == SamplesOf(kept, logSet)
  {
    hide NewerEpochs;
    NewerThanNothing(SamplesOf(kept, logSet));
  }

  /** Merging one more log set replaces exactly its entry. */
  lemma MergeOneMore(
    kept: map<U16, map<U64, U64>>, consumed: map<U16, map<U64, U64>>, remaining: set<U16>, logSet: U16)
    requires remaining <= consumed.Keys && logSet in remaining
    ensures var before := MergeSamples(kept, consumed - remaining);
            && SamplesOf(before, logSet) == SamplesOf(kept, logSet)
            && MergeSamples(kept, consumed - (remaining - {logSet}))
               == before[logSet := NewerEpochs(SamplesOf(kept, logSet), consumed[logSet])]
  {
    hide NewerEpochs;
    NotYetMerged(kept, consumed - remaining, logSet);
    var before, less := MergeSamples(kept, consumed - remaining), consumed - (remaining - {logSet});
    var after := MergeSamples(kept, less);
    assert after.Keys == before.Keys + {logSet};
    forall other | other in after
      ensures after[other] ==
                if other == logSet then NewerEpochs(SamplesOf(kept, logSet), consumed[logSet]) else before[other]
    {
    }
  }
}
