/**
One transaction domain of the replicated authority and the commands that change it. Fault flags are
off. A command reaches the domain named by its cell and tenant, so those two fields are the domain's.
*/
module Domain {
  import opened Keys
  import opened Types
  import opened Sets
  import opened Quorum
  import opened Certificates
  import opened Resolver
  import opened Ordering
  import Generation

  datatype Reservation = Reservation(
    transaction: Transaction, epoch: U64, sampleEpochs: map<U16, map<U64, U64>>)

  datatype Domain = Domain(
    cell: Bytes,
    tenant: Bytes,
    log: CommitLog,
    lastResolverCandidate: U64,
    lastResolverGeneration: U64,
    policies: map<U16, LogSetPolicy>,
    pending: Option<LogSetTransition>,
    completed: map<U64, CompletedTransition>,
    reservations: map<Identity, Reservation>,
    attemptEpochs: map<Identity, U64>,
    sampleEpochs: map<U16, map<U64, U64>>)

  /** The domain as its first command creates it. */
  function Fresh(cell: Bytes, tenant: Bytes, generation: U64): Domain {
    Domain(
      cell, tenant, CommitLog(generation, 0, map[], [], [], ZeroDigest, []), 0, 0, map[], None, map[], map[], map[],
      map[])
  }

  // ---- one-shot transactions ----

  datatype DirectStatus =
    | Committed
    | Conflicted
    | FutureReadVersion
    | InvalidReadVersion
    | InvalidRequest
    | MissingLogTag
    | MissingResolver

  datatype DirectOutcome = DirectOutcome(domain: Domain, status: DirectStatus)

  /** Resolver evidence must arrive in candidate order: next in the same system generation, higher in a newer one. */
  predicate CandidateInOrder(d: Domain, tx: Transaction, resolution: PartitionedResolution) {
    var generation := SystemGeneration(tx, resolution);
    if generation == d.lastResolverGeneration
    then resolution.candidateSequence == Successor(d.lastResolverCandidate)
    else generation > d.lastResolverGeneration && resolution.candidateSequence > d.lastResolverCandidate
  }

  function NoteResolution(d: Domain, tx: Transaction, resolution: PartitionedResolution): Domain {
    d.(lastResolverCandidate := resolution.candidateSequence,
       lastResolverGeneration := SystemGeneration(tx, resolution))
  }

  function ApplyDirect(d: Domain, tx: Transaction, logIndex: U64): DirectOutcome {
    if tx.generation == 0 || d.log.generation != tx.generation
       || (tx.readVersion.sequence != 0 && tx.readVersion.generation != tx.generation)
    then DirectOutcome(d, InvalidReadVersion)
    else if tx.readVersion.sequence > d.log.latestSequence then DirectOutcome(d, FutureReadVersion)
    else if !ContainsAll(tx.logTags, REQUIRED_LOG_TAGS) then DirectOutcome(d, MissingLogTag)
    else if !ValidRequest(tx) then DirectOutcome(d, InvalidRequest)
    else if tx.resolution.Some? then
      var resolution := tx.resolution.value;
      if !CandidateInOrder(d, tx, resolution) then DirectOutcome(d, InvalidRequest)
      else
        match Resolve(tx, resolution)
        case None => DirectOutcome(d, MissingResolver)
        case Some(Conflict) => DirectOutcome(NoteResolution(d, tx, resolution), Conflicted)
        case Some(Accept) =>
          var noted := NoteResolution(d, tx, resolution);
          DirectOutcome(noted.(log := CommitDirectly(noted.log, tx, logIndex)), Committed)
    else if !ContainsAll(tx.acceptedResolvers, REQUIRED_RESOLVERS) then DirectOutcome(d, MissingResolver)
    else if CommittedConflict(d.log, tx) then DirectOutcome(d, Conflicted)
    else DirectOutcome(d.(log := CommitDirectly(d.log, tx, logIndex)), Committed)
  }

  // ---- staged commands ----

  datatype StagedAction =
    | InstallPolicies(policies: seq<LogSetPolicy>)
    | PrepareTransition(transition: LogSetTransition, readiness: RepairCertificate)
    | CommitTransition(transitionId: U64, successorStage: PolicyStageCertificate)
    | ReserveCapacity(transaction: Transaction, certificates: seq<CapacityCertificate>)
    | Stage(transaction: Transaction)
    | RecordReceipt(receipt: Receipt)
    | RecordCertificate(certificate: TaggedLogCertificate)
    | PublishStaged
    | TakeoverPublish(previousGeneration: U64, recoveryId: U64, expectedSequence: U64, expectedDigest: Digest)
    | TakeoverAbort(
        previousGeneration: U64, recoveryId: U64, expectedSequence: U64, expectedDigest: Digest,
        fences: seq<FenceCertificate>)
    | TakeoverRecoverPrefix(
        previousGeneration: U64, recoveryId: U64, window: StagedWindow, inventories: seq<PrefixFenceCertificate>)

  datatype StagedCommand = StagedCommand(
    credential: Option<Credential>, generation: U64, transactionIdentity: Identity, action: StagedAction)

  datatype Status =
    | LogSetPoliciesInstalled
    | PolicyTransitionPrepared
    | PolicyTransitionCommitted
    | AlreadyPolicyTransitionCommitted
    | InvalidPolicyTransition
    | CapacityReserved
    | RateLimited
    | InvalidCapacityCertificate
    | RatekeepingRequired
    | Staged
    | LogReceiptRecorded
    | LogCertificateRecorded
    | StagedCommitted
    | AlreadyCommitted
    | StagedConflicted
    | InvalidStagedRequest
    | InvalidLogReceipt
    | ConflictingLogReceipt
    | InvalidLogCertificate
    | ConflictingLogCertificate
    | InvalidLogSetPolicy
    | MissingLogReceipt
    | InvalidGenerationTakeover
    | Aborted
    | AlreadyAborted
    | PrefixRecovered
    | AlreadyPrefixRecovered
    | InvalidStagedPrefix

  /** The new domain, the reported status, and the counts a prefix recovery reports. */
  datatype Outcome = Outcome(domain: Domain, status: Status, recovered: nat, aborted: nat)

  function Reply(d: Domain, status: Status): Outcome {
    Outcome(d, status, 0, 0)
  }

  predicate IsTakeover(action: StagedAction) {
    action.TakeoverPublish? || action.TakeoverAbort? || action.TakeoverRecoverPrefix?
  }

  function ApplyStaged(d: Domain, command: StagedCommand, logIndex: U64, authority: Generation.Authority): Outcome {
    if command.generation == 0 || (!IsTakeover(command.action) && d.log.generation != command.generation)
    then Reply(d, InvalidStagedRequest)
    else
      match command.action
      case InstallPolicies(policies) => ApplyInstall(d, command, policies)
      case PrepareTransition(transition, readiness) => ApplyPrepareTransition(d, command, transition, readiness)
      case CommitTransition(id, stage) => ApplyCommitTransition(d, id, stage, logIndex)
      case ReserveCapacity(tx, certificates) => ApplyReserve(d, command, tx, certificates)
      case Stage(tx) => ApplyStage(d, command, tx, logIndex)
      case RecordReceipt(receipt) => ApplyReceipt(d, command, receipt)
      case RecordCertificate(certificate) => ApplyCertificate(d, command, certificate)
      case PublishStaged => ApplyPublish(d, command)
      case TakeoverPublish(_, _, _, _) => ApplyTakeoverPublish(d, command, authority)
      case TakeoverAbort(_, _, _, _, _) => ApplyTakeoverAbort(d, command, authority)
      case TakeoverRecoverPrefix(_, _, _, _) => ApplyRecoverPrefix(d, command, authority)
  }

  // ---- policies ----

  function PolicyIds(policies: seq<LogSetPolicy>): seq<U16> {
    seq(|policies|, i requires 0 <= i < |policies| => policies[i].logSet)
  }

  function InstallAll(installed: map<U16, LogSetPolicy>, policies: seq<LogSetPolicy>): map<U16, LogSetPolicy> {
    if policies == [] then installed
    else
      var n := |policies| - 1;
      InstallAll(installed, policies[..n])[policies[n].logSet := policies[n]]
  }

  /** A policy may not be replaced by a different one of its own generation. */
  predicate Installable(d: Domain, policy: LogSetPolicy, generation: U64) {
    && ValidPolicy(policy, generation)
    && !(policy.logSet in d.policies
         && d.policies[policy.logSet] != policy
         && d.policies[policy.logSet].generation == policy.generation)
  }

  function ApplyInstall(d: Domain, command: StagedCommand, policies: seq<LogSetPolicy>): Outcome {
    if policies == []
       || !NothingUnresolved(d.log.staged)
       || (exists i :: 0 <= i < |policies| && !Installable(d, policies[i], command.generation))
       || !Distinct(PolicyIds(policies))
    then Reply(d, InvalidLogSetPolicy)
    else Reply(d.(policies := InstallAll(d.policies, policies)), LogSetPoliciesInstalled)
  }

  function BumpSequence(log: CommitLog): CommitLog {
    log.(latestSequence := Successor(log.latestSequence))
  }

  function ApplyPrepareTransition(
    d: Domain, command: StagedCommand, transition: LogSetTransition, readiness: RepairCertificate): Outcome
  {
    if transition.transitionId in d.completed then
      Reply(d, if d.completed[transition.transitionId].transition == transition
               then AlreadyPolicyTransitionCommitted else InvalidPolicyTransition)
    else if d.pending.Some? then
      Reply(d, if d.pending.value == transition then PolicyTransitionPrepared else InvalidPolicyTransition)
    else if !NothingUnresolved(d.log.staged)
            || transition.logSet !in d.policies
            || !ValidTransition(
                  transition, readiness, d.policies[transition.logSet], d.cell, d.tenant, command.generation)
    then Reply(d, InvalidPolicyTransition)
    else Reply(d.(pending := Some(transition), log := BumpSequence(d.log)), PolicyTransitionPrepared)
  }

  function ApplyCommitTransition(d: Domain, id: U64, stage: PolicyStageCertificate, logIndex: U64): Outcome {
    if id in d.completed then
      Reply(d, if d.completed[id].successorStageDigest == PolicyStageIdentity(stage)
               then AlreadyPolicyTransitionCommitted else InvalidPolicyTransition)
    else if d.pending.None? then Reply(d, InvalidPolicyTransition)
    else
      var transition := d.pending.value;
      if transition.transitionId != id
         || !NothingUnresolved(d.log.staged)
         || !PolicyStageCertificateValid(stage, transition)
      then Reply(d, InvalidPolicyTransition)
      else
        Reply(
          d.(policies := d.policies[transition.logSet := transition.nextPolicy],
             completed := d.completed[id := CompletedTransition(transition, PolicyStageIdentity(stage), logIndex)],
             pending := None,
             log := BumpSequence(d.log)),
          PolicyTransitionCommitted)
  }

  /** A prepared transition blocks every transaction that needs its log set. */
  predicate BlockedByTransition(d: Domain, tx: Transaction) {
    d.pending.Some? && d.pending.value.logSet in tx.logTags
  }

  /** What a repeated request for an already staged identity reports. */
  function RetryStatus(record: StagedTransaction, tx: Transaction): Status {
    if record.transaction != tx then InvalidStagedRequest
    else if record.visible then AlreadyCommitted
    else if record.aborted then AlreadyAborted
    else Staged
  }

  // ---- capacity ----

  predicate ReserveRequestValid(d: Domain, command: StagedCommand, tx: Transaction) {
    && tx.identity == command.transactionIdentity
    && tx.cell == d.cell
    && tx.tenant == d.tenant
    && tx.generation == command.generation
    && tx.credential == command.credential
    && tx.readVersion.sequence <= d.log.latestSequence
    && ContainsAll(tx.acceptedResolvers, REQUIRED_RESOLVERS)
    && ContainsAll(tx.logTags, REQUIRED_LOG_TAGS)
    && ValidRequest(tx)
  }

  predicate Limited(policies: map<U16, LogSetPolicy>, logSet: U16) {
    logSet in policies && policies[logSet].softLimitBytes > 0
  }

  /** The limited log sets among the tags, repeated as the tags repeat. */
  function LimitedSets(policies: map<U16, LogSetPolicy>, tags: seq<U16>): seq<U16> {
    if tags == [] then []
    else (if Limited(policies, tags[0]) then [tags[0]] else []) + LimitedSets(policies, tags[1..])
  }

  function CertificateSets(certificates: seq<CapacityCertificate>): seq<U16> {
    seq(|certificates|, i requires 0 <= i < |certificates| => certificates[i].statement.logSet)
  }

  function EpochOf<K>(epochs: map<K, U64>, key: K): U64 {
    if key in epochs then epochs[key] else 0
  }

  function SamplesOf(samples: map<U16, map<U64, U64>>, logSet: U16): map<U64, U64> {
    if logSet in samples then samples[logSet] else map[]
  }

  /** Every sample is newer than the last one consumed from the same signer of the same log set. */
  predicate SamplesFresh(d: Domain, certificate: CapacityCertificate) {
    forall i :: 0 <= i < |certificate.attestations| ==>
      var sample := certificate.attestations[i].sample;
      sample.sampleEpoch > EpochOf(SamplesOf(d.sampleEpochs, certificate.statement.logSet), sample.signer)
  }

  predicate CapacityEvidenceValid(d: Domain, tx: Transaction, certificate: CapacityCertificate, epoch: U64) {
    var statement := certificate.statement;
    && statement.logSet in d.policies
    && statement.logSet in tx.logTags
    && statement.cell == tx.cell
    && statement.tenant == tx.tenant
    && statement.generation == tx.generation
    && statement.transactionIdentity == tx.identity
    && statement.transactionDigest == RatekeeperDigest(Canonical(tx))
    && statement.softLimitBytes == d.policies[statement.logSet].softLimitBytes
    && statement.reservationEpoch == epoch
    && SamplesFresh(d, certificate)
    && CapacityCertificateValid(certificate, d.policies[statement.logSet])
  }

  function ReservationEpoch(certificates: seq<CapacityCertificate>): U64 {
    if certificates == [] then 0 else certificates[0].statement.reservationEpoch
  }

  predicate CapacityProofValid(d: Domain, tx: Transaction, certificates: seq<CapacityCertificate>) {
    && LimitedSets(d.policies, tx.logTags) != []
    && |LimitedSets(d.policies, tx.logTags)| == |certificates|
    && Distinct(CertificateSets(certificates))
    && ReservationEpoch(certificates) > EpochOf(d.attemptEpochs, tx.identity)
    && forall i :: 0 <= i < |certificates| ==>
         CapacityEvidenceValid(d, tx, certificates[i], ReservationEpoch(certificates))
  }

  function EligibleCount(attestations: seq<CapacityAttestation>, projected: U64, limit: U64): nat {
    if attestations == [] then 0
    else
      (if SaturatingAdd(attestations[0].sample.retainedBytes, projected) <= limit then 1 else 0)
      + EligibleCount(attestations[1..], projected, limit)
  }

  function CertificateFor(certificates: seq<CapacityCertificate>, logSet: U16): Option<CapacityCertificate> {
    if certificates == [] then None
    else if certificates[0].statement.logSet == logSet then Some(certificates[0])
    else CertificateFor(certificates[1..], logSet)
  }

  /** Enough signers of the log set have room for the projected frame under its soft limit. */
  predicate RoomIn(policy: LogSetPolicy, certificates: seq<CapacityCertificate>) {
    var certificate := CertificateFor(certificates, policy.logSet);
    && certificate.Some?
    && EligibleCount(
         certificate.value.attestations, certificate.value.statement.projectedFrameBytes, policy.softLimitBytes)
       >= policy.quorum
  }

  predicate RoomEverywhere(d: Domain, tx: Transaction, certificates: seq<CapacityCertificate>) {
    forall i :: 0 <= i < |tx.logTags| && Limited(d.policies, tx.logTags[i]) ==>
      RoomIn(d.policies[tx.logTags[i]], certificates)
  }

  function SampleMap(attestations: seq<CapacityAttestation>): map<U64, U64> {
    if attestations == [] then map[]
    else
      var n := |attestations| - 1;
      SampleMap(attestations[..n])[attestations[n].sample.signer := attestations[n].sample.sampleEpoch]
  }

  function SamplesIn(certificates: seq<CapacityCertificate>): map<U16, map<U64, U64>> {
    if certificates == [] then map[]
    else
      var n := |certificates| - 1;
      SamplesIn(certificates[..n])[certificates[n].statement.logSet := SampleMap(certificates[n].attestations)]
  }

  function ApplyReserve(d: Domain, command: StagedCommand, tx: Transaction, certificates: seq<CapacityCertificate>)
    : Outcome
  {
    var index := Find(d.log.staged, command.transactionIdentity);
    if !ReserveRequestValid(d, command, tx) then Reply(d, InvalidStagedRequest)
    else if BlockedByTransition(d, tx) then Reply(d, InvalidPolicyTransition)
    else if index < |d.log.staged| then Reply(d, RetryStatus(d.log.staged[index], tx))
    else if !CapacityProofValid(d, tx, certificates) then Reply(d, InvalidCapacityCertificate)
    else
      var attempted := d.(attemptEpochs := d.attemptEpochs[tx.identity := ReservationEpoch(certificates)]);
      if !RoomEverywhere(d, tx, certificates) then
        Reply(attempted.(reservations := d.reservations - {tx.identity}), RateLimited)
      else
        Reply(
          attempted.(reservations := d.reservations[
            tx.identity := Reservation(tx, ReservationEpoch(certificates), SamplesIn(certificates))]),
          CapacityReserved)
  }

  function NewerEpochs(kept: map<U64, U64>, consumed: map<U64, U64>): map<U64, U64> {
    map signer | signer in kept.Keys + consumed.Keys ::
      if signer in kept && (signer !in consumed || kept[signer] >= consumed[signer])
      then kept[signer] else consumed[signer]
  }

  function MergeSamples(kept: map<U16, map<U64, U64>>, consumed: map<U16, map<U64, U64>>): map<U16, map<U64, U64>> {
    map logSet | logSet in kept.Keys + consumed.Keys ::
      NewerEpochs(SamplesOf(kept, logSet), SamplesOf(consumed, logSet))
  }

  function ConsumeReservation(d: Domain, identity: Identity): Domain {
    if identity !in d.reservations then d
    else
      d.(reservations := d.reservations - {identity},
         sampleEpochs := MergeSamples(d.sampleEpochs, d.reservations[identity].sampleEpochs))
  }

  // ---- staging ----

  function ConfiguredCount(policies: map<U16, LogSetPolicy>, tags: seq<U16>): nat {
    if tags == [] then 0
    else (if tags[0] in policies then 1 else 0) + ConfiguredCount(policies, tags[1..])
  }

  predicate StageRequestValid(d: Domain, command: StagedCommand, tx: Transaction) {
    var configured := ConfiguredCount(d.policies, tx.logTags);
    && tx.identity == command.transactionIdentity
    && tx.cell == d.cell
    && tx.tenant == d.tenant
    && tx.generation == command.generation
    && tx.credential == command.credential
    && (tx.readVersion.sequence != 0 ==> tx.readVersion.generation == tx.generation)
    && tx.readVersion.sequence <= d.log.latestSequence
    && (tx.resolution.None? ==> ContainsAll(tx.acceptedResolvers, REQUIRED_RESOLVERS))
    && ContainsAll(tx.logTags, REQUIRED_LOG_TAGS)
    && (configured == 0 || configured == |tx.logTags|)
    && ValidRequest(tx)
  }

  predicate RatekeepingNeeded(d: Domain, tx: Transaction) {
    exists i :: 0 <= i < |tx.logTags| && Limited(d.policies, tx.logTags[i])
  }

  predicate HoldsReservation(d: Domain, tx: Transaction) {
    tx.identity in d.reservations && d.reservations[tx.identity].transaction == tx
  }

  /** Admission past the resolver decision: rate keeping, then conflicts unless resolvers already decided. */
  function AdmitStage(d: Domain, tx: Transaction, logIndex: U64): Outcome {
    if RatekeepingNeeded(d, tx) && !HoldsReservation(d, tx) then Reply(d, RatekeepingRequired)
    else if tx.resolution.None? && (CommittedConflict(d.log, tx) || StagedConflict(d.log, tx))
    then Reply(d, StagedConflicted)
    else
      var staged := d.(log := AppendStaged(d.log, tx, logIndex));
      Reply(ConsumeReservation(staged, tx.identity), Staged)
  }

  function ApplyStage(d: Domain, command: StagedCommand, tx: Transaction, logIndex: U64): Outcome {
    var index := Find(d.log.staged, command.transactionIdentity);
    if !StageRequestValid(d, command, tx) then Reply(d, InvalidStagedRequest)
    else if BlockedByTransition(d, tx) then Reply(d, InvalidPolicyTransition)
    else if index < |d.log.staged| then Reply(d, RetryStatus(d.log.staged[index], tx))
    else if tx.resolution.None? then AdmitStage(d, tx, logIndex)
    else if !CandidateInOrder(d, tx, tx.resolution.value) then Reply(d, InvalidStagedRequest)
    else
      match Resolve(tx, tx.resolution.value)
      case None => Reply(d, InvalidStagedRequest)
      case Some(Conflict) => Reply(NoteResolution(d, tx, tx.resolution.value), StagedConflicted)
      case Some(Accept) => AdmitStage(NoteResolution(d, tx, tx.resolution.value), tx, logIndex)
  }

  // ---- durability evidence ----

  predicate ReceiptValid(receipt: Receipt, command: StagedCommand, record: StagedTransaction) {
    && receipt.formatVersion == 1
    && receipt.generation == command.generation
    && command.credential == record.transaction.credential
    && receipt.envelopeDigest == EnvelopeDigest(record.envelope)
    && receipt.durablePosition != 0
    && |receipt.quorumNodes| >= 2
    && Distinct(receipt.quorumNodes)
    && receipt.logSet in record.transaction.logTags
  }

  function WithRecord(d: Domain, i: nat, record: StagedTransaction): Domain
    requires i < |d.log.staged|
  {
    d.(log := d.log.(staged := d.log.staged[i := record]))
  }

  function ApplyReceipt(d: Domain, command: StagedCommand, receipt: Receipt): Outcome {
    var i := Find(d.log.staged, command.transactionIdentity);
    if i == |d.log.staged| then Reply(d, InvalidStagedRequest)
    else
      var record := d.log.staged[i];
      if record.aborted then Reply(d, AlreadyAborted)
      else if receipt.logSet in d.policies || !ReceiptValid(receipt, command, record) then Reply(d, InvalidLogReceipt)
      else if receipt.logSet in record.receipts then
        Reply(d, if record.receipts[receipt.logSet] == receipt then LogReceiptRecorded else ConflictingLogReceipt)
      else
        Reply(
          WithRecord(d, i, record.(receipts := record.receipts[receipt.logSet := receipt])), LogReceiptRecorded)
  }

  predicate CertificateValid(
    certificate: TaggedLogCertificate, policy: LogSetPolicy, record: StagedTransaction, cell: Bytes, tenant: Bytes,
    generation: U64)
  {
    var statement := certificate.statement;
    && statement.cell == cell
    && statement.tenant == tenant
    && statement.generation == generation
    && statement.transactionIdentity == record.identity
    && statement.commitSequence == record.sequence
    && statement.logSet in record.transaction.logTags
    && EnvelopeCertificateValid(certificate, policy, record.envelope)
  }

  function ApplyCertificate(d: Domain, command: StagedCommand, certificate: TaggedLogCertificate): Outcome {
    var i := Find(d.log.staged, command.transactionIdentity);
    var logSet := certificate.statement.logSet;
    if i == |d.log.staged| then Reply(d, InvalidStagedRequest)
    else
      var record := d.log.staged[i];
      if record.aborted then Reply(d, AlreadyAborted)
      else if logSet !in d.policies
              || command.credential != record.transaction.credential
              || !CertificateValid(certificate, d.policies[logSet], record, d.cell, d.tenant, command.generation)
      then Reply(d, InvalidLogCertificate)
      else if logSet in record.certificates then
        Reply(d, if record.certificates[logSet] == certificate
                 then LogCertificateRecorded else ConflictingLogCertificate)
      else
        Reply(
          WithRecord(d, i, record.(certificates := record.certificates[logSet := certificate])),
          LogCertificateRecorded)
  }

  /** Every required log set has evidence of the kind its configuration asks for. */
  predicate DurableEverywhere(policies: map<U16, LogSetPolicy>, record: StagedTransaction) {
    forall i :: 0 <= i < |record.transaction.logTags| ==>
      var logSet := record.transaction.logTags[i];
      if logSet in policies then logSet in record.certificates else logSet in record.receipts
  }

  predicate EarlierPending(staged: seq<StagedTransaction>, sequence: U64) {
    exists i :: 0 <= i < |staged| && Unresolved(staged[i]) && staged[i].sequence < sequence
  }

  function ApplyPublish(d: Domain, command: StagedCommand): Outcome {
    var i := Find(d.log.staged, command.transactionIdentity);
    if i == |d.log.staged| then Reply(d, InvalidStagedRequest)
    else
      var record := d.log.staged[i];
      if record.visible then Reply(d, AlreadyCommitted)
      else if record.aborted then Reply(d, AlreadyAborted)
      else if command.credential != record.transaction.credential then Reply(d, InvalidStagedRequest)
      else if !DurableEverywhere(d.policies, record) || EarlierPending(d.log.staged, record.sequence)
      then Reply(d, MissingLogReceipt)
      else Reply(d.(log := Publish(d.log, i, record.transaction.generation)), StagedCommitted)
  }

  // ---- generation takeover ----

  function UnresolvedCount(staged: seq<StagedTransaction>): nat {
    if staged == [] then 0
    else (if Unresolved(staged[0]) then 1 else 0) + UnresolvedCount(staged[1..])
  }

  predicate SuccessorAuthorized(command: StagedCommand, authority: Generation.Authority, recoveryId: U64) {
    && command.credential.Some?
    && command.credential.value.generation == command.generation
    && Generation.Authorizes(authority, command.credential.value.generation, command.credential.value.transactionSystem)
    && authority.lastCompletedRecoveryId == Some(recoveryId)
  }

  /** The successor generation follows the domain's, and the named record is of that older generation. */
  predicate TakeoverMatches(
    d: Domain, command: StagedCommand, record: StagedTransaction, previousGeneration: U64, expectedSequence: U64,
    expectedDigest: Digest)
  {
    && command.generation == Successor(previousGeneration)
    && d.log.generation == previousGeneration
    && record.transaction.generation == previousGeneration
    && record.sequence == expectedSequence
    && EnvelopeDigest(record.envelope) == expectedDigest
    && Decodes(record.envelope)
    && record.envelope.generation == previousGeneration
    && record.envelope.versionSequence == expectedSequence
    && UnresolvedCount(d.log.staged) == 1
  }

  function ApplyTakeoverPublish(d: Domain, command: StagedCommand, authority: Generation.Authority): Outcome
    requires command.action.TakeoverPublish?
  {
    var action := command.action;
    var i := Find(d.log.staged, command.transactionIdentity);
    if i == |d.log.staged| then Reply(d, InvalidGenerationTakeover)
    else
      var record := d.log.staged[i];
      if record.visible && d.log.generation == command.generation then Reply(d, AlreadyCommitted)
      else if !SuccessorAuthorized(command, authority, action.recoveryId)
              || !TakeoverMatches(
                    d, command, record, action.previousGeneration, action.expectedSequence, action.expectedDigest)
              || !Certified(record)
      then Reply(d, InvalidGenerationTakeover)
      else Reply(d.(log := Publish(d.log, i, command.generation)), StagedCommitted)
  }

  predicate Certified(record: StagedTransaction) {
    forall i :: 0 <= i < |record.transaction.logTags| ==> record.transaction.logTags[i] in record.certificates
  }

  predicate FenceCertificateValid(
    certificate: FenceCertificate, policy: LogSetPolicy, record: StagedTransaction, cell: Bytes, tenant: Bytes,
    generation: U64, recoveryId: U64)
  {
    var statement := certificate.statement;
    && statement.formatVersion == 1
    && statement.cell == cell
    && statement.tenant == tenant
    && statement.generation == generation
    && statement.recoveryId == recoveryId
    && statement.transactionIdentity == record.identity
    && statement.commitSequence == record.sequence
    && statement.logSet == policy.logSet
    && statement.policyEpoch == policy.epoch
    && statement.envelopeDigest == EnvelopeDigest(record.envelope)
    && statement.logSet in record.transaction.logTags
    && QuorumVoted(FenceVotes(certificate), MemberMap(policy.members), policy.quorum)
  }

  method VerifyFenceCertificate(
    certificate: FenceCertificate, policy: LogSetPolicy, record: StagedTransaction, cell: Bytes, tenant: Bytes,
    generation: U64, recoveryId: U64) returns (valid: bool)
    ensures valid <==> FenceCertificateValid(certificate, policy, record, cell, tenant, generation, recoveryId)
  {
    hide MemberMap, QuorumVoted;
    var statement := certificate.statement;
    if statement.formatVersion != 1 || statement.cell != cell || statement.tenant != tenant
       || statement.generation != generation || statement.recoveryId != recoveryId
       || statement.transactionIdentity != record.identity || statement.commitSequence != record.sequence
       || statement.logSet != policy.logSet || statement.policyEpoch != policy.epoch
       || statement.envelopeDigest != EnvelopeDigest(record.envelope)
       || statement.logSet !in record.transaction.logTags {
      return false;
    }
    valid := CountVotes(FenceVotes(certificate), MemberMap(policy.members), policy.quorum);
  }

  function FenceSets(fences: seq<FenceCertificate>): seq<U16> {
    seq(|fences|, i requires 0 <= i < |fences| => fences[i].statement.logSet)
  }

  function AbsentCount(attestations: seq<FenceAttestation>): nat {
    if attestations == [] then 0
    else (if attestations[0].present then 0 else 1) + AbsentCount(attestations[1..])
  }

  /** One valid fence for each required log set and for nothing else. */
  predicate EveryFenceValid(
    d: Domain, record: StagedTransaction, fences: seq<FenceCertificate>, generation: U64, recoveryId: U64)
  {
    && Elements(FenceSets(fences)) == Elements(record.transaction.logTags)
    && Distinct(FenceSets(fences))
    && forall i :: 0 <= i < |fences| ==>
         && fences[i].statement.logSet in d.policies
         && FenceCertificateValid(
              fences[i], d.policies[fences[i].statement.logSet], record, d.cell, d.tenant, generation, recoveryId)
  }

  /** A fence over a log set without recorded durability reports the record absent on a quorum. */
  predicate AbsenceProven(d: Domain, record: StagedTransaction, fence: FenceCertificate) {
    var logSet := fence.statement.logSet;
    && logSet in record.transaction.logTags
    && logSet !in record.certificates
    && logSet in d.policies
    && AbsentCount(fence.attestations) >= d.policies[logSet].quorum
  }

  predicate AbortProofValid(
    d: Domain, record: StagedTransaction, fences: seq<FenceCertificate>, generation: U64, recoveryId: U64)
  {
    && EveryFenceValid(d, record, fences, generation, recoveryId)
    && exists i :: 0 <= i < |fences| && AbsenceProven(d, record, fences[i])
  }

  function ApplyTakeoverAbort(d: Domain, command: StagedCommand, authority: Generation.Authority): Outcome
    requires command.action.TakeoverAbort?
  {
    var action := command.action;
    var i := Find(d.log.staged, command.transactionIdentity);
    if i == |d.log.staged| then Reply(d, InvalidGenerationTakeover)
    else
      var record := d.log.staged[i];
      if record.aborted && d.log.generation == command.generation then Reply(d, AlreadyAborted)
      else if !SuccessorAuthorized(command, authority, action.recoveryId)
              || !TakeoverMatches(
                    d, command, record, action.previousGeneration, action.expectedSequence, action.expectedDigest)
              || record.visible
              || !AbortProofValid(d, record, action.fences, action.previousGeneration, action.recoveryId)
      then Reply(d, InvalidGenerationTakeover)
      else Reply(d.(log := Abort(d.log, i).(generation := command.generation)), Aborted)
  }

  // ---- prefix recovery ----

  const MAX_PREFIX_RECORDS: nat := 4

  const MAX_PREFIX_BYTES: nat := 16 * 1024

  /** Length of a byte array written as a JSON list of numbers. */
  function JsonBytes(bytes: Bytes): nat {
    if |bytes| == 0 then 2
    else JsonDigits(bytes, |bytes|) + |bytes| + 1
  }

  function JsonDigits(bytes: Bytes, count: nat): nat
    requires count <= |bytes|
  {
    if count == 0 then 0
    else
      JsonDigits(bytes, count - 1)
      + (if bytes[count - 1] < 10 then 1 else if bytes[count - 1] < 100 then 2 else 3)
  }

  function JsonRanges(ranges: seq<KeyRange>): nat {
    if ranges == [] then 2
    else
      JsonRanges(ranges[1..]) + (if |ranges| == 1 then 0 else 1)
      + 17 + JsonBytes(ranges[0].start) + JsonBytes(ranges[0].end)
  }

  function JsonMutation(mutation: Mutation): nat {
    match mutation
    case Clear(key) => 18 + JsonBytes(key)
    case Set(key, value) => 25 + JsonBytes(key) + JsonBytes(value)
  }

  function JsonMutations(mutations: seq<Mutation>): nat {
    if mutations == [] then 2
    else
      JsonMutations(mutations[1..]) + (if |mutations| == 1 then 0 else 1) + JsonMutation(mutations[0])
  }

  /** Encoded length: 226 bytes of fixed fields, the three JSON payloads, and two bytes per id and tag. */
  function EncodedBytes(envelope: Envelope): nat {
    226 + JsonRanges(envelope.readConflicts) + JsonRanges(envelope.writeConflicts)
    + JsonMutations(envelope.mutations) + 2 * |envelope.requiredResolvers| + 2 * |envelope.requiredLogTags|
  }

  function WindowIndexes(staged: seq<StagedTransaction>, records: seq<WindowRecord>): (indexes: seq<nat>)
    ensures |indexes| == |records|
  {
    seq(|records|, k requires 0 <= k < |records| => Find(staged, records[k].transactionIdentity))
  }

  /** Every window record is staged under its identity with the same sequence, envelope and generation. */
  predicate WindowMatches(staged: seq<StagedTransaction>, records: seq<WindowRecord>, generation: U64) {
    var indexes := WindowIndexes(staged, records);
    forall k :: 0 <= k < |records| ==>
      && indexes[k] < |staged|
      && staged[indexes[k]].sequence == records[k].commitSequence
      && EnvelopeDigest(staged[indexes[k]].envelope) == records[k].envelopeDigest
      && staged[indexes[k]].transaction.generation == generation
  }

  predicate InRange(staged: seq<StagedTransaction>, indexes: seq<nat>) {
    forall k :: 0 <= k < |indexes| ==> indexes[k] < |staged|
  }

  function TotalBytes(staged: seq<StagedTransaction>, indexes: seq<nat>): U64
    requires InRange(staged, indexes)
  {
    if indexes == [] then 0
    else
      var n := |indexes| - 1;
      SaturatingAdd(TotalBytes(staged, indexes[..n]), EncodedBytes(staged[indexes[n]].envelope))
  }

  predicate WindowAdmissible(staged: seq<StagedTransaction>, window: StagedWindow)
    requires InRange(staged, WindowIndexes(staged, window.records))
  {
    var indexes := WindowIndexes(staged, window.records);
    && window.encodedBytes == TotalBytes(staged, indexes)
    && |window.records| <= MAX_PREFIX_RECORDS
    && TotalBytes(staged, indexes) <= MAX_PREFIX_BYTES
    && forall k :: 0 < k < |indexes| ==> indexes[k - 1] < indexes[k]
  }

  function UnresolvedIndexes(staged: seq<StagedTransaction>): seq<nat> {
    if staged == [] then []
    else
      var n := |staged| - 1;
      UnresolvedIndexes(staged[..n]) + (if Unresolved(staged[n]) then [n] else [])
  }

  /** The window was already disposed of under the successor generation. */
  predicate IsRetry(d: Domain, command: StagedCommand, indexes: seq<nat>)
    requires InRange(d.log.staged, indexes)
  {
    && d.log.generation == command.generation
    && forall k :: 0 <= k < |indexes| ==> !Unresolved(d.log.staged[indexes[k]])
  }

  /** Window envelope `k` is of its record and names the one before it, or the committed chain unless retried. */
  predicate LinkExact(log: CommitLog, indexes: seq<nat>, k: nat, generation: U64, retry: bool)
    requires InRange(log.staged, indexes) && k < |indexes|
  {
    var record := log.staged[indexes[k]];
    && Decodes(record.envelope)
    && record.envelope.generation == generation
    && record.envelope.versionSequence == record.sequence
    && (if k == 0 then retry || record.envelope.previousLogChain == log.previousLogChain
        else record.envelope.previousLogChain == EnvelopeDigest(log.staged[indexes[k - 1]].envelope))
  }

  /** Envelopes of the window chain one through the next. */
  predicate ChainExact(log: CommitLog, indexes: seq<nat>, generation: U64, retry: bool)
    requires InRange(log.staged, indexes)
  {
    forall k :: 0 <= k < |indexes| ==> LinkExact(log, indexes, k, generation, retry)
  }

  /** All records of the window need the same log sets, and there is one. */
  predicate TagsAgree(staged: seq<StagedTransaction>, indexes: seq<nat>)
    requires InRange(staged, indexes)
  {
    && indexes != []
    && Elements(staged[indexes[0]].transaction.logTags) != {}
    && forall k :: 0 <= k < |indexes| ==>
         Elements(staged[indexes[k]].transaction.logTags) == Elements(staged[indexes[0]].transaction.logTags)
  }

  function InventorySets(inventories: seq<PrefixFenceCertificate>): seq<U16> {
    seq(|inventories|, i requires 0 <= i < |inventories| => inventories[i].statement.logSet)
  }

  predicate InventoriesValid(
    d: Domain, required: set<U16>, window: StagedWindow, inventories: seq<PrefixFenceCertificate>, generation: U64,
    recoveryId: U64)
  {
    && Elements(InventorySets(inventories)) == required
    && Distinct(InventorySets(inventories))
    && forall i :: 0 <= i < |inventories| ==>
         && inventories[i].statement.logSet in d.policies
         && PrefixFenceCertificateValid(
              inventories[i], d.policies[inventories[i].statement.logSet], window, d.cell, d.tenant, generation,
              recoveryId)
  }

  /** What an inventory says of one record: the first observation naming it. */
  function ObservedPresence(observations: seq<Observation>, record: WindowRecord): Option<bool> {
    if observations == [] then None
    else if observations[0].record == record then Some(observations[0].present)
    else ObservedPresence(observations[1..], record)
  }

  function ReportCount(attestations: seq<PrefixFenceAttestation>, record: WindowRecord, present: bool): nat {
    if attestations == [] then 0
    else
      (if ObservedPresence(attestations[0].observations, record) == Some(present) then 1 else 0)
      + ReportCount(attestations[1..], record, present)
  }

  /** A quorum of the inventory's signers reports the record present, or absent. */
  predicate QuorumReports(
    policies: map<U16, LogSetPolicy>, inventory: PrefixFenceCertificate, record: WindowRecord, present: bool)
  {
    && inventory.statement.logSet in policies
    && ReportCount(inventory.attestations, record, present) >= policies[inventory.statement.logSet].quorum
  }

  predicate PresentEverywhere(
    policies: map<U16, LogSetPolicy>, inventories: seq<PrefixFenceCertificate>, record: WindowRecord)
  {
    forall i :: 0 <= i < |inventories| ==> QuorumReports(policies, inventories[i], record, true)
  }

  predicate AbsentSomewhere(
    policies: map<U16, LogSetPolicy>, inventories: seq<PrefixFenceCertificate>, record: WindowRecord)
  {
    exists i :: 0 <= i < |inventories| && QuorumReports(policies, inventories[i], record, false)
  }

  /** No inventory has both a present and an absent quorum for the record. */
  predicate Unambiguous(
    policies: map<U16, LogSetPolicy>, inventories: seq<PrefixFenceCertificate>, record: WindowRecord)
  {
    forall i :: 0 <= i < |inventories| ==>
      !(QuorumReports(policies, inventories[i], record, true) && QuorumReports(policies, inventories[i], record, false))
  }

  /** How many records to publish: scan until the first absence, or nothing when a record is undecided. */
  function RecoverableCount(
    policies: map<U16, LogSetPolicy>, inventories: seq<PrefixFenceCertificate>, records: seq<WindowRecord>,
    from: nat): Option<nat>
    requires from <= |records|
    decreases |records| - from
  {
    if from == |records| then Some(from)
    else if !Unambiguous(policies, inventories, records[from]) then None
    else if PresentEverywhere(policies, inventories, records[from])
    then RecoverableCount(policies, inventories, records, from + 1)
    else if AbsentSomewhere(policies, inventories, records[from]) then Some(from)
    else None
  }

  function CountVisible(staged: seq<StagedTransaction>, indexes: seq<nat>): nat
    requires InRange(staged, indexes)
  {
    if indexes == [] then 0
    else
      var n := |indexes| - 1;
      CountVisible(staged, indexes[..n]) + (if staged[indexes[n]].visible then 1 else 0)
  }

  function CountAborted(staged: seq<StagedTransaction>, indexes: seq<nat>): nat
    requires InRange(staged, indexes)
  {
    if indexes == [] then 0
    else
      var n := |indexes| - 1;
      CountAborted(staged, indexes[..n]) + (if staged[indexes[n]].aborted then 1 else 0)
  }

  /** Publish the first `count` named records in order and abort the others. */
  function Dispose(log: CommitLog, indexes: seq<nat>, count: nat, generation: U64): (r: CommitLog)
    requires InRange(log.staged, indexes)
    ensures |r.staged| == |log.staged|
  {
    if indexes == [] then log
    else
      var n := |indexes| - 1;
      var before := Dispose(log, indexes[..n], count, generation);
      if n < count then Publish(before, indexes[n], generation) else Abort(before, indexes[n])
  }

  /** The checks before any inventory is looked at, in a first attempt or in a retry. */
  predicate PrefixRequestValid(d: Domain, command: StagedCommand, authority: Generation.Authority)
    requires command.action.TakeoverRecoverPrefix?
  {
    var action := command.action;
    var indexes := WindowIndexes(d.log.staged, action.window.records);
    && SuccessorAuthorized(command, authority, action.recoveryId)
    && command.generation == Successor(action.previousGeneration)
    && ValidWindow(action.window)
    && WindowMatches(d.log.staged, action.window.records, action.previousGeneration)
    && WindowAdmissible(d.log.staged, action.window)
    && (IsRetry(d, command, indexes)
        || (d.log.generation == action.previousGeneration && UnresolvedIndexes(d.log.staged) == indexes))
    && ChainExact(d.log, indexes, action.previousGeneration, IsRetry(d, command, indexes))
    && TagsAgree(d.log.staged, indexes)
  }

  /** Recovery of a window that passed the checks, given where its records are staged. */
  function RecoverWindow(d: Domain, command: StagedCommand, indexes: seq<nat>): Outcome
    requires command.action.TakeoverRecoverPrefix? && InRange(d.log.staged, indexes) && indexes != []
  {
    var action := command.action;
    var required := Elements(d.log.staged[indexes[0]].transaction.logTags);
    var count := RecoverableCount(d.policies, action.inventories, action.window.records, 0);
    if !InventoriesValid(d, required, action.window, action.inventories, action.previousGeneration, action.recoveryId)
       || count.None?
    then Reply(d, InvalidStagedPrefix)
    else if IsRetry(d, command, indexes) then
      Outcome(d, AlreadyPrefixRecovered, CountVisible(d.log.staged, indexes), CountAborted(d.log.staged, indexes))
    else
      var log := Dispose(d.log, indexes, count.value, command.generation).(generation := command.generation);
      Outcome(d.(log := log), PrefixRecovered, CountVisible(log.staged, indexes), CountAborted(log.staged, indexes))
  }

  function ApplyRecoverPrefix(d: Domain, command: StagedCommand, authority: Generation.Authority): Outcome
    requires command.action.TakeoverRecoverPrefix?
  {
    if !PrefixRequestValid(d, command, authority) then Reply(d, InvalidStagedPrefix)
    else RecoverWindow(d, command, WindowIndexes(d.log.staged, command.action.window.records))
  }
}
