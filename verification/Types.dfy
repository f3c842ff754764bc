/**
Wire records shared by the transaction authority, the generation authority and the tagged logs.

SHA-256 is idealised: a digest is the hashed value itself under a constructor, so equal
digests come from equal inputs, and no hash equals bytes that were not hashed. An Ed25519 signature is likewise the
pair of the signing key and the signed message. JSON encoding disappears with them.
Where the code sorts a list before hashing it, the digest holds a set or a multiset.
*/
module Types {
  import opened Keys

  const U64_MAX: nat := 0xFFFF_FFFF_FFFF_FFFF

  type U64 = n: nat | n <= U64_MAX

  type U16 = n: nat | n <= 0xFFFF

  /** `saturating_add(1)` on `u64`. */
  function Successor(n: U64): U64 {
    if n < U64_MAX then n + 1 else n
  }

  /** `saturating_add` on `u64`. */
  function SaturatingAdd(a: nat, b: nat): U64 {
    if a + b <= U64_MAX then a + b else U64_MAX
  }

  datatype Option<T> = None | Some(value: T)

  datatype Identity = Identity(client: U64, request: U64)

  datatype Credential = Credential(generation: U64, transactionSystem: string)

  // ---- transactions ----

  datatype ReadVersion = ReadVersion(generation: U64, sequence: U64)

  datatype Mutation = Clear(key: Bytes) | Set(key: Bytes, value: Bytes)

  datatype Transaction = Transaction(
    identity: Identity,
    credential: Option<Credential>,
    cell: Bytes,
    tenant: Bytes,
    generation: U64,
    readVersion: ReadVersion,
    readConflicts: seq<KeyRange>,
    writeConflicts: seq<KeyRange>,
    mutations: seq<Mutation>,
    resolution: Option<PartitionedResolution>,
    acceptedResolvers: seq<U16>,
    logTags: seq<U16>)

  /** What the transaction digests cover: the lists the code sorts and deduplicates are sets. */
  datatype CanonicalTransaction = CanonicalTransaction(
    identity: Identity,
    credential: Option<Credential>,
    cell: Bytes,
    tenant: Bytes,
    generation: U64,
    readVersion: ReadVersion,
    readConflicts: set<KeyRange>,
    writeConflicts: set<KeyRange>,
    mutations: set<Mutation>,
    attestations: Option<multiset<ResolverAttestation>>,
    acceptedResolvers: set<U16>,
    logTags: set<U16>)

  datatype Decision = Accept | Conflict

  datatype ResolverStatement = ResolverStatement(
    formatVersion: U16,
    cell: Bytes,
    tenant: Bytes,
    generation: U64,
    mapEpoch: U64,
    mapDigest: Digest,
    resolver: U16,
    incarnation: Bytes,
    transactionIdentity: Identity,
    candidateSequence: U64,
    readVersion: ReadVersion,
    resolverReadSequence: U64,
    transactionDigest: Digest,
    readConflicts: seq<KeyRange>,
    writeConflicts: seq<KeyRange>,
    decision: Decision)

  datatype ResolverAttestation = ResolverAttestation(statement: ResolverStatement, signature: Signature)

  datatype PartitionedResolution = PartitionedResolution(
    transactionSystemGeneration: U64,
    resolverReadSequence: U64,
    mapEpoch: U64,
    candidateSequence: U64,
    attestations: seq<ResolverAttestation>)

  /** A commit envelope; its encoded bytes are identified with the value. */
  datatype Envelope = Envelope(
    cell: Bytes,
    tenant: Bytes,
    generation: U64,
    versionGeneration: U64,
    versionSequence: U64,
    logIndex: U64,
    identity: Identity,
    readConflicts: seq<KeyRange>,
    writeConflicts: seq<KeyRange>,
    mutations: seq<Mutation>,
    requiredResolvers: seq<U16>,
    requiredLogTags: seq<U16>,
    previousLogChain: Digest)

  /** One entry of a log node's journal. */
  datatype LogRecord = LogRecord(position: U64, rangeTags: seq<U16>, envelope: Envelope)

  // ---- digests, signatures and signed messages ----

  datatype Digest =
    | ZeroDigest
    | RawDigest(bytes: Bytes)
    | EnvelopeDigest(envelope: Envelope)
    | WindowDigest(formatVersion: U16, first: U64, last: U64, encodedBytes: U64, records: seq<WindowRecord>)
    | RatekeeperDigest(transaction: CanonicalTransaction)
    | PartitionedDigest(partitioned: CanonicalTransaction)
    | ResolverMapDigest
    | TransitionDigest(transition: LogSetTransition, oldMembers: multiset<Member>, nextMembers: multiset<Member>)
    | SnapshotDigest(snapshot: seq<LogRecord>)
    | RepairDigest(repair: RepairStatement, repairAttestations: multiset<RepairAttestation>)
    | PolicyStageDigest(stage: PolicyStageStatement, stageAttestations: multiset<PolicyStageAttestation>)
    | RecoveryMembershipDigest(members: map<U64, Bytes>)
    | RoutineMembershipDigest(routineMembers: map<U64, Bytes>, incarnations: map<U64, Bytes>)
    | RoutineCertificateDigest(routine: RoutineStatement)

  const ZERO16: Bytes := [0, 0, 0, 0, 0, 0, 0, 0, 0, 0, 0, 0, 0, 0, 0, 0]

  datatype Message =
    | DurableMessage(durable: TaggedLogStatement)
    | FenceMessage(fence: FenceStatement, present: bool)
    | PrefixFenceMessage(prefix: PrefixFenceStatement, observations: seq<Observation>)
    | CapacityMessage(capacity: CapacityStatement, sample: CapacitySample)
    | RepairMessage(repair: RepairStatement, repairSigner: U64, repairSample: U64)
    | PolicyStageMessage(stage: PolicyStageStatement, stageSigner: U64, stageSample: U64)
    | ResolverMessage(decision: ResolverStatement)
    | RecoveryMessage(recovery: RecoveryStatement)
    | RoutineMessage(routine: RoutineStatement)

  datatype Signature = Signature(key: Bytes, message: Message) | Unrelated(bytes: Bytes)

  predicate Verifies(key: Bytes, message: Message, signature: Signature) {
    signature == Signature(key, message)
  }

  // ---- tagged-log evidence ----

  datatype Receipt = Receipt(
    formatVersion: U16,
    logSet: U16,
    generation: U64,
    envelopeDigest: Digest,
    durablePosition: U64,
    quorumNodes: seq<U64>)

  datatype Member = Member(node: U64, key: Bytes)

  datatype LogSetPolicy = LogSetPolicy(
    formatVersion: U16,
    generation: U64,
    epoch: U64,
    logSet: U16,
    quorum: U16,
    softLimitBytes: U64,
    members: seq<Member>)

  datatype TaggedLogStatement = TaggedLogStatement(
    formatVersion: U16,
    cell: Bytes,
    tenant: Bytes,
    generation: U64,
    transactionIdentity: Identity,
    commitSequence: U64,
    logSet: U16,
    policyEpoch: U64,
    envelopeDigest: Digest,
    durablePosition: U64)

  datatype Attestation = Attestation(signer: U64, signature: Signature)

  datatype TaggedLogCertificate = TaggedLogCertificate(
    statement: TaggedLogStatement, attestations: seq<Attestation>)

  datatype FenceStatement = FenceStatement(
    formatVersion: U16,
    cell: Bytes,
    tenant: Bytes,
    generation: U64,
    recoveryId: U64,
    transactionIdentity: Identity,
    commitSequence: U64,
    logSet: U16,
    policyEpoch: U64,
    envelopeDigest: Digest)

  datatype FenceAttestation = FenceAttestation(signer: U64, present: bool, signature: Signature)

  datatype FenceCertificate = FenceCertificate(statement: FenceStatement, attestations: seq<FenceAttestation>)

  datatype WindowRecord = WindowRecord(transactionIdentity: Identity, commitSequence: U64, envelopeDigest: Digest)

  datatype StagedWindow = StagedWindow(
    formatVersion: U16,
    firstSequence: U64,
    lastSequence: U64,
    encodedBytes: U64,
    records: seq<WindowRecord>,
    digest: Digest)

  datatype PrefixFenceStatement = PrefixFenceStatement(
    formatVersion: U16,
    cell: Bytes,
    tenant: Bytes,
    generation: U64,
    recoveryId: U64,
    logSet: U16,
    policyEpoch: U64,
    window: StagedWindow)

  datatype Observation = Observation(record: WindowRecord, present: bool)

  datatype PrefixFenceAttestation = PrefixFenceAttestation(
    signer: U64, observations: seq<Observation>, signature: Signature)

  datatype PrefixFenceCertificate = PrefixFenceCertificate(
    statement: PrefixFenceStatement, attestations: seq<PrefixFenceAttestation>)

  datatype CapacityStatement = CapacityStatement(
    formatVersion: U16,
    cell: Bytes,
    tenant: Bytes,
    generation: U64,
    transactionIdentity: Identity,
    transactionDigest: Digest,
    logSet: U16,
    policyEpoch: U64,
    projectedFrameBytes: U64,
    softLimitBytes: U64,
    reservationEpoch: U64)

  datatype CapacitySample = CapacitySample(
    signer: U64,
    lastPosition: U64,
    poppedThrough: U64,
    retainedBytes: U64,
    hardLimitBytes: U64,
    sampleEpoch: U64)

  datatype CapacityAttestation = CapacityAttestation(sample: CapacitySample, signature: Signature)

  datatype CapacityCertificate = CapacityCertificate(
    statement: CapacityStatement, attestations: seq<CapacityAttestation>)

  // ---- log-set policy transitions ----

  datatype RepairPhase = BaseSnapshot | RepairLearnerReady

  datatype RepairStatement = RepairStatement(
    formatVersion: U16,
    phase: RepairPhase,
    cell: Bytes,
    tenant: Bytes,
    generation: U64,
    logSet: U16,
    policyEpoch: U64,
    repairId: U64,
    failedNode: U64,
    learnerNode: U64,
    learnerIncarnation: Bytes,
    learnerKey: Bytes,
    lastPosition: U64,
    poppedThrough: U64,
    snapshotLength: U64,
    snapshotDigest: Digest)

  datatype RepairAttestation = RepairAttestation(signer: U64, sampleEpoch: U64, signature: Signature)

  datatype RepairCertificate = RepairCertificate(statement: RepairStatement, attestations: seq<RepairAttestation>)

  datatype LogSetTransition = LogSetTransition(
    formatVersion: U16,
    cell: Bytes,
    tenant: Bytes,
    generation: U64,
    transitionId: U64,
    logSet: U16,
    oldPolicy: LogSetPolicy,
    nextPolicy: LogSetPolicy,
    failedNode: U64,
    learnerNode: U64,
    learnerIncarnation: Bytes,
    learnerKey: Bytes,
    repairReadinessDigest: Digest,
    retainedRootDigest: Digest,
    retainedLastPosition: U64)

  datatype PolicyStageStatement = PolicyStageStatement(
    formatVersion: U16,
    cell: Bytes,
    tenant: Bytes,
    generation: U64,
    transitionId: U64,
    logSet: U16,
    oldPolicyEpoch: U64,
    nextPolicyEpoch: U64,
    transitionDigest: Digest,
    retainedRootDigest: Digest,
    retainedLastPosition: U64)

  datatype PolicyStageAttestation = PolicyStageAttestation(signer: U64, sampleEpoch: U64, signature: Signature)

  datatype PolicyStageCertificate = PolicyStageCertificate(
    statement: PolicyStageStatement, attestations: seq<PolicyStageAttestation>)

  datatype CompletedTransition = CompletedTransition(
    transition: LogSetTransition, successorStageDigest: Digest, authorityCommitIndex: U64)

  // ---- generation authority ----

  datatype LogPosition = LogPosition(term: U64, index: U64)

  datatype RecoveryKind = Fence | Recovered

  datatype RecoveryStatement = RecoveryStatement(
    protocolVersion: U16,
    kind: RecoveryKind,
    cell: U64,
    generation: U64,
    recoveryId: U64,
    activeSystem: string,
    pendingSystem: string,
    position: LogPosition,
    membershipDigest: Digest)

  datatype RecoveryCertificate = RecoveryCertificate(statement: RecoveryStatement, attestations: seq<Attestation>)

  datatype RoutineKind = LearnerReady | MembershipCommitted

  datatype RoutineStatement = RoutineStatement(
    protocolVersion: U16,
    kind: RoutineKind,
    cell: U64,
    generation: U64,
    membershipEpoch: U64,
    reconfigurationId: U64,
    transactionSystem: string,
    oldMembershipDigest: Digest,
    nextMembershipDigest: Digest,
    replacementNode: U64,
    replacementIncarnation: Bytes,
    snapshotPosition: LogPosition,
    appliedPosition: LogPosition)

  datatype RoutineCertificate = RoutineCertificate(statement: RoutineStatement, attestations: seq<Attestation>)
}
