/** The generation authority: which transaction system may commit, and who its voters are. */
module Generation {
  import opened Keys
  import opened Types
  import opened Quorum

  datatype Phase = Uninitialized | Active | Fencing | Recovering

  datatype RoutinePhase = Prepared | Ready

  datatype PendingRoutine = PendingRoutine(
    reconfigurationId: U64,
    expectedMembershipEpoch: U64,
    phase: RoutinePhase,
    replacementNode: U64,
    replacementIncarnation: Bytes,
    nextMembers: map<U64, Bytes>,
    nextIncarnations: map<U64, Bytes>,
    snapshotPosition: Option<LogPosition>,
    appliedPosition: Option<LogPosition>)

  datatype CompletedRoutine = CompletedRoutine(
    reconfigurationId: U64,
    membershipEpoch: U64,
    membershipDigest: Digest,
    membershipPosition: LogPosition,
    certificateDigest: Digest)

  datatype Authority = Authority(
    cell: U64,
    generation: U64,
    phase: Phase,
    recoveryId: Option<U64>,
    transactionSystem: Option<string>,
    pendingSystem: Option<string>,
    members: map<U64, Bytes>,
    incarnations: map<U64, Bytes>,
    pendingMembers: map<U64, Bytes>,
    pendingIncarnations: map<U64, Bytes>,
    walRoot: Option<string>,
    controlRootVersion: U64,
    fencedLogIndex: U64,
    recoveredLogIndex: U64,
    fencedPosition: Option<LogPosition>,
    recoveredPosition: Option<LogPosition>,
    lastCompletedGeneration: U64,
    lastCompletedRecoveryId: Option<U64>,
    membershipEpoch: U64,
    pendingRoutine: Option<PendingRoutine>,
    completedRoutines: map<U64, CompletedRoutine>)

  const INITIAL := Authority(
    0, 0, Uninitialized, None, None, None, map[], map[], map[], map[], None, 0, 0, 0, None, None, 0, None, 0, None,
    map[])

  datatype Action =
    | Bootstrap(
        bootCell: U64, bootGeneration: U64, bootSystem: string, bootMembers: map<U64, Bytes>,
        bootIncarnations: map<U64, Bytes>, bootWalRoot: string, bootControlRootVersion: U64)
    | Prepare(
        expectedGeneration: U64, nextGeneration: U64, prepareControlRootVersion: U64, prepareRecoveryId: U64,
        nextSystem: string, nextMembers: map<U64, Bytes>, nextIncarnations: map<U64, Bytes>)
    | Reserve(
        generation: U64, recoveryId: U64, system: string, expectedControlRootVersion: U64,
        certificate: Option<RecoveryCertificate>)
    | Activate(
        generation: U64, recoveryId: U64, system: string, walRoot: string, expectedControlRootVersion: U64,
        nextControlRootVersion: U64, certificate: Option<RecoveryCertificate>)
    | PrepareRoutine(
        expectedGeneration: U64, expectedMembershipEpoch: U64, expectedMembershipDigest: Digest,
        reconfigurationId: U64, replacementNode: U64, replacementIncarnation: Bytes,
        nextMembers: map<U64, Bytes>, nextIncarnations: map<U64, Bytes>)
    | MarkLearnerReady(
        generation: U64, membershipEpoch: U64, reconfigurationId: U64, routine: Option<RoutineCertificate>)
    | FinalizeRoutine(
        generation: U64, expectedMembershipEpoch: U64, reconfigurationId: U64, routine: Option<RoutineCertificate>)

  datatype Status =
    | Accepted
    | StaleGeneration
    | CompareFailed
    | RecoveryConflict
    | MissingRecoveryProof
    | InvalidRecoveryProof
    | StaleMembershipEpoch
    | ReconfigurationConflict
    | MissingRoutineProof
    | InvalidRoutineProof
    | InvalidPhase
    | InvalidRequest

  datatype Reply = Reply(state: Authority, status: Status)

  // ---- what a reader of the authority may conclude ----

  predicate Authorizes(a: Authority, generation: U64, system: string) {
    a.phase == Active && a.generation == generation && a.transactionSystem == Some(system)
  }

  // ---- memberships ----

  function QuorumSize(memberCount: nat): nat {
    memberCount / 2 + 1
  }

  predicate ValidRecoveryMembers(members: map<U64, Bytes>) {
    && members != map[]
    && forall node :: node in members ==> node != 0 && |members[node]| == 32
  }

  predicate ValidRoutineMembers(members: map<U64, Bytes>, incarnations: map<U64, Bytes>) {
    && ValidRecoveryMembers(members)
    && members.Keys == incarnations.Keys
    && forall node :: node in incarnations ==> incarnations[node] != ZERO16
  }

  predicate ValidMembers(members: map<U64, Bytes>, incarnations: map<U64, Bytes>) {
    ValidRecoveryMembers(members) && (incarnations == map[] || ValidRoutineMembers(members, incarnations))
  }

  predicate ValidRoutineReplacement(
    oldMembers: map<U64, Bytes>, oldIncarnations: map<U64, Bytes>,
    nextMembers: map<U64, Bytes>, nextIncarnations: map<U64, Bytes>,
    replacementNode: U64, replacementIncarnation: Bytes)
  {
    && ValidRoutineMembers(oldMembers, oldIncarnations)
    && ValidRoutineMembers(nextMembers, nextIncarnations)
    && |oldMembers| == |nextMembers|
    && replacementNode !in oldMembers
    && replacementNode in nextIncarnations
    && nextIncarnations[replacementNode] == replacementIncarnation
    && replacementIncarnation !in oldIncarnations.Values
    && |oldMembers.Keys - nextMembers.Keys| == 1
    && |nextMembers.Keys - oldMembers.Keys| == 1
    && replacementNode in nextMembers
  }

  function RoutineDigest(members: map<U64, Bytes>, incarnations: map<U64, Bytes>): Digest {
    RoutineMembershipDigest(members, map node | node in members && node in incarnations :: incarnations[node])
  }

  // ---- certificates ----

  /** The statement names exactly this authority's recovery; a recovered position lies past the fence. */
  predicate RecoveryStatementMatches(
    a: Authority, statement: RecoveryStatement, kind: RecoveryKind, members: map<U64, Bytes>)
  {
    && statement.protocolVersion == 1
    && statement.kind == kind
    && statement.cell == a.cell
    && statement.generation == a.generation
    && Some(statement.recoveryId) == a.recoveryId
    && Some(statement.activeSystem) == a.transactionSystem
    && Some(statement.pendingSystem) == a.pendingSystem
    && statement.position.index != 0
    && ValidRecoveryMembers(members)
    && statement.membershipDigest == RecoveryMembershipDigest(members)
    && (kind == Recovered ==> statement.position.index > a.fencedLogIndex)
  }

  predicate RecoveryCertificateValid(
    a: Authority, certificate: RecoveryCertificate, kind: RecoveryKind, members: map<U64, Bytes>)
  {
    && RecoveryStatementMatches(a, certificate.statement, kind, members)
    && QuorumVoted(
         AttestationVotes(certificate.attestations, RecoveryMessage(certificate.statement)), members,
         QuorumSize(|members|))
  }

  function ExpectedRoutineStatement(
    a: Authority, pending: PendingRoutine, kind: RoutineKind, snapshot: LogPosition, applied: LogPosition)
    : RoutineStatement
  {
    RoutineStatement(
      1, kind, a.cell, a.generation, a.membershipEpoch, pending.reconfigurationId,
      if a.transactionSystem.Some? then a.transactionSystem.value else "",
      RoutineDigest(a.members, a.incarnations), RoutineDigest(pending.nextMembers, pending.nextIncarnations),
      pending.replacementNode, pending.replacementIncarnation, snapshot, applied)
  }

  predicate RoutineStatementMatches(a: Authority, statement: RoutineStatement, kind: RoutineKind)
    requires a.pendingRoutine.Some?
  {
    var pending := a.pendingRoutine.value;
    && statement
       == ExpectedRoutineStatement(a, pending, kind, statement.snapshotPosition, statement.appliedPosition)
    && statement.snapshotPosition.index != 0
    && statement.snapshotPosition.index <= statement.appliedPosition.index
    && (kind == MembershipCommitted ==>
          pending.appliedPosition.Some? && pending.appliedPosition.value.index < statement.appliedPosition.index)
  }

  /** Who must be among the signers: the learner and an old majority, or a next majority. */
  predicate RoutineSignersSuffice(a: Authority, kind: RoutineKind, signers: set<U64>)
    requires a.pendingRoutine.Some?
  {
    var pending := a.pendingRoutine.value;
    match kind
    case LearnerReady =>
      pending.replacementNode in signers && |signers * a.members.Keys| >= QuorumSize(|a.members|)
    case MembershipCommitted =>
      |signers * pending.nextMembers.Keys| >= QuorumSize(|pending.nextMembers|)
  }

  predicate RoutineCertificateValid(a: Authority, certificate: RoutineCertificate, kind: RoutineKind) {
    && a.pendingRoutine.Some?
    && RoutineStatementMatches(a, certificate.statement, kind)
    && var votes := AttestationVotes(certificate.attestations, RoutineMessage(certificate.statement));
    && QuorumVoted(votes, a.pendingRoutine.value.nextMembers + a.members, 0)
    && RoutineSignersSuffice(a, kind, Signers(votes))
  }

  predicate RoutineQuorum(certificate: RoutineCertificate, members: map<U64, Bytes>) {
    QuorumVoted(
      AttestationVotes(certificate.attestations, RoutineMessage(certificate.statement)), members, QuorumSize(|members|))
  }

  // ---- transitions ----

  /** One replicated command. Anything short of acceptance leaves the authority as it was. */
  function Apply(a: Authority, action: Action): (r: Reply)
    ensures r.status != Accepted ==> r.state == a
  {
    match action
    case Bootstrap(cell, generation, system, members, incarnations, walRoot, controlRootVersion) =>
      if a.phase != Uninitialized || cell == 0 || generation == 0 || system == ""
         || !ValidMembers(members, incarnations) || walRoot == "" || controlRootVersion == 0
      then Reply(a, InvalidPhase)
      else
        Reply(
          INITIAL.(cell := cell, generation := generation, phase := Active, transactionSystem := Some(system),
                   members := members, incarnations := incarnations, walRoot := Some(walRoot),
                   controlRootVersion := controlRootVersion, lastCompletedGeneration := generation),
          Accepted)
    case Prepare(_, _, _, _, _, _, _) => ApplyPrepare(a, action)
    case Reserve(_, _, _, _, _) => ApplyReserve(a, action)
    case Activate(_, _, _, _, _, _, _) => ApplyActivate(a, action)
    case PrepareRoutine(_, _, _, _, _, _, _, _) => ApplyPrepareRoutine(a, action)
    case MarkLearnerReady(_, _, _, _) => ApplyMarkLearnerReady(a, action)
    case FinalizeRoutine(_, _, _, _) => ApplyFinalizeRoutine(a, action)
  }

  function ApplyPrepare(a: Authority, action: Action): Reply
    requires action.Prepare?
  {
    if !(a.phase == Active
         && a.pendingRoutine.None?
         && action.expectedGeneration == a.generation
         && action.nextGeneration == Successor(a.generation)
         && action.prepareControlRootVersion == a.controlRootVersion)
    then
      Reply(a, if action.expectedGeneration < a.generation then StaleGeneration
               else if a.phase == Fencing || a.phase == Recovering then RecoveryConflict
               else CompareFailed)
    else if action.prepareRecoveryId == 0 || action.nextSystem == ""
            || !ValidMembers(action.nextMembers, action.nextIncarnations)
    then Reply(a, InvalidRequest)
    else
      Reply(
        a.(generation := action.nextGeneration, phase := Fencing, recoveryId := Some(action.prepareRecoveryId),
           pendingSystem := Some(action.nextSystem), pendingMembers := action.nextMembers,
           pendingIncarnations := action.nextIncarnations, fencedLogIndex := 0, recoveredLogIndex := 0,
           fencedPosition := None, recoveredPosition := None),
        Accepted)
  }

  function ApplyReserve(a: Authority, action: Action): Reply
    requires action.Reserve?
  {
    if a.phase != Fencing || action.generation != a.generation then Reply(a, InvalidPhase)
    else if a.recoveryId != Some(action.recoveryId) || a.pendingSystem != Some(action.system)
    then Reply(a, RecoveryConflict)
    else if action.expectedControlRootVersion != a.controlRootVersion then Reply(a, CompareFailed)
    else if action.certificate.None? then Reply(a, MissingRecoveryProof)
    else if !RecoveryCertificateValid(a, action.certificate.value, Fence, a.members)
    then Reply(a, InvalidRecoveryProof)
    else
      var position := action.certificate.value.statement.position;
      Reply(
        a.(phase := Recovering, fencedLogIndex := position.index, fencedPosition := Some(position)), Accepted)
  }

  function ApplyActivate(a: Authority, action: Action): Reply
    requires action.Activate?
  {
    if a.phase != Recovering || action.generation != a.generation then Reply(a, InvalidPhase)
    else if a.recoveryId != Some(action.recoveryId) || a.pendingSystem != Some(action.system)
    then Reply(a, RecoveryConflict)
    else if action.expectedControlRootVersion != a.controlRootVersion
            || action.nextControlRootVersion != Successor(a.controlRootVersion)
    then Reply(a, CompareFailed)
    else if action.system == "" || action.walRoot == "" then Reply(a, InvalidRequest)
    else if action.certificate.None? then Reply(a, MissingRecoveryProof)
    else if !RecoveryCertificateValid(a, action.certificate.value, Recovered, a.pendingMembers)
    then Reply(a, InvalidRecoveryProof)
    else
      var position := action.certificate.value.statement.position;
      Reply(
        a.(phase := Active, lastCompletedRecoveryId := a.recoveryId, recoveryId := None,
           transactionSystem := Some(action.system), members := a.pendingMembers,
           incarnations := a.pendingIncarnations, pendingSystem := None, pendingMembers := map[],
           pendingIncarnations := map[], walRoot := Some(action.walRoot),
           controlRootVersion := action.nextControlRootVersion, recoveredLogIndex := position.index,
           recoveredPosition := Some(position), lastCompletedGeneration := action.generation),
        Accepted)
  }

  function RoutineCandidate(action: Action): PendingRoutine
    requires action.PrepareRoutine?
  {
    PendingRoutine(
      action.reconfigurationId, action.expectedMembershipEpoch, Prepared, action.replacementNode,
      action.replacementIncarnation, action.nextMembers, action.nextIncarnations, None, None)
  }

  function ApplyPrepareRoutine(a: Authority, action: Action): Reply
    requires action.PrepareRoutine?
  {
    if action.reconfigurationId in a.completedRoutines then
      var completed := a.completedRoutines[action.reconfigurationId];
      Reply(a, if completed.membershipDigest == RoutineDigest(action.nextMembers, action.nextIncarnations)
                  && completed.membershipEpoch == Successor(action.expectedMembershipEpoch)
               then Accepted
               else ReconfigurationConflict)
    else if a.phase != Active || action.expectedGeneration != a.generation then Reply(a, InvalidPhase)
    else if action.expectedMembershipEpoch != a.membershipEpoch then Reply(a, StaleMembershipEpoch)
    else if action.expectedMembershipDigest != RoutineDigest(a.members, a.incarnations) then Reply(a, CompareFailed)
    else if action.reconfigurationId == 0 || action.replacementNode == 0 || action.replacementIncarnation == ZERO16
            || !ValidRoutineReplacement(
                  a.members, a.incarnations, action.nextMembers, action.nextIncarnations,
                  action.replacementNode, action.replacementIncarnation)
    then Reply(a, InvalidRequest)
    else if a.pendingRoutine.Some? then
      Reply(a, if a.pendingRoutine.value == RoutineCandidate(action) then Accepted else ReconfigurationConflict)
    else Reply(a.(pendingRoutine := Some(RoutineCandidate(action))), Accepted)
  }

  function ApplyMarkLearnerReady(a: Authority, action: Action): Reply
    requires action.MarkLearnerReady?
  {
    if a.phase != Active || action.generation != a.generation then Reply(a, InvalidPhase)
    else if action.membershipEpoch != a.membershipEpoch then Reply(a, StaleMembershipEpoch)
    else if a.pendingRoutine.None? || a.pendingRoutine.value.reconfigurationId != action.reconfigurationId
    then Reply(a, ReconfigurationConflict)
    else if action.routine.None? then Reply(a, MissingRoutineProof)
    else
      var pending := a.pendingRoutine.value;
      var statement := action.routine.value.statement;
      if pending.phase == Ready then
        Reply(a, if pending.snapshotPosition == Some(statement.snapshotPosition)
                    && pending.appliedPosition == Some(statement.appliedPosition)
                 then Accepted
                 else ReconfigurationConflict)
      else if !RoutineCertificateValid(a, action.routine.value, LearnerReady) then Reply(a, InvalidRoutineProof)
      else
        Reply(
          a.(pendingRoutine := Some(
               pending.(phase := Ready, snapshotPosition := Some(statement.snapshotPosition),
                        appliedPosition := Some(statement.appliedPosition)))),
          Accepted)
  }

  function ApplyFinalizeRoutine(a: Authority, action: Action): Reply
    requires action.FinalizeRoutine?
  {
    if action.reconfigurationId in a.completedRoutines then
      var completed := a.completedRoutines[action.reconfigurationId];
      if action.routine.None? then Reply(a, MissingRoutineProof)
      else
        var statement := action.routine.value.statement;
        Reply(a, if completed.membershipEpoch == Successor(action.expectedMembershipEpoch)
                    && completed.membershipPosition == statement.appliedPosition
                    && completed.membershipDigest == statement.nextMembershipDigest
                    && completed.certificateDigest == RoutineCertificateDigest(statement)
                    && RoutineQuorum(action.routine.value, a.members)
                 then Accepted
                 else ReconfigurationConflict)
    else if a.phase != Active || action.generation != a.generation then Reply(a, InvalidPhase)
    else if action.expectedMembershipEpoch != a.membershipEpoch then Reply(a, StaleMembershipEpoch)
    else if a.pendingRoutine.None?
            || a.pendingRoutine.value.reconfigurationId != action.reconfigurationId
            || a.pendingRoutine.value.phase != Ready
    then Reply(a, ReconfigurationConflict)
    else if action.routine.None? then Reply(a, MissingRoutineProof)
    else if !RoutineCertificateValid(a, action.routine.value, MembershipCommitted)
    then Reply(a, InvalidRoutineProof)
    else
      var pending := a.pendingRoutine.value;
      var statement := action.routine.value.statement;
      var epoch := Successor(a.membershipEpoch);
      Reply(
        a.(pendingRoutine := None, members := pending.nextMembers, incarnations := pending.nextIncarnations,
           membershipEpoch := epoch,
           completedRoutines := a.completedRoutines[
             action.reconfigurationId :=
               CompletedRoutine(
                 action.reconfigurationId, epoch, statement.nextMembershipDigest, statement.appliedPosition,
                 RoutineCertificateDigest(statement))]),
        Accepted)
  }
}
