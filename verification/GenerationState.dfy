/** The generation authority as an object, each method proved against its transition in `Generation`. */
module GenerationState {
  import opened Keys
  import opened Types
  import opened Quorum
  import opened Generation

  method VerifyRecoveryCertificate(
    a: Authority, certificate: RecoveryCertificate, kind: RecoveryKind, members: map<U64, Bytes>)
    returns (valid: bool)
    ensures valid <==> RecoveryCertificateValid(a, certificate, kind, members)
  {
    hide RecoveryStatementMatches, QuorumVoted;
    if !RecoveryStatementMatches(a, certificate.statement, kind, members) {
      return false;
    }
    valid := CountVotes(
      AttestationVotes(certificate.attestations, RecoveryMessage(certificate.statement)), members,
      QuorumSize(|members|));
  }

  method VerifyRoutineCertificate(a: Authority, certificate: RoutineCertificate, kind: RoutineKind)
    returns (valid: bool)
    ensures valid <==> RoutineCertificateValid(a, certificate, kind)
  {
    hide RoutineStatementMatches, QuorumVoted, RoutineSignersSuffice;
    if a.pendingRoutine.None? || !RoutineStatementMatches(a, certificate.statement, kind) {
      return false;
    }
    var votes := AttestationVotes(certificate.attestations, RoutineMessage(certificate.statement));
    valid := CountVotes(votes, a.pendingRoutine.value.nextMembers + a.members, 0);
    valid := valid && RoutineSignersSuffice(a, kind, Signers(votes));
  }

  class GenerationAuthority {
    var cell: U64
    var generation: U64
    var phase: Phase
    var recoveryId: Option<U64>
    var transactionSystem: Option<string>
    var pendingSystem: Option<string>
    var members: map<U64, Bytes>
    var incarnations: map<U64, Bytes>
    var pendingMembers: map<U64, Bytes>
    var pendingIncarnations: map<U64, Bytes>
    var walRoot: Option<string>
    var controlRootVersion: U64
    var fencedLogIndex: U64
    var recoveredLogIndex: U64
    var fencedPosition: Option<LogPosition>
    var recoveredPosition: Option<LogPosition>
    var lastCompletedGeneration: U64
    var lastCompletedRecoveryId: Option<U64>
    var membershipEpoch: U64
    var pendingRoutine: Option<PendingRoutine>
    var completedRoutines: map<U64, CompletedRoutine>

    function Value(): Authority
      reads this
    {
      Authority(
        cell, generation, phase, recoveryId, transactionSystem, pendingSystem, members, incarnations, pendingMembers,
        pendingIncarnations, walRoot, controlRootVersion, fencedLogIndex, recoveredLogIndex, fencedPosition,
        recoveredPosition, lastCompletedGeneration, lastCompletedRecoveryId, membershipEpoch, pendingRoutine,
        completedRoutines)
    }

    constructor ()
      ensures Value() == INITIAL
    {
      cell, generation, phase, recoveryId, transactionSystem := 0, 0, Uninitialized, None, None;
      pendingSystem, members, incarnations, pendingMembers := None, map[], map[], map[];
      pendingIncarnations, walRoot, controlRootVersion := map[], None, 0;
      fencedLogIndex, recoveredLogIndex, fencedPosition, recoveredPosition := 0, 0, None, None;
      lastCompletedGeneration, lastCompletedRecoveryId, membershipEpoch := 0, None, 0;
      pendingRoutine, completedRoutines := None, map[];
    }

    method ClearSystem()
      modifies `recoveryId, `pendingSystem, `pendingMembers, `pendingIncarnations
      ensures recoveryId == None && pendingSystem == None && pendingMembers == map[] && pendingIncarnations == map[]
    {
      recoveryId, pendingSystem, pendingMembers, pendingIncarnations := None, None, map[], map[];
    }

    method ClearPositions()
      modifies `fencedLogIndex, `recoveredLogIndex, `fencedPosition, `recoveredPosition
      ensures fencedLogIndex == recoveredLogIndex == 0 && fencedPosition == recoveredPosition == None
    {
      fencedLogIndex, recoveredLogIndex, fencedPosition, recoveredPosition := 0, 0, None, None;
    }

    method ClearRoutines()
      modifies `lastCompletedRecoveryId, `membershipEpoch, `pendingRoutine, `completedRoutines
      ensures lastCompletedRecoveryId == None && membershipEpoch == 0 && pendingRoutine == None
      ensures completedRoutines == map[]
    {
      lastCompletedRecoveryId, membershipEpoch, pendingRoutine, completedRoutines := None, 0, None, map[];
    }

    method ClearHistory()
      modifies `recoveryId, `pendingSystem, `pendingMembers, `pendingIncarnations, `fencedLogIndex, `recoveredLogIndex,
        `fencedPosition, `recoveredPosition, `lastCompletedRecoveryId, `membershipEpoch, `pendingRoutine,
        `completedRoutines
      ensures recoveryId == None && pendingSystem == None && pendingMembers == map[] && pendingIncarnations == map[]
      ensures fencedLogIndex == recoveredLogIndex == 0 && fencedPosition == recoveredPosition == None
      ensures lastCompletedRecoveryId == None && membershipEpoch == 0 && pendingRoutine == None
      ensures completedRoutines == map[]
    {
      ClearSystem();
      ClearPositions();
      ClearRoutines();
    }

    method AdoptSystem(
      system: string, voters: map<U64, Bytes>, voterIncarnations: map<U64, Bytes>, root: string, version: U64)
      modifies `transactionSystem, `members, `incarnations, `walRoot, `controlRootVersion
      ensures transactionSystem == Some(system) && members == voters && incarnations == voterIncarnations
      ensures walRoot == Some(root) && controlRootVersion == version
    {
      transactionSystem, members, incarnations := Some(system), voters, voterIncarnations;
      walRoot, controlRootVersion := Some(root), version;
    }

    method Bootstrap(action: Action) returns (status: Status)
      requires action.Bootstrap?
      modifies this
      ensures Reply(Value(), status) == Generation.Apply(old(Value()), action)
    {
      hide ValidMembers, ApplyPrepare, ApplyReserve, ApplyActivate, ApplyPrepareRoutine, ApplyMarkLearnerReady,
        ApplyFinalizeRoutine;
      if phase != Uninitialized || action.bootCell == 0 || action.bootGeneration == 0 || action.bootSystem == ""
         || !ValidMembers(action.bootMembers, action.bootIncarnations) || action.bootWalRoot == ""
         || action.bootControlRootVersion == 0 {
        return InvalidPhase;
      }
      StartSystem(action);
      return Accepted;
    }

    method StartSystem(action: Action)
      requires action.Bootstrap?
      modifies this
      ensures Value() == INITIAL.(
                cell := action.bootCell, generation := action.bootGeneration, phase := Active,
                transactionSystem := Some(action.bootSystem), members := action.bootMembers,
                incarnations := action.bootIncarnations, walRoot := Some(action.bootWalRoot),
                controlRootVersion := action.bootControlRootVersion,
                lastCompletedGeneration := action.bootGeneration)
    {
      ClearHistory();
      AdoptSystem(
        action.bootSystem, action.bootMembers, action.bootIncarnations, action.bootWalRoot,
        action.bootControlRootVersion);
      StartGeneration(action.bootCell, action.bootGeneration);
    }

    method StartGeneration(authorityCell: U64, first: U64)
      modifies `cell, `generation, `phase, `lastCompletedGeneration
      ensures cell == authorityCell && generation == first && phase == Active && lastCompletedGeneration == first
    {
      cell, generation, phase, lastCompletedGeneration := authorityCell, first, Active, first;
    }

    method PrepareStatus(action: Action) returns (status: Status)
      requires action.Prepare?
      ensures status == ApplyPrepare(Value(), action).status
    {
      hide ValidMembers;
      if !(phase == Active
           && pendingRoutine.None?
           && action.expectedGeneration == generation
           && action.nextGeneration == Successor(generation)
           && action.prepareControlRootVersion == controlRootVersion) {
        return if action.expectedGeneration < generation then StaleGeneration
          else if phase == Fencing || phase == Recovering then RecoveryConflict
          else CompareFailed;
      }
      if action.prepareRecoveryId == 0 || action.nextSystem == ""
         || !ValidMembers(action.nextMembers, action.nextIncarnations) {
        return InvalidRequest;
      }
      return Accepted;
    }

    method OpenRecovery(action: Action)
      requires action.Prepare?
      modifies `generation, `phase, `recoveryId, `pendingSystem, `pendingMembers, `pendingIncarnations
      ensures generation == action.nextGeneration && phase == Fencing && recoveryId == Some(action.prepareRecoveryId)
      ensures pendingSystem == Some(action.nextSystem) && pendingMembers == action.nextMembers
      ensures pendingIncarnations == action.nextIncarnations
    {
      generation, phase := action.nextGeneration, Fencing;
      recoveryId, pendingSystem := Some(action.prepareRecoveryId), Some(action.nextSystem);
      pendingMembers, pendingIncarnations := action.nextMembers, action.nextIncarnations;
    }

    method Prepare(action: Action) returns (status: Status)
      requires action.Prepare?
      modifies this
      ensures Reply(Value(), status) == ApplyPrepare(old(Value()), action)
    {
      hide ValidMembers;
      status := PrepareStatus(action);
      if status == Accepted {
        OpenRecovery(action);
        ClearPositions();
      }
    }

    method Reserve(action: Action) returns (status: Status)
      requires action.Reserve?
      modifies this
      ensures Reply(Value(), status) == ApplyReserve(old(Value()), action)
    {
      hide RecoveryCertificateValid;
      if phase != Fencing || action.generation != generation {
        return InvalidPhase;
      }
      if recoveryId != Some(action.recoveryId) || pendingSystem != Some(action.system) {
        return RecoveryConflict;
      }
      if action.expectedControlRootVersion != controlRootVersion {
        return CompareFailed;
      }
      if action.certificate.None? {
        return MissingRecoveryProof;
      }
      var valid := VerifyRecoveryCertificate(Value(), action.certificate.value, Fence, members);
      if !valid {
        return InvalidRecoveryProof;
      }
      var position := action.certificate.value.statement.position;
      phase, fencedLogIndex, fencedPosition := Recovering, position.index, Some(position);
      return Accepted;
    }

    method ActivateStatus(action: Action) returns (status: Status)
      requires action.Activate?
      ensures status == ApplyActivate(Value(), action).status
    {
      hide RecoveryCertificateValid;
      if phase != Recovering || action.generation != generation {
        return InvalidPhase;
      }
      if recoveryId != Some(action.recoveryId) || pendingSystem != Some(action.system) {
        return RecoveryConflict;
      }
      if action.expectedControlRootVersion != controlRootVersion
         || action.nextControlRootVersion != Successor(controlRootVersion) {
        return CompareFailed;
      }
      if action.system == "" || action.walRoot == "" {
        return InvalidRequest;
      }
      if action.certificate.None? {
        return MissingRecoveryProof;
      }
      var valid := VerifyRecoveryCertificate(Value(), action.certificate.value, Recovered, pendingMembers);
      return if valid then Accepted else InvalidRecoveryProof;
    }

    method CompleteRecovery(position: LogPosition, completed: U64)
      modifies `phase, `lastCompletedRecoveryId, `recoveredLogIndex, `recoveredPosition, `lastCompletedGeneration
      ensures phase == Active && lastCompletedRecoveryId == recoveryId && lastCompletedGeneration == completed
      ensures recoveredLogIndex == position.index && recoveredPosition == Some(position)
    {
      phase, lastCompletedRecoveryId, lastCompletedGeneration := Active, recoveryId, completed;
      recoveredLogIndex, recoveredPosition := position.index, Some(position);
    }

    method Activate(action: Action) returns (status: Status)
      requires action.Activate?
      modifies this
      ensures Reply(Value(), status) == ApplyActivate(old(Value()), action)
    {
      hide RecoveryCertificateValid;
      status := ActivateStatus(action);
      if status == Accepted {
        AdoptSystem(
          action.system, pendingMembers, pendingIncarnations, action.walRoot, action.nextControlRootVersion);
        CompleteRecovery(action.certificate.value.statement.position, action.generation);
        ClearSystem();
      }
    }

    method PrepareRoutine(action: Action) returns (status: Status)
      requires action.PrepareRoutine?
      modifies `pendingRoutine
      ensures Reply(Value(), status) == ApplyPrepareRoutine(old(Value()), action)
    {
      hide ValidRoutineReplacement, RoutineDigest;
      if action.reconfigurationId in completedRoutines {
        var completed := completedRoutines[action.reconfigurationId];
        return if completed.membershipDigest == RoutineDigest(action.nextMembers, action.nextIncarnations)
                  && completed.membershipEpoch == Successor(action.expectedMembershipEpoch)
          then Accepted else ReconfigurationConflict;
      }
      if phase != Active || action.expectedGeneration != generation {
        return InvalidPhase;
      }
      if action.expectedMembershipEpoch != membershipEpoch {
        return StaleMembershipEpoch;
      }
      if action.expectedMembershipDigest != RoutineDigest(members, incarnations) {
        return CompareFailed;
      }
      if action.reconfigurationId == 0 || action.replacementNode == 0 || action.replacementIncarnation == ZERO16
         || !ValidRoutineReplacement(
               members, incarnations, action.nextMembers, action.nextIncarnations, action.replacementNode,
               action.replacementIncarnation) {
        return InvalidRequest;
      }
      var candidate := RoutineCandidate(action);
      if pendingRoutine.Some? {
        return if pendingRoutine.value == candidate then Accepted else ReconfigurationConflict;
      }
      pendingRoutine := Some(candidate);
      return Accepted;
    }

    method MarkLearnerReady(action: Action) returns (status: Status)
      requires action.MarkLearnerReady?
      modifies `pendingRoutine
      ensures Reply(Value(), status) == ApplyMarkLearnerReady(old(Value()), action)
    {
      hide RoutineCertificateValid;
      if phase != Active || action.generation != generation {
        return InvalidPhase;
      }
      if action.membershipEpoch != membershipEpoch {
        return StaleMembershipEpoch;
      }
      if pendingRoutine.None? || pendingRoutine.value.reconfigurationId != action.reconfigurationId {
        return ReconfigurationConflict;
      }
      if action.routine.None? {
        return MissingRoutineProof;
      }
      var pending, statement := pendingRoutine.value, action.routine.value.statement;
      if pending.phase == Ready {
        return if pending.snapshotPosition == Some(statement.snapshotPosition)
                  && pending.appliedPosition == Some(statement.appliedPosition)
          then Accepted else ReconfigurationConflict;
      }
      var valid := VerifyRoutineCertificate(Value(), action.routine.value, LearnerReady);
      if !valid {
        return InvalidRoutineProof;
      }
      pendingRoutine := Some(
        pending.(phase := Ready, snapshotPosition := Some(statement.snapshotPosition),
                 appliedPosition := Some(statement.appliedPosition)));
      return Accepted;
    }

    method FinalizeStatus(action: Action) returns (status: Status)
      requires action.FinalizeRoutine?
      ensures status == ApplyFinalizeRoutine(Value(), action).status
    {
      hide RoutineCertificateValid, QuorumVoted;
      if action.reconfigurationId in completedRoutines {
        var completed := completedRoutines[action.reconfigurationId];
        if action.routine.None? {
          return MissingRoutineProof;
        }
        var statement := action.routine.value.statement;
        var quorum := CountVotes(
          AttestationVotes(action.routine.value.attestations, RoutineMessage(statement)), members,
          QuorumSize(|members|));
        return if completed.membershipEpoch == Successor(action.expectedMembershipEpoch)
                  && completed.membershipPosition == statement.appliedPosition
                  && completed.membershipDigest == statement.nextMembershipDigest
                  && completed.certificateDigest == RoutineCertificateDigest(statement)
                  && quorum
          then Accepted else ReconfigurationConflict;
      }
      if phase != Active || action.generation != generation {
        return InvalidPhase;
      }
      if action.expectedMembershipEpoch != membershipEpoch {
        return StaleMembershipEpoch;
      }
      if pendingRoutine.None? || pendingRoutine.value.reconfigurationId != action.reconfigurationId
         || pendingRoutine.value.phase != Ready {
        return ReconfigurationConflict;
      }
      if action.routine.None? {
        return MissingRoutineProof;
      }
      var valid := VerifyRoutineCertificate(Value(), action.routine.value, MembershipCommitted);
      return if valid then Accepted else InvalidRoutineProof;
    }

    method AdoptMembers(pending: PendingRoutine, id: U64, statement: RoutineStatement)
      modifies `pendingRoutine, `members, `incarnations, `membershipEpoch, `completedRoutines
      ensures pendingRoutine == None && members == pending.nextMembers && incarnations == pending.nextIncarnations
      ensures membershipEpoch == Successor(old(membershipEpoch))
      ensures completedRoutines == old(completedRoutines)[
                id := CompletedRoutine(
                  id, membershipEpoch, statement.nextMembershipDigest, statement.appliedPosition,
                  RoutineCertificateDigest(statement))]
    {
      pendingRoutine, members, incarnations := None, pending.nextMembers, pending.nextIncarnations;
      membershipEpoch := Successor(membershipEpoch);
      completedRoutines := completedRoutines[
        id := CompletedRoutine(
          id, membershipEpoch, statement.nextMembershipDigest, statement.appliedPosition,
          RoutineCertificateDigest(statement))];
    }

    method FinalizeRoutine(action: Action) returns (status: Status)
      requires action.FinalizeRoutine?
      modifies `pendingRoutine, `members, `incarnations, `membershipEpoch, `completedRoutines
      ensures Reply(Value(), status) == ApplyFinalizeRoutine(old(Value()), action)
    {
      hide RoutineCertificateValid, RoutineQuorum;
      status := FinalizeStatus(action);
      if status == Accepted && action.reconfigurationId !in completedRoutines {
        AdoptMembers(pendingRoutine.value, action.reconfigurationId, action.routine.value.statement);
      }
    }

    /** One replicated command. */
    method Apply(action: Action) returns (status: Status)
      modifies this
      ensures Reply(Value(), status) == Generation.Apply(old(Value()), action)
    {
      hide ApplyPrepare, ApplyReserve, ApplyActivate, ApplyPrepareRoutine, ApplyMarkLearnerReady, ApplyFinalizeRoutine;
      match action {
        case Bootstrap(_, _, _, _, _, _, _) => status := Bootstrap(action);
        case Prepare(_, _, _, _, _, _, _) => status := Prepare(action);
        case Reserve(_, _, _, _, _) => status := Reserve(action);
        case Activate(_, _, _, _, _, _, _) => status := Activate(action);
        case PrepareRoutine(_, _, _, _, _, _, _, _) => status := PrepareRoutine(action);
        case MarkLearnerReady(_, _, _, _) => status := MarkLearnerReady(action);
        case FinalizeRoutine(_, _, _, _) => status := FinalizeRoutine(action);
      }
    }
  }
}
