/** Takeovers of a domain rest on handoffs of the generation authority. */
module Handoffs {
  import opened Types
  import opened Certificates
  import opened Ordering
  import opened Domain
  import Generation
  import GenerationRuns

  /** A completed recovery of an active authority was completed by the activation of the current generation. */
  lemma StepCompletes(a: Generation.Authority, action: Generation.Action)
    ensures var reply := Generation.Apply(a, action);
            var b := reply.state;
            b.phase == Generation.Active && b.lastCompletedRecoveryId.Some? ==>
              || (action.Activate? && reply.status == Generation.Accepted
                  && b.lastCompletedRecoveryId == Some(action.recoveryId))
              || (a.phase == Generation.Active && a.generation == b.generation
                  && a.lastCompletedRecoveryId == b.lastCompletedRecoveryId)
  {
    hide Generation.ValidMembers, Generation.ValidRoutineReplacement, Generation.RecoveryCertificateValid,
      Generation.RoutineCertificateValid, Generation.RoutineQuorum, Generation.RoutineDigest;
  }

  lemma {:induction false} CompletedRecoveryWasActivated(actions: seq<Generation.Action>, n: nat) returns (j: nat)
    requires n <= |actions|
    requires GenerationRuns.Before(actions, n).phase == Generation.Active
    requires GenerationRuns.Before(actions, n).lastCompletedRecoveryId.Some?
    ensures j < n && actions[j].Activate? && GenerationRuns.AcceptedAt(actions, j)
    ensures Some(actions[j].recoveryId) == GenerationRuns.Before(actions, n).lastCompletedRecoveryId
    ensures GenerationRuns.Before(actions, j + 1).generation == GenerationRuns.Before(actions, n).generation
    decreases n
  {
    hide Generation.Apply;
    assert n != 0;
    j := n - 1;
    GenerationRuns.Unfold(actions, j);
    StepCompletes(GenerationRuns.Before(actions, j), actions[j]);
    if !(actions[j].Activate? && GenerationRuns.AcceptedAt(actions, j)
         && Some(actions[j].recoveryId) == GenerationRuns.Before(actions, n).lastCompletedRecoveryId) {
      j := CompletedRecoveryWasActivated(actions, j);
    }
  }

  function RecoveryOf(action: StagedAction): U64
    requires IsTakeover(action)
  {
    match action
    case TakeoverPublish(_, recoveryId, _, _) => recoveryId
    case TakeoverAbort(_, recoveryId, _, _, _) => recoveryId
    case TakeoverRecoverPrefix(_, recoveryId, _, _) => recoveryId
  }

  /** A takeover that changes the domain was authorized, and moves the domain to the authorized generation. */
  lemma TakeoverIsAuthorized(d: Domain, command: StagedCommand, logIndex: U64, authority: Generation.Authority)
    requires IsTakeover(command.action)
    requires ApplyStaged(d, command, logIndex, authority).domain != d
    ensures SuccessorAuthorized(command, authority, RecoveryOf(command.action))
    ensures command.generation == Successor(d.log.generation)
    ensures ApplyStaged(d, command, logIndex, authority).domain.log.generation == command.generation
  {
    match command.action
    case TakeoverPublish(_, _, _, _) =>
      hide SuccessorAuthorized, Certified, UnresolvedCount, Decodes, ApplyMutations, WritesAt, Find, ApplyRecoverPrefix,
        ApplyTakeoverAbort;
    case TakeoverAbort(_, _, _, _, _) =>
      hide SuccessorAuthorized, AbortProofValid, UnresolvedCount, Decodes, Find, ApplyRecoverPrefix,
        ApplyTakeoverPublish;
    case TakeoverRecoverPrefix(_, _, _, _) =>
      RecoveryIsAuthorized(d, command, authority);
      hide ApplyRecoverPrefix, ApplyTakeoverPublish, ApplyTakeoverAbort, SuccessorAuthorized;
  }

  lemma RecoveryIsAuthorized(d: Domain, command: StagedCommand, authority: Generation.Authority)
    requires command.action.TakeoverRecoverPrefix? && ApplyRecoverPrefix(d, command, authority).domain != d
    ensures SuccessorAuthorized(command, authority, RecoveryOf(command.action))
    ensures command.generation == Successor(d.log.generation)
    ensures ApplyRecoverPrefix(d, command, authority).domain.log.generation == command.generation
  {
    hide SuccessorAuthorized, ValidWindow, WindowMatches, WindowAdmissible, ChainExact, InventoriesValid,
      RecoverableCount, Dispose, UnresolvedIndexes, CountVisible, CountAborted, TagsAgree, WindowIndexes;
  }

  /**
  Every takeover rests on a handoff. When a command moves a domain to a new generation under an authority that
  some sequence of commands led to, that sequence holds an activation of exactly that generation under the
  recovery the command names; before it a majority of the old members certified a fence, and a majority of the
  new members certified a strictly later position.
  */
  lemma TakeoverRestsOnHandoff(
    actions: seq<Generation.Action>, n: nat, d: Domain, command: StagedCommand, logIndex: U64)
    returns (p: nat, r: nat, j: nat)
    requires n <= |actions| && IsTakeover(command.action)
    requires ApplyStaged(d, command, logIndex, GenerationRuns.Before(actions, n)).domain != d
    ensures p < r < j < n
    ensures actions[p].Prepare? && GenerationRuns.AcceptedAt(actions, p)
    ensures actions[r].Reserve? && GenerationRuns.AcceptedAt(actions, r) && actions[r].certificate.Some?
    ensures actions[j].Activate? && GenerationRuns.AcceptedAt(actions, j) && actions[j].certificate.Some?
    ensures actions[j].recoveryId == RecoveryOf(command.action)
    ensures GenerationRuns.Before(actions, j + 1).generation == command.generation == Successor(d.log.generation)
    ensures GenerationRuns.MajorityCertified(
              actions[r].certificate.value, Fence, GenerationRuns.Before(actions, p).members)
    ensures GenerationRuns.MajorityCertified(actions[j].certificate.value, Recovered, actions[p].nextMembers)
    ensures actions[j].certificate.value.statement.position.index
            > actions[r].certificate.value.statement.position.index
  {
    hide ApplyStaged, GenerationRuns.AcceptedAt, GenerationRuns.MajorityCertified;
    TakeoverIsAuthorized(d, command, logIndex, GenerationRuns.Before(actions, n));
    j := CompletedRecoveryWasActivated(actions, n);
    p, r := GenerationRuns.ActivationRestsOnHandoff(actions, j);
  }
}
