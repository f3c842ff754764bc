/** What holds of the generation authority over every sequence of commands. */
module GenerationRuns {
  import opened Keys
  import opened Types
  import opened Quorum
  import opened Sets
  import opened Generation

  /** The authority after a sequence of commands, starting uninitialized. */
  function Run(actions: seq<Action>): Authority {
    if actions == [] then INITIAL
    else Apply(Run(actions[..|actions| - 1]), actions[|actions| - 1]).state
  }

  /** The authority just before command `i`. */
  function Before(actions: seq<Action>, i: nat): Authority
    requires i <= |actions|
  {
    Run(actions[..i])
  }

  predicate AcceptedAt(actions: seq<Action>, i: nat)
    requires i < |actions|
  {
    Apply(Before(actions, i), actions[i]).status == Accepted
  }

  lemma Unfold(actions: seq<Action>, i: nat)
    requires i < |actions|
    ensures Before(actions, i + 1) == Apply(Before(actions, i), actions[i]).state
  {
    assert actions[..i + 1][..i] == actions[..i];
  }

  // ---- fencing ----

  /**
  How one command can move the phase: generations never shrink, and while fencing or recovering the
  authority stands still until its own next step.
  */
  lemma StepMovesForward(a: Authority, action: Action)
    requires a.phase == Uninitialized ==> a == INITIAL
    ensures var b, accepted := Apply(a, action).state, Apply(a, action).status == Accepted;
            && a.generation <= b.generation
            && (b.phase == Uninitialized ==> b == INITIAL)
            && (b.phase == Fencing ==> a == b || (action.Prepare? && accepted))
            && (b.phase == Recovering ==> a == b || (action.Reserve? && accepted && a.phase == Fencing))
  {
    hide ValidMembers, ValidRoutineReplacement, RecoveryCertificateValid, RoutineCertificateValid, RoutineQuorum,
      RoutineDigest;
  }

  lemma {:induction false} UninitializedIsInitial(actions: seq<Action>, i: nat)
    requires i <= |actions|
    ensures Before(actions, i).phase == Uninitialized ==> Before(actions, i) == INITIAL
    decreases i
  {
    hide Apply;
    if i > 0 {
      UninitializedIsInitial(actions, i - 1);
      Unfold(actions, i - 1);
      StepMovesForward(Before(actions, i - 1), actions[i - 1]);
    }
  }

  lemma {:induction false} GenerationsGrow(actions: seq<Action>, i: nat, j: nat)
    requires i <= j <= |actions|
    ensures Before(actions, i).generation <= Before(actions, j).generation
    decreases j
  {
    hide Apply;
    if i < j {
      GenerationsGrow(actions, i, j - 1);
      Unfold(actions, j - 1);
      UninitializedIsInitial(actions, j - 1);
      StepMovesForward(Before(actions, j - 1), actions[j - 1]);
    }
  }

  /**
  An accepted `Prepare` opens a new generation exactly when the counter has not saturated. At the
  last representable generation it reopens the same one.
  */
  lemma PrepareOpensNewGenerationIff(a: Authority, action: Action)
    requires action.Prepare? && Apply(a, action).status == Accepted
    ensures Apply(a, action).state.phase == Fencing
    ensures Apply(a, action).state.generation > a.generation <==> a.generation < U64_MAX
  {
  }

  /** From any generation a whole handoff to the next can be carried out. */
  lemma Handoff(generation: U64, system: string, nextSystem: string) returns (actions: seq<Action>)
    requires generation > 0 && system != "" && nextSystem != ""
    ensures |actions| == 4
    ensures actions[1].Prepare? && AcceptedAt(actions, 1) && Before(actions, 1).generation == generation
    ensures Authorizes(Before(actions, 4), Successor(generation), nextSystem)
    ensures Before(actions, 4).lastCompletedRecoveryId == Some(1)
  {
    hide Apply;
    var next := Successor(generation);
    var key: Bytes := seq(32, _ => 0);
    var members: map<U64, Bytes> := map[1 := key];
    assert ValidMembers(members, map[]) by {
      assert 1 in members;
    }
    var fence := RecoveryStatement(
      1, Fence, 1, next, 1, system, nextSystem, LogPosition(1, 1), RecoveryMembershipDigest(members));
    var recovered := fence.(kind := Recovered, position := LogPosition(1, 2));
    var reserve := Reserve(next, 1, nextSystem, 1, Some(SoleCertificate(key, fence)));
    var activate := Activate(next, 1, nextSystem, "w", 1, 2, Some(SoleCertificate(key, recovered)));
    actions := [
      Bootstrap(1, generation, system, members, map[], "w", 1),
      Prepare(generation, next, 1, 1, nextSystem, members, map[]), reserve, activate];
    assert actions[..0] == [];
    Unfold(actions, 0);
    Unfold(actions, 1);
    Unfold(actions, 2);
    Unfold(actions, 3);
    BootAndPrepare(members, generation, system, nextSystem);
    var a2 := Before(actions, 2);
    SoleCertificateAccepted(a2, key, fence, Fence, members);
    ReserveWithProof(a2, reserve);
    var a3 := Before(actions, 3);
    SoleCertificateAccepted(a3, key, recovered, Recovered, members);
    ActivateWithProof(a3, activate);
  }

  /** At the last generation a whole handoff succeeds and the generation it fenced is authorized again. */
  lemma LastGenerationReopens() returns (actions: seq<Action>)
    ensures |actions| == 4
    ensures actions[1].Prepare? && AcceptedAt(actions, 1) && Before(actions, 1).generation == U64_MAX
    ensures Authorizes(Before(actions, 4), U64_MAX, "a")
  {
    hide Apply;
    actions := Handoff(U64_MAX, "a", "a");
  }

  lemma BootAndPrepare(members: map<U64, Bytes>, generation: U64, system: string, nextSystem: string)
    requires ValidMembers(members, map[]) && generation > 0 && system != "" && nextSystem != ""
    ensures var a1 := Apply(INITIAL, Bootstrap(1, generation, system, members, map[], "w", 1)).state;
            var reply := Apply(a1, Prepare(generation, Successor(generation), 1, 1, nextSystem, members, map[]));
            && a1.generation == generation
            && reply.status == Accepted
            && reply.state == INITIAL.(
                 cell := 1, generation := Successor(generation), phase := Fencing, recoveryId := Some(1),
                 transactionSystem := Some(system), pendingSystem := Some(nextSystem), members := members,
                 pendingMembers := members, walRoot := Some("w"), controlRootVersion := 1,
                 lastCompletedGeneration := generation)
  {
    hide ValidMembers;
  }

  lemma ReserveWithProof(a: Authority, action: Action)
    requires action.Reserve? && action.certificate.Some? && a.phase == Fencing
    requires a.generation == action.generation && a.controlRootVersion == action.expectedControlRootVersion
    requires a.recoveryId == Some(action.recoveryId) && a.pendingSystem == Some(action.system)
    requires RecoveryCertificateValid(a, action.certificate.value, Fence, a.members)
    ensures var position := action.certificate.value.statement.position;
            Apply(a, action).state
            == a.(phase := Recovering, fencedLogIndex := position.index, fencedPosition := Some(position))
  {
    hide RecoveryCertificateValid;
  }

  lemma ActivateWithProof(a: Authority, action: Action)
    requires action.Activate? && action.certificate.Some? && a.phase == Recovering
    requires a.generation == action.generation && a.controlRootVersion == action.expectedControlRootVersion
    requires action.nextControlRootVersion == Successor(a.controlRootVersion)
    requires a.recoveryId == Some(action.recoveryId) && a.pendingSystem == Some(action.system)
    requires action.system != "" && action.walRoot != ""
    requires RecoveryCertificateValid(a, action.certificate.value, Recovered, a.pendingMembers)
    ensures Authorizes(Apply(a, action).state, a.generation, action.system)
    ensures Apply(a, action).state.lastCompletedRecoveryId == Some(action.recoveryId)
  {
    hide RecoveryCertificateValid;
  }

  function SoleCertificate(key: Bytes, statement: RecoveryStatement): RecoveryCertificate {
    RecoveryCertificate(statement, [Attestation(1, Signature(key, RecoveryMessage(statement)))])
  }

  lemma SoleCertificateAccepted(
    a: Authority, key: Bytes, statement: RecoveryStatement, kind: RecoveryKind, members: map<U64, Bytes>)
    requires members == map[1 := key]
    requires RecoveryStatementMatches(a, statement, kind, members)
    ensures RecoveryCertificateValid(a, SoleCertificate(key, statement), kind, members)
  {
    assert |members| == 1;
  }

  /** Once `Prepare` is accepted, no later state authorizes the fenced generation or an older one. */
  lemma FencedForever(actions: seq<Action>, p: nat, j: nat, generation: U64, system: string)
    requires p < j <= |actions|
    requires actions[p].Prepare? && AcceptedAt(actions, p)
    requires Before(actions, p).generation < U64_MAX
    requires generation <= Before(actions, p).generation
    ensures !Authorizes(Before(actions, j), generation, system)
  {
    Unfold(actions, p);
    GenerationsGrow(actions, p + 1, j);
  }

  /** The recovery open before command `n` was opened by command `p`, and the authority has not moved since. */
  ghost predicate OpenedBy(actions: seq<Action>, n: nat, p: nat)
    requires n <= |actions|
  {
    && p < n
    && actions[p].Prepare?
    && AcceptedAt(actions, p)
    && forall k :: p < k <= n ==> Before(actions, k) == Before(actions, n)
  }

  ghost predicate ReservedBy(actions: seq<Action>, n: nat, r: nat)
    requires n <= |actions|
  {
    && r < n
    && actions[r].Reserve?
    && AcceptedAt(actions, r)
    && forall k :: r < k <= n ==> Before(actions, k) == Before(actions, n)
  }

  lemma {:induction false} FencingHasPrepare(actions: seq<Action>, n: nat) returns (p: nat)
    requires n <= |actions|
    requires Before(actions, n).phase == Fencing
    ensures OpenedBy(actions, n, p)
    decreases n
  {
    hide Apply;
    assert n != 0;
    p := n - 1;
    Unfold(actions, p);
    UninitializedIsInitial(actions, p);
    StepMovesForward(Before(actions, p), actions[p]);
    if Before(actions, p) == Before(actions, n) {
      p := FencingHasPrepare(actions, p);
    }
  }

  lemma {:induction false} RecoveringHasReserve(actions: seq<Action>, n: nat) returns (r: nat)
    requires n <= |actions|
    requires Before(actions, n).phase == Recovering
    ensures ReservedBy(actions, n, r)
    decreases n
  {
    hide Apply;
    assert n != 0;
    r := n - 1;
    Unfold(actions, r);
    UninitializedIsInitial(actions, r);
    StepMovesForward(Before(actions, r), actions[r]);
    if Before(actions, r) == Before(actions, n) {
      r := RecoveringHasReserve(actions, r);
    }
  }

  /** A majority of `members` signed one recovery statement of this kind at this log position. */
  ghost predicate MajorityCertified(certificate: RecoveryCertificate, kind: RecoveryKind, members: map<U64, Bytes>) {
    var signers := Signers(AttestationVotes(certificate.attestations, RecoveryMessage(certificate.statement)));
    && certificate.statement.kind == kind
    && signers <= members.Keys
    && 2 * |signers| > |members|
    && forall node :: node in signers ==>
         exists i ::
           && 0 <= i < |certificate.attestations|
           && certificate.attestations[i].signer == node
           && Verifies(members[node], RecoveryMessage(certificate.statement), certificate.attestations[i].signature)
  }

  lemma ValidMeansMajority(a: Authority, certificate: RecoveryCertificate, kind: RecoveryKind, members: map<U64, Bytes>)
    requires RecoveryCertificateValid(a, certificate, kind, members)
    ensures MajorityCertified(certificate, kind, members)
    ensures kind == Recovered ==> certificate.statement.position.index > a.fencedLogIndex
  {
    var votes := AttestationVotes(certificate.attestations, RecoveryMessage(certificate.statement));
    QuorumMeansMembers(votes, members, QuorumSize(|members|));
    forall node | node in Signers(votes)
      ensures exists i ::
                && 0 <= i < |certificate.attestations|
                && certificate.attestations[i].signer == node
                && Verifies(
                     members[node], RecoveryMessage(certificate.statement), certificate.attestations[i].signature)
    {
      var i :| 0 <= i < |votes| && votes[i].signer == node && Admissible(votes[i], members);
      assert certificate.attestations[i].signer == node;
    }
  }

  /**
  Every activation rests on both halves of a handoff: a majority of the members that held the
  generation when it was prepared certified a fence, later a majority of the new members certified
  a position strictly past that fence, and nothing was authorized in between.
  */
  lemma ActivationRestsOnHandoff(actions: seq<Action>, j: nat) returns (p: nat, r: nat)
    requires j < |actions|
    requires actions[j].Activate? && AcceptedAt(actions, j)
    ensures p < r < j
    ensures actions[p].Prepare? && AcceptedAt(actions, p)
    ensures actions[r].Reserve? && AcceptedAt(actions, r) && actions[r].certificate.Some?
    ensures actions[j].certificate.Some?
    ensures MajorityCertified(actions[r].certificate.value, Fence, Before(actions, p).members)
    ensures MajorityCertified(actions[j].certificate.value, Recovered, actions[p].nextMembers)
    ensures actions[j].certificate.value.statement.position.index
            > actions[r].certificate.value.statement.position.index
    ensures Before(actions, j + 1).members == actions[p].nextMembers
    ensures Before(actions, j + 1).generation == Successor(Before(actions, p).generation)
    ensures forall k, g, system :: p < k <= j ==> !Authorizes(Before(actions, k), g, system)
  {
    hide Apply, RecoveryCertificateValid;
    Unfold(actions, j);
    ActivateEffect(Before(actions, j), actions[j]);
    r := RecoveringHasReserve(actions, j);
    Unfold(actions, r);
    ReserveEffect(Before(actions, r), actions[r]);
    p := FencingHasPrepare(actions, r);
    Unfold(actions, p);
    PrepareEffect(Before(actions, p), actions[p]);
  }

  lemma PrepareEffect(a: Authority, action: Action)
    requires action.Prepare? && Apply(a, action).status == Accepted
    ensures var b := Apply(a, action).state;
            && b.phase == Fencing
            && b.generation == Successor(a.generation)
            && b.members == a.members
            && b.pendingMembers == action.nextMembers
  {
    hide ValidMembers;
  }

  lemma ReserveEffect(a: Authority, action: Action)
    requires action.Reserve? && Apply(a, action).status == Accepted
    ensures action.certificate.Some? && MajorityCertified(action.certificate.value, Fence, a.members)
    ensures var b := Apply(a, action).state;
            && a.phase == Fencing
            && b.phase == Recovering
            && b.generation == a.generation
            && b.members == a.members
            && b.pendingMembers == a.pendingMembers
            && b.fencedLogIndex == action.certificate.value.statement.position.index
  {
    hide RecoveryCertificateValid;
    ValidMeansMajority(a, action.certificate.value, Fence, a.members);
  }

  lemma ActivateEffect(a: Authority, action: Action)
    requires action.Activate? && Apply(a, action).status == Accepted
    ensures action.certificate.Some? && MajorityCertified(action.certificate.value, Recovered, a.pendingMembers)
    ensures action.certificate.value.statement.position.index > a.fencedLogIndex
    ensures var b := Apply(a, action).state;
            && a.phase == Recovering
            && b.phase == Active
            && b.generation == a.generation
            && b.members == a.pendingMembers
  {
    hide RecoveryCertificateValid;
    ValidMeansMajority(a, action.certificate.value, Recovered, a.pendingMembers);
  }

  // ---- routine replacement ----

  /** The pending replacement is a one-for-one swap of the members in force. */
  predicate ReplacementInForce(a: Authority, pending: PendingRoutine) {
    ValidRoutineReplacement(
      a.members, a.incarnations, pending.nextMembers, pending.nextIncarnations, pending.replacementNode,
      pending.replacementIncarnation)
  }

  /**
  Signers accepted as learner-ready and next members accepted as having committed the swap share a
  node of the next membership, whatever the size.
  */
  lemma LearnerReadyMeetsCommitted(a: Authority, ready: set<U64>, committed: set<U64>)
    requires a.pendingRoutine.Some? && ReplacementInForce(a, a.pendingRoutine.value)
    requires RoutineSignersSuffice(a, LearnerReady, ready)
    requires RoutineSignersSuffice(a, MembershipCommitted, committed)
    ensures ready * committed * a.pendingRoutine.value.nextMembers.Keys != {}
  {
    var pending := a.pendingRoutine.value;
    var before, after := a.members.Keys, pending.nextMembers.Keys;
    var readyAfter := ready * after;
    var bound := (readyAfter - {pending.replacementNode}) + (before - after);
    assert ready * before <= bound;
    Cardinality(ready * before, bound);
    LargeSubsetsMeet(readyAfter, committed * after, after);
    assert readyAfter * (committed * after) <= ready * committed * after;
  }

  /** Command `i` proved the learner of the replacement still pending before command `n`. */
  ghost predicate ReadiedBy(actions: seq<Action>, n: nat, i: nat)
    requires n <= |actions|
  {
    var a, z := if i < n then Before(actions, i) else INITIAL, Before(actions, n);
    && i < n
    && actions[i].MarkLearnerReady?
    && actions[i].routine.Some?
    && RoutineCertificateValid(a, actions[i].routine.value, LearnerReady)
    && SameReplacement(a, z)
  }

  /** Two states agree on who votes now and who would vote next. */
  predicate SameReplacement(a: Authority, z: Authority) {
    && a.pendingRoutine.Some?
    && z.pendingRoutine.Some?
    && a.members == z.members
    && a.incarnations == z.incarnations
    && a.pendingRoutine.value.nextMembers == z.pendingRoutine.value.nextMembers
    && a.pendingRoutine.value.nextIncarnations == z.pendingRoutine.value.nextIncarnations
    && a.pendingRoutine.value.replacementNode == z.pendingRoutine.value.replacementNode
    && a.pendingRoutine.value.replacementIncarnation == z.pendingRoutine.value.replacementIncarnation
  }

  predicate LearnerIsReady(a: Authority) {
    a.pendingRoutine.Some? && a.pendingRoutine.value.phase == Ready
  }

  lemma StepKeepsReplacement(a: Authority, action: Action)
    requires PendingIsCurrent(a)
    requires LearnerIsReady(Apply(a, action).state)
    ensures SameReplacement(a, Apply(a, action).state)
    ensures LearnerIsReady(a)
            || (action.MarkLearnerReady? && action.routine.Some?
                && RoutineCertificateValid(a, action.routine.value, LearnerReady))
  {
    if action.MarkLearnerReady? {
      hide RoutineCertificateValid, ReplacementInForce;
    } else {
      hide Apply;
      OtherStepKeepsReplacement(a, action);
    }
  }

  lemma OtherStepKeepsReplacement(a: Authority, action: Action)
    requires PendingIsCurrent(a) && !action.MarkLearnerReady?
    requires LearnerIsReady(Apply(a, action).state)
    ensures SameReplacement(a, Apply(a, action).state) && LearnerIsReady(a)
  {
    hide ValidMembers, ValidRoutineReplacement, RecoveryCertificateValid, RoutineCertificateValid, RoutineQuorum,
      RoutineDigest, ReplacementInForce;
  }

  lemma {:induction false} ReadyHasProof(actions: seq<Action>, n: nat) returns (i: nat)
    requires n <= |actions|
    requires LearnerIsReady(Before(actions, n))
    ensures ReadiedBy(actions, n, i)
    decreases n
  {
    hide Apply, RoutineCertificateValid, ReplacementInForce;
    assert n != 0;
    i := n - 1;
    Unfold(actions, i);
    PendingAlwaysCurrent(actions, i);
    StepKeepsReplacement(Before(actions, i), actions[i]);
    if LearnerIsReady(Before(actions, i)) {
      i := ReadyHasProof(actions, i);
    }
  }

  function RoutineSigners(certificate: RoutineCertificate): set<U64> {
    Signers(AttestationVotes(certificate.attestations, RoutineMessage(certificate.statement)))
  }

  /**
  Every completed replacement was preceded by an accepted learner proof whose signers share a node of
  the new membership with the signers that committed it.
  */
  lemma CompletionRestsOnReadyLearner(actions: seq<Action>, j: nat) returns (i: nat)
    requires j < |actions| && Completes(Before(actions, j), actions[j])
    ensures i < j && actions[i].MarkLearnerReady? && actions[i].routine.Some? && actions[j].routine.Some?
    ensures RoutineCertificateValid(Before(actions, i), actions[i].routine.value, LearnerReady)
    ensures RoutineSigners(actions[i].routine.value) * RoutineSigners(actions[j].routine.value)
            * Before(actions, j + 1).members.Keys != {}
  {
    hide Apply, ValidRoutineReplacement, RoutineStatementMatches, QuorumVoted;
    var a := Before(actions, j);
    CompletionProof(a, actions[j]);
    Unfold(actions, j);
    i := ReadyHasProof(actions, j);
    PendingAlwaysCurrent(actions, j);
    LearnerReadyMeetsCommitted(
      a, RoutineSigners(actions[i].routine.value), RoutineSigners(actions[j].routine.value));
  }

  ghost predicate MajoritiesMeet(before: set<U64>, after: set<U64>) {
    forall x: set<U64>, y: set<U64> ::
      x <= before && y <= after && |x| >= QuorumSize(|before|) && |y| >= QuorumSize(|after|) ==> x * y != {}
  }

  /** Plain majorities of the two memberships are bound to meet only when the size is even. */
  lemma PlainMajoritiesMeetIffEven(before: set<U64>, after: set<U64>)
    requires |before| == |after|
    requires |before - after| == 1 && |after - before| == 1
    ensures MajoritiesMeet(before, after) <==> |before| % 2 == 0
  {
    var common := before * after;
    assert |common| == |before| - 1 by {
      assert before == common + (before - after);
    }
    if |before| % 2 == 0 {
      forall x: set<U64>, y: set<U64> |
        x <= before && y <= after && |x| >= QuorumSize(|before|) && |y| >= QuorumSize(|after|)
        ensures x * y != {}
      {
        Cardinality(x, (x * after) + (before - after));
        LargeSubsetsMeet(x * after, y, after);
        assert x * after * y <= x * y;
      }
    } else {
      var half := |before| / 2;
      var left := SubsetOfSize(common, half);
      assert |common - left| == half by {
        assert common * left == left;
      }
      var x, y := left + (before - after), (common - left) + (after - before);
      assert x <= before && y <= after && x * y == {};
    }
  }

  // ---- bookkeeping ----

  /** Completed replacements are numbered 1 to the membership epoch, each number once. */
  ghost predicate EpochsAreBijection(a: Authority) {
    && (forall id :: id in a.completedRoutines ==>
          && a.completedRoutines[id].reconfigurationId == id
          && 1 <= a.completedRoutines[id].membershipEpoch <= a.membershipEpoch)
    && (forall id, other ::
          && id in a.completedRoutines
          && other in a.completedRoutines
          && a.completedRoutines[id].membershipEpoch == a.completedRoutines[other].membershipEpoch
          ==> id == other)
    && (forall epoch: nat :: 1 <= epoch <= a.membershipEpoch ==> EpochTaken(a, epoch))
  }

  ghost predicate EpochTaken(a: Authority, epoch: nat) {
    exists id :: id in a.completedRoutines && a.completedRoutines[id].membershipEpoch == epoch
  }

  /** A pending replacement exists only in an active generation, at the current epoch, as a valid swap. */
  predicate PendingIsCurrent(a: Authority) {
    a.pendingRoutine.Some? ==>
      var pending := a.pendingRoutine.value;
      && a.phase == Active
      && pending.expectedMembershipEpoch == a.membershipEpoch
      && pending.reconfigurationId !in a.completedRoutines
      && ReplacementInForce(a, pending)
      && (pending.phase == Ready <==> pending.appliedPosition.Some?)
  }

  /** This command completes a replacement for the first time. */
  predicate Completes(a: Authority, action: Action) {
    && action.FinalizeRoutine?
    && action.reconfigurationId !in a.completedRoutines
    && Apply(a, action).status == Accepted
  }

  lemma CompletionEffect(a: Authority, action: Action)
    requires Completes(a, action)
    ensures var b, id, epoch := Apply(a, action).state, action.reconfigurationId, Successor(a.membershipEpoch);
            && b.pendingRoutine.None?
            && b.membershipEpoch == epoch
            && b.completedRoutines.Keys == a.completedRoutines.Keys + {id}
            && b.completedRoutines[id].reconfigurationId == id
            && b.completedRoutines[id].membershipEpoch == epoch
            && forall other :: other in a.completedRoutines ==> b.completedRoutines[other] == a.completedRoutines[other]
  {
    hide RoutineCertificateValid;
  }

  lemma CompletionProof(a: Authority, action: Action)
    requires Completes(a, action)
    ensures LearnerIsReady(a) && action.routine.Some?
    ensures RoutineCertificateValid(a, action.routine.value, MembershipCommitted)
    ensures Apply(a, action).state.members == a.pendingRoutine.value.nextMembers
  {
    hide RoutineCertificateValid;
  }

  lemma NonCompletionEffect(a: Authority, action: Action)
    requires PendingIsCurrent(a) && !Completes(a, action)
    ensures var b := Apply(a, action).state;
            && PendingIsCurrent(b)
            && (action.Bootstrap? && b != a ==> b.membershipEpoch == 0 && b.completedRoutines == map[])
            && (!action.Bootstrap? ==>
                  b.membershipEpoch == a.membershipEpoch && b.completedRoutines == a.completedRoutines)
  {
    hide ValidMembers, ValidRoutineReplacement, RecoveryCertificateValid, RoutineCertificateValid, RoutineQuorum,
      RoutineDigest;
  }

  lemma {:induction false} PendingAlwaysCurrent(actions: seq<Action>, i: nat)
    requires i <= |actions|
    ensures PendingIsCurrent(Before(actions, i))
    decreases i
  {
    hide Apply, ReplacementInForce;
    if i > 0 {
      PendingAlwaysCurrent(actions, i - 1);
      Unfold(actions, i - 1);
      var a := Before(actions, i - 1);
      if Completes(a, actions[i - 1]) {
        CompletionEffect(a, actions[i - 1]);
      } else {
        NonCompletionEffect(a, actions[i - 1]);
      }
    }
  }

  /** Completing a replacement keeps the numbering a bijection exactly while the epoch can still grow. */
  lemma CompletionKeepsBijectionIff(a: Authority, action: Action)
    requires EpochsAreBijection(a) && Completes(a, action)
    ensures EpochsAreBijection(Apply(a, action).state) <==> a.membershipEpoch < U64_MAX
  {
    hide Apply;
    CompletionEffect(a, action);
    var b := Apply(a, action).state;
    if a.membershipEpoch < U64_MAX {
      forall epoch: nat | 1 <= epoch <= b.membershipEpoch
        ensures EpochTaken(b, epoch)
      {
        if epoch == b.membershipEpoch {
          assert action.reconfigurationId in b.completedRoutines;
        } else {
          assert EpochTaken(a, epoch);
          var id :| id in a.completedRoutines && a.completedRoutines[id].membershipEpoch == epoch;
          assert id in b.completedRoutines;
        }
      }
    } else {
      assert EpochTaken(a, U64_MAX);
      var id :| id in a.completedRoutines && a.completedRoutines[id].membershipEpoch == U64_MAX;
      assert id in b.completedRoutines && action.reconfigurationId in b.completedRoutines;
    }
  }

  /** In every reachable state the completed epochs are exactly 1..membership_epoch and any pending swap is current. */
  lemma {:induction false} BookkeepingHolds(actions: seq<Action>)
    requires forall i :: 0 <= i < |actions| && Completes(Before(actions, i), actions[i]) ==>
               Before(actions, i).membershipEpoch < U64_MAX
    ensures EpochsAreBijection(Run(actions)) && PendingIsCurrent(Run(actions))
  {
    hide Apply;
    if actions != [] {
      var n := |actions| - 1;
      var front := actions[..n];
      forall i | 0 <= i < n
        ensures Before(front, i) == Before(actions, i)
      {
        assert front[..i] == actions[..i];
      }
      BookkeepingHolds(front);
      var a := Run(front);
      assert Before(actions, n) == a;
      if Completes(a, actions[n]) {
        CompletionKeepsBijectionIff(a, actions[n]);
        CompletionEffect(a, actions[n]);
      } else {
        NonCompletionEffect(a, actions[n]);
        var b := Run(actions);
        forall epoch: nat | 1 <= epoch <= b.membershipEpoch
          ensures EpochTaken(b, epoch)
        {
          assert EpochTaken(a, epoch);
        }
      }
    }
  }
}
