/** Prepared policy transitions: a required log set freezes until its change commits, and changes form a chain. */
module Transitions {
  import opened Types
  import opened Certificates
  import opened Ordering
  import opened Domain
  import opened History
  import opened Events
  import opened Runs
  import opened Ledgers
  import opened Guarantees
  import opened Policies
  import Resolver

  predicate Required(logSet: U16) {
    logSet in REQUIRED_LOG_TAGS
  }

  /** A transition of a required log set is prepared. */
  predicate Freezing(d: Domain) {
    d.pending.Some? && Required(d.pending.value.logSet)
  }

  /** The domain waits on this transition: nothing unresolved, the old policy in place, the generation unchanged. */
  predicate Waiting(d: Domain, transition: LogSetTransition) {
    && NothingUnresolved(d.log.staged)
    && transition.logSet in d.policies
    && transition.oldPolicy == d.policies[transition.logSet]
    && transition.generation == d.log.generation
  }

  predicate FreezeHolds(d: Domain) {
    Freezing(d) ==> Waiting(d, d.pending.value)
  }

  // ---- nothing can be staged, published or taken over ----

  lemma StageIsBlocked(d: Domain, command: StagedCommand, tx: Transaction, logIndex: U64)
    requires Freezing(d)
    ensures ApplyStage(d, command, tx, logIndex).domain.log == d.log
  {
    hide ValidRequest, ConfiguredCount, Resolver.Resolve, CandidateInOrder, AdmitStage;
    var logSet := d.pending.value.logSet;
    var k :| 0 <= k < |REQUIRED_LOG_TAGS| && REQUIRED_LOG_TAGS[k] == logSet;
    assert ContainsAll(tx.logTags, REQUIRED_LOG_TAGS) ==> REQUIRED_LOG_TAGS[k] in tx.logTags;
    hide ContainsAll;
  }

  lemma FrozenNeverStages(d: Domain, entry: Entry)
    requires Freezing(d)
    ensures !EventOf(d, entry).Append?
  {
    hide ApplyDirect, ApplyInstall, ApplyPrepareTransition, ApplyCommitTransition, ApplyReserve, ApplyStage,
      ApplyReceipt, ApplyCertificate, ApplyPublish, ApplyTakeoverPublish, ApplyTakeoverAbort, ApplyRecoverPrefix,
      RecoverableCount, Required;
    if entry.StagedEntry? && entry.command.action.Stage? {
      StageIsBlocked(d, entry.command, entry.command.action.transaction, entry.logIndex);
    }
  }

  /** With nothing unresolved and nothing staged, an event changes no outcome and no generation. */
  lemma SettledEvent(log: CommitLog, event: Event)
    requires NothingUnresolved(log.staged) && Enabled(log, event) && !event.Append?
    ensures SameButEvidence(log.staged, Happen(log, event).staged)
    ensures Happen(log, event).generation == log.generation
  {
    hide ValidRequest, CommittedConflict, ApplyMutations, WritesAt, UnresolvedCount, UnresolvedIndexes, EarlierPending,
      Publish, Abort, Dispose;
    CountZeroIff(log.staged);
    if event.RecoverOver? {
      UnresolvedIndexesAreUnresolved(log.staged, event.indexes[0]);
    }
  }

  // ---- the policy stays ----

  lemma {:induction false} InstallAllKeeps(
    installed: map<U16, LogSetPolicy>, policies: seq<LogSetPolicy>, logSet: U16)
    requires logSet in installed
    requires forall i :: 0 <= i < |policies| && policies[i].logSet == logSet ==> policies[i] == installed[logSet]
    ensures logSet in InstallAll(installed, policies) && InstallAll(installed, policies)[logSet] == installed[logSet]
  {
    if policies != [] {
      InstallAllKeeps(installed, policies[..|policies| - 1], logSet);
    }
  }

  /** An installed policy of the current generation is not replaced by installing. */
  lemma InstallKeepsCurrent(d: Domain, command: StagedCommand, policies: seq<LogSetPolicy>, logSet: U16)
    requires logSet in d.policies && d.policies[logSet].generation == command.generation
    ensures var next := ApplyInstall(d, command, policies).domain;
            logSet in next.policies && next.policies[logSet] == d.policies[logSet]
  {
    hide NothingUnresolved;
    if ApplyInstall(d, command, policies).domain != d {
      forall i | 0 <= i < |policies| && policies[i].logSet == logSet
        ensures policies[i] == d.policies[logSet]
      {
        assert Installable(d, policies[i], command.generation);
      }
      InstallAllKeeps(d.policies, policies, logSet);
    }
  }

  lemma {:induction false} InstallAllGrows(installed: map<U16, LogSetPolicy>, policies: seq<LogSetPolicy>)
    ensures installed.Keys <= InstallAll(installed, policies).Keys
  {
    if policies != [] {
      InstallAllGrows(installed, policies[..|policies| - 1]);
    }
  }

  // ---- how a transition starts and ends ----

  /** What one command does to the pending transition, the completed ones and one installed policy. */
  datatype Change =
    | Unmoved
    | Prepared(transition: LogSetTransition)
    | Finished(id: U64, record: CompletedTransition)

  predicate ChangeIs(d: Domain, next: Domain, change: Change) {
    match change
    case Unmoved => next.pending == d.pending && next.completed == d.completed
    case Prepared(transition) =>
      && d.pending.None?
      && next.pending == Some(transition)
      && next.completed == d.completed
      && next.policies == d.policies
      && next.log.staged == d.log.staged
      && next.log.generation == d.log.generation
      && Waiting(d, transition)
    case Finished(id, record) =>
      && d.pending == Some(record.transition)
      && record.transition.transitionId == id
      && id !in d.completed
      && next.pending.None?
      && next.completed == d.completed[id := record]
      && next.policies == d.policies[record.transition.logSet := record.transition.nextPolicy]
  }

  /** A policy of the current generation changes only when its own transition finishes. */
  predicate KeepsCurrent(d: Domain, next: Domain, change: Change) {
    forall logSet :: logSet in d.policies ==>
      && logSet in next.policies
      && (d.policies[logSet].generation == d.log.generation
          && !(change.Finished? && change.record.transition.logSet == logSet) ==>
            next.policies[logSet] == d.policies[logSet])
  }

  lemma PrepareChange(d: Domain, command: StagedCommand, transition: LogSetTransition, readiness: RepairCertificate)
    returns (change: Change)
    requires PoliciesKeyed(d.policies) && PendingSound(d) && command.generation == d.log.generation
    ensures var next := ApplyPrepareTransition(d, command, transition, readiness).domain;
            ChangeIs(d, next, change) && KeepsCurrent(d, next, change)
  {
    hide NothingUnresolved, PoliciesKeyed, PendingSound;
    PreparePolicyEffect(d, command, transition, readiness);
    PrepareEffect(d, command, transition, readiness);
    hide ApplyPrepareTransition;
    var next := ApplyPrepareTransition(d, command, transition, readiness).domain;
    change := if next == d then Unmoved else Prepared(transition);
  }

  lemma FinishChange(d: Domain, id: U64, stage: PolicyStageCertificate, logIndex: U64) returns (change: Change)
    ensures var next := ApplyCommitTransition(d, id, stage, logIndex).domain;
            ChangeIs(d, next, change) && KeepsCurrent(d, next, change)
  {
    hide NothingUnresolved, PolicyStageCertificateValid, PolicyStageIdentity;
    var next := ApplyCommitTransition(d, id, stage, logIndex).domain;
    change := Unmoved;
    if next != d {
      change := Finished(id, CompletedTransition(d.pending.value, PolicyStageIdentity(stage), logIndex));
    }
  }

  lemma InstallChange(d: Domain, command: StagedCommand, policies: seq<LogSetPolicy>)
    requires command.generation == d.log.generation
    ensures var next := ApplyInstall(d, command, policies).domain;
            ChangeIs(d, next, Unmoved) && KeepsCurrent(d, next, Unmoved)
  {
    hide Installable, NothingUnresolved;
    InstallAllGrows(d.policies, policies);
    var next := ApplyInstall(d, command, policies).domain;
    forall logSet | logSet in d.policies
      ensures logSet in next.policies
      ensures d.policies[logSet].generation == d.log.generation ==> next.policies[logSet] == d.policies[logSet]
    {
      if d.policies[logSet].generation == d.log.generation {
        InstallKeepsCurrent(d, command, policies, logSet);
      }
    }
  }

  /** Every command is one of the three changes. */
  lemma StepChange(d: Domain, entry: Entry) returns (change: Change)
    requires PolicyInvariant(d)
    ensures ChangeIs(d, Step(d, entry), change) && KeepsCurrent(d, Step(d, entry), change)
  {
    hide ApplyInstall, ApplyPrepareTransition, ApplyCommitTransition, ApplyDirect, ApplyReserve, ApplyStage,
      ApplyReceipt, ApplyCertificate, ApplyPublish, ApplyTakeoverPublish, ApplyTakeoverAbort, ApplyRecoverPrefix,
      ChangeIs, KeepsCurrent, PoliciesKeyed, PendingSound, EvidenceHolds, AllDescribed;
    change := Unmoved;
    if entry.StagedEntry? && ChangesPolicies(entry.command.action) {
      var StagedEntry(logIndex, command, authority) := entry;
      if command.generation == 0 || d.log.generation != command.generation {
        SamePoliciesIsUnmoved(d, d);
      } else {
        match command.action
        case InstallPolicies(policies) => InstallChange(d, command, policies);
        case PrepareTransition(transition, readiness) => change := PrepareChange(d, command, transition, readiness);
        case CommitTransition(id, stage) => change := FinishChange(d, id, stage, logIndex);
        case _ =>
      }
    } else {
      OtherKeepsPolicies(d, entry);
      SamePoliciesIsUnmoved(d, Step(d, entry));
    }
  }

  lemma SamePoliciesIsUnmoved(d: Domain, next: Domain)
    requires SamePolicies(d, next)
    ensures ChangeIs(d, next, Unmoved) && KeepsCurrent(d, next, Unmoved)
  {
  }

  // ---- the freeze ----

  /** Under a frozen domain a command settles nothing new: the wait goes on, or the transition itself commits. */
  lemma FrozenStep(d: Domain, entry: Entry)
    requires PolicyInvariant(d) && FreezeHolds(d) && Freezing(d)
    ensures var next, transition := Step(d, entry), d.pending.value;
            && SameButEvidence(d.log.staged, next.log.staged)
            && next.log.generation == d.log.generation
            && if next.pending == d.pending then Waiting(next, transition)
               else
                 && next.pending.None?
                 && transition.logSet in next.policies
                 && next.policies[transition.logSet] == transition.nextPolicy
  {
    hide Step, EventOf, Enabled, Happen, PoliciesKeyed, EvidenceHolds, AllDescribed, NothingUnresolved, ValidPolicy,
      SucceedsPolicy, SwapsOneMember, Required;
    StepIsEvent(d, entry);
    FrozenNeverStages(d, entry);
    SettledEvent(d.log, EventOf(d, entry));
    StillSettled(d.log.staged, Step(d, entry).log.staged);
    var change := StepChange(d, entry);
  }

  lemma StillSettled(before: seq<StagedTransaction>, after: seq<StagedTransaction>)
    requires NothingUnresolved(before) && SameButEvidence(before, after)
    ensures NothingUnresolved(after)
  {
  }

  lemma StepKeepsFreeze(d: Domain, entry: Entry)
    requires PolicyInvariant(d) && FreezeHolds(d)
    ensures FreezeHolds(Step(d, entry))
  {
    hide Step, PolicyInvariant, NothingUnresolved, Required, KeepsCurrent, SameButEvidence;
    if Freezing(d) {
      FrozenStep(d, entry);
    } else {
      var change := StepChange(d, entry);
    }
  }

  lemma {:induction false} RunsKeepFreeze(t: Trace, i: nat)
    requires IsRun(t)
    requires i < |t.ledgers|
    ensures PolicyInvariant(t.ledgers[i].domain) && FreezeHolds(t.ledgers[i].domain)
    decreases i
  {
    hide IsRun, Step, PolicyInvariant, Waiting, Required;
    RunStartsFresh(t);
    RunsKeepPolicyInvariant(t, i);
    if i > 0 {
      RunsKeepFreeze(t, i - 1);
      RunStep(t, i - 1);
      StepKeepsFreeze(t.ledgers[i - 1].domain, t.entries[i - 1]);
    }
  }

  /** Throughout a stretch of a run, this transition is the one pending. */
  predicate PendingThroughout(t: Trace, i: nat, j: nat, transition: LogSetTransition) {
    i <= j < |t.ledgers| && forall k :: i <= k <= j ==> t.ledgers[k].domain.pending == Some(transition)
  }

  /**
  The freeze. In every run, as long as a transition of a required log set stays prepared, nothing is
  staged, published or taken over, the generation stands still and the old policy stays installed.
  */
  lemma {:induction false} FrozenUntilCommitted(t: Trace, i: nat, j: nat, transition: LogSetTransition)
    requires IsRun(t)
    requires PendingThroughout(t, i, j, transition) && Required(transition.logSet)
    ensures SameButEvidence(t.ledgers[i].domain.log.staged, t.ledgers[j].domain.log.staged)
    ensures t.ledgers[j].domain.log.generation == t.ledgers[i].domain.log.generation
    ensures Waiting(t.ledgers[j].domain, transition)
    decreases j
  {
    hide IsRun, Step, PolicyInvariant, Waiting, Required;
    RunsKeepFreeze(t, j);
    if i < j {
      FrozenUntilCommitted(t, i, j - 1, transition);
      RunsKeepFreeze(t, j - 1);
      RunStartsFresh(t);
      RunStep(t, j - 1);
      FrozenStep(t.ledgers[j - 1].domain, t.entries[j - 1]);
    }
  }

  // ---- chains of completed transitions ----

  /** Transitions of one log set and generation that committed in the first `n` steps, in order. */
  function CommittedTransitions(t: Trace, n: nat, logSet: U16, generation: U64): seq<LogSetTransition>
    requires n < |t.ledgers|
  {
    if n == 0 then []
    else
      CommittedTransitions(t, n - 1, logSet, generation)
      + FinishedHere(t.ledgers[n - 1].domain, t.ledgers[n].domain, logSet, generation)
  }

  function FinishedHere(d: Domain, next: Domain, logSet: U16, generation: U64): seq<LogSetTransition> {
    if d.pending.Some? && next.pending.None?
       && d.pending.value.logSet == logSet && d.pending.value.generation == generation
    then [d.pending.value] else []
  }

  predicate IsTransitionChain(chain: seq<LogSetTransition>) {
    && (forall k :: 0 <= k < |chain| ==> OneStep(chain[k]))
    && forall k :: 0 < k < |chain| ==> chain[k].oldPolicy == chain[k - 1].nextPolicy
  }

  /** The chain ends at the policy in force, for as long as its generation lasts. */
  predicate EndsAtCurrent(d: Domain, chain: seq<LogSetTransition>, logSet: U16, generation: U64) {
    chain != [] ==>
      && generation <= d.log.generation
      && logSet in d.policies
      && (d.log.generation == generation ==> d.policies[logSet] == chain[|chain| - 1].nextPolicy)
  }

  /** The chain holds exactly the completed transitions of this log set and generation. */
  predicate ListsCompleted(d: Domain, chain: seq<LogSetTransition>, logSet: U16, generation: U64) {
    && (forall id :: id in d.completed ==>
          d.completed[id].transition.logSet == logSet && d.completed[id].transition.generation == generation ==>
            d.completed[id].transition in chain)
    && (forall k :: 0 <= k < |chain| ==>
          && chain[k].logSet == logSet
          && chain[k].generation == generation
          && chain[k].transitionId in d.completed
          && d.completed[chain[k].transitionId].transition == chain[k])
  }

  lemma ChangeKeepsList(
    d: Domain, next: Domain, change: Change, chain: seq<LogSetTransition>, logSet: U16, generation: U64)
    requires ChangeIs(d, next, change) && ListsCompleted(d, chain, logSet, generation)
    ensures ListsCompleted(next, chain + FinishedHere(d, next, logSet, generation), logSet, generation)
  {
    hide Waiting;
    var longer := chain + FinishedHere(d, next, logSet, generation);
    if change.Finished? {
      forall id |
        && id in next.completed
        && next.completed[id].transition.logSet == logSet
        && next.completed[id].transition.generation == generation
        ensures next.completed[id].transition in longer
      {
        if id == change.id {
          assert longer[|chain|] == change.record.transition;
        }
      }
    } else {
      assert longer == chain;
    }
  }

  lemma ChangeKeepsChain(
    d: Domain, next: Domain, change: Change, chain: seq<LogSetTransition>, logSet: U16, generation: U64)
    requires PendingSound(d) && FreezeHolds(d) && Required(logSet)
    requires ChangeIs(d, next, change) && KeepsCurrent(d, next, change)
    requires IsTransitionChain(chain) && EndsAtCurrent(d, chain, logSet, generation)
    requires chain != [] ==> chain[|chain| - 1].generation == generation
    requires d.log.generation <= next.log.generation
    ensures var longer := chain + FinishedHere(d, next, logSet, generation);
            IsTransitionChain(longer) && EndsAtCurrent(next, longer, logSet, generation)
  {
    hide NothingUnresolved, SucceedsPolicy, SwapsOneMember, Required;
    var finished := FinishedHere(d, next, logSet, generation);
    if finished != [] {
      assert Waiting(d, d.pending.value);
      assert change.Finished?;
    } else {
      assert chain + finished == chain;
      if chain != [] {
        var last := chain[|chain| - 1];
        assert OneStep(last);
      }
    }
  }

  /**
  In every orderly run, the completed transitions of a required log set within one generation form a
  chain: each starts from the policy the one before produced, advances the epoch by one, exchanges one
  member and keeps every other key, the quorum, the size and the limit. The chain ends at the policy in force.
  */
  lemma {:induction false} CompletedTransitionsFormChain(t: Trace, n: nat, logSet: U16, generation: U64)
    requires IsOrderlyRun(t)
    requires n < |t.ledgers| && Required(logSet)
    ensures var chain := CommittedTransitions(t, n, logSet, generation);
            && IsTransitionChain(chain)
            && EndsAtCurrent(t.ledgers[n].domain, chain, logSet, generation)
            && ListsCompleted(t.ledgers[n].domain, chain, logSet, generation)
    decreases n
  {
    hide IsOrderlyRun, IsRun, Step, IsTransitionChain, EndsAtCurrent, ListsCompleted, Required, PolicyInvariant,
      FreezeHolds, ChangeIs, KeepsCurrent, FinishedHere, PendingSound;
    OrderlyRunIsRun(t);
    RunStartsFresh(t);
    if n == 0 {
      EmptyChain(t.ledgers[0].domain, logSet, generation);
    } else {
      CompletedTransitionsFormChain(t, n - 1, logSet, generation);
      RunsKeepFreeze(t, n - 1);
      RunStep(t, n - 1);
      RunsGrow(t, n - 1, n);
      var d, next := t.ledgers[n - 1].domain, t.ledgers[n].domain;
      var change := StepChange(d, t.entries[n - 1]);
      var chain := CommittedTransitions(t, n - 1, logSet, generation);
      ChainParts(d, chain, logSet, generation);
      ChangeKeepsList(d, next, change, chain, logSet, generation);
      ChangeKeepsChain(d, next, change, chain, logSet, generation);
    }
  }

  lemma ChainParts(d: Domain, chain: seq<LogSetTransition>, logSet: U16, generation: U64)
    requires PolicyInvariant(d) && ListsCompleted(d, chain, logSet, generation)
    ensures PendingSound(d)
    ensures chain != [] ==> chain[|chain| - 1].generation == generation
  {
    hide AllDescribed, EvidenceHolds, PoliciesKeyed, PendingSound;
  }

  lemma EmptyChain(d: Domain, logSet: U16, generation: U64)
    requires d == Fresh(d.cell, d.tenant, d.log.generation)
    ensures IsTransitionChain([]) && EndsAtCurrent(d, [], logSet, generation)
    ensures ListsCompleted(d, [], logSet, generation)
  {
  }
}
