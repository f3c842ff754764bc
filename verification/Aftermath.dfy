/** What was aborted stays uncertified under every later policy, through member exchanges and new generations. */
module Aftermath {
  import opened Types
  import opened Quorum
  import opened Certificates
  import opened Ordering
  import opened Domain
  import opened History
  import opened Events
  import opened Runs
  import opened Ledgers
  import opened Policies
  import opened Transitions
  import opened LogNodes
  import opened Safety
  import opened SystemRuns
  import opened Publication
  import Resolver

  // ---- a prepared transition keeps away from open records ----

  /** No unresolved record needs the log set whose transition is prepared. */
  predicate PendingApart(d: Domain) {
    d.pending.Some? ==>
      forall i :: 0 <= i < |d.log.staged| && Unresolved(d.log.staged[i]) ==>
        d.pending.value.logSet !in d.log.staged[i].transaction.logTags
  }

  lemma StagedIsApart(d: Domain, command: StagedCommand, tx: Transaction, logIndex: U64)
    ensures d.pending.Some? && ApplyStage(d, command, tx, logIndex).domain.log != d.log ==>
              d.pending.value.logSet !in tx.logTags
  {
    hide ValidRequest, ConfiguredCount, Resolver.Resolve, CandidateInOrder, AdmitStage, ContainsAll;
  }

  lemma AppendedIsApart(d: Domain, entry: Entry)
    ensures var event := EventOf(d, entry);
            d.pending.Some? && event.Append? ==> d.pending.value.logSet !in event.transaction.logTags
  {
    hide ApplyDirect, ApplyInstall, ApplyPrepareTransition, ApplyCommitTransition, ApplyReserve, ApplyStage,
      ApplyReceipt, ApplyCertificate, ApplyPublish, ApplyTakeoverPublish, ApplyTakeoverAbort, ApplyRecoverPrefix,
      RecoverableCount;
    if entry.StagedEntry? && entry.command.action.Stage? {
      StagedIsApart(d, entry.command, entry.command.action.transaction, entry.logIndex);
    }
  }

  lemma StepKeepsApart(d: Domain, entry: Entry)
    requires PolicyInvariant(d) && PendingApart(d)
    ensures PendingApart(Step(d, entry))
  {
    hide Step, EventOf, Enabled, Happen, PolicyInvariant, KeepsCurrent;
    var next, event := Step(d, entry), EventOf(d, entry);
    StepIsEvent(d, entry);
    EventAdvances(d.log, event);
    EventAppends(d.log, event);
    AppendedIsApart(d, entry);
    var change := StepChange(d, entry);
    if next.pending.Some? {
      forall i | 0 <= i < |next.log.staged| && Unresolved(next.log.staged[i])
        ensures next.pending.value.logSet !in next.log.staged[i].transaction.logTags
      {
        if i < |d.log.staged| {
          assert Unresolved(d.log.staged[i]);
        }
      }
    }
  }

  // ---- later policies belong to later generations ----

  /** Whatever policy the log set has, or is about to get, is the old one or of another generation. */
  predicate LeftBehind(d: Domain, logSet: U16, policy: LogSetPolicy, generation: U64) {
    && logSet in d.policies
    && (d.policies[logSet] == policy || d.policies[logSet].generation != generation)
    && (d.pending.Some? && d.pending.value.logSet == logSet ==> d.pending.value.nextPolicy.generation != generation)
  }

  lemma {:induction false} InstallAllIsCurrent(
    installed: map<U16, LogSetPolicy>, policies: seq<LogSetPolicy>, logSet: U16, generation: U64)
    requires logSet in installed
    requires forall i :: 0 <= i < |policies| ==> policies[i].generation == generation
    ensures var next := InstallAll(installed, policies);
            logSet in next && (next[logSet] == installed[logSet] || next[logSet].generation == generation)
  {
    if policies == [] {
    } else {
      InstallAllIsCurrent(installed, policies[..|policies| - 1], logSet, generation);
    }
  }

  lemma InstallIsCurrent(d: Domain, command: StagedCommand, policies: seq<LogSetPolicy>, logSet: U16)
    requires logSet in d.policies
    ensures var next := ApplyInstall(d, command, policies).domain;
            && logSet in next.policies
            && (next.policies[logSet] == d.policies[logSet] || next.policies[logSet].generation == command.generation)
  {
    hide NothingUnresolved;
    if ApplyInstall(d, command, policies).domain != d {
      forall i | 0 <= i < |policies|
        ensures policies[i].generation == command.generation
      {
        assert Installable(d, policies[i], command.generation);
      }
      InstallAllIsCurrent(d.policies, policies, logSet, command.generation);
    }
  }

  /** A policy is replaced by one of the generation in force, or by its own prepared successor. */
  lemma ReplacedByCurrent(d: Domain, entry: Entry, logSet: U16)
    requires PolicyInvariant(d) && logSet in d.policies
    ensures var next := Step(d, entry);
            && logSet in next.policies
            && (|| next.policies[logSet] == d.policies[logSet]
                || next.policies[logSet].generation == d.log.generation
                || (d.pending.Some? && d.pending.value.logSet == logSet
                    && next.policies[logSet] == d.pending.value.nextPolicy))
  {
    hide PolicyInvariant, Waiting, ApplyInstall, ApplyPrepareTransition, ApplyCommitTransition, ApplyDirect,
      ApplyReserve, ApplyStage, ApplyReceipt, ApplyCertificate, ApplyPublish, ApplyTakeoverPublish,
      ApplyTakeoverAbort, ApplyRecoverPrefix;
    var change := StepChange(d, entry);
    if entry.StagedEntry? && entry.command.action.InstallPolicies? {
      InstallIsCurrent(d, entry.command, entry.command.action.policies, logSet);
    } else if change.Unmoved? {
      UnmovedKeepsPolicies(d, entry);
    }
  }

  /** Without a finished transition only installing changes policies. */
  lemma UnmovedKeepsPolicies(d: Domain, entry: Entry)
    requires PolicyInvariant(d) && Step(d, entry).pending == d.pending
    requires entry.StagedEntry? ==> !entry.command.action.InstallPolicies?
    ensures Step(d, entry).policies == d.policies
  {
    hide ApplyPrepareTransition, ApplyCommitTransition, ApplyDirect, ApplyReserve, ApplyStage, ApplyReceipt,
      ApplyCertificate, ApplyPublish, ApplyTakeoverPublish, ApplyTakeoverAbort, ApplyRecoverPrefix, PoliciesKeyed,
      PendingSound, EvidenceHolds, AllDescribed, ApplyInstall;
    if entry.StagedEntry? && ChangesPolicies(entry.command.action) {
      match entry.command.action
      case PrepareTransition(transition, readiness) =>
        PreparePolicyEffect(d, entry.command, transition, readiness);
      case CommitTransition(id, stage) =>
        CommitPolicyEffect(d, id, stage, entry.logIndex);
      case _ =>
    } else {
      OtherKeepsPolicies(d, entry);
    }
  }

  /** Commands applied in another generation leave the old one behind. */
  lemma StepLeavesBehind(d: Domain, entry: Entry, logSet: U16, policy: LogSetPolicy, generation: U64)
    requires PolicyInvariant(d) && d.log.generation != generation && LeftBehind(d, logSet, policy, generation)
    ensures LeftBehind(Step(d, entry), logSet, policy, generation)
  {
    hide Step, PolicyInvariant, KeepsCurrent;
    var change := StepChange(d, entry);
    ReplacedByCurrent(d, entry, logSet);
    StepKeepsPolicyInvariant(d, entry);
    PendingIsOfItsGeneration(Step(d, entry));
  }

  lemma PendingIsOfItsGeneration(d: Domain)
    requires PolicyInvariant(d)
    ensures d.pending.Some? ==> d.pending.value.nextPolicy.generation == d.pending.value.generation
  {
    hide AllDescribed, EvidenceHolds, PoliciesKeyed, SucceedsPolicy, SwapsOneMember;
  }

  /** The command that aborts a record leaves its policies and any prepared transition as they are. */
  lemma AbortLeavesBehind(d: Domain, entry: Entry, i: nat, logSet: U16, generation: U64)
    requires PolicyInvariant(d) && PendingApart(d)
    requires i < |d.log.staged| && Unresolved(d.log.staged[i])
    requires logSet in d.log.staged[i].transaction.logTags && logSet in d.policies
    ensures LeftBehind(Step(d, entry), logSet, d.policies[logSet], generation)
  {
    hide Step, PolicyInvariant, KeepsCurrent;
    var change := StepChange(d, entry);
    PoliciesStand(d, entry, i);
  }

  // ---- whole runs ----

  lemma {:induction false} RunsKeepApart(t: SystemTrace, n: nat)
    requires IsSystemRun(t)
    requires n < |t.states|
    ensures PendingApart(t.states[n].domain) && PolicyInvariant(t.states[n].domain)
    decreases n
  {
    hide IsSystemRun, Step, Handle, PolicyInvariant, Honest, PrefixClosed, SourcesKnown, ProvisionedAt,
      TrimmedAt, OrderedAt, AuthenticCommand, AuthenticRepair;
    SystemRunKeepsInvariant(t, n);
    RunStart(t);
    if n == 0 {
      assert t.states[0].domain.pending.None?;
    } else {
      RunsKeepApart(t, n - 1);
      RunMove(t, n - 1);
      if t.moves[n - 1].CommandMove? {
        StepKeepsApart(t.states[n - 1].domain, t.moves[n - 1].entry);
      }
    }
  }

  /** In an orderly run an aborted record belongs to an earlier generation. */
  lemma AbortedIsEarlier(t: SystemTrace, c: Trace, at: seq<nat>, n: nat, i: nat)
    requires IsSystemRun(t)
    requires IsOrderlyRun(c)
    requires Projects(t, c, at)
    requires n < |t.states| && i < |t.states[n].domain.log.staged| && t.states[n].domain.log.staged[i].aborted
    ensures t.states[n].domain.log.staged[i].envelope.generation < t.states[n].domain.log.generation
  {
    hide IsSystemRun, IsOrderlyRun, Orderly, IndexBound, Honest, PrefixClosed, SourcesKnown, EvidenceHolds,
      PoliciesKeyed, PendingSound;
    OrderlyRunStaysOrderly(c, at[n]);
    SystemRunKeepsInvariant(t, n);
    assert Described(t.states[n].domain.log.staged[i], t.states[n].domain.cell, t.states[n].domain.tenant);
  }

  /** Once a record is aborted, its log sets only ever get policies of other generations. */
  lemma {:induction false} AbortsAreLeftBehind(
    t: SystemTrace, c: Trace, at: seq<nat>, m: nat, n: nat, i: nat, logSet: U16)
    requires IsSystemRun(t)
    requires IsOrderlyRun(c)
    requires Projects(t, c, at)
    requires m < n < |t.states| && AbortedBy(t, m, i) && i < |t.states[m].domain.log.staged|
    requires logSet in t.states[m].domain.log.staged[i].transaction.logTags && logSet in t.states[m].domain.policies
    ensures i < |t.states[n].domain.log.staged| && t.states[n].domain.log.staged[i].aborted
    ensures t.states[n].domain.log.staged[i].envelope == t.states[m].domain.log.staged[i].envelope
    ensures t.states[n].domain.log.staged[i].transaction == t.states[m].domain.log.staged[i].transaction
    ensures LeftBehind(
              t.states[n].domain, logSet, t.states[m].domain.policies[logSet],
              t.states[m].domain.log.staged[i].envelope.generation)
    decreases n
  {
    hide IsSystemTrace, AllProvisioned, AllOrdered, AllTrimmed, IsOrderlyRun, Projects, Step, Handle, PendingApart,
      PolicyInvariant, Honest, PrefixClosed, SourcesKnown, ProvisionedAt, TrimmedAt, OrderedAt, AuthenticCommand,
      AuthenticRepair, LeftBehind;
    var policy, generation := t.states[m].domain.policies[logSet], t.states[m].domain.log.staged[i].envelope.generation;
    RunStart(t);
    RunMove(t, n - 1);
    MoveAdvances(t, n - 1);
    RunsKeepApart(t, n - 1);
    var d, move := t.states[n - 1].domain, t.moves[n - 1];
    if m == n - 1 {
      if d.log.staged[i].visible {
        VisibleIsNotAborted(d, move.entry, i);
      }
      AbortLeavesBehind(d, move.entry, i, logSet, generation);
    } else {
      AbortsAreLeftBehind(t, c, at, m, n - 1, i, logSet);
      AbortedIsEarlier(t, c, at, n - 1, i);
      if move.CommandMove? {
        StepLeavesBehind(d, move.entry, logSet, policy, generation);
      }
    }
  }

  /**
  Quorum safety under every later policy. Whenever a record is aborted, one of its log sets is to blame for good:
  in no later state, whatever members were exchanged and whatever generations began since, can a durability
  certificate that the set's policy then in force accepts be put together from signatures the nodes gave.
  */
  lemma AbortedRecordsStayUncertified(t: SystemTrace, c: Trace, at: seq<nat>, n: nat, i: nat)
    returns (logSet: U16)
    requires IsSystemRun(t)
    requires IsOrderlyRun(c)
    requires Projects(t, c, at)
    requires n < |t.states| && i < |t.states[n].domain.log.staged| && t.states[n].domain.log.staged[i].aborted
    ensures logSet in t.states[n].domain.log.staged[i].transaction.logTags && logSet in t.states[n].domain.policies
    ensures forall certificate :: AuthenticCertificate(t.states[n].world, certificate) ==>
              !EnvelopeCertificateValid(
                certificate, t.states[n].domain.policies[logSet], t.states[n].domain.log.staged[i].envelope)
  {
    hide IsSystemRun, IsOrderlyRun, Projects, AuthenticCertificate, QuorumVoted, AttestationVotes, HeldByQuorum,
      MemberMap;
    var m;
    m, logSet := AbortedRecordsAreNeverDurable(t, n, i);
    AbortsAreLeftBehind(t, c, at, m, n, i, logSet);
  }

  /** The same in terms of callers and publishers alone: careful commands and published pops. */
  lemma CarefulAbortsStayUncertified(t: SystemTrace, c: Trace, at: seq<nat>, n: nat, i: nat)
    returns (logSet: U16)
    requires IsSystemTrace(t)
    requires IsCarefulRun(c)
    requires Projects(t, c, at) && AllPublished(t) && AllProvisioned(t) && AllOrdered(t)
    requires n < |t.states| && i < |t.states[n].domain.log.staged| && t.states[n].domain.log.staged[i].aborted
    ensures logSet in t.states[n].domain.log.staged[i].transaction.logTags && logSet in t.states[n].domain.policies
    ensures forall certificate :: AuthenticCertificate(t.states[n].world, certificate) ==>
              !EnvelopeCertificateValid(
                certificate, t.states[n].domain.policies[logSet], t.states[n].domain.log.staged[i].envelope)
  {
    hide IsSystemTrace, IsCarefulRun, IsOrderlyRun, AllPublished, AllOrdered, AllTrimmed, ProvisionedAt, SourcesKnown,
      Projects, AuthenticCertificate, EnvelopeCertificateValid;
    CarefulRunsAreTrimmed(t, c, at);
    CarefulRunIsOrderly(c);
    logSet := AbortedRecordsStayUncertified(t, c, at, n, i);
  }
}
