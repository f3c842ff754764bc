/** Runs of the authority and its log nodes together. */
module SystemRuns {
  import opened Keys
  import opened Types
  import opened Sets
  import opened Certificates
  import opened Ordering
  import opened Domain
  import opened History
  import opened Events
  import opened Runs
  import opened Policies
  import opened Guarantees
  import opened Prefix
  import opened LogNodes
  import opened Safety

  datatype System = System(world: World, domain: Domain)

  datatype Move = NodeMove(key: Bytes, request: Request) | CommandMove(entry: Entry)

  /** What may happen next: a node serves any request or the authority applies a command, with genuine signatures. */
  predicate Allowed(s: System, move: Move) {
    match move
    case NodeMove(key, request) =>
      && key in s.world.nodes
      && (request.InstallSnapshot? ==> AuthenticRepair(s.world, request.certificate))
    case CommandMove(entry) => entry.StagedEntry? ==> AuthenticCommand(s.world, entry.command)
  }

  function Next(s: System, move: Move): System
    requires Allowed(s, move)
  {
    match move
    case NodeMove(key, request) => s.(world := Handle(s.world, key, request))
    case CommandMove(entry) => s.(domain := Step(s.domain, entry))
  }

  datatype SystemTrace = SystemTrace(states: seq<System>, moves: seq<Move>)

  predicate MovesAt(t: SystemTrace, n: nat)
    requires |t.states| == |t.moves| + 1 && n < |t.moves|
  {
    hide Step;
    Allowed(t.states[n], t.moves[n]) && t.states[n + 1] == Next(t.states[n], t.moves[n])
  }

  predicate ProvisionedAt(t: SystemTrace, n: nat)
    requires n < |t.states|
  {
    Provisioned(t.states[n].world, t.states[n].domain)
  }

  predicate TrimmedAt(t: SystemTrace, n: nat)
    requires n < |t.states|
  {
    Trimmed(t.states[n].world, t.states[n].domain)
  }

  /** An append follows the record that its chain names. */
  predicate OrderedAt(t: SystemTrace, n: nat)
    requires n < |t.moves| && n < |t.states|
  {
    var move := t.moves[n];
    move.NodeMove? && move.request.AppendRecord? && move.key in t.states[n].world.nodes ==>
      Follows(t.states[n].world.nodes[move.key], move.request.record.envelope)
  }

  /** From blank nodes and a fresh domain, one allowed move after the other. */
  predicate IsSystemTrace(t: SystemTrace) {
    hide MovesAt;
    && |t.states| == |t.moves| + 1
    && Blank(t.states[0].world)
    && (var start := t.states[0].domain; start == Fresh(start.cell, start.tenant, start.log.generation))
    && (forall n {:trigger MovesAt(t, n)} :: 0 <= n < |t.moves| ==> MovesAt(t, n))
  }

  /** Majority policies over known nodes throughout, now installed ones and those learners were set up with. */
  predicate AllProvisioned(t: SystemTrace) {
    hide ProvisionedAt;
    && (t.states != [] ==> SourcesKnown(t.states[0].world))
    && forall n {:trigger ProvisionedAt(t, n)} :: 0 <= n < |t.states| ==> ProvisionedAt(t, n)
  }

  /** Every append follows the record that its chain names. */
  predicate AllOrdered(t: SystemTrace) {
    hide OrderedAt;
    forall n {:trigger OrderedAt(t, n)} :: 0 <= n < |t.moves| && n < |t.states| ==> OrderedAt(t, n)
  }

  /** No node ever pops as far as an unresolved record. */
  predicate AllTrimmed(t: SystemTrace) {
    hide TrimmedAt;
    forall n {:trigger TrimmedAt(t, n)} :: 0 <= n < |t.states| ==> TrimmedAt(t, n)
  }

  /** The joint runs for which quorum safety is proved. */
  predicate IsSystemRun(t: SystemTrace) {
    hide IsSystemTrace, AllProvisioned, AllOrdered, AllTrimmed;
    IsSystemTrace(t) && AllProvisioned(t) && AllOrdered(t) && AllTrimmed(t)
  }

  /** What a system run gives at one of its moves. */
  lemma RunMove(t: SystemTrace, n: nat)
    requires IsSystemRun(t)
    requires n < |t.moves|
    ensures |t.states| == |t.moves| + 1 && MovesAt(t, n) && OrderedAt(t, n)
    ensures ProvisionedAt(t, n) && TrimmedAt(t, n) && TrimmedAt(t, n + 1)
  {
    hide MovesAt, OrderedAt, ProvisionedAt, TrimmedAt, Blank, SourcesKnown, Fresh;
  }

  lemma RunStart(t: SystemTrace)
    requires IsSystemRun(t)
    ensures |t.states| == |t.moves| + 1 && Blank(t.states[0].world) && SourcesKnown(t.states[0].world)
    ensures var start := t.states[0].domain; start == Fresh(start.cell, start.tenant, start.log.generation)
    ensures forall n :: 0 <= n < |t.states| ==> ProvisionedAt(t, n)
  {
    hide MovesAt, OrderedAt, ProvisionedAt, TrimmedAt, Blank, SourcesKnown, Fresh;
  }

  // ---- the nodes along a run ----

  /** A node's journal stays closed, whatever it serves, as long as what it appends or installs is. */
  lemma ServeKeepsClosed(node: Node, key: Bytes, request: Request)
    requires Unfenced(node) && Closed(node.journal, node.poppedThrough, node.logSet)
    requires request.AppendRecord? ==> Follows(node, request.record.envelope)
    requires request.InstallSnapshot? ==>
               var st := request.certificate.statement;
               st.logSet == node.logSet ==> Closed(request.records, st.poppedThrough, st.logSet)
    ensures var after := Serve(node, key, request).node; Closed(after.journal, after.poppedThrough, after.logSet)
  {
    hide Attestable, Fenceable, PrefixFenceable, Poppable, Present, Observe, Appendable, FollowsIn, Retained,
      RepairAttestable, RepairCertificateValid, RecordValid;
    var after := Serve(node, key, request).node;
    ServeContinues(node, key, request);
    if !request.InstallSnapshot? {
      hide SnapshotInstallable;
      forall record | record in after.journal
        ensures Follows(after, record.envelope)
      {
        FollowsStays(node, after, record.envelope);
      }
    }
  }

  lemma FollowsStays(node: Node, after: Node, envelope: Envelope)
    requires Continues(node, after) && Follows(node, envelope)
    ensures Follows(after, envelope)
  {
    hide Fenced;
  }

  lemma HandleKeepsSources(w: World, key: Bytes, request: Request)
    requires SourcesKnown(w) && key in w.nodes
    ensures SourcesKnown(Handle(w, key, request))
  {
    hide Appendable, Attestable, Fenceable, PrefixFenceable, Poppable, Present, Observe, Retained, RepairAttestable,
      SnapshotInstallable, MemberMap;
  }

  lemma HandleKeepsClosed(w: World, key: Bytes, request: Request)
    requires Honest(w) && PrefixClosed(w) && SourcesKnown(w) && key in w.nodes
    requires request.AppendRecord? ==> Follows(w.nodes[key], request.record.envelope)
    requires request.InstallSnapshot? ==> AuthenticRepair(w, request.certificate)
    ensures PrefixClosed(Handle(w, key, request))
  {
    hide Serve, Closed, Follows, Exact, Truthful, Unfenced;
    var node, next := w.nodes[key], Handle(w, key, request);
    SignsTheTruth(node, key, request);
    if request.InstallSnapshot? {
      InstallIsClosed(w, key, request.certificate, request.records);
    } else {
      ServeKeepsClosed(node, key, request);
    }
    forall signature | signature in next.issued && signature.Signature?
      ensures VouchesClosed(signature.message)
    {
      if signature !in w.issued {
        ExactlyVouched(next.nodes[key], signature.message);
      }
    }
  }

  lemma ExactlyVouched(node: Node, message: Message)
    requires Exact(node, message) && Closed(node.journal, node.poppedThrough, node.logSet)
    ensures VouchesClosed(message)
  {
    hide Closed;
  }

  /** What a learner installs was the closed journal of a member that vouched for it. */
  lemma InstallIsClosed(w: World, key: Bytes, certificate: RepairCertificate, records: seq<LogRecord>)
    requires Honest(w) && PrefixClosed(w) && SourcesKnown(w) && key in w.nodes && AuthenticRepair(w, certificate)
    ensures var after := Serve(w.nodes[key], key, InstallSnapshot(certificate, records)).node;
            Closed(after.journal, after.poppedThrough, after.logSet)
  {
    hide Closed, Truthful, RepairCertificateValid, Authentic, Known, RecordValid;
    var node := w.nodes[key];
    if SnapshotInstallable(node, key, certificate, records) {
      var signature := RepairWasVouched(w, node.repairSource.value, certificate);
      assert VouchesClosed(signature.message);
    }
  }

  predicate SystemInvariant(s: System) {
    Honest(s.world) && PrefixClosed(s.world) && SourcesKnown(s.world) && PolicyInvariant(s.domain)
  }

  lemma MoveKeepsInvariant(s: System, move: Move)
    requires SystemInvariant(s) && Allowed(s, move)
    requires move.NodeMove? && move.request.AppendRecord? ==>
               Follows(s.world.nodes[move.key], move.request.record.envelope)
    ensures SystemInvariant(Next(s, move))
  {
    hide Honest, PrefixClosed, PolicyInvariant, Handle, Step, Follows, SourcesKnown, AuthenticRepair;
    match move
    case NodeMove(key, request) =>
      HandleKeepsHonest(s.world, key, request);
      HandleKeepsSources(s.world, key, request);
      HandleKeepsClosed(s.world, key, request);
    case CommandMove(entry) =>
      StepKeepsPolicyInvariant(s.domain, entry);
  }

  lemma MoveIsKeyed(s: System, move: Move)
    requires Allowed(s, move)
    ensures move.NodeMove? ==> move.key in s.world.nodes
  {
  }

  lemma StartHolds(s: System)
    requires Blank(s.world) && SourcesKnown(s.world)
    requires s.domain == Fresh(s.domain.cell, s.domain.tenant, s.domain.log.generation)
    ensures SystemInvariant(s)
  {
    FreshPolicies(s.domain);
    hide PolicyInvariant, SourcesKnown;
  }

  lemma {:induction false} SystemRunKeepsInvariant(t: SystemTrace, n: nat)
    requires IsSystemRun(t)
    requires n < |t.states|
    ensures SystemInvariant(t.states[n])
    decreases n
  {
    hide SystemInvariant, Allowed, Next, Blank, Fresh, IsSystemRun, Follows;
    RunStart(t);
    if n == 0 {
      StartHolds(t.states[0]);
    } else {
      SystemRunKeepsInvariant(t, n - 1);
      RunMove(t, n - 1);
      assert Allowed(t.states[n - 1], t.moves[n - 1]);
      MoveIsKeyed(t.states[n - 1], t.moves[n - 1]);
      MoveKeepsInvariant(t.states[n - 1], t.moves[n - 1]);
    }
  }

  // ---- a refused record stays refused ----

  lemma RefusalStays(w: World, key: Bytes, request: Request, member: Bytes, envelope: Envelope)
    requires Honest(w) && key in w.nodes && Refuses(w, member, envelope)
    ensures Refuses(Handle(w, key, request), member, envelope)
  {
    hide Serve, Fenced, Describes, Truthful, Unfenced, Exact;
    ServeContinues(w.nodes[key], key, request);
    SignsTheTruth(w.nodes[key], key, request);
    if member == key {
      var next, signature := Handle(w, key, request), Serve(w.nodes[key], key, request).signature;
      if signature.Some? && Certifies(signature.value.message, envelope) {
        ExactlyDurable(next.nodes[key], signature.value.message, envelope);
      }
    }
  }

  lemma ExactlyDurable(node: Node, message: Message, envelope: Envelope)
    requires Exact(node, message) && Certifies(message, envelope)
    ensures Logged(node, envelope)
  {
  }

  lemma QuorumRefusalStays(w: World, key: Bytes, request: Request, policy: LogSetPolicy, envelope: Envelope)
    requires Honest(w) && key in w.nodes && RefusedByQuorum(w, policy, envelope)
    ensures RefusedByQuorum(Handle(w, key, request), policy, envelope)
  {
    hide Refuses, MemberMap, Handle, Honest;
    var next, keys := Handle(w, key, request), MemberMap(policy.members);
    forall node | node in Refusers(w, policy, envelope)
      ensures node in Refusers(next, policy, envelope)
    {
      RefusalStays(w, key, request, keys[node], envelope);
    }
    Cardinality(Refusers(w, policy, envelope), Refusers(next, policy, envelope));
  }

  lemma {:induction false} RefusedForever(t: SystemTrace, m: nat, n: nat, policy: LogSetPolicy, envelope: Envelope)
    requires IsSystemRun(t)
    requires m <= n < |t.states| && RefusedByQuorum(t.states[m].world, policy, envelope)
    ensures RefusedByQuorum(t.states[n].world, policy, envelope)
    decreases n
  {
    hide RefusedByQuorum, Handle, Step, IsSystemRun, AuthenticCommand, AuthenticRepair, OrderedAt, ProvisionedAt,
      TrimmedAt, Honest, PrefixClosed, SourcesKnown, PolicyInvariant;
    if m < n {
      RunStart(t);
      RefusedForever(t, m, n - 1, policy, envelope);
      RunMove(t, n - 1);
      SystemRunKeepsInvariant(t, n - 1);
      if t.moves[n - 1].NodeMove? {
        QuorumRefusalStays(t.states[n - 1].world, t.moves[n - 1].key, t.moves[n - 1].request, policy, envelope);
      }
    }
  }

  // ---- where an abort comes from ----

  lemma {:induction false} DisposeAborts(log: CommitLog, indexes: seq<nat>, count: nat, generation: U64, i: nat)
    returns (x: nat)
    requires InRange(log.staged, indexes) && i < |log.staged| && !log.staged[i].aborted
    requires Dispose(log, indexes, count, generation).staged[i].aborted
    ensures count <= x < |indexes| && indexes[x] == i
    decreases |indexes|
  {
    hide ApplyMutations, WritesAt;
    var n := |indexes| - 1;
    if indexes[n] == i && n >= count {
      x := n;
    } else {
      x := DisposeAborts(log, indexes[..n], count, generation, i);
    }
  }

  /** Only an aborting takeover or a prefix recovery aborts, and only these records. */
  lemma EventAborts(log: CommitLog, event: Event, i: nat) returns (x: nat)
    requires Enabled(log, event) && i < |Happen(log, event).staged| && Happen(log, event).staged[i].aborted
    requires i < |log.staged| ==> !log.staged[i].aborted
    ensures i < |log.staged|
    ensures || (event.AbortOver? && event.index == i)
            || (event.RecoverOver? && event.count <= x < |event.indexes| && event.indexes[x] == i)
  {
    hide ApplyMutations, WritesAt, ValidRequest, CommittedConflict, StagedConflict, UnresolvedIndexes, UnresolvedCount,
      NothingUnresolved, Dispose, EarlierPending, MakeEnvelope;
    x := 0;
    if event.RecoverOver? {
      x := DisposeAborts(log, event.indexes, event.count, event.generation, i);
    }
  }

  lemma AbortOverIsTakeover(d: Domain, entry: Entry)
    requires EventOf(d, entry).AbortOver?
    ensures entry.StagedEntry? && entry.command.action.TakeoverAbort?
    ensures ApplyTakeoverAbort(d, entry.command, entry.authority).status == Aborted
    ensures EventOf(d, entry).index == Find(d.log.staged, entry.command.transactionIdentity)
  {
    hide ApplyDirect, ApplyInstall, ApplyPrepareTransition, ApplyCommitTransition, ApplyReserve, ApplyStage,
      ApplyReceipt, ApplyCertificate, ApplyPublish, ApplyTakeoverPublish, ApplyTakeoverAbort, ApplyRecoverPrefix,
      RecoverableCount, WindowIndexes, Find;
  }

  lemma RecoverOverIsRecovery(d: Domain, entry: Entry)
    requires EventOf(d, entry).RecoverOver?
    ensures entry.StagedEntry? && entry.command.action.TakeoverRecoverPrefix?
    ensures ApplyRecoverPrefix(d, entry.command, entry.authority).status == PrefixRecovered
    ensures EventOf(d, entry).indexes == WindowIndexes(d.log.staged, entry.command.action.window.records)
    ensures RecoverableCount(d.policies, entry.command.action.inventories, entry.command.action.window.records, 0)
            == Some(EventOf(d, entry).count)
  {
    hide ApplyDirect, ApplyInstall, ApplyPrepareTransition, ApplyCommitTransition, ApplyReserve, ApplyStage,
      ApplyReceipt, ApplyCertificate, ApplyPublish, ApplyTakeoverPublish, ApplyTakeoverAbort, ApplyRecoverPrefix,
      RecoverableCount, WindowIndexes, Find;
  }

  /** A command that aborts a record does so while a quorum of one of its log sets refuses the record. */
  lemma AbortRestsOnRefusal(w: World, d: Domain, entry: Entry, i: nat) returns (logSet: U16)
    requires Honest(w) && PrefixClosed(w) && PolicyInvariant(d) && Provisioned(w, d) && Trimmed(w, d)
    requires entry.StagedEntry? ==> AuthenticCommand(w, entry.command)
    requires i < |Step(d, entry).log.staged| && Step(d, entry).log.staged[i].aborted
    requires i < |d.log.staged| ==> !d.log.staged[i].aborted
    ensures i < |d.log.staged|
    ensures logSet in d.log.staged[i].transaction.logTags && logSet in d.policies
    ensures RefusedByQuorum(w, d.policies[logSet], d.log.staged[i].envelope)
  {
    hide Step, EventOf, Enabled, Happen, Honest, PrefixClosed, Provisioned, Trimmed, AuthenticCommand,
      RefusedByQuorum, AllDescribed, EvidenceHolds, PoliciesKeyed, PendingSound, ApplyTakeoverAbort,
      ApplyRecoverPrefix, RecoveryChecked, RecoverableCount;
    StepIsEvent(d, entry);
    var event := EventOf(d, entry);
    var x := EventAborts(d.log, event, i);
    if event.AbortOver? {
      AbortOverIsTakeover(d, entry);
      logSet := AbortedIsRefused(w, d, entry.command, entry.authority);
    } else {
      RecoverOverIsRecovery(d, entry);
      var indexes, count := RecoveryChecks(d, entry.command, entry.authority);
      IndexesOfRecovery(d, entry.command, indexes, count);
      logSet := DroppedIsRefused(w, d, entry.command, indexes, count, x);
    }
  }

  lemma IndexesOfRecovery(d: Domain, command: StagedCommand, indexes: seq<nat>, count: nat)
    requires command.action.TakeoverRecoverPrefix? && InRange(d.log.staged, indexes)
    requires RecoveryChecked(d, command, indexes, count)
    ensures indexes == WindowIndexes(d.log.staged, command.action.window.records)
  {
    hide WindowMatches, ChainExact, TagsAgree, InventoriesValid, LongestPresentPrefix;
  }

  /** A quorum of every configured log set that the record needs holds it. */
  predicate HeldEverywhere(s: System, i: nat) {
    && i < |s.domain.log.staged|
    && forall logSet :: logSet in s.domain.log.staged[i].transaction.logTags && logSet in s.domain.policies ==>
         HeldByQuorum(s.world, s.domain.policies[logSet], s.domain.log.staged[i].envelope)
  }

  /** A record held by a quorum of every log set it needs survives every command. */
  lemma CommandKeepsDurable(s: System, entry: Entry, i: nat)
    requires SystemInvariant(s) && Provisioned(s.world, s.domain) && Trimmed(s.world, s.domain)
    requires Allowed(s, CommandMove(entry))
    requires HeldEverywhere(s, i) && !s.domain.log.staged[i].aborted
    requires i < |Step(s.domain, entry).log.staged|
    ensures !Step(s.domain, entry).log.staged[i].aborted
  {
    hide Step, Honest, PrefixClosed, PolicyInvariant, RefusedByQuorum, HeldByQuorum, Known, Majority, AuthenticCommand,
      Trimmed;
    if Step(s.domain, entry).log.staged[i].aborted {
      var logSet := AbortRestsOnRefusal(s.world, s.domain, entry, i);
      HeldExcludesRefused(s.world, s.domain.policies[logSet], s.domain.log.staged[i].envelope);
    }
  }

  /** A visible record is never aborted, whatever the command. */
  lemma VisibleIsNotAborted(d: Domain, entry: Entry, i: nat)
    requires i < |d.log.staged| && d.log.staged[i].visible && !d.log.staged[i].aborted
    ensures i < |Step(d, entry).log.staged|
    ensures Step(d, entry).log.staged[i].visible && !Step(d, entry).log.staged[i].aborted
  {
    hide Step, EventOf, Happen, UnresolvedIndexes, UnresolvedCount, SameButEvidence, ValidRequest, CommittedConflict,
      StagedConflict, NothingUnresolved, EarlierPending;
    StepIsEvent(d, entry);
    var event := EventOf(d, entry);
    EventAdvances(d.log, event);
    if Step(d, entry).log.staged[i].aborted {
      var x := EventAborts(d.log, event, i);
      if event.RecoverOver? {
        UnresolvedIndexesAreUnresolved(d.log.staged, i);
      }
    }
  }

  /** Policies stand still while anything is unresolved. */
  lemma PoliciesStand(d: Domain, entry: Entry, i: nat)
    requires PolicyInvariant(d) && i < |d.log.staged| && Unresolved(d.log.staged[i])
    ensures Step(d, entry).policies == d.policies
  {
    hide Step, PoliciesKeyed, PendingSound, AllDescribed, EvidenceHolds;
    if entry.StagedEntry? && ChangesPolicies(entry.command.action) {
      PolicyCommandEffect(d, entry);
    } else {
      OtherKeepsPolicies(d, entry);
    }
  }

  // ---- what is held stays held until it is resolved ----

  lemma HoldingStays(w: World, key: Bytes, request: Request, member: Bytes, envelope: Envelope)
    requires Honest(w) && key in w.nodes
    ensures Keeps(w, member, envelope) ==> Keeps(Handle(w, key, request), member, envelope)
  {
    hide Serve, Fenced, Truthful;
    ServeContinues(w.nodes[key], key, request);
  }

  lemma QuorumKeepingStays(w: World, key: Bytes, request: Request, policy: LogSetPolicy, envelope: Envelope)
    requires Honest(w) && key in w.nodes && KeptByQuorum(w, policy, envelope)
    ensures KeptByQuorum(Handle(w, key, request), policy, envelope)
  {
    hide Keeps, MemberMap, Handle, Honest;
    var next, keys := Handle(w, key, request), MemberMap(policy.members);
    forall node | node in Keepers(w, policy, envelope)
      ensures node in Keepers(next, policy, envelope)
    {
      HoldingStays(w, key, request, keys[node], envelope);
    }
    Cardinality(Keepers(w, policy, envelope), Keepers(next, policy, envelope));
  }

  lemma HeldIsKept(w: World, policy: LogSetPolicy, envelope: Envelope)
    requires HeldByQuorum(w, policy, envelope)
    ensures KeptByQuorum(w, policy, envelope)
  {
    hide Logged, MemberMap;
    Cardinality(Holders(w, policy, envelope), Keepers(w, policy, envelope));
  }

  lemma NodeKeepsDurable(s: System, key: Bytes, request: Request, i: nat)
    requires Honest(s.world) && key in s.world.nodes
    requires HeldEverywhere(s, i) && Unresolved(s.domain.log.staged[i])
    requires Trimmed(Handle(s.world, key, request), s.domain)
    ensures HeldEverywhere(s.(world := Handle(s.world, key, request)), i)
  {
    hide HeldByQuorum, KeptByQuorum, Handle, Unpopped, Honest;
    var next, envelope := Handle(s.world, key, request), s.domain.log.staged[i].envelope;
    forall logSet | logSet in s.domain.log.staged[i].transaction.logTags && logSet in s.domain.policies
      ensures HeldByQuorum(next, s.domain.policies[logSet], envelope)
    {
      HeldIsKept(s.world, s.domain.policies[logSet], envelope);
      QuorumKeepingStays(s.world, key, request, s.domain.policies[logSet], envelope);
      KeptIsHeld(next, s.domain.policies[logSet], envelope);
    }
  }

  // ---- whole runs ----

  lemma MoveAdvances(t: SystemTrace, n: nat)
    requires IsSystemTrace(t)
    requires n < |t.moves|
    ensures Advances(t.states[n].domain.log.staged, t.states[n + 1].domain.log.staged)
  {
    hide Handle, Step, AuthenticCommand, AuthenticRepair, EventOf, Enabled, Happen, Blank;
    assert MovesAt(t, n);
    if t.moves[n].CommandMove? {
      var d := t.states[n].domain;
      StepIsEvent(d, t.moves[n].entry);
      EventAdvances(d.log, EventOf(d, t.moves[n].entry));
    }
  }

  /** Record `i` is aborted by move `m`. */
  predicate AbortedBy(t: SystemTrace, m: nat, i: nat) {
    && m + 1 < |t.states|
    && i < |t.states[m + 1].domain.log.staged|
    && t.states[m + 1].domain.log.staged[i].aborted
    && (i < |t.states[m].domain.log.staged| ==> !t.states[m].domain.log.staged[i].aborted)
  }

  /** An aborted record was aborted by some move, and has kept its content since. */
  lemma {:induction false} FindAbort(t: SystemTrace, n: nat, i: nat) returns (m: nat)
    requires IsSystemTrace(t)
    requires n < |t.states| && i < |t.states[n].domain.log.staged| && t.states[n].domain.log.staged[i].aborted
    ensures m < n && AbortedBy(t, m, i)
    ensures t.states[m + 1].domain.log.staged[i].envelope == t.states[n].domain.log.staged[i].envelope
    decreases n
  {
    hide MovesAt, Blank;
    if n > 0 {
      if i < |t.states[n - 1].domain.log.staged| && t.states[n - 1].domain.log.staged[i].aborted {
        MoveAdvances(t, n - 1);
        m := FindAbort(t, n - 1, i);
      } else {
        m := n - 1;
      }
    }
  }

  /** The log set and the policy in force whose members refused the record when it was aborted. */
  lemma AbortIsRefused(t: SystemTrace, m: nat, i: nat) returns (logSet: U16)
    requires IsSystemRun(t)
    requires AbortedBy(t, m, i)
    ensures var d := t.states[m].domain;
            && i < |d.log.staged|
            && logSet in d.log.staged[i].transaction.logTags
            && logSet in d.policies
            && d.log.staged[i].envelope == t.states[m + 1].domain.log.staged[i].envelope
            && RefusedByQuorum(t.states[m].world, d.policies[logSet], d.log.staged[i].envelope)
  {
    hide Handle, Step, AuthenticCommand, AuthenticRepair, Provisioned, Trimmed, RefusedByQuorum, Honest, PrefixClosed,
      PolicyInvariant, SourcesKnown, IsSystemTrace, AllProvisioned, AllOrdered, AllTrimmed, OrderedAt;
    RunStart(t);
    RunMove(t, m);
    MoveAdvances(t, m);
    SystemRunKeepsInvariant(t, m);
    var s, move := t.states[m], t.moves[m];
    logSet := AbortRestsOnRefusal(s.world, s.domain, move.entry, i);
  }

  /** The record is still held everywhere, or it has become visible. */
  predicate Survives(s: System, i: nat) {
    && i < |s.domain.log.staged|
    && !s.domain.log.staged[i].aborted
    && (s.domain.log.staged[i].visible || HeldEverywhere(s, i))
  }

  lemma MoveKeepsSurvivor(t: SystemTrace, n: nat, i: nat)
    requires IsSystemRun(t)
    requires n < |t.moves| && Survives(t.states[n], i)
    ensures Survives(t.states[n + 1], i)
  {
    hide Handle, Step, AuthenticCommand, AuthenticRepair, Provisioned, Trimmed, HeldByQuorum, Honest, PrefixClosed,
      PolicyInvariant, SourcesKnown, IsSystemTrace, AllProvisioned, AllOrdered, AllTrimmed, OrderedAt;
    RunMove(t, n);
    SystemRunKeepsInvariant(t, n);
    MoveAdvances(t, n);
    var s, move := t.states[n], t.moves[n];
    match move
    case NodeMove(key, request) =>
      if !s.domain.log.staged[i].visible {
        NodeKeepsDurable(s, key, request, i);
      }
    case CommandMove(entry) =>
      if s.domain.log.staged[i].visible {
        VisibleIsNotAborted(s.domain, entry, i);
      } else {
        CommandKeepsDurable(s, entry, i);
        PoliciesStand(s.domain, entry, i);
      }
  }

  /**
  What is durable is never lost. In every run of authority and nodes, an unresolved record that a quorum of
  every one of its configured log sets holds is not aborted at any later point.
  */
  lemma {:induction false} DurableRecordIsNotAborted(t: SystemTrace, m: nat, n: nat, i: nat)
    requires IsSystemRun(t)
    requires m <= n < |t.states|
    requires HeldEverywhere(t.states[m], i) && Unresolved(t.states[m].domain.log.staged[i])
    ensures Survives(t.states[n], i)
    decreases n
  {
    hide IsSystemRun, HeldByQuorum;
    if m < n {
      RunStart(t);
      DurableRecordIsNotAborted(t, m, n - 1, i);
      MoveKeepsSurvivor(t, n - 1, i);
    }
  }

  /**
  Quorum safety. Whenever a record is aborted, one of its log sets is to blame: from then on, in every
  later state, fewer than a quorum of that set's members hold the record, and no durability certificate
  for it can be put together from signatures the nodes ever give.
  */
  lemma AbortedRecordsAreNeverDurable(t: SystemTrace, n: nat, i: nat) returns (m: nat, logSet: U16)
    requires IsSystemRun(t)
    requires n < |t.states| && i < |t.states[n].domain.log.staged| && t.states[n].domain.log.staged[i].aborted
    ensures m < n && AbortedBy(t, m, i) && i < |t.states[m].domain.log.staged|
    ensures logSet in t.states[m].domain.log.staged[i].transaction.logTags && logSet in t.states[m].domain.policies
    ensures var policy, envelope := t.states[m].domain.policies[logSet], t.states[n].domain.log.staged[i].envelope;
            && !HeldByQuorum(t.states[n].world, policy, envelope)
            && forall certificate :: AuthenticCertificate(t.states[n].world, certificate) ==>
                 !EnvelopeCertificateValid(certificate, policy, envelope)
  {
    hide RefusedByQuorum, HeldByQuorum, EnvelopeCertificateValid, AuthenticCertificate, Known, Majority, IsSystemTrace,
      AllProvisioned, AllOrdered, AllTrimmed;
    m := FindAbort(t, n, i);
    logSet := AbortIsRefused(t, m, i);
    var policy, envelope := t.states[m].domain.policies[logSet], t.states[n].domain.log.staged[i].envelope;
    RefusedForever(t, m, n, policy, envelope);
    PolicyIsProvisioned(t, m, n, logSet);
    HeldExcludesRefused(t.states[n].world, policy, envelope);
    forall certificate | AuthenticCertificate(t.states[n].world, certificate)
      ensures !EnvelopeCertificateValid(certificate, policy, envelope)
    {
      CertifiedExcludesRefused(t.states[n].world, policy, certificate, envelope);
    }
  }

  /** Nodes never disappear, so a policy's members stay known. */
  lemma {:induction false} PolicyIsProvisioned(t: SystemTrace, m: nat, n: nat, logSet: U16)
    requires IsSystemRun(t)
    requires m <= n < |t.states| && logSet in t.states[m].domain.policies
    ensures var policy := t.states[m].domain.policies[logSet];
            Majority(policy) && Known(t.states[n].world, policy)
    decreases n
  {
    hide MemberMap, Majority, Step, AuthenticCommand, AuthenticRepair, TrimmedAt, OrderedAt, IsSystemRun;
    RunStart(t);
    assert ProvisionedAt(t, m);
    if m < n {
      PolicyIsProvisioned(t, m, n - 1, logSet);
      RunMove(t, n - 1);
    }
  }
}
