/** Popping after publication: exactly when no node can drop a record whose fate is open. */
module Publication {
  import opened Keys
  import opened Types
  import opened Certificates
  import opened Ordering
  import opened Domain
  import opened History
  import opened Events
  import opened Runs
  import opened Policies
  import opened Ledgers
  import opened Guarantees
  import opened LogNodes
  import opened Safety
  import opened SystemRuns

  /** The commands of `t` are those of `c`: state `k` of one has the domain of ledger `at[k]` of the other. */
  predicate Projects(t: SystemTrace, c: Trace, at: seq<nat>) {
    && |at| == |t.states|
    && (forall k :: 0 <= k < |at| ==> at[k] < |c.ledgers| && t.states[k].domain == c.ledgers[at[k]].domain)
    && (forall j, k :: 0 <= j <= k < |at| ==> at[j] <= at[k])
  }

  /** A pop comes with a frontier that some snapshot of the run could have been published at. */
  predicate PublishedAt(t: SystemTrace, n: nat)
    requires n < |t.moves| && n < |t.states|
  {
    var move := t.moves[n];
    move.NodeMove? && move.request.PopLog? && move.request.published ==>
      exists j :: 0 <= j <= n && t.states[j].domain.log.latestSequence == move.request.pop.objectFrontier
  }

  predicate AllPublished(t: SystemTrace) {
    hide PublishedAt;
    forall n {:trigger PublishedAt(t, n)} :: 0 <= n < |t.moves| && n < |t.states| ==> PublishedAt(t, n)
  }

  // ---- how far nodes have popped ----

  /** No node has popped, and none has vouched for a snapshot popped, beyond this sequence. */
  predicate PoppedUpTo(w: World, sequence: U64) {
    && (forall key :: key in w.nodes ==> w.nodes[key].poppedThrough <= sequence)
    && forall signature :: signature in w.issued && signature.Signature? && signature.message.RepairMessage? ==>
         signature.message.repair.poppedThrough <= sequence
  }

  /** Frontiers move by pops and by installs, and signatures vouch for the frontier as it is. */
  lemma ServeMovesFrontier(node: Node, key: Bytes, request: Request)
    ensures var answer := Serve(node, key, request);
            && (|| answer.node.poppedThrough == node.poppedThrough
                || (request.PopLog? && request.published && answer.node.poppedThrough == request.pop.objectFrontier)
                || (&& request.InstallSnapshot?
                    && node.repairSource.Some?
                    && RepairCertificateValid(request.certificate, node.repairSource.value)
                    && answer.node.poppedThrough == request.certificate.statement.poppedThrough))
            && (answer.signature.Some? ==>
                  && answer.signature.value.Signature?
                  && (answer.signature.value.message.RepairMessage? ==>
                        answer.signature.value.message.repair.poppedThrough == node.poppedThrough))
  {
    hide Appendable, Attestable, Fenceable, PrefixFenceable, Present, Observe, Retained, RepairCertificateValid,
      SnapshotValid;
  }

  lemma HandlePops(w: World, key: Bytes, request: Request, sequence: U64)
    requires key in w.nodes && SourcesKnown(w) && PoppedUpTo(w, sequence)
    requires request.PopLog? && request.published ==> request.pop.objectFrontier <= sequence
    requires request.InstallSnapshot? ==> AuthenticRepair(w, request.certificate)
    ensures PoppedUpTo(Handle(w, key, request), sequence)
  {
    hide Serve, Known, RepairCertificateValid, AuthenticRepair;
    var node := w.nodes[key];
    ServeMovesFrontier(node, key, request);
    if request.InstallSnapshot? && node.repairSource.Some?
       && RepairCertificateValid(request.certificate, node.repairSource.value) {
      var signature := RepairWasVouched(w, node.repairSource.value, request.certificate);
    }
  }

  lemma ReadableGrows(t: SystemTrace, c: Trace, at: seq<nat>, j: nat, k: nat)
    requires IsCarefulRun(c)
    requires Projects(t, c, at) && j <= k < |t.states|
    ensures t.states[j].domain.log.latestSequence <= t.states[k].domain.log.latestSequence
  {
    hide IsCarefulRun;
    RunsExtend(c, at[j], at[k]);
  }

  lemma TraceMove(t: SystemTrace, n: nat)
    requires IsSystemTrace(t)
    requires n < |t.moves|
    ensures |t.states| == |t.moves| + 1 && MovesAt(t, n)
  {
    hide MovesAt, Blank, Fresh;
  }

  /** In a careful run with published pops no node has popped beyond what is readable. */
  lemma {:induction false} PoppedIsReadable(t: SystemTrace, c: Trace, at: seq<nat>, n: nat)
    requires IsSystemTrace(t)
    requires IsCarefulRun(c)
    requires Projects(t, c, at) && AllPublished(t) && n < |t.states| && SourcesKnown(t.states[0].world)
    ensures PoppedUpTo(t.states[n].world, t.states[n].domain.log.latestSequence) && SourcesKnown(t.states[n].world)
    decreases n
  {
    hide IsCarefulRun, Handle, Step, AuthenticCommand, AuthenticRepair, Projects, SourcesKnown;
    if n > 0 {
      PoppedIsReadable(t, c, at, n - 1);
      TraceMove(t, n - 1);
      assert PublishedAt(t, n - 1);
      var s, move := t.states[n - 1], t.moves[n - 1];
      ReadableGrows(t, c, at, n - 1, n);
      if move.NodeMove? {
        if move.request.PopLog? && move.request.published {
          var j :| 0 <= j <= n - 1 && t.states[j].domain.log.latestSequence == move.request.pop.objectFrontier;
          ReadableGrows(t, c, at, j, n - 1);
        }
        HandlePops(s.world, move.key, move.request, s.domain.log.latestSequence);
        HandleKeepsSources(s.world, move.key, move.request);
      }
    }
  }

  lemma AheadIsTrimmed(w: World, d: Domain, history: seq<HistoryEntry>)
    requires Invariant(d.log, history) && PoppedUpTo(w, d.log.latestSequence)
    ensures Trimmed(w, d)
  {
    hide Isolated, Numbered, Settled, AbortedStayOut, WritesRecorded, Recorded, Chained, ValidRequest;
    forall i | 0 <= i < |d.log.staged| && Unresolved(d.log.staged[i])
      ensures Unpopped(w, d.log.staged[i].envelope)
    {
      assert Fits(EntryOf(d.log.staged[i]));
    }
  }

  /** Popping is safe in careful runs: with published pops no node ever pops as far as an unresolved record. */
  lemma CarefulRunsAreTrimmed(t: SystemTrace, c: Trace, at: seq<nat>)
    requires IsSystemTrace(t)
    requires IsCarefulRun(c)
    requires Projects(t, c, at) && AllPublished(t) && t.states != [] && SourcesKnown(t.states[0].world)
    ensures AllTrimmed(t)
  {
    hide IsSystemTrace, IsCarefulRun, Invariant, GenerationsSettled, AllPublished, PoppedUpTo, Trimmed, SourcesKnown;
    forall n | 0 <= n < |t.states|
      ensures TrimmedAt(t, n)
    {
      PoppedIsReadable(t, c, at, n);
      CarefulRunKeepsInvariant(c, at[n]);
      AheadIsTrimmed(t.states[n].world, t.states[n].domain, c.ledgers[at[n]].history);
    }
  }

  /**
  What is durable is never lost, in terms of callers and publishers alone. With commands that form a careful run,
  published pops, majority policies and ordered appends, an unresolved record that a quorum of each of its
  configured log sets holds is not aborted at any later point.
  */
  lemma CarefulRunsLoseNothing(t: SystemTrace, c: Trace, at: seq<nat>, m: nat, n: nat, i: nat)
    requires IsSystemTrace(t)
    requires IsCarefulRun(c)
    requires Projects(t, c, at) && AllPublished(t) && AllProvisioned(t) && AllOrdered(t)
    requires m <= n < |t.states|
    requires HeldEverywhere(t.states[m], i) && Unresolved(t.states[m].domain.log.staged[i])
    ensures Survives(t.states[n], i)
  {
    hide IsSystemTrace, IsCarefulRun, AllPublished, AllOrdered, AllTrimmed, ProvisionedAt, HeldEverywhere, Survives,
      SourcesKnown, Projects;
    CarefulRunsAreTrimmed(t, c, at);
    DurableRecordIsNotAborted(t, m, n, i);
  }

  // ---- runs without pops ----

  /** No node is asked to pop. */
  predicate Popless(t: SystemTrace) {
    forall k :: 0 <= k < |t.moves| && t.moves[k].NodeMove? ==> !t.moves[k].request.PopLog?
  }

  /** Every staged record has a positive number, which its envelope carries. */
  predicate Positive(staged: seq<StagedTransaction>) {
    forall i :: 0 <= i < |staged| ==> staged[i].sequence > 0
  }

  lemma EventKeepsPositive(log: CommitLog, event: Event)
    requires Enabled(log, event) && Positive(log.staged)
    ensures Positive(Happen(log, event).staged)
  {
    hide Happen, Enabled;
    EventAdvances(log, event);
    EventAppends(log, event);
  }

  /** Only staging makes the list longer, by one record with a positive number. */
  lemma EventAppends(log: CommitLog, event: Event)
    requires Enabled(log, event)
    ensures var staged := Happen(log, event).staged;
            if event.Append? then
              && |staged| == |log.staged| + 1
              && staged[|log.staged|].sequence > 0
              && staged[|log.staged|].transaction == event.transaction
            else |staged| == |log.staged|
  {
    hide ApplyMutations, WritesAt, ValidRequest, CommittedConflict, StagedConflict, UnresolvedIndexes, UnresolvedCount,
      NothingUnresolved, Dispose, EarlierPending, MakeEnvelope, ChainTip;
  }

  lemma {:induction false} PoplessKeeps(t: SystemTrace, n: nat)
    requires IsSystemTrace(t)
    requires n < |t.states| && SourcesKnown(t.states[0].world) && Popless(t)
    ensures PoppedUpTo(t.states[n].world, 0) && SourcesKnown(t.states[n].world)
    ensures Positive(t.states[n].domain.log.staged) && PolicyInvariant(t.states[n].domain)
    decreases n
  {
    hide Handle, Step, AuthenticCommand, AuthenticRepair, SourcesKnown, PolicyInvariant, PoppedUpTo, Positive, EventOf,
      Enabled, Happen;
    if n == 0 {
      FreshPolicies(t.states[0].domain);
      StartPopless(t.states[0]);
    } else {
      PoplessKeeps(t, n - 1);
      TraceMove(t, n - 1);
      var s, move := t.states[n - 1], t.moves[n - 1];
      match move
      case NodeMove(key, request) =>
        HandlePops(s.world, key, request, 0);
        HandleKeepsSources(s.world, key, request);
      case CommandMove(entry) =>
        StepKeepsPolicyInvariant(s.domain, entry);
        StepIsEvent(s.domain, entry);
        EventKeepsPositive(s.domain.log, EventOf(s.domain, entry));
    }
  }

  lemma StartPopless(s: System)
    requires Blank(s.world) && s.domain == Fresh(s.domain.cell, s.domain.tenant, s.domain.log.generation)
    ensures PoppedUpTo(s.world, 0) && Positive(s.domain.log.staged)
  {
  }

  /** Without pops every joint run keeps clear of unresolved records. */
  lemma PoplessRunsAreTrimmed(t: SystemTrace)
    requires IsSystemTrace(t)
    requires t.states != [] && SourcesKnown(t.states[0].world) && Popless(t)
    ensures AllTrimmed(t)
  {
    hide IsSystemTrace, SourcesKnown, Trimmed, PoppedUpTo, Positive, PolicyInvariant;
    forall n | 0 <= n < |t.states|
      ensures TrimmedAt(t, n)
    {
      PoplessKeeps(t, n);
      UnpoppedIsTrimmed(t.states[n].world, t.states[n].domain);
    }
  }

  lemma UnpoppedIsTrimmed(w: World, d: Domain)
    requires PoppedUpTo(w, 0) && Positive(d.log.staged) && PolicyInvariant(d)
    ensures Trimmed(w, d)
  {
    hide EvidenceHolds, PoliciesKeyed, PendingSound;
  }
}
