/** Runs of the objects: any sequence of log entries applied in place, and what then holds of the fields. */
module Objects {
  import opened Keys
  import opened Types
  import opened Ordering
  import opened Domain
  import opened History
  import opened Events
  import opened Runs
  import opened Serializability
  import opened Ledgers
  import opened Guarantees
  import opened Policies
  import opened CellState
  import Generation
  import GenerationRuns
  import GenerationState

  /** The replicated log delivers entries with growing indexes. */
  predicate Delivered(entries: seq<Entry>) {
    && (forall i :: 0 <= i < |entries| ==> entries[i].logIndex > 0)
    && (forall i, j :: 0 <= i < j < |entries| ==> entries[i].logIndex < entries[j].logIndex)
  }

  /** The run of a domain through a sequence of entries. */
  function TraceOf(d: Domain, entries: seq<Entry>): (t: Trace)
    ensures Shaped(t) && t.entries == entries
  {
    hide Advance;
    if entries == [] then Trace([Ledger(d, [])], [])
    else
      var n := |entries| - 1;
      var before := TraceOf(d, entries[..n]);
      Trace(before.ledgers + [Advance(before.ledgers[n], entries[n])], entries)
  }

  lemma {:induction false} TraceOfSteps(d: Domain, entries: seq<Entry>)
    ensures var t := TraceOf(d, entries);
            && t.ledgers[0] == Ledger(d, [])
            && (forall i {:trigger StepsAt(t, i)} :: 0 <= i < |entries| ==> StepsAt(t, i))
            && t.ledgers[|entries|].domain == RunFrom(d, entries)
    decreases |entries|
  {
    hide Advance, Step;
    if entries != [] {
      var n := |entries| - 1;
      TraceOfSteps(d, entries[..n]);
      var before, t := TraceOf(d, entries[..n]), TraceOf(d, entries);
      AdvanceSteps(before.ledgers[n], entries[n]);
      forall i | 0 <= i < |entries|
        ensures StepsAt(t, i)
      {
        assert i < n ==> StepsAt(before, i);
      }
    }
  }

  lemma AdvanceSteps(ledger: Ledger, entry: Entry)
    ensures Advance(ledger, entry).domain == Step(ledger.domain, entry)
  {
    hide Step, EventOf, CommitsOf;
  }

  lemma TraceOfIsRun(cell: Bytes, tenant: Bytes, generation: U64, entries: seq<Entry>)
    requires Delivered(entries)
    ensures IsRun(TraceOf(Fresh(cell, tenant, generation), entries))
  {
    hide StepsAt, TraceOf;
    TraceOfSteps(Fresh(cell, tenant, generation), entries);
  }

  /** Applies one entry in place. */
  method ApplyEntry(state: CellDomainState, entry: Entry)
    modifies state
    ensures state.Value() == Step(old(state.Value()), entry)
  {
    hide ApplyDirect, ApplyStaged;
    match entry {
      case DirectEntry(logIndex, tx) =>
        var status := state.ApplyTransaction(tx, logIndex);
      case StagedEntry(logIndex, command, authority) =>
        var status, recovered, aborted := state.ApplyCommand(command, logIndex, authority);
    }
  }

  /** Applies a sequence of entries in place. */
  method ApplyAll(state: CellDomainState, entries: seq<Entry>)
    modifies state
    ensures state.Value() == RunFrom(old(state.Value()), entries)
  {
    hide Step, RunFrom;
    RunFromNone(state.Value());
    for i := 0 to |entries|
      invariant state.Value() == RunFrom(old(state.Value()), entries[..i])
    {
      RunFromSnoc(old(state.Value()), entries[..i], entries[i]);
      assert entries[..i + 1] == entries[..i] + [entries[i]];
      ApplyEntry(state, entries[i]);
    }
    assert entries[..|entries|] == entries;
  }

  lemma RunFromNone(d: Domain)
    ensures RunFrom(d, []) == d
  {
  }

  /** Every conflict-checked transaction of the history could have read at its commit point. */
  ghost predicate Serializable(ledger: Ledger) {
    forall n: nat, key: Bytes ::
      && n < |ledger.history|
      && ledger.history[n].transaction.resolution.None?
      && CoveredBy(key, ledger.history[n].transaction.readConflicts)
      ==> ReadsHold(ledger, n, key)
  }

  predicate ReadsHold(ledger: Ledger, n: nat, key: Bytes)
    requires n < |ledger.history|
  {
    var tx, envelopes := ledger.history[n].transaction, ledger.domain.log.committedEnvelopes;
    && n < |envelopes|
    && envelopes[n] == ledger.history[n].envelope
    && Lookup(RowsAt(envelopes, tx.readVersion.sequence), key) == Lookup(Replay(map[], envelopes[..n]), key)
  }

  lemma CarefulIsSerializable(ledger: Ledger)
    requires CarefullyReachable(ledger)
    ensures Serializable(ledger)
  {
    hide CarefullyReachable, CoveredBy, RowsAt, Replay;
    forall n: nat, key: Bytes |
      && n < |ledger.history|
      && ledger.history[n].transaction.resolution.None?
      && CoveredBy(key, ledger.history[n].transaction.readConflicts)
      ensures ReadsHold(ledger, n, key)
    {
      CommittedTransactionsAreSerializable(ledger, n, key);
    }
  }

  /** One unbroken chain of committed envelopes, replaying to the rows, with every outcome settled in order. */
  predicate Sound(d: Domain) {
    && IsChain(d.log.committedEnvelopes)
    && d.log.rows == Replay(map[], d.log.committedEnvelopes)
    && Settled(d.log.staged)
    && GenerationsSettled(d.log)
  }

  lemma OrderlyIsSound(t: Trace, i: nat)
    requires IsOrderlyRun(t)
    requires i < |t.ledgers|
    ensures Sound(t.ledgers[i].domain)
  {
    hide IsOrderlyRun, Orderly, GenerationsSettled, IndexBound, Settled, IsChain, Replay;
    OrderlyRunStaysOrderly(t, i);
    OrderlyParts(t.ledgers[i].domain.log, t.ledgers[i].history);
    assert Reachable(t.ledgers[i]);
    CommittedEnvelopesFormOneChain(t.ledgers[i]);
  }

  lemma RunResults(t: Trace)
    requires IsRun(t)
    requires Shaped(t)
    ensures PolicyInvariant(t.ledgers[|t.entries|].domain)
    ensures IsOrderlyRun(t) ==> Sound(t.ledgers[|t.entries|].domain)
    ensures IsCarefulRun(t) ==> Serializable(t.ledgers[|t.entries|])
  {
    hide IsRun, IsOrderlyRun, IsCarefulRun, PolicyInvariant, Sound, Serializable;
    RunsKeepPolicyInvariant(t, |t.entries|);
    if IsOrderlyRun(t) {
      OrderlyIsSound(t, |t.entries|);
    }
    if IsCarefulRun(t) {
      assert CarefullyReachable(t.ledgers[|t.entries|]);
      CarefulIsSerializable(t.ledgers[|t.entries|]);
    }
  }

  /**
  A domain object created fresh and driven through any entries the log delivers. Its fields are those of the
  run, its evidence always verifies under the policies in force, after an orderly run it is sound, and
  after a careful run what it committed is serializable.
  */
  method Drive(cell: Bytes, tenant: Bytes, generation: U64, entries: seq<Entry>) returns (state: CellDomainState)
    requires Delivered(entries)
    ensures fresh(state)
    ensures var t := TraceOf(Fresh(cell, tenant, generation), entries);
            && IsRun(t)
            && state.Value() == t.ledgers[|entries|].domain
            && PolicyInvariant(state.Value())
            && (IsOrderlyRun(t) ==> Sound(state.Value()))
            && (IsCarefulRun(t) ==> Serializable(t.ledgers[|entries|]))
  {
    hide IsRun, IsOrderlyRun, IsCarefulRun, PolicyInvariant, Sound, Serializable, RunFrom, TraceOf, Fresh;
    state := new CellDomainState(cell, tenant, generation);
    ApplyAll(state, entries);
    TraceOfSteps(Fresh(cell, tenant, generation), entries);
    TraceOfIsRun(cell, tenant, generation, entries);
    RunResults(TraceOf(Fresh(cell, tenant, generation), entries));
  }

  // ---- the generation authority ----

  /** Whatever an accepted `Prepare` closed, the authority does not authorize. */
  ghost predicate KeepsClosed(actions: seq<Generation.Action>, a: Generation.Authority) {
    forall p: nat, generation: U64, system: string ::
      && p < |actions|
      && actions[p].Prepare?
      && GenerationRuns.AcceptedAt(actions, p)
      && generation <= GenerationRuns.Before(actions, p).generation < U64_MAX
      ==> !Generation.Authorizes(a, generation, system)
  }

  lemma RunIsFenced(actions: seq<Generation.Action>)
    ensures KeepsClosed(actions, GenerationRuns.Run(actions))
  {
    hide Generation.Apply, Generation.Authorizes;
    assert actions[..|actions|] == actions;
    forall p: nat, generation: U64, system: string |
      && p < |actions|
      && actions[p].Prepare?
      && GenerationRuns.AcceptedAt(actions, p)
      && generation <= GenerationRuns.Before(actions, p).generation < U64_MAX
      ensures !Generation.Authorizes(GenerationRuns.Run(actions), generation, system)
    {
      GenerationRuns.FencedForever(actions, p, |actions|, generation, system);
    }
  }

  /** An authority object driven through any commands is where the run is, and keeps closed what was fenced. */
  method Govern(actions: seq<Generation.Action>) returns (authority: GenerationState.GenerationAuthority)
    ensures fresh(authority)
    ensures authority.Value() == GenerationRuns.Run(actions)
    ensures KeepsClosed(actions, authority.Value())
  {
    hide Generation.Apply, KeepsClosed;
    authority := new GenerationState.GenerationAuthority();
    for i := 0 to |actions|
      invariant fresh(authority)
      invariant authority.Value() == GenerationRuns.Run(actions[..i])
    {
      assert actions[..i + 1][..i] == actions[..i];
      var status := authority.Apply(actions[i]);
    }
    assert actions[..|actions|] == actions;
    RunIsFenced(actions);
  }
}
