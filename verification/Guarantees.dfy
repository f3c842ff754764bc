/** What every run guarantees its callers: serializability, stable snapshots, one hash chain, final outcomes. */
module Guarantees {
  import opened Keys
  import opened Types
  import opened Ordering
  import opened Domain
  import opened History
  import opened Events
  import opened Runs
  import opened Serializability
  import opened Ledgers

  /**
  Serializability. In every careful run, each committed transaction that the authority itself checked
  for conflicts could have read at its commit point: for every key under its read conflicts, the rows
  at its read version and the rows just before its commit agree.
  */
  lemma CommittedTransactionsAreSerializable(ledger: Ledger, n: nat, key: Bytes)
    requires CarefullyReachable(ledger)
    requires n < |ledger.history| && ledger.history[n].transaction.resolution.None?
    requires CoveredBy(key, ledger.history[n].transaction.readConflicts)
    ensures var tx, envelopes := ledger.history[n].transaction, ledger.domain.log.committedEnvelopes;
            && |envelopes| == |ledger.history|
            && envelopes[n] == ledger.history[n].envelope
            && tx.readVersion.sequence < ledger.history[n].sequence
            && Lookup(RowsAt(envelopes, tx.readVersion.sequence), key) == Lookup(Replay(map[], envelopes[..n]), key)
  {
    hide CarefullyReachable, CoveredBy, Invariant, Settled, WellFormed, Numbered, WritesRecorded, IsolatedFrom, RowsAt,
      Replay;
    CarefullyReachableInvariant(ledger);
    ReadsSurviveToCommit(ledger.domain.log, ledger.history, n, key);
    InvariantParts(ledger.domain.log, ledger.history);
  }

  lemma InvariantParts(log: CommitLog, history: seq<HistoryEntry>)
    requires Invariant(log, history)
    ensures Orderly(log, history) && Isolated(log, history)
    ensures Numbered(log, history) && Recorded(log, history) && WellFormed(log, history)
    ensures Chained(log) && Settled(log.staged) && AbortedStayOut(log, history)
  {
  }

  /** Every staged record a domain shows as visible is in its history, so the theorem speaks of it. */
  lemma VisibleRecordsAreCommitted(ledger: Ledger, i: nat)
    requires Reachable(ledger)
    requires i < |ledger.domain.log.staged| && ledger.domain.log.staged[i].visible
    ensures EntryOf(ledger.domain.log.staged[i]) in ledger.history
  {
    hide Reachable, Orderly, ValidRequest, Fits;
    ReachableIsOrderly(ledger);
    OrderlyParts(ledger.domain.log, ledger.history);
  }

  // ---- snapshots ----

  lemma {:induction false} DisposeNoneKeepsLatest(log: CommitLog, indexes: seq<nat>, generation: U64)
    requires InRange(log.staged, indexes)
    ensures Dispose(log, indexes, 0, generation).latestSequence == log.latestSequence
    decreases |indexes|
  {
    if indexes != [] {
      DisposeNoneKeepsLatest(log, indexes[..|indexes| - 1], generation);
    }
  }

  lemma {:induction false} DisposeShows(log: CommitLog, indexes: seq<nat>, count: nat, generation: U64, x: nat)
    requires InRange(log.staged, indexes) && x < |indexes| && x < count
    ensures Dispose(log, indexes, count, generation).staged[indexes[x]].visible
    decreases |indexes|
  {
    hide ApplyMutations, WritesAt;
    var n := |indexes| - 1;
    if x < n {
      DisposeShows(log, indexes[..n], count, generation, x);
    }
  }

  /** Whatever an event commits was an unresolved record, which it makes visible, or a direct commit. */
  lemma CommitIsShown(log: CommitLog, event: Event, x: nat) returns (k: nat)
    requires Enabled(log, event) && Disciplined(log, event) && !event.CommitNow?
    requires x < |CommitsOf(log, event)|
    ensures k < |log.staged| && Unresolved(log.staged[k]) && CommitsOf(log, event)[x] == EntryOf(log.staged[k])
    ensures k < |Happen(log, event).staged| && Happen(log, event).staged[k].visible
  {
    hide ValidRequest, CommittedConflict, StagedConflict, UnresolvedCount, UnresolvedIndexes, NothingUnresolved,
      Dispose, EarlierPending;
    if event.RecoverOver? {
      k := event.indexes[..event.count][x];
      assert k in UnresolvedIndexes(log.staged);
      UnresolvedIndexesAreUnresolved(log.staged, k);
      DisposeShows(log, event.indexes, event.count, event.generation, x);
    } else {
      k := event.index;
    }
  }

  /** No record in `late` is visible. */
  predicate Hidden(staged: seq<StagedTransaction>, late: set<nat>) {
    forall k :: 0 <= k < |staged| && k in late ==> !staged[k].visible
  }

  /** If no late record becomes visible, an event commits only beyond everything readable. */
  lemma CommitsAreNewer(log: CommitLog, event: Event, late: set<nat>, x: nat)
    requires Ahead(log, late) && Enabled(log, event) && Disciplined(log, event)
    requires Hidden(Happen(log, event).staged, late)
    requires x < |CommitsOf(log, event)|
    ensures CommitsOf(log, event)[x].sequence > log.latestSequence
  {
    hide Happen, Enabled;
    if !event.CommitNow? {
      hide CommitsOf;
      var k := CommitIsShown(log, event, x);
    }
  }

  lemma {:induction false} UnresolvedIndexesAreUnresolved(staged: seq<StagedTransaction>, k: nat)
    requires k in UnresolvedIndexes(staged)
    ensures k < |staged| && Unresolved(staged[k])
  {
    if staged != [] {
      var n := |staged| - 1;
      if k in UnresolvedIndexes(staged[..n]) {
        UnresolvedIndexesAreUnresolved(staged[..n], k);
      }
    }
  }

  lemma QuietLatest(log: CommitLog, event: Event)
    requires Enabled(log, event) && CommitsOf(log, event) == []
    ensures log.latestSequence <= Happen(log, event).latestSequence
  {
    hide ValidRequest, CommittedConflict, StagedConflict, UnresolvedCount, UnresolvedIndexes, NothingUnresolved,
      EarlierPending, Dispose, SameButEvidence;
    if event.RecoverOver? {
      assert event.count == 0;
      DisposeNoneKeepsLatest(log, event.indexes, event.generation);
    }
  }

  /** An event that makes no late record visible never lowers the readable sequence. */
  lemma LatestGrows(log: CommitLog, history: seq<HistoryEntry>, event: Event, late: set<nat>)
    requires Orderly(log, history) && GenerationsSettled(log) && Ahead(log, late)
    requires Enabled(log, event) && Disciplined(log, event) && Hidden(Happen(log, event).staged, late)
    ensures log.latestSequence <= Happen(log, event).latestSequence
  {
    hide Orderly, Happen, CommitsOf, Enabled, Disciplined, GenerationsSettled, Recorded, WellFormed, Isolated, Chained,
      Settled, AbortedStayOut, WritesRecorded, Ahead, Hidden;
    var commits := CommitsOf(log, event);
    if commits == [] {
      QuietLatest(log, event);
    } else {
      EventKeepsOrderly(log, history, event);
      CommitsAreNewer(log, event, late, 0);
      OrderlyParts(Happen(log, event), history + commits);
      assert (history + commits)[|history|] == commits[0];
    }
  }

  /** `late` extends `early`: same history so far, and everything committed since is newer than what was readable. */
  predicate Extends(early: Ledger, late: Ledger) {
    && early.history <= late.history
    && early.domain.log.latestSequence <= late.domain.log.latestSequence
    && forall n :: |early.history| <= n < |late.history| ==>
         late.history[n].sequence > early.domain.log.latestSequence
  }

  /** Readers are never overtaken: every ledger extends every earlier one. */
  predicate Stable(t: Trace) {
    forall i, j :: 0 <= i <= j < |t.ledgers| ==> Extends(t.ledgers[i], t.ledgers[j])
  }

  /** The records staged before ledger `i` when readers were already past the staged numbering. */
  function Late(t: Trace, i: nat): set<nat>
    requires Shaped(t) && i <= |t.entries|
  {
    hide TimelyAt;
    set m | 0 <= m < i && !TimelyAt(t, m) :: |t.ledgers[m].domain.log.staged|
  }

  /** No record that was staged late is ever made visible. */
  predicate LateRecordsStayHidden(t: Trace)
    requires Shaped(t)
  {
    forall i :: 0 <= i < |t.ledgers| ==> Hidden(t.ledgers[i].domain.log.staged, Late(t, i))
  }

  lemma {:induction false} OrderlyRunStaysAhead(t: Trace, i: nat)
    requires IsOrderlyRun(t)
    requires i < |t.ledgers|
    ensures Shaped(t) && Ahead(t.ledgers[i].domain.log, Late(t, i))
    decreases i
  {
    hide Orderly, GenerationsSettled, IndexBound, Enabled, Happen, CommitsOf, Disciplined, IsRun, ProperAt, Step,
      EventOf, Timely, Invariant;
    if i == 0 {
      RunStartsFresh(t);
      FreshHolds(t.ledgers[0].domain);
    } else {
      hide Ahead;
      OrderlyRunStaysAhead(t, i - 1);
      OrderlyRunStaysOrderly(t, i - 1);
      var ledger, event := OrderlyStep(t, i - 1);
      EventKeepsAhead(ledger.domain.log, ledger.history, event, Late(t, i - 1));
      assert Late(t, i) == LateAfter(ledger.domain.log, event, Late(t, i - 1));
    }
  }

  lemma StepExtends(t: Trace, i: nat)
    requires IsOrderlyRun(t)
    requires i < |t.entries|
    requires Shaped(t) && Hidden(t.ledgers[i + 1].domain.log.staged, Late(t, i))
    ensures Extends(t.ledgers[i], t.ledgers[i + 1])
  {
    hide EventOf, Enabled, Happen, CommitsOf, Disciplined, Step, Orderly, GenerationsSettled, IndexBound, IsRun,
      ProperAt, Ahead, Hidden, Late;
    OrderlyRunStaysOrderly(t, i);
    OrderlyRunStaysAhead(t, i);
    var ledger, event := OrderlyStep(t, i);
    var log := ledger.domain.log;
    LatestGrows(log, ledger.history, event, Late(t, i));
    forall x | 0 <= x < |CommitsOf(log, event)|
      ensures CommitsOf(log, event)[x].sequence > log.latestSequence
    {
      CommitsAreNewer(log, event, Late(t, i), x);
    }
  }

  lemma HiddenEarlier(t: Trace, i: nat)
    requires Shaped(t) && i < |t.entries| && Hidden(t.ledgers[i + 1].domain.log.staged, Late(t, i + 1))
    ensures Hidden(t.ledgers[i + 1].domain.log.staged, Late(t, i))
  {
    hide TimelyAt;
    assert Late(t, i) <= Late(t, i + 1);
  }

  lemma {:induction false} HiddenRunsExtend(t: Trace, i: nat, j: nat)
    requires IsOrderlyRun(t)
    requires i <= j < |t.ledgers|
    requires Shaped(t) && LateRecordsStayHidden(t)
    ensures Extends(t.ledgers[i], t.ledgers[j])
    decreases j
  {
    hide IsOrderlyRun, Late, Hidden;
    if i < j {
      HiddenRunsExtend(t, i, j - 1);
      HiddenEarlier(t, j - 1);
      StepExtends(t, j - 1);
    }
  }

  /** Along an orderly run the history and the generation only grow. */
  lemma {:induction false} RunsGrow(t: Trace, i: nat, j: nat)
    requires IsOrderlyRun(t)
    requires i <= j < |t.ledgers|
    ensures t.ledgers[i].history <= t.ledgers[j].history
    ensures t.ledgers[i].domain.log.generation <= t.ledgers[j].domain.log.generation
    decreases j
  {
    hide EventOf, Enabled, Happen, CommitsOf, Disciplined, Step, Orderly, GenerationsSettled, IndexBound, IsRun,
      ProperAt;
    if i < j {
      OrderlyRunIsRun(t);
      RunsGrow(t, i, j - 1);
      OrderlyRunStaysOrderly(t, j - 1);
      var ledger, event := OrderlyStep(t, j - 1);
      EventKeepsGenerations(ledger.domain.log, ledger.history, event);
    }
  }

  /** A record staged late takes a number readers are already past, and keeps it. */
  lemma LateNumberIsOld(t: Trace, m: nat, j: nat)
    requires IsOrderlyRun(t)
    requires m < j < |t.ledgers|
    requires Shaped(t) && !TimelyAt(t, m)
    ensures var log, k := t.ledgers[m].domain.log, |t.ledgers[m].domain.log.staged|;
            && k < |t.ledgers[j].domain.log.staged|
            && LastNumber(log) < t.ledgers[j].domain.log.staged[k].sequence <= log.latestSequence
  {
    hide EventOf, Enabled, CommitsOf, Step, Orderly, GenerationsSettled, IndexBound, IsRun, ProperAt, LastNumber;
    OrderlyRunIsRun(t);
    OrderlyRunStaysOrderly(t, m);
    var ledger, event := OrderlyStep(t, m);
    RunsAdvance(t, m + 1, j);
  }

  /** Making a record visible that was staged late overtakes readers. */
  lemma ShownLateRecordOvertakes(t: Trace, m: nat, j: nat)
    requires IsOrderlyRun(t)
    requires m < j < |t.ledgers|
    requires Shaped(t) && !TimelyAt(t, m) && |t.ledgers[m].domain.log.staged| < |t.ledgers[j].domain.log.staged|
    requires t.ledgers[j].domain.log.staged[|t.ledgers[m].domain.log.staged|].visible
    ensures !Extends(t.ledgers[m], t.ledgers[j])
  {
    hide IsOrderlyRun, TimelyAt, Orderly, GenerationsSettled, IndexBound, ValidRequest, Fits, Settled, AbortedStayOut,
      Recorded, Chained, WritesRecorded, LastNumber;
    LateNumberIsOld(t, m, j);
    RunsGrow(t, m, j);
    OrderlyRunStaysOrderly(t, m);
    OrderlyRunStaysOrderly(t, j);
    OrderlyParts(t.ledgers[m].domain.log, t.ledgers[m].history);
    OrderlyParts(t.ledgers[j].domain.log, t.ledgers[j].history);
    var record := t.ledgers[j].domain.log.staged[|t.ledgers[m].domain.log.staged|];
    var n :| 0 <= n < |t.ledgers[j].history| && t.ledgers[j].history[n] == EntryOf(record);
    assert n >= |t.ledgers[m].history|;
  }

  /**
  Exactly when snapshots are stable. In an orderly run no later commit ever takes a sequence at or below
  one already readable if and only if no record that was staged late, after policy transitions had
  pushed the readable sequence past the staged numbering, is ever made visible.
  */
  lemma SnapshotsAreStableIff(t: Trace)
    requires IsOrderlyRun(t)
    ensures Shaped(t) && (Stable(t) <==> LateRecordsStayHidden(t))
  {
    hide IsOrderlyRun, Extends, TimelyAt;
    OrderlyRunIsRun(t);
    if LateRecordsStayHidden(t) {
      forall i, j | 0 <= i <= j < |t.ledgers|
        ensures Extends(t.ledgers[i], t.ledgers[j])
      {
        HiddenRunsExtend(t, i, j);
      }
    } else {
      var j :| 0 <= j < |t.ledgers| && !Hidden(t.ledgers[j].domain.log.staged, Late(t, j));
      var staged := t.ledgers[j].domain.log.staged;
      var k :| 0 <= k < |staged| && k in Late(t, j) && staged[k].visible;
      var m :| 0 <= m < j && !TimelyAt(t, m) && |t.ledgers[m].domain.log.staged| == k;
      ShownLateRecordOvertakes(t, m, j);
    }
  }

  lemma RunsExtend(t: Trace, i: nat, j: nat)
    requires IsCarefulRun(t)
    requires i <= j < |t.ledgers|
    ensures Extends(t.ledgers[i], t.ledgers[j])
  {
    hide IsOrderlyRun, Extends, TimelyAt;
    SnapshotsAreStableIff(t);
    forall n | 0 <= n < |t.ledgers|
      ensures Hidden(t.ledgers[n].domain.log.staged, Late(t, n))
    {
      assert Late(t, n) == {};
    }
  }

  /**
  Stable snapshots. Along a careful run the history only grows, no later commit takes a sequence at or
  below one already readable, and the rows once shown at that sequence can always be rebuilt from it.
  */
  lemma SnapshotsAreStable(t: Trace, i: nat, j: nat)
    requires IsCarefulRun(t)
    requires i <= j < |t.ledgers|
    ensures Extends(t.ledgers[i], t.ledgers[j])
    ensures RowsAt(t.ledgers[j].domain.log.committedEnvelopes, t.ledgers[i].domain.log.latestSequence)
            == t.ledgers[i].domain.log.rows
  {
    hide IsCarefulRun, IsOrderlyRun, Orderly, GenerationsSettled, IndexBound, RowsAt, Replay, Numbered, WellFormed,
      Chained, Settled, AbortedStayOut, Recorded, WritesRecorded, Extends;
    CarefulRunIsOrderly(t);
    OrderlyRunStaysOrderly(t, i);
    OrderlyRunStaysOrderly(t, j);
    OrderlyParts(t.ledgers[i].domain.log, t.ledgers[i].history);
    OrderlyParts(t.ledgers[j].domain.log, t.ledgers[j].history);
    RunsExtend(t, i, j);
    SnapshotRows(t.ledgers[i], t.ledgers[j]);
  }

  lemma SnapshotRows(early: Ledger, late: Ledger)
    requires Extends(early, late) && Numbered(early.domain.log, early.history)
    requires Recorded(early.domain.log, early.history) && Recorded(late.domain.log, late.history)
    requires WellFormed(late.domain.log, late.history)
    ensures RowsAt(late.domain.log.committedEnvelopes, early.domain.log.latestSequence) == early.domain.log.rows
  {
    hide WellFormed, RowsAt, Replay;
    var cut := |early.history|;
    CutIsRowsAt(late.domain.log, late.history, early.domain.log.latestSequence, cut);
    assert late.domain.log.committedEnvelopes[..cut] == early.domain.log.committedEnvelopes;
  }

  // ---- one chain, final outcomes ----

  /**
  The committed envelopes of an orderly run form one unbroken hash chain with strictly growing versions.
  An aborted record never enters it and its sequence is never given out again.
  */
  lemma CommittedEnvelopesFormOneChain(ledger: Ledger)
    requires Reachable(ledger)
    ensures var log := ledger.domain.log;
            && IsChain(log.committedEnvelopes)
            && log.rows == Replay(map[], log.committedEnvelopes)
            && (forall m, n :: 0 <= m < n < |log.committedEnvelopes| ==>
                  log.committedEnvelopes[m].versionSequence < log.committedEnvelopes[n].versionSequence)
            && (forall i, j :: 0 <= i < j < |log.staged| ==> log.staged[i].sequence < log.staged[j].sequence)
            && (forall i, n :: 0 <= i < |log.staged| && log.staged[i].aborted && 0 <= n < |log.committedEnvelopes| ==>
                  log.committedEnvelopes[n].versionSequence != log.staged[i].sequence)
  {
    hide Reachable, Orderly, IsChain, Replay, ValidRequest, Settled, WritesRecorded;
    ReachableIsOrderly(ledger);
    OrderlyParts(ledger.domain.log, ledger.history);
    var log := ledger.domain.log;
    forall n | 0 <= n < |log.committedEnvelopes|
      ensures log.committedEnvelopes[n].versionSequence == ledger.history[n].sequence
    {
      assert Fits(ledger.history[n]);
    }
  }

  lemma {:induction false} RunsAdvance(t: Trace, i: nat, j: nat)
    requires IsRun(t)
    requires i <= j < |t.ledgers|
    ensures Advances(t.ledgers[i].domain.log.staged, t.ledgers[j].domain.log.staged)
    decreases j
  {
    hide Step, EventOf, Enabled, Happen, IsRun;
    if i < j {
      RunStartsFresh(t);
      RunsAdvance(t, i, j - 1);
      RunStep(t, j - 1);
      var d, entry := t.ledgers[j - 1].domain, t.entries[j - 1];
      StepIsEvent(d, entry);
      EventAdvances(d.log, EventOf(d, entry));
    }
  }

  /**
  Outcomes are final. Whatever the commands, staged records keep their content and any outcome they
  were given. In an orderly run no record is both visible and aborted, outcomes are settled in order,
  and every unresolved record is of the current generation, so a generation change strands nothing.
  */
  lemma OutcomesAreFinal(early: Ledger, late: Ledger)
    requires Reaches(early, late)
    ensures Advances(early.domain.log.staged, late.domain.log.staged)
    ensures Settled(late.domain.log.staged) && GenerationsSettled(late.domain.log)
    ensures early.domain.log.generation <= late.domain.log.generation
  {
    hide IsOrderlyRun, Orderly, GenerationsSettled, IndexBound, Settled, Advances;
    var t, i, j :|
      IsOrderlyRun(t) && 0 <= i <= j < |t.ledgers| && t.ledgers[i] == early && t.ledgers[j] == late;
    OrderlyRunStaysOrderly(t, j);
    OrderlyParts(late.domain.log, late.history);
    OrderlyRunIsRun(t);
    RunsAdvance(t, i, j);
    RunsGrow(t, i, j);
  }

  // ---- when staging is careful ----

  /** Only a policy transition or a direct commit can push the readable sequence past the staged numbering. */
  lemma NumberingKeepsUp(log: CommitLog, history: seq<HistoryEntry>, event: Event)
    requires Orderly(log, history) && GenerationsSettled(log)
    requires Enabled(log, event) && Disciplined(log, event)
    requires !event.Bump? && !event.CommitNow?
    requires log.latestSequence <= LastNumber(log)
    ensures var next := Happen(log, event); next.latestSequence <= LastNumber(next)
  {
    hide Orderly, Settled, WellFormed, Recorded, WritesRecorded, Chained, AbortedStayOut, ValidRequest,
      CommittedConflict, StagedConflict, UnresolvedCount, UnresolvedIndexes, EarlierPending, Dispose, ApplyMutations,
      WritesAt, NothingUnresolved, GenerationsSettled;
    OrderlyParts(log, history);
    if event.RecoverOver? {
      LatestIsNumbered(log, event.indexes, event.count, event.generation, log.latestSequence);
    }
  }

  lemma {:induction false} LatestIsNumbered(
    log: CommitLog, indexes: seq<nat>, count: nat, generation: U64, latest: U64)
    requires InRange(log.staged, indexes) && latest == log.latestSequence
    requires log.latestSequence <= LastNumber(log)
    requires forall i, j :: 0 <= i < j < |log.staged| ==> log.staged[i].sequence < log.staged[j].sequence
    ensures var next := Dispose(log, indexes, count, generation); next.latestSequence <= LastNumber(next)
    decreases |indexes|
  {
    hide ApplyMutations, WritesAt;
    if indexes != [] {
      LatestIsNumbered(log, indexes[..|indexes| - 1], count, generation, latest);
      DisposeAdvances(log, indexes[..|indexes| - 1], count, generation);
      DisposeAdvances(log, indexes, count, generation);
    }
  }

  /**
  Ordinary use: only staged commands, no policy transition, a publishing takeover names an unresolved
  record, and the generation counter is not exhausted.
  */
  predicate Ordinary(d: Domain, entry: Entry) {
    && entry.StagedEntry?
    && !entry.command.action.PrepareTransition?
    && !entry.command.action.CommitTransition?
    && (entry.command.action.TakeoverPublish? ==>
          var i := Find(d.log.staged, entry.command.transactionIdentity);
          i < |d.log.staged| ==> Unresolved(d.log.staged[i]))
    && d.log.generation < U64_MAX
  }

  predicate OrdinaryAt(t: Trace, i: nat)
    requires Shaped(t) && i < |t.entries|
  {
    Ordinary(t.ledgers[i].domain, t.entries[i])
  }

  predicate IsOrdinaryRun(t: Trace) {
    hide IsRun, OrdinaryAt;
    && Shaped(t)
    && IsRun(t)
    && forall i {:trigger OrdinaryAt(t, i)} :: 0 <= i < |t.entries| ==> OrdinaryAt(t, i)
  }

  lemma OrdinaryIsCareful(d: Domain, entry: Entry)
    requires Ordinary(d, entry) && d.log.latestSequence <= LastNumber(d.log)
    ensures var event := EventOf(d, entry);
            Proper(d.log, event) && Timely(d.log, event) && !event.Bump? && !event.CommitNow?
  {
    StepIsEvent(d, entry);
    hide ApplyDirect, ApplyStaged, RecoverableCount, WindowIndexes, ApplyInstall, SameButEvidence, UnresolvedCount,
      UnresolvedIndexes, ValidRequest, CommittedConflict, StagedConflict, EarlierPending, NothingUnresolved, Happen;
  }

  /** An ordinary run is orderly, and its staged numbering keeps up with readers. */
  predicate KeepsUp(ledger: Ledger, index: nat) {
    && Orderly(ledger.domain.log, ledger.history)
    && GenerationsSettled(ledger.domain.log)
    && IndexBound(ledger.domain.log, index)
    && ledger.domain.log.latestSequence <= LastNumber(ledger.domain.log)
  }

  lemma {:induction false} OrdinaryRunKeepsUp(t: Trace, i: nat)
    requires IsOrdinaryRun(t)
    requires i < |t.ledgers|
    ensures Shaped(t) && KeepsUp(t.ledgers[i], IndexBefore(t, i))
    decreases i
  {
    hide IsRun, OrdinaryAt, Fresh, KeepsUp;
    if i == 0 {
      RunStartsFresh(t);
      FreshKeepsUp(t.ledgers[0]);
    } else {
      OrdinaryRunKeepsUp(t, i - 1);
      OrdinaryStep(t, i - 1);
    }
  }

  lemma FreshKeepsUp(ledger: Ledger)
    requires ledger.history == []
    requires var d := ledger.domain; d == Fresh(d.cell, d.tenant, d.log.generation)
    ensures KeepsUp(ledger, 0)
  {
    hide Orderly, Invariant, GenerationsSettled, IndexBound, LastNumber;
    FreshHolds(ledger.domain);
  }

  lemma OrdinaryStep(t: Trace, i: nat)
    requires IsOrdinaryRun(t)
    requires i < |t.entries|
    requires KeepsUp(t.ledgers[i], IndexBefore(t, i))
    ensures ProperAt(t, i) && TimelyAt(t, i)
    ensures KeepsUp(t.ledgers[i + 1], IndexBefore(t, i + 1))
  {
    hide Orderly, GenerationsSettled, IndexBound, Enabled, Happen, CommitsOf, Disciplined, Proper, Timely, Step,
      EventOf, LastNumber, Ordinary, FreshIndex, Isolated;
    assert StepsAt(t, i) && OrdinaryAt(t, i);
    var ledger, entry := t.ledgers[i], t.entries[i];
    var log, event := ledger.domain.log, EventOf(ledger.domain, entry);
    StepIsEvent(ledger.domain, entry);
    OrdinaryIsCareful(ledger.domain, entry);
    EventIndexIsFresh(ledger.domain, entry);
    ProperIsDisciplined(log, event, IndexBefore(t, i), entry.logIndex);
    EventKeepsOrderly(log, ledger.history, event);
    EventKeepsGenerations(log, ledger.history, event);
    NumberingKeepsUp(log, ledger.history, event);
  }

  /** Every ordinary run is careful, so all of the above holds for it unconditionally. */
  lemma OrdinaryRunsAreCareful(t: Trace)
    requires IsOrdinaryRun(t)
    ensures IsCarefulRun(t)
  {
    hide IsRun, ProperAt, TimelyAt, OrdinaryAt, KeepsUp;
    forall i | 0 <= i < |t.entries|
      ensures ProperAt(t, i) && TimelyAt(t, i)
    {
      OrdinaryRunKeepsUp(t, i);
      OrdinaryStep(t, i);
    }
  }
}
