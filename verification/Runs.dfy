/** The invariants under one event, and what each event owes its caller's discipline. */
module Runs {
  import opened Types
  import opened Ordering
  import opened Domain
  import opened History
  import opened Events

  /** Unresolved records belong to the current generation; aborted ones to an earlier one. */
  predicate GenerationsSettled(log: CommitLog) {
    forall i :: 0 <= i < |log.staged| ==>
      var record := log.staged[i];
      && record.transaction.generation <= log.generation
      && (Unresolved(record) ==> record.transaction.generation == log.generation)
      && (record.aborted ==> record.transaction.generation < log.generation)
  }

  /** What a caller must respect, beyond the command's own checks, for the run to stay orderly. */
  predicate Disciplined(log: CommitLog, event: Event) {
    match event
    case Append(_, _) => LastNumber(log) < U64_MAX
    case PublishOver(i, _) => i < |log.staged| && Unresolved(log.staged[i]) && log.generation < U64_MAX
    case AbortOver(_, _) => log.generation < U64_MAX
    case RecoverOver(_, _, _) => log.generation < U64_MAX
    case CommitNow(_, logIndex) => log.staged == [] && log.latestSequence < logIndex
    case _ => true
  }

  /** Staging only while readers have not been taken past the staged numbering. */
  predicate Timely(log: CommitLog, event: Event) {
    event.Append? ==> log.latestSequence <= LastNumber(log)
  }

  function Entries(staged: seq<StagedTransaction>, from: nat, upTo: nat): seq<HistoryEntry>
    requires from <= upTo <= |staged|
  {
    seq(upTo - from, x requires 0 <= x < upTo - from => EntryOf(staged[from + x]))
  }

  function IndexedEntries(staged: seq<StagedTransaction>, indexes: seq<nat>): seq<HistoryEntry>
    requires InRange(staged, indexes)
  {
    seq(|indexes|, x requires 0 <= x < |indexes| => EntryOf(staged[indexes[x]]))
  }

  /** The transactions an event commits, in order. */
  function CommitsOf(log: CommitLog, event: Event): seq<HistoryEntry>
    requires Enabled(log, event)
  {
    match event
    case PublishNext(i) => [EntryOf(log.staged[i])]
    case PublishOver(i, _) => [EntryOf(log.staged[i])]
    case RecoverOver(indexes, count, _) => IndexedEntries(log.staged, indexes[..count])
    case CommitNow(tx, logIndex) => [HistoryEntry(tx, logIndex, DirectEnvelope(log, tx, logIndex))]
    case _ => []
  }

  // ---- the unresolved tail ----

  lemma {:induction false} TailBoundary(staged: seq<StagedTransaction>) returns (k: nat)
    requires Settled(staged)
    ensures UnresolvedFrom(staged, k)
  {
    if staged == [] || !Unresolved(staged[|staged| - 1]) {
      k := |staged|;
    } else {
      k := TailBoundary(staged[..|staged| - 1]);
    }
  }

  lemma {:induction false} CountZeroIff(staged: seq<StagedTransaction>)
    ensures UnresolvedCount(staged) == 0 <==> NothingUnresolved(staged)
  {
    if staged != [] {
      CountZeroIff(staged[1..]);
      if NothingUnresolved(staged[1..]) && !Unresolved(staged[0]) {
        forall i | 0 <= i < |staged|
          ensures !Unresolved(staged[i])
        {
          assert i > 0 ==> staged[i] == staged[1..][i - 1];
        }
      }
    }
  }

  lemma {:induction false} OnlyUnresolved(staged: seq<StagedTransaction>, i: nat, j: nat)
    requires UnresolvedCount(staged) == 1 && i < |staged| && j < |staged| && i != j
    requires Unresolved(staged[i])
    ensures !Unresolved(staged[j])
  {
    var rest := staged[1..];
    CountZeroIff(rest);
    assert forall x :: 0 < x < |staged| ==> staged[x] == rest[x - 1];
    if Unresolved(staged[0]) {
      assert i == 0 && !Unresolved(rest[j - 1]);
    } else if j > 0 {
      OnlyUnresolved(rest, i - 1, j - 1);
    }
  }

  lemma {:induction false} UnresolvedIndexesOfTail(staged: seq<StagedTransaction>, k: nat)
    requires UnresolvedFrom(staged, k)
    ensures |UnresolvedIndexes(staged)| == |staged| - k
    ensures forall x :: 0 <= x < |staged| - k ==> UnresolvedIndexes(staged)[x] == k + x
  {
    var n := |staged| - 1;
    if staged != [] {
      if k == |staged| {
        assert !Unresolved(staged[n]);
        UnresolvedIndexesOfTail(staged[..n], n);
      } else {
        UnresolvedIndexesOfTail(staged[..n], k);
      }
    }
  }

  // ---- publishing and disposing in order ----

  lemma {:induction false} PublishRangePointwise(log: CommitLog, from: nat, upTo: nat, generation: U64)
    requires from <= upTo <= |log.staged|
    ensures forall i :: 0 <= i < |log.staged| ==>
              PublishRange(log, from, upTo, generation).staged[i]
              == if from <= i < upTo then log.staged[i].(visible := true) else log.staged[i]
    decreases upTo
  {
    hide Commit;
    if from < upTo {
      PublishRangePointwise(log, from, upTo - 1, generation);
    }
  }

  lemma {:induction false} PublishRangeKeepsOrderly(
    log: CommitLog, history: seq<HistoryEntry>, from: nat, upTo: nat, generation: U64)
    requires Orderly(log, history) && UnresolvedFrom(log.staged, from) && from <= upTo <= |log.staged|
    ensures var next, extended := PublishRange(log, from, upTo, generation), history + Entries(log.staged, from, upTo);
            && Orderly(next, extended)
            && UnresolvedFrom(next.staged, upTo)
            && (Isolated(log, history) ==> Isolated(next, extended))
    decreases upTo
  {
    hide Orderly, Publish, Isolated;
    PublishRangePointwise(log, from, upTo, generation);
    if from == upTo {
      assert history + Entries(log.staged, from, upTo) == history;
    } else {
      var before := PublishRange(log, from, upTo - 1, generation);
      PublishRangeKeepsOrderly(log, history, from, upTo - 1, generation);
      PublishRangePointwise(log, from, upTo - 1, generation);
      PublishKeepsOrderly(before, history + Entries(log.staged, from, upTo - 1), upTo - 1, generation);
      assert history + Entries(log.staged, from, upTo - 1) + [EntryOf(log.staged[upTo - 1])]
             == history + Entries(log.staged, from, upTo);
    }
  }

  /** Disposing of the unresolved tail publishes its first `count` records and aborts the rest. */
  lemma {:induction false} DisposeTail(log: CommitLog, indexes: seq<nat>, k: nat, count: nat, generation: U64)
    requires InRange(log.staged, indexes) && count <= |indexes| && k + |indexes| <= |log.staged|
    requires forall x :: 0 <= x < |indexes| ==> indexes[x] == k + x
    ensures Dispose(log, indexes, count, generation)
            == AbortRange(PublishRange(log, k, k + count, generation), k + count, k + |indexes|)
    decreases |indexes|
  {
    hide Publish, Abort;
    if indexes != [] {
      var n := |indexes| - 1;
      DisposeTail(log, indexes[..n], k, if n < count then n else count, generation);
      DisposeAgrees(log, indexes[..n], count, if n < count then n else count, generation);
    }
  }

  lemma {:induction false} DisposeAgrees(log: CommitLog, indexes: seq<nat>, count: nat, other: nat, generation: U64)
    requires InRange(log.staged, indexes)
    requires other == count || (|indexes| <= other && |indexes| <= count)
    ensures Dispose(log, indexes, count, generation) == Dispose(log, indexes, other, generation)
    decreases |indexes|
  {
    hide Publish, Abort;
    if indexes != [] {
      DisposeAgrees(log, indexes[..|indexes| - 1], count, other, generation);
    }
  }

  // ---- every event keeps the invariant ----

  lemma PublishNextIsFirst(log: CommitLog, history: seq<HistoryEntry>, i: nat)
    requires Numbered(log, history) && i < |log.staged| && Unresolved(log.staged[i])
    requires !EarlierPending(log.staged, log.staged[i].sequence)
    ensures FirstUnresolved(log.staged, i)
  {
  }

  lemma PublishOverIsFirst(log: CommitLog, i: nat)
    requires UnresolvedCount(log.staged) == 1 && i < |log.staged| && Unresolved(log.staged[i])
    ensures FirstUnresolved(log.staged, i)
    ensures Settled(log.staged) ==> i == |log.staged| - 1
  {
    forall j | 0 <= j < |log.staged| && j != i
      ensures !Unresolved(log.staged[j])
    {
      OnlyUnresolved(log.staged, i, j);
    }
    if i < |log.staged| - 1 {
      assert !Unresolved(log.staged[|log.staged| - 1]);
    }
  }

  lemma OrderlyParts(log: CommitLog, history: seq<HistoryEntry>)
    requires Orderly(log, history)
    ensures Numbered(log, history) && Settled(log.staged) && AbortedStayOut(log, history)
    ensures Recorded(log, history) && WellFormed(log, history) && Chained(log) && WritesRecorded(log, history)
  {
  }

  lemma RecoverKeepsOrderly(
    log: CommitLog, history: seq<HistoryEntry>, indexes: seq<nat>, count: nat, generation: U64)
    requires Orderly(log, history) && InRange(log.staged, indexes)
    requires indexes == UnresolvedIndexes(log.staged) && count <= |indexes|
    ensures var next, extended :=
              Dispose(log, indexes, count, generation), history + IndexedEntries(log.staged, indexes[..count]);
            && Orderly(next, extended)
            && NothingUnresolved(next.staged)
            && (Isolated(log, history) ==> Isolated(next, extended))
  {
    hide Orderly, Dispose, PublishRange, AbortRange, UnresolvedIndexes, Settled, Numbered, AbortedStayOut, Recorded,
      WellFormed, Chained, WritesRecorded, Isolated;
    OrderlyParts(log, history);
    var k := TailBoundary(log.staged);
    UnresolvedIndexesOfTail(log.staged, k);
    DisposeTail(log, indexes, k, count, generation);
    var published := PublishRange(log, k, k + count, generation);
    PublishRangeKeepsOrderly(log, history, k, k + count, generation);
    AbortTailKeepsOrderly(published, history + Entries(log.staged, k, k + count), k + count);
    assert Entries(log.staged, k, k + count) == IndexedEntries(log.staged, indexes[..count]);
  }

  lemma AbortOverKeepsOrderly(log: CommitLog, history: seq<HistoryEntry>, i: nat, generation: U64)
    requires Orderly(log, history) && UnresolvedCount(log.staged) == 1 && i < |log.staged| && Unresolved(log.staged[i])
    ensures var next := Abort(log, i).(generation := generation);
            && Orderly(next, history)
            && NothingUnresolved(next.staged)
            && (Isolated(log, history) ==> Isolated(next, history))
  {
    hide Orderly, Isolated, UnresolvedCount, Numbered, AbortedStayOut, Recorded, WellFormed, Chained, WritesRecorded;
    OrderlyParts(log, history);
    var n := |log.staged|;
    PublishOverIsFirst(log, i);
    AbortTailKeepsOrderly(log, history, n - 1);
    assert AbortRange(log, n - 1, n) == Abort(log, i) by {
      assert AbortRange(log, n - 1, n - 1) == log;
    }
    GenerationChangeKeepsOrderly(Abort(log, i), history, generation);
  }

  /** A disciplined event keeps the run orderly, with the transactions it commits added to the history. */
  lemma EventKeepsOrderly(log: CommitLog, history: seq<HistoryEntry>, event: Event)
    requires Orderly(log, history) && GenerationsSettled(log)
    requires Enabled(log, event) && Disciplined(log, event)
    ensures Orderly(Happen(log, event), history + CommitsOf(log, event))
    ensures Isolated(log, history) && !event.Append? && !event.CommitNow? ==>
              Isolated(Happen(log, event), history + CommitsOf(log, event))
  {
    hide Orderly, Isolated, Publish, Dispose, AppendStaged, CommitDirectly, ValidRequest, CommittedConflict,
      StagedConflict, SameButEvidence, NothingUnresolved, UnresolvedIndexes, UnresolvedCount, LastNumber,
      EarlierPending, Numbered, AbortedStayOut, Recorded, WellFormed, Chained, WritesRecorded, Settled, Abort;
    assert history + [] == history;
    match event
    case Quiet =>
    case Evidence(staged) => EvidenceKeepsOrderly(log, history, staged);
    case Bump => BumpKeepsOrderly(log, history, Successor(log.latestSequence));
    case Append(tx, logIndex) => AppendKeepsOrderly(log, history, tx, logIndex);
    case PublishNext(i) =>
      OrderlyParts(log, history);
      PublishNextIsFirst(log, history, i);
      PublishKeepsOrderly(log, history, i, log.staged[i].transaction.generation);
    case PublishOver(i, generation) =>
      PublishOverIsFirst(log, i);
      PublishKeepsOrderly(log, history, i, generation);
    case AbortOver(i, generation) => AbortOverKeepsOrderly(log, history, i, generation);
    case RecoverOver(indexes, count, generation) =>
      RecoverKeepsOrderly(log, history, indexes, count, generation);
      GenerationChangeKeepsOrderly(
        Dispose(log, indexes, count, generation), history + CommitsOf(log, event), generation);
    case CommitNow(tx, logIndex) => DirectKeepsOrderly(log, history, tx, logIndex);
  }

  /** The records staged late, once an event has happened. */
  function LateAfter(log: CommitLog, event: Event, late: set<nat>): set<nat> {
    if Timely(log, event) then late else late + {|log.staged|}
  }

  lemma ResolvedIsAhead(log: CommitLog, late: set<nat>)
    requires NothingUnresolved(log.staged) || Ahead(log, {})
    ensures Ahead(log, late)
  {
  }

  lemma DirectStagesNothing(log: CommitLog, tx: Transaction, logIndex: U64)
    requires log.staged == []
    ensures CommitDirectly(log, tx, logIndex).staged == []
  {
    hide ApplyMutations, WritesAt, MakeEnvelope;
  }

  lemma AppendKeepsAhead(log: CommitLog, tx: Transaction, logIndex: U64, late: set<nat>)
    requires Ahead(log, late) && LastNumber(log) < U64_MAX
    ensures Ahead(AppendStaged(log, tx, logIndex), LateAfter(log, Append(tx, logIndex), late))
  {
    hide MakeEnvelope, ChainTip;
  }

  /** Unresolved records staged in time stay ahead of readers, whatever the event. */
  lemma EventKeepsAhead(log: CommitLog, history: seq<HistoryEntry>, event: Event, late: set<nat>)
    requires Orderly(log, history) && Ahead(log, late) && GenerationsSettled(log)
    requires Enabled(log, event) && Disciplined(log, event)
    ensures Ahead(Happen(log, event), LateAfter(log, event, late))
  {
    hide Orderly, Publish, Dispose, AppendStaged, CommitDirectly, ValidRequest, CommittedConflict, StagedConflict,
      NothingUnresolved, UnresolvedIndexes, UnresolvedCount, LastNumber, EarlierPending, Numbered, AbortedStayOut,
      Recorded, WellFormed, Chained, WritesRecorded, Settled, Abort, Isolated;
    OrderlyParts(log, history);
    var next, after := Happen(log, event), LateAfter(log, event, late);
    match event
    case Quiet =>
    case Evidence(staged) =>
    case Bump => ResolvedIsAhead(next, after);
    case Append(tx, logIndex) => AppendKeepsAhead(log, tx, logIndex, late);
    case PublishNext(i) =>
      PublishNextIsFirst(log, history, i);
      PublishKeepsOrderly(log, history, i, log.staged[i].transaction.generation);
      ResolvedIsAhead(next, after);
    case PublishOver(i, generation) =>
      PublishOverIsFirst(log, i);
      PublishKeepsOrderly(log, history, i, generation);
      ResolvedIsAhead(next, after);
    case AbortOver(i, generation) =>
      AbortOverKeepsOrderly(log, history, i, generation);
      ResolvedIsAhead(next, after);
    case RecoverOver(indexes, count, generation) =>
      RecoverKeepsOrderly(log, history, indexes, count, generation);
      ResolvedIsAhead(next, after);
    case CommitNow(tx, logIndex) => DirectStagesNothing(log, tx, logIndex);
  }

  lemma DirectKeepsIsolated(log: CommitLog, history: seq<HistoryEntry>, event: Event)
    requires Isolated(log, history) && WritesRecorded(log, history) && event.CommitNow?
    requires Enabled(log, event) && Disciplined(log, event)
    ensures Isolated(Happen(log, event), history + CommitsOf(log, event))
  {
    hide CommittedConflict, ValidRequest, WritesRecorded, IsolatedFrom, DirectEnvelope;
    var entry := HistoryEntry(
      event.transaction, event.logIndex, DirectEnvelope(log, event.transaction, event.logIndex));
    DirectKeepsIsolation(log, history, entry);
    DirectStagesNothing(log, event.transaction, event.logIndex);
  }

  /** A disciplined and timely event keeps the whole invariant. */
  lemma EventKeepsInvariant(log: CommitLog, history: seq<HistoryEntry>, event: Event)
    requires Invariant(log, history) && GenerationsSettled(log)
    requires Enabled(log, event) && Disciplined(log, event) && Timely(log, event)
    ensures Invariant(Happen(log, event), history + CommitsOf(log, event))
  {
    EventKeepsOrderly(log, history, event);
    EventKeepsAhead(log, history, event, {});
    OrderlyParts(log, history);
    hide Orderly, Isolated, Ahead, Happen, CommitsOf, WritesRecorded, CommittedConflict, StagedConflict, ValidRequest,
      Numbered, Settled, AbortedStayOut, Recorded, WellFormed, Chained;
    if event.CommitNow? {
      DirectKeepsIsolated(log, history, event);
    } else if event.Append? {
      AppendEventIsolated(log, history, event);
    }
  }

  lemma AppendEventIsolated(log: CommitLog, history: seq<HistoryEntry>, event: Event)
    requires Isolated(log, history) && WritesRecorded(log, history) && event.Append?
    requires Enabled(log, event) && Disciplined(log, event) && Timely(log, event)
    ensures Isolated(Happen(log, event), history + CommitsOf(log, event))
  {
    hide Isolated, CommittedConflict, StagedConflict, ValidRequest, WritesRecorded, AppendStaged, LastNumber;
    AppendKeepsIsolation(log, history, event.transaction, event.logIndex);
    assert history + [] == history;
  }

  // ---- outcomes are permanent ----

  /** Staged records are never dropped or rewritten, and an outcome once given is kept. */
  predicate Advances(before: seq<StagedTransaction>, after: seq<StagedTransaction>) {
    && |before| <= |after|
    && forall i :: 0 <= i < |before| ==>
         && after[i].identity == before[i].identity
         && after[i].transaction == before[i].transaction
         && after[i].sequence == before[i].sequence
         && after[i].envelope == before[i].envelope
         && (before[i].visible ==> after[i].visible)
         && (before[i].aborted ==> after[i].aborted)
  }

  lemma {:induction false} DisposeAdvances(log: CommitLog, indexes: seq<nat>, count: nat, generation: U64)
    requires InRange(log.staged, indexes)
    ensures Advances(log.staged, Dispose(log, indexes, count, generation).staged)
    decreases |indexes|
  {
    hide Commit;
    if indexes != [] {
      DisposeAdvances(log, indexes[..|indexes| - 1], count, generation);
    }
  }

  /** Whatever command comes, staged records keep their content and their outcome. */
  lemma EventAdvances(log: CommitLog, event: Event)
    requires Enabled(log, event)
    ensures Advances(log.staged, Happen(log, event).staged)
  {
    hide Dispose, StagedRecord, ValidRequest, CommittedConflict, StagedConflict, NothingUnresolved,
      UnresolvedIndexes, UnresolvedCount, EarlierPending;
    if event.RecoverOver? {
      DisposeAdvances(log, event.indexes, event.count, event.generation);
    }
  }

  // ---- generations ----

  lemma SettledTakeover(log: CommitLog, next: CommitLog)
    requires GenerationsSettled(log) && Advances(log.staged, next.staged) && |next.staged| == |log.staged|
    requires NothingUnresolved(next.staged) && log.generation < next.generation
    ensures GenerationsSettled(next)
  {
  }

  lemma OrdinaryKeepsGenerations(log: CommitLog, event: Event)
    requires GenerationsSettled(log) && Enabled(log, event)
    requires !event.PublishOver? && !event.AbortOver? && !event.RecoverOver?
    ensures GenerationsSettled(Happen(log, event)) && Happen(log, event).generation == log.generation
  {
    hide ApplyMutations, WritesAt, MakeEnvelope, ChainTip, NextSequence, ValidRequest, CommittedConflict,
      StagedConflict, EarlierPending, NothingUnresolved;
  }

  lemma TakeoverResolvesAll(log: CommitLog, history: seq<HistoryEntry>, event: Event)
    requires Orderly(log, history) && GenerationsSettled(log)
    requires Enabled(log, event) && Disciplined(log, event)
    requires event.PublishOver? || event.AbortOver? || event.RecoverOver?
    ensures NothingUnresolved(Happen(log, event).staged)
    ensures |Happen(log, event).staged| == |log.staged| && Happen(log, event).generation == log.generation + 1
  {
    hide Orderly, Isolated, ApplyMutations, WritesAt, Dispose, UnresolvedIndexes, UnresolvedCount;
    match event
    case PublishOver(i, generation) => TakeoverPublishResolvesIff(log, i, generation);
    case AbortOver(i, _) => PublishOverIsFirst(log, i);
      forall j | 0 <= j < |log.staged| && j != i
        ensures !Unresolved(log.staged[j])
      {
        OnlyUnresolved(log.staged, i, j);
      }
    case RecoverOver(indexes, count, generation) =>
      RecoverKeepsOrderly(log, history, indexes, count, generation);
  }

  /** The generation never goes back, and whenever it moves nothing is left unresolved behind it. */
  lemma EventKeepsGenerations(log: CommitLog, history: seq<HistoryEntry>, event: Event)
    requires Orderly(log, history) && GenerationsSettled(log)
    requires Enabled(log, event) && Disciplined(log, event)
    ensures GenerationsSettled(Happen(log, event))
    ensures log.generation <= Happen(log, event).generation
    ensures log.generation < Happen(log, event).generation ==> NothingUnresolved(Happen(log, event).staged)
  {
    hide Enabled, Disciplined, Happen, Orderly, GenerationsSettled, NothingUnresolved;
    EventAdvances(log, event);
    if event.PublishOver? || event.AbortOver? || event.RecoverOver? {
      TakeoverResolvesAll(log, history, event);
      SettledTakeover(log, Happen(log, event));
    } else {
      OrdinaryKeepsGenerations(log, event);
    }
  }

  /**
  A publishing takeover is accepted as soon as one record is unresolved, even when the record it names
  is already visible. It leaves nothing unresolved exactly when the named record was unresolved.
  */
  lemma TakeoverPublishResolvesIff(log: CommitLog, i: nat, generation: U64)
    requires Enabled(log, PublishOver(i, generation))
    ensures NothingUnresolved(Publish(log, i, generation).staged) <==> Unresolved(log.staged[i])
  {
    hide Commit;
    var next := Publish(log, i, generation);
    if Unresolved(log.staged[i]) {
      PublishOverIsFirst(log, i);
      forall j | 0 <= j < |log.staged| && j != i
        ensures !Unresolved(log.staged[j])
      {
        OnlyUnresolved(log.staged, i, j);
      }
    } else {
      CountZeroIff(log.staged);
      var j :| 0 <= j < |log.staged| && Unresolved(log.staged[j]);
      assert next.staged[j] == log.staged[j];
    }
  }
}
