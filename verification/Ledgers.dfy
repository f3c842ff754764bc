/** Whole runs of one domain, with the history of everything it committed. */
module Ledgers {
  import opened Types
  import opened Ordering
  import opened Domain
  import opened History
  import opened Events
  import opened Runs

  /** The domain with the history of everything it ever committed. */
  datatype Ledger = Ledger(domain: Domain, history: seq<HistoryEntry>)

  function Advance(ledger: Ledger, entry: Entry): Ledger {
    StepIsEvent(ledger.domain, entry);
    hide ApplyDirect, ApplyStaged;
    Ledger(
      Step(ledger.domain, entry),
      ledger.history + CommitsOf(ledger.domain.log, EventOf(ledger.domain, entry)))
  }

  /** A run: the ledgers it passes through and the log entries between them. */
  datatype Trace = Trace(ledgers: seq<Ledger>, entries: seq<Entry>)

  predicate Shaped(t: Trace) {
    |t.ledgers| == |t.entries| + 1
  }

  predicate StepsAt(t: Trace, i: nat)
    requires Shaped(t) && i < |t.entries|
  {
    hide Advance;
    t.ledgers[i + 1] == Advance(t.ledgers[i], t.entries[i])
  }

  /** Any sequence of entries with growing log indexes, from a freshly created domain. */
  predicate IsRun(t: Trace) {
    hide StepsAt;
    && Shaped(t)
    && t.ledgers[0].history == []
    && (var start := t.ledgers[0].domain; start == Fresh(start.cell, start.tenant, start.log.generation))
    && (forall i :: 0 <= i < |t.entries| ==> t.entries[i].logIndex > 0)
    && (forall i, j :: 0 <= i < j < |t.entries| ==> t.entries[i].logIndex < t.entries[j].logIndex)
    && (forall i {:trigger StepsAt(t, i)} :: 0 <= i < |t.entries| ==> StepsAt(t, i))
  }

  /**
  What callers of an orderly run respect: direct commits stop once staging begins, a takeover happens
  below the generation counter's limit, and a publishing takeover names an unresolved record.
  */
  predicate Proper(log: CommitLog, event: Event) {
    match event
    case Append(_, _) => true
    case CommitNow(_, _) => log.staged == []
    case _ => Disciplined(log, event)
  }

  predicate ProperAt(t: Trace, i: nat)
    requires Shaped(t) && i < |t.entries|
  {
    hide EventOf;
    Proper(t.ledgers[i].domain.log, EventOf(t.ledgers[i].domain, t.entries[i]))
  }

  predicate IsOrderlyRun(t: Trace) {
    hide IsRun, ProperAt;
    && Shaped(t)
    && IsRun(t)
    && forall i {:trigger ProperAt(t, i)} :: 0 <= i < |t.entries| ==> ProperAt(t, i)
  }

  /** If this entry stages a record, readers have not been taken past the staged numbering. */
  predicate TimelyAt(t: Trace, i: nat)
    requires Shaped(t) && i < |t.entries|
  {
    hide EventOf;
    Timely(t.ledgers[i].domain.log, EventOf(t.ledgers[i].domain, t.entries[i]))
  }

  /** An orderly run that also stages nothing late. */
  predicate IsCarefulRun(t: Trace) {
    hide IsOrderlyRun, TimelyAt;
    && Shaped(t)
    && IsOrderlyRun(t)
    && forall i {:trigger TimelyAt(t, i)} :: 0 <= i < |t.entries| ==> TimelyAt(t, i)
  }

  lemma OrderlyRunIsRun(t: Trace)
    requires IsOrderlyRun(t)
    ensures Shaped(t) && IsRun(t)
  {
    hide IsRun, ProperAt;
  }

  lemma CarefulRunIsOrderly(t: Trace)
    requires IsCarefulRun(t)
    ensures Shaped(t) && IsOrderlyRun(t) && IsRun(t)
  {
    hide IsOrderlyRun, TimelyAt;
    OrderlyRunIsRun(t);
  }

  /** The domain moves by one command at each step of a run. */
  lemma RunStep(t: Trace, i: nat)
    requires IsRun(t)
    requires i < |t.entries|
    ensures Shaped(t)
    ensures t.ledgers[i + 1].domain == Step(t.ledgers[i].domain, t.entries[i])
  {
    hide Step, EventOf, CommitsOf;
    assert StepsAt(t, i);
  }

  /** Every number given out so far is at most the index of the last log entry. */
  predicate IndexBound(log: CommitLog, index: nat) {
    log.latestSequence <= index && forall i :: 0 <= i < |log.staged| ==> log.staged[i].sequence <= index
  }

  /** Index of the last entry before ledger `i`. */
  function IndexBefore(t: Trace, i: nat): nat
    requires i <= |t.entries|
  {
    if i == 0 then 0 else t.entries[i - 1].logIndex
  }

  predicate FreshIndex(event: Event, index: nat) {
    && (event.Append? ==> event.logIndex == index)
    && (event.CommitNow? ==> event.logIndex == index)
  }

  lemma {:induction false} DisposeLatest(log: CommitLog, indexes: seq<nat>, count: nat, generation: U64, index: nat)
    requires InRange(log.staged, indexes) && IndexBound(log, index)
    ensures IndexBound(Dispose(log, indexes, count, generation), index)
    decreases |indexes|
  {
    hide ApplyMutations, WritesAt;
    if indexes != [] {
      DisposeLatest(log, indexes[..|indexes| - 1], count, generation, index);
      DisposeAdvances(log, indexes[..|indexes| - 1], count, generation);
    }
  }

  /** Log indexes outrun every counter, so proper use is disciplined and nothing saturates. */
  lemma ProperIsDisciplined(log: CommitLog, event: Event, index: nat, next: U64)
    requires IndexBound(log, index) && index < next && FreshIndex(event, next)
    requires Enabled(log, event) && Proper(log, event)
    ensures Disciplined(log, event)
    ensures IndexBound(Happen(log, event), next)
  {
    hide ApplyMutations, WritesAt, MakeEnvelope, ChainTip, Dispose, ValidRequest, CommittedConflict, StagedConflict,
      UnresolvedIndexes, UnresolvedCount, NothingUnresolved, EarlierPending;
    if event.RecoverOver? {
      DisposeLatest(log, event.indexes, event.count, event.generation, index);
    }
  }

  lemma EventIndexIsFresh(d: Domain, entry: Entry)
    ensures FreshIndex(EventOf(d, entry), entry.logIndex)
  {
    hide ApplyDirect, ApplyStaged, Find, RecoverableCount, WindowIndexes;
  }

  lemma FreshHolds(d: Domain)
    requires d == Fresh(d.cell, d.tenant, d.log.generation)
    ensures Orderly(d.log, []) && Invariant(d.log, []) && GenerationsSettled(d.log) && IndexBound(d.log, 0)
    ensures d.log.latestSequence <= LastNumber(d.log)
  {
  }

  lemma RunStartsFresh(t: Trace)
    requires IsRun(t)
    ensures Shaped(t) && t.ledgers[0].history == []
    ensures var start := t.ledgers[0].domain; start == Fresh(start.cell, start.tenant, start.log.generation)
  {
    hide StepsAt;
  }

  /** One step of an orderly run, seen as a disciplined event on the core. */
  lemma OrderlyStep(t: Trace, i: nat) returns (ledger: Ledger, event: Event)
    requires IsOrderlyRun(t)
    requires i < |t.entries|
    requires IndexBound(t.ledgers[i].domain.log, IndexBefore(t, i))
    ensures ledger == t.ledgers[i] && event == EventOf(ledger.domain, t.entries[i])
    ensures Enabled(ledger.domain.log, event) && Disciplined(ledger.domain.log, event)
    ensures t.ledgers[i + 1].domain == Step(ledger.domain, t.entries[i])
    ensures t.ledgers[i + 1].domain.log == Happen(ledger.domain.log, event)
    ensures t.ledgers[i + 1].history == ledger.history + CommitsOf(ledger.domain.log, event)
    ensures IndexBound(t.ledgers[i + 1].domain.log, IndexBefore(t, i + 1))
  {
    hide IndexBound, Enabled, Happen, CommitsOf, Proper, Disciplined, Step, EventOf, FreshIndex;
    assert StepsAt(t, i) && ProperAt(t, i);
    ledger := t.ledgers[i];
    event := EventOf(ledger.domain, t.entries[i]);
    StepIsEvent(ledger.domain, t.entries[i]);
    EventIndexIsFresh(ledger.domain, t.entries[i]);
    ProperIsDisciplined(ledger.domain.log, event, IndexBefore(t, i), t.entries[i].logIndex);
  }

  /** Every orderly run keeps its numbering, outcomes, records and chain in order. */
  lemma {:induction false} OrderlyRunStaysOrderly(t: Trace, i: nat)
    requires IsOrderlyRun(t)
    requires i < |t.ledgers|
    ensures Orderly(t.ledgers[i].domain.log, t.ledgers[i].history)
    ensures GenerationsSettled(t.ledgers[i].domain.log)
    ensures IndexBound(t.ledgers[i].domain.log, IndexBefore(t, i))
    decreases i
  {
    hide Orderly, Isolated, GenerationsSettled, IndexBound, Enabled, Happen, CommitsOf, Disciplined, IsRun, ProperAt,
      Step, EventOf, Fresh;
    if i == 0 {
      RunStartsFresh(t);
      FreshHolds(t.ledgers[0].domain);
    } else {
      OrderlyRunStaysOrderly(t, i - 1);
      var ledger, event := OrderlyStep(t, i - 1);
      EventKeepsOrderly(ledger.domain.log, ledger.history, event);
      EventKeepsGenerations(ledger.domain.log, ledger.history, event);
    }
  }

  /** Every careful run also keeps staged numbers ahead of readers, and isolation. */
  lemma {:induction false} CarefulRunKeepsInvariant(t: Trace, i: nat)
    requires IsCarefulRun(t)
    requires i < |t.ledgers|
    ensures Invariant(t.ledgers[i].domain.log, t.ledgers[i].history)
    ensures GenerationsSettled(t.ledgers[i].domain.log)
    decreases i
  {
    hide Invariant, Orderly, GenerationsSettled, IndexBound, Enabled, Happen, CommitsOf, Disciplined, Timely, IsRun,
      IsOrderlyRun, Step, EventOf, Fresh;
    CarefulRunIsOrderly(t);
    OrderlyRunStaysOrderly(t, i);
    if i == 0 {
      RunStartsFresh(t);
      FreshHolds(t.ledgers[0].domain);
    } else {
      CarefulRunKeepsInvariant(t, i - 1);
      OrderlyRunStaysOrderly(t, i - 1);
      var ledger, event := OrderlyStep(t, i - 1);
      assert TimelyAt(t, i - 1);
      EventKeepsInvariant(ledger.domain.log, ledger.history, event);
    }
  }

  // ---- reachable ledgers ----

  /** Some orderly run passes through this ledger. */
  ghost predicate Reachable(ledger: Ledger) {
    hide IsOrderlyRun;
    exists t, i :: IsOrderlyRun(t) && 0 <= i < |t.ledgers| && t.ledgers[i] == ledger
  }

  /** Some careful run passes through this ledger. */
  ghost predicate CarefullyReachable(ledger: Ledger) {
    hide IsCarefulRun;
    exists t, i :: IsCarefulRun(t) && 0 <= i < |t.ledgers| && t.ledgers[i] == ledger
  }

  /** One orderly run passes through `early` and then through `late`. */
  ghost predicate Reaches(early: Ledger, late: Ledger) {
    hide IsOrderlyRun;
    exists t, i, j :: IsOrderlyRun(t) && 0 <= i <= j < |t.ledgers| && t.ledgers[i] == early && t.ledgers[j] == late
  }

  lemma ReachableIsOrderly(ledger: Ledger)
    requires Reachable(ledger)
    ensures Orderly(ledger.domain.log, ledger.history) && GenerationsSettled(ledger.domain.log)
  {
    hide Orderly, GenerationsSettled, IsOrderlyRun;
    var t, i :| IsOrderlyRun(t) && 0 <= i < |t.ledgers| && t.ledgers[i] == ledger;
    OrderlyRunStaysOrderly(t, i);
  }

  lemma CarefullyReachableInvariant(ledger: Ledger)
    requires CarefullyReachable(ledger)
    ensures Invariant(ledger.domain.log, ledger.history) && GenerationsSettled(ledger.domain.log)
  {
    hide Invariant, GenerationsSettled, IsCarefulRun;
    var t, i :| IsCarefulRun(t) && 0 <= i < |t.ledgers| && t.ledgers[i] == ledger;
    CarefulRunKeepsInvariant(t, i);
  }
}
