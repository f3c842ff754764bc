/** One-shot runs refine the checker: what optimistic concurrency control commits, the witness accepts. */
module WitnessRuns {
  import opened Keys
  import opened Types
  import opened Certificates
  import opened Ordering
  import opened Domain
  import opened History
  import opened Events
  import opened Runs
  import opened Serializability
  import opened Ledgers
  import opened Guarantees
  import opened Witness

  // ---- lists that sort the same ----

  lemma {:induction false} CommittedCount(history: seq<Completed>, x: Completed)
    ensures multiset(CommittedOnly(history))[x] == if x.committed then multiset(history)[x] else 0
  {
    if history != [] {
      var n := |history| - 1;
      CommittedCount(history[..n], x);
      assert history == history[..n] + [history[n]];
    }
  }

  lemma PermutedCommits(history: seq<Completed>, other: seq<Completed>)
    requires multiset(history) == multiset(other)
    ensures multiset(CommittedOnly(history)) == multiset(CommittedOnly(other))
  {
    forall x
      ensures multiset(CommittedOnly(history))[x] == multiset(CommittedOnly(other))[x]
    {
      CommittedCount(history, x);
      CommittedCount(other, x);
    }
  }

  lemma LastsAgree(first: seq<Completed>, second: seq<Completed>)
    requires StrictOrder(first) && StrictOrder(second) && multiset(first) == multiset(second) && first != []
    ensures |first| == |second| && first[|first| - 1] == second[|second| - 1]
  {
    assert |multiset(first)| == |multiset(second)|;
    var mine, theirs := first[|first| - 1], second[|second| - 1];
    assert mine in multiset(second) && theirs in multiset(first);
    LastIsGreatest(first, theirs);
    LastIsGreatest(second, mine);
    SameKeySameEntry(second, mine);
  }

  lemma FrontsAgree(first: seq<Completed>, second: seq<Completed>)
    requires multiset(first) == multiset(second) && first != [] && second != []
    requires first[|first| - 1] == second[|second| - 1]
    ensures multiset(first[..|first| - 1]) == multiset(second[..|second| - 1])
  {
    assert first == first[..|first| - 1] + [first[|first| - 1]];
    assert second == second[..|second| - 1] + [second[|second| - 1]];
    assert multiset(first[..|first| - 1]) == multiset(first) - multiset{first[|first| - 1]};
    assert multiset(second[..|second| - 1]) == multiset(second) - multiset{second[|second| - 1]};
  }

  /** Two strictly ordered lists with the same elements are the same list. */
  lemma {:induction false} StrictListsAgree(first: seq<Completed>, second: seq<Completed>)
    requires StrictOrder(first) && StrictOrder(second) && multiset(first) == multiset(second)
    ensures first == second
  {
    if first == [] {
      assert |multiset(second)| == 0;
    } else {
      LastsAgree(first, second);
      FrontsAgree(first, second);
      var n := |first| - 1;
      StrictListsAgree(first[..n], second[..n]);
      assert first == first[..n] + [first[n]] && second == second[..n] + [second[n]];
    }
  }

  lemma LastIsGreatest(list: seq<Completed>, x: Completed)
    requires StrictOrder(list) && x in list
    ensures SortKey(x) <= SortKey(list[|list| - 1])
  {
  }

  lemma SameKeySameEntry(list: seq<Completed>, x: Completed)
    requires StrictOrder(list) && x in list
    ensures SortKey(x) == SortKey(list[|list| - 1]) ==> x == list[|list| - 1]
  {
  }

  /** The checker's serial order does not depend on the order in which results were collected. */
  lemma SerialOrderIsPermutationFree(history: seq<Completed>, run: seq<Completed>)
    requires multiset(history) == multiset(run) && StrictOrder(CommittedOnly(run))
    ensures SerialOrder(history) == CommittedOnly(run)
  {
    PermutedCommits(history, run);
    SortSorts(CommittedOnly(history));
    var committed := CommittedOnly(history);
    PermutedKeysDiffer(CommittedOnly(run), committed);
    SortIsStrict(committed);
    StrictListsAgree(SortBySequence(committed), CommittedOnly(run));
  }

  lemma PermutedKeysDiffer(list: seq<Completed>, other: seq<Completed>)
    requires StrictOrder(list) && multiset(list) == multiset(other)
    ensures KeysDiffer(other)
  {
    forall i, j | 0 <= i < j < |other|
      ensures SortKey(other[i]) != SortKey(other[j])
    {
      assert other[i] in multiset(list) && other[j] in multiset(list);
      var p :| 0 <= p < |list| && list[p] == other[i];
      var q :| 0 <= q < |list| && list[q] == other[j];
      if p == q {
        TwiceCountsTwo(other, i, j);
        OnceCountsOne(list, p);
      }
    }
  }

  lemma TwiceCountsTwo(list: seq<Completed>, i: nat, j: nat)
    requires i < j < |list| && list[i] == list[j]
    ensures multiset(list)[list[i]] >= 2
  {
    assert list == list[..j] + [list[j]] + list[j + 1..];
    assert list[..j][i] == list[i];
    assert list[i] in multiset(list[..j]);
  }

  lemma OnceCountsOne(list: seq<Completed>, p: nat)
    requires StrictOrder(list) && p < |list|
    ensures multiset(list)[list[p]] == 1
  {
    assert list == list[..p] + [list[p]] + list[p + 1..];
    assert list[p] !in list[..p] && list[p] !in list[p + 1..];
    assert multiset(list[..p])[list[p]] == 0 && multiset(list[p + 1..])[list[p]] == 0;
  }

  // ---- one-shot runs and the history they produce ----

  predicate SetOnly(mutations: seq<Mutation>) {
    forall i :: 0 <= i < |mutations| ==> mutations[i].Set?
  }

  function SetsOf(mutations: seq<Mutation>): seq<Write>
    requires SetOnly(mutations)
  {
    seq(|mutations|, i requires 0 <= i < |mutations| => Write(mutations[i].key, mutations[i].value))
  }

  /** What the client of one attempt notes down. */
  datatype Attempt = Attempt(round: U64, observed: seq<Read>)

  /** A one-shot entry whose conflicts the authority decides and that only sets keys. */
  predicate Plain(entry: Entry) {
    entry.DirectEntry? && entry.transaction.resolution.None? && SetOnly(entry.transaction.mutations)
  }

  predicate PlainRun(t: Trace) {
    forall i :: 0 <= i < |t.entries| ==> Plain(t.entries[i])
  }

  /** Every key observed lies under a read conflict. */
  predicate CoversReads(tx: Transaction, observed: seq<Read>) {
    forall i :: 0 <= i < |observed| ==> CoveredBy(observed[i].key, tx.readConflicts)
  }

  /** The values are those of some earlier ledger whose readable sequence is the read version. */
  predicate ObservedAt(t: Trace, i: nat, observed: seq<Read>, e: nat)
    requires i < |t.entries| && t.entries[i].DirectEntry?
  {
    && e < |t.ledgers|
    && t.ledgers[e].domain.log.latestSequence == t.entries[i].transaction.readVersion.sequence
    && ReadsAgree(t.ledgers[e].domain.log.rows, observed)
  }

  predicate HonestlyObserved(t: Trace, i: nat, observed: seq<Read>)
    requires i < |t.entries| && t.entries[i].DirectEntry?
  {
    && CoversReads(t.entries[i].transaction, observed)
    && (observed != [] ==> exists e :: 0 <= e <= i && ObservedAt(t, i, observed, e))
  }

  /** Reads are honest and covered, and rounds follow one another. */
  predicate HonestAttempts(t: Trace, attempts: seq<Attempt>)
    requires PlainRun(t)
  {
    && |attempts| == |t.entries|
    && (forall i :: 0 <= i < |attempts| ==> HonestlyObserved(t, i, attempts[i].observed))
    && forall i, j :: 0 <= i < j < |attempts| ==> attempts[i].round <= attempts[j].round
  }

  function ResultOf(d: Domain, entry: Entry, attempt: Attempt): Completed
    requires Plain(entry)
  {
    var tx := entry.transaction;
    var committed := ApplyDirect(d, tx, entry.logIndex).status == Committed;
    Completed(
      Plan(attempt.round, tx.identity, tx.readVersion.sequence, attempt.observed, SetsOf(tx.mutations)), committed,
      if committed then Some(entry.logIndex) else None)
  }

  /** The results of the first `n` attempts, in run order. */
  function ResultsUpTo(t: Trace, attempts: seq<Attempt>, n: nat): (results: seq<Completed>)
    requires PlainRun(t) && |attempts| == |t.entries| && n <= |t.entries| < |t.ledgers|
    ensures |results| == n
  {
    hide ResultOf;
    seq(n, i requires 0 <= i < n => ResultOf(t.ledgers[i].domain, t.entries[i], attempts[i]))
  }

  // ---- plain runs are careful ----

  lemma PlainEvent(d: Domain, entry: Entry)
    requires Plain(entry)
    ensures var event := EventOf(d, entry);
            event == if ApplyDirect(d, entry.transaction, entry.logIndex).status == Committed
                     then CommitNow(entry.transaction, entry.logIndex) else Quiet
  {
    hide ApplyDirect, SetOnly;
  }

  lemma {:induction false} PlainRunsNeverStage(t: Trace, i: nat)
    requires IsRun(t)
    requires PlainRun(t) && i < |t.ledgers|
    ensures t.ledgers[i].domain.log.staged == []
    decreases i
  {
    hide IsRun, Step, EventOf, ApplyDirect, ValidRequest, CommittedConflict, ApplyMutations, WritesAt;
    RunStartsFresh(t);
    if i > 0 {
      PlainRunsNeverStage(t, i - 1);
      RunStep(t, i - 1);
      var d, entry := t.ledgers[i - 1].domain, t.entries[i - 1];
      StepIsEvent(d, entry);
      PlainEvent(d, entry);
    }
  }

  lemma PlainRunsAreCareful(t: Trace)
    requires IsRun(t)
    requires PlainRun(t)
    ensures IsCarefulRun(t)
  {
    hide IsRun, EventOf, ApplyDirect;
    RunStartsFresh(t);
    forall i | 0 <= i < |t.entries|
      ensures ProperAt(t, i) && TimelyAt(t, i)
    {
      PlainRunsNeverStage(t, i);
      PlainEvent(t.ledgers[i].domain, t.entries[i]);
    }
  }

  // ---- results mirror the committed history ----

  predicate MirrorsEntry(result: Completed, entry: HistoryEntry) {
    && result.sequence == Some(entry.sequence)
    && result.plan.readVersion == entry.transaction.readVersion.sequence
    && SetOnly(entry.transaction.mutations)
    && result.plan.sets == SetsOf(entry.transaction.mutations)
    && entry.transaction.resolution.None?
    && CoversReads(entry.transaction, result.plan.observed)
  }

  predicate Mirrors(list: seq<Completed>, history: seq<HistoryEntry>) {
    |list| == |history| && forall k :: 0 <= k < |list| ==> MirrorsEntry(list[k], history[k])
  }

  lemma PlainStep(t: Trace, i: nat)
    requires IsRun(t)
    requires PlainRun(t) && i < |t.entries|
    ensures Shaped(t)
    ensures var d, entry := t.ledgers[i].domain, t.entries[i];
            t.ledgers[i + 1].history == t.ledgers[i].history +
              if ApplyDirect(d, entry.transaction, entry.logIndex).status == Committed
              then [HistoryEntry(entry.transaction, entry.logIndex,
                                 DirectEnvelope(d.log, entry.transaction, entry.logIndex))]
              else []
  {
    hide IsRun, Orderly, GenerationsSettled, IndexBound, EventOf, Enabled, Happen, ApplyDirect, IsCarefulRun,
      IsOrderlyRun, SetOnly, DirectEnvelope, Step;
    PlainRunsAreCareful(t);
    CarefulRunIsOrderly(t);
    OrderlyRunStaysOrderly(t, i);
    var ledger, event := OrderlyStep(t, i);
    PlainEvent(t.ledgers[i].domain, t.entries[i]);
  }

  lemma {:induction false} CommitsMirrorHistory(t: Trace, attempts: seq<Attempt>, n: nat)
    requires IsRun(t)
    requires PlainRun(t) && HonestAttempts(t, attempts) && n <= |t.entries| < |t.ledgers|
    ensures Mirrors(CommittedOnly(ResultsUpTo(t, attempts, n)), t.ledgers[n].history)
    decreases n
  {
    hide IsRun, ApplyDirect, DirectEnvelope, ObservedAt, CoversReads, SetOnly, SetsOf;
    RunStartsFresh(t);
    if n > 0 {
      CommitsMirrorHistory(t, attempts, n - 1);
      PlainStep(t, n - 1);
      var results := ResultsUpTo(t, attempts, n);
      assert results[..n - 1] == ResultsUpTo(t, attempts, n - 1);
      assert Plain(t.entries[n - 1]) && HonestlyObserved(t, n - 1, attempts[n - 1].observed);
    }
  }

  // ---- replaying sets is replaying envelopes ----

  lemma {:induction false} SetsAreMutations(rows: Rows, mutations: seq<Mutation>)
    requires SetOnly(mutations)
    ensures ApplySets(rows, SetsOf(mutations)) == ApplyMutations(rows, mutations)
  {
    if mutations != [] {
      var n := |mutations| - 1;
      SetsAreMutations(rows, mutations[..n]);
      assert SetsOf(mutations)[..n] == SetsOf(mutations[..n]);
    }
  }

  lemma {:induction false} SerialIsReplay(list: seq<Completed>, log: CommitLog, history: seq<HistoryEntry>, k: nat)
    requires Mirrors(list, history) && Recorded(log, history) && WellFormed(log, history) && k <= |list|
    ensures Serial(list[..k]) == Replay(map[], log.committedEnvelopes[..k])
    decreases k
  {
    hide ValidRequest, ApplyMutations, ApplySets, SetsOf, SetOnly, CoversReads;
    if k > 0 {
      SerialIsReplay(list, log, history, k - 1);
      assert list[..k][..k - 1] == list[..k - 1];
      assert log.committedEnvelopes[..k][..k - 1] == log.committedEnvelopes[..k - 1];
      assert MirrorsEntry(list[k - 1], history[k - 1]) && Fits(history[k - 1]);
      SetsAreMutations(Serial(list[..k - 1]), history[k - 1].transaction.mutations);
    }
  }

  lemma MirrorIsStrict(list: seq<Completed>, log: CommitLog, history: seq<HistoryEntry>)
    requires Mirrors(list, history) && Numbered(log, history) && Isolated(log, history)
    ensures StrictlyNumbered(list) && StrictOrder(list)
    ensures forall k :: 0 <= k < |list| ==> list[k].plan.readVersion < list[k].sequence.value
  {
    hide SetOnly, SetsOf, CoversReads, IsolatedFrom;
    forall k | 0 <= k < |list|
      ensures list[k].sequence == Some(history[k].sequence)
      ensures list[k].plan.readVersion < history[k].sequence
    {
      assert MirrorsEntry(list[k], history[k]);
    }
  }

  // ---- the three checks ----

  /** Nothing read was overwritten between the read version and the commit. */
  lemma MirrorDependencies(list: seq<Completed>, log: CommitLog, history: seq<HistoryEntry>)
    requires Mirrors(list, history) && Numbered(log, history) && Isolated(log, history) && WellFormed(log, history)
    ensures AllDependenciesExact(list)
  {
    MirrorIsStrict(list, log, history);
    forall k, m | 0 <= k < |list| && 0 <= m < |list|
      ensures list[k].sequence.Some? && !Intervenes(list[m], list[k])
    {
      if Intervenes(list[m], list[k]) {
        MirrorMisses(list, log, history, m, k);
      }
    }
  }

  lemma MirrorMisses(list: seq<Completed>, log: CommitLog, history: seq<HistoryEntry>, m: nat, k: nat)
    requires Mirrors(list, history) && Isolated(log, history) && WellFormed(log, history)
    requires m < k < |list| && history[m].sequence > list[k].plan.readVersion
    ensures !WritesRead(list[m], list[k])
  {
    hide ValidRequest, CoveredBy, AnyOverlap;
    assert MirrorsEntry(list[m], history[m]) && MirrorsEntry(list[k], history[k]);
    assert IsolatedFrom(history[k].transaction, history[m]);
    var writer, reader := history[m].transaction, history[k].transaction;
    forall i, j | 0 <= i < |list[k].plan.observed| && 0 <= j < |list[m].plan.sets|
      ensures list[m].plan.sets[j].key != list[k].plan.observed[i].key
    {
      var key := list[k].plan.observed[i].key;
      assert CoveredBy(key, reader.readConflicts);
      DisjointWritesMissReads(writer, reader.readConflicts, key);
      assert !Mutates(writer.mutations, key);
      assert list[m].plan.sets[j].key == writer.mutations[j].key;
    }
  }

  lemma {:induction false} CommittedRoundsGrow(list: seq<Completed>)
    requires RespectsRounds(list)
    ensures RespectsRounds(CommittedOnly(list))
  {
    if list != [] {
      var n := |list| - 1;
      var front := CommittedOnly(list[..n]);
      CommittedRoundsGrow(list[..n]);
      CommittedMembers(list[..n]);
      forall i | 0 <= i < |front|
        ensures front[i].plan.round <= list[n].plan.round
      {
        assert front[i] in front;
        var k :| 0 <= k < n && list[..n][k] == front[i];
        assert list[k] == front[i];
      }
    }
  }

  lemma GrowingRoundsAreOrdered(list: seq<Completed>)
    requires RespectsRounds(list) && StrictOrder(list)
    ensures AllRoundsOrdered(list)
  {
  }

  /** The rows a ledger showed are the witness's last snapshot at its readable sequence. */
  lemma SnapshotIsLedgerRows(list: seq<Completed>, early: Ledger, late: Ledger)
    requires Extends(early, late) && Numbered(early.domain.log, early.history)
    requires Recorded(early.domain.log, early.history) && Recorded(late.domain.log, late.history)
    requires WellFormed(late.domain.log, late.history) && Numbered(late.domain.log, late.history)
    requires Mirrors(list, late.history) && Isolated(late.domain.log, late.history)
    ensures forall sequence :: IsLatest(Snapshots(list), early.domain.log.latestSequence, sequence) ==>
              Snapshots(list)[sequence] == early.domain.log.rows
  {
    hide WellFormed, Replay, RowsAt, Snapshots, Isolated, Serial;
    var log, version, cut := late.domain.log, early.domain.log.latestSequence, |early.history|;
    MirrorIsStrict(list, log, late.history);
    SnapshotRows(early, late);
    CutIsRowsAt(log, late.history, version, cut);
    SerialIsReplay(list, log, late.history, cut);
    CutOfMirror(list, early, late);
    forall sequence | IsLatest(Snapshots(list), version, sequence)
      ensures Snapshots(list)[sequence] == Serial(list[..cut])
    {
      SnapshotIsReplay(list, version, sequence, cut);
    }
  }

  lemma CutOfMirror(list: seq<Completed>, early: Ledger, late: Ledger)
    requires Extends(early, late) && Numbered(early.domain.log, early.history) && Mirrors(list, late.history)
    ensures |early.history| <= |list|
    ensures forall k :: 0 <= k < |list| ==>
              && list[k].sequence.Some?
              && (list[k].sequence.value <= early.domain.log.latestSequence <==> k < |early.history|)
  {
    hide SetOnly, SetsOf, CoversReads;
    forall k | 0 <= k < |list|
      ensures list[k].sequence == Some(late.history[k].sequence)
    {
      assert MirrorsEntry(list[k], late.history[k]);
    }
  }

  /** Every attempt, committed or not, observed what the witness's snapshot at its read version holds. */
  lemma AttemptReadsExact(t: Trace, attempts: seq<Attempt>, i: nat, list: seq<Completed>)
    requires IsCarefulRun(t)
    requires PlainRun(t) && HonestAttempts(t, attempts) && |t.ledgers| == |t.entries| + 1 && i < |t.entries|
    requires Mirrors(list, t.ledgers[|t.entries|].history)
    ensures ReadsExact(Snapshots(list), ResultOf(t.ledgers[i].domain, t.entries[i], attempts[i]))
  {
    hide IsCarefulRun, Invariant, GenerationsSettled, IndexBound, Numbered, Recorded, WellFormed, Isolated, Chained,
      Settled, AbortedStayOut, Snapshots, Mirrors, CoversReads, ApplyDirect, SetOnly, SetsOf, Extends;
    var last := |t.entries|;
    var version := t.entries[i].transaction.readVersion.sequence;
    assert HonestlyObserved(t, i, attempts[i].observed);
    ZeroIsKept(list);
    var latest := LatestExists(Snapshots(list).Keys, version);
    assert IsLatest(Snapshots(list), version, latest);
    if attempts[i].observed != [] {
      var e :| 0 <= e <= i && ObservedAt(t, i, attempts[i].observed, e);
      CarefulRunKeepsInvariant(t, e);
      CarefulRunKeepsInvariant(t, last);
      InvariantParts(t.ledgers[e].domain.log, t.ledgers[e].history);
      InvariantParts(t.ledgers[last].domain.log, t.ledgers[last].history);
      RunsExtend(t, e, last);
      SnapshotIsLedgerRows(list, t.ledgers[e], t.ledgers[last]);
    }
  }

  /**
  Refinement. Take any one-shot run with growing log indexes in which transactions only set keys, the
  authority itself decides conflicts, and every point read is honest and under a read conflict. However its
  results are collected, the checker accepts them.
  */
  lemma WitnessAcceptsRuns(t: Trace, attempts: seq<Attempt>, history: seq<Completed>)
    requires IsRun(t)
    requires PlainRun(t) && HonestAttempts(t, attempts) && |t.ledgers| == |t.entries| + 1
    requires multiset(history) == multiset(ResultsUpTo(t, attempts, |t.entries|))
    ensures Accepted(history)
  {
    hide IsRun, IsCarefulRun, Invariant, GenerationsSettled, IndexBound, Numbered, Recorded, WellFormed, Isolated,
      Chained, Settled, AbortedStayOut, Mirrors, HonestlyObserved, ResultOf, ReadsExact, SerialOrder, StrictOrder,
      RespectsRounds, AllDependenciesExact, AllRoundsOrdered, StrictlyNumbered;
    var last := |t.entries|;
    var results := ResultsUpTo(t, attempts, last);
    var list := CommittedOnly(results);
    PlainRunsAreCareful(t);
    CarefulRunKeepsInvariant(t, last);
    var log, commits := t.ledgers[last].domain.log, t.ledgers[last].history;
    InvariantParts(log, commits);
    CommitsMirrorHistory(t, attempts, last);
    MirrorIsStrict(list, log, commits);
    SerialOrderIsPermutationFree(history, results);
    MirrorDependencies(list, log, commits);
    ResultRoundsGrow(t, attempts);
    CommittedRoundsGrow(results);
    GrowingRoundsAreOrdered(list);
    forall k | 0 <= k < |history|
      ensures ReadsExact(Snapshots(list), history[k])
    {
      assert history[k] in multiset(results);
      var i :| 0 <= i < |results| && results[i] == history[k];
      AttemptReadsExact(t, attempts, i, list);
    }
  }

  lemma {:induction false} TwoPositions(list: seq<Completed>, x: Completed) returns (p: nat, q: nat)
    requires multiset(list)[x] >= 2
    ensures p < q < |list| && list[p] == list[q] == x
  {
    var n := |list| - 1;
    assert list == list[..n] + [list[n]];
    if list[n] == x {
      assert x in multiset(list[..n]);
      p :| 0 <= p < n && list[..n][p] == x;
      q := n;
    } else {
      p, q := TwoPositions(list[..n], x);
    }
  }

  lemma PermutedWellNumbered(list: seq<Completed>, other: seq<Completed>)
    requires WellNumbered(list) && multiset(list) == multiset(other)
    ensures WellNumbered(other)
  {
    forall i | 0 <= i < |other|
      ensures other[i] in list
    {
      assert other[i] in multiset(other);
    }
    forall i, j | 0 <= i < j < |other| && other[i].committed && other[j].committed
      ensures other[i].sequence != other[j].sequence
    {
      if other[i] == other[j] {
        TwiceCountsTwo(other, i, j);
        var p, q := TwoPositions(list, other[i]);
      } else {
        var p :| 0 <= p < |list| && list[p] == other[i];
        var q :| 0 <= q < |list| && list[q] == other[j];
        assert if p < q then list[p].sequence != list[q].sequence else list[q].sequence != list[p].sequence;
      }
    }
  }

  /** What a one-shot entry reports when it commits. */
  lemma CommittedResult(d: Domain, entry: Entry, attempt: Attempt)
    requires Plain(entry) && d.log.latestSequence < entry.logIndex
    ensures var result := ResultOf(d, entry, attempt);
            result.committed ==>
              result.sequence == Some(entry.logIndex) && result.plan.readVersion < entry.logIndex
  {
    hide SetOnly, SetsOf, ValidRequest, ContainsAll, CommittedConflict, CommitDirectly;
  }

  lemma ResultsWellNumbered(t: Trace, attempts: seq<Attempt>)
    requires IsRun(t)
    requires PlainRun(t) && |attempts| == |t.entries| && |t.ledgers| == |t.entries| + 1
    ensures WellNumbered(ResultsUpTo(t, attempts, |t.entries|))
  {
    var results := ResultsUpTo(t, attempts, |t.entries|);
    IndexesGrow(t);
    hide IsRun, ResultOf;
    forall i | 0 <= i < |results| && results[i].committed
      ensures results[i].sequence == Some(t.entries[i].logIndex)
      ensures results[i].plan.readVersion < t.entries[i].logIndex
    {
      LatestBelowIndex(t, i);
      CommittedResult(t.ledgers[i].domain, t.entries[i], attempts[i]);
    }
  }

  lemma LatestBelowIndex(t: Trace, i: nat)
    requires IsRun(t)
    requires PlainRun(t) && i < |t.entries|
    ensures Shaped(t) && t.ledgers[i].domain.log.latestSequence < t.entries[i].logIndex
  {
    IndexesGrow(t);
    hide IsRun, IsCarefulRun, IsOrderlyRun, Orderly, GenerationsSettled;
    RunStartsFresh(t);
    PlainRunsAreCareful(t);
    CarefulRunIsOrderly(t);
    OrderlyRunStaysOrderly(t, i);
  }

  lemma IndexesGrow(t: Trace)
    requires IsRun(t)
    ensures forall i :: 0 <= i < |t.entries| ==> t.entries[i].logIndex > 0
    ensures forall i, j :: 0 <= i < j < |t.entries| ==> t.entries[i].logIndex < t.entries[j].logIndex
  {
    hide StepsAt;
  }

  /** So replaying what such a run committed, in sequence order, gives every transaction the values it observed. */
  lemma RunsReplaySerially(t: Trace, attempts: seq<Attempt>, history: seq<Completed>)
    requires IsRun(t)
    requires PlainRun(t) && HonestAttempts(t, attempts) && |t.ledgers| == |t.entries| + 1
    requires multiset(history) == multiset(ResultsUpTo(t, attempts, |t.entries|))
    ensures ReplaysSerially(SerialOrder(history)) && RespectsRounds(SerialOrder(history))
  {
    hide IsRun, PlainRun, HonestlyObserved, Accepted, WellNumbered, ReplaysSerially, RespectsRounds, SerialOrder;
    WitnessAcceptsRuns(t, attempts, history);
    ResultsWellNumbered(t, attempts);
    PermutedWellNumbered(ResultsUpTo(t, attempts, |t.entries|), history);
    AcceptedHistoryIsSerializable(history);
  }

  lemma ResultRoundsGrow(t: Trace, attempts: seq<Attempt>)
    requires PlainRun(t) && HonestAttempts(t, attempts) && |t.ledgers| == |t.entries| + 1
    ensures RespectsRounds(ResultsUpTo(t, attempts, |t.entries|))
  {
    hide ApplyDirect, HonestlyObserved, SetsOf;
  }

  // ---- the envelope chain ----

  /** What the chain checker asks of one envelope beyond its link. */
  predicate PlainEnvelope(envelope: Envelope) {
    && Decodes(envelope)
    && envelope.logIndex == envelope.versionSequence
    && envelope.generation == envelope.versionGeneration
  }

  method ValidEnvelopeChain(envelopes: seq<Envelope>, expected: nat) returns (valid: bool)
    ensures valid <==>
              && |envelopes| == expected
              && IsChain(envelopes)
              && forall i :: 0 <= i < |envelopes| ==> PlainEnvelope(envelopes[i])
  {
    hide PlainEnvelope, IsChain, ChainAfter;
    if |envelopes| != expected {
      return false;
    }
    var previous := ZeroDigest;
    ChainStart();
    for i := 0 to |envelopes|
      invariant previous == ChainAfter(envelopes[..i])
      invariant IsChain(envelopes[..i])
      invariant forall j :: 0 <= j < i ==> PlainEnvelope(envelopes[j])
    {
      ChainNamesPrevious(envelopes, i);
      if !PlainEnvelope(envelopes[i]) || envelopes[i].previousLogChain != previous {
        return false;
      }
      CommitExtendsChain(envelopes[..i], envelopes[i]);
      assert envelopes[..i + 1] == envelopes[..i] + [envelopes[i]];
      previous := EnvelopeDigest(envelopes[i]);
    }
    assert envelopes[..|envelopes|] == envelopes;
    return true;
  }

  lemma ChainStart()
    ensures IsChain([]) && ChainAfter([]) == ZeroDigest
  {
  }

  lemma ChainNamesPrevious(envelopes: seq<Envelope>, i: nat)
    requires i < |envelopes|
    ensures IsChain(envelopes) ==> envelopes[i].previousLogChain == ChainAfter(envelopes[..i])
  {
  }

  lemma {:induction false} PlainRunEnvelopes(t: Trace, n: nat)
    requires IsRun(t)
    requires PlainRun(t) && n < |t.ledgers|
    ensures forall k :: 0 <= k < |t.ledgers[n].history| ==> PlainEnvelope(t.ledgers[n].history[k].envelope)
    decreases n
  {
    hide IsRun, ApplyDirect, PlainEnvelope, DirectEnvelope, SetOnly;
    RunStartsFresh(t);
    if n > 0 {
      PlainRunEnvelopes(t, n - 1);
      PlainStep(t, n - 1);
      CommittedEnvelopeIsPlain(t.ledgers[n - 1].domain, t.entries[n - 1]);
    }
  }

  lemma CommittedEnvelopeIsPlain(d: Domain, entry: Entry)
    requires Plain(entry)
    ensures ApplyDirect(d, entry.transaction, entry.logIndex).status == Committed ==>
              PlainEnvelope(DirectEnvelope(d.log, entry.transaction, entry.logIndex))
  {
    hide ValidRequest, CommittedConflict, ContainsAll, Commit, SetOnly;
  }

  /** The chain checker accepts the committed envelopes of every such run. */
  lemma ChainAcceptsRuns(t: Trace)
    requires IsRun(t)
    requires PlainRun(t) && |t.ledgers| == |t.entries| + 1
    ensures var envelopes := t.ledgers[|t.entries|].domain.log.committedEnvelopes;
            IsChain(envelopes) && forall i :: 0 <= i < |envelopes| ==> PlainEnvelope(envelopes[i])
  {
    hide IsRun, IsCarefulRun, Invariant, GenerationsSettled, IndexBound, Numbered, WellFormed, Isolated, Settled,
      AbortedStayOut, PlainEnvelope, IsChain, Replay;
    PlainRunsAreCareful(t);
    CarefulRunKeepsInvariant(t, |t.entries|);
    InvariantParts(t.ledgers[|t.entries|].domain.log, t.ledgers[|t.entries|].history);
    PlainRunEnvelopes(t, |t.entries|);
  }
}
