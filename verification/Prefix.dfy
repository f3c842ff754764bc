/** Recovery of a staged window: exactly its longest quorum-present prefix survives a takeover. */
module Prefix {
  import opened Types
  import opened Certificates
  import opened Ordering
  import opened Domain
  import opened History
  import opened Events
  import opened Runs
  import opened Ledgers
  import opened Guarantees
  import Generation

  /**
  `count` is the length of the longest prefix present on a quorum everywhere; the record after it is provably absent.
  */
  predicate LongestPresentPrefix(
    policies: map<U16, LogSetPolicy>, inventories: seq<PrefixFenceCertificate>, records: seq<WindowRecord>, count: nat)
  {
    && count <= |records|
    && (forall x :: 0 <= x < count ==> PresentEverywhere(policies, inventories, records[x]))
    && (count < |records| ==>
          !PresentEverywhere(policies, inventories, records[count])
          && AbsentSomewhere(policies, inventories, records[count]))
  }

  lemma {:induction false} ScanFindsLongest(
    policies: map<U16, LogSetPolicy>, inventories: seq<PrefixFenceCertificate>, records: seq<WindowRecord>, from: nat)
    requires from <= |records|
    requires forall x :: 0 <= x < from ==> PresentEverywhere(policies, inventories, records[x])
    ensures var count := RecoverableCount(policies, inventories, records, from);
            count.Some? ==> LongestPresentPrefix(policies, inventories, records, count.value)
    decreases |records| - from
  {
    hide PresentEverywhere, AbsentSomewhere, Unambiguous;
    if from < |records| && PresentEverywhere(policies, inventories, records[from]) {
      ScanFindsLongest(policies, inventories, records, from + 1);
    }
  }

  /**
  A record of the window is published exactly when it and every record before it is present on a quorum
  everywhere: being present itself is not enough behind a gap.
  */
  lemma PublishedIffPrefixPresent(
    policies: map<U16, LogSetPolicy>, inventories: seq<PrefixFenceCertificate>, records: seq<WindowRecord>, count: nat,
    x: nat)
    requires LongestPresentPrefix(policies, inventories, records, count) && x < |records|
    ensures x < count <==> forall y :: 0 <= y <= x ==> PresentEverywhere(policies, inventories, records[y])
  {
    hide PresentEverywhere, AbsentSomewhere;
    if x >= count {
      assert !PresentEverywhere(policies, inventories, records[count]);
    }
  }

  /** What disposing of the tail from `k` does to each record and to the committed history. */
  predicate Disposed(before: CommitLog, after: CommitLog, k: nat, count: nat) {
    && k + count <= |before.staged| == |after.staged|
    && (forall i :: 0 <= i < |before.staged| ==>
          after.staged[i] ==
            if i < k then before.staged[i]
            else if i < k + count then before.staged[i].(visible := true)
            else before.staged[i].(aborted := true))
    && after.committedEnvelopes == before.committedEnvelopes + StagedEnvelopes(before.staged, k, k + count)
  }

  function StagedEnvelopes(staged: seq<StagedTransaction>, from: nat, upTo: nat): seq<Envelope>
    requires from <= upTo <= |staged|
  {
    seq(upTo - from, x requires 0 <= x < upTo - from => staged[from + x].envelope)
  }

  lemma {:induction false} PublishRangeEnvelopes(log: CommitLog, from: nat, upTo: nat, generation: U64)
    requires from <= upTo <= |log.staged|
    ensures PublishRange(log, from, upTo, generation).committedEnvelopes
            == log.committedEnvelopes + StagedEnvelopes(log.staged, from, upTo)
    decreases upTo
  {
    hide ApplyMutations, WritesAt;
    if from < upTo {
      PublishRangeEnvelopes(log, from, upTo - 1, generation);
      PublishRangePointwise(log, from, upTo - 1, generation);
      assert StagedEnvelopes(log.staged, from, upTo)
             == StagedEnvelopes(log.staged, from, upTo - 1) + [log.staged[upTo - 1].envelope];
    }
  }

  lemma DisposeIsExact(log: CommitLog, indexes: seq<nat>, k: nat, count: nat, generation: U64)
    requires InRange(log.staged, indexes) && count <= |indexes|
    requires UnresolvedFrom(log.staged, k) && indexes == UnresolvedIndexes(log.staged)
    ensures Disposed(log, Dispose(log, indexes, count, generation), k, count)
    ensures forall x :: 0 <= x < |indexes| ==> indexes[x] == k + x
    ensures |indexes| == |log.staged| - k
  {
    hide Dispose, PublishRange, AbortRange, UnresolvedIndexes;
    UnresolvedIndexesOfTail(log.staged, k);
    DisposeTail(log, indexes, k, count, generation);
    PublishRangePointwise(log, k, k + count, generation);
    PublishRangeEnvelopes(log, k, k + count, generation);
    AbortRangePointwise(PublishRange(log, k, k + count, generation), k + count, |log.staged|);
  }

  /** From `k` on, the first `count` records are visible only and the others aborted only. */
  predicate SplitAt(staged: seq<StagedTransaction>, k: nat, count: nat) {
    forall i :: k <= i < |staged| ==> staged[i].visible == (i < k + count) && staged[i].aborted == (i >= k + count)
  }

  lemma {:induction false} CountsOfDisposed(staged: seq<StagedTransaction>, indexes: seq<nat>, k: nat, count: nat)
    requires InRange(staged, indexes) && SplitAt(staged, k, count)
    requires forall x :: 0 <= x < |indexes| ==> indexes[x] == k + x
    ensures CountVisible(staged, indexes) == if |indexes| < count then |indexes| else count
    ensures CountVisible(staged, indexes) + CountAborted(staged, indexes) == |indexes|
  {
    if indexes != [] {
      CountsOfDisposed(staged, indexes[..|indexes| - 1], k, count);
    }
  }

  /**
  Prefix recovery is exact. When it succeeds it publishes, in order, precisely the longest window prefix
  present on a quorum of every required log set, aborts precisely the rest, leaves nothing unresolved,
  and reports both counts; the window was everything unresolved. Otherwise the domain is unchanged.
  */
  lemma PrefixRecoveryIsExact(d: Domain, command: StagedCommand, authority: Generation.Authority)
    returns (k: nat, count: nat)
    requires command.action.TakeoverRecoverPrefix?
    requires Settled(d.log.staged)
    ensures var outcome := ApplyRecoverPrefix(d, command, authority);
            if outcome.status != PrefixRecovered then outcome.domain == d
            else
              var records := command.action.window.records;
              && UnresolvedFrom(d.log.staged, k)
              && |records| == |d.log.staged| - k
              && LongestPresentPrefix(d.policies, command.action.inventories, records, count)
              && Disposed(d.log, outcome.domain.log, k, count)
              && outcome.domain == d.(log := outcome.domain.log)
              && outcome.domain.log.generation == command.generation
              && NothingUnresolved(outcome.domain.log.staged)
              && outcome.recovered == count
              && outcome.aborted == |records| - count
  {
    hide Dispose, RecoverableCount, Settled, ApplyRecoverPrefix, Enabled, Happen;
    k, count := 0, 0;
    var outcome := ApplyRecoverPrefix(d, command, authority);
    RecoverReply(d, command, authority);
    if outcome.status == PrefixRecovered {
      var records := command.action.window.records;
      var indexes := WindowIndexes(d.log.staged, records);
      RecoverableBound(d.policies, command.action.inventories, records, 0);
      ScanFindsLongest(d.policies, command.action.inventories, records, 0);
      k := TailBoundary(d.log.staged);
      count := RecoverableCount(d.policies, command.action.inventories, records, 0).value;
      hide UnresolvedIndexes, CountVisible, CountAborted, PresentEverywhere, AbsentSomewhere, Find, UnresolvedFrom,
        Disposed, LongestPresentPrefix, SplitAt, NothingUnresolved;
      DisposeIsExact(d.log, indexes, k, count, command.generation);
      var disposed := Dispose(d.log, indexes, count, command.generation);
      DisposedIsSplit(d.log, disposed, k, count);
      CountsOfDisposed(disposed.staged, indexes, k, count);
      DisposedKeepsGeneration(d.log, disposed, k, count, command.generation);
    }
  }

  lemma DisposedKeepsGeneration(log: CommitLog, disposed: CommitLog, k: nat, count: nat, generation: U64)
    requires Disposed(log, disposed, k, count)
    ensures Disposed(log, disposed.(generation := generation), k, count)
  {
  }

  /** What a prefix recovery replies, in terms of the scan and the disposal. */
  lemma RecoverReply(d: Domain, command: StagedCommand, authority: Generation.Authority)
    requires command.action.TakeoverRecoverPrefix?
    ensures var outcome, records := ApplyRecoverPrefix(d, command, authority), command.action.window.records;
            var indexes := WindowIndexes(d.log.staged, records);
            var scan := RecoverableCount(d.policies, command.action.inventories, records, 0);
            if outcome.status != PrefixRecovered then outcome.domain == d
            else
              && PrefixRequestValid(d, command, authority)
              && scan.Some?
              && InRange(d.log.staged, indexes)
              && indexes == UnresolvedIndexes(d.log.staged)
              && scan.value <= |indexes|
              && var log := Dispose(d.log, indexes, scan.value, command.generation);
              && outcome.domain == d.(log := log.(generation := command.generation))
              && outcome.recovered == CountVisible(log.staged, indexes)
              && outcome.aborted == CountAborted(log.staged, indexes)
  {
    hide SuccessorAuthorized, ValidWindow, ChainExact, InventoriesValid, RecoverableCount, Dispose, UnresolvedIndexes,
      TotalBytes, CountVisible, CountAborted, TagsAgree, Find;
    RecoverableBound(d.policies, command.action.inventories, command.action.window.records, 0);
  }

  lemma DisposedIsSplit(log: CommitLog, after: CommitLog, k: nat, count: nat)
    requires UnresolvedFrom(log.staged, k) && Disposed(log, after, k, count)
    ensures SplitAt(after.staged, k, count) && NothingUnresolved(after.staged)
  {
  }

  // ---- retries ----

  lemma FindIsKept(before: seq<StagedTransaction>, after: seq<StagedTransaction>, identity: Identity)
    requires Advances(before, after) && Find(before, identity) < |before|
    ensures Find(after, identity) == Find(before, identity)
  {
  }

  lemma IndexesAreKept(before: seq<StagedTransaction>, after: seq<StagedTransaction>, records: seq<WindowRecord>)
    requires Advances(before, after) && InRange(before, WindowIndexes(before, records))
    ensures WindowIndexes(after, records) == WindowIndexes(before, records)
  {
    forall k | 0 <= k < |records|
      ensures WindowIndexes(after, records)[k] == WindowIndexes(before, records)[k]
    {
      assert WindowIndexes(before, records)[k] < |before|;
      FindIsKept(before, after, records[k].transactionIdentity);
    }
  }

  lemma {:induction false} CountsAreKept(
    before: seq<StagedTransaction>, after: seq<StagedTransaction>, indexes: seq<nat>)
    requires Advances(before, after) && Settled(after) && NothingUnresolved(before)
    requires InRange(before, indexes) && InRange(after, indexes)
    ensures CountVisible(after, indexes) == CountVisible(before, indexes)
    ensures CountAborted(after, indexes) == CountAborted(before, indexes)
  {
    if indexes != [] {
      var n := |indexes| - 1;
      CountsAreKept(before, after, indexes[..n]);
      assert !Unresolved(before[indexes[n]]);
    }
  }

  /** The three replies of a prefix recovery. */
  lemma RecoverCases(d: Domain, command: StagedCommand, authority: Generation.Authority)
    requires command.action.TakeoverRecoverPrefix?
    ensures var outcome, indexes :=
              ApplyRecoverPrefix(d, command, authority), WindowIndexes(d.log.staged, command.action.window.records);
            match outcome.status
            case PrefixRecovered =>
              && InRange(d.log.staged, indexes)
              && indexes != []
              && indexes == UnresolvedIndexes(d.log.staged)
              && d.log.generation == command.action.previousGeneration
              && command.generation == Successor(d.log.generation)
            case AlreadyPrefixRecovered =>
              && InRange(d.log.staged, indexes)
              && outcome == Outcome(
                   d, AlreadyPrefixRecovered, CountVisible(d.log.staged, indexes), CountAborted(d.log.staged, indexes))
            case status => outcome == Reply(d, InvalidStagedPrefix)
  {
    hide SuccessorAuthorized, ValidWindow, ChainExact, InventoriesValid, RecoverableCount, Dispose, UnresolvedIndexes,
      TotalBytes, CountVisible, CountAborted, Find;
  }

  /** On a domain where the window is settled, the same command changes nothing and can only report what was settled. */
  lemma RetryReports(
    settled: CommitLog, late: Domain, command: StagedCommand, authority: Generation.Authority, indexes: seq<nat>)
    requires command.action.TakeoverRecoverPrefix?
    requires Advances(settled.staged, late.log.staged) && Settled(late.log.staged)
    requires NothingUnresolved(settled.staged)
    requires indexes == WindowIndexes(settled.staged, command.action.window.records)
    requires InRange(settled.staged, indexes)
    ensures var retry := ApplyRecoverPrefix(late, command, authority);
            || retry == Reply(late, InvalidStagedPrefix)
            || retry == Outcome(
                 late, AlreadyPrefixRecovered, CountVisible(settled.staged, indexes),
                 CountAborted(settled.staged, indexes))
  {
    hide ApplyRecoverPrefix, WindowIndexes, UnresolvedIndexes, CountVisible, CountAborted, Settled;
    RecoverCases(late, command, authority);
    IndexesAreKept(settled.staged, late.log.staged, command.action.window.records);
    assert InRange(late.log.staged, indexes);
    CountsAreKept(settled.staged, late.log.staged, indexes);
    if ApplyRecoverPrefix(late, command, authority).status == PrefixRecovered {
      var first := indexes[0];
      assert !Unresolved(settled.staged[first]);
      UnresolvedIndexesAreUnresolved(late.log.staged, first);
    }
  }

  /**
  Retries agree. Once a recovery succeeded in an orderly run, the same command at any later point of the
  run, under whatever authority, leaves the domain alone, and when accepted reports the same counts.
  */
  lemma RetriesReportTheSameCounts(t: Trace, i: nat, j: nat, authority: Generation.Authority)
    requires IsOrderlyRun(t)
    requires i < j < |t.ledgers| && i < |t.entries|
    requires t.entries[i].StagedEntry? && t.entries[i].command.action.TakeoverRecoverPrefix?
    requires var domain := t.ledgers[i].domain;
             ApplyRecoverPrefix(domain, t.entries[i].command, t.entries[i].authority).status == PrefixRecovered
    ensures var first := ApplyRecoverPrefix(t.ledgers[i].domain, t.entries[i].command, t.entries[i].authority);
            var late := t.ledgers[j].domain;
            var retry := ApplyRecoverPrefix(late, t.entries[i].command, authority);
            || retry == Reply(late, InvalidStagedPrefix)
            || retry == Outcome(late, AlreadyPrefixRecovered, first.recovered, first.aborted)
  {
    hide IsOrderlyRun, ApplyRecoverPrefix, Orderly, GenerationsSettled, IndexBound, Disposed, LongestPresentPrefix,
      Settled, NothingUnresolved, Advances, WindowIndexes, CountVisible, CountAborted, UnresolvedFrom;
    var command := t.entries[i].command;
    OrderlyRunStaysOrderly(t, i);
    OrderlyRunStaysOrderly(t, j);
    OrderlyParts(t.ledgers[i].domain.log, t.ledgers[i].history);
    OrderlyParts(t.ledgers[j].domain.log, t.ledgers[j].history);
    OrderlyRunIsRun(t);
    RunsAdvance(t, i, i + 1);
    RunsAdvance(t, i + 1, j);
    RecoverStep(t, i);
    var k, count := PrefixRecoveryIsExact(t.ledgers[i].domain, command, t.entries[i].authority);
    RecoverReply(t.ledgers[i].domain, command, t.entries[i].authority);
    var indexes := WindowIndexes(t.ledgers[i].domain.log.staged, command.action.window.records);
    IndexesAreKept(
      t.ledgers[i].domain.log.staged, t.ledgers[i + 1].domain.log.staged, command.action.window.records);
    RetryReports(t.ledgers[i + 1].domain.log, t.ledgers[j].domain, command, authority, indexes);
  }

  /** In a run, a recovery that succeeds is the step. */
  lemma RecoverStep(t: Trace, i: nat)
    requires IsRun(t)
    requires i < |t.entries| && t.entries[i].StagedEntry? && t.entries[i].command.action.TakeoverRecoverPrefix?
    requires var domain := t.ledgers[i].domain;
             ApplyRecoverPrefix(domain, t.entries[i].command, t.entries[i].authority).status == PrefixRecovered
    ensures t.ledgers[i + 1].domain
            == ApplyRecoverPrefix(t.ledgers[i].domain, t.entries[i].command, t.entries[i].authority).domain
  {
    hide Step, ApplyRecoverPrefix, IsRun;
    RunStep(t, i);
    RecoverIsDispatched(
      t.ledgers[i].domain, t.entries[i].logIndex, t.entries[i].command, t.entries[i].authority);
  }

  lemma RecoverIsDispatched(d: Domain, logIndex: U64, command: StagedCommand, authority: Generation.Authority)
    requires command.action.TakeoverRecoverPrefix?
    requires ApplyRecoverPrefix(d, command, authority).status == PrefixRecovered
    ensures Step(d, StagedEntry(logIndex, command, authority)) == ApplyRecoverPrefix(d, command, authority).domain
  {
    hide ApplyRecoverPrefix;
    RecoverCases(d, command, authority);
  }
}
