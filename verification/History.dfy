/**
The invariant of the ordering core. `history` lists, oldest first, the transactions whose envelopes
were committed; the core's fields are tied to it clause by clause.
*/
module History {
  import opened Keys
  import opened Types
  import opened Ordering

  datatype HistoryEntry = HistoryEntry(transaction: Transaction, sequence: U64, envelope: Envelope)

  function EntryOf(record: StagedTransaction): HistoryEntry {
    HistoryEntry(record.transaction, record.sequence, record.envelope)
  }

  /** Rows after applying the mutations of a list of envelopes, in order. */
  function Replay(base: Rows, envelopes: seq<Envelope>): Rows {
    if envelopes == [] then base
    else
      var n := |envelopes| - 1;
      ApplyMutations(Replay(base, envelopes[..n]), envelopes[n].mutations)
  }

  /** The envelope carries its transaction's identity, mutations and write conflicts, and its sequence. */
  predicate Fits(entry: HistoryEntry) {
    && entry.envelope.versionSequence == entry.sequence
    && entry.envelope.generation == entry.transaction.generation
    && entry.envelope.identity == entry.transaction.identity
    && entry.envelope.mutations == entry.transaction.mutations
    && entry.envelope.writeConflicts == entry.transaction.writeConflicts
  }

  // ---- the clauses ----

  /** Sequences grow: committed ones are readable and numbered, unresolved ones lie beyond all committed ones. */
  predicate Numbered(log: CommitLog, history: seq<HistoryEntry>) {
    && (forall m, n :: 0 <= m < n < |history| ==> history[m].sequence < history[n].sequence)
    && (forall n :: 0 <= n < |history| ==> history[n].sequence <= log.latestSequence)
    && (forall n :: 0 <= n < |history| ==> history[n].sequence <= LastNumber(log))
    && (forall i, j :: 0 <= i < j < |log.staged| ==> log.staged[i].sequence < log.staged[j].sequence)
    && (forall i, n :: 0 <= i < |log.staged| && Unresolved(log.staged[i]) && 0 <= n < |history| ==>
          history[n].sequence < log.staged[i].sequence)
  }

  /** Unresolved sequences lie beyond everything readable, but for the records in `late`. */
  predicate Ahead(log: CommitLog, late: set<nat>) {
    forall i :: 0 <= i < |log.staged| && Unresolved(log.staged[i]) && i !in late ==>
      log.staged[i].sequence > log.latestSequence
  }

  /** The sequence of an aborted record is nowhere in the history. */
  predicate AbortedStayOut(log: CommitLog, history: seq<HistoryEntry>) {
    forall i, n :: 0 <= i < |log.staged| && log.staged[i].aborted && 0 <= n < |history| ==>
      history[n].sequence != log.staged[i].sequence
  }

  /** Outcomes are settled from the front, and no record has two of them. */
  predicate Settled(staged: seq<StagedTransaction>) {
    && (forall i, j :: 0 <= i < j < |staged| && Unresolved(staged[i]) ==> Unresolved(staged[j]))
    && (forall i :: 0 <= i < |staged| ==> !(staged[i].visible && staged[i].aborted))
  }

  /** Every committed write range is on record with its sequence. */
  predicate WritesRecorded(log: CommitLog, history: seq<HistoryEntry>) {
    forall n, k :: 0 <= n < |history| && 0 <= k < |history[n].transaction.writeConflicts| ==>
      CommittedWrite(history[n].sequence, history[n].transaction.writeConflicts[k]) in log.committedWrites
  }

  /** Committed envelopes are the history's, and the rows are what they replay to. */
  predicate Recorded(log: CommitLog, history: seq<HistoryEntry>) {
    && |log.committedEnvelopes| == |history|
    && (forall n :: 0 <= n < |history| ==> log.committedEnvelopes[n] == history[n].envelope)
    && log.rows == Replay(map[], log.committedEnvelopes)
  }

  /** Every transaction in play passed validation and its envelope describes it. */
  predicate WellFormed(log: CommitLog, history: seq<HistoryEntry>) {
    && (forall n :: 0 <= n < |history| ==> Fits(history[n]) && ValidRequest(history[n].transaction))
    && (forall i :: 0 <= i < |log.staged| ==>
          && Fits(EntryOf(log.staged[i]))
          && log.staged[i].identity == log.staged[i].transaction.identity
          && ValidRequest(log.staged[i].transaction)
          && (log.staged[i].visible ==> EntryOf(log.staged[i]) in history))
  }

  /** What the next committed envelope must name as its predecessor. */
  function ChainAfter(envelopes: seq<Envelope>): Digest {
    if envelopes == [] then ZeroDigest else EnvelopeDigest(envelopes[|envelopes| - 1])
  }

  /** Each envelope names the digest of the one before it, the first one the zero digest. */
  predicate IsChain(envelopes: seq<Envelope>) {
    forall n :: 0 <= n < |envelopes| ==> envelopes[n].previousLogChain == ChainAfter(envelopes[..n])
  }

  /** What staged envelope `j` must name as its predecessor while it is unresolved. */
  function StagedLink(log: CommitLog, j: nat): Digest
    requires j < |log.staged|
  {
    if j > 0 && Unresolved(log.staged[j - 1]) then EnvelopeDigest(log.staged[j - 1].envelope)
    else log.previousLogChain
  }

  /** Unresolved envelopes extend the committed chain in order. */
  predicate StagedLinked(log: CommitLog) {
    forall j :: 0 <= j < |log.staged| && Unresolved(log.staged[j]) ==>
      log.staged[j].envelope.previousLogChain == StagedLink(log, j)
  }

  /** Digest of the last visible staged envelope, or `committed` when none is visible. */
  function VisibleTip(staged: seq<StagedTransaction>, committed: Digest): Digest {
    if staged == [] then committed
    else
      var last := staged[|staged| - 1];
      if last.visible then EnvelopeDigest(last.envelope) else VisibleTip(staged[..|staged| - 1], committed)
  }

  /** Committed envelopes form one hash chain, and staged ones extend it. */
  predicate Chained(log: CommitLog) {
    && IsChain(log.committedEnvelopes)
    && log.previousLogChain == ChainAfter(log.committedEnvelopes)
    && VisibleTip(log.staged, log.previousLogChain) == log.previousLogChain
    && StagedLinked(log)
  }

  /** A read version lies below the commit, and no write between the two overlaps a read. */
  predicate IsolatedFrom(later: Transaction, earlier: HistoryEntry) {
    later.resolution.None? && earlier.sequence > later.readVersion.sequence ==>
      !AnyOverlap(later.readConflicts, earlier.transaction.writeConflicts)
  }

  predicate Isolated(log: CommitLog, history: seq<HistoryEntry>) {
    && (forall n :: 0 <= n < |history| ==> history[n].transaction.readVersion.sequence < history[n].sequence)
    && (forall m, n :: 0 <= m < n < |history| ==> IsolatedFrom(history[n].transaction, history[m]))
    && (forall j, m :: 0 <= j < |log.staged| && Unresolved(log.staged[j]) && 0 <= m < |history| ==>
          IsolatedFrom(log.staged[j].transaction, history[m]))
    && (forall j :: 0 <= j < |log.staged| && Unresolved(log.staged[j]) ==>
          log.staged[j].transaction.readVersion.sequence < log.staged[j].sequence)
    && (forall i, j :: 0 <= i < j < |log.staged| && Unresolved(log.staged[i]) && Unresolved(log.staged[j]) ==>
          IsolatedFrom(log.staged[j].transaction, EntryOf(log.staged[i])))
  }

  /** What every orderly run keeps: numbering, outcomes, records and the chain. */
  predicate Orderly(log: CommitLog, history: seq<HistoryEntry>) {
    && Numbered(log, history)
    && Settled(log.staged)
    && AbortedStayOut(log, history)
    && WritesRecorded(log, history)
    && Recorded(log, history)
    && WellFormed(log, history)
    && Chained(log)
  }

  /** What careful runs keep on top: staged numbers ahead of readers, and isolation. */
  predicate Invariant(log: CommitLog, history: seq<HistoryEntry>) {
    Orderly(log, history) && Ahead(log, {}) && Isolated(log, history)
  }

  // ---- committing one transaction, staged or not ----

  lemma CommitRecords(log: CommitLog, history: seq<HistoryEntry>, entry: HistoryEntry, generation: U64)
    requires WritesRecorded(log, history) && Recorded(log, history) && Fits(entry)
    ensures var next := Commit(log, entry.transaction, entry.sequence, entry.envelope, generation);
            WritesRecorded(next, history + [entry]) && Recorded(next, history + [entry])
  {
    var tx, writeRanges := entry.transaction, entry.transaction.writeConflicts;
    var next := Commit(log, tx, entry.sequence, entry.envelope, generation);
    var added := WritesAt(writeRanges, entry.sequence);
    forall k | 0 <= k < |writeRanges|
      ensures CommittedWrite(entry.sequence, writeRanges[k]) in next.committedWrites
    {
      assert added[k] == CommittedWrite(entry.sequence, writeRanges[k]);
      assert next.committedWrites[|log.committedWrites| + k] == added[k];
    }
    assert next.committedEnvelopes[..|log.committedEnvelopes|] == log.committedEnvelopes;
  }

  lemma CommitExtendsChain(envelopes: seq<Envelope>, envelope: Envelope)
    requires IsChain(envelopes) && envelope.previousLogChain == ChainAfter(envelopes)
    ensures IsChain(envelopes + [envelope])
    ensures ChainAfter(envelopes + [envelope]) == EnvelopeDigest(envelope)
  {
    var extended := envelopes + [envelope];
    forall n | 0 <= n < |extended|
      ensures extended[n].previousLogChain == ChainAfter(extended[..n])
    {
      assert extended[..n] == envelopes[..n];
      assert envelopes[..|envelopes|] == envelopes;
    }
  }

  // ---- publishing the first unresolved record ----

  predicate FirstUnresolved(staged: seq<StagedTransaction>, i: nat) {
    && i < |staged|
    && Unresolved(staged[i])
    && forall j :: 0 <= j < i ==> !Unresolved(staged[j])
  }

  lemma PublishKeepsOrder(log: CommitLog, history: seq<HistoryEntry>, i: nat, generation: U64)
    requires Numbered(log, history) && Settled(log.staged) && FirstUnresolved(log.staged, i)
    ensures Numbered(Publish(log, i, generation), history + [EntryOf(log.staged[i])])
    ensures Settled(Publish(log, i, generation).staged) && Ahead(Publish(log, i, generation), {})
  {
    hide ApplyMutations, WritesAt;
  }

  lemma PublishKeepsAbortedOut(log: CommitLog, history: seq<HistoryEntry>, i: nat, generation: U64)
    requires Numbered(log, history) && AbortedStayOut(log, history) && i < |log.staged| && Unresolved(log.staged[i])
    ensures AbortedStayOut(Publish(log, i, generation), history + [EntryOf(log.staged[i])])
  {
    hide ApplyMutations, WritesAt;
  }

  lemma PublishKeepsWellFormed(log: CommitLog, history: seq<HistoryEntry>, i: nat, generation: U64)
    requires WellFormed(log, history) && i < |log.staged|
    ensures WellFormed(Publish(log, i, generation), history + [EntryOf(log.staged[i])])
  {
    hide ValidRequest, Fits;
    var next, extended := Publish(log, i, generation), history + [EntryOf(log.staged[i])];
    assert extended[|history|] == EntryOf(log.staged[i]);
    forall j | 0 <= j < |next.staged| && next.staged[j].visible
      ensures EntryOf(next.staged[j]) in extended
    {
      if j != i {
        assert EntryOf(log.staged[j]) in history;
      }
    }
  }

  lemma {:induction false} TipIsLastVisible(staged: seq<StagedTransaction>, committed: Digest, i: nat)
    requires i < |staged| && staged[i].visible
    requires forall j :: i < j < |staged| ==> !staged[j].visible
    ensures VisibleTip(staged, committed) == EnvelopeDigest(staged[i].envelope)
  {
    if i < |staged| - 1 {
      TipIsLastVisible(staged[..|staged| - 1], committed, i);
    }
  }

  lemma PublishKeepsLinks(log: CommitLog, i: nat, generation: U64)
    requires StagedLinked(log) && Settled(log.staged) && FirstUnresolved(log.staged, i)
    ensures StagedLinked(Publish(log, i, generation))
    ensures log.staged[i].envelope.previousLogChain == log.previousLogChain
  {
    assert StagedLink(log, i) == log.previousLogChain;
    var next := Publish(log, i, generation);
    forall j | 0 <= j < |next.staged| && Unresolved(next.staged[j])
      ensures next.staged[j].envelope.previousLogChain == StagedLink(next, j)
    {
      assert j > i && next.staged[j] == log.staged[j];
      assert Unresolved(log.staged[j - 1]);
    }
  }

  lemma PublishKeepsChain(log: CommitLog, i: nat, generation: U64)
    requires Chained(log) && Settled(log.staged) && FirstUnresolved(log.staged, i)
    ensures Chained(Publish(log, i, generation))
  {
    hide StagedLinked, IsChain;
    PublishKeepsLinks(log, i, generation);
    CommitExtendsChain(log.committedEnvelopes, log.staged[i].envelope);
    var next := Publish(log, i, generation);
    TipIsLastVisible(next.staged, next.previousLogChain, i);
  }

  lemma PublishKeepsIsolation(log: CommitLog, history: seq<HistoryEntry>, i: nat, generation: U64)
    requires FirstUnresolved(log.staged, i)
    ensures Isolated(log, history) ==> Isolated(Publish(log, i, generation), history + [EntryOf(log.staged[i])])
  {
    hide IsolatedFrom, ApplyMutations, WritesAt;
  }

  /** Publishing the first unresolved record keeps the run orderly and adds it to the history. */
  lemma PublishKeepsOrderly(log: CommitLog, history: seq<HistoryEntry>, i: nat, generation: U64)
    requires Orderly(log, history) && FirstUnresolved(log.staged, i)
    ensures Orderly(Publish(log, i, generation), history + [EntryOf(log.staged[i])])
    ensures Ahead(Publish(log, i, generation), {})
    ensures Isolated(log, history) ==> Isolated(Publish(log, i, generation), history + [EntryOf(log.staged[i])])
  {
    PublishKeepsIsolation(log, history, i, generation);
    var entry := EntryOf(log.staged[i]);
    assert Fits(entry);
    CommitRecords(log, history, entry, generation);
    PublishKeepsOrder(log, history, i, generation);
    PublishKeepsAbortedOut(log, history, i, generation);
    PublishKeepsWellFormed(log, history, i, generation);
    PublishKeepsChain(log, i, generation);
    hide Numbered, Settled, AbortedStayOut, WellFormed, Chained, FirstUnresolved, Ahead, Isolated;
    var next := Publish(log, i, generation);
    var committed := Commit(log, entry.transaction, entry.sequence, entry.envelope, generation);
    assert WritesRecorded(next, history + [entry]) && Recorded(next, history + [entry]);
  }

  // ---- staging a transaction ----

  lemma AppendKeepsOrder(log: CommitLog, history: seq<HistoryEntry>, tx: Transaction, logIndex: U64)
    requires Numbered(log, history) && Settled(log.staged) && LastNumber(log) < U64_MAX
    ensures Numbered(AppendStaged(log, tx, logIndex), history)
    ensures Settled(AppendStaged(log, tx, logIndex).staged)
  {
    hide ChainTip, MakeEnvelope;
  }

  lemma {:induction false} TipOfResolved(staged: seq<StagedTransaction>, committed: Digest)
    requires NothingUnresolved(staged) && Settled(staged)
    ensures ChainTip(staged, committed) == VisibleTip(staged, committed)
  {
    if staged != [] {
      TipOfResolved(staged[..|staged| - 1], committed);
    }
  }

  /** The predecessor a new staged envelope names is the last unresolved one, or the committed chain. */
  lemma TipIsNextLink(log: CommitLog)
    requires VisibleTip(log.staged, log.previousLogChain) == log.previousLogChain && Settled(log.staged)
    ensures var n := |log.staged|;
            ChainTip(log.staged, log.previousLogChain)
            == if n > 0 && Unresolved(log.staged[n - 1]) then EnvelopeDigest(log.staged[n - 1].envelope)
               else log.previousLogChain
  {
    var n := |log.staged|;
    if n == 0 || !Unresolved(log.staged[n - 1]) {
      assert NothingUnresolved(log.staged);
      TipOfResolved(log.staged, log.previousLogChain);
    }
  }

  lemma AppendKeepsLinks(log: CommitLog, record: StagedTransaction)
    requires StagedLinked(log)
    requires record.envelope.previousLogChain
             == var n := |log.staged|;
                if n > 0 && Unresolved(log.staged[n - 1]) then EnvelopeDigest(log.staged[n - 1].envelope)
                else log.previousLogChain
    ensures StagedLinked(log.(staged := log.staged + [record]))
  {
    var n, next := |log.staged|, log.(staged := log.staged + [record]);
    assert record.envelope.previousLogChain == StagedLink(next, n);
    forall j | 0 <= j < n
      ensures StagedLink(next, j) == StagedLink(log, j)
    {
    }
  }

  lemma AppendKeepsChain(log: CommitLog, tx: Transaction, logIndex: U64)
    requires Chained(log) && Settled(log.staged)
    ensures Chained(AppendStaged(log, tx, logIndex))
  {
    hide IsChain, StagedLinked, ChainTip;
    TipIsNextLink(log);
    AppendKeepsLinks(log, StagedRecord(log, tx, logIndex));
    var next := AppendStaged(log, tx, logIndex);
    assert next.staged[..|log.staged|] == log.staged;
  }

  lemma NoConflictIsolates(log: CommitLog, history: seq<HistoryEntry>, tx: Transaction, m: nat)
    requires WritesRecorded(log, history) && m < |history|
    requires tx.resolution.None? ==> !CommittedConflict(log, tx)
    ensures IsolatedFrom(tx, history[m])
  {
    if tx.resolution.None? && history[m].sequence > tx.readVersion.sequence {
      var writeRanges := history[m].transaction.writeConflicts;
      forall i, k | 0 <= i < |tx.readConflicts| && 0 <= k < |writeRanges|
        ensures !Overlaps(tx.readConflicts[i], writeRanges[k])
      {
        var write := CommittedWrite(history[m].sequence, writeRanges[k]);
        var j :| 0 <= j < |log.committedWrites| && log.committedWrites[j] == write;
      }
    }
  }

  lemma AppendKeepsIsolation(log: CommitLog, history: seq<HistoryEntry>, tx: Transaction, logIndex: U64)
    requires Isolated(log, history) && WritesRecorded(log, history)
    requires log.latestSequence <= LastNumber(log) < U64_MAX
    requires tx.readVersion.sequence <= log.latestSequence
    requires tx.resolution.None? ==> !CommittedConflict(log, tx) && !StagedConflict(log, tx)
    ensures Isolated(AppendStaged(log, tx, logIndex), history)
  {
    var n, next := |log.staged|, AppendStaged(log, tx, logIndex);
    forall m | 0 <= m < |history|
      ensures IsolatedFrom(tx, history[m])
    {
      NoConflictIsolates(log, history, tx, m);
    }
    forall i | 0 <= i < n && Unresolved(log.staged[i])
      ensures IsolatedFrom(tx, EntryOf(log.staged[i]))
    {
    }
    hide IsolatedFrom, CommittedConflict, StagedConflict;
  }

  lemma AppendKeepsOrderly(log: CommitLog, history: seq<HistoryEntry>, tx: Transaction, logIndex: U64)
    requires Orderly(log, history) && LastNumber(log) < U64_MAX && ValidRequest(tx)
    ensures Orderly(AppendStaged(log, tx, logIndex), history)
  {
    hide ValidRequest, Numbered, Settled, Chained, LastNumber;
    AppendKeepsOrder(log, history, tx, logIndex);
    assert AbortedStayOut(AppendStaged(log, tx, logIndex), history);
    AppendKeepsChain(log, tx, logIndex);
  }

  // ---- aborting the unresolved tail ----

  lemma {:induction false} AbortRangePointwise(log: CommitLog, from: nat, upTo: nat)
    requires from <= upTo <= |log.staged|
    ensures var r := AbortRange(log, from, upTo);
            && r == log.(staged := r.staged)
            && forall i :: 0 <= i < |log.staged| ==>
                 r.staged[i] == if from <= i < upTo then log.staged[i].(aborted := true) else log.staged[i]
    decreases upTo - from
  {
    if from < upTo {
      AbortRangePointwise(log, from, upTo - 1);
    }
  }

  lemma {:induction false} VisibleTipCongruent(
    staged: seq<StagedTransaction>, other: seq<StagedTransaction>, committed: Digest)
    requires |staged| == |other|
    requires forall i :: 0 <= i < |staged| ==>
               staged[i].visible == other[i].visible && staged[i].envelope == other[i].envelope
    ensures VisibleTip(staged, committed) == VisibleTip(other, committed)
  {
    if staged != [] {
      VisibleTipCongruent(staged[..|staged| - 1], other[..|other| - 1], committed);
    }
  }

  /** Exactly the records from `k` on are unresolved. */
  predicate UnresolvedFrom(staged: seq<StagedTransaction>, k: nat) {
    && k <= |staged|
    && forall i :: 0 <= i < |staged| ==> (Unresolved(staged[i]) <==> i >= k)
  }

  /** Aborting the whole unresolved tail keeps the run orderly, adds nothing to the history and settles everything. */
  lemma AbortTailKeepsOrderly(log: CommitLog, history: seq<HistoryEntry>, k: nat)
    requires Orderly(log, history) && UnresolvedFrom(log.staged, k)
    ensures Orderly(AbortRange(log, k, |log.staged|), history)
    ensures NothingUnresolved(AbortRange(log, k, |log.staged|).staged)
    ensures Isolated(log, history) ==> Isolated(AbortRange(log, k, |log.staged|), history)
  {
    hide Numbered, Settled, AbortedStayOut, WellFormed, Chained, Isolated, Recorded, WritesRecorded;
    var next := AbortRange(log, k, |log.staged|);
    AbortRangePointwise(log, k, |log.staged|);
    assert TailAborted(log, next);
    AbortTailKeepsOrder(log, next, history);
    AbortTailKeepsWellFormed(log, next, history);
    AbortTailKeepsChain(log, next);
    AbortTailKeepsIsolation(log, next, history);
  }

  /** `next` is `log` with every unresolved record aborted. */
  predicate TailAborted(log: CommitLog, next: CommitLog) {
    && next == log.(staged := next.staged)
    && |next.staged| == |log.staged|
    && forall i :: 0 <= i < |log.staged| ==>
         next.staged[i] == if Unresolved(log.staged[i]) then log.staged[i].(aborted := true) else log.staged[i]
  }

  lemma AbortTailKeepsOrder(log: CommitLog, next: CommitLog, history: seq<HistoryEntry>)
    requires Numbered(log, history) && Settled(log.staged) && TailAborted(log, next)
    requires AbortedStayOut(log, history)
    ensures Numbered(next, history) && Settled(next.staged) && AbortedStayOut(next, history)
    ensures Recorded(log, history) ==> Recorded(next, history)
    ensures WritesRecorded(log, history) ==> WritesRecorded(next, history)
  {
  }

  lemma AbortTailKeepsChain(log: CommitLog, next: CommitLog)
    requires Chained(log) && TailAborted(log, next)
    ensures Chained(next) && NothingUnresolved(next.staged)
  {
    hide IsChain;
    VisibleTipCongruent(log.staged, next.staged, log.previousLogChain);
    assert NothingUnresolved(next.staged);
  }

  lemma AbortTailKeepsIsolation(log: CommitLog, next: CommitLog, history: seq<HistoryEntry>)
    requires TailAborted(log, next)
    ensures Isolated(log, history) ==> Isolated(next, history)
  {
    hide IsolatedFrom;
    assert NothingUnresolved(next.staged);
  }

  lemma AbortTailKeepsWellFormed(log: CommitLog, next: CommitLog, history: seq<HistoryEntry>)
    requires WellFormed(log, history) && TailAborted(log, next)
    ensures WellFormed(next, history)
  {
    hide ValidRequest, Fits;
    forall i | 0 <= i < |next.staged|
      ensures EntryOf(next.staged[i]) == EntryOf(log.staged[i])
    {
    }
  }

  // ---- steps that commit or settle nothing ----

  /** Only numbering depends on the readable sequence, and nothing here on the generation. */
  lemma CountersKeepRecords(log: CommitLog, history: seq<HistoryEntry>, latest: U64, generation: U64)
    requires Orderly(log, history)
    ensures var next := log.(latestSequence := latest, generation := generation);
            && AbortedStayOut(next, history)
            && WritesRecorded(next, history)
            && Recorded(next, history)
            && WellFormed(next, history)
            && Chained(next)
            && (Isolated(log, history) ==> Isolated(next, history))
  {
    hide Numbered, Settled, IsolatedFrom, ValidRequest, Fits, IsChain, Replay;
  }

  lemma CountersKeepNumbers(log: CommitLog, history: seq<HistoryEntry>, latest: U64, generation: U64)
    requires Numbered(log, history) && log.latestSequence <= latest
    ensures Numbered(log.(latestSequence := latest, generation := generation), history)
  {
  }

  /** Policy transitions consume a readable sequence. */
  lemma BumpKeepsOrderly(log: CommitLog, history: seq<HistoryEntry>, latest: U64)
    requires Orderly(log, history) && log.latestSequence <= latest
    ensures Orderly(log.(latestSequence := latest), history)
    ensures Isolated(log, history) ==> Isolated(log.(latestSequence := latest), history)
  {
    hide Numbered, Settled, AbortedStayOut, WritesRecorded, Recorded, WellFormed, Chained, Isolated;
    CountersKeepRecords(log, history, latest, log.generation);
    CountersKeepNumbers(log, history, latest, log.generation);
  }

  lemma GenerationChangeKeepsOrderly(log: CommitLog, history: seq<HistoryEntry>, generation: U64)
    requires Orderly(log, history)
    ensures Orderly(log.(generation := generation), history)
    ensures Isolated(log, history) ==> Isolated(log.(generation := generation), history)
  {
    hide Numbered, Settled, AbortedStayOut, WritesRecorded, Recorded, WellFormed, Chained, Isolated;
    CountersKeepRecords(log, history, log.latestSequence, generation);
    CountersKeepNumbers(log, history, log.latestSequence, generation);
  }

  /** Two staged lists that differ at most in recorded durability evidence. */
  predicate SameButEvidence(staged: seq<StagedTransaction>, other: seq<StagedTransaction>) {
    && |staged| == |other|
    && forall i :: 0 <= i < |staged| ==>
         && other[i].identity == staged[i].identity
         && other[i].transaction == staged[i].transaction
         && other[i].sequence == staged[i].sequence
         && other[i].envelope == staged[i].envelope
         && other[i].visible == staged[i].visible
         && other[i].aborted == staged[i].aborted
  }

  lemma EvidenceKeepsOrder(log: CommitLog, history: seq<HistoryEntry>, staged: seq<StagedTransaction>)
    requires Numbered(log, history) && Settled(log.staged) && SameButEvidence(log.staged, staged)
    requires AbortedStayOut(log, history)
    ensures Numbered(log.(staged := staged), history) && Settled(staged)
    ensures AbortedStayOut(log.(staged := staged), history)
  {
  }

  lemma EvidenceKeepsWellFormed(log: CommitLog, history: seq<HistoryEntry>, staged: seq<StagedTransaction>)
    requires WellFormed(log, history) && SameButEvidence(log.staged, staged)
    ensures WellFormed(log.(staged := staged), history)
  {
    hide ValidRequest, Fits;
    forall i | 0 <= i < |staged|
      ensures EntryOf(staged[i]) == EntryOf(log.staged[i])
    {
    }
  }

  lemma EvidenceKeepsChain(log: CommitLog, staged: seq<StagedTransaction>)
    requires Chained(log) && SameButEvidence(log.staged, staged)
    ensures Chained(log.(staged := staged))
  {
    VisibleTipCongruent(log.staged, staged, log.previousLogChain);
    hide IsChain;
    var next := log.(staged := staged);
    forall j | 0 <= j < |staged|
      ensures StagedLink(next, j) == StagedLink(log, j)
    {
    }
  }

  lemma EvidenceKeepsIsolation(log: CommitLog, history: seq<HistoryEntry>, staged: seq<StagedTransaction>)
    requires SameButEvidence(log.staged, staged)
    ensures Isolated(log, history) ==> Isolated(log.(staged := staged), history)
  {
    hide IsolatedFrom;
    forall i | 0 <= i < |staged|
      ensures EntryOf(staged[i]) == EntryOf(log.staged[i])
    {
    }
  }

  /** Recording durability evidence touches nothing the invariant speaks about. */
  lemma EvidenceKeepsOrderly(log: CommitLog, history: seq<HistoryEntry>, staged: seq<StagedTransaction>)
    requires Orderly(log, history) && SameButEvidence(log.staged, staged)
    ensures Orderly(log.(staged := staged), history)
    ensures Isolated(log, history) ==> Isolated(log.(staged := staged), history)
  {
    hide Numbered, Settled, AbortedStayOut, WellFormed, Chained, SameButEvidence, Isolated, Replay;
    EvidenceKeepsOrder(log, history, staged);
    EvidenceKeepsWellFormed(log, history, staged);
    EvidenceKeepsChain(log, staged);
    EvidenceKeepsIsolation(log, history, staged);
  }

  // ---- committing without staging ----

  lemma DirectKeepsIsolation(log: CommitLog, history: seq<HistoryEntry>, entry: HistoryEntry)
    requires Isolated(log, history) && log.staged == [] && WritesRecorded(log, history)
    requires entry.transaction.readVersion.sequence < entry.sequence
    requires entry.transaction.resolution.None? ==> !CommittedConflict(log, entry.transaction)
    ensures Isolated(log, history + [entry])
  {
    forall m | 0 <= m < |history|
      ensures IsolatedFrom(entry.transaction, history[m])
    {
      NoConflictIsolates(log, history, entry.transaction, m);
    }
    hide IsolatedFrom, CommittedConflict, WritesRecorded;
  }

  /** A direct commit keeps the run orderly while nothing has been staged and its index is new. */
  lemma DirectKeepsOrderly(log: CommitLog, history: seq<HistoryEntry>, tx: Transaction, logIndex: U64)
    requires Orderly(log, history) && log.staged == [] && log.latestSequence < logIndex && ValidRequest(tx)
    ensures Orderly(
              CommitDirectly(log, tx, logIndex),
              history + [HistoryEntry(tx, logIndex, DirectEnvelope(log, tx, logIndex))])
  {
    hide ValidRequest, IsChain;
    var entry := HistoryEntry(tx, logIndex, DirectEnvelope(log, tx, logIndex));
    var extended, next := history + [entry], CommitDirectly(log, tx, logIndex);
    CommitRecords(log, history, entry, tx.generation);
    CommitExtendsChain(log.committedEnvelopes, entry.envelope);
    hide Recorded, WritesRecorded;
    assert Numbered(next, extended);
    assert WellFormed(next, extended);
  }
}
