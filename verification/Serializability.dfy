/** Rows at a version, and why the invariant makes committed transactions serializable. */
module Serializability {
  import opened Keys
  import opened Types
  import opened Ordering
  import opened History

  // ---- rows at a version ----

  function Lookup(rows: Rows, key: Bytes): Option<Bytes> {
    if key in rows then Some(rows[key]) else None
  }

  /** The committed envelopes with sequence at most `sequence`. */
  function UpTo(envelopes: seq<Envelope>, sequence: U64): seq<Envelope> {
    if envelopes == [] then []
    else
      var n := |envelopes| - 1;
      UpTo(envelopes[..n], sequence) + (if envelopes[n].versionSequence <= sequence then [envelopes[n]] else [])
  }

  /** The rows a reader at `sequence` sees. */
  function RowsAt(envelopes: seq<Envelope>, sequence: U64): Rows {
    Replay(map[], UpTo(envelopes, sequence))
  }

  lemma {:induction false} UpToIsPrefix(envelopes: seq<Envelope>, sequence: U64, cut: nat)
    requires cut <= |envelopes|
    requires forall n :: 0 <= n < |envelopes| ==> (envelopes[n].versionSequence <= sequence <==> n < cut)
    ensures UpTo(envelopes, sequence) == envelopes[..cut]
  {
    if envelopes != [] {
      var n := |envelopes| - 1;
      if cut == |envelopes| {
        UpToIsPrefix(envelopes[..n], sequence, n);
        assert envelopes[..cut] == envelopes[..n] + [envelopes[n]];
      } else {
        UpToIsPrefix(envelopes[..n], sequence, cut);
        assert envelopes[..n][..cut] == envelopes[..cut];
      }
    }
  }

  lemma {:induction false} ReplayAppend(base: Rows, first: seq<Envelope>, second: seq<Envelope>)
    ensures Replay(base, first + second) == Replay(Replay(base, first), second)
    decreases |second|
  {
    if second == [] {
      assert first + second == first;
    } else {
      var n := |second| - 1;
      ReplayAppend(base, first, second[..n]);
      assert (first + second)[..|first| + n] == first + second[..n];
    }
  }

  predicate Mutates(mutations: seq<Mutation>, key: Bytes) {
    exists i :: 0 <= i < |mutations| && mutations[i].key == key
  }

  lemma {:induction false} UnmutatedKeeps(rows: Rows, mutations: seq<Mutation>, key: Bytes)
    requires !Mutates(mutations, key)
    ensures Lookup(ApplyMutations(rows, mutations), key) == Lookup(rows, key)
  {
    if mutations != [] {
      var n := |mutations| - 1;
      assert mutations[n].key != key;
      UnmutatedKeeps(rows, mutations[..n], key);
    }
  }

  lemma {:induction false} UnmutatedReplayKeeps(base: Rows, envelopes: seq<Envelope>, key: Bytes)
    requires forall n :: 0 <= n < |envelopes| ==> !Mutates(envelopes[n].mutations, key)
    ensures Lookup(Replay(base, envelopes), key) == Lookup(base, key)
  {
    if envelopes != [] {
      var n := |envelopes| - 1;
      UnmutatedReplayKeeps(base, envelopes[..n], key);
      UnmutatedKeeps(Replay(base, envelopes[..n]), envelopes[n].mutations, key);
    }
  }

  // ---- isolation means reads survive ----

  /** A transaction whose writes do not overlap the reads mutates no key they cover. */
  lemma DisjointWritesMissReads(tx: Transaction, readRanges: seq<KeyRange>, key: Bytes)
    requires ValidRequest(tx) && CoveredBy(key, readRanges)
    requires !AnyOverlap(readRanges, tx.writeConflicts)
    ensures !Mutates(tx.mutations, key)
  {
    if i :| 0 <= i < |tx.mutations| && tx.mutations[i].key == key {
      assert CoveredBy(key, tx.writeConflicts);
      var w :| 0 <= w < |tx.writeConflicts| && Contains(tx.writeConflicts[w], key);
      var r :| 0 <= r < |readRanges| && Contains(readRanges[r], key);
      SharedKeyOverlaps(readRanges[r], tx.writeConflicts[w], key);
    }
  }

  /** How many entries of the history lie at or below a sequence. */
  lemma {:induction false} HistoryCut(history: seq<HistoryEntry>, sequence: U64) returns (cut: nat)
    requires forall m, n :: 0 <= m < n < |history| ==> history[m].sequence < history[n].sequence
    ensures cut <= |history|
    ensures forall n :: 0 <= n < |history| ==> (history[n].sequence <= sequence <==> n < cut)
  {
    if history == [] || history[|history| - 1].sequence <= sequence {
      cut := |history|;
    } else {
      cut := HistoryCut(history[..|history| - 1], sequence);
    }
  }

  lemma CutIsRowsAt(log: CommitLog, history: seq<HistoryEntry>, sequence: U64, cut: nat)
    requires Recorded(log, history) && WellFormed(log, history) && cut <= |history|
    requires forall n :: 0 <= n < |history| ==> (history[n].sequence <= sequence <==> n < cut)
    ensures RowsAt(log.committedEnvelopes, sequence) == Replay(map[], log.committedEnvelopes[..cut])
  {
    hide ValidRequest, Replay;
    var envelopes := log.committedEnvelopes;
    forall n | 0 <= n < |envelopes|
      ensures envelopes[n].versionSequence <= sequence <==> n < cut
    {
      assert envelopes[n] == history[n].envelope && Fits(history[n]);
    }
    UpToIsPrefix(envelopes, sequence, cut);
  }

  /**
  For a committed transaction with read version r, every key under its read conflicts, present or
  absent, has the same value in the rows at r as in the rows just before the commit.
  */
  lemma ReadsSurviveToCommit(log: CommitLog, history: seq<HistoryEntry>, n: nat, key: Bytes)
    requires Invariant(log, history) && n < |history| && history[n].transaction.resolution.None?
    requires CoveredBy(key, history[n].transaction.readConflicts)
    ensures Lookup(RowsAt(log.committedEnvelopes, history[n].transaction.readVersion.sequence), key)
            == Lookup(Replay(map[], log.committedEnvelopes[..n]), key)
  {
    hide Settled, AbortedStayOut, WritesRecorded, Chained, WellFormed, ValidRequest, Replay, CoveredBy, AnyOverlap,
      Mutates, Lookup, IsolatedFrom, RowsAt;
    var tx, envelopes := history[n].transaction, log.committedEnvelopes;
    var cut := HistoryCut(history, tx.readVersion.sequence);
    CutIsRowsAt(log, history, tx.readVersion.sequence, cut);
    assert cut <= n;
    var between := envelopes[cut..n];
    forall x | 0 <= x < |between|
      ensures !Mutates(between[x].mutations, key)
    {
      BetweenMissesKey(log, history, n, cut + x, key);
    }
    assert envelopes[..n] == envelopes[..cut] + between;
    ReplayAppend(map[], envelopes[..cut], between);
    UnmutatedReplayKeeps(Replay(map[], envelopes[..cut]), between, key);
  }

  lemma BetweenMissesKey(log: CommitLog, history: seq<HistoryEntry>, n: nat, m: nat, key: Bytes)
    requires WellFormed(log, history) && Recorded(log, history) && Isolated(log, history) && m < n < |history|
    requires history[n].transaction.resolution.None?
    requires history[m].sequence > history[n].transaction.readVersion.sequence
    requires CoveredBy(key, history[n].transaction.readConflicts)
    ensures !Mutates(log.committedEnvelopes[m].mutations, key)
  {
    hide ValidRequest, CoveredBy, AnyOverlap, Mutates, Replay;
    assert IsolatedFrom(history[n].transaction, history[m]);
    assert Fits(history[m]);
    DisjointWritesMissReads(history[m].transaction, history[n].transaction.readConflicts, key);
  }
}
