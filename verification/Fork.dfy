/**
A run that forks the log chain. A one-shot commit extends the committed chain but is not a staged record, so the
next staged record is chained to the record before it: two committed records name the same predecessor.
*/
module Fork {
  import opened Types
  import opened Ordering
  import opened Domain
  import opened Events
  import opened LostSnapshot

  /** A one-shot writer is committed on any domain. */
  lemma DirectStep(d: Domain, request: U64, logIndex: U64)
    requires Open(d) && request < 256
    ensures ApplyDirect(d, Writer(request), logIndex)
            == DirectOutcome(d.(log := CommitDirectly(d.log, Writer(request), logIndex)), Committed)
  {
    hide CommitDirectly;
    WriterIsValid(request);
    hide ValidRequest;
  }

  lemma DirectStaysIdle(d: Domain, request: U64, other: U64, logIndex: U64)
    requires Idle(d, other) && request < 256
    ensures var next := d.(log := CommitDirectly(d.log, Writer(request), logIndex));
            Idle(next, other) && next.log.staged == d.log.staged
  {
    hide ApplyMutations, WritesAt, MakeEnvelope, NothingUnresolved, Find;
  }

  /** The next staged writer is chained to the record before the one-shot commit. */
  lemma NextIsChainedBefore(d: Domain, request: U64, next: U64, logIndex: U64)
    requires request < 256 && next < 256 && logIndex < U64_MAX && d.log.staged != []
    requires var last := d.log.staged[|d.log.staged| - 1];
             !last.aborted && d.log.previousLogChain == EnvelopeDigest(last.envelope)
    ensures var direct := DirectEnvelope(d.log, Writer(request), logIndex);
            var later := CommitDirectly(d.log, Writer(request), logIndex);
            var envelope := StagedRecord(later, Writer(next), logIndex + 1).envelope;
            && envelope.previousLogChain == direct.previousLogChain == d.log.previousLogChain
            && envelope.logIndex != direct.logIndex
            && later.previousLogChain == EnvelopeDigest(direct)
  {
    hide ApplyMutations, WritesAt;
  }

  /**
  The chain forks. Four entries publish a first writer, one commits a second directly, and four more publish a
  third: the second and the third record are both committed, and both follow the first.
  */
  lemma DirectCommitForksChain() returns (entries: seq<Entry>)
    ensures |entries| == 9 && entries[4] == DirectEntry(5, Writer(2))
    ensures forall i :: 0 <= i < 9 ==> entries[i].logIndex == i + 1
    ensures var before, after := RunFrom(Fresh([1], [2], 1), entries[..4]), RunFrom(Fresh([1], [2], 1), entries);
            var direct := DirectEnvelope(before.log, Writer(2), 5);
            && ApplyDirect(before, Writer(2), 5).status == Committed
            && |before.log.staged| == 1 && before.log.staged[0].visible
            && |after.log.staged| == 2 && after.log.staged[1].visible
            && direct.previousLogChain == EnvelopeDigest(before.log.staged[0].envelope)
            && after.log.staged[1].envelope.previousLogChain == direct.previousLogChain
            && after.log.staged[1].envelope != direct
  {
    hide Step, RunFrom, Written, NothingUnresolved, Find, MakeEnvelope, CommitDirectly, StagedRecord;
    var start := Fresh([1], [2], 1);
    StartIsIdle();
    var first := WriterCommits(start, 1, 0);
    WrittenFacts(start, 1, 3, 1);
    WrittenLast(start, 1, 1);
    var before := Written(start, 1, 1);
    DirectStep(before, 2, 5);
    DirectStaysIdle(before, 2, 3, 5);
    NextIsChainedBefore(before, 2, 3, 5);
    var direct := DirectEntry(5, Writer(2));
    var later := before.(log := CommitDirectly(before.log, Writer(2), 5));
    DirectIsStep(before, direct);
    RunFromOne(before, direct);
    RunFromConcat(start, first, [direct]);
    var last := WriterCommits(later, 3, 5);
    WrittenLast(later, 3, 6);
    RunFromConcat(start, first + [direct], last);
    entries := first + [direct] + last;
    assert entries[..4] == first;
  }

  lemma DirectIsStep(d: Domain, entry: Entry)
    requires entry.DirectEntry?
    ensures Step(d, entry) == ApplyDirect(d, entry.transaction, entry.logIndex).domain
  {
    hide ApplyDirect, ApplyStaged;
  }
}
