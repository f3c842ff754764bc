/**
Where the commands are weaker than the guarantees: inputs that break them, and the exact conditions under
which they hold.
*/
module Limits {
  import opened Types
  import opened Ordering
  import opened Domain

  // ---- policy transitions and staged numbering ----

  /** Two transition steps, then one transaction staged and published. */
  function TransitionThenPublish(log: CommitLog, tx: Transaction, logIndex: U64): CommitLog {
    var staged := AppendStaged(BumpSequence(BumpSequence(log)), tx, logIndex);
    Publish(staged, |log.staged|, tx.generation)
  }

  /**
  After a policy transition the next transaction to be staged and published takes readers back exactly when
  something was staged before and the staged numbering is not already ahead of readers.
  */
  lemma TransitionLowersReadableIff(log: CommitLog, tx: Transaction, logIndex: U64)
    requires LastNumber(log) < U64_MAX && log.latestSequence < U64_MAX - 2
    ensures TransitionThenPublish(log, tx, logIndex).latestSequence < BumpSequence(BumpSequence(log)).latestSequence
            <==> log.staged != [] && LastNumber(log) <= log.latestSequence
  {
    hide ApplyMutations, WritesAt, MakeEnvelope;
  }

  // ---- one-shot commits next to staged ones ----

  lemma {:induction false} TipIsCommittedIff(staged: seq<StagedTransaction>, envelope: Envelope)
    requires forall i :: 0 <= i < |staged| ==> staged[i].envelope != envelope
    ensures ChainTip(staged, EnvelopeDigest(envelope)) == EnvelopeDigest(envelope) <==>
              forall i :: 0 <= i < |staged| ==> staged[i].aborted
  {
    if staged != [] {
      TipIsCommittedIff(staged[..|staged| - 1], envelope);
    }
  }

  /**
  After a one-shot commit the next staged envelope continues the committed chain exactly when no staged
  record is or can become visible; otherwise the chain forks.
  */
  lemma OneShotKeepsChainIff(log: CommitLog, tx: Transaction, logIndex: U64, later: Transaction, laterIndex: U64)
    requires forall i :: 0 <= i < |log.staged| ==> log.staged[i].envelope.logIndex != logIndex
    ensures var committed := CommitDirectly(log, tx, logIndex);
            StagedRecord(committed, later, laterIndex).envelope.previousLogChain == committed.previousLogChain <==>
              forall i :: 0 <= i < |log.staged| ==> log.staged[i].aborted
  {
    hide ApplyMutations, WritesAt;
    TipIsCommittedIff(log.staged, DirectEnvelope(log, tx, logIndex));
  }
}
