/** What small nodes answer in concrete runs. */
module NodeSteps {
  import opened Keys
  import opened Types
  import opened Certificates
  import opened Ordering
  import opened LogNodes
  import opened Safety
  import opened LostSnapshot
  import opened Cluster

  /** A newly started member of a log set. */
  function NewNode(logSet: U16): Node {
    Node(logSet, None, 1, false, [], 0, 0, map[], map[])
  }

  /** A member of either required log set that has fenced nothing. */
  predicate Plain(node: Node) {
    && (node.logSet == 10 || node.logSet == 20)
    && node.repairSource.None?
    && node.policyEpoch == 1
    && node.fences == map[]
    && node.prefixFences == map[]
    && forall record :: record in node.journal ==> record.rangeTags == [10, 20]
  }

  /** A staged writer's record, as fences and inventories describe it. */
  predicate Writ(record: StagedTransaction) {
    && record.envelope.cell == [1]
    && record.envelope.tenant == [2]
    && record.envelope.generation == 1
    && record.envelope.identity == record.identity
    && record.envelope.versionSequence == record.sequence
    && record.sequence > 0
    && record.envelope.requiredLogTags == [10, 20]
    && Decodes(record.envelope)
  }

  function Entry10And20(position: U64, record: StagedTransaction): LogRecord {
    LogRecord(position, [10, 20], record.envelope)
  }

  /** A writer staged behind one other record. */
  lemma StagedBehind(log: CommitLog, prior: StagedTransaction, request: U64, logIndex: U64)
    requires log.staged == [prior] && !prior.aborted && prior.sequence == 1 && request < 256 && logIndex > 0
    ensures var record := StagedRecord(log, Writer(request), logIndex);
            && Writ(record)
            && Unresolved(record)
            && record.identity == Identity(1, request)
            && record.sequence == 2
            && record.transaction == Writer(request)
            && record.certificates == map[]
            && record.envelope.previousLogChain == EnvelopeDigest(prior.envelope)
            && AppendStaged(log, Writer(request), logIndex) == log.(staged := [prior, record])
  {
    WriterDecodes(request, 2, logIndex, EnvelopeDigest(prior.envelope));
    hide Decodes;
    assert ChainTip([prior], log.previousLogChain) == EnvelopeDigest(prior.envelope);
  }

  /** A plain node appends a writer's record at its next position. */
  lemma AppendsWrit(node: Node, key: Bytes, record: StagedTransaction)
    requires Plain(node) && Writ(record) && node.lastPosition < 1000
    ensures var next := node.(journal := node.journal + [Entry10And20(node.lastPosition + 1, record)],
                              lastPosition := node.lastPosition + 1);
            && Serve(node, key, AppendRecord(Entry10And20(node.lastPosition + 1, record))) == Answer(next, None)
            && Plain(next)
            && Logged(next, record.envelope)
  {
    var entry := Entry10And20(node.lastPosition + 1, record);
    assert Appendable(node, entry) by {
      hide Decodes;
      assert RecordValid(entry);
    }
    hide Appendable, Decodes;
    assert entry in node.journal + [entry];
  }

  lemma PresentIffJournaled(node: Node, record: StagedTransaction)
    requires Plain(node) && Writ(record)
    ensures Present(node, [1], [2], 1, WindowRecord(record.identity, record.sequence, EnvelopeDigest(record.envelope)))
            <==> Logged(node, record.envelope)
  {
    hide Decodes;
    var target := WindowRecord(record.identity, record.sequence, EnvelopeDigest(record.envelope));
    if entry :| entry in node.journal && entry.envelope == record.envelope {
      assert Matches(entry, node.logSet, [1], [2], 1, target);
    }
  }

  /** A plain node fences the writer's generation and says whether it holds the record. */
  lemma FencesWrit(node: Node, key: Bytes, record: StagedTransaction)
    requires Plain(node) && Writ(record)
    ensures var fence := FenceOf(record, node.logSet);
            Serve(node, key, FenceGeneration(fence))
            == Answer(
                 node.(fences := map[1 := fence]),
                 Some(Signature(key, FenceMessage(fence, Logged(node, record.envelope)))))
  {
    PresentIffJournaled(node, record);
    hide Present, Logged, Decodes;
  }

  /** A plain node that pops at its newest record retains what lies beyond. */
  lemma PopsWrit(node: Node, key: Bytes, frontier: U64)
    requires Plain(node) && node.poppedThrough < frontier
    requires forall entry :: entry in node.journal ==>
               entry.envelope.cell == [1] && entry.envelope.tenant == [2] && entry.envelope.generation == 1
    requires exists entry :: entry in node.journal && entry.envelope.versionSequence >= frontier
    ensures Serve(node, key, PopLog(PopStatement(1, [1], [2], 1, node.logSet, 1, frontier, 1), true))
            == Answer(node.(poppedThrough := frontier, journal := Retained(node.journal, frontier)), None)
  {
  }
}
