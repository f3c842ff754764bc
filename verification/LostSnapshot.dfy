/**
A run that loses a snapshot: after a policy transition is prepared, the next published transaction takes
the sequence readers already have, so one readable sequence shows two different sets of rows.
*/
module LostSnapshot {
  import opened Keys
  import opened Types
  import opened Quorum
  import opened Certificates
  import opened Ordering
  import opened Domain
  import opened Events
  import Generation

  const CREDENTIAL := Some(Credential(1, "system"))

  function Writer(request: U64): Transaction
    requires request < 256
  {
    Transaction(
      Identity(1, request), CREDENTIAL, [1], [2], 1, ReadVersion(0, 0), [], [Point([request])],
      [Set([request], [request])], None, [1, 2], [10, 20])
  }

  function Command(request: U64, action: StagedAction): StagedCommand {
    StagedCommand(CREDENTIAL, 1, Identity(1, request), action)
  }

  function AsEntry(logIndex: U64, command: StagedCommand): Entry {
    StagedEntry(logIndex, command, Generation.INITIAL)
  }

  /** No policy and no reservation touches the two required log sets. */
  predicate Open(d: Domain) {
    && d.cell == [1]
    && d.tenant == [2]
    && d.log.generation == 1
    && 10 !in d.policies
    && 20 !in d.policies
    && (d.pending.Some? ==> d.pending.value.logSet == 30)
    && d.reservations == map[]
  }

  // ---- one step of each kind ----

  lemma WriterIsValid(request: U64)
    requires request < 256
    ensures ValidRequest(Writer(request))
  {
    var tx := Writer(request);
    PointHoldsOnlyItsKey([request], [request]);
    assert Contains(tx.writeConflicts[0], tx.mutations[0].key);
    assert CoveredBy(tx.mutations[0].key, tx.writeConflicts);
  }

  lemma NoneConfigured(policies: map<U16, LogSetPolicy>)
    requires 10 !in policies && 20 !in policies
    ensures ConfiguredCount(policies, [10, 20]) == 0
  {
    assert [10, 20][1..] == [20] && [20][1..] == [];
    assert ConfiguredCount(policies, []) == 0;
    assert ConfiguredCount(policies, [20]) == 0;
  }

  lemma StageOutcome(d: Domain, request: U64, logIndex: U64)
    requires Open(d) && request < 256 && Find(d.log.staged, Identity(1, request)) == |d.log.staged|
    ensures ApplyStage(d, Command(request, Stage(Writer(request))), Writer(request), logIndex).domain
            == d.(log := AppendStaged(d.log, Writer(request), logIndex))
  {
    var tx, command := Writer(request), Command(request, Stage(Writer(request)));
    WriterIsValid(request);
    NoneConfigured(d.policies);
    hide ValidRequest, ConfiguredCount, AppendStaged, Find;
    assert StageRequestValid(d, command, tx);
    hide StageRequestValid;
    assert !RatekeepingNeeded(d, tx);
    assert ApplyStage(d, command, tx, logIndex) == AdmitStage(d, tx, logIndex);
  }

  lemma StageStep(d: Domain, request: U64, logIndex: U64)
    requires Open(d) && request < 256 && Find(d.log.staged, Identity(1, request)) == |d.log.staged|
    ensures Step(d, AsEntry(logIndex, Command(request, Stage(Writer(request)))))
            == d.(log := AppendStaged(d.log, Writer(request), logIndex))
  {
    StageOutcome(d, request, logIndex);
    hide ApplyStage, AppendStaged;
  }

  function ExampleReceipt(record: StagedTransaction, logSet: U16): Receipt {
    Receipt(1, logSet, 1, EnvelopeDigest(record.envelope), 1, [1, 2])
  }

  function Receipted(d: Domain, i: nat, logSet: U16): Domain
    requires i < |d.log.staged|
  {
    var record := d.log.staged[i];
    WithRecord(d, i, record.(receipts := record.receipts[logSet := ExampleReceipt(record, logSet)]))
  }

  lemma ReceiptStep(d: Domain, request: U64, i: nat, logSet: U16, logIndex: U64)
    requires Open(d) && request < 256 && (logSet == 10 || logSet == 20)
    requires i < |d.log.staged| && Find(d.log.staged, Identity(1, request)) == i
    requires d.log.staged[i].transaction == Writer(request)
    requires Unresolved(d.log.staged[i]) && logSet !in d.log.staged[i].receipts
    ensures Step(d, AsEntry(logIndex, Command(request, RecordReceipt(ExampleReceipt(d.log.staged[i], logSet)))))
            == Receipted(d, i, logSet)
  {
    hide Find, WithRecord;
    var record := d.log.staged[i];
    assert ReceiptValid(ExampleReceipt(record, logSet), Command(request, PublishStaged), record);
  }

  lemma PublishStep(d: Domain, request: U64, i: nat, logIndex: U64)
    requires Open(d) && request < 256
    requires i < |d.log.staged| && Find(d.log.staged, Identity(1, request)) == i
    requires d.log.staged[i].transaction == Writer(request)
    requires Unresolved(d.log.staged[i]) && 10 in d.log.staged[i].receipts && 20 in d.log.staged[i].receipts
    requires forall j :: 0 <= j < |d.log.staged| && j != i ==> !Unresolved(d.log.staged[j])
    ensures Step(d, AsEntry(logIndex, Command(request, PublishStaged))) == d.(log := Publish(d.log, i, 1))
  {
    hide Find, Publish;
    assert DurableEverywhere(d.policies, d.log.staged[i]);
    assert !EarlierPending(d.log.staged, d.log.staged[i].sequence);
  }

  // ---- the transition ----

  function Key(n: Byte): (key: Bytes)
    ensures |key| == 32
  {
    seq(32, _ => n)
  }

  function Policy(epoch: U64, node: U64, key: Byte): LogSetPolicy {
    LogSetPolicy(1, 1, epoch, 30, 1, 0, [Member(node, Key(key))])
  }

  /** A record that only log set 30 needs, as its member journals it. */
  function Only30(position: U64): LogRecord {
    LogRecord(
      position, [30],
      Envelope([1], [2], 1, 1, position, position, Identity(3, position), [], [], [], [1], [30], ZeroDigest))
  }

  /** What the member of log set 30 retains: it popped its first record. */
  function Repair(): RepairStatement {
    RepairStatement(
      1, RepairLearnerReady, [1], [2], 1, 30, 1, 1, 1, 2, [1], Key(2), 2, 1, 1, SnapshotDigest([Only30(2)]))
  }

  function Readiness(): RepairCertificate {
    RepairCertificate(Repair(), [RepairAttestation(1, 1, Signature(Key(1), RepairMessage(Repair(), 1, 1)))])
  }

  function Exchange(): LogSetTransition {
    LogSetTransition(
      1, [1], [2], 1, 1, 30, Policy(1, 1, 1), Policy(2, 2, 2), 1, 2, [1], Key(2),
      RepairDigest(Repair(), multiset(Readiness().attestations)), SnapshotDigest([Only30(2)]), 2)
  }

  lemma SoleMember(node: U64, key: Byte)
    ensures MemberMap([Member(node, Key(key))]) == map[node := Key(key)]
  {
    assert [Member(node, Key(key))][..0] == [];
    assert MemberMap([]) == map[];
  }

  lemma InstallStep(d: Domain, logIndex: U64)
    requires Open(d) && 30 !in d.policies && NothingUnresolved(d.log.staged)
    ensures Step(d, AsEntry(logIndex, Command(0, InstallPolicies([Policy(1, 1, 1)]))))
            == d.(policies := d.policies[30 := Policy(1, 1, 1)])
  {
    hide NothingUnresolved;
    var policies := [Policy(1, 1, 1)];
    assert ValidPolicy(policies[0], 1);
    assert InstallAll(d.policies, policies) == d.policies[30 := Policy(1, 1, 1)] by {
      assert policies[..0] == [];
      assert InstallAll(d.policies, []) == d.policies;
    }
  }

  lemma ReadinessVoted()
    ensures QuorumVoted(RepairVotes(Readiness()), MemberMap(Policy(1, 1, 1).members), 1)
  {
    SoleMember(1, 1);
  }

  lemma ExchangeSwaps()
    ensures SwapsOneMember(Exchange())
  {
    SoleMember(1, 1);
    SoleMember(2, 2);
    hide MemberMap, Key;
    var before, after := MemberMap(Exchange().oldPolicy.members), MemberMap(Exchange().nextPolicy.members);
    assert before.Keys == {1} && after.Keys == {2};
    assert before.Keys - after.Keys == {1} && after.Keys - before.Keys == {2};
  }

  lemma ExchangeIsValid()
    ensures ValidTransition(Exchange(), Readiness(), Policy(1, 1, 1), [1], [2], 1)
  {
    ExchangeSwaps();
    ReadinessVoted();
    hide QuorumVoted, MemberMap, SwapsOneMember;
    assert NodeIds(Policy(1, 1, 1).members) == [1];
    assert RepairCertificateValid(Readiness(), Policy(1, 1, 1));
    assert ValidPolicy(Policy(2, 2, 2), 1);
  }

  lemma PrepareStep(d: Domain, logIndex: U64)
    requires Open(d) && NothingUnresolved(d.log.staged) && d.pending.None? && d.completed == map[]
    requires 30 in d.policies && d.policies[30] == Policy(1, 1, 1)
    ensures Step(d, AsEntry(logIndex, Command(0, PrepareTransition(Exchange(), Readiness()))))
            == d.(pending := Some(Exchange()), log := BumpSequence(d.log))
  {
    ExchangeIsValid();
    hide NothingUnresolved, ValidTransition;
  }

  // ---- the run ----

  lemma RunFromFour(d: Domain, a: Entry, b: Entry, c: Entry, e: Entry)
    ensures RunFrom(d, [a, b, c, e]) == Step(Step(Step(Step(d, a), b), c), e)
  {
    hide Step;
    RunFromOne(d, a);
    assert [a, b][..1] == [a] && [a, b, c][..2] == [a, b] && [a, b, c, e][..3] == [a, b, c];
    assert RunFrom(d, [a, b]) == Step(Step(d, a), b);
    assert RunFrom(d, [a, b, c]) == Step(Step(Step(d, a), b), c);
  }

  /** A domain between transactions: open, with nothing unresolved. */
  predicate Idle(d: Domain, request: U64) {
    Open(d) && NothingUnresolved(d.log.staged) && Find(d.log.staged, Identity(1, request)) == |d.log.staged|
  }

  /** The domain after the writer was staged and published. */
  function Written(d: Domain, request: U64, logIndex: U64): Domain
    requires request < 256
  {
    var n := |d.log.staged|;
    var staged := d.(log := AppendStaged(d.log, Writer(request), logIndex));
    var ready := Receipted(Receipted(staged, n, 10), n, 20);
    ready.(log := Publish(ready.log, n, 1))
  }

  lemma FoundLast(staged: seq<StagedTransaction>, record: StagedTransaction)
    requires Find(staged, record.identity) == |staged|
    ensures Find(staged + [record], record.identity) == |staged|
  {
    var longer := staged + [record];
    assert longer[|staged|].identity == record.identity;
    assert forall i :: 0 <= i < |staged| ==> longer[i] == staged[i];
  }

  /** A command that stages, records a receipt or publishes: it carries no signatures and changes no policy. */
  predicate Routine(entry: Entry) {
    && entry.StagedEntry?
    && (|| entry.command.action.Stage?
        || entry.command.action.RecordReceipt?
        || entry.command.action.PublishStaged?)
  }

  /** Four commands stage a writer, record both receipts and publish it. */
  lemma WriterCommits(d: Domain, request: U64, base: U64) returns (entries: seq<Entry>)
    requires Idle(d, request) && request < 256 && base < 1000
    ensures |entries| == 4 && forall i :: 0 <= i < 4 ==> entries[i].logIndex == base + i + 1
    ensures forall i :: 0 <= i < 4 ==> Routine(entries[i])
    ensures RunFrom(d, entries) == Written(d, request, base + 1)
  {
    hide Step, AppendStaged, Publish, RunFrom, NothingUnresolved;
    var n := |d.log.staged|;
    var staged := d.(log := AppendStaged(d.log, Writer(request), base + 1));
    AppendedRecord(d.log, request, base + 1);
    var half := Receipted(staged, n, 10);
    ReceiptedKeeps(staged, n, 10);
    var ready := Receipted(half, n, 20);
    ReceiptedKeeps(half, n, 20);
    OthersResolved(d.log.staged, staged.log.staged, half.log.staged, ready.log.staged);
    var a := AsEntry(base + 1, Command(request, Stage(Writer(request))));
    var b := AsEntry(base + 2, Command(request, RecordReceipt(ExampleReceipt(staged.log.staged[n], 10))));
    var c := AsEntry(base + 3, Command(request, RecordReceipt(ExampleReceipt(half.log.staged[n], 20))));
    var e := AsEntry(base + 4, Command(request, PublishStaged));
    hide Find, Receipted;
    StageStep(d, request, base + 1);
    ReceiptStep(staged, request, n, 10, base + 2);
    ReceiptStep(half, request, n, 20, base + 3);
    PublishStep(ready, request, n, base + 4);
    RunFromFour(d, a, b, c, e);
    entries := [a, b, c, e];
  }

  lemma AppendedRecord(log: CommitLog, request: U64, logIndex: U64)
    requires request < 256 && Find(log.staged, Identity(1, request)) == |log.staged|
    ensures var next, n := AppendStaged(log, Writer(request), logIndex), |log.staged|;
            && next == log.(staged := next.staged)
            && |next.staged| == n + 1
            && next.staged[..n] == log.staged
            && Find(next.staged, Identity(1, request)) == n
            && next.staged[n].transaction == Writer(request)
            && next.staged[n].identity == Identity(1, request)
            && next.staged[n].sequence == NextSequence(log)
            && Unresolved(next.staged[n])
            && next.staged[n].receipts == map[]
  {
    hide MakeEnvelope, ChainTip;
    FoundLast(log.staged, StagedRecord(log, Writer(request), logIndex));
  }

  lemma ReceiptedKeeps(d: Domain, i: nat, logSet: U16)
    requires i < |d.log.staged| && Find(d.log.staged, d.log.staged[i].identity) == i
    ensures var next := Receipted(d, i, logSet);
            && next == d.(log := d.log.(staged := next.log.staged))
            && |next.log.staged| == |d.log.staged|
            && (forall j :: 0 <= j < |d.log.staged| && j != i ==> next.log.staged[j] == d.log.staged[j])
            && next.log.staged[i]
               == d.log.staged[i].(
                    receipts := d.log.staged[i].receipts[logSet := ExampleReceipt(d.log.staged[i], logSet)])
            && Find(next.log.staged, d.log.staged[i].identity) == i
  {
  }

  lemma OthersResolved(
    before: seq<StagedTransaction>, staged: seq<StagedTransaction>, half: seq<StagedTransaction>,
    ready: seq<StagedTransaction>)
    requires NothingUnresolved(before) && |staged| == |half| == |ready| == |before| + 1 && staged[..|before|] == before
    requires forall j :: 0 <= j < |before| ==> half[j] == staged[j] && ready[j] == half[j]
    ensures forall j :: 0 <= j < |before| ==> !Unresolved(ready[j])
  {
    forall j | 0 <= j < |before|
      ensures !Unresolved(ready[j])
    {
      assert ready[j] == staged[..|before|][j];
    }
  }

  lemma {:induction false} OneSet(rows: Rows, mutation: Mutation)
    ensures ApplyMutations(rows, [mutation]) == ApplyMutation(rows, mutation)
  {
    assert [mutation][..0] == [];
    assert ApplyMutations(rows, []) == rows;
  }

  /** What publishing a writer changes. */
  lemma WrittenFacts(d: Domain, request: U64, other: U64, logIndex: U64)
    requires Idle(d, request) && request < 256 && other != request
    requires Find(d.log.staged, Identity(1, other)) == |d.log.staged|
    ensures var next := Written(d, request, logIndex);
            && next == d.(log := next.log)
            && Idle(next, other)
            && next.log.latestSequence == NextSequence(d.log)
            && next.log.staged != []
            && LastNumber(next.log) == NextSequence(d.log)
            && next.log.rows == d.log.rows[[request] := [request]]
  {
    hide AppendStaged, Receipted, WritesAt, ApplyMutations;
    var n := |d.log.staged|;
    var staged := d.(log := AppendStaged(d.log, Writer(request), logIndex));
    AppendedRecord(d.log, request, logIndex);
    ReceiptedKeeps(staged, n, 10);
    var half := Receipted(staged, n, 10);
    ReceiptedKeeps(half, n, 20);
    var ready := Receipted(half, n, 20);
    OthersResolved(d.log.staged, staged.log.staged, half.log.staged, ready.log.staged);
    OneSet(d.log.rows, Set([request], [request]));
    var next := Written(d, request, logIndex);
    assert next.log.rows == ApplyMutations(d.log.rows, Writer(request).mutations);
    forall j | 0 <= j < |next.log.staged|
      ensures !Unresolved(next.log.staged[j]) && next.log.staged[j].identity != Identity(1, other)
    {
      if j < n {
        assert next.log.staged[j] == staged.log.staged[..n][j];
      }
    }
  }

  /** The record that publishing a writer leaves behind. */
  lemma WrittenLast(d: Domain, request: U64, logIndex: U64)
    requires Idle(d, request) && request < 256
    ensures var staged, record, n :=
              Written(d, request, logIndex).log.staged, StagedRecord(d.log, Writer(request), logIndex), |d.log.staged|;
            && |staged| == n + 1
            && staged[n].identity == record.identity
            && staged[n].sequence == record.sequence
            && staged[n].envelope == record.envelope
            && staged[n].visible
            && !staged[n].aborted
            && Written(d, request, logIndex).log.previousLogChain == EnvelopeDigest(record.envelope)
  {
    hide ApplyMutations, WritesAt, MakeEnvelope, ChainTip;
    var n := |d.log.staged|;
    var staged := d.(log := AppendStaged(d.log, Writer(request), logIndex));
    AppendedRecord(d.log, request, logIndex);
    ReceiptedKeeps(staged, n, 10);
    ReceiptedKeeps(Receipted(staged, n, 10), n, 20);
  }

  /**
  The run. Six entries publish a first writer, install a policy for log set 30 and prepare its transition; four
  more publish a second writer. Both times the readable sequence is 2, but the rows differ.
  */
  lemma SameSequenceDifferentRows() returns (entries: seq<Entry>)
    ensures |entries| == 10 && forall i :: 0 <= i < 10 ==> entries[i].logIndex == i + 1
    ensures var early, late := RunFrom(Fresh([1], [2], 1), entries[..6]), RunFrom(Fresh([1], [2], 1), entries);
            && early.log.latestSequence == late.log.latestSequence == 2
            && early.log.rows != late.log.rows
  {
    hide Step, RunFrom, Written, NothingUnresolved, Find;
    var start := Fresh([1], [2], 1);
    StartIsIdle();
    var first := WriterCommits(start, 1, 0);
    WrittenFacts(start, 1, 2, 1);
    WrittenFacts(start, 1, 3, 1);
    var published := Written(start, 1, 1);
    var install := AsEntry(5, Command(0, InstallPolicies([Policy(1, 1, 1)])));
    var prepare := AsEntry(6, Command(0, PrepareTransition(Exchange(), Readiness())));
    InstallStep(published, 5);
    var installed := published.(policies := published.policies[30 := Policy(1, 1, 1)]);
    PrepareStep(installed, 6);
    var prepared := installed.(pending := Some(Exchange()), log := BumpSequence(installed.log));
    RunFromOne(published, install);
    RunFromOne(installed, prepare);
    RunFromConcat(start, first, [install]);
    RunFromConcat(start, first + [install], [prepare]);
    var six := first + [install] + [prepare];
    var second := WriterCommits(prepared, 2, 6);
    WrittenFacts(prepared, 2, 3, 7);
    RunFromConcat(start, six, second);
    entries := six + second;
    assert entries[..6] == six;
    assert [2] in RunFrom(start, entries).log.rows && [2] !in RunFrom(start, six).log.rows;
  }

  lemma StartIsIdle()
    ensures Idle(Fresh([1], [2], 1), 1) && NextSequence(Fresh([1], [2], 1).log) == 1
    ensures forall request: U64 ::
              Find(Fresh([1], [2], 1).log.staged, Identity(1, request)) == |Fresh([1], [2], 1).log.staged|
  {
  }
}
