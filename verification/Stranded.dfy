/**
A run that strands a record: a publishing takeover that names an already visible record is accepted, commits
it a second time and leaves an unresolved record of the old generation behind.
*/
module Stranded {
  import opened Types
  import opened Certificates
  import opened Ordering
  import opened Domain
  import opened Events
  import opened LostSnapshot
  import opened Cluster
  import Generation
  import GenerationRuns

  function BothPolicies(): map<U16, LogSetPolicy> {
    map[10 := SolePolicy(10), 20 := SolePolicy(20)]
  }

  // ---- one step of each kind ----

  lemma InstallBoth(d: Domain, logIndex: U64)
    requires d == Fresh([1], [2], 1)
    ensures Step(d, AsEntry(logIndex, Command(0, InstallPolicies([SolePolicy(10), SolePolicy(20)]))))
            == d.(policies := BothPolicies())
    ensures Equipped(d.(policies := BothPolicies()))
  {
    hide Step, ValidPolicy, MemberMap;
    SolePolicyIsValid(10);
    SolePolicyIsValid(20);
    InstallPair(d, SolePolicy(10), SolePolicy(20), logIndex);
  }

  function SoleStatement(record: StagedTransaction, logSet: U16): TaggedLogStatement {
    TaggedLogStatement(
      1, [1], [2], 1, record.identity, record.sequence, logSet, 1, EnvelopeDigest(record.envelope), 1)
  }

  function SoleDurable(record: StagedTransaction, logSet: U16): TaggedLogCertificate
    requires logSet < 256
  {
    var statement := SoleStatement(record, logSet);
    TaggedLogCertificate(statement, [Attestation(logSet, Signature(Key(logSet), DurableMessage(statement)))])
  }

  lemma SoleDurableIsValid(
    record: StagedTransaction, request: U64, sequence: U64, chain: Digest, logIndex: U64, logSet: U16)
    requires request < 256 && IsRecordOf(record, request, sequence, chain, logIndex) && (logSet == 10 || logSet == 20)
    requires Decodes(record.envelope)
    ensures CertificateValid(SoleDurable(record, logSet), SolePolicy(logSet), record, [1], [2], 1)
  {
    SolePolicyIsValid(logSet);
    hide MemberMap, Key, Decodes;
    assert NodeIds(SolePolicy(logSet).members) == [logSet as U64];
  }

  function Certify(d: Domain, i: nat, logSet: U16): Domain
    requires i < |d.log.staged| && logSet < 256
  {
    var record := d.log.staged[i];
    WithRecord(d, i, record.(certificates := record.certificates[logSet := SoleDurable(record, logSet)]))
  }

  lemma CertificateStep(d: Domain, request: U64, i: nat, logSet: U16, logIndex: U64)
    requires Equipped(d) && d.policies == BothPolicies() && request < 256 && (logSet == 10 || logSet == 20)
    requires i < |d.log.staged| && Find(d.log.staged, Identity(1, request)) == i
    requires d.log.staged[i].transaction == Writer(request) && !d.log.staged[i].aborted
    requires CertificateValid(
               SoleDurable(d.log.staged[i], logSet), SolePolicy(logSet), d.log.staged[i], [1], [2], 1)
    requires logSet !in d.log.staged[i].certificates
    ensures Step(d, AsEntry(logIndex, Command(request, RecordCertificate(SoleDurable(d.log.staged[i], logSet)))))
            == Certify(d, i, logSet)
  {
    hide Find, WithRecord, CertificateValid, SolePolicy;
  }

  lemma EquippedPublish(d: Domain, request: U64, i: nat, logIndex: U64)
    requires Equipped(d) && request < 256
    requires i < |d.log.staged| && Find(d.log.staged, Identity(1, request)) == i
    requires d.log.staged[i].transaction == Writer(request)
    requires Unresolved(d.log.staged[i]) && 10 in d.log.staged[i].certificates && 20 in d.log.staged[i].certificates
    requires forall j :: 0 <= j < |d.log.staged| && j != i ==> !Unresolved(d.log.staged[j])
    ensures Step(d, AsEntry(logIndex, Command(request, PublishStaged))) == d.(log := Publish(d.log, i, 1))
  {
    hide Find, Publish, SolePolicy;
    assert DurableEverywhere(d.policies, d.log.staged[i]);
    assert !EarlierPending(d.log.staged, d.log.staged[i].sequence);
  }

  // ---- the run ----

  /** The record of the first writer, with both certificates. */
  function FirstRecord(): StagedTransaction {
    var tx := Writer(1);
    var bare := StagedTransaction(
      tx.identity, tx, 1, MakeEnvelope(tx, 1, 2, [10, 20], ZeroDigest), map[], map[], false, false);
    bare.(certificates := map[10 := SoleDurable(bare, 10), 20 := SoleDurable(bare, 20)])
  }

  lemma FirstIsStaged(d: Domain)
    requires d.log == Fresh([1], [2], 1).log
    ensures AppendStaged(d.log, Writer(1), 2) == d.log.(staged := [FirstRecord().(certificates := map[])])
  {
  }

  lemma FirstIsCertified(d: Domain)
    requires d.log.staged == [FirstRecord().(certificates := map[])]
    ensures Certify(Certify(d, 0, 10), 0, 20) == d.(log := d.log.(staged := [FirstRecord()]))
    ensures Certify(d, 0, 10).log.staged == [FirstRecord().(certificates := map[10 := FirstRecord().certificates[10]])]
    ensures Certify(d, 0, 10) == d.(log := d.log.(staged := Certify(d, 0, 10).log.staged))
  {
    hide MakeEnvelope, Key;
  }

  lemma FirstCertificatesAreValid(record: StagedTransaction, logSet: U16)
    requires record == FirstRecord().(certificates := record.certificates) && (logSet == 10 || logSet == 20)
    ensures SoleDurable(record, logSet) == FirstRecord().certificates[logSet]
    ensures CertificateValid(SoleDurable(record, logSet), SolePolicy(logSet), record, [1], [2], 1)
  {
    hide MakeEnvelope, Decodes, CertificateValid, SolePolicy, Key;
    WriterDecodes(1, 1, 2, ZeroDigest);
    SoleDurableIsValid(record, 1, 1, ZeroDigest, 2, logSet);
  }

  /** The domain once the first writer is published. */
  function Published(): Domain {
    var d := Fresh([1], [2], 1).(policies := BothPolicies());
    d.(log := Publish(d.log.(staged := [FirstRecord()]), 0, 1))
  }

  /** Five entries install the policies and stage, certify and publish the first writer. */
  lemma FirstWriterCommits() returns (entries: seq<Entry>)
    ensures |entries| == 5 && forall i :: 0 <= i < 5 ==> entries[i].logIndex == i + 1
    ensures RunFrom(Fresh([1], [2], 1), entries) == Published()
  {
    hide Step, RunFrom, AppendStaged, Publish, Find, FirstRecord, SolePolicy, CertificateValid, Certify, SoleDurable;
    var start := Fresh([1], [2], 1);
    var a := AsEntry(1, Command(0, InstallPolicies([SolePolicy(10), SolePolicy(20)])));
    InstallBoth(start, 1);
    var d1 := start.(policies := BothPolicies());
    var b := AsEntry(2, Command(1, Stage(Writer(1))));
    assert Find(d1.log.staged, Identity(1, 1)) == 0 by {
      StartIsIdle();
    }
    EquippedStage(d1, 1, 2);
    FirstIsStaged(d1);
    var d2 := d1.(log := AppendStaged(d1.log, Writer(1), 2));
    FirstIsCertified(d2);
    var d3 := Certify(d2, 0, 10);
    var d4 := Certify(d3, 0, 20);
    FirstParts();
    FirstCertificatesAreValid(d2.log.staged[0], 10);
    FirstCertificatesAreValid(d3.log.staged[0], 20);
    FindsFirst(d2.log.staged);
    FindsFirst(d3.log.staged);
    FindsFirst(d4.log.staged);
    var c := AsEntry(3, Command(1, RecordCertificate(SoleDurable(d2.log.staged[0], 10))));
    CertificateStep(d2, 1, 0, 10, 3);
    var e := AsEntry(4, Command(1, RecordCertificate(SoleDurable(d3.log.staged[0], 20))));
    CertificateStep(d3, 1, 0, 20, 4);
    var f := AsEntry(5, Command(1, PublishStaged));
    EquippedPublish(d4, 1, 0, 5);
    RunFromFour(start, a, b, c, e);
    RunFromSnoc(start, [a, b, c, e], f);
    entries := [a, b, c, e] + [f];
  }

  lemma FirstParts()
    ensures var record := FirstRecord();
            && record.identity == Identity(1, 1)
            && record.transaction == Writer(1)
            && Unresolved(record)
            && record.certificates.Keys == {10, 20}
  {
    hide MakeEnvelope, SoleDurable;
  }

  lemma FindsFirst(staged: seq<StagedTransaction>)
    requires |staged| >= 1 && staged[0].identity == Identity(1, 1)
    ensures Find(staged, Identity(1, 1)) == 0
  {
  }

  lemma PublishedFacts()
    ensures var d := Published();
            && Equipped(d)
            && d.log.staged == [FirstRecord().(visible := true)]
            && d.log.committedEnvelopes == [FirstRecord().envelope]
  {
    hide MakeEnvelope, SoleDurable, ApplyMutations, WritesAt;
  }

  /** The takeover of generation 2 that names the first writer, already visible. */
  function Takeover(): StagedCommand {
    StagedCommand(
      Some(Credential(2, "successor")), 2, Identity(1, 1),
      TakeoverPublish(1, 1, 1, EnvelopeDigest(FirstRecord().envelope)))
  }

  /** One visible record, and one unresolved record of the same generation. */
  predicate HalfDone(d: Domain) {
    && d.log.generation == 1
    && |d.log.staged| == 2
    && d.log.staged[0] == FirstRecord().(visible := true)
    && Unresolved(d.log.staged[1])
    && d.log.staged[1].transaction.generation == 1
    && d.log.committedEnvelopes == [FirstRecord().envelope]
  }

  lemma TakeoverMatchesFirst(d: Domain)
    requires HalfDone(d)
    ensures TakeoverMatches(d, Takeover(), d.log.staged[0], 1, 1, EnvelopeDigest(FirstRecord().envelope))
    ensures Certified(d.log.staged[0])
  {
    OneUnresolved(d.log.staged);
    WriterDecodes(1, 1, 2, ZeroDigest);
    hide Decodes, UnresolvedCount, SoleDurable;
  }

  lemma TakeoverStep(d: Domain, authority: Generation.Authority, logIndex: U64)
    requires HalfDone(d) && Generation.Authorizes(authority, 2, "successor")
    requires authority.lastCompletedRecoveryId == Some(1)
    ensures Step(d, StagedEntry(logIndex, Takeover(), authority)) == d.(log := Publish(d.log, 0, 2))
  {
    TakeoverMatchesFirst(d);
    FirstParts();
    FindsFirst(d.log.staged);
    hide Find, TakeoverMatches, Certified, Publish, FirstRecord;
  }

  lemma TakeoverEffect(d: Domain)
    requires HalfDone(d)
    ensures var log := Publish(d.log, 0, 2);
            && log.generation == 2
            && |log.staged| == 2
            && log.staged[1] == d.log.staged[1]
            && log.committedEnvelopes == [FirstRecord().envelope, FirstRecord().envelope]
  {
    hide ApplyMutations, WritesAt, FirstRecord;
  }

  lemma SecondIsStaged()
    ensures var d := Published();
            && Find(d.log.staged, Identity(1, 2)) == |d.log.staged|
            && HalfDone(d.(log := AppendStaged(d.log, Writer(2), 6)))
  {
    hide MakeEnvelope, ChainTip, FirstRecord, Publish;
    PublishedFacts();
    FirstParts();
  }

  /**
  The run. Six entries publish a first writer under certified policies and stage a second; the authority is
  handed to generation 2; then a publishing takeover names the first writer. It is accepted: the same
  envelope is committed twice, the generation moves on, and the second writer is stranded in the old one.
  */
  lemma VisibleTargetStrandsTheOther() returns (entries: seq<Entry>, handoff: seq<Generation.Action>)
    ensures |entries| == 7 && forall i :: 0 <= i < 7 ==> entries[i].logIndex == i + 1
    ensures |handoff| == 4 && entries[6].StagedEntry? && entries[6].authority == GenerationRuns.Before(handoff, 4)
    ensures var early, late := RunFrom(Fresh([1], [2], 1), entries[..6]).log, RunFrom(Fresh([1], [2], 1), entries).log;
            && |early.staged| == |late.staged| == 2
            && early.staged[0].visible
            && early.generation == early.staged[1].transaction.generation
            && late.committedEnvelopes == [early.staged[0].envelope, early.staged[0].envelope]
            && Unresolved(late.staged[1])
            && late.staged[1].transaction.generation < late.generation
  {
    hide Step, RunFrom, AppendStaged, Publish, Find, FirstRecord, Published, Equipped;
    var start := Fresh([1], [2], 1);
    var first := FirstWriterCommits();
    PublishedFacts();
    SecondIsStaged();
    var stage := AsEntry(6, Command(2, Stage(Writer(2))));
    EquippedStage(Published(), 2, 6);
    RunFromSnoc(start, first, stage);
    var half := Published().(log := AppendStaged(Published().log, Writer(2), 6));
    handoff := GenerationRuns.Handoff(1, "system", "successor");
    var takeover := StagedEntry(7, Takeover(), GenerationRuns.Before(handoff, 4));
    TakeoverStep(half, GenerationRuns.Before(handoff, 4), 7);
    TakeoverEffect(half);
    RunFromSnoc(start, first + [stage], takeover);
    entries := first + [stage] + [takeover];
    assert entries[..6] == first + [stage];
  }
}
