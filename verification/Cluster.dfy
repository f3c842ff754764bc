/** Small clusters for concrete runs: policies over a few nodes, and the steps that stage, fence and abort. */
module Cluster {
  import opened Keys
  import opened Types
  import opened Certificates
  import opened Ordering
  import opened Domain
  import opened Events
  import opened LostSnapshot
  import Generation
  import GenerationRuns

  lemma KeysApart()
    ensures forall m: Byte, n: Byte :: Key(m) == Key(n) ==> m == n
  {
    forall m: Byte, n: Byte | Key(m) == Key(n)
      ensures m == n
    {
      assert Key(m)[0] == m && Key(n)[0] == n;
    }
  }

  /** A policy of the first generation and epoch with a quorum of one. */
  function OneOf(logSet: U16, members: seq<Member>): LogSetPolicy {
    LogSetPolicy(1, 1, 1, logSet, 1, 0, members)
  }

  /** One member, with the log set's number as its id and key. */
  function SolePolicy(logSet: U16): LogSetPolicy
    requires logSet < 256
  {
    OneOf(logSet, [Member(logSet, Key(logSet))])
  }

  lemma SolePolicyIsValid(logSet: U16)
    requires 0 < logSet < 256
    ensures ValidPolicy(SolePolicy(logSet), 1) && SolePolicy(logSet).logSet == logSet && SolePolicy(logSet).quorum == 1
    ensures MemberMap(SolePolicy(logSet).members) == map[logSet as U64 := Key(logSet)]
  {
    SoleMember(logSet, logSet);
  }

  /** Both required log sets have a policy without a limit, and no transition touches them. */
  predicate Equipped(d: Domain) {
    && d.cell == [1]
    && d.tenant == [2]
    && d.log.generation == 1
    && 10 in d.policies
    && 20 in d.policies
    && d.policies[10].softLimitBytes == d.policies[20].softLimitBytes == 0
    && (d.pending.Some? ==> d.pending.value.logSet == 30)
    && d.reservations == map[]
  }

  // ---- installing and staging ----

  lemma InstallPair(d: Domain, first: LogSetPolicy, second: LogSetPolicy, logIndex: U64)
    requires d.log.generation == 1 && NothingUnresolved(d.log.staged)
    requires ValidPolicy(first, 1) && ValidPolicy(second, 1) && first.logSet != second.logSet
    requires first.logSet !in d.policies && second.logSet !in d.policies
    ensures Step(d, AsEntry(logIndex, Command(0, InstallPolicies([first, second]))))
            == d.(policies := d.policies[first.logSet := first][second.logSet := second])
  {
    InstallsPair(d.policies, first, second);
    hide InstallAll, NothingUnresolved, ValidPolicy;
    var policies := [first, second];
    assert policies[0] == first && policies[1] == second;
  }

  lemma InstallsPair(installed: map<U16, LogSetPolicy>, first: LogSetPolicy, second: LogSetPolicy)
    ensures InstallAll(installed, [first, second]) == installed[first.logSet := first][second.logSet := second]
  {
    var policies := [first, second];
    assert policies[..1] == [first] && [first][..0] == [];
    assert InstallAll(installed, []) == installed;
    assert InstallAll(installed, [first]) == installed[first.logSet := first];
  }

  lemma BothConfigured(policies: map<U16, LogSetPolicy>)
    requires 10 in policies && 20 in policies
    ensures ConfiguredCount(policies, [10, 20]) == 2
  {
    assert [10, 20][1..] == [20] && [20][1..] == [];
    assert ConfiguredCount(policies, []) == 0;
    assert ConfiguredCount(policies, [20]) == 1;
  }

  lemma EquippedStage(d: Domain, request: U64, logIndex: U64)
    requires Equipped(d) && request < 256 && Find(d.log.staged, Identity(1, request)) == |d.log.staged|
    ensures Step(d, AsEntry(logIndex, Command(request, Stage(Writer(request)))))
            == d.(log := AppendStaged(d.log, Writer(request), logIndex))
  {
    var tx, command := Writer(request), Command(request, Stage(Writer(request)));
    WriterIsValid(request);
    BothConfigured(d.policies);
    hide ValidRequest, ConfiguredCount, AppendStaged, Find;
    assert StageRequestValid(d, command, tx);
    hide StageRequestValid;
    assert !RatekeepingNeeded(d, tx);
    assert ApplyStage(d, command, tx, logIndex) == AdmitStage(d, tx, logIndex);
  }

  lemma WriterDecodes(request: U64, sequence: U64, logIndex: U64, chain: Digest)
    requires request < 256 && sequence > 0 && logIndex > 0
    ensures Decodes(MakeEnvelope(Writer(request), sequence, logIndex, [10, 20], chain))
  {
  }

  /** The record of a staged writer. */
  predicate IsRecordOf(record: StagedTransaction, request: U64, sequence: U64, chain: Digest, logIndex: U64)
    requires request < 256
  {
    && record.identity == Identity(1, request)
    && record.transaction == Writer(request)
    && record.sequence == sequence
    && record.envelope == MakeEnvelope(Writer(request), sequence, logIndex, [10, 20], chain)
    && !record.aborted
  }

  // ---- fencing and aborting ----

  function FenceOf(record: StagedTransaction, logSet: U16): FenceStatement {
    FenceStatement(1, [1], [2], 1, 1, record.identity, record.sequence, logSet, 1, EnvelopeDigest(record.envelope))
  }

  function FenceProof(signer: U64, key: Bytes, fence: FenceStatement, present: bool): FenceCertificate {
    FenceCertificate(fence, [FenceAttestation(signer, present, Signature(key, FenceMessage(fence, present)))])
  }

  lemma FenceProofIsValid(record: StagedTransaction, policy: LogSetPolicy, signer: U64, key: Bytes, present: bool)
    requires policy.epoch == 1 && policy.quorum == 1 && policy.logSet in record.transaction.logTags
    requires signer in MemberMap(policy.members) && MemberMap(policy.members)[signer] == key
    ensures FenceCertificateValid(
              FenceProof(signer, key, FenceOf(record, policy.logSet), present), policy, record, [1], [2], 1, 1)
    ensures !present ==> AbsentCount(FenceProof(signer, key, FenceOf(record, policy.logSet), present).attestations) == 1
  {
    hide MemberMap;
    var proof := FenceProof(signer, key, FenceOf(record, policy.logSet), present);
    assert proof.attestations[1..] == [];
  }

  lemma OneUnresolved(staged: seq<StagedTransaction>)
    requires |staged| == 2 && staged[0].visible && Unresolved(staged[1])
    ensures UnresolvedCount(staged) == 1
  {
    assert staged[1..] == [staged[1]] && [staged[1]][1..] == [];
    assert UnresolvedCount([]) == 0;
    assert UnresolvedCount([staged[1]]) == 1;
  }

  /** The successor of generation 2 aborts the record on the strength of one fence for each log set. */
  function AbortCommand(record: StagedTransaction, fences: seq<FenceCertificate>): StagedCommand {
    StagedCommand(
      Some(Credential(2, "successor")), 2, record.identity,
      TakeoverAbort(1, 1, record.sequence, EnvelopeDigest(record.envelope), fences))
  }

  predicate Successor2(authority: Generation.Authority) {
    Generation.Authorizes(authority, 2, "successor") && authority.lastCompletedRecoveryId == Some(1)
  }

  /** Everything the abort of record `i` rests on: log set 10 absent on a quorum, log set 20 fenced. */
  predicate AbortReady(d: Domain, i: nat, first: FenceCertificate, second: FenceCertificate) {
    && i < |d.log.staged|
    && var record := d.log.staged[i];
    && d.log.generation == 1
    && Unresolved(record)
    && Find(d.log.staged, record.identity) == i
    && UnresolvedCount(d.log.staged) == 1
    && record.transaction.generation == record.envelope.generation == 1
    && record.transaction.logTags == [10, 20]
    && record.envelope.versionSequence == record.sequence
    && Decodes(record.envelope)
    && record.certificates == map[]
    && 10 in d.policies && 20 in d.policies
    && first.statement.logSet == 10 && second.statement.logSet == 20
    && FenceCertificateValid(first, d.policies[10], record, d.cell, d.tenant, 1, 1)
    && FenceCertificateValid(second, d.policies[20], record, d.cell, d.tenant, 1, 1)
    && AbsentCount(first.attestations) >= d.policies[10].quorum
  }

  lemma AbortProven(d: Domain, i: nat, first: FenceCertificate, second: FenceCertificate)
    requires AbortReady(d, i, first, second)
    ensures AbortProofValid(d, d.log.staged[i], [first, second], 1, 1)
    ensures TakeoverMatches(
              d, AbortCommand(d.log.staged[i], [first, second]), d.log.staged[i], 1, d.log.staged[i].sequence,
              EnvelopeDigest(d.log.staged[i].envelope))
  {
    hide FenceCertificateValid, AbsentCount, UnresolvedCount, Find, Decodes;
    var fences := [first, second];
    assert FenceSets(fences) == [10, 20];
    assert AbsenceProven(d, d.log.staged[i], fences[0]);
  }

  lemma AbortStep(
    d: Domain, i: nat, first: FenceCertificate, second: FenceCertificate, authority: Generation.Authority,
    logIndex: U64)
    requires AbortReady(d, i, first, second) && Successor2(authority)
    ensures Step(d, StagedEntry(logIndex, AbortCommand(d.log.staged[i], [first, second]), authority))
            == d.(log := Ordering.Abort(d.log, i).(generation := 2))
  {
    AbortProven(d, i, first, second);
    hide AbortProofValid, TakeoverMatches, Find, UnresolvedCount, FenceCertificateValid, AbsentCount, Decodes;
  }

  /** Four accepted commands make such an authority. */
  lemma SuccessorExists() returns (authority: Generation.Authority)
    ensures Successor2(authority)
  {
    hide Generation.Apply;
    var handoff := GenerationRuns.Handoff(1, "system", "successor");
    authority := GenerationRuns.Before(handoff, 4);
  }
}
