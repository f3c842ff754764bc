/**
A joint run that loses a durable record behind a gap. Nodes check only the position of what they append, so they
may journal a record without the one before it; prefix recovery then stops at the gap and aborts both.
*/
module Gap {
  import opened Keys
  import opened Types
  import opened Sets
  import opened Certificates
  import opened Ordering
  import opened Domain
  import opened Events
  import opened LogNodes
  import opened Safety
  import opened SystemRuns
  import opened Publication
  import opened JointRuns
  import opened Prefix
  import opened LostSnapshot
  import opened Cluster
  import opened NodeSteps
  import Generation

  // ---- the window and its inventories ----

  function InWindow(record: StagedTransaction): WindowRecord {
    WindowRecord(record.identity, record.sequence, EnvelopeDigest(record.envelope))
  }

  /** The window of two records. */
  function Window(a: StagedTransaction, b: StagedTransaction): StagedWindow {
    var records, size := [InWindow(a), InWindow(b)], TotalBytes([a, b], [0, 1]);
    StagedWindow(1, 1, 2, size, records, WindowDigest(1, 1, 2, size, records))
  }

  function PrefixFenceOf(a: StagedTransaction, b: StagedTransaction, logSet: U16): PrefixFenceStatement {
    PrefixFenceStatement(1, [1], [2], 1, 1, logSet, 1, Window(a, b))
  }

  /** The first record is missing, the second is there. */
  function Seen(a: StagedTransaction, b: StagedTransaction): seq<Observation> {
    [Observation(InWindow(a), false), Observation(InWindow(b), true)]
  }

  function SeenBy(a: StagedTransaction, b: StagedTransaction, logSet: U16): Signature
    requires logSet < 256
  {
    Signature(Key(logSet), PrefixFenceMessage(PrefixFenceOf(a, b, logSet), Seen(a, b)))
  }

  function Inventory(a: StagedTransaction, b: StagedTransaction, logSet: U16): PrefixFenceCertificate
    requires logSet < 256
  {
    PrefixFenceCertificate(
      PrefixFenceOf(a, b, logSet), [PrefixFenceAttestation(logSet, Seen(a, b), SeenBy(a, b, logSet))])
  }

  /** Two unresolved writers in line, under the two sole policies. */
  predicate BothPend(d: Domain, a: StagedTransaction, b: StagedTransaction) {
    && d.cell == [1] && d.tenant == [2] && d.log.generation == 1
    && d.log.staged == [a, b]
    && Unresolved(a) && Unresolved(b)
    && Writ(a) && Writ(b) && a.sequence == 1 && b.sequence == 2
    && a.identity == Identity(1, 1) && b.identity == Identity(1, 2)
    && a.transaction == Writer(1) && b.transaction == Writer(2)
    && a.envelope.previousLogChain == d.log.previousLogChain
    && b.envelope.previousLogChain == EnvelopeDigest(a.envelope)
    && TotalBytes([a, b], [0, 1]) <= MAX_PREFIX_BYTES
    && d.policies == map[10 := SolePolicy(10), 20 := SolePolicy(20)]
  }

  lemma WindowIsValid(a: StagedTransaction, b: StagedTransaction)
    requires a.sequence == 1 && b.sequence == 2
    ensures ValidWindow(Window(a, b))
  {
    hide TotalBytes;
  }

  lemma InventoryIsValid(a: StagedTransaction, b: StagedTransaction, logSet: U16)
    requires a.sequence == 1 && b.sequence == 2 && (logSet == 10 || logSet == 20)
    ensures PrefixFenceCertificateValid(Inventory(a, b, logSet), SolePolicy(logSet), Window(a, b), [1], [2], 1, 1)
  {
    WindowIsValid(a, b);
    SolePolicyIsValid(logSet);
    hide MemberMap, Key, TotalBytes, ValidWindow;
    var inventory := Inventory(a, b, logSet);
    assert inventory.attestations[1..] == [];
    assert CoversWindow(Seen(a, b), Window(a, b).records);
  }

  /** The log set reports the first record absent. */
  lemma ReportsAbsent(
    policies: map<U16, LogSetPolicy>, a: StagedTransaction, b: StagedTransaction, logSet: U16, present: bool)
    requires logSet < 256 && logSet in policies && policies[logSet].quorum == 1
    ensures QuorumReports(policies, Inventory(a, b, logSet), InWindow(a), present) <==> !present
  {
    hide TotalBytes, Key;
    var votes := Inventory(a, b, logSet).attestations;
    assert votes[1..] == [];
    assert ObservedPresence(votes[0].observations, InWindow(a)) == Some(false);
    assert ReportCount(votes, InWindow(a), present) == if present then 0 else 1;
  }

  /** The scan stops at the first record. */
  lemma NothingRecoverable(d: Domain, a: StagedTransaction, b: StagedTransaction)
    requires BothPend(d, a, b)
    ensures RecoverableCount(d.policies, [Inventory(a, b, 10), Inventory(a, b, 20)], Window(a, b).records, 0) == Some(0)
  {
    var inventories := [Inventory(a, b, 10), Inventory(a, b, 20)];
    forall present: bool
      ensures QuorumReports(d.policies, inventories[0], InWindow(a), present) <==> !present
      ensures QuorumReports(d.policies, inventories[1], InWindow(a), present) <==> !present
    {
      ReportsAbsent(d.policies, a, b, 10, present);
      ReportsAbsent(d.policies, a, b, 20, present);
    }
    hide QuorumReports, TotalBytes, Key, Writ, BothPend;
    assert Window(a, b).records[0] == InWindow(a);
    assert QuorumReports(d.policies, inventories[0], InWindow(a), false);
  }

  function RecoverCommand(a: StagedTransaction, b: StagedTransaction): StagedCommand {
    StagedCommand(
      Some(Credential(2, "successor")), 2, Identity(1, 1),
      TakeoverRecoverPrefix(1, 1, Window(a, b), [Inventory(a, b, 10), Inventory(a, b, 20)]))
  }

  lemma IndexesAre(d: Domain, a: StagedTransaction, b: StagedTransaction)
    requires BothPend(d, a, b)
    ensures WindowIndexes(d.log.staged, Window(a, b).records) == [0, 1]
    ensures UnresolvedIndexes(d.log.staged) == [0, 1]
  {
    hide TotalBytes, Writ;
    var staged := d.log.staged;
    assert staged[0].identity == Identity(1, 1) && staged[1].identity == Identity(1, 2);
    assert Find(staged, Identity(1, 1)) == 0;
    assert Find(staged, Identity(1, 2)) == 1;
    assert staged[..1] == [a] && [a][..0] == [];
    assert UnresolvedIndexes([]) == [];
    assert UnresolvedIndexes([a]) == [0];
  }

  lemma RequestIsValid(d: Domain, a: StagedTransaction, b: StagedTransaction, authority: Generation.Authority)
    requires BothPend(d, a, b) && Successor2(authority)
    ensures PrefixRequestValid(d, RecoverCommand(a, b), authority)
  {
    IndexesAre(d, a, b);
    WindowIsValid(a, b);
    hide TotalBytes, WindowIndexes, UnresolvedIndexes, ValidWindow, Inventory, Decodes, SolePolicy;
    var staged, indexes := d.log.staged, WindowIndexes(d.log.staged, Window(a, b).records);
    assert WindowMatches(staged, Window(a, b).records, 1);
    assert WindowAdmissible(staged, Window(a, b));
    assert LinkExact(d.log, indexes, 0, 1, false) && LinkExact(d.log, indexes, 1, 1, false);
    assert TagsAgree(staged, indexes) by {
      assert 10 in Elements(staged[0].transaction.logTags);
    }
    assert Unresolved(staged[indexes[0]]);
  }

  lemma SetsAre(d: Domain, a: StagedTransaction, b: StagedTransaction)
    requires BothPend(d, a, b)
    ensures InventoriesValid(
              d, Elements(a.transaction.logTags), Window(a, b), [Inventory(a, b, 10), Inventory(a, b, 20)], 1, 1)
  {
    InventoryIsValid(a, b, 10);
    InventoryIsValid(a, b, 20);
    hide TotalBytes, PrefixFenceCertificateValid, QuorumReports, Key, SolePolicy, Writ;
    var inventories := [Inventory(a, b, 10), Inventory(a, b, 20)];
    assert InventorySets(inventories) == [10, 20] == a.transaction.logTags;
  }

  /** The second of two records has been aborted; the policies are as before. */
  predicate AbortedBehind(d: Domain, next: Domain) {
    && next.policies == d.policies
    && |next.log.staged| == 2
    && next.log.staged[1].aborted
  }

  lemma AbortsBoth(log: CommitLog)
    requires |log.staged| == 2
    ensures InRange(log.staged, [0, 1]) && Dispose(log, [0, 1], 0, 2).staged[1].aborted
  {
    assert [0, 1][..1] == [0] && [0][..0] == [];
    assert Dispose(log, [], 0, 2) == log;
  }

  lemma Recovers(d: Domain, a: StagedTransaction, b: StagedTransaction, authority: Generation.Authority)
    requires BothPend(d, a, b) && Successor2(authority)
    ensures var outcome := ApplyRecoverPrefix(d, RecoverCommand(a, b), authority);
            outcome.status == PrefixRecovered && AbortedBehind(d, outcome.domain)
  {
    IndexesAre(d, a, b);
    RequestIsValid(d, a, b, authority);
    NothingRecoverable(d, a, b);
    SetsAre(d, a, b);
    AbortsBoth(d.log);
    hide WindowIndexes, UnresolvedIndexes, PrefixRequestValid, RecoverableCount, InventoriesValid, TotalBytes, Dispose,
      CountVisible, CountAborted, Inventory, Window, Writ, SolePolicy;
  }

  /** Recovery is accepted, publishes nothing and aborts both records. */
  lemma RecoveryAborts(
    d: Domain, a: StagedTransaction, b: StagedTransaction, authority: Generation.Authority, logIndex: U64)
    requires BothPend(d, a, b) && Successor2(authority)
    ensures AbortedBehind(d, Step(d, StagedEntry(logIndex, RecoverCommand(a, b), authority)))
  {
    hide Step, ApplyRecoverPrefix, BothPend, AbortedBehind;
    Recovers(d, a, b, authority);
    RecoverIsDispatched(d, logIndex, RecoverCommand(a, b), authority);
  }

  // ---- staging ----

  lemma {:induction false} DigitsBound(bytes: Bytes, count: nat)
    requires count <= |bytes|
    ensures JsonDigits(bytes, count) <= 3 * count
  {
    if count == 0 {
    } else {
      DigitsBound(bytes, count - 1);
    }
  }

  lemma BytesBound(bytes: Bytes)
    ensures JsonBytes(bytes) <= 4 * |bytes| + 2
  {
    DigitsBound(bytes, |bytes|);
  }

  /** A writer's envelope is short. */
  lemma WriterIsShort(request: U64, sequence: U64, logIndex: U64, chain: Digest)
    requires request < 256
    ensures EncodedBytes(MakeEnvelope(Writer(request), sequence, logIndex, [10, 20], chain)) <= 1000
  {
    hide JsonBytes;
    var range, mutation := Point([request]), Set([request], [request]);
    BytesBound(range.start);
    BytesBound(range.end);
    assert [range][1..] == [] && JsonRanges([]) == 2;
    assert [mutation][1..] == [] && JsonMutations([]) == 2;
    assert JsonRanges([range]) <= 40;
    assert JsonMutations([mutation]) <= 50;
  }

  lemma TotalIsShort(a: StagedTransaction, b: StagedTransaction)
    requires EncodedBytes(a.envelope) <= 1000 && EncodedBytes(b.envelope) <= 1000
    ensures InRange([a, b], [0, 1]) && TotalBytes([a, b], [0, 1]) <= MAX_PREFIX_BYTES
  {
    hide EncodedBytes;
    assert [0, 1][..1] == [0] && [0][..0] == [];
    assert TotalBytes([a, b], []) == 0;
    assert TotalBytes([a, b], [0]) <= 1000;
  }

  /** A fresh domain under the two sole policies. */
  function Ready(): Domain {
    Fresh([1], [2], 1).(policies := map[10 := SolePolicy(10), 20 := SolePolicy(20)])
  }

  function StageEntry(request: U64, logIndex: U64): Entry
    requires request < 256
  {
    AsEntry(logIndex, Command(request, Stage(Writer(request))))
  }

  /** The two writers are staged one after the other. */
  lemma BothAreStaged() returns (one: Domain, both: Domain, a: StagedTransaction, b: StagedTransaction)
    ensures Step(Ready(), StageEntry(1, 2)) == one && Step(one, StageEntry(2, 3)) == both
    ensures one.policies == both.policies == Ready().policies && BothPend(both, a, b)
  {
    hide Step, SolePolicy, TotalBytes, EncodedBytes;
    a := StagedRecord(Ready().log, Writer(1), 2);
    assert Find([], Identity(1, 1)) == 0;
    EquippedReady();
    EquippedStage(Ready(), 1, 2);
    one := Ready().(log := AppendStaged(Ready().log, Writer(1), 2));
    WriterDecodes(1, 1, 2, ZeroDigest);
    FirstIs(a);
    assert Find([a], Identity(1, 2)) == 1;
    EquippedStage(one, 2, 3);
    StagedBehind(one.log, a, 2, 3);
    b := StagedRecord(one.log, Writer(2), 3);
    both := one.(log := AppendStaged(one.log, Writer(2), 3));
    WriterIsShort(1, 1, 2, ZeroDigest);
    WriterIsShort(2, 2, 3, EnvelopeDigest(a.envelope));
    TotalIsShort(a, b);
  }

  lemma EquippedReady()
    ensures Equipped(Ready())
  {
  }

  lemma FirstIs(a: StagedTransaction)
    requires a == StagedRecord(Ready().log, Writer(1), 2)
    ensures Writ(a) && Unresolved(a) && a.identity == Identity(1, 1) && a.transaction == Writer(1) && a.sequence == 1
    ensures a.envelope == MakeEnvelope(Writer(1), 1, 2, [10, 20], ZeroDigest)
    ensures AppendStaged(Ready().log, Writer(1), 2) == Ready().log.(staged := [a])
  {
    WriterDecodes(1, 1, 2, ZeroDigest);
    hide Decodes, SolePolicy;
    assert LastNumber(Ready().log) == 0;
  }

  // ---- the nodes ----

  /** A member that has only the second record. */
  function Gapped(logSet: U16, b: StagedTransaction): Node {
    NewNode(logSet).(journal := [Entry10And20(1, b)], lastPosition := 1)
  }

  predicate IsDuo(w: World, ten: Node, twenty: Node) {
    && w.nodes.Keys == {Key(10), Key(20)}
    && w.nodes[Key(10)] == ten
    && w.nodes[Key(20)] == twenty
  }

  function NewDuo(): World {
    World(map[Key(10) := NewNode(10), Key(20) := NewNode(20)], {})
  }

  lemma NewDuoIsBlank()
    ensures IsDuo(NewDuo(), NewNode(10), NewNode(20)) && Blank(NewDuo()) && SourcesKnown(NewDuo())
  {
    KeysApart();
    hide Key, MemberMap;
  }

  lemma DuoProvides(w: World, d: Domain)
    requires w.nodes.Keys == {Key(10), Key(20)}
    requires d.policies == map[] || d.policies == map[10 := SolePolicy(10), 20 := SolePolicy(20)]
    ensures Provisioned(w, d) && KnownTo(w, d)
  {
    SolePolicyIsValid(10);
    SolePolicyIsValid(20);
    hide Key, MemberMap;
  }

  /** A new member appends the second record although the first is missing. */
  lemma AppendsBehindGap(logSet: U16, key: Bytes, a: StagedTransaction, b: StagedTransaction)
    requires (logSet == 10 || logSet == 20) && Writ(a) && Writ(b) && a.identity != b.identity
    ensures Serve(NewNode(logSet), key, AppendRecord(Entry10And20(1, b))) == Answer(Gapped(logSet, b), None)
    ensures Plain(Gapped(logSet, b)) && Logged(Gapped(logSet, b), b.envelope) && !Logged(Gapped(logSet, b), a.envelope)
  {
    hide Serve, Decodes;
    AppendsWrit(NewNode(logSet), key, b);
    assert NewNode(logSet).journal + [Entry10And20(1, b)] == Gapped(logSet, b).journal;
  }

  /** Fenced over the window, it reports the gap. */
  lemma FencesGap(logSet: U16, a: StagedTransaction, b: StagedTransaction)
    requires (logSet == 10 || logSet == 20) && Writ(a) && Writ(b) && a.identity != b.identity
    ensures Serve(Gapped(logSet, b), Key(logSet), FencePrefix(PrefixFenceOf(a, b, logSet))).signature
            == Some(SeenBy(a, b, logSet))
  {
    AppendsBehindGap(logSet, Key(logSet), a, b);
    PresentIffJournaled(Gapped(logSet, b), a);
    PresentIffJournaled(Gapped(logSet, b), b);
    hide Present, Logged, Decodes, TotalBytes, Key, Plain, Writ;
    assert Observe(Gapped(logSet, b), PrefixFenceOf(a, b, logSet)) == Seen(a, b);
  }

  /** With both members holding it, the second record is held everywhere. */
  lemma DuoHolds(s: System, a: StagedTransaction, b: StagedTransaction)
    requires BothPend(s.domain, a, b) && IsDuo(s.world, Gapped(10, b), Gapped(20, b))
    ensures HeldEverywhere(s, 1)
  {
    hide MemberMap, Gapped, Logged, Key, Writ, TotalBytes;
    SolePolicyIsValid(10);
    SolePolicyIsValid(20);
    AppendsBehindGap(10, Key(10), a, b);
    AppendsBehindGap(20, Key(20), a, b);
    assert Holders(s.world, SolePolicy(10), b.envelope) >= {10};
    Cardinality({10}, Holders(s.world, SolePolicy(10), b.envelope));
    assert Holders(s.world, SolePolicy(20), b.envelope) >= {20};
    Cardinality({20}, Holders(s.world, SolePolicy(20), b.envelope));
  }

  // ---- the run ----

  /** A trace under way under majority policies, without pops; appends may come in any order. */
  predicate Drifts(t: SystemTrace) {
    hide IsSystemTrace, AllPublished, AllKnown, AllProvisioned, Popless;
    Goes(t) && AllProvisioned(t) && Popless(t)
  }

  /** Policies are installed and both writers staged. */
  lemma StagedRun() returns (t: SystemTrace, a: StagedTransaction, b: StagedTransaction)
    ensures Drifts(t) && BothPend(Last(t).domain, a, b)
    ensures IsDuo(Last(t).world, NewNode(10), NewNode(20))
  {
    hide IsSystemTrace, AllPublished, AllKnown, AllProvisioned, AllOrdered, Step, Provisioned, KnownTo, Key, NewNode,
      BothPend, SolePolicy, Blank, NewDuo;
    var start, w := Fresh([1], [2], 1), NewDuo();
    NewDuoIsBlank();
    Starts(w, start);
    SolePolicyIsValid(10);
    SolePolicyIsValid(20);
    InstallPair(start, SolePolicy(10), SolePolicy(20), 1);
    DuoProvides(w, Ready());
    var install := AsEntry(1, Command(0, InstallPolicies([SolePolicy(10), SolePolicy(20)])));
    var t1 := CommandTurn(Begin(w, start), install);
    var one, both;
    one, both, a, b := BothAreStaged();
    DuoProvides(w, one);
    var t2 := CommandTurn(t1, StageEntry(1, 2));
    DuoProvides(w, both);
    t := CommandTurn(t2, StageEntry(2, 3));
  }

  /** Both members append the second record and nothing else. */
  lemma GappedRun(t: SystemTrace, a: StagedTransaction, b: StagedTransaction) returns (u: SystemTrace)
    requires Drifts(t) && BothPend(Last(t).domain, a, b) && IsDuo(Last(t).world, NewNode(10), NewNode(20))
    ensures Drifts(u) && Last(u).domain == Last(t).domain && IsDuo(Last(u).world, Gapped(10, b), Gapped(20, b))
  {
    hide IsSystemTrace, AllPublished, AllKnown, AllProvisioned, AllOrdered, Popless, Serve, Key, NewNode, Gapped, Writ,
      TotalBytes, SolePolicy;
    KeysApart();
    AppendsBehindGap(10, Key(10), a, b);
    AppendsBehindGap(20, Key(20), a, b);
    var append := AppendRecord(Entry10And20(1, b));
    var half := NodeTurn(t, Key(10), append);
    u := NodeTurn(half, Key(20), append);
  }

  /** Both are fenced and report the gap. */
  lemma FencedRun(t: SystemTrace, a: StagedTransaction, b: StagedTransaction) returns (u: SystemTrace)
    requires Drifts(t) && BothPend(Last(t).domain, a, b) && IsDuo(Last(t).world, Gapped(10, b), Gapped(20, b))
    ensures Drifts(u) && Last(u).domain == Last(t).domain && Last(u).world.nodes.Keys == {Key(10), Key(20)}
    ensures SeenBy(a, b, 10) in Last(u).world.issued && SeenBy(a, b, 20) in Last(u).world.issued
    ensures |u.states| == |t.states| + 2 && u.states[..|t.states|] == t.states
  {
    hide IsSystemTrace, AllPublished, AllKnown, AllProvisioned, AllOrdered, Popless, Serve, Key, Gapped, Writ,
      TotalBytes, SolePolicy, SeenBy, PrefixFenceOf;
    KeysApart();
    FencesGap(10, a, b);
    FencesGap(20, a, b);
    var half := NodeTurn(t, Key(10), FencePrefix(PrefixFenceOf(a, b, 10)));
    u := NodeTurn(half, Key(20), FencePrefix(PrefixFenceOf(a, b, 20)));
    assert u.states[..|t.states|] == u.states[..|half.states|][..|t.states|];
  }

  lemma RecoverIsAuthentic(w: World, a: StagedTransaction, b: StagedTransaction)
    requires SeenBy(a, b, 10) in w.issued && SeenBy(a, b, 20) in w.issued
    ensures AuthenticCommand(w, RecoverCommand(a, b))
  {
    hide Key, TotalBytes;
  }

  /**
  Appends out of order can lose a durable record. In this joint run every policy is a majority of known nodes and
  nothing is popped; a record held by a quorum of both its log sets is aborted by an accepted prefix recovery,
  because the record before it was never appended.
  */
  lemma GapLosesDurable() returns (t: SystemTrace, m: nat, n: nat)
    ensures IsSystemTrace(t) && AllProvisioned(t) && AllTrimmed(t)
    ensures m < n < |t.states| && 10 in t.states[m].domain.policies && 20 in t.states[m].domain.policies
    ensures HeldEverywhere(t.states[m], 1) && Unresolved(t.states[m].domain.log.staged[1])
    ensures 1 < |t.states[n].domain.log.staged| && t.states[n].domain.log.staged[1].aborted
  {
    hide IsSystemTrace, AllPublished, AllKnown, AllOrdered, AllTrimmed, ProvisionedAt, HeldEverywhere, Step,
      Provisioned, KnownTo, AuthenticCommand, IsDuo, Key, Gapped, NewNode, SolePolicy, TotalBytes, Writ, SourcesKnown,
      RecoverCommand, SeenBy, Popless;
    var staged, a, b := StagedRun();
    var held := GappedRun(staged, a, b);
    DuoHolds(Last(held), a, b);
    var fenced := FencedRun(held, a, b);
    var authority := SuccessorExists();
    RecoveryAborts(Last(fenced).domain, a, b, authority, 4);
    RecoverIsAuthentic(Last(fenced).world, a, b);
    var recover := StagedEntry(4, RecoverCommand(a, b), authority);
    DuoProvides(Last(fenced).world, Step(Last(fenced).domain, recover));
    t := CommandTurn(fenced, recover);
    m, n := |held.moves|, |t.moves|;
    assert t.states[m] == fenced.states[m] == held.states[m] == Last(held);
    PoplessRunsAreTrimmed(t);
  }
}
