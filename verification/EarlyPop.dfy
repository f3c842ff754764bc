/**
A joint run that loses a durable record to a published pop. A policy transition takes readers past the staged
numbering, so a record is staged late; a node that holds it pops at what is readable, and then denies it.
*/
module EarlyPop {
  import opened Keys
  import opened Types
  import opened Sets
  import opened Certificates
  import opened Ordering
  import opened Domain
  import opened Events
  import opened Policies
  import opened LogNodes
  import opened Safety
  import opened SystemRuns
  import opened Publication
  import opened JointRuns
  import opened LostSnapshot
  import opened Cluster
  import opened NodeSteps

  // ---- the commands ----

  function Start(): Domain {
    Fresh([1], [2], 1)
  }

  /** The first writer is published. */
  function First(): Domain {
    Written(Start(), 1, 1)
  }

  function With30(): Domain {
    First().(policies := First().policies[30 := Policy(1, 1, 1)])
  }

  /** A transition of log set 30 is prepared, which takes readers to sequence 2. */
  function Prepared(): Domain {
    With30().(pending := Some(Exchange()), log := BumpSequence(With30().log))
  }

  function Furnished(): Domain {
    Prepared().(policies := Prepared().policies[10 := SolePolicy(10)][20 := SolePolicy(20)])
  }

  /** The second writer is staged, at sequence 2. */
  function Late(): Domain {
    Furnished().(log := AppendStaged(Furnished().log, Writer(2), 8))
  }

  function Old(): StagedTransaction
    requires |First().log.staged| > 0
  {
    First().log.staged[0]
  }

  function New(): StagedTransaction {
    StagedRecord(Furnished().log, Writer(2), 8)
  }

  lemma FirstFacts()
    ensures First() == Start().(log := First().log)
    ensures Idle(First(), 2) && First().log.latestSequence == 1 && LastNumber(First().log) == 1
    ensures |First().log.staged| == 1
    ensures Old().identity == Identity(1, 1) && Old().sequence == 1 && Old().visible && !Old().aborted
    ensures Old().envelope == MakeEnvelope(Writer(1), 1, 1, [10, 20], ZeroDigest)
  {
    hide Written, MakeEnvelope;
    StartIsIdle();
    WrittenFacts(Start(), 1, 2, 1);
    WrittenLast(Start(), 1, 1);
  }

  lemma OldIsWrit()
    ensures |First().log.staged| == 1 && Writ(Old()) && Old().envelope.previousLogChain == ZeroDigest
  {
    FirstFacts();
    WriterDecodes(1, 1, 1, ZeroDigest);
    hide Written, Decodes;
  }

  lemma FurnishedFacts()
    ensures Equipped(Furnished()) && Furnished().log.staged == First().log.staged
    ensures Furnished().policies == map[30 := Policy(1, 1, 1), 10 := SolePolicy(10), 20 := SolePolicy(20)]
    ensures Furnished().log.latestSequence == 2 && LastNumber(Furnished().log) == 1
    ensures Find(Furnished().log.staged, Identity(1, 2)) == 1
  {
    FirstFacts();
    hide Written, Policy, Find, NothingUnresolved, Exchange;
    ExchangeIs30();
  }

  lemma ExchangeIs30()
    ensures Exchange().logSet == 30
  {
  }

  lemma NewIsWrit()
    ensures |First().log.staged| == 1
    ensures Writ(New()) && Unresolved(New()) && New().identity == Identity(1, 2) && New().sequence == 2
    ensures New().transaction == Writer(2) && New().certificates == map[]
    ensures New().envelope.previousLogChain == EnvelopeDigest(Old().envelope)
    ensures Late() == Furnished().(log := Furnished().log.(staged := [Old(), New()]))
    ensures Late().log.latestSequence == 2 && Late().policies == Furnished().policies
  {
    hide First, Furnished, Writ, AppendStaged, StagedRecord, LastNumber, Find, Equipped, MakeEnvelope;
    FirstFacts();
    FurnishedFacts();
    assert Furnished().log.staged == [Old()];
    StagedBehind(Furnished().log, Old(), 2, 8);
  }

  lemma InstallsThirty()
    ensures Step(First(), AsEntry(5, Command(0, InstallPolicies([Policy(1, 1, 1)])))) == With30()
  {
    hide Step, First, Policy, NothingUnresolved, Find, Written;
    FirstFacts();
    InstallStep(First(), 5);
  }

  lemma Prepares()
    ensures Step(With30(), AsEntry(6, Command(0, PrepareTransition(Exchange(), Readiness())))) == Prepared()
  {
    hide Step, First, Policy, NothingUnresolved, Exchange, Readiness, Find;
    FirstFacts();
    PrepareStep(With30(), 6);
  }

  lemma Furnishes()
    ensures Step(Prepared(), AsEntry(7, Command(0, InstallPolicies([SolePolicy(10), SolePolicy(20)])))) == Furnished()
  {
    hide Step, First, Policy, NothingUnresolved, Exchange, ValidPolicy, MemberMap, SolePolicy, Find;
    FirstFacts();
    SolePolicyIsValid(10);
    SolePolicyIsValid(20);
    InstallPair(Prepared(), SolePolicy(10), SolePolicy(20), 7);
  }

  lemma StagesLate()
    ensures Step(Furnished(), AsEntry(8, Command(2, Stage(Writer(2))))) == Late()
  {
    hide Step, Furnished, Find, Equipped, AppendStaged, First;
    FirstFacts();
    FurnishedFacts();
    EquippedStage(Furnished(), 2, 8);
  }

  // ---- the nodes ----

  /** One member each of log sets 30, 10 and 20. */
  predicate IsTriple(w: World, member: Node, ten: Node, twenty: Node) {
    && w.nodes.Keys == {Key(1), Key(10), Key(20)}
    && w.nodes[Key(1)] == member
    && w.nodes[Key(10)] == ten
    && w.nodes[Key(20)] == twenty
  }

  function NewTriple(): World {
    World(map[Key(1) := NewNode(30), Key(10) := NewNode(10), Key(20) := NewNode(20)], {})
  }

  lemma NewTripleIsBlank()
    ensures IsTriple(NewTriple(), NewNode(30), NewNode(10), NewNode(20))
    ensures Blank(NewTriple()) && SourcesKnown(NewTriple())
  {
    KeysApart();
    hide Key, MemberMap;
  }

  /** All three policies are majorities over these nodes. */
  lemma TripleProvides(w: World, d: Domain)
    requires w.nodes.Keys == {Key(1), Key(10), Key(20)}
    requires forall logSet :: logSet in d.policies ==>
               d.policies[logSet] in {Policy(1, 1, 1), SolePolicy(10), SolePolicy(20)}
    ensures KnownTo(w, d) && Provisioned(w, d)
  {
    SolePolicyIsValid(10);
    SolePolicyIsValid(20);
    SoleMember(1, 1);
    hide Key, MemberMap;
  }

  /** The member of log set 30 with both its records, and after popping the first. */
  function Member30(): Node {
    NewNode(30).(journal := [Only30(1), Only30(2)], lastPosition := 2)
  }

  function Popped30(): Node {
    NewNode(30).(journal := [Only30(2)], lastPosition := 2, poppedThrough := 1)
  }

  function Pop30(): Request {
    PopLog(PopStatement(1, [1], [2], 1, 30, 1, 1, 1), true)
  }

  lemma Appends30(key: Bytes)
    ensures Serve(NewNode(30), key, AppendRecord(Only30(1)))
            == Answer(NewNode(30).(journal := [Only30(1)], lastPosition := 1), None)
    ensures Serve(NewNode(30).(journal := [Only30(1)], lastPosition := 1), key, AppendRecord(Only30(2)))
            == Answer(Member30(), None)
  {
  }

  lemma Pops30(key: Bytes)
    ensures Serve(Member30(), key, Pop30()) == Answer(Popped30(), None)
  {
    var journal := [Only30(1), Only30(2)];
    assert Only30(2) in journal;
    assert journal[..1] == [Only30(1)] && [Only30(1)][..0] == [];
    assert Retained([], 1) == [] && Retained([Only30(1)], 1) == [] && Retained(journal, 1) == [Only30(2)];
  }

  lemma Vouches30()
    ensures Serve(Popped30(), Key(1), AttestRepair(Repair(), [Only30(2)], 1, 1))
            == Answer(Popped30(), Some(Readiness().attestations[0].signature))
  {
    hide Key;
    assert RecordValid(Only30(2));
  }

  /** A member of a required log set with the first of two records, and with both. */
  function Half(logSet: U16, a: StagedTransaction): Node {
    NewNode(logSet).(journal := [Entry10And20(1, a)], lastPosition := 1)
  }

  function Full(logSet: U16, a: StagedTransaction, b: StagedTransaction): Node {
    NewNode(logSet).(journal := [Entry10And20(1, a), Entry10And20(2, b)], lastPosition := 2)
  }

  /** A record and the one chained to it, numbered one and two. */
  predicate InLine(a: StagedTransaction, b: StagedTransaction) {
    && Writ(a)
    && Writ(b)
    && a.sequence == 1
    && b.sequence == 2
    && a.envelope.previousLogChain == ZeroDigest
    && b.envelope.previousLogChain == EnvelopeDigest(a.envelope)
  }

  lemma PairServes(logSet: U16, key: Bytes, a: StagedTransaction, b: StagedTransaction)
    requires (logSet == 10 || logSet == 20) && InLine(a, b)
    ensures Serve(NewNode(logSet), key, AppendRecord(Entry10And20(1, a))) == Answer(Half(logSet, a), None)
    ensures Serve(Half(logSet, a), key, AppendRecord(Entry10And20(2, b))) == Answer(Full(logSet, a, b), None)
    ensures Follows(NewNode(logSet), a.envelope) && Follows(Half(logSet, a), b.envelope)
    ensures Plain(Full(logSet, a, b)) && Logged(Full(logSet, a, b), b.envelope)
  {
    hide Serve, Decodes;
    AppendsWrit(NewNode(logSet), key, a);
    AppendsWrit(Half(logSet, a), key, b);
    assert Half(logSet, a).journal + [Entry10And20(2, b)] == Full(logSet, a, b).journal;
  }

  /** Popping at the second of two records empties the journal. */
  lemma PairPops(logSet: U16, key: Bytes, a: StagedTransaction, b: StagedTransaction)
    requires (logSet == 10 || logSet == 20) && InLine(a, b)
    ensures var node := Full(logSet, a, b);
            var after := node.(poppedThrough := 2, journal := []);
            && Serve(node, key, PopLog(PopStatement(1, [1], [2], 1, logSet, 1, 2, 1), true)) == Answer(after, None)
            && Plain(after)
            && !Logged(after, b.envelope)
  {
    hide Serve, Decodes;
    var node := Full(logSet, a, b);
    assert Entry10And20(2, b) in node.journal;
    PopsWrit(node, key, 2);
    NothingRetained(node.journal, 2);
  }

  lemma NothingRetained(journal: seq<LogRecord>, frontier: U64)
    requires forall record :: record in journal ==> record.envelope.versionSequence <= frontier
    ensures Retained(journal, frontier) == []
  {
    var retained := Retained(journal, frontier);
    assert forall i :: 0 <= i < |retained| ==> retained[i] in retained;
  }

  // ---- the run ----

  /** A trace under way under majority policies with ordered appends. */
  predicate Flows(t: SystemTrace) {
    hide IsSystemTrace, AllPublished, AllKnown, AllOrdered, AllProvisioned;
    Goes(t) && AllProvisioned(t) && AllOrdered(t)
  }

  lemma FirstRun() returns (t: SystemTrace)
    ensures Flows(t) && Last(t).domain == First()
    ensures IsTriple(Last(t).world, NewNode(30), NewNode(10), NewNode(20))
  {
    hide IsSystemTrace, AllPublished, AllKnown, AllOrdered, AllProvisioned, RunFrom, Written, Idle, SourcesKnown,
      NewTriple, NewNode, Key, Blank;
    var w := NewTriple();
    NewTripleIsBlank();
    Starts(w, Start());
    StartIsIdle();
    var entries := WriterCommits(Start(), 1, 0);
    t := RoutineTurns(Begin(w, Start()), entries);
  }

  /** The member of log set 30 journals two records, pops the first and vouches for the other. */
  lemma VouchedRun() returns (t: SystemTrace)
    ensures Flows(t) && Last(t).domain == First()
    ensures IsTriple(Last(t).world, Popped30(), NewNode(10), NewNode(20))
    ensures AuthenticRepair(Last(t).world, Readiness())
  {
    hide IsSystemTrace, AllPublished, AllKnown, AllOrdered, AllProvisioned, Serve, Key, Follows, NewNode, Only30, First,
      Readiness, Popped30, Member30, Repair;
    var t0 := FirstRun();
    FirstFacts();
    KeysApart();
    ThirtyFollows();
    Appends30(Key(1));
    Pops30(Key(1));
    Vouches30();
    var t1 := NodeTurn(t0, Key(1), AppendRecord(Only30(1)));
    var t2 := NodeTurn(t1, Key(1), AppendRecord(Only30(2)));
    assert t2.states[|t2.moves|] == Last(t2);
    var t3 := NodeTurn(t2, Key(1), Pop30());
    t := NodeTurn(t3, Key(1), AttestRepair(Repair(), [Only30(2)], 1, 1));
    ReadinessIsOne();
  }

  lemma ThirtyFollows()
    ensures Follows(NewNode(30), Only30(1).envelope)
    ensures Follows(NewNode(30).(journal := [Only30(1)], lastPosition := 1), Only30(2).envelope)
  {
  }

  lemma ReadinessIsOne()
    ensures |Readiness().attestations| == 1 && Readiness().attestations[0].signature.Signature?
  {
  }

  /** The transition is prepared, the required policies are installed, and the second writer is staged late. */
  lemma LateRun() returns (t: SystemTrace)
    ensures Flows(t) && Last(t).domain == Late()
    ensures IsTriple(Last(t).world, Popped30(), NewNode(10), NewNode(20))
  {
    hide IsSystemTrace, AllPublished, AllKnown, AllOrdered, AllProvisioned, Step, Key, NewNode, First, With30, Prepared,
      Furnished, Late, Readiness, Exchange, Popped30, Policy, SolePolicy, AuthenticRepair;
    var t0 := VouchedRun();
    LatePolicies();
    InstallsThirty();
    var t1 := PlainTurn(t0, AsEntry(5, Command(0, InstallPolicies([Policy(1, 1, 1)]))));
    Prepares();
    var t2 := PlainTurn(t1, AsEntry(6, Command(0, PrepareTransition(Exchange(), Readiness()))));
    Furnishes();
    var t3 := PlainTurn(t2, AsEntry(7, Command(0, InstallPolicies([SolePolicy(10), SolePolicy(20)]))));
    StagesLate();
    t := PlainTurn(t3, AsEntry(8, Command(2, Stage(Writer(2)))));
  }

  /** The policies of these domains are among the three. */
  predicate Supplied(d: Domain) {
    forall logSet :: logSet in d.policies ==>
      d.policies[logSet] in {Policy(1, 1, 1), SolePolicy(10), SolePolicy(20)}
  }

  lemma LatePolicies()
    ensures Supplied(With30()) && Supplied(Prepared()) && Supplied(Furnished()) && Supplied(Late())
  {
    hide First, Policy, SolePolicy, AppendStaged, Idle, Written, Exchange;
    FirstFacts();
  }

  /** A command without node signatures, under the three policies. */
  lemma PlainTurn(t: SystemTrace, entry: Entry) returns (u: SystemTrace)
    requires Flows(t) && Last(t).world.nodes.Keys == {Key(1), Key(10), Key(20)}
    requires entry.StagedEntry? && (Routine(entry) || ChangesPolicies(entry.command.action))
    requires Supplied(Step(Last(t).domain, entry))
    ensures Flows(u) && Last(u) == Last(t).(domain := Step(Last(t).domain, entry))
  {
    hide IsSystemTrace, AllPublished, AllKnown, AllOrdered, AllProvisioned, Step, Key, KnownTo, Provisioned, Policy,
      SolePolicy;
    TripleProvides(Last(t).world, Step(Last(t).domain, entry));
    u := CommandTurn(t, entry);
  }

  /** Members of both required log sets append both records. */
  lemma HeldRun(t: SystemTrace, a: StagedTransaction, b: StagedTransaction) returns (u: SystemTrace)
    requires Flows(t) && InLine(a, b)
    requires IsTriple(Last(t).world, Popped30(), NewNode(10), NewNode(20))
    ensures Flows(u) && Last(u).domain == Last(t).domain
    ensures IsTriple(Last(u).world, Popped30(), Full(10, a, b), Full(20, a, b))
  {
    hide IsSystemTrace, AllPublished, AllKnown, AllOrdered, AllProvisioned, Serve, Key, Follows, NewNode, Popped30,
      InLine, Half, Full, Entry10And20;
    KeysApart();
    EntriesAre(a, b);
    PairServes(10, Key(10), a, b);
    PairServes(20, Key(20), a, b);
    var one, two := AppendRecord(Entry10And20(1, a)), AppendRecord(Entry10And20(2, b));
    var t1 := NodeTurn(t, Key(10), one);
    var t2 := NodeTurn(t1, Key(10), two);
    var t3 := NodeTurn(t2, Key(20), one);
    u := NodeTurn(t3, Key(20), two);
  }

  lemma EntriesAre(a: StagedTransaction, b: StagedTransaction)
    ensures Entry10And20(1, a).envelope == a.envelope && Entry10And20(2, b).envelope == b.envelope
  {
  }

  /** With both members holding it, the second record is held everywhere. */
  lemma TripleHolds(s: System, a: StagedTransaction, b: StagedTransaction)
    requires InLine(a, b) && IsTriple(s.world, Popped30(), Full(10, a, b), Full(20, a, b))
    requires |s.domain.log.staged| == 2 && s.domain.log.staged[1] == b && b.transaction.logTags == [10, 20]
    requires 10 in s.domain.policies && s.domain.policies[10] == SolePolicy(10)
    requires 20 in s.domain.policies && s.domain.policies[20] == SolePolicy(20)
    ensures HeldEverywhere(s, 1)
  {
    hide MemberMap, Full, Popped30, Logged, Key, InLine;
    SolePolicyIsValid(10);
    SolePolicyIsValid(20);
    PairServes(10, Key(10), a, b);
    PairServes(20, Key(20), a, b);
    assert Holders(s.world, SolePolicy(10), b.envelope) >= {10};
    Cardinality({10}, Holders(s.world, SolePolicy(10), b.envelope));
    assert Holders(s.world, SolePolicy(20), b.envelope) >= {20};
    Cardinality({20}, Holders(s.world, SolePolicy(20), b.envelope));
  }

  function Denial(b: StagedTransaction): FenceCertificate {
    FenceProof(10, Key(10), FenceOf(b, 10), false)
  }

  function Report(b: StagedTransaction): FenceCertificate {
    FenceProof(20, Key(20), FenceOf(b, 20), true)
  }

  /** The member of log set 10 pops as far as what is readable and then denies the record. */
  lemma DeniedRun(t: SystemTrace, a: StagedTransaction, b: StagedTransaction) returns (u: SystemTrace)
    requires Flows(t) && InLine(a, b) && Last(t).domain.log.latestSequence == 2
    requires IsTriple(Last(t).world, Popped30(), Full(10, a, b), Full(20, a, b))
    ensures Flows(u) && Last(u).domain == Last(t).domain
    ensures Last(u).world.nodes.Keys == {Key(1), Key(10), Key(20)}
    ensures AuthenticFence(Last(u).world, Denial(b)) && AuthenticFence(Last(u).world, Report(b))
    ensures |t.states| < |u.states| && u.states[..|t.states|] == t.states
  {
    hide IsSystemTrace, AllPublished, AllKnown, AllOrdered, AllProvisioned, Serve, Key, NewNode, Popped30, InLine, Full,
      Plain, FenceOf;
    KeysApart();
    InLineIsWrit(a, b);
    PairServes(20, Key(20), a, b);
    PairPops(10, Key(10), a, b);
    var emptied := Full(10, a, b).(poppedThrough := 2, journal := []);
    FullIs(a, b);
    FencesWrit(emptied, Key(10), b);
    FencesWrit(Full(20, a, b), Key(20), b);
    assert t.states[|t.moves|] == Last(t);
    var t1 := NodeTurn(t, Key(10), PopLog(PopStatement(1, [1], [2], 1, 10, 1, 2, 1), true));
    var t2 := NodeTurn(t1, Key(10), FenceGeneration(FenceOf(b, 10)));
    u := NodeTurn(t2, Key(20), FenceGeneration(FenceOf(b, 20)));
    assert u.states[..|t.states|] == u.states[..|t2.states|][..|t1.states|][..|t.states|];
  }

  lemma InLineIsWrit(a: StagedTransaction, b: StagedTransaction)
    requires InLine(a, b)
    ensures Writ(b)
  {
  }

  lemma FullIs(a: StagedTransaction, b: StagedTransaction)
    ensures Full(10, a, b).logSet == 10 && Full(20, a, b).logSet == 20
  {
  }

  /** A visible record, and behind it an unresolved one under the two sole policies. */
  predicate SecondPends(d: Domain, a: StagedTransaction, b: StagedTransaction) {
    && InLine(a, b)
    && d.cell == [1] && d.tenant == [2] && d.log.generation == 1
    && d.log.staged == [a, b]
    && a.visible
    && Unresolved(b)
    && a.identity != b.identity
    && b.transaction.logTags == [10, 20]
    && b.transaction.generation == 1
    && b.certificates == map[]
    && 10 in d.policies && d.policies[10] == SolePolicy(10)
    && 20 in d.policies && d.policies[20] == SolePolicy(20)
  }

  lemma SecondIsAbortable(d: Domain, a: StagedTransaction, b: StagedTransaction)
    requires SecondPends(d, a, b)
    ensures AbortReady(d, 1, Denial(b), Report(b))
  {
    hide MemberMap, FenceCertificateValid, AbsentCount, Key, Decodes, UnresolvedCount, Find, ValidPolicy;
    SolePolicyIsValid(10);
    SolePolicyIsValid(20);
    FenceProofIsValid(b, SolePolicy(10), 10, Key(10), false);
    FenceProofIsValid(b, SolePolicy(20), 20, Key(20), true);
    OneUnresolved(d.log.staged);
    FoundSecond(d.log.staged);
  }

  lemma LateIsInLine()
    ensures |First().log.staged| == 1 && InLine(Old(), New())
  {
    hide First, New, Writ, MakeEnvelope, Late, Furnished, Idle, LastNumber;
    FirstFacts();
    OldIsWrit();
    NewIsWrit();
  }

  lemma LatePolicyMap()
    ensures var d := Late();
            && d.cell == [1] && d.tenant == [2] && d.log.generation == 1
            && 10 in d.policies && d.policies[10] == SolePolicy(10)
            && 20 in d.policies && d.policies[20] == SolePolicy(20)
  {
    hide Furnished, First, SolePolicy, Policy, Find, LastNumber, AppendStaged;
    FurnishedFacts();
    assert Late().log.generation == 1 by {
      hide Late;
      AppendKeepsGeneration(Furnished().log);
    }
  }

  lemma AppendKeepsGeneration(log: CommitLog)
    ensures Furnished().log == log ==> Late().log.generation == log.generation
  {
    hide StagedRecord, Furnished;
  }

  lemma LateShape()
    ensures |First().log.staged| == 1 && Late().log.staged == [Old(), New()]
    ensures Old().visible && Unresolved(New()) && Old().identity != New().identity && New().certificates == map[]
    ensures New().transaction.logTags == [10, 20] && New().transaction.generation == 1
    ensures Late().log.latestSequence == 2
  {
    hide First, New, Furnished, Late, Writ, MakeEnvelope, LastNumber, Idle;
    FirstFacts();
    NewIsWrit();
  }

  lemma LatePends()
    ensures |First().log.staged| == 1 && SecondPends(Late(), Old(), New())
    ensures Late().log.latestSequence == 2 && Supplied(Late())
  {
    hide First, New, Late, InLine, Supplied, Old, SolePolicy;
    LateShape();
    LateIsInLine();
    LatePolicyMap();
    LatePolicies();
  }

  lemma FoundSecond(staged: seq<StagedTransaction>)
    requires |staged| == 2 && staged[0].identity != staged[1].identity
    ensures Find(staged, staged[1].identity) == 1
  {
  }

  lemma AbortKeepsSupplies(d: Domain, generation: U64)
    requires Supplied(d) && 1 < |d.log.staged|
    ensures Supplied(d.(log := Ordering.Abort(d.log, 1).(generation := generation)))
  {
    hide Policy, SolePolicy;
  }

  /** The last command aborts what was denied. */
  lemma AbortedRun(t: SystemTrace, a: StagedTransaction, b: StagedTransaction) returns (u: SystemTrace)
    requires Flows(t) && SecondPends(Last(t).domain, a, b) && Supplied(Last(t).domain)
    requires Last(t).world.nodes.Keys == {Key(1), Key(10), Key(20)}
    requires AuthenticFence(Last(t).world, Denial(b)) && AuthenticFence(Last(t).world, Report(b))
    ensures Flows(u) && |Last(u).domain.log.staged| == 2 && Last(u).domain.log.staged[1].aborted
    ensures |u.states| == |t.states| + 1 && u.states[..|t.states|] == t.states
  {
    hide IsSystemTrace, AllPublished, AllKnown, AllOrdered, AllProvisioned, Step, Key, KnownTo, Provisioned, AbortReady,
      Policy, SolePolicy, AuthenticFence, Supplied, Denial, Report;
    var d := Last(t).domain;
    var authority := SuccessorExists();
    SecondIsAbortable(d, a, b);
    AbortStep(d, 1, Denial(b), Report(b), authority, 9);
    AbortKeepsSupplies(d, 2);
    var abort := StagedEntry(9, AbortCommand(b, [Denial(b), Report(b)]), authority);
    SuppliedIs(Step(d, abort));
    TripleProvides(Last(t).world, Step(d, abort));
    u := CommandTurn(t, abort);
  }

  lemma SuppliedIs(d: Domain)
    requires Supplied(d)
    ensures forall logSet :: logSet in d.policies ==>
              d.policies[logSet] in {Policy(1, 1, 1), SolePolicy(10), SolePolicy(20)}
  {
    hide Policy, SolePolicy;
  }

  /**
  A published pop can lose a durable record. In this joint run every policy is a majority of known nodes, every
  append is ordered and every pop names a sequence that was readable; a record held by a quorum of both its log
  sets is aborted by an accepted takeover, because it was staged late and popped while its fate was open.
  */
  lemma EarlyPopLosesDurable() returns (t: SystemTrace, m: nat, n: nat)
    ensures IsSystemTrace(t) && AllProvisioned(t) && AllOrdered(t) && AllPublished(t)
    ensures m < n < |t.states| && 10 in t.states[m].domain.policies && 20 in t.states[m].domain.policies
    ensures HeldEverywhere(t.states[m], 1) && Unresolved(t.states[m].domain.log.staged[1])
    ensures 1 < |t.states[n].domain.log.staged| && t.states[n].domain.log.staged[1].aborted
  {
    hide IsSystemTrace, AllProvisioned, AllOrdered, AllPublished, AllKnown, First, Late, New, HeldEverywhere, IsTriple,
      InLine, Supplied, AuthenticFence, Full, Popped30, Key, NewNode, SolePolicy, Denial, Report;
    var late := LateRun();
    LatePends();
    var a, b := Old(), New();
    var held := HeldRun(late, a, b);
    TripleHolds(Last(held), a, b);
    var denied := DeniedRun(held, a, b);
    t := AbortedRun(denied, a, b);
    m, n := |held.moves|, |t.moves|;
    assert t.states[m] == denied.states[m] == held.states[m] == Last(held);
  }
}
