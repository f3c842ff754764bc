/**
What a majority quorum is for. Among states the nodes can reach, a record can be held by one quorum and refused by
another exactly when the quorum is no majority, and then a durable record can be aborted.
*/
module Minority {
  import opened Keys
  import opened Types
  import opened Sets
  import opened Certificates
  import opened Ordering
  import opened Domain
  import opened Events
  import opened LogNodes
  import opened Safety
  import opened SystemRuns
  import opened Publication
  import opened JointRuns
  import opened LostSnapshot
  import opened Cluster
  import opened NodeSteps

  // ---- what nodes can reach ----

  datatype Call = Call(key: Bytes, request: Request)

  /** The nodes after serving calls one after the other; a call to an unknown node goes nowhere. */
  function Served(w: World, calls: seq<Call>): World {
    if calls == [] then w
    else
      var before, call := Served(w, calls[..|calls| - 1]), calls[|calls| - 1];
      if call.key in before.nodes then Handle(before, call.key, call.request) else before
  }

  /** Newly started nodes can come to be like this. */
  ghost predicate Arises(w: World) {
    exists start, calls :: Blank(start) && w == Served(start, calls)
  }

  /** Whatever the nodes do, the record is not both held and refused by a quorum. */
  ghost predicate NeverAtOdds(policy: LogSetPolicy, envelope: Envelope) {
    forall w: World :: Arises(w) ==>
      !(HeldByQuorum(w, policy, envelope) && RefusedByQuorum(w, policy, envelope))
  }

  function MemberKeys(members: seq<Member>): seq<Bytes> {
    seq(|members|, i requires 0 <= i < |members| => members[i].key)
  }

  /** Envelopes of the kind the authority stages: they decode and need the policy's log set. */
  predicate Stageable(envelope: Envelope, logSet: U16) {
    && Decodes(envelope)
    && logSet in envelope.requiredLogTags
    && envelope.generation != 0
    && envelope.versionSequence != 0
  }

  function Keep(envelope: Envelope): Request {
    AppendRecord(LogRecord(1, envelope.requiredLogTags, envelope))
  }

  function Close(envelope: Envelope, logSet: U16): Request {
    FenceGeneration(
      FenceStatement(
        1, envelope.cell, envelope.tenant, envelope.generation, 1, envelope.identity, envelope.versionSequence,
        logSet, 1, EnvelopeDigest(envelope)))
  }

  /** The first members keep the record, the others close its generation without it. */
  function CallOf(policy: LogSetPolicy, envelope: Envelope, i: nat): Call
    requires i < |policy.members|
  {
    Call(policy.members[i].key, if i < policy.quorum then Keep(envelope) else Close(envelope, policy.logSet))
  }

  function Calls(policy: LogSetPolicy, envelope: Envelope, count: nat): seq<Call>
    requires count <= |policy.members|
  {
    seq(count, i requires 0 <= i < count => CallOf(policy, envelope, i))
  }

  function NewWorld(policy: LogSetPolicy): World {
    World(map key | key in Elements(MemberKeys(policy.members)) :: NewNode(policy.logSet), {})
  }

  /** Member `i` has been served: it holds the record, or has fenced it. */
  predicate Done(w: World, policy: LogSetPolicy, envelope: Envelope, i: nat)
    requires i < |policy.members|
  {
    var key := policy.members[i].key;
    && key in w.nodes
    && if i < policy.quorum then Logged(w.nodes[key], envelope)
       else Fenced(w.nodes[key], envelope.generation) && w.nodes[key].journal == []
  }

  predicate Untouched(w: World, policy: LogSetPolicy, i: nat)
    requires i < |policy.members|
  {
    policy.members[i].key in w.nodes && w.nodes[policy.members[i].key] == NewNode(policy.logSet)
  }

  lemma {:induction false} StrictlySortedIsDistinct(values: seq<U16>, i: nat, j: nat)
    requires StrictlySorted(values) && i < j < |values|
    ensures values[i] < values[j]
    decreases j
  {
    if i < j - 1 {
      StrictlySortedIsDistinct(values, i, j - 1);
    }
  }

  lemma KeepIsKept(envelope: Envelope, logSet: U16, key: Bytes)
    requires Stageable(envelope, logSet)
    ensures var answer := Serve(NewNode(logSet), key, Keep(envelope));
            Logged(answer.node, envelope) && answer.signature.None?
  {
    var answer := Serve(NewNode(logSet), key, Keep(envelope));
    forall i, j | 0 <= i < j < |envelope.requiredLogTags|
      ensures envelope.requiredLogTags[i] != envelope.requiredLogTags[j]
    {
      StrictlySortedIsDistinct(envelope.requiredLogTags, i, j);
    }
    assert Appendable(NewNode(logSet), LogRecord(1, envelope.requiredLogTags, envelope));
    assert LogRecord(1, envelope.requiredLogTags, envelope) in answer.node.journal;
  }

  lemma CloseIsClosed(envelope: Envelope, logSet: U16, key: Bytes)
    requires Stageable(envelope, logSet)
    ensures var answer := Serve(NewNode(logSet), key, Close(envelope, logSet));
            && Fenced(answer.node, envelope.generation)
            && answer.node.journal == []
            && (answer.signature.Some? ==>
                  answer.signature.value.Signature? && !answer.signature.value.message.DurableMessage?)
  {
    hide Present, Decodes;
  }

  /** The first `count` members have been served and the others not, and nothing was signed durable. */
  predicate ServedUpTo(w: World, policy: LogSetPolicy, envelope: Envelope, count: nat) {
    && (forall i :: 0 <= i < |policy.members| ==>
          if i < count then Done(w, policy, envelope, i) else Untouched(w, policy, i))
    && forall signature :: signature in w.issued ==> signature.Signature? && !signature.message.DurableMessage?
  }

  lemma NewWorldIsUntouched(policy: LogSetPolicy, envelope: Envelope)
    ensures ServedUpTo(NewWorld(policy), policy, envelope, 0) && Blank(NewWorld(policy))
  {
    var keys := MemberKeys(policy.members);
    forall i | 0 <= i < |policy.members|
      ensures policy.members[i].key in Elements(keys)
    {
      assert keys[i] == policy.members[i].key;
    }
  }

  lemma ServedOneMore(w: World, policy: LogSetPolicy, envelope: Envelope, n: nat)
    requires Stageable(envelope, policy.logSet) && Distinct(MemberKeys(policy.members)) && n < |policy.members|
    requires ServedUpTo(w, policy, envelope, n)
    ensures var call := CallOf(policy, envelope, n);
            call.key in w.nodes && ServedUpTo(Handle(w, call.key, call.request), policy, envelope, n + 1)
  {
    hide Stageable, Serve, Fenced, Logged, Keep, Close, NewNode;
    var keys := MemberKeys(policy.members);
    assert forall i :: 0 <= i < |keys| ==> keys[i] == policy.members[i].key;
    assert Untouched(w, policy, n);
    KeepIsKept(envelope, policy.logSet, policy.members[n].key);
    CloseIsClosed(envelope, policy.logSet, policy.members[n].key);
    var call := CallOf(policy, envelope, n);
    var next := Handle(w, call.key, call.request);
    forall i | 0 <= i < |policy.members|
      ensures if i < n + 1 then Done(next, policy, envelope, i) else Untouched(next, policy, i)
    {
      assert i != n ==> keys[i] != keys[n];
      assert if i < n then Done(w, policy, envelope, i) else Untouched(w, policy, i);
    }
  }

  lemma {:induction false} ServedOneByOne(policy: LogSetPolicy, envelope: Envelope, count: nat)
    requires Stageable(envelope, policy.logSet) && Distinct(MemberKeys(policy.members)) && count <= |policy.members|
    ensures ServedUpTo(Served(NewWorld(policy), Calls(policy, envelope, count)), policy, envelope, count)
    decreases count
  {
    hide Stageable, Handle, ServedUpTo, NewWorld, CallOf;
    if count == 0 {
      NewWorldIsUntouched(policy, envelope);
    } else {
      ServedOneByOne(policy, envelope, count - 1);
      assert Calls(policy, envelope, count)[..count - 1] == Calls(policy, envelope, count - 1);
      ServedOneMore(
        Served(NewWorld(policy), Calls(policy, envelope, count - 1)), policy, envelope, count - 1);
    }
  }

  lemma {:induction false} MemberMapAt(members: seq<Member>, i: nat)
    requires Distinct(NodeIds(members)) && i < |members|
    ensures members[i].node in MemberMap(members) && MemberMap(members)[members[i].node] == members[i].key
  {
    var n := |members| - 1;
    var ids := NodeIds(members);
    assert forall k :: 0 <= k < |members| ==> ids[k] == members[k].node;
    if i < n {
      assert Distinct(NodeIds(members[..n])) by {
        assert NodeIds(members[..n]) == ids[..n];
      }
      MemberMapAt(members[..n], i);
      assert ids[i] != ids[n];
    }
  }

  /** The first `quorum` members hold the record and the next as many refuse it. */
  lemma MinorityIsAtOdds(policy: LogSetPolicy, envelope: Envelope)
    requires Stageable(envelope, policy.logSet)
    requires Distinct(NodeIds(policy.members)) && Distinct(MemberKeys(policy.members))
    requires 2 * policy.quorum <= |policy.members|
    ensures !NeverAtOdds(policy, envelope)
  {
    var count := |policy.members|;
    var w := Served(NewWorld(policy), Calls(policy, envelope, count));
    ServedOneByOne(policy, envelope, count);
    NewWorldIsUntouched(policy, envelope);
    assert Arises(w);
    hide Stageable, MemberMap, Served, Calls, NewWorld;
    var ids := NodeIds(policy.members);
    forall i | 0 <= i < count
      ensures i < policy.quorum ==> ids[i] in Holders(w, policy, envelope)
      ensures i >= policy.quorum ==> ids[i] in Refusers(w, policy, envelope)
    {
      assert Done(w, policy, envelope, i);
      MemberMapAt(policy.members, i);
    }
    CountOf(ids[..policy.quorum], Holders(w, policy, envelope));
    CountOf(ids[policy.quorum..], Refusers(w, policy, envelope));
  }

  lemma CountOf(ids: seq<U64>, whole: set<U64>)
    requires Distinct(ids) && forall i :: 0 <= i < |ids| ==> ids[i] in whole
    ensures |whole| >= |ids|
  {
    DistinctIffCounted(ids);
    Cardinality(Elements(ids), whole);
  }

  /**
  A majority quorum is exactly what is needed. For members with distinct nodes and keys, and any envelope the
  authority can stage for the log set, no state the nodes can reach has the record both held and refused by
  quorums if and only if twice the quorum exceeds the membership.
  */
  lemma NeverAtOddsIffMajority(policy: LogSetPolicy, envelope: Envelope)
    requires Stageable(envelope, policy.logSet)
    requires Distinct(NodeIds(policy.members)) && Distinct(MemberKeys(policy.members))
    ensures NeverAtOdds(policy, envelope) <==> 2 * policy.quorum > |policy.members|
  {
    hide HeldByQuorum, RefusedByQuorum, Arises;
    if 2 * policy.quorum > |policy.members| {
      forall w: World | Arises(w)
        ensures !(HeldByQuorum(w, policy, envelope) && RefusedByQuorum(w, policy, envelope))
      {
        HeldExcludesRefused(w, policy, envelope);
      }
    } else {
      MinorityIsAtOdds(policy, envelope);
    }
  }

  // ---- a joint run that loses a durable record ----

  /** Two members and a quorum of one. */
  function Pair(): LogSetPolicy {
    OneOf(10, [Member(1, Key(1)), Member(2, Key(2))])
  }

  lemma PairIsValid()
    ensures ValidPolicy(Pair(), 1) && MemberMap(Pair().members) == map[1 := Key(1), 2 := Key(2)]
  {
    var members := Pair().members;
    assert members[..1] == [Member(1, Key(1))] && [Member(1, Key(1))][..0] == [];
    assert MemberMap([]) == map[] && MemberMap([Member(1, Key(1))]) == map[1 := Key(1)];
  }

  function Ready(): Domain {
    Fresh([1], [2], 1).(policies := map[10 := Pair(), 20 := SolePolicy(20)])
  }

  function Rec(): StagedTransaction {
    StagedRecord(Fresh([1], [2], 1).log, Writer(1), 2)
  }

  function OneStaged(): Domain {
    Ready().(log := Ready().log.(staged := [Rec()]))
  }

  lemma RecFacts()
    ensures Writ(Rec()) && Unresolved(Rec()) && Rec().identity == Identity(1, 1)
    ensures Rec().transaction == Writer(1) && Rec().certificates == map[]
    ensures Rec().envelope.previousLogChain == ZeroDigest
  {
  }

  lemma ReadySteps(start: Domain)
    requires start == Fresh([1], [2], 1)
    ensures Step(start, AsEntry(1, Command(0, InstallPolicies([Pair(), SolePolicy(20)])))) == Ready()
    ensures Step(Ready(), AsEntry(2, Command(1, Stage(Writer(1))))) == OneStaged()
  {
    hide Step, ValidPolicy, MemberMap, Find, StagedRecord, Key;
    PairIsValid();
    SolePolicyIsValid(20);
    InstallPair(start, Pair(), SolePolicy(20), 1);
    assert Find(Ready().log.staged, Identity(1, 1)) == 0 by {
      StartIsIdle();
    }
    EquippedStage(Ready(), 1, 2);
  }

  /** The two members of log set 10 and the one of log set 20. */
  predicate IsTrio(w: World, first: Node, second: Node, third: Node) {
    && w.nodes.Keys == {Key(1), Key(2), Key(20)}
    && w.nodes[Key(1)] == first
    && w.nodes[Key(2)] == second
    && w.nodes[Key(20)] == third
  }

  function NewTrio(): World {
    World(map[Key(1) := NewNode(10), Key(2) := NewNode(10), Key(20) := NewNode(20)], {})
  }

  lemma NewTrioIsBlank()
    ensures IsTrio(NewTrio(), NewNode(10), NewNode(10), NewNode(20)) && Blank(NewTrio()) && SourcesKnown(NewTrio())
  {
    KeysApart();
    hide Key, MemberMap;
  }

  lemma TrioKnows(w: World)
    requires w.nodes.Keys == {Key(1), Key(2), Key(20)}
    ensures KnownTo(w, Fresh([1], [2], 1)) && KnownTo(w, Ready()) && KnownTo(w, OneStaged())
    ensures KnownTo(w, OneStaged().(log := Ordering.Abort(OneStaged().log, 0).(generation := 2)))
  {
    hide Key, MemberMap, StagedRecord;
    PairIsValid();
    SolePolicyIsValid(20);
  }

  function Holding(logSet: U16): Node {
    NewNode(logSet).(journal := [Entry10And20(1, Rec())], lastPosition := 1)
  }

  lemma HoldingIsServed(logSet: U16, key: Bytes)
    requires logSet == 10 || logSet == 20
    ensures Serve(NewNode(logSet), key, AppendRecord(Entry10And20(1, Rec()))) == Answer(Holding(logSet), None)
    ensures Plain(Holding(logSet)) && Logged(Holding(logSet), Rec().envelope)
    ensures Plain(NewNode(logSet)) && !Logged(NewNode(logSet), Rec().envelope)
    ensures Follows(NewNode(logSet), Rec().envelope)
  {
    hide Serve, StagedRecord;
    RecFacts();
    AppendsWrit(NewNode(logSet), key, Rec());
  }

  /** With one member of each log set holding it, the record is held everywhere. */
  lemma TrioHolds(w: World)
    requires IsTrio(w, Holding(10), NewNode(10), Holding(20))
    ensures HeldEverywhere(System(w, OneStaged()), 0)
  {
    hide MemberMap, Holding, NewNode, StagedRecord, Logged, Key;
    PairIsValid();
    SolePolicyIsValid(20);
    RecFacts();
    HoldingIsServed(10, Key(1));
    HoldingIsServed(20, Key(20));
    assert Holders(w, Pair(), Rec().envelope) >= {1};
    Cardinality({1}, Holders(w, Pair(), Rec().envelope));
    assert Holders(w, SolePolicy(20), Rec().envelope) >= {20};
    Cardinality({20}, Holders(w, SolePolicy(20), Rec().envelope));
  }

  function FirstFence(): FenceCertificate {
    FenceProof(2, Key(2), FenceOf(Rec(), 10), false)
  }

  function SecondFence(): FenceCertificate {
    FenceProof(20, Key(20), FenceOf(Rec(), 20), true)
  }

  lemma RecIsAbortable()
    ensures AbortReady(OneStaged(), 0, FirstFence(), SecondFence())
  {
    RecFacts();
    PairIsValid();
    SolePolicyIsValid(20);
    FenceProofIsValid(Rec(), Pair(), 2, Key(2), false);
    FenceProofIsValid(Rec(), SolePolicy(20), 20, Key(20), true);
    hide MemberMap, StagedRecord, FenceCertificateValid, AbsentCount, Key, Decodes, FenceOf;
    assert UnresolvedCount([Rec()]) == 1 by {
      assert [Rec()][1..] == [];
      assert UnresolvedCount([]) == 0;
    }
    assert Find([Rec()], Identity(1, 1)) == 0;
  }

  function Signed(key: Bytes, logSet: U16, present: bool): Signature {
    Signature(key, FenceMessage(FenceOf(Rec(), logSet), present))
  }

  /** Up to where the record is held: policies, staging, and one append in each log set. */
  lemma HeldRun() returns (t: SystemTrace)
    ensures Goes(t) && AllOrdered(t) && Popless(t) && SourcesKnown(t.states[0].world)
    ensures Last(t).domain == OneStaged() && IsTrio(Last(t).world, Holding(10), NewNode(10), Holding(20))
  {
    hide IsSystemTrace, AllPublished, AllKnown, AllOrdered, Step, StagedRecord, Holding, NewNode, Serve, Key, Follows,
      KnownTo, OneStaged, Ready, Pair, NewTrio;
    var start, w := Fresh([1], [2], 1), NewTrio();
    ReadySteps(start);
    NewTrioIsBlank();
    KeysApart();
    TrioKnows(w);
    Starts(w, start);
    var t1 := CommandTurn(Begin(w, start), AsEntry(1, Command(0, InstallPolicies([Pair(), SolePolicy(20)]))));
    var t2 := CommandTurn(t1, AsEntry(2, Command(1, Stage(Writer(1)))));
    var append := AppendRecord(Entry10And20(1, Rec()));
    HoldingIsServed(10, Key(1));
    var t3 := NodeTurn(t2, Key(1), append);
    HoldingIsServed(20, Key(20));
    t := NodeTurn(t3, Key(20), append);
    assert t.states[0] == t3.states[0] == t2.states[0] == t1.states[0];
  }

  /** Then the other member of log set 10 fences without the record, and the one of log set 20 with it. */
  lemma FencedRun(before: SystemTrace) returns (t: SystemTrace)
    requires Goes(before) && AllOrdered(before) && Popless(before)
    requires Last(before).domain == OneStaged() && IsTrio(Last(before).world, Holding(10), NewNode(10), Holding(20))
    ensures Goes(t) && AllOrdered(t) && Popless(t)
    ensures Last(t).domain == OneStaged() && Last(t).world.nodes.Keys == {Key(1), Key(2), Key(20)}
    ensures Signed(Key(2), 10, false) in Last(t).world.issued && Signed(Key(20), 20, true) in Last(t).world.issued
    ensures |before.states| < |t.states| && t.states[..|before.states|] == before.states
  {
    hide IsSystemTrace, AllPublished, AllKnown, AllOrdered, StagedRecord, Holding, NewNode, Serve, Key, FenceOf,
      OneStaged, Popless;
    RecFacts();
    KeysApart();
    NodeSets();
    HoldingIsServed(10, Key(2));
    HoldingIsServed(20, Key(20));
    FencesWrit(NewNode(10), Key(2), Rec());
    FencesWrit(Holding(20), Key(20), Rec());
    var half := NodeTurn(before, Key(2), FenceGeneration(FenceOf(Rec(), 10)));
    t := NodeTurn(half, Key(20), FenceGeneration(FenceOf(Rec(), 20)));
    assert t.states[..|before.states|] == t.states[..|half.states|][..|before.states|];
  }

  /**
  Without a majority a durable record can be lost. In this joint run every append is ordered and nothing is popped;
  a record held by a quorum of both its log sets, one of which has a quorum of one out of two, is aborted by an
  accepted takeover.
  */
  lemma MinorityLosesDurable() returns (t: SystemTrace, m: nat, n: nat)
    ensures IsSystemTrace(t) && AllKnown(t) && AllOrdered(t) && AllTrimmed(t)
    ensures m < n < |t.states| && 10 in t.states[m].domain.policies && 20 in t.states[m].domain.policies
    ensures HeldEverywhere(t.states[m], 0) && Unresolved(t.states[m].domain.log.staged[0])
    ensures 0 < |t.states[n].domain.log.staged| && t.states[n].domain.log.staged[0].aborted
  {
    hide Step, StagedRecord, Holding, NewNode, Serve, Key, KnownTo, IsSystemTrace, AllKnown, AllOrdered, AllTrimmed,
      AllPublished, HeldEverywhere, SourcesKnown, AuthenticCommand, AbortReady, FenceOf, IsTrio, Signed, Popless;
    var held := HeldRun();
    TrioHolds(Last(held).world);
    RecFacts();
    var fenced := FencedRun(held);
    var authority := SuccessorExists();
    RecIsAbortable();
    AbortStep(OneStaged(), 0, FirstFence(), SecondFence(), authority, 3);
    AbortIsAuthentic(Last(fenced).world);
    TrioKnows(Last(fenced).world);
    t := CommandTurn(fenced, StagedEntry(3, AbortCommand(Rec(), [FirstFence(), SecondFence()]), authority));
    m, n := |held.moves|, |t.moves|;
    assert t.states[0] == fenced.states[0] == held.states[0];
    assert t.states[m] == fenced.states[m] == held.states[m] == Last(held);
    PoplessRunsAreTrimmed(t);
  }

  lemma NodeSets()
    ensures NewNode(10).logSet == 10 && Holding(20).logSet == 20
    ensures NewNode(10).fences == map[] && Holding(20).fences == map[]
  {
  }

  lemma AbortIsAuthentic(w: World)
    requires Signed(Key(2), 10, false) in w.issued && Signed(Key(20), 20, true) in w.issued
    ensures AuthenticCommand(w, AbortCommand(Rec(), [FirstFence(), SecondFence()]))
  {
    hide StagedRecord, Key, FenceOf;
  }
}
