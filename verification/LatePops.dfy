/** Over one run of commands, published pops can reach an unresolved record exactly when something is staged late. */
module LatePops {
  import opened Keys
  import opened Types
  import opened Ordering
  import opened Domain
  import opened History
  import opened Events
  import opened Runs
  import opened Ledgers
  import opened LogNodes
  import opened Safety
  import opened SystemRuns
  import opened Publication
  import opened JointRuns

  // ---- a node no command has heard of ----

  function SignaturesOf(command: StagedCommand): set<Signature> {
    match command.action
    case RecordCertificate(certificate) =>
      set i | 0 <= i < |certificate.attestations| :: certificate.attestations[i].signature
    case TakeoverAbort(_, _, _, _, fences) =>
      set i, j | 0 <= i < |fences| && 0 <= j < |fences[i].attestations| :: fences[i].attestations[j].signature
    case TakeoverRecoverPrefix(_, _, _, inventories) =>
      set i, j | 0 <= i < |inventories| && 0 <= j < |inventories[i].attestations| ::
        inventories[i].attestations[j].signature
    case _ => {}
  }

  function AllSignatures(entries: seq<Entry>): set<Signature> {
    set n, signature | 0 <= n < |entries| && entries[n].StagedEntry? && signature in SignaturesOf(entries[n].command) ::
      signature
  }

  lemma {:induction false} LongerThanAll(signatures: set<Signature>) returns (length: nat)
    ensures forall signature :: signature in signatures && signature.Signature? ==> |signature.key| < length
    decreases |signatures|
  {
    length := 0;
    if signature :| signature in signatures {
      length := LongerThanAll(signatures - {signature});
      if signature.Signature? && |signature.key| >= length {
        length := |signature.key| + 1;
      }
    }
  }

  predicate Strange(key: Bytes, signatures: set<Signature>) {
    forall signature :: signature in signatures && signature.Signature? ==> signature.key != key
  }

  lemma StrangeKey(signatures: set<Signature>) returns (key: Bytes)
    ensures Strange(key, signatures)
  {
    var length := LongerThanAll(signatures);
    key := seq(length, _ => 0);
  }

  /** Commands without signatures of the one node are authentic. */
  lemma StrangeIsAuthentic(w: World, key: Bytes, command: StagedCommand)
    requires w.nodes.Keys == {key} && Strange(key, SignaturesOf(command))
    ensures AuthenticCommand(w, command)
  {
    match command.action
    case RecordCertificate(certificate) =>
      forall i | 0 <= i < |certificate.attestations|
        ensures Authentic(w, certificate.attestations[i].signature)
      {
        assert certificate.attestations[i].signature in SignaturesOf(command);
      }
    case TakeoverAbort(_, _, _, _, fences) =>
      forall i, j | 0 <= i < |fences| && 0 <= j < |fences[i].attestations|
        ensures Authentic(w, fences[i].attestations[j].signature)
      {
        assert fences[i].attestations[j].signature in SignaturesOf(command);
      }
    case TakeoverRecoverPrefix(_, _, _, inventories) =>
      forall i, j | 0 <= i < |inventories| && 0 <= j < |inventories[i].attestations|
        ensures Authentic(w, inventories[i].attestations[j].signature)
      {
        assert inventories[i].attestations[j].signature in SignaturesOf(command);
      }
    case _ =>
  }

  // ---- the commands alone, as a joint run ----

  const LONE := Node(10, None, 1, false, [], 0, 0, map[], map[])

  function LoneWorld(key: Bytes): World {
    World(map[key := LONE], {})
  }

  /** The first `k` commands of `c`, with a node that looks on. */
  predicate LooksOn(t: SystemTrace, c: Trace, key: Bytes, k: nat) {
    && Formed(t)
    && |t.moves| == k < |c.ledgers|
    && (forall i :: 0 <= i <= k ==> t.states[i] == System(LoneWorld(key), c.ledgers[i].domain))
  }

  lemma {:induction false} CommandsAlone(c: Trace, key: Bytes, k: nat) returns (t: SystemTrace)
    requires IsRun(c)
    requires Shaped(c) && k <= |c.entries| && Strange(key, AllSignatures(c.entries))
    ensures LooksOn(t, c, key, k) && IsSystemTrace(t) && AllOrdered(t) && AllPublished(t)
    decreases k
  {
    hide IsRun, Step, IsSystemTrace, AllOrdered, AllPublished, AuthenticCommand, Next, Allowed;
    if k == 0 {
      RunStartsFresh(c);
      t := Begin(LoneWorld(key), c.ledgers[0].domain);
      Starts(LoneWorld(key), c.ledgers[0].domain);
    } else {
      var before := CommandsAlone(c, key, k - 1);
      var move := CommandMove(c.entries[k - 1]);
      CommandIsAllowed(c, key, k - 1);
      Extends(before, move);
      t := Extend(before, move);
    }
  }

  lemma CommandIsAllowed(c: Trace, key: Bytes, n: nat)
    requires IsRun(c)
    requires Shaped(c) && n < |c.entries| && Strange(key, AllSignatures(c.entries))
    ensures var s, move := System(LoneWorld(key), c.ledgers[n].domain), CommandMove(c.entries[n]);
            && Allowed(s, move)
            && Next(s, move) == System(LoneWorld(key), c.ledgers[n + 1].domain)
  {
    hide IsRun, Step, AuthenticCommand, SignaturesOf;
    RunStep(c, n);
    var entry := c.entries[n];
    if entry.StagedEntry? {
      forall signature | signature in SignaturesOf(entry.command)
        ensures signature in AllSignatures(c.entries)
      {
      }
      StrangeIsAuthentic(LoneWorld(key), key, entry.command);
    }
  }

  // ---- the node pops ----

  /** Some record with this number; nodes take any record that is well formed. */
  function Filler(frontier: U64): LogRecord {
    LogRecord(
      1, [10],
      Envelope([1], [2], 1, 1, frontier, 1, Identity(1, 1), [], [], [], [1], [10], ZeroDigest))
  }

  function FillerPop(frontier: U64): PopStatement {
    PopStatement(1, [1], [2], 1, 10, 1, frontier, 1)
  }

  lemma LoneNodePops(key: Bytes, frontier: U64)
    requires frontier > 0
    ensures var filled := Serve(LONE, key, AppendRecord(Filler(frontier)));
            var popped := Serve(filled.node, key, PopLog(FillerPop(frontier), true));
            && filled.signature.None?
            && popped.signature.None?
            && popped.node.poppedThrough == frontier
  {
    var filled := Serve(LONE, key, AppendRecord(Filler(frontier))).node;
    assert RecordValid(Filler(frontier));
    assert filled.journal == [Filler(frontier)];
    assert Filler(frontier) in filled.journal;
  }

  /** The onlooker of a run of commands appends a filler and pops at what is readable. */
  lemma OnlookerPops(t: SystemTrace, c: Trace, key: Bytes, k: nat) returns (u: SystemTrace)
    requires LooksOn(t, c, key, k) && AllOrdered(t) && AllPublished(t)
    requires IsSystemTrace(t)
    requires c.ledgers[k].domain.log.latestSequence > 0
    ensures Formed(u) && IsSystemTrace(u) && AllOrdered(u) && AllPublished(u)
    ensures |u.states| == k + 3 && u.states[..k + 1] == t.states
    ensures u.states[k + 1].domain == u.states[k + 2].domain == c.ledgers[k].domain
    ensures key in u.states[k + 2].world.nodes
    ensures u.states[k + 2].world.nodes[key].poppedThrough == c.ledgers[k].domain.log.latestSequence
  {
    hide IsSystemTrace, AllOrdered, AllPublished, Serve, Filler, FillerPop;
    var frontier := c.ledgers[k].domain.log.latestSequence;
    LoneNodePops(key, frontier);
    var fill, pop := NodeMove(key, AppendRecord(Filler(frontier))), NodeMove(key, PopLog(FillerPop(frontier), true));
    FillerFollows(frontier);
    Extends(t, fill);
    var filled := Extend(t, fill);
    assert filled.states[..k + 1][k] == filled.states[k];
    Extends(filled, pop);
    u := Extend(filled, pop);
    assert u.states[..k + 2] == filled.states;
    assert u.states[..k + 1] == u.states[..k + 2][..k + 1];
  }

  lemma FillerFollows(frontier: U64)
    ensures Follows(LONE, Filler(frontier).envelope)
    ensures FillerPop(frontier).objectFrontier == frontier
  {
  }

  /** A record staged late is unresolved at a number readers are already past. */
  lemma LateRecordIsPassed(c: Trace, m: nat)
    requires IsOrderlyRun(c)
    requires m < |c.entries| && Shaped(c) && !TimelyAt(c, m)
    ensures var log, k := c.ledgers[m + 1].domain.log, |c.ledgers[m].domain.log.staged|;
            && k < |log.staged|
            && Unresolved(log.staged[k])
            && 0 < log.staged[k].envelope.versionSequence <= log.latestSequence
  {
    hide EventOf, Enabled, CommitsOf, Step, Orderly, GenerationsSettled, IndexBound, IsOrderlyRun, MakeEnvelope,
      ChainTip, ValidRequest, CommittedConflict, StagedConflict, LastNumber;
    OrderlyRunStaysOrderly(c, m);
    OrderlyRunStaysOrderly(c, m + 1);
    var ledger, event := OrderlyStep(c, m);
    OrderlyParts(c.ledgers[m + 1].domain.log, c.ledgers[m + 1].history);
    assert Fits(EntryOf(c.ledgers[m + 1].domain.log.staged[|ledger.domain.log.staged|]));
  }

  /** A joint run over these commands, with published pops and ordered appends. */
  predicate JointOver(t: SystemTrace, c: Trace, at: seq<nat>) {
    hide IsSystemTrace, Projects, AllPublished, AllOrdered, SourcesKnown;
    && IsSystemTrace(t)
    && Projects(t, c, at)
    && AllPublished(t)
    && AllOrdered(t)
    && t.states != []
    && SourcesKnown(t.states[0].world)
  }

  /** Every joint run over these commands keeps clear of unresolved records. */
  ghost predicate AlwaysTrimmed(c: Trace) {
    forall t, at :: JointOver(t, c, at) ==> AllTrimmed(t)
  }

  lemma LateRunIsPassed(c: Trace, m: nat)
    requires IsOrderlyRun(c)
    requires m < |c.entries| && Shaped(c) && !TimelyAt(c, m)
    ensures !AlwaysTrimmed(c)
  {
    hide IsOrderlyRun, IsRun, IsSystemTrace, AllOrdered, AllPublished, TimelyAt;
    OrderlyRunIsRun(c);
    LateRecordIsPassed(c, m);
    var key := StrangeKey(AllSignatures(c.entries));
    var alone := CommandsAlone(c, key, m + 1);
    var t := OnlookerPops(alone, c, key, m + 1);
    var at := seq(m + 4, k requires 0 <= k < m + 4 => if k <= m + 1 then k else m + 1);
    assert forall k :: 0 <= k <= m + 1 ==> t.states[k] == t.states[..m + 2][k];
    assert JointOver(t, c, at);
    assert !TrimmedAt(t, m + 3) by {
      var d := t.states[m + 3].domain;
      var i := |c.ledgers[m].domain.log.staged|;
      assert Unresolved(d.log.staged[i]);
      assert !Unpopped(t.states[m + 3].world, d.log.staged[i].envelope);
    }
  }

  /**
  Exactly when popping is safe. For an orderly run of commands, every joint run over it with published pops
  keeps clear of unresolved records if and only if nothing is staged late, that is, if the run is careful.
  */
  lemma AlwaysTrimmedIffCareful(c: Trace)
    requires IsOrderlyRun(c)
    ensures AlwaysTrimmed(c) <==> IsCarefulRun(c)
  {
    hide IsOrderlyRun, IsSystemTrace, AllOrdered, AllPublished, AllTrimmed, TimelyAt, Projects, SourcesKnown;
    OrderlyRunIsRun(c);
    if IsCarefulRun(c) {
      forall t, at | JointOver(t, c, at)
        ensures AllTrimmed(t)
      {
        CarefulRunsAreTrimmed(t, c, at);
      }
    } else {
      var m :| 0 <= m < |c.entries| && !TimelyAt(c, m);
      LateRunIsPassed(c, m);
    }
  }
}
