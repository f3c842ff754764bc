/**
Tagged-log nodes. A node appends records it is sent, signs statements about what it holds, once it fences
a generation never appends a record of that generation again, and drops records that have been published
to object storage. A learner starts empty, installs a snapshot that a quorum of the members it replaces one
of has signed, and takes part once its policy is activated. Each signing key belongs to one node.
*/
module LogNodes {
  import opened Keys
  import opened Types
  import opened Sets
  import opened Certificates

  datatype Node = Node(
    logSet: U16,
    repairSource: Option<LogSetPolicy>,
    policyEpoch: U64,
    activated: bool,
    journal: seq<LogRecord>,
    lastPosition: U64,
    poppedThrough: U64,
    fences: map<U64, FenceStatement>,
    prefixFences: map<U64, PrefixFenceStatement>)

  datatype PopStatement = PopStatement(
    formatVersion: U16,
    cell: Bytes,
    tenant: Bytes,
    generation: U64,
    logSet: U16,
    policyEpoch: U64,
    objectFrontier: U64,
    popEpoch: U64)

  /**
  What a node is asked. A pop comes with the verdict on its publication capability, and a policy
  activation with the verdict on its stage certificate and authority proof. A node's id and sample epoch
  are part of the request to attest a snapshot.
  */
  datatype Request =
    | AppendRecord(record: LogRecord)
    | Attest(durable: TaggedLogStatement)
    | FenceGeneration(fence: FenceStatement)
    | FencePrefix(prefix: PrefixFenceStatement)
    | PopLog(pop: PopStatement, published: bool)
    | ActivatePolicy(epoch: U64, proven: bool)
    | AttestRepair(repair: RepairStatement, records: seq<LogRecord>, signer: U64, sample: U64)
    | InstallSnapshot(certificate: RepairCertificate, records: seq<LogRecord>)

  /** The node after a request and the signature it answers with, if any. */
  datatype Answer = Answer(node: Node, signature: Option<Signature>)

  predicate Fenced(node: Node, generation: U64) {
    generation in node.fences || generation in node.prefixFences
  }

  /** A node with a pinned source policy is a learner. */
  predicate Learner(node: Node) {
    node.repairSource.Some?
  }

  /** A learner takes no part before its policy is activated. */
  predicate Excluded(node: Node) {
    Learner(node) && !node.activated
  }

  predicate RecordValid(record: LogRecord) {
    && record.position != 0
    && record.rangeTags != []
    && Distinct(record.rangeTags)
    && Decodes(record.envelope)
    && forall i :: 0 <= i < |record.envelope.requiredLogTags| ==> record.envelope.requiredLogTags[i] in record.rangeTags
  }

  predicate Appendable(node: Node, record: LogRecord) {
    && !Excluded(node)
    && !Fenced(node, record.envelope.generation)
    && RecordValid(record)
    && node.logSet in record.rangeTags
    && record.position == Successor(node.lastPosition)
  }

  /** The record is the one a statement describes. */
  predicate Matches(
    record: LogRecord, logSet: U16, cell: Bytes, tenant: Bytes, generation: U64, target: WindowRecord)
  {
    && record.envelope.cell == cell
    && record.envelope.tenant == tenant
    && record.envelope.generation == generation
    && record.envelope.versionSequence == target.commitSequence
    && record.envelope.identity == target.transactionIdentity
    && EnvelopeDigest(record.envelope) == target.envelopeDigest
    && logSet in record.rangeTags
  }

  predicate Present(node: Node, cell: Bytes, tenant: Bytes, generation: U64, target: WindowRecord) {
    exists record :: record in node.journal && Matches(record, node.logSet, cell, tenant, generation, target)
  }

  function DurableTarget(statement: TaggedLogStatement): WindowRecord {
    WindowRecord(statement.transactionIdentity, statement.commitSequence, statement.envelopeDigest)
  }

  function FenceTarget(statement: FenceStatement): WindowRecord {
    WindowRecord(statement.transactionIdentity, statement.commitSequence, statement.envelopeDigest)
  }

  /** A durability statement is signed only about a journaled record, at its position. */
  predicate Attestable(node: Node, statement: TaggedLogStatement) {
    && !Excluded(node)
    && statement.formatVersion == 1
    && node.policyEpoch != 0
    && statement.policyEpoch == node.policyEpoch
    && statement.logSet == node.logSet
    && statement.durablePosition != 0
    && exists record ::
         && record in node.journal
         && record.position == statement.durablePosition
         && Matches(record, node.logSet, statement.cell, statement.tenant, statement.generation,
                    DurableTarget(statement))
  }

  predicate Fenceable(node: Node, statement: FenceStatement) {
    && !Excluded(node)
    && node.policyEpoch != 0
    && statement.formatVersion == 1
    && statement.policyEpoch == node.policyEpoch
    && statement.logSet == node.logSet
    && statement.generation != 0
    && statement.recoveryId != 0
    && statement.commitSequence != 0
    && (statement.generation in node.fences ==> node.fences[statement.generation] == statement)
  }

  predicate PrefixFenceable(node: Node, statement: PrefixFenceStatement) {
    && !Excluded(node)
    && node.policyEpoch != 0
    && statement.formatVersion == 1
    && statement.policyEpoch == node.policyEpoch
    && statement.logSet == node.logSet
    && statement.generation != 0
    && statement.recoveryId != 0
    && statement.window.formatVersion == 1
    && statement.window.records != []
    && (statement.generation in node.prefixFences ==> node.prefixFences[statement.generation] == statement)
  }

  function Observe(node: Node, statement: PrefixFenceStatement): seq<Observation> {
    var records := statement.window.records;
    seq(|records|, i requires 0 <= i < |records| =>
      Observation(
        records[i], Present(node, statement.cell, statement.tenant, statement.generation, records[i])))
  }

  /** A published frontier may be popped up to the newest record retained, all of one domain. */
  predicate Poppable(node: Node, statement: PopStatement, published: bool) {
    && !Excluded(node)
    && published
    && statement.formatVersion == 1
    && statement.generation != 0
    && statement.logSet == node.logSet
    && statement.policyEpoch == node.policyEpoch
    && node.poppedThrough <= statement.objectFrontier
    && statement.popEpoch != 0
    && (forall record :: record in node.journal ==>
          && record.envelope.cell == statement.cell
          && record.envelope.tenant == statement.tenant
          && record.envelope.generation == statement.generation)
    && exists record :: record in node.journal && record.envelope.versionSequence >= statement.objectFrontier
  }

  /** The records beyond the frontier, in order. */
  function Retained(journal: seq<LogRecord>, frontier: U64): (retained: seq<LogRecord>)
    ensures forall record :: record in retained <==>
              record in journal && record.envelope.versionSequence > frontier
  {
    if journal == [] then []
    else
      var n := |journal| - 1;
      assert journal == journal[..n] + [journal[n]];
      Retained(journal[..n], frontier) + if journal[n].envelope.versionSequence > frontier then [journal[n]] else []
  }

  function Pop(node: Node, frontier: U64): Node {
    if frontier <= node.poppedThrough then node
    else node.(poppedThrough := frontier, journal := Retained(node.journal, frontier))
  }

  /** The records are one consecutive retained suffix of the domain, log set and frontier the statement names. */
  predicate SnapshotValid(records: seq<LogRecord>, statement: RepairStatement, logSet: U16) {
    && statement.formatVersion == 1
    && statement.generation != 0
    && statement.logSet == logSet
    && statement.snapshotDigest == SnapshotDigest(records)
    && records != []
    && records[|records| - 1].position == statement.lastPosition
    && (forall i :: 0 < i < |records| ==> records[i].position == Successor(records[i - 1].position))
    && forall record :: record in records ==>
         && RecordValid(record)
         && logSet in record.rangeTags
         && record.envelope.cell == statement.cell
         && record.envelope.tenant == statement.tenant
         && record.envelope.generation == statement.generation
         && record.envelope.versionSequence > statement.poppedThrough
  }

  /** A member vouches for a snapshot that is exactly what it retains. */
  predicate RepairAttestable(node: Node, statement: RepairStatement, records: seq<LogRecord>, sample: U64) {
    && !Excluded(node)
    && SnapshotValid(records, statement, node.logSet)
    && node.lastPosition == statement.lastPosition
    && node.poppedThrough == statement.poppedThrough
    && sample != 0
    && node.journal == records
  }

  /** An empty learner installs the base snapshot that a quorum of its source policy vouched for. */
  predicate SnapshotInstallable(node: Node, key: Bytes, certificate: RepairCertificate, records: seq<LogRecord>) {
    && Learner(node)
    && certificate.statement.learnerKey == key
    && RepairCertificateValid(certificate, node.repairSource.value)
    && certificate.statement.phase == BaseSnapshot
    && node.journal == []
    && node.lastPosition == 0
    && node.poppedThrough == 0
    && SnapshotValid(records, certificate.statement, node.logSet)
  }

  function Serve(node: Node, key: Bytes, request: Request): Answer {
    match request
    case AppendRecord(record) =>
      if Appendable(node, record)
      then Answer(node.(journal := node.journal + [record], lastPosition := record.position), None)
      else Answer(node, None)
    case Attest(statement) =>
      Answer(node, if Attestable(node, statement) then Some(Signature(key, DurableMessage(statement))) else None)
    case FenceGeneration(statement) =>
      if !Fenceable(node, statement) then Answer(node, None)
      else
        var present := Present(node, statement.cell, statement.tenant, statement.generation, FenceTarget(statement));
        Answer(node.(fences := node.fences[statement.generation := statement]),
               Some(Signature(key, FenceMessage(statement, present))))
    case FencePrefix(statement) =>
      if !PrefixFenceable(node, statement) then Answer(node, None)
      else
        Answer(node.(prefixFences := node.prefixFences[statement.generation := statement]),
               Some(Signature(key, PrefixFenceMessage(statement, Observe(node, statement)))))
    case PopLog(statement, published) =>
      Answer(if Poppable(node, statement, published) then Pop(node, statement.objectFrontier) else node, None)
    case ActivatePolicy(epoch, proven) =>
      if proven && !node.activated && epoch == Successor(node.policyEpoch) && (Learner(node) ==> node.lastPosition != 0)
      then Answer(node.(policyEpoch := epoch, activated := true), None)
      else Answer(node, None)
    case AttestRepair(statement, records, signer, sample) =>
      Answer(
        node,
        if RepairAttestable(node, statement, records, sample)
        then Some(Signature(key, RepairMessage(statement, signer, sample))) else None)
    case InstallSnapshot(certificate, records) =>
      if SnapshotInstallable(node, key, certificate, records)
      then
        Answer(
          node.(journal := records, lastPosition := certificate.statement.lastPosition,
                poppedThrough := certificate.statement.poppedThrough),
          None)
      else Answer(node, None)
  }

  // ---- what a signature proves, forever ----

  /** The record is present, or was dropped with everything published so far. */
  predicate Kept(node: Node, cell: Bytes, tenant: Bytes, generation: U64, target: WindowRecord) {
    Present(node, cell, tenant, generation, target) || target.commitSequence <= node.poppedThrough
  }

  /** What the message says is exactly so: durable records are present, and presence is reported as it is. */
  predicate Exact(node: Node, message: Message) {
    match message
    case DurableMessage(statement) =>
      && statement.logSet == node.logSet
      && Present(node, statement.cell, statement.tenant, statement.generation, DurableTarget(statement))
    case FenceMessage(statement, present) =>
      && statement.logSet == node.logSet
      && Fenced(node, statement.generation)
      && (present <==>
            Present(node, statement.cell, statement.tenant, statement.generation, FenceTarget(statement)))
    case PrefixFenceMessage(statement, observations) =>
      && statement.logSet == node.logSet
      && Fenced(node, statement.generation)
      && forall i :: 0 <= i < |observations| ==>
           (observations[i].present <==>
              Present(node, statement.cell, statement.tenant, statement.generation, observations[i].record))
    case RepairMessage(statement, _, _) =>
      && statement.logSet == node.logSet
      && statement.poppedThrough == node.poppedThrough
      && statement.snapshotDigest == SnapshotDigest(node.journal)
    case _ => true
  }

  lemma ExactIsTruthful(node: Node, message: Message)
    requires Exact(node, message)
    ensures Truthful(node, message)
  {
    hide Present, Fenced;
  }

  /** What remains of the message once the node has gone on. */
  predicate Truthful(node: Node, message: Message) {
    match message
    case DurableMessage(statement) =>
      && statement.logSet == node.logSet
      && Kept(node, statement.cell, statement.tenant, statement.generation, DurableTarget(statement))
    case FenceMessage(statement, present) =>
      && statement.logSet == node.logSet
      && Fenced(node, statement.generation)
      && Reported(node, statement.cell, statement.tenant, statement.generation, FenceTarget(statement), present)
    case PrefixFenceMessage(statement, observations) =>
      && statement.logSet == node.logSet
      && Fenced(node, statement.generation)
      && forall i :: 0 <= i < |observations| ==>
           Reported(node, statement.cell, statement.tenant, statement.generation, observations[i].record,
                    observations[i].present)
    case _ => true
  }

  /** A record reported present is kept; one reported absent is absent. */
  predicate Reported(node: Node, cell: Bytes, tenant: Bytes, generation: U64, target: WindowRecord, present: bool) {
    if present then Kept(node, cell, tenant, generation, target)
    else !Present(node, cell, tenant, generation, target)
  }

  lemma FencingKeepsPresence(
    node: Node, fences: map<U64, FenceStatement>, prefixFences: map<U64, PrefixFenceStatement>, cell: Bytes,
    tenant: Bytes, generation: U64, target: WindowRecord)
    ensures Present(node.(fences := fences, prefixFences := prefixFences), cell, tenant, generation, target)
            <==> Present(node, cell, tenant, generation, target)
  {
    hide Matches;
  }

  /** A learner that holds nothing yet has fenced nothing. */
  predicate Unfenced(node: Node) {
    Learner(node) && node.lastPosition == 0 ==> !node.activated && node.fences == map[] && node.prefixFences == map[]
  }

  /** Fences stay, records leave only by pops, and come only to open generations. */
  predicate Continues(node: Node, next: Node) {
    && next.logSet == node.logSet
    && next.repairSource == node.repairSource
    && node.poppedThrough <= next.poppedThrough
    && (forall generation :: Fenced(node, generation) ==> Fenced(next, generation))
    && (forall record :: record in node.journal ==>
          record in next.journal || record.envelope.versionSequence <= next.poppedThrough)
    && forall record :: record in next.journal ==>
         || record in node.journal
         || (!Fenced(node, record.envelope.generation) && node.logSet in record.rangeTags)
  }

  lemma ServeContinues(node: Node, key: Bytes, request: Request)
    requires Unfenced(node)
    ensures Continues(node, Serve(node, key, request).node)
    ensures Unfenced(Serve(node, key, request).node)
  {
    hide Attestable, Poppable, Present, Observe, Retained, RepairAttestable;
    if request.InstallSnapshot? {
      InstallContinues(node, key, request.certificate, request.records);
    } else {
      hide SnapshotInstallable;
    }
  }

  /** An install comes to an empty node that has fenced nothing. */
  lemma InstallContinues(node: Node, key: Bytes, certificate: RepairCertificate, records: seq<LogRecord>)
    requires Unfenced(node)
    ensures var next := Serve(node, key, InstallSnapshot(certificate, records)).node;
            Continues(node, next) && Unfenced(next)
  {
    hide RepairCertificateValid, RecordValid;
    InstalledPosition(node, key, certificate, records);
  }

  lemma InstalledPosition(node: Node, key: Bytes, certificate: RepairCertificate, records: seq<LogRecord>)
    ensures SnapshotInstallable(node, key, certificate, records) ==> certificate.statement.lastPosition != 0
  {
    if SnapshotInstallable(node, key, certificate, records) {
      assert records[|records| - 1] in records;
    }
  }

  lemma PresenceOverTime(
    node: Node, next: Node, cell: Bytes, tenant: Bytes, generation: U64, target: WindowRecord)
    requires Continues(node, next)
    ensures Kept(node, cell, tenant, generation, target) ==> Kept(next, cell, tenant, generation, target)
    ensures Fenced(node, generation) ==>
              (Present(next, cell, tenant, generation, target) ==> Present(node, cell, tenant, generation, target))
  {
    hide Fenced;
  }

  /** A pop removes exactly the records at or below a frontier beyond the last one. */
  lemma PopRemovesExactly(
    node: Node, frontier: U64, cell: Bytes, tenant: Bytes, generation: U64, target: WindowRecord)
    ensures Present(Pop(node, frontier), cell, tenant, generation, target)
            <==> && Present(node, cell, tenant, generation, target)
                 && (frontier <= node.poppedThrough || target.commitSequence > frontier)
  {
    hide Retained;
  }

  /**
  What was signed durable can come to be denied, and exactly by a pop past it: a fence signed after a pop
  reports the record absent if and only if the pop moved the frontier to or beyond the record.
  */
  lemma DeniedIffPopped(
    node: Node, key: Bytes, durable: TaggedLogStatement, pop: PopStatement, published: bool, fence: FenceStatement)
    requires Attestable(node, durable) && Poppable(node, pop, published)
    requires fence.cell == durable.cell && fence.tenant == durable.tenant && fence.generation == durable.generation
    requires FenceTarget(fence) == DurableTarget(durable)
    requires Fenceable(node, fence)
    ensures var after := Serve(node, key, PopLog(pop, published)).node;
            var denied := node.poppedThrough < pop.objectFrontier && durable.commitSequence <= pop.objectFrontier;
            Serve(after, key, FenceGeneration(fence)).signature == Some(Signature(key, FenceMessage(fence, !denied)))
  {
    hide Matches, Retained, Poppable;
    PopRemovesExactly(node, pop.objectFrontier, fence.cell, fence.tenant, fence.generation, FenceTarget(fence));
  }

  /** A statement stays true as long as the node runs, whatever it appends, fences or pops. */
  lemma TruthStays(node: Node, next: Node, message: Message)
    requires Continues(node, next) && Truthful(node, message)
    ensures Truthful(next, message)
  {
    hide Present, Fenced, Kept;
    match message
    case DurableMessage(st) => PresenceOverTime(node, next, st.cell, st.tenant, st.generation, DurableTarget(st));
    case FenceMessage(st, _) => PresenceOverTime(node, next, st.cell, st.tenant, st.generation, FenceTarget(st));
    case PrefixFenceMessage(st, observations) =>
      forall i | 0 <= i < |observations|
        ensures Reported(next, st.cell, st.tenant, st.generation, observations[i].record, observations[i].present)
      {
        PresenceOverTime(node, next, st.cell, st.tenant, st.generation, observations[i].record);
      }
    case _ =>
  }

  /** What a node signs is exactly so when it signs it. */
  lemma SignsTheTruth(node: Node, key: Bytes, request: Request)
    ensures var answer := Serve(node, key, request);
            answer.signature.Some? ==>
              && answer.signature.value.Signature?
              && answer.signature.value.key == key
              && Exact(answer.node, answer.signature.value.message)
  {
    hide Matches;
    var answer := Serve(node, key, request);
    match request
    case AppendRecord(_) =>
    case Attest(_) =>
    case PopLog(_, _) =>
    case ActivatePolicy(_, _) =>
    case AttestRepair(_, _, _, _) =>
    case InstallSnapshot(_, _) =>
    case FenceGeneration(st) =>
      FencingKeepsPresence(
        node, answer.node.fences, answer.node.prefixFences, st.cell, st.tenant, st.generation, FenceTarget(st));
      hide Present;
    case FencePrefix(st) =>
      forall i | 0 <= i < |st.window.records|
        ensures Present(answer.node, st.cell, st.tenant, st.generation, st.window.records[i])
                <==> Present(node, st.cell, st.tenant, st.generation, st.window.records[i])
      {
        FencingKeepsPresence(
          node, answer.node.fences, answer.node.prefixFences, st.cell, st.tenant, st.generation, st.window.records[i]);
      }
      hide Present;
  }

  // ---- all nodes together ----

  /** The nodes by signing key, and every signature any of them has given. */
  datatype World = World(nodes: map<Bytes, Node>, issued: set<Signature>)

  function Handle(w: World, key: Bytes, request: Request): World
    requires key in w.nodes
  {
    var answer := Serve(w.nodes[key], key, request);
    World(w.nodes[key := answer.node],
          if answer.signature.Some? then w.issued + {answer.signature.value} else w.issued)
  }

  /** Every signature given is by one of the nodes and says what is so; journals hold only their own log set. */
  predicate Honest(w: World) {
    && (forall key :: key in w.nodes ==> Unfenced(w.nodes[key]))
    && (forall signature :: signature in w.issued ==>
          signature.Signature? && signature.key in w.nodes && Truthful(w.nodes[signature.key], signature.message))
    && forall key, record :: key in w.nodes && record in w.nodes[key].journal ==>
         w.nodes[key].logSet in record.rangeTags
  }

  /** A node as it is first started. */
  predicate Started(node: Node) {
    && !node.activated
    && node.journal == []
    && node.lastPosition == 0
    && node.poppedThrough == 0
    && node.fences == map[]
    && node.prefixFences == map[]
  }

  /** Newly started nodes that have signed nothing. */
  predicate Blank(w: World) {
    w.issued == {} && forall key :: key in w.nodes ==> Started(w.nodes[key])
  }

  /** Whatever request a node serves, honesty is kept. */
  lemma HandleKeepsHonest(w: World, key: Bytes, request: Request)
    requires Honest(w) && key in w.nodes
    ensures Honest(Handle(w, key, request))
  {
    hide Serve, Truthful, Exact, Unfenced;
    ServeContinues(w.nodes[key], key, request);
    SignsTheTruth(w.nodes[key], key, request);
    var next, signature := Handle(w, key, request), Serve(w.nodes[key], key, request).signature;
    if signature.Some? {
      ExactIsTruthful(next.nodes[key], signature.value.message);
    }
    forall given | given in w.issued && given.key == key
      ensures Truthful(next.nodes[key], given.message)
    {
      TruthStays(w.nodes[key], next.nodes[key], given.message);
    }
  }
}
