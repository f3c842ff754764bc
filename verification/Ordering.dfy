/**
The ordering core of one transaction domain: visible rows, the committed history with its hash
chain, and the transactions staged between ordering and publication.
*/
module Ordering {
  import opened Keys
  import opened Types
  import opened Sets

  type Rows = map<Bytes, Bytes>

  const REQUIRED_RESOLVERS: seq<U16> := [1, 2]

  const REQUIRED_LOG_TAGS: seq<U16> := [10, 20]

  datatype CommittedWrite = CommittedWrite(sequence: U64, range: KeyRange)

  datatype StagedTransaction = StagedTransaction(
    identity: Identity,
    transaction: Transaction,
    sequence: U64,
    envelope: Envelope,
    receipts: map<U16, Receipt>,
    certificates: map<U16, TaggedLogCertificate>,
    visible: bool,
    aborted: bool)

  datatype CommitLog = CommitLog(
    generation: U64,
    latestSequence: U64,
    rows: Rows,
    committedWrites: seq<CommittedWrite>,
    committedEnvelopes: seq<Envelope>,
    previousLogChain: Digest,
    staged: seq<StagedTransaction>)

  predicate Unresolved(record: StagedTransaction) {
    !record.visible && !record.aborted
  }

  predicate NothingUnresolved(staged: seq<StagedTransaction>) {
    forall i :: 0 <= i < |staged| ==> !Unresolved(staged[i])
  }

  /** Index of the first record with this identity, or the length when there is none. */
  function Find(staged: seq<StagedTransaction>, identity: Identity): (index: nat)
    ensures index <= |staged|
    ensures index < |staged| ==> staged[index].identity == identity
    ensures forall i :: 0 <= i < index ==> staged[i].identity != identity
  {
    FindFrom(staged, identity, 0)
  }

  function FindFrom(staged: seq<StagedTransaction>, identity: Identity, from: nat): (index: nat)
    requires from <= |staged|
    ensures from <= index <= |staged|
    ensures index < |staged| ==> staged[index].identity == identity
    ensures forall i :: from <= i < index ==> staged[i].identity != identity
    decreases |staged| - from
  {
    if from == |staged| || staged[from].identity == identity then from else FindFrom(staged, identity, from + 1)
  }

  // ---- requests ----

  predicate ContainsAll(actual: seq<U16>, required: seq<U16>) {
    forall i :: 0 <= i < |required| ==> required[i] in actual
  }

  function MutationKeys(mutations: seq<Mutation>): seq<Bytes> {
    seq(|mutations|, i requires 0 <= i < |mutations| => mutations[i].key)
  }

  predicate CoveredBy(key: Bytes, ranges: seq<KeyRange>) {
    exists i :: 0 <= i < |ranges| && Contains(ranges[i], key)
  }

  /** Some mutation, only non-empty ranges, no key mutated twice, every mutation under a write conflict. */
  predicate ValidRequest(tx: Transaction) {
    && tx.mutations != []
    && (forall i :: 0 <= i < |tx.readConflicts| ==> Valid(tx.readConflicts[i]))
    && (forall i :: 0 <= i < |tx.writeConflicts| ==> Valid(tx.writeConflicts[i]))
    && Distinct(MutationKeys(tx.mutations))
    && forall i :: 0 <= i < |tx.mutations| ==> CoveredBy(tx.mutations[i].key, tx.writeConflicts)
  }

  // ---- conflicts ----

  /** A committed write newer than the read version overlaps a read. */
  predicate CommittedConflict(log: CommitLog, tx: Transaction) {
    exists i, j ::
      && 0 <= i < |tx.readConflicts|
      && 0 <= j < |log.committedWrites|
      && log.committedWrites[j].sequence > tx.readVersion.sequence
      && Overlaps(tx.readConflicts[i], log.committedWrites[j].range)
  }

  /** A staged record newer than the read version, and not aborted, writes over a read. */
  predicate StagedConflict(log: CommitLog, tx: Transaction) {
    exists i ::
      && 0 <= i < |log.staged|
      && !log.staged[i].aborted
      && log.staged[i].sequence > tx.readVersion.sequence
      && AnyOverlap(tx.readConflicts, log.staged[i].transaction.writeConflicts)
  }

  // ---- effects ----

  function ApplyMutation(rows: Rows, mutation: Mutation): Rows {
    match mutation
    case Clear(key) => rows - {key}
    case Set(key, value) => rows[key := value]
  }

  function ApplyMutations(rows: Rows, mutations: seq<Mutation>): Rows {
    if mutations == [] then rows
    else
      var n := |mutations| - 1;
      ApplyMutation(ApplyMutations(rows, mutations[..n]), mutations[n])
  }

  function WritesAt(ranges: seq<KeyRange>, sequence: U64): seq<CommittedWrite> {
    seq(|ranges|, i requires 0 <= i < |ranges| => CommittedWrite(sequence, ranges[i]))
  }

  /** Make one transaction visible: rows, conflict history, chain and commit sequence move together. */
  function Commit(log: CommitLog, tx: Transaction, sequence: U64, envelope: Envelope, generation: U64): CommitLog {
    log.(
      generation := generation,
      latestSequence := sequence,
      rows := ApplyMutations(log.rows, tx.mutations),
      committedWrites := log.committedWrites + WritesAt(tx.writeConflicts, sequence),
      committedEnvelopes := log.committedEnvelopes + [envelope],
      previousLogChain := EnvelopeDigest(envelope))
  }

  /** Publish staged record `i`; `generation` is the domain's generation afterwards. */
  function Publish(log: CommitLog, i: nat, generation: U64): CommitLog
    requires i < |log.staged|
  {
    var record := log.staged[i];
    Commit(log, record.transaction, record.sequence, record.envelope, generation)
      .(staged := log.staged[i := record.(visible := true)])
  }

  function Abort(log: CommitLog, i: nat): CommitLog
    requires i < |log.staged|
  {
    log.(staged := log.staged[i := log.staged[i].(aborted := true)])
  }

  /** Publish records `from` up to `upTo` in order. */
  function PublishRange(log: CommitLog, from: nat, upTo: nat, generation: U64): (r: CommitLog)
    requires from <= upTo <= |log.staged|
    ensures |r.staged| == |log.staged|
  {
    if from == upTo then log
    else Publish(PublishRange(log, from, upTo - 1, generation), upTo - 1, generation)
  }

  function AbortRange(log: CommitLog, from: nat, upTo: nat): (r: CommitLog)
    requires from <= upTo <= |log.staged|
    ensures |r.staged| == |log.staged|
  {
    if from == upTo then log else Abort(AbortRange(log, from, upTo - 1), upTo - 1)
  }

  // ---- staging ----

  /** The sequence the next staged transaction is numbered from: the last staged one, aborted or not. */
  function LastNumber(log: CommitLog): U64 {
    if log.staged == [] then log.latestSequence else log.staged[|log.staged| - 1].sequence
  }

  function NextSequence(log: CommitLog): U64 {
    Successor(LastNumber(log))
  }

  /** Digest of the last staged envelope that is not aborted, or the committed chain. */
  function ChainTip(staged: seq<StagedTransaction>, committed: Digest): Digest {
    if staged == [] then committed
    else
      var last := staged[|staged| - 1];
      if last.aborted then ChainTip(staged[..|staged| - 1], committed) else EnvelopeDigest(last.envelope)
  }

  function ResolversOf(tx: Transaction): seq<U16> {
    if tx.resolution.None? then REQUIRED_RESOLVERS
    else
      var attestations := tx.resolution.value.attestations;
      seq(|attestations|, i requires 0 <= i < |attestations| => attestations[i].statement.resolver)
  }

  function MakeEnvelope(tx: Transaction, sequence: U64, logIndex: U64, logTags: seq<U16>, chain: Digest): Envelope {
    Envelope(
      tx.cell, tx.tenant, tx.generation, tx.generation, sequence, logIndex, tx.identity, tx.readConflicts,
      tx.writeConflicts, tx.mutations, ResolversOf(tx), logTags, chain)
  }

  function StagedRecord(log: CommitLog, tx: Transaction, logIndex: U64): StagedTransaction {
    var sequence := NextSequence(log);
    StagedTransaction(
      tx.identity, tx, sequence,
      MakeEnvelope(tx, sequence, logIndex, tx.logTags, ChainTip(log.staged, log.previousLogChain)),
      map[], map[], false, false)
  }

  function AppendStaged(log: CommitLog, tx: Transaction, logIndex: U64): CommitLog {
    log.(staged := log.staged + [StagedRecord(log, tx, logIndex)])
  }

  function DirectEnvelope(log: CommitLog, tx: Transaction, logIndex: U64): Envelope {
    MakeEnvelope(tx, logIndex, logIndex, REQUIRED_LOG_TAGS, log.previousLogChain)
  }

  /** Commit without staging, numbered by the replicated log index. */
  function CommitDirectly(log: CommitLog, tx: Transaction, logIndex: U64): CommitLog {
    Commit(log, tx, logIndex, DirectEnvelope(log, tx, logIndex), tx.generation)
  }
}
