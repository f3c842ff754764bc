/**
Quorum safety of takeovers. Commands reach the authority while honest nodes append, sign, fence and pop;
a record held by a quorum of every required log set is never aborted, and once a record is aborted no
complete set of durability certificates for it can ever come into being.
*/
module Safety {
  import opened Keys
  import opened Types
  import opened Sets
  import opened Quorum
  import opened Certificates
  import opened Ordering
  import opened Domain
  import opened Policies
  import opened Guarantees
  import opened Prefix
  import opened LogNodes
  import Generation

  // ---- who holds a record, and who never will ----

  predicate Journaled(journal: seq<LogRecord>, envelope: Envelope) {
    exists record :: record in journal && record.envelope == envelope
  }

  predicate Logged(node: Node, envelope: Envelope) {
    Journaled(node.journal, envelope)
  }

  predicate Holds(w: World, key: Bytes, envelope: Envelope) {
    key in w.nodes && Logged(w.nodes[key], envelope)
  }

  /** The node holds the record, or has popped as far as it. */
  predicate Keeps(w: World, key: Bytes, envelope: Envelope) {
    && key in w.nodes
    && (Logged(w.nodes[key], envelope) || envelope.versionSequence <= w.nodes[key].poppedThrough)
  }

  /** No node has popped as far as this record. */
  predicate Unpopped(w: World, envelope: Envelope) {
    forall key :: key in w.nodes ==> w.nodes[key].poppedThrough < envelope.versionSequence
  }

  /** No node has popped as far as an unresolved record. */
  predicate Trimmed(w: World, d: Domain) {
    forall i :: 0 <= i < |d.log.staged| && Unresolved(d.log.staged[i]) ==> Unpopped(w, d.log.staged[i].envelope)
  }

  /** The statement is about exactly this envelope. */
  predicate Describes(cell: Bytes, tenant: Bytes, generation: U64, target: WindowRecord, envelope: Envelope) {
    && cell == envelope.cell
    && tenant == envelope.tenant
    && generation == envelope.generation
    && target == WindowRecord(envelope.identity, envelope.versionSequence, EnvelopeDigest(envelope))
  }

  /** The message says that this envelope is durable. */
  predicate Certifies(message: Message, envelope: Envelope) {
    && message.DurableMessage?
    && var st := message.durable; Describes(st.cell, st.tenant, st.generation, DurableTarget(st), envelope)
  }

  predicate NeverCertified(w: World, key: Bytes, envelope: Envelope) {
    forall signature :: signature in w.issued && signature.Signature? && signature.key == key ==>
      !Certifies(signature.message, envelope)
  }

  /** The node does not hold the record, never signed it durable, and has closed its generation. */
  predicate Refuses(w: World, key: Bytes, envelope: Envelope) {
    && key in w.nodes
    && Fenced(w.nodes[key], envelope.generation)
    && !Logged(w.nodes[key], envelope)
    && NeverCertified(w, key, envelope)
  }

  function Holders(w: World, policy: LogSetPolicy, envelope: Envelope): set<U64> {
    var keys := MemberMap(policy.members);
    set node | node in keys && Holds(w, keys[node], envelope)
  }

  function Keepers(w: World, policy: LogSetPolicy, envelope: Envelope): set<U64> {
    var keys := MemberMap(policy.members);
    set node | node in keys && Keeps(w, keys[node], envelope)
  }

  function Refusers(w: World, policy: LogSetPolicy, envelope: Envelope): set<U64> {
    var keys := MemberMap(policy.members);
    set node | node in keys && Refuses(w, keys[node], envelope)
  }

  predicate HeldByQuorum(w: World, policy: LogSetPolicy, envelope: Envelope) {
    |Holders(w, policy, envelope)| >= policy.quorum
  }

  predicate KeptByQuorum(w: World, policy: LogSetPolicy, envelope: Envelope) {
    |Keepers(w, policy, envelope)| >= policy.quorum
  }

  predicate RefusedByQuorum(w: World, policy: LogSetPolicy, envelope: Envelope) {
    |Refusers(w, policy, envelope)| >= policy.quorum
  }

  predicate Majority(policy: LogSetPolicy) {
    Distinct(NodeIds(policy.members)) && 2 * policy.quorum > |policy.members|
  }

  /** Under a majority quorum a record cannot be both held and refused by one. */
  lemma HeldExcludesRefused(w: World, policy: LogSetPolicy, envelope: Envelope)
    requires Majority(policy)
    ensures !(HeldByQuorum(w, policy, envelope) && RefusedByQuorum(w, policy, envelope))
  {
    hide Holds, Refuses;
    var held, refused := Holders(w, policy, envelope), Refusers(w, policy, envelope);
    MemberMapCounts(policy.members);
    if |held| >= policy.quorum && |refused| >= policy.quorum {
      LargeSubsetsMeet(held, refused, MemberMap(policy.members).Keys);
      var node :| node in held * refused;
      HoldsOrRefuses(w, MemberMap(policy.members)[node], envelope);
    }
  }

  lemma HoldsOrRefuses(w: World, key: Bytes, envelope: Envelope)
    ensures !(Holds(w, key, envelope) && Refuses(w, key, envelope))
  {
  }

  /** What no node has popped as far as, a quorum keeps only by holding it. */
  lemma KeptIsHeld(w: World, policy: LogSetPolicy, envelope: Envelope)
    requires Unpopped(w, envelope) && KeptByQuorum(w, policy, envelope)
    ensures HeldByQuorum(w, policy, envelope)
  {
    hide Logged, MemberMap;
    assert Keepers(w, policy, envelope) <= Holders(w, policy, envelope);
    Cardinality(Keepers(w, policy, envelope), Holders(w, policy, envelope));
  }

  // ---- what signatures mean to the authority ----

  /** Signatures by nodes cannot be forged: the one shown was given by its node. */
  predicate Authentic(w: World, signature: Signature) {
    signature.Signature? && signature.key in w.nodes ==> signature in w.issued
  }

  predicate AuthenticCertificate(w: World, certificate: TaggedLogCertificate) {
    forall i :: 0 <= i < |certificate.attestations| ==> Authentic(w, certificate.attestations[i].signature)
  }

  predicate AuthenticFence(w: World, certificate: FenceCertificate) {
    forall i :: 0 <= i < |certificate.attestations| ==> Authentic(w, certificate.attestations[i].signature)
  }

  predicate AuthenticInventory(w: World, certificate: PrefixFenceCertificate) {
    forall i :: 0 <= i < |certificate.attestations| ==> Authentic(w, certificate.attestations[i].signature)
  }

  predicate AuthenticCommand(w: World, command: StagedCommand) {
    match command.action
    case RecordCertificate(certificate) => AuthenticCertificate(w, certificate)
    case TakeoverAbort(_, _, _, _, fences) => forall i :: 0 <= i < |fences| ==> AuthenticFence(w, fences[i])
    case TakeoverRecoverPrefix(_, _, _, inventories) =>
      forall i :: 0 <= i < |inventories| ==> AuthenticInventory(w, inventories[i])
    case _ => true
  }

  /** Every member of the policy is one of the nodes. */
  predicate Known(w: World, policy: LogSetPolicy) {
    forall node :: node in MemberMap(policy.members) ==> MemberMap(policy.members)[node] in w.nodes
  }

  /** For an honest node, the record a statement describes is present exactly when its envelope is logged. */
  lemma PresentIffLogged(
    w: World, key: Bytes, cell: Bytes, tenant: Bytes, generation: U64, target: WindowRecord, envelope: Envelope)
    requires Honest(w) && key in w.nodes && Describes(cell, tenant, generation, target, envelope)
    ensures Present(w.nodes[key], cell, tenant, generation, target) <==> Logged(w.nodes[key], envelope)
    ensures Kept(w.nodes[key], cell, tenant, generation, target) <==> Keeps(w, key, envelope)
  {
    hide Truthful;
    var node := w.nodes[key];
    if record :| record in node.journal && record.envelope == envelope {
      assert Matches(record, node.logSet, cell, tenant, generation, target);
    }
    if record :| record in node.journal && Matches(record, node.logSet, cell, tenant, generation, target) {
      assert record.envelope == envelope;
    }
  }

  /** A fenced node that lacks a record no node has popped as far as never signed it durable. */
  lemma AbsentIsRefused(w: World, key: Bytes, envelope: Envelope)
    requires Honest(w) && Unpopped(w, envelope)
    requires key in w.nodes && Fenced(w.nodes[key], envelope.generation) && !Logged(w.nodes[key], envelope)
    ensures Refuses(w, key, envelope)
  {
    hide Logged, Present, Fenced;
    forall signature | signature in w.issued && signature.Signature? && signature.key == key
      ensures !Certifies(signature.message, envelope)
    {
      if Certifies(signature.message, envelope) {
        var st := signature.message.durable;
        PresentIffLogged(w, key, st.cell, st.tenant, st.generation, DurableTarget(st), envelope);
      }
    }
  }

  /** A verified signature of a known member was given by its node, and is true. */
  lemma VerifiedIsTrue(w: World, policy: LogSetPolicy, votes: seq<Vote>, i: nat)
    requires Honest(w) && Known(w, policy) && QuorumVoted(votes, MemberMap(policy.members), policy.quorum)
    requires i < |votes| && Authentic(w, votes[i].signature)
    ensures votes[i].signer in MemberMap(policy.members)
    ensures var key := MemberMap(policy.members)[votes[i].signer];
            key in w.nodes && Truthful(w.nodes[key], votes[i].message)
  {
    hide MemberMap, Truthful, SignerList;
    assert Admissible(votes[i], MemberMap(policy.members));
  }

  /** A valid durability certificate means a quorum of members holds the record, or has popped as far as it. */
  lemma CertifiedIsKept(w: World, policy: LogSetPolicy, certificate: TaggedLogCertificate, envelope: Envelope)
    requires Honest(w) && Known(w, policy) && AuthenticCertificate(w, certificate)
    requires EnvelopeCertificateValid(certificate, policy, envelope)
    ensures KeptByQuorum(w, policy, envelope)
  {
    var st, keys := certificate.statement, MemberMap(policy.members);
    var votes := AttestationVotes(certificate.attestations, DurableMessage(st));
    assert Describes(st.cell, st.tenant, st.generation, DurableTarget(st), envelope);
    hide MemberMap, Kept, Keeps, EnvelopeStatementMatches, Known, Honest, Describes, Present;
    QuorumMeansMembers(votes, keys, policy.quorum);
    forall node | node in Signers(votes)
      ensures node in Keepers(w, policy, envelope)
    {
      var i :| 0 <= i < |votes| && votes[i].signer == node && Admissible(votes[i], keys);
      VerifiedIsTrue(w, policy, votes, i);
      PresentIffLogged(w, keys[node], st.cell, st.tenant, st.generation, DurableTarget(st), envelope);
    }
    Cardinality(Signers(votes), Keepers(w, policy, envelope));
  }

  lemma SignerDoesNotRefuse(
    w: World, policy: LogSetPolicy, certificate: TaggedLogCertificate, envelope: Envelope, node: U64)
    requires Known(w, policy) && AuthenticCertificate(w, certificate)
    requires EnvelopeCertificateValid(certificate, policy, envelope)
    requires node in Signers(AttestationVotes(certificate.attestations, DurableMessage(certificate.statement)))
    ensures node in MemberMap(policy.members) && !Refuses(w, MemberMap(policy.members)[node], envelope)
  {
    var st, keys := certificate.statement, MemberMap(policy.members);
    var votes := AttestationVotes(certificate.attestations, DurableMessage(st));
    assert Certifies(DurableMessage(st), envelope);
    hide MemberMap, Certifies, EnvelopeStatementMatches, Logged;
    QuorumMeansMembers(votes, keys, policy.quorum);
    var i :| 0 <= i < |votes| && votes[i].signer == node && Admissible(votes[i], keys);
    assert Authentic(w, votes[i].signature);
  }

  /** Under a majority quorum no genuine certificate is valid for a record that a quorum refuses. */
  lemma CertifiedExcludesRefused(w: World, policy: LogSetPolicy, certificate: TaggedLogCertificate, envelope: Envelope)
    requires Known(w, policy) && Majority(policy) && AuthenticCertificate(w, certificate)
    ensures !(EnvelopeCertificateValid(certificate, policy, envelope) && RefusedByQuorum(w, policy, envelope))
  {
    if EnvelopeCertificateValid(certificate, policy, envelope) && RefusedByQuorum(w, policy, envelope) {
      var keys := MemberMap(policy.members);
      var votes := AttestationVotes(certificate.attestations, DurableMessage(certificate.statement));
      MemberMapCounts(policy.members);
      hide MemberMap, EnvelopeStatementMatches, Refuses;
      QuorumMeansMembers(votes, keys, policy.quorum);
      LargeSubsetsMeet(Signers(votes), Refusers(w, policy, envelope), keys.Keys);
      var node :| node in Signers(votes) * Refusers(w, policy, envelope);
      SignerDoesNotRefuse(w, policy, certificate, envelope, node);
    }
  }

  // ---- an aborting takeover ----

  function FenceSigners(attestations: seq<FenceAttestation>): (signers: seq<U64>)
    ensures |signers| == |attestations|
  {
    seq(|attestations|, i requires 0 <= i < |attestations| => attestations[i].signer)
  }

  function Absences(attestations: seq<FenceAttestation>): (marks: seq<bool>)
    ensures |marks| == |attestations|
  {
    seq(|attestations|, i requires 0 <= i < |attestations| => !attestations[i].present)
  }

  lemma {:induction false} AbsentCountIsMarks(attestations: seq<FenceAttestation>)
    ensures AbsentCount(attestations) == CountTrue(Absences(attestations))
  {
    if attestations != [] {
      AbsentCountIsMarks(attestations[1..]);
      assert Absences(attestations)[1..] == Absences(attestations[1..]);
    }
  }

  /** A fence of known members that counts a quorum of absences means a quorum refuses the record. */
  lemma AbsenceIsRefusal(
    w: World, policy: LogSetPolicy, fence: FenceCertificate, record: StagedTransaction, cell: Bytes, tenant: Bytes,
    generation: U64, recoveryId: U64)
    requires Honest(w) && Known(w, policy) && AuthenticFence(w, fence) && Described(record, cell, tenant)
    requires FenceCertificateValid(fence, policy, record, cell, tenant, generation, recoveryId)
    requires generation == record.envelope.generation && Unpopped(w, record.envelope)
    requires AbsentCount(fence.attestations) >= policy.quorum
    ensures RefusedByQuorum(w, policy, record.envelope)
  {
    var st, keys, votes := fence.statement, MemberMap(policy.members), FenceVotes(fence);
    assert Describes(st.cell, st.tenant, st.generation, FenceTarget(st), record.envelope);
    hide MemberMap, Present, Logged, Known, Honest, Describes, AbsentCount, Unpopped, Refuses;
    var signers, marks := FenceSigners(fence.attestations), Absences(fence.attestations);
    assert SignerList(votes) == signers;
    AbsentCountIsMarks(fence.attestations);
    MarksCountEntries(signers, marks);
    var absent := Marked(signers, marks);
    forall node | node in absent
      ensures node in Refusers(w, policy, record.envelope)
    {
      var i :| 0 <= i < |signers| && marks[i] && signers[i] == node;
      VerifiedIsTrue(w, policy, votes, i);
      PresentIffLogged(w, keys[node], st.cell, st.tenant, st.generation, FenceTarget(st), record.envelope);
      AbsentIsRefused(w, keys[node], record.envelope);
    }
    Cardinality(absent, Refusers(w, policy, record.envelope));
  }

  /** What an accepted aborting takeover proved about its record. */
  lemma AbortChecks(d: Domain, command: StagedCommand, authority: Generation.Authority) returns (k: nat)
    requires command.action.TakeoverAbort?
    requires ApplyTakeoverAbort(d, command, authority).status == Aborted
    ensures var i, fences := Find(d.log.staged, command.transactionIdentity), command.action.fences;
            && i < |d.log.staged|
            && !d.log.staged[i].visible
            && k < |fences|
            && AbsenceProven(d, d.log.staged[i], fences[k])
            && d.log.staged[i].envelope.generation == command.action.previousGeneration
            && FenceCertificateValid(
                 fences[k], d.policies[fences[k].statement.logSet], d.log.staged[i], d.cell, d.tenant,
                 command.action.previousGeneration, command.action.recoveryId)
  {
    hide SuccessorAuthorized, UnresolvedCount, Decodes, FenceCertificateValid, AbsenceProven, Abort;
    var i := Find(d.log.staged, command.transactionIdentity);
    k :| 0 <= k < |command.action.fences| && AbsenceProven(d, d.log.staged[i], command.action.fences[k]);
  }

  /** Every installed policy has a majority quorum and names nodes. */
  predicate Provisioned(w: World, d: Domain) {
    forall logSet :: logSet in d.policies ==> Known(w, d.policies[logSet]) && Majority(d.policies[logSet])
  }

  lemma AbortedIsRefused(w: World, d: Domain, command: StagedCommand, authority: Generation.Authority)
    returns (logSet: U16)
    requires Honest(w) && Provisioned(w, d) && Trimmed(w, d) && AllDescribed(d)
    requires command.action.TakeoverAbort? && AuthenticCommand(w, command)
    requires ApplyTakeoverAbort(d, command, authority).status == Aborted
    requires var i := Find(d.log.staged, command.transactionIdentity); i < |d.log.staged| ==> !d.log.staged[i].aborted
    ensures var i := Find(d.log.staged, command.transactionIdentity);
            && i < |d.log.staged|
            && logSet in d.log.staged[i].transaction.logTags
            && logSet in d.policies
            && RefusedByQuorum(w, d.policies[logSet], d.log.staged[i].envelope)
  {
    hide Honest, Known, Majority, AuthenticFence, FenceCertificateValid, RefusedByQuorum, ApplyTakeoverAbort,
      AbsentCount, Described, Unpopped;
    var k := AbortChecks(d, command, authority);
    var action, record := command.action, d.log.staged[Find(d.log.staged, command.transactionIdentity)];
    logSet := action.fences[k].statement.logSet;
    AbsenceIsRefusal(
      w, d.policies[logSet], action.fences[k], record, d.cell, d.tenant, action.previousGeneration, action.recoveryId);
  }

  // ---- prefix recovery ----

  function InventorySigners(attestations: seq<PrefixFenceAttestation>): (signers: seq<U64>)
    ensures |signers| == |attestations|
  {
    seq(|attestations|, i requires 0 <= i < |attestations| => attestations[i].signer)
  }

  function Reports(attestations: seq<PrefixFenceAttestation>, record: WindowRecord, present: bool): (marks: seq<bool>)
    ensures |marks| == |attestations|
  {
    seq(|attestations|, i requires 0 <= i < |attestations| =>
      ObservedPresence(attestations[i].observations, record) == Some(present))
  }

  /** Signers whose inventory reports the record this way. */
  function Reporters(attestations: seq<PrefixFenceAttestation>, record: WindowRecord, present: bool): set<U64> {
    Marked(InventorySigners(attestations), Reports(attestations, record, present))
  }

  lemma {:induction false} ReportCountIsMarks(
    attestations: seq<PrefixFenceAttestation>, record: WindowRecord, present: bool)
    ensures ReportCount(attestations, record, present) == CountTrue(Reports(attestations, record, present))
  {
    hide ObservedPresence;
    if attestations != [] {
      ReportCountIsMarks(attestations[1..], record, present);
      assert Reports(attestations, record, present)[1..] == Reports(attestations[1..], record, present);
    }
  }

  lemma {:induction false} ObservedSomewhere(observations: seq<Observation>, record: WindowRecord, present: bool)
    returns (i: nat)
    requires ObservedPresence(observations, record) == Some(present)
    ensures i < |observations| && observations[i] == Observation(record, present)
  {
    if observations[0].record == record {
      i := 0;
    } else {
      i := ObservedSomewhere(observations[1..], record, present);
      i := i + 1;
    }
  }

  /** A valid inventory reports a record as its nodes have it. */
  lemma ReportIsTrue(
    w: World, policy: LogSetPolicy, inventory: PrefixFenceCertificate, node: U64, record: WindowRecord, present: bool,
    envelope: Envelope)
    requires Honest(w) && Known(w, policy) && AuthenticInventory(w, inventory) && Unpopped(w, envelope)
    requires QuorumVoted(PrefixFenceVotes(inventory), MemberMap(policy.members), policy.quorum)
    requires node in Reporters(inventory.attestations, record, present)
    requires var st := inventory.statement; Describes(st.cell, st.tenant, st.generation, record, envelope)
    ensures node in MemberMap(policy.members)
    ensures var key := MemberMap(policy.members)[node];
            && key in w.nodes
            && w.nodes[key].logSet == inventory.statement.logSet
            && if present then Holds(w, key, envelope) else Refuses(w, key, envelope)
  {
    hide MemberMap, Logged, Known, Honest, Present, ObservedPresence, Refuses, Describes;
    var st, votes := inventory.statement, PrefixFenceVotes(inventory);
    var signers, marks :=
      InventorySigners(inventory.attestations), Reports(inventory.attestations, record, present);
    var i :| 0 <= i < |signers| && marks[i] && signers[i] == node;
    VerifiedIsTrue(w, policy, votes, i);
    var k := ObservedSomewhere(inventory.attestations[i].observations, record, present);
    var key := MemberMap(policy.members)[node];
    PresentIffLogged(w, key, st.cell, st.tenant, st.generation, record, envelope);
    if !present {
      DescribedGeneration(st.cell, st.tenant, st.generation, record, envelope);
      AbsentIsRefused(w, key, envelope);
    }
  }

  lemma DescribedGeneration(cell: Bytes, tenant: Bytes, generation: U64, target: WindowRecord, envelope: Envelope)
    requires Describes(cell, tenant, generation, target, envelope)
    ensures generation == envelope.generation
  {
  }

  /** What an accepted prefix recovery checked. */
  predicate RecoveryChecked(d: Domain, command: StagedCommand, indexes: seq<nat>, count: nat)
    requires command.action.TakeoverRecoverPrefix? && InRange(d.log.staged, indexes)
  {
    var action := command.action;
    && indexes == WindowIndexes(d.log.staged, action.window.records)
    && indexes != []
    && (forall x :: 0 <= x < |indexes| ==> Unresolved(d.log.staged[indexes[x]]))
    && WindowMatches(d.log.staged, action.window.records, action.previousGeneration)
    && ChainExact(d.log, indexes, action.previousGeneration, false)
    && TagsAgree(d.log.staged, indexes)
    && InventoriesValid(
         d, Elements(d.log.staged[indexes[0]].transaction.logTags), action.window, action.inventories,
         action.previousGeneration, action.recoveryId)
    && LongestPresentPrefix(d.policies, action.inventories, action.window.records, count)
  }

  lemma RecoveryChecks(d: Domain, command: StagedCommand, authority: Generation.Authority)
    returns (indexes: seq<nat>, count: nat)
    requires command.action.TakeoverRecoverPrefix?
    requires ApplyRecoverPrefix(d, command, authority).status == PrefixRecovered
    ensures InRange(d.log.staged, indexes) && RecoveryChecked(d, command, indexes, count)
    ensures RecoverableCount(d.policies, command.action.inventories, command.action.window.records, 0) == Some(count)
  {
    hide SuccessorAuthorized, ValidWindow, RecoverableCount, Dispose, UnresolvedIndexes, TotalBytes, CountVisible,
      CountAborted, Find, InventoriesValid, LongestPresentPrefix, Decodes;
    indexes := WindowIndexes(d.log.staged, command.action.window.records);
    count := RecoverableCount(d.policies, command.action.inventories, command.action.window.records, 0).value;
    ScanFindsLongest(d.policies, command.action.inventories, command.action.window.records, 0);
    WindowIsUnresolved(d, command, authority);
  }

  lemma WindowIsUnresolved(d: Domain, command: StagedCommand, authority: Generation.Authority)
    requires command.action.TakeoverRecoverPrefix?
    requires ApplyRecoverPrefix(d, command, authority).status == PrefixRecovered
    ensures var indexes := WindowIndexes(d.log.staged, command.action.window.records);
            InRange(d.log.staged, indexes) && forall x :: 0 <= x < |indexes| ==> Unresolved(d.log.staged[indexes[x]])
  {
    hide ApplyRecoverPrefix, UnresolvedIndexes, CountVisible, CountAborted, WindowIndexes;
    RecoverCases(d, command, authority);
    var indexes := WindowIndexes(d.log.staged, command.action.window.records);
    forall x | 0 <= x < |indexes|
      ensures Unresolved(d.log.staged[indexes[x]])
    {
      UnresolvedIndexesAreUnresolved(d.log.staged, indexes[x]);
    }
  }

  /** Window record `x` describes the envelope staged under it. */
  lemma WindowDescribes(d: Domain, command: StagedCommand, indexes: seq<nat>, count: nat, x: nat)
    requires command.action.TakeoverRecoverPrefix? && InRange(d.log.staged, indexes) && AllDescribed(d)
    requires RecoveryChecked(d, command, indexes, count) && x < |indexes|
    ensures |command.action.window.records| == |indexes|
    ensures Describes(
              d.cell, d.tenant, command.action.previousGeneration, command.action.window.records[x],
              d.log.staged[indexes[x]].envelope)
    ensures indexes[x] == Find(d.log.staged, command.action.window.records[x].transactionIdentity)
  {
    hide InventoriesValid, LongestPresentPrefix, TagsAgree, Decodes;
    var record := d.log.staged[indexes[x]];
    assert LinkExact(d.log, indexes, x, command.action.previousGeneration, false);
    assert Described(record, d.cell, d.tenant);
    assert record.sequence == command.action.window.records[x].commitSequence;
  }

  /** A quorum of reports means a quorum of nodes is in the reported state. */
  lemma QuorumReportIsTrue(
    w: World, policies: map<U16, LogSetPolicy>, inventory: PrefixFenceCertificate, record: WindowRecord, present: bool,
    envelope: Envelope) returns (reporters: set<U64>)
    requires QuorumReports(policies, inventory, record, present)
    requires var policy := policies[inventory.statement.logSet];
             && Honest(w) && Known(w, policy) && AuthenticInventory(w, inventory) && Unpopped(w, envelope)
             && QuorumVoted(PrefixFenceVotes(inventory), MemberMap(policy.members), policy.quorum)
    requires var st := inventory.statement; Describes(st.cell, st.tenant, st.generation, record, envelope)
    ensures var policy := policies[inventory.statement.logSet];
            && |reporters| >= policy.quorum
            && reporters <= MemberMap(policy.members).Keys
            && forall node :: node in reporters ==>
                 var key := MemberMap(policy.members)[node];
                 && key in w.nodes
                 && w.nodes[key].logSet == inventory.statement.logSet
                 && if present then Holds(w, key, envelope) else Refuses(w, key, envelope)
  {
    hide MemberMap, Logged, Known, Honest, ObservedPresence, ReportCount, Describes, Refuses, Holds, Unpopped;
    var policy, attestations := policies[inventory.statement.logSet], inventory.attestations;
    assert SignerList(PrefixFenceVotes(inventory)) == InventorySigners(attestations);
    ReportCountIsMarks(attestations, record, present);
    MarksCountEntries(InventorySigners(attestations), Reports(attestations, record, present));
    reporters := Reporters(attestations, record, present);
    forall node | node in reporters
      ensures node in MemberMap(policy.members)
      ensures var key := MemberMap(policy.members)[node];
              && key in w.nodes
              && w.nodes[key].logSet == inventory.statement.logSet
              && if present then Holds(w, key, envelope) else Refuses(w, key, envelope)
    {
      ReportIsTrue(w, policy, inventory, node, record, present, envelope);
    }
  }

  lemma InventoryParts(d: Domain, command: StagedCommand, indexes: seq<nat>, count: nat, k: nat)
    requires command.action.TakeoverRecoverPrefix? && InRange(d.log.staged, indexes)
    requires RecoveryChecked(d, command, indexes, count) && k < |command.action.inventories|
    ensures var inventory := command.action.inventories[k];
            var st := inventory.statement;
            && st.logSet in d.policies
            && st.logSet in d.log.staged[indexes[0]].transaction.logTags
            && st.cell == d.cell && st.tenant == d.tenant && st.generation == command.action.previousGeneration
            && QuorumVoted(
                 PrefixFenceVotes(inventory), MemberMap(d.policies[st.logSet].members), d.policies[st.logSet].quorum)
  {
    hide LongestPresentPrefix, WindowMatches, ChainExact, MemberMap, QuorumVoted, ValidWindow;
    var sets := InventorySets(command.action.inventories);
    assert sets[k] == command.action.inventories[k].statement.logSet;
    assert sets[k] in Elements(sets);
  }

  /** Whatever recovery publishes is held by a quorum of every log set it needs. */
  lemma RecoveredIsHeld(w: World, d: Domain, command: StagedCommand, indexes: seq<nat>, count: nat, x: nat, logSet: U16)
    requires Honest(w) && Provisioned(w, d) && Trimmed(w, d) && AllDescribed(d)
    requires command.action.TakeoverRecoverPrefix? && AuthenticCommand(w, command)
    requires InRange(d.log.staged, indexes) && RecoveryChecked(d, command, indexes, count)
    requires x < count && x < |indexes| && logSet in d.log.staged[indexes[x]].transaction.logTags
    ensures logSet in d.policies && HeldByQuorum(w, d.policies[logSet], d.log.staged[indexes[x]].envelope)
  {
    hide Honest, Known, Majority, MemberMap, RecoveryChecked, AllDescribed, Holds, Describes, QuorumReports,
      QuorumVoted, Trimmed, Unpopped;
    var action := command.action;
    var k := InventoryOf(d, command, indexes, count, x, logSet);
    InventoryParts(d, command, indexes, count, k);
    WindowDescribes(d, command, indexes, count, x);
    WindowIsUnpopped(w, d, command, indexes, count, x);
    PresentInInventory(d, command, indexes, count, x, k);
    var envelope := d.log.staged[indexes[x]].envelope;
    var reporters := QuorumReportIsTrue(
      w, d.policies, action.inventories[k], action.window.records[x], true, envelope);
    Cardinality(reporters, Holders(w, d.policies[logSet], envelope));
  }

  lemma WindowIsUnpopped(w: World, d: Domain, command: StagedCommand, indexes: seq<nat>, count: nat, x: nat)
    requires Trimmed(w, d) && command.action.TakeoverRecoverPrefix? && InRange(d.log.staged, indexes)
    requires RecoveryChecked(d, command, indexes, count) && x < |indexes|
    ensures Unpopped(w, d.log.staged[indexes[x]].envelope)
  {
    hide WindowMatches, ChainExact, TagsAgree, InventoriesValid, LongestPresentPrefix, Unpopped;
  }

  lemma PresentInInventory(d: Domain, command: StagedCommand, indexes: seq<nat>, count: nat, x: nat, k: nat)
    requires command.action.TakeoverRecoverPrefix? && InRange(d.log.staged, indexes)
    requires RecoveryChecked(d, command, indexes, count) && x < count && x < |indexes|
    requires k < |command.action.inventories|
    ensures QuorumReports(d.policies, command.action.inventories[k], command.action.window.records[x], true)
  {
    hide WindowMatches, ChainExact, TagsAgree, InventoriesValid, QuorumReports;
    assert PresentEverywhere(d.policies, command.action.inventories, command.action.window.records[x]);
  }

  /** Each required log set has its inventory. */
  lemma InventoryOf(d: Domain, command: StagedCommand, indexes: seq<nat>, count: nat, x: nat, logSet: U16)
    returns (k: nat)
    requires command.action.TakeoverRecoverPrefix? && InRange(d.log.staged, indexes)
    requires RecoveryChecked(d, command, indexes, count)
    requires x < |indexes| && logSet in d.log.staged[indexes[x]].transaction.logTags
    ensures k < |command.action.inventories| && command.action.inventories[k].statement.logSet == logSet
  {
    hide LongestPresentPrefix, WindowMatches, ChainExact, PrefixFenceCertificateValid;
    var sets := InventorySets(command.action.inventories);
    assert logSet in Elements(d.log.staged[indexes[x]].transaction.logTags);
    k :| 0 <= k < |sets| && sets[k] == logSet;
  }

  // ---- records behind a gap ----

  /** The record a chain names, when of one generation and in the same log set, is in the journal or popped. */
  predicate FollowsIn(journal: seq<LogRecord>, poppedThrough: U64, logSet: U16, envelope: Envelope) {
    var chain := envelope.previousLogChain;
    && chain.EnvelopeDigest?
    && chain.envelope.generation == envelope.generation
    && logSet in chain.envelope.requiredLogTags ==>
         || Journaled(journal, chain.envelope)
         || chain.envelope.versionSequence <= poppedThrough
  }

  predicate Follows(node: Node, envelope: Envelope) {
    FollowsIn(node.journal, node.poppedThrough, node.logSet, envelope)
  }

  predicate Closed(journal: seq<LogRecord>, poppedThrough: U64, logSet: U16) {
    forall record :: record in journal ==> FollowsIn(journal, poppedThrough, logSet, record.envelope)
  }

  /** A snapshot that the message vouches for is closed. */
  predicate VouchesClosed(message: Message) {
    message.RepairMessage? && message.repair.snapshotDigest.SnapshotDigest? ==>
      Closed(message.repair.snapshotDigest.snapshot, message.repair.poppedThrough, message.repair.logSet)
  }

  /** Journals, and snapshots that were vouched for, hold with each record the one its chain names. */
  predicate PrefixClosed(w: World) {
    && (forall key :: key in w.nodes ==>
          Closed(w.nodes[key].journal, w.nodes[key].poppedThrough, w.nodes[key].logSet))
    && forall signature :: signature in w.issued && signature.Signature? ==> VouchesClosed(signature.message)
  }

  /** Learners were set up with source policies over the nodes. */
  predicate SourcesKnown(w: World) {
    forall key :: key in w.nodes && w.nodes[key].repairSource.Some? ==>
      Known(w, w.nodes[key].repairSource.value) && w.nodes[key].repairSource.value.quorum > 0
  }

  predicate AuthenticRepair(w: World, certificate: RepairCertificate) {
    forall i :: 0 <= i < |certificate.attestations| ==> Authentic(w, certificate.attestations[i].signature)
  }

  /** Some node vouched for what a valid and genuine repair certificate names. */
  lemma RepairWasVouched(w: World, policy: LogSetPolicy, certificate: RepairCertificate) returns (signature: Signature)
    requires Known(w, policy) && policy.quorum > 0 && AuthenticRepair(w, certificate)
    requires RepairCertificateValid(certificate, policy)
    ensures signature in w.issued && signature.Signature?
    ensures signature.message.RepairMessage? && signature.message.repair == certificate.statement
  {
    hide MemberMap, NodeIds, SignerList;
    var votes := RepairVotes(certificate);
    assert Admissible(votes[0], MemberMap(policy.members));
    signature := certificate.attestations[0].signature;
  }

  lemma LoggedFollows(w: World, key: Bytes, envelope: Envelope)
    requires PrefixClosed(w) && key in w.nodes && Logged(w.nodes[key], envelope)
    ensures Follows(w.nodes[key], envelope)
  {
    hide FollowsIn;
    var record :| record in w.nodes[key].journal && record.envelope == envelope;
  }

  /** A prefix-closed node that refuses one record of a window refuses all later ones. */
  lemma {:induction false} RefusalSpreads(
    w: World, d: Domain, command: StagedCommand, indexes: seq<nat>, count: nat, from: nat, x: nat, key: Bytes)
    requires Honest(w) && PrefixClosed(w) && Trimmed(w, d) && AllDescribed(d)
    requires command.action.TakeoverRecoverPrefix? && InRange(d.log.staged, indexes)
    requires RecoveryChecked(d, command, indexes, count) && from <= x < |indexes|
    requires Refuses(w, key, d.log.staged[indexes[from]].envelope)
    requires w.nodes[key].logSet in d.log.staged[indexes[0]].transaction.logTags
    ensures Refuses(w, key, d.log.staged[indexes[x]].envelope)
    decreases x
  {
    hide RecoveryChecked, PrefixClosed, AllDescribed, Journaled, Honest, Trimmed, Fenced, NeverCertified;
    if from < x {
      RefusalSpreads(w, d, command, indexes, count, from, x - 1, key);
      WindowLinks(d, command, indexes, count, x);
      WindowIsUnpopped(w, d, command, indexes, count, x - 1);
      WindowIsUnpopped(w, d, command, indexes, count, x);
      var envelope := d.log.staged[indexes[x]].envelope;
      if Logged(w.nodes[key], envelope) {
        LoggedFollows(w, key, envelope);
      }
      AbsentIsRefused(w, key, envelope);
    }
  }

  lemma ChainGeneration(log: CommitLog, indexes: seq<nat>, generation: U64, x: nat)
    requires InRange(log.staged, indexes) && ChainExact(log, indexes, generation, false) && x < |indexes|
    ensures log.staged[indexes[x]].envelope.generation == generation
  {
    hide Decodes;
    assert LinkExact(log, indexes, x, generation, false);
  }

  /** Consecutive window envelopes are chained, of one generation, and need the same log sets. */
  lemma WindowLinks(d: Domain, command: StagedCommand, indexes: seq<nat>, count: nat, x: nat)
    requires command.action.TakeoverRecoverPrefix? && InRange(d.log.staged, indexes) && AllDescribed(d)
    requires RecoveryChecked(d, command, indexes, count) && 0 < x < |indexes|
    ensures var earlier, later := d.log.staged[indexes[x - 1]].envelope, d.log.staged[indexes[x]].envelope;
            && later.previousLogChain == EnvelopeDigest(earlier)
            && earlier.generation == later.generation
            && forall logSet :: logSet in d.log.staged[indexes[0]].transaction.logTags ==>
                 logSet in earlier.requiredLogTags
  {
    hide InventoriesValid, LongestPresentPrefix, WindowMatches, Decodes;
    assert Described(d.log.staged[indexes[x - 1]], d.cell, d.tenant);
    ChainGeneration(d.log, indexes, command.action.previousGeneration, x - 1);
    ChainGeneration(d.log, indexes, command.action.previousGeneration, x);
    assert LinkExact(d.log, indexes, x, command.action.previousGeneration, false);
    var first := d.log.staged[indexes[0]].transaction.logTags;
    var earlier := d.log.staged[indexes[x - 1]].transaction.logTags;
    assert Elements(first) == Elements(earlier);
    forall logSet | logSet in first
      ensures logSet in earlier
    {
      assert logSet in Elements(first);
    }
  }

  /** When recovery stops short, a quorum of nodes of one log set refuses the next record. */
  lemma GapIsRefused(w: World, d: Domain, command: StagedCommand, indexes: seq<nat>, count: nat)
    returns (logSet: U16, refusers: set<U64>)
    requires Honest(w) && Provisioned(w, d) && Trimmed(w, d) && AllDescribed(d)
    requires command.action.TakeoverRecoverPrefix? && AuthenticCommand(w, command)
    requires InRange(d.log.staged, indexes) && RecoveryChecked(d, command, indexes, count)
    requires count < |indexes|
    ensures logSet in d.log.staged[indexes[0]].transaction.logTags && logSet in d.policies
    ensures var keys := MemberMap(d.policies[logSet].members);
            && |refusers| >= d.policies[logSet].quorum
            && refusers <= keys.Keys
            && forall node :: node in refusers ==>
                 Refuses(w, keys[node], d.log.staged[indexes[count]].envelope) && w.nodes[keys[node]].logSet == logSet
  {
    hide Honest, Known, Majority, MemberMap, RecoveryChecked, AllDescribed, Refuses, Describes, QuorumReports,
      QuorumVoted, Trimmed, Unpopped;
    var k := AbsentInventory(d, command, indexes, count);
    InventoryParts(d, command, indexes, count, k);
    WindowDescribes(d, command, indexes, count, count);
    WindowIsUnpopped(w, d, command, indexes, count, count);
    var inventory := command.action.inventories[k];
    logSet := inventory.statement.logSet;
    refusers := QuorumReportIsTrue(
      w, d.policies, inventory, command.action.window.records[count], false, d.log.staged[indexes[count]].envelope);
  }

  /** Whatever recovery aborts is refused by a quorum of one of the log sets it needs. */
  lemma DroppedIsRefused(w: World, d: Domain, command: StagedCommand, indexes: seq<nat>, count: nat, x: nat)
    returns (logSet: U16)
    requires Honest(w) && Provisioned(w, d) && Trimmed(w, d) && AllDescribed(d) && PrefixClosed(w)
    requires command.action.TakeoverRecoverPrefix? && AuthenticCommand(w, command)
    requires InRange(d.log.staged, indexes) && RecoveryChecked(d, command, indexes, count)
    requires count <= x < |indexes|
    ensures logSet in d.log.staged[indexes[x]].transaction.logTags
    ensures logSet in d.policies && RefusedByQuorum(w, d.policies[logSet], d.log.staged[indexes[x]].envelope)
  {
    hide Honest, Provisioned, MemberMap, RecoveryChecked, AllDescribed, Refuses, PrefixClosed, AuthenticCommand,
      Trimmed;
    var refusers;
    logSet, refusers := GapIsRefused(w, d, command, indexes, count);
    SameTags(d, command, indexes, count, x);
    var envelope, keys := d.log.staged[indexes[x]].envelope, MemberMap(d.policies[logSet].members);
    forall node | node in refusers
      ensures Refuses(w, keys[node], envelope)
    {
      RefusalSpreads(w, d, command, indexes, count, count, x, keys[node]);
    }
    Cardinality(refusers, Refusers(w, d.policies[logSet], envelope));
  }

  /** When recovery stops short, some inventory reports the next record absent on a quorum. */
  lemma AbsentInventory(d: Domain, command: StagedCommand, indexes: seq<nat>, count: nat) returns (k: nat)
    requires command.action.TakeoverRecoverPrefix? && InRange(d.log.staged, indexes)
    requires RecoveryChecked(d, command, indexes, count) && count < |indexes|
    ensures k < |command.action.inventories|
    ensures QuorumReports(d.policies, command.action.inventories[k], command.action.window.records[count], false)
  {
    hide WindowMatches, ChainExact, TagsAgree, InventoriesValid, QuorumReports;
    var action := command.action;
    assert AbsentSomewhere(d.policies, action.inventories, action.window.records[count]);
    k :| 0 <= k < |action.inventories|
      && QuorumReports(d.policies, action.inventories[k], action.window.records[count], false);
  }

  lemma SameTags(d: Domain, command: StagedCommand, indexes: seq<nat>, count: nat, x: nat)
    requires command.action.TakeoverRecoverPrefix? && InRange(d.log.staged, indexes)
    requires RecoveryChecked(d, command, indexes, count) && x < |indexes|
    ensures forall logSet :: logSet in d.log.staged[indexes[0]].transaction.logTags ==>
              logSet in d.log.staged[indexes[x]].transaction.logTags
  {
    hide InventoriesValid, LongestPresentPrefix, WindowMatches, ChainExact;
    var first, other := d.log.staged[indexes[0]].transaction.logTags, d.log.staged[indexes[x]].transaction.logTags;
    assert Elements(first) == Elements(other);
    forall logSet | logSet in first
      ensures logSet in other
    {
      assert logSet in Elements(first);
    }
  }
}
