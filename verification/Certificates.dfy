/**
Certificates of tagged-log sets and the policies they are checked against. Each verifier is a check
of the statement's fields followed by the signature loop of `Quorum`.
*/
module Certificates {
  import opened Keys
  import opened Types
  import opened Sets
  import opened Quorum

  // ---- policies ----

  /** The node-to-key map a verifier builds; a later entry replaces an earlier one. */
  function MemberMap(members: seq<Member>): map<U64, Bytes> {
    if members == [] then map[]
    else
      var n := |members| - 1;
      MemberMap(members[..n])[members[n].node := members[n].key]
  }

  function NodeIds(members: seq<Member>): seq<U64> {
    seq(|members|, i requires 0 <= i < |members| => members[i].node)
  }

  predicate ValidPolicy(policy: LogSetPolicy, generation: U64) {
    && policy.formatVersion == 1
    && policy.generation == generation
    && policy.epoch > 0
    && policy.logSet > 0
    && policy.quorum > 0
    && (policy.softLimitBytes == 0 || policy.softLimitBytes >= 1024)
    && policy.quorum <= |policy.members|
    && Distinct(NodeIds(policy.members))
    && forall i :: 0 <= i < |policy.members| ==> policy.members[i].node > 0 && |policy.members[i].key| == 32
  }

  /** A policy with distinct nodes has one map entry per listed member. */
  lemma {:induction false} MemberMapCounts(members: seq<Member>)
    requires Distinct(NodeIds(members))
    ensures MemberMap(members).Keys == Elements(NodeIds(members))
    ensures |MemberMap(members)| == |members|
  {
    MemberMapKeys(members);
    DistinctIffCounted(NodeIds(members));
    assert |MemberMap(members)| == |MemberMap(members).Keys|;
  }

  lemma {:induction false} MemberMapKeys(members: seq<Member>)
    ensures MemberMap(members).Keys == Elements(NodeIds(members))
  {
    if members != [] {
      var n := |members| - 1;
      MemberMapKeys(members[..n]);
      assert NodeIds(members) == NodeIds(members[..n]) + [members[n].node];
    }
  }

  // ---- envelopes ----

  predicate StrictlySorted(values: seq<U16>) {
    forall i :: 0 < i < |values| ==> values[i - 1] < values[i]
  }

  /** Whether the encoded envelope decodes again: the structural checks of the codec. */
  predicate Decodes(envelope: Envelope) {
    && !(envelope.versionGeneration == 0 && envelope.versionSequence == 0)
    && envelope.versionGeneration == envelope.generation
    && envelope.requiredResolvers != []
    && envelope.requiredLogTags != []
    && StrictlySorted(envelope.requiredResolvers)
    && StrictlySorted(envelope.requiredLogTags)
  }

  // ---- durability ----

  predicate EnvelopeStatementMatches(statement: TaggedLogStatement, policy: LogSetPolicy, envelope: Envelope) {
    && Decodes(envelope)
    && policy.formatVersion == 1
    && policy.generation == envelope.generation
    && policy.epoch != 0
    && policy.logSet != 0
    && policy.quorum != 0
    && policy.quorum <= |policy.members|
    && Distinct(NodeIds(policy.members))
    && statement.formatVersion == 1
    && statement.cell == envelope.cell
    && statement.tenant == envelope.tenant
    && statement.generation == envelope.generation
    && statement.transactionIdentity == envelope.identity
    && statement.commitSequence == envelope.versionSequence
    && statement.logSet == policy.logSet
    && statement.policyEpoch == policy.epoch
    && statement.envelopeDigest == EnvelopeDigest(envelope)
    && statement.durablePosition != 0
    && statement.logSet in envelope.requiredLogTags
  }

  predicate EnvelopeCertificateValid(certificate: TaggedLogCertificate, policy: LogSetPolicy, envelope: Envelope) {
    && EnvelopeStatementMatches(certificate.statement, policy, envelope)
    && QuorumVoted(
         AttestationVotes(certificate.attestations, DurableMessage(certificate.statement)),
         MemberMap(policy.members), policy.quorum)
  }

  method VerifyEnvelopeCertificate(certificate: TaggedLogCertificate, policy: LogSetPolicy, envelope: Envelope)
    returns (valid: bool)
    ensures valid <==> EnvelopeCertificateValid(certificate, policy, envelope)
  {
    if !EnvelopeStatementMatches(certificate.statement, policy, envelope) {
      return false;
    }
    valid := CountVotes(
      AttestationVotes(certificate.attestations, DurableMessage(certificate.statement)),
      MemberMap(policy.members), policy.quorum);
  }

  // ---- fences ----

  function FenceVotes(certificate: FenceCertificate): seq<Vote> {
    var attestations := certificate.attestations;
    seq(|attestations|, i requires 0 <= i < |attestations| =>
      Vote(attestations[i].signer, true, FenceMessage(certificate.statement, attestations[i].present),
           attestations[i].signature))
  }

  function WindowIdentity(window: StagedWindow): Digest {
    WindowDigest(
      window.formatVersion, window.firstSequence, window.lastSequence, window.encodedBytes, window.records)
  }

  predicate ValidWindow(window: StagedWindow) {
    && window.formatVersion == 1
    && window.records != []
    && window.firstSequence == window.records[0].commitSequence
    && window.lastSequence == window.records[|window.records| - 1].commitSequence
    && (forall i :: 0 < i < |window.records| ==>
          window.records[i].commitSequence == Successor(window.records[i - 1].commitSequence))
    && window.digest == WindowIdentity(window)
  }

  /** An inventory reports on exactly the window's records, in order. */
  predicate CoversWindow(observations: seq<Observation>, records: seq<WindowRecord>) {
    && |observations| == |records|
    && forall i :: 0 <= i < |records| ==> observations[i].record == records[i]
  }

  function PrefixFenceVotes(certificate: PrefixFenceCertificate): seq<Vote> {
    var attestations := certificate.attestations;
    seq(|attestations|, i requires 0 <= i < |attestations| =>
      Vote(attestations[i].signer, CoversWindow(attestations[i].observations, certificate.statement.window.records),
           PrefixFenceMessage(certificate.statement, attestations[i].observations), attestations[i].signature))
  }

  predicate PrefixFenceCertificateValid(
    certificate: PrefixFenceCertificate, policy: LogSetPolicy, window: StagedWindow, cell: Bytes, tenant: Bytes,
    generation: U64, recoveryId: U64)
  {
    var statement := certificate.statement;
    && statement.formatVersion == 1
    && statement.cell == cell
    && statement.tenant == tenant
    && statement.generation == generation
    && statement.recoveryId == recoveryId
    && statement.logSet == policy.logSet
    && statement.policyEpoch == policy.epoch
    && statement.window == window
    && ValidWindow(window)
    && QuorumVoted(PrefixFenceVotes(certificate), MemberMap(policy.members), policy.quorum)
  }

  method VerifyPrefixFenceCertificate(
    certificate: PrefixFenceCertificate, policy: LogSetPolicy, window: StagedWindow, cell: Bytes, tenant: Bytes,
    generation: U64, recoveryId: U64) returns (valid: bool)
    ensures valid <==>
              PrefixFenceCertificateValid(certificate, policy, window, cell, tenant, generation, recoveryId)
  {
    hide ValidWindow, MemberMap, QuorumVoted;
    var statement := certificate.statement;
    if statement.formatVersion != 1 || statement.cell != cell || statement.tenant != tenant
       || statement.generation != generation || statement.recoveryId != recoveryId
       || statement.logSet != policy.logSet || statement.policyEpoch != policy.epoch
       || statement.window != window || !ValidWindow(window) {
      return false;
    }
    valid := CountVotes(PrefixFenceVotes(certificate), MemberMap(policy.members), policy.quorum);
  }

  // ---- capacity ----

  function CapacityVotes(certificate: CapacityCertificate): seq<Vote> {
    var attestations := certificate.attestations;
    seq(|attestations|, i requires 0 <= i < |attestations| =>
      var sample := attestations[i].sample;
      Vote(sample.signer,
           sample.sampleEpoch != 0 && sample.hardLimitBytes >= certificate.statement.softLimitBytes,
           CapacityMessage(certificate.statement, sample), attestations[i].signature))
  }

  predicate CapacityCertificateValid(certificate: CapacityCertificate, policy: LogSetPolicy) {
    var statement := certificate.statement;
    && statement.formatVersion == 1
    && statement.generation == policy.generation
    && statement.logSet == policy.logSet
    && statement.policyEpoch == policy.epoch
    && statement.projectedFrameBytes != 0
    && statement.softLimitBytes != 0
    && statement.reservationEpoch != 0
    && QuorumVoted(CapacityVotes(certificate), MemberMap(policy.members), policy.quorum)
  }

  method VerifyCapacityCertificate(certificate: CapacityCertificate, policy: LogSetPolicy) returns (valid: bool)
    ensures valid <==> CapacityCertificateValid(certificate, policy)
  {
    hide MemberMap, QuorumVoted;
    var statement := certificate.statement;
    if statement.formatVersion != 1 || statement.generation != policy.generation
       || statement.logSet != policy.logSet || statement.policyEpoch != policy.epoch
       || statement.projectedFrameBytes == 0 || statement.softLimitBytes == 0 || statement.reservationEpoch == 0 {
      return false;
    }
    valid := CountVotes(CapacityVotes(certificate), MemberMap(policy.members), policy.quorum);
  }

  // ---- repair and policy transitions ----

  function RepairVotes(certificate: RepairCertificate): seq<Vote> {
    var attestations := certificate.attestations;
    seq(|attestations|, i requires 0 <= i < |attestations| =>
      Vote(attestations[i].signer, attestations[i].sampleEpoch != 0,
           RepairMessage(certificate.statement, attestations[i].signer, attestations[i].sampleEpoch),
           attestations[i].signature))
  }

  predicate RepairCertificateValid(certificate: RepairCertificate, policy: LogSetPolicy) {
    var statement := certificate.statement;
    && statement.formatVersion == 1
    && statement.generation == policy.generation
    && statement.logSet == policy.logSet
    && statement.policyEpoch == policy.epoch
    && statement.repairId != 0
    && statement.failedNode != 0
    && statement.learnerNode != 0
    && statement.failedNode != statement.learnerNode
    && statement.learnerIncarnation != ZERO16
    && |statement.learnerKey| == 32
    && statement.lastPosition != 0
    && statement.poppedThrough != 0
    && statement.snapshotLength != 0
    && statement.snapshotDigest != ZeroDigest
    && statement.failedNode in NodeIds(policy.members)
    && statement.learnerNode !in NodeIds(policy.members)
    && QuorumVoted(RepairVotes(certificate), MemberMap(policy.members), policy.quorum)
  }

  method VerifyRepairCertificate(certificate: RepairCertificate, policy: LogSetPolicy) returns (valid: bool)
    ensures valid <==> RepairCertificateValid(certificate, policy)
  {
    hide MemberMap, QuorumVoted, NodeIds;
    var statement := certificate.statement;
    if statement.formatVersion != 1 || statement.generation != policy.generation
       || statement.logSet != policy.logSet || statement.policyEpoch != policy.epoch
       || statement.repairId == 0 || statement.failedNode == 0 || statement.learnerNode == 0
       || statement.failedNode == statement.learnerNode || statement.learnerIncarnation == ZERO16
       || |statement.learnerKey| != 32 || statement.lastPosition == 0 || statement.poppedThrough == 0
       || statement.snapshotLength == 0 || statement.snapshotDigest == ZeroDigest
       || statement.failedNode !in NodeIds(policy.members) || statement.learnerNode in NodeIds(policy.members) {
      return false;
    }
    valid := CountVotes(RepairVotes(certificate), MemberMap(policy.members), policy.quorum);
  }

  /** The successor keeps every retained node's key and exchanges the failed node for the learner. */
  predicate SwapsOneMember(transition: LogSetTransition) {
    var before, after := MemberMap(transition.oldPolicy.members), MemberMap(transition.nextPolicy.members);
    && before.Keys - after.Keys == {transition.failedNode}
    && after.Keys - before.Keys == {transition.learnerNode}
    && (forall node :: node in before && node != transition.failedNode ==> node in after && after[node] == before[node])
    && transition.learnerNode in after
    && after[transition.learnerNode] == transition.learnerKey
  }

  predicate SucceedsPolicy(next: LogSetPolicy, current: LogSetPolicy) {
    && next.logSet == current.logSet
    && next.epoch == Successor(current.epoch)
    && next.quorum == current.quorum
    && next.softLimitBytes == current.softLimitBytes
    && |next.members| == |current.members|
  }

  predicate ReadinessMatches(readiness: RepairCertificate, transition: LogSetTransition) {
    var repair := readiness.statement;
    && repair.phase == RepairLearnerReady
    && repair.cell == transition.cell
    && repair.tenant == transition.tenant
    && repair.generation == transition.generation
    && repair.logSet == transition.logSet
    && repair.policyEpoch == transition.oldPolicy.epoch
    && repair.failedNode == transition.failedNode
    && repair.learnerNode == transition.learnerNode
    && repair.learnerIncarnation == transition.learnerIncarnation
    && repair.learnerKey == transition.learnerKey
    && repair.snapshotDigest == transition.retainedRootDigest
    && repair.lastPosition == transition.retainedLastPosition
    && RepairDigest(repair, multiset(readiness.attestations)) == transition.repairReadinessDigest
  }

  predicate ValidTransition(
    transition: LogSetTransition, readiness: RepairCertificate, current: LogSetPolicy, cell: Bytes, tenant: Bytes,
    generation: U64)
  {
    && transition.formatVersion == 1
    && transition.cell == cell
    && transition.tenant == tenant
    && transition.generation == generation
    && transition.transitionId > 0
    && transition.logSet == current.logSet
    && transition.oldPolicy == current
    && ValidPolicy(transition.nextPolicy, generation)
    && SucceedsPolicy(transition.nextPolicy, current)
    && SwapsOneMember(transition)
    && transition.learnerIncarnation != ZERO16
    && |transition.learnerKey| == 32
    && ReadinessMatches(readiness, transition)
    && RepairCertificateValid(readiness, current)
  }

  function TransitionIdentity(transition: LogSetTransition): Digest {
    TransitionDigest(
      transition.(oldPolicy := transition.oldPolicy.(members := []),
                  nextPolicy := transition.nextPolicy.(members := [])),
      multiset(transition.oldPolicy.members), multiset(transition.nextPolicy.members))
  }

  function PolicyStageIdentity(certificate: PolicyStageCertificate): Digest {
    PolicyStageDigest(certificate.statement, multiset(certificate.attestations))
  }

  function PolicyStageVotes(certificate: PolicyStageCertificate): seq<Vote> {
    var attestations := certificate.attestations;
    seq(|attestations|, i requires 0 <= i < |attestations| =>
      Vote(attestations[i].signer, attestations[i].sampleEpoch != 0,
           PolicyStageMessage(certificate.statement, attestations[i].signer, attestations[i].sampleEpoch),
           attestations[i].signature))
  }

  predicate PolicyStageCertificateValid(certificate: PolicyStageCertificate, transition: LogSetTransition) {
    var statement := certificate.statement;
    && statement.formatVersion == 1
    && statement.cell == transition.cell
    && statement.tenant == transition.tenant
    && statement.generation == transition.generation
    && statement.transitionId == transition.transitionId
    && statement.logSet == transition.logSet
    && statement.oldPolicyEpoch == transition.oldPolicy.epoch
    && statement.nextPolicyEpoch == transition.nextPolicy.epoch
    && statement.transitionDigest == TransitionIdentity(transition)
    && statement.retainedRootDigest == transition.retainedRootDigest
    && statement.retainedLastPosition == transition.retainedLastPosition
    && QuorumVoted(
         PolicyStageVotes(certificate), MemberMap(transition.nextPolicy.members), transition.nextPolicy.quorum)
  }

  method VerifyPolicyStageCertificate(certificate: PolicyStageCertificate, transition: LogSetTransition)
    returns (valid: bool)
    ensures valid <==> PolicyStageCertificateValid(certificate, transition)
  {
    hide MemberMap, QuorumVoted, TransitionIdentity;
    var statement := certificate.statement;
    if statement.formatVersion != 1 || statement.cell != transition.cell || statement.tenant != transition.tenant
       || statement.generation != transition.generation || statement.transitionId != transition.transitionId
       || statement.logSet != transition.logSet || statement.oldPolicyEpoch != transition.oldPolicy.epoch
       || statement.nextPolicyEpoch != transition.nextPolicy.epoch
       || statement.transitionDigest != TransitionIdentity(transition)
       || statement.retainedRootDigest != transition.retainedRootDigest
       || statement.retainedLastPosition != transition.retainedLastPosition {
      return false;
    }
    valid := CountVotes(
      PolicyStageVotes(certificate), MemberMap(transition.nextPolicy.members), transition.nextPolicy.quorum);
  }
}
