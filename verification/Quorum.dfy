/**
Signature quorums. Every certificate verifier of the two authorities walks its attestations with a
growing set of signers; this module has that loop once, and what its answer means.
*/
module Quorum {
  import opened Keys
  import opened Types
  import opened Sets

  /** One attestation: who claims to sign what, and whether the verifier's own field checks pass. */
  datatype Vote = Vote(signer: U64, wellFormed: bool, message: Message, signature: Signature)

  /** Signatures over one message, as votes. */
  function AttestationVotes(attestations: seq<Attestation>, message: Message): seq<Vote> {
    seq(|attestations|, i requires 0 <= i < |attestations| =>
      Vote(attestations[i].signer, true, message, attestations[i].signature))
  }

  predicate Admissible(vote: Vote, members: map<U64, Bytes>) {
    && vote.wellFormed
    && vote.signer in members
    && Verifies(members[vote.signer], vote.message, vote.signature)
  }

  predicate QuorumVoted(votes: seq<Vote>, members: map<U64, Bytes>, quorum: nat) {
    && Distinct(SignerList(votes))
    && (forall i :: 0 <= i < |votes| ==> Admissible(votes[i], members))
    && quorum <= |votes|
  }

  function SignerList(votes: seq<Vote>): seq<U64> {
    seq(|votes|, i requires 0 <= i < |votes| => votes[i].signer)
  }

  function Signers(votes: seq<Vote>): set<U64> {
    Elements(SignerList(votes))
  }

  lemma SignersByIndex(votes: seq<Vote>)
    ensures Signers(votes) == set j | 0 <= j < |votes| :: votes[j].signer
  {
    var signers := SignerList(votes);
    forall j | 0 <= j < |votes|
      ensures votes[j].signer in Signers(votes)
    {
      assert signers[j] == votes[j].signer;
    }
  }

  /** An accepted certificate names a quorum of different members, each with a valid signature. */
  lemma QuorumMeansMembers(votes: seq<Vote>, members: map<U64, Bytes>, quorum: nat)
    requires QuorumVoted(votes, members, quorum)
    ensures Signers(votes) <= members.Keys
    ensures quorum <= |Signers(votes)|
    ensures forall node :: node in Signers(votes) ==>
              exists i :: 0 <= i < |votes| && votes[i].signer == node && Admissible(votes[i], members)
  {
    DistinctIffCounted(SignerList(votes));
  }

  /** The verifier loop: reject at the first repeated, unknown or unverified signer, then count. */
  method CountVotes(votes: seq<Vote>, members: map<U64, Bytes>, quorum: nat) returns (accepted: bool)
    ensures accepted <==> QuorumVoted(votes, members, quorum)
  {
    var distinct: set<U64> := {};
    for i := 0 to |votes|
      invariant |distinct| == i
      invariant distinct == set j | 0 <= j < i :: votes[j].signer
      invariant forall j :: 0 <= j < i ==> Admissible(votes[j], members)
    {
      var vote := votes[i];
      if vote.signer in distinct {
        ghost var j :| 0 <= j < i && votes[j].signer == vote.signer;
        assert SignerList(votes)[j] == SignerList(votes)[i];
        return false;
      }
      distinct := distinct + {vote.signer};
      if !Admissible(vote, members) {
        return false;
      }
    }
    SignersByIndex(votes);
    DistinctIffCounted(SignerList(votes));
    return |distinct| >= quorum;
  }
}
