/** The committed-envelope feed: the suffix of history a serving worker replays onto its base. */
module Feed {
  import opened Types
  import opened Certificates
  import opened Ordering
  import opened History
  import opened Serializability
  import opened Ledgers
  import opened Guarantees

  datatype FeedRequest = FeedRequest(generation: U64, after: U64, through: U64)

  datatype FeedError =
    | InvalidBound
    | StaleGeneration
    | BeyondLatest
    | UndecodableEnvelope
    | EmptySuffix
    | WrongEnd

  datatype FeedResult = Served(envelopes: seq<Envelope>) | Refused(error: FeedError)

  /** The envelopes with sequence in (after, through], in committed order. */
  function Suffix(envelopes: seq<Envelope>, after: U64, through: U64): seq<Envelope> {
    if envelopes == [] then []
    else
      var n := |envelopes| - 1;
      Suffix(envelopes[..n], after, through)
      + (if after < envelopes[n].versionSequence <= through then [envelopes[n]] else [])
  }

  predicate AllDecode(envelopes: seq<Envelope>) {
    forall n :: 0 <= n < |envelopes| ==> Decodes(envelopes[n])
  }

  function CommittedFeed(log: CommitLog, request: FeedRequest, authorityIndex: U64): FeedResult {
    if request.generation == 0 || request.after >= request.through || request.through > authorityIndex
    then Refused(InvalidBound)
    else if log.generation != request.generation then Refused(StaleGeneration)
    else if request.through > log.latestSequence then Refused(BeyondLatest)
    else if !AllDecode(log.committedEnvelopes) then Refused(UndecodableEnvelope)
    else
      var suffix := Suffix(log.committedEnvelopes, request.after, request.through);
      if suffix == [] then Refused(EmptySuffix)
      else if suffix[|suffix| - 1].versionSequence != request.through then Refused(WrongEnd)
      else Served(suffix)
  }

  /** The scan over the committed envelopes: every one must decode, the ones in range are kept. */
  method ServeCommittedEnvelopes(log: CommitLog, request: FeedRequest, authorityIndex: U64) returns (result: FeedResult)
    ensures result == CommittedFeed(log, request, authorityIndex)
  {
    hide Decodes;
    if request.generation == 0 || request.after >= request.through || request.through > authorityIndex {
      return Refused(InvalidBound);
    }
    if log.generation != request.generation {
      return Refused(StaleGeneration);
    }
    if request.through > log.latestSequence {
      return Refused(BeyondLatest);
    }
    var all := log.committedEnvelopes;
    var envelopes: seq<Envelope> := [];
    for n := 0 to |all|
      invariant envelopes == Suffix(all[..n], request.after, request.through)
      invariant AllDecode(all[..n])
    {
      if !Decodes(all[n]) {
        return Refused(UndecodableEnvelope);
      }
      assert all[..n + 1][..n] == all[..n];
      var version := all[n].versionSequence;
      if version > request.after && version <= request.through {
        envelopes := envelopes + [all[n]];
      }
    }
    assert all[..|all|] == all;
    if envelopes == [] {
      return Refused(EmptySuffix);
    }
    if envelopes[|envelopes| - 1].versionSequence != request.through {
      return Refused(WrongEnd);
    }
    return Served(envelopes);
  }

  // ---- base plus tail ----

  predicate Ascending(envelopes: seq<Envelope>) {
    forall m, n :: 0 <= m < n < |envelopes| ==> envelopes[m].versionSequence < envelopes[n].versionSequence
  }

  lemma {:induction false} SuffixContinues(envelopes: seq<Envelope>, after: U64, through: U64)
    requires Ascending(envelopes) && after <= through
    ensures UpTo(envelopes, through) == UpTo(envelopes, after) + Suffix(envelopes, after, through)
  {
    if envelopes != [] {
      var n := |envelopes| - 1;
      SuffixContinues(envelopes[..n], after, through);
      if envelopes[n].versionSequence <= after {
        NothingBeyond(envelopes[..n], after, through);
      }
    }
  }

  lemma {:induction false} NothingBeyond(envelopes: seq<Envelope>, after: U64, through: U64)
    requires forall n :: 0 <= n < |envelopes| ==> envelopes[n].versionSequence <= after
    ensures Suffix(envelopes, after, through) == []
  {
    if envelopes != [] {
      NothingBeyond(envelopes[..|envelopes| - 1], after, through);
    }
  }

  lemma {:induction false} SuffixEnds(envelopes: seq<Envelope>, after: U64, through: U64)
    requires Ascending(envelopes) && after < through
    ensures var suffix := Suffix(envelopes, after, through);
            (suffix != [] && suffix[|suffix| - 1].versionSequence == through)
            <==> exists n :: 0 <= n < |envelopes| && envelopes[n].versionSequence == through
  {
    if envelopes != [] {
      var n := |envelopes| - 1;
      SuffixEnds(envelopes[..n], after, through);
      if envelopes[n].versionSequence < through {
        assert forall k :: 0 <= k < n ==> envelopes[k].versionSequence < envelopes[n].versionSequence;
      }
      if k :| 0 <= k < |envelopes[..n]| && envelopes[..n][k].versionSequence == through {
        assert envelopes[k].versionSequence == through;
      }
    }
  }

  lemma ReachableAscends(ledger: Ledger)
    requires Reachable(ledger)
    ensures Ascending(ledger.domain.log.committedEnvelopes)
  {
    hide Reachable;
    CommittedEnvelopesFormOneChain(ledger);
  }

  /**
  Base plus tail. Replaying a served feed for (after, through] onto the rows at `after` gives exactly
  the rows at `through`.
  */
  lemma FeedRebuildsRows(ledger: Ledger, request: FeedRequest, authorityIndex: U64)
    requires Reachable(ledger)
    requires CommittedFeed(ledger.domain.log, request, authorityIndex).Served?
    ensures var envelopes := ledger.domain.log.committedEnvelopes;
            Replay(
              RowsAt(envelopes, request.after), CommittedFeed(ledger.domain.log, request, authorityIndex).envelopes)
            == RowsAt(envelopes, request.through)
  {
    hide Reachable, Replay, Decodes, UpTo, Suffix;
    var envelopes := ledger.domain.log.committedEnvelopes;
    ReachableAscends(ledger);
    SuffixContinues(envelopes, request.after, request.through);
    ReplayAppend(map[], UpTo(envelopes, request.after), Suffix(envelopes, request.after, request.through));
  }

  /** A request with proper bounds is served exactly when `through` is itself a committed sequence and all decode. */
  lemma FeedServedIff(ledger: Ledger, request: FeedRequest, authorityIndex: U64)
    requires Reachable(ledger)
    requires request.generation != 0 && request.generation == ledger.domain.log.generation
    requires request.after < request.through <= authorityIndex
    ensures CommittedFeed(ledger.domain.log, request, authorityIndex).Served?
            <==> && AllDecode(ledger.domain.log.committedEnvelopes)
                 && request.through <= ledger.domain.log.latestSequence
                 && exists n ::
                      && 0 <= n < |ledger.domain.log.committedEnvelopes|
                      && ledger.domain.log.committedEnvelopes[n].versionSequence == request.through
  {
    hide Reachable, Decodes, Suffix;
    ReachableAscends(ledger);
    SuffixEnds(ledger.domain.log.committedEnvelopes, request.after, request.through);
  }
}
