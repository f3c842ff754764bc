/**
What partitioned resolution decides. Resolvers that judge by their own clips let a reader pass exactly when it
shares no key with the writer inside the span the partitions cover.
*/
module Verdicts {
  import opened Keys
  import opened Types
  import opened Sets
  import opened Ordering
  import opened Resolver

  /** What a resolver decides about a reader that follows a writer, from the clips it is shown. */
  function Ruling(reader: Transaction, writer: Transaction, partition: Partition): Decision {
    if AnyOverlap(
         ClippedConflicts(reader.readConflicts, partition), ClippedConflicts(writer.writeConflicts, partition))
    then Conflict else Accept
  }

  function Statement(reader: Transaction, writer: Transaction, partition: Partition): ResolverStatement {
    ResolverStatement(
      1, reader.cell, reader.tenant, reader.generation, 1, ResolverMapDigest, partition.resolver,
      ResolverIncarnation(partition.resolver), reader.identity, 1, reader.readVersion, reader.readVersion.sequence,
      ResolvedDigest(reader), ClippedConflicts(reader.readConflicts, partition),
      ClippedConflicts(reader.writeConflicts, partition), Ruling(reader, writer, partition))
  }

  function Signed(reader: Transaction, writer: Transaction, partition: Partition): ResolverAttestation {
    var statement := Statement(reader, writer, partition);
    ResolverAttestation(
      statement,
      Signature(ResolverKey(statement.resolver, statement.incarnation), ResolverMessage(statement)))
  }

  /** The attestations of the first `count` partitions, as far as the reader touches them. */
  function Attested(reader: Transaction, writer: Transaction, count: nat): seq<ResolverAttestation>
    requires count <= |PARTITIONS|
  {
    if count == 0 then []
    else
      Attested(reader, writer, count - 1)
      + if Touched(reader, PARTITIONS[count - 1]) then [Signed(reader, writer, PARTITIONS[count - 1])] else []
  }

  /** The reader's resolution when every resolver judges by its clips. */
  function Judged(reader: Transaction, writer: Transaction): PartitionedResolution {
    PartitionedResolution(0, 0, 1, 1, Attested(reader, writer, |PARTITIONS|))
  }

  /** The attestation is that of the resolver it names, for a partition the reader touches. */
  predicate FromItsPartition(reader: Transaction, writer: Transaction, attestation: ResolverAttestation) {
    var resolver := attestation.statement.resolver;
    && 1 <= resolver <= |PARTITIONS|
    && Touched(reader, PARTITIONS[resolver - 1])
    && attestation == Signed(reader, writer, PARTITIONS[resolver - 1])
  }

  lemma {:induction false} AttestedExactly(reader: Transaction, writer: Transaction, count: nat)
    requires count <= |PARTITIONS|
    ensures var attestations := Attested(reader, writer, count);
            && (forall attestation :: attestation in attestations ==>
                  FromItsPartition(reader, writer, attestation) && attestation.statement.resolver <= count)
            && (forall i, j :: 0 <= i < j < |attestations| ==>
                  attestations[i].statement.resolver < attestations[j].statement.resolver)
            && (forall k :: 0 <= k < count && Touched(reader, PARTITIONS[k]) ==>
                  Signed(reader, writer, PARTITIONS[k]) in attestations)
  {
    hide Touched, Signed;
    if count > 0 {
      AttestedExactly(reader, writer, count - 1);
      SignedResolvers(reader, writer);
    }
  }

  lemma SignedResolvers(reader: Transaction, writer: Transaction)
    ensures forall k :: 0 <= k < |PARTITIONS| ==> Signed(reader, writer, PARTITIONS[k]).statement.resolver == k + 1
  {
    hide ClippedConflicts, Ruling, ResolvedDigest, ResolverIncarnation;
    assert |PARTITIONS| == 3;
  }

  lemma SignedMatches(reader: Transaction, writer: Transaction, k: nat)
    requires k < |PARTITIONS| && Touched(reader, PARTITIONS[k])
    ensures AttestationMatches(reader, Judged(reader, writer), Signed(reader, writer, PARTITIONS[k]))
  {
    hide Touched, RequiredResolvers, Ruling, ClippedConflicts, ResolvedDigest, ResolverIncarnation, ResolverKey,
      Attested;
    TouchedIffRequired(reader, k);
  }

  /** The judged resolution passes verification whenever the reader touches the span at all. */
  lemma JudgedIsValid(reader: Transaction, writer: Transaction)
    requires RequiredResolvers(reader) != {}
    ensures ResolutionValid(reader, Judged(reader, writer))
  {
    hide Touched, Signed, RequiredResolvers, AttestationMatches, Attested;
    var attestations := Attested(reader, writer, |PARTITIONS|);
    var ids := ResolverIds(attestations);
    AttestedExactly(reader, writer, |PARTITIONS|);
    SignedResolvers(reader, writer);
    forall i | 0 <= i < |attestations|
      ensures AttestationMatches(reader, Judged(reader, writer), attestations[i]) && ids[i] in RequiredResolvers(reader)
    {
      assert attestations[i] in attestations;
      var k := attestations[i].statement.resolver - 1;
      SignedMatches(reader, writer, k);
      TouchedIffRequired(reader, k);
    }
    forall resolver | resolver in RequiredResolvers(reader)
      ensures resolver in Elements(ids)
    {
      var k := RequiredIsTouched(reader, resolver);
      var i :| 0 <= i < |attestations| && attestations[i] == Signed(reader, writer, PARTITIONS[k]);
      assert ids[i] == resolver;
    }
    assert Elements(ids) == RequiredResolvers(reader);
    DistinctIffCounted(ids);
  }

  lemma RequiredIsTouched(tx: Transaction, resolver: U16) returns (k: nat)
    requires resolver in RequiredResolvers(tx)
    ensures k < |PARTITIONS| && Touched(tx, PARTITIONS[k]) && PARTITIONS[k].resolver == resolver == k + 1
  {
    hide Touched;
    k :| 0 <= k < |PARTITIONS| && Touched(tx, PARTITIONS[k]) && PARTITIONS[k].resolver == resolver;
    TouchedIffRequired(tx, k);
  }

  lemma {:induction false} ConflictAmongIff(attestations: seq<ResolverAttestation>, count: nat)
    requires count <= |attestations|
    ensures ConflictAmong(attestations, count)
            <==> exists i :: 0 <= i < count && attestations[i].statement.decision == Conflict
  {
    if count > 0 {
      ConflictAmongIff(attestations, count - 1);
    }
  }

  /**
  End to end. When every resolver judges by its clips, the verified resolution of a reader that follows a
  writer is a conflict exactly when the two share a key inside the span, and an acceptance otherwise.
  */
  lemma VerdictIsSpanConflict(reader: Transaction, writer: Transaction)
    requires ValidRequest(reader) && ValidRequest(writer) && RequiredResolvers(reader) != {}
    ensures Resolve(reader, Judged(reader, writer))
            == Some(if ConflictingWithin(reader.readConflicts, writer.writeConflicts, SPAN) then Conflict else Accept)
  {
    hide Touched, Signed, RequiredResolvers, ResolutionValid, ConflictingWithin, Attested;
    var attestations := Attested(reader, writer, |PARTITIONS|);
    JudgedIsValid(reader, writer);
    AttestedExactly(reader, writer, |PARTITIONS|);
    ConflictAmongIff(attestations, |attestations|);
    PartitionedConflictIff(reader.readConflicts, writer.writeConflicts);
    forall k | 0 <= k < |PARTITIONS|
      ensures Signed(reader, writer, PARTITIONS[k]).statement.decision == Ruling(reader, writer, PARTITIONS[k])
      ensures Ruling(reader, writer, PARTITIONS[k]) == Conflict ==> Touched(reader, PARTITIONS[k])
    {
      VerdictIsSigned(reader, writer, PARTITIONS[k]);
    }
    if i :| 0 <= i < |attestations| && attestations[i].statement.decision == Conflict {
      assert attestations[i] in attestations;
    }
  }

  lemma VerdictIsSigned(reader: Transaction, writer: Transaction, partition: Partition)
    ensures Signed(reader, writer, partition).statement.decision == Ruling(reader, writer, partition)
    ensures Ruling(reader, writer, partition) == Conflict ==> Touched(reader, partition)
  {
  }

  // ---- a conflict outside the span ----

  function EmptyKeyReader(): Transaction {
    Transaction(
      Identity(1, 1), None, [1], [2], 1, ReadVersion(0, 0), [Point([])], [Point([0x10])], [Set([0x10], [])], None, [],
      [10, 20])
  }

  function EmptyKeyWriter(): Transaction {
    Transaction(
      Identity(1, 2), None, [1], [2], 1, ReadVersion(0, 0), [], [Point([]), Point([0x20])],
      [Set([], [1]), Set([0x20], [])], None, [], [10, 20])
  }

  /**
  The empty key lies before the first partition. A valid transaction that reads it and one that writes it are
  both resolved as accepted by resolvers that judge by their clips, although the read overlaps the write.
  */
  lemma ConflictOutsideSpanIsMissed()
    ensures ValidRequest(EmptyKeyReader()) && ValidRequest(EmptyKeyWriter())
    ensures AnyOverlap(EmptyKeyReader().readConflicts, EmptyKeyWriter().writeConflicts)
    ensures Resolve(EmptyKeyReader(), Judged(EmptyKeyReader(), EmptyKeyWriter())) == Some(Accept)
    ensures Resolve(EmptyKeyWriter(), Judged(EmptyKeyWriter(), EmptyKeyReader())) == Some(Accept)
  {
    var reader, writer := EmptyKeyReader(), EmptyKeyWriter();
    ExamplesAreValid();
    assert Overlaps(reader.readConflicts[0], writer.writeConflicts[0]);
    FirstIsTouched(reader, 0, [0x10]);
    FirstIsTouched(writer, 1, [0x20]);
    hide RequiredResolvers, ValidRequest, Judged, Resolve;
    forall key
      ensures !(Contains(Point([]), key) && Contains(SPAN, key))
    {
      PointHoldsOnlyItsKey([], key);
    }
    assert !ConflictingWithin(reader.readConflicts, writer.writeConflicts, SPAN);
    assert !ConflictingWithin(writer.readConflicts, reader.writeConflicts, SPAN);
    VerdictIsSpanConflict(reader, writer);
    VerdictIsSpanConflict(writer, reader);
  }

  lemma ExamplesAreValid()
    ensures ValidRequest(EmptyKeyReader()) && ValidRequest(EmptyKeyWriter())
  {
    PointHoldsOnlyItsKey([0x10], [0x10]);
    PointHoldsOnlyItsKey([], []);
    PointHoldsOnlyItsKey([0x20], [0x20]);
    assert Contains(EmptyKeyReader().writeConflicts[0], EmptyKeyReader().mutations[0].key);
    assert Contains(EmptyKeyWriter().writeConflicts[0], EmptyKeyWriter().mutations[0].key);
    assert Contains(EmptyKeyWriter().writeConflicts[1], EmptyKeyWriter().mutations[1].key);
  }

  lemma FirstIsTouched(tx: Transaction, i: nat, key: Bytes)
    requires i < |tx.writeConflicts| && tx.writeConflicts[i] == Point(key)
    requires key != [] && key[0] < 0x50
    ensures RequiredResolvers(tx) != {}
  {
    PointHoldsOnlyItsKey(key, key);
    PartitionsTileSpan(key);
    assert Contains(PARTITIONS[0].owned, key) by {
      assert !Less(key, [0x00]) && Less(key, [0x50]);
    }
    SharedKeyOverlaps(Point(key), PARTITIONS[0].owned, key);
    ClippedConflictsExact(tx.writeConflicts, PARTITIONS[0], Clip(Point(key), PARTITIONS[0].owned));
    hide ClippedConflicts;
    assert Touched(tx, PARTITIONS[0]);
    TouchedIffRequired(tx, 0);
  }
}
