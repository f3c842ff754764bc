/**
Partitioned conflict resolution: conflict ranges are clipped to fixed key partitions, each touched
partition's resolver signs a decision over its clips, and the authority combines the decisions.
*/
module Resolver {
  import opened Keys
  import opened Types
  import opened Sets

  datatype Partition = Partition(resolver: U16, owned: KeyRange)

  const PARTITIONS: seq<Partition> := [
    Partition(1, KeyRange([0x00], [0x50])),
    Partition(2, KeyRange([0x50], [0xa0])),
    Partition(3, KeyRange([0xa0], [0xf0]))]

  /** The keys some partition owns: from byte 0x00 up to, not including, byte 0xf0. */
  const SPAN := KeyRange([0x00], [0xf0])

  // ---- clipping ----

  function Clip(range: KeyRange, owned: KeyRange): KeyRange {
    KeyRange(Max(range.start, owned.start), Min(range.end, owned.end))
  }

  function Clips(conflicts: seq<KeyRange>, owned: KeyRange): seq<KeyRange> {
    if conflicts == [] then []
    else
      (if Overlaps(conflicts[0], owned) then [Clip(conflicts[0], owned)] else []) + Clips(conflicts[1..], owned)
  }

  predicate RangeLess(a: KeyRange, b: KeyRange) {
    Less(a.start, b.start) || (a.start == b.start && Less(a.end, b.end))
  }

  function Insert(range: KeyRange, sorted: seq<KeyRange>): seq<KeyRange> {
    if sorted == [] then [range]
    else if sorted[0] == range then sorted
    else if RangeLess(range, sorted[0]) then [range] + sorted
    else [sorted[0]] + Insert(range, sorted[1..])
  }

  /** `sort` then `dedup`. */
  function SortDedup(ranges: seq<KeyRange>): seq<KeyRange> {
    if ranges == [] then [] else Insert(ranges[0], SortDedup(ranges[1..]))
  }

  function ClippedConflicts(conflicts: seq<KeyRange>, partition: Partition): seq<KeyRange> {
    SortDedup(Clips(conflicts, partition.owned))
  }

  lemma {:induction false} InsertElements(range: KeyRange, sorted: seq<KeyRange>, x: KeyRange)
    ensures x in Insert(range, sorted) <==> x == range || x in sorted
  {
    if sorted != [] && sorted[0] != range && !RangeLess(range, sorted[0]) {
      InsertElements(range, sorted[1..], x);
    }
  }

  lemma {:induction false} SortDedupElements(ranges: seq<KeyRange>, x: KeyRange)
    ensures x in SortDedup(ranges) <==> x in ranges
  {
    if ranges != [] {
      SortDedupElements(ranges[1..], x);
      InsertElements(ranges[0], SortDedup(ranges[1..]), x);
    }
  }

  lemma {:induction false} ClipsElements(conflicts: seq<KeyRange>, owned: KeyRange, x: KeyRange)
    ensures x in Clips(conflicts, owned)
            <==> exists i :: 0 <= i < |conflicts| && Overlaps(conflicts[i], owned) && x == Clip(conflicts[i], owned)
  {
    if conflicts != [] {
      ClipsElements(conflicts[1..], owned, x);
      if i :| 0 <= i < |conflicts| && Overlaps(conflicts[i], owned) && x == Clip(conflicts[i], owned) {
        if i > 0 {
          assert conflicts[1..][i - 1] == conflicts[i];
        }
      }
      if x in Clips(conflicts[1..], owned) {
        var i :| 0 <= i < |conflicts[1..]| && Overlaps(conflicts[1..][i], owned) && x == Clip(conflicts[1..][i], owned);
        assert conflicts[i + 1] == conflicts[1..][i];
      }
    }
  }

  /** Each range before the next, so sorted and without repetition. */
  predicate Ascends(ranges: seq<KeyRange>) {
    forall i, j :: 0 <= i < j < |ranges| ==> RangeLess(ranges[i], ranges[j])
  }

  lemma RangeOrder(a: KeyRange, b: KeyRange, c: KeyRange)
    ensures RangeLess(a, b) || a == b || RangeLess(b, a)
    ensures RangeLess(a, b) && RangeLess(b, c) ==> RangeLess(a, c)
  {
    LessTotal(a.start, b.start);
    LessTotal(a.end, b.end);
    if RangeLess(a, b) && RangeLess(b, c) {
      LessChain(a.start, b.start, c.start);
      LessChain(a.end, b.end, c.end);
    }
  }

  lemma LessChain(a: Bytes, b: Bytes, c: Bytes)
    ensures Less(a, b) && Less(b, c) ==> Less(a, c)
  {
    if Less(a, b) && Less(b, c) {
      LessTransitive(a, b, c);
    }
  }

  lemma {:induction false} InsertAscends(range: KeyRange, sorted: seq<KeyRange>)
    requires Ascends(sorted)
    ensures Ascends(Insert(range, sorted))
  {
    hide RangeLess;
    if sorted != [] && sorted[0] != range {
      if RangeLess(range, sorted[0]) {
        forall j | 0 <= j < |sorted|
          ensures RangeLess(range, sorted[j])
        {
          RangeOrder(range, sorted[0], sorted[j]);
        }
      } else {
        var rest := sorted[1..];
        InsertAscends(range, rest);
        RangeOrder(range, sorted[0], range);
        forall j | 0 <= j < |Insert(range, rest)|
          ensures RangeLess(sorted[0], Insert(range, rest)[j])
        {
          InsertElements(range, rest, Insert(range, rest)[j]);
        }
      }
    }
  }

  lemma {:induction false} SortDedupAscends(ranges: seq<KeyRange>)
    ensures Ascends(SortDedup(ranges))
  {
    if ranges != [] {
      SortDedupAscends(ranges[1..]);
      InsertAscends(ranges[0], SortDedup(ranges[1..]));
    }
  }

  /** A partition's clipped list is sorted without repetition and holds exactly the clips of the conflicts that
      reach into it. */
  lemma ClippedConflictsExact(conflicts: seq<KeyRange>, partition: Partition, x: KeyRange)
    ensures Ascends(ClippedConflicts(conflicts, partition))
    ensures x in ClippedConflicts(conflicts, partition)
            <==> exists i ::
                   && 0 <= i < |conflicts|
                   && Overlaps(conflicts[i], partition.owned)
                   && x == Clip(conflicts[i], partition.owned)
  {
    SortDedupAscends(Clips(conflicts, partition.owned));
    SortDedupElements(Clips(conflicts, partition.owned), x);
    ClipsElements(conflicts, partition.owned, x);
  }

  // ---- partitioned detection against centralized detection ----

  /** Some partition sees a clipped read overlap a clipped write. */
  predicate SomePartitionConflicts(readRanges: seq<KeyRange>, writeRanges: seq<KeyRange>) {
    exists k :: 0 <= k < |PARTITIONS| &&
      AnyOverlap(ClippedConflicts(readRanges, PARTITIONS[k]), ClippedConflicts(writeRanges, PARTITIONS[k]))
  }

  /** A key lies in both ranges and in a third one. */
  ghost predicate MeetWithin(a: KeyRange, b: KeyRange, within: KeyRange) {
    exists key :: Contains(a, key) && Contains(b, key) && Contains(within, key)
  }

  /** Clipping keeps exactly the keys the partition owns. */
  lemma ClipContains(range: KeyRange, owned: KeyRange, key: Bytes)
    ensures Contains(Clip(range, owned), key) <==> Contains(range, key) && Contains(owned, key)
  {
    MinMaxLaws(range.start, owned.start, key);
    MinMaxLaws(range.end, owned.end, key);
  }

  lemma ClipValid(range: KeyRange, owned: KeyRange)
    requires Valid(range) && Valid(owned) && Overlaps(range, owned)
    ensures Valid(Clip(range, owned))
  {
    MinMaxLaws(range.end, owned.end, Max(range.start, owned.start));
    MinMaxLaws(range.start, owned.start, range.end);
    MinMaxLaws(range.start, owned.start, owned.end);
  }

  lemma ClippedOverlapMeets(a: KeyRange, b: KeyRange, owned: KeyRange)
    requires Valid(a) && Valid(b) && Valid(owned)
    ensures Overlaps(a, owned) && Overlaps(b, owned) && Overlaps(Clip(a, owned), Clip(b, owned))
            <==> MeetWithin(a, b, owned)
  {
    if Overlaps(a, owned) && Overlaps(b, owned) && Overlaps(Clip(a, owned), Clip(b, owned)) {
      ClipValid(a, owned);
      ClipValid(b, owned);
      OverlapsIffSharedKey(Clip(a, owned), Clip(b, owned));
      var key :| Contains(Clip(a, owned), key) && Contains(Clip(b, owned), key);
      ClipContains(a, owned, key);
      ClipContains(b, owned, key);
    }
    if MeetWithin(a, b, owned) {
      var key :| Contains(a, key) && Contains(b, key) && Contains(owned, key);
      SharedKeyOverlaps(a, owned, key);
      SharedKeyOverlaps(b, owned, key);
      ClipContains(a, owned, key);
      ClipContains(b, owned, key);
      SharedKeyOverlaps(Clip(a, owned), Clip(b, owned), key);
    }
  }

  /** The partitions tile the span: every key of it is owned, and nothing else is. */
  lemma PartitionsTileSpan(key: Bytes)
    ensures Contains(SPAN, key) <==> exists k :: 0 <= k < |PARTITIONS| && Contains(PARTITIONS[k].owned, key)
    ensures forall k, l :: 0 <= k < l < |PARTITIONS| ==>
              !(Contains(PARTITIONS[k].owned, key) && Contains(PARTITIONS[l].owned, key))
  {
    assert |PARTITIONS| == 3;
    forall b: Byte
      ensures Less(key, [b]) <==> key == [] || key[0] < b
    {
    }
    if Contains(SPAN, key) {
      assert key != [];
      var k := if key[0] < 0x50 then 0 else if key[0] < 0xa0 then 1 else 2;
      assert Contains(PARTITIONS[k].owned, key);
    }
  }

  ghost predicate ConflictingWithin(readRanges: seq<KeyRange>, writeRanges: seq<KeyRange>, within: KeyRange) {
    exists i, j :: 0 <= i < |readRanges| && 0 <= j < |writeRanges| && MeetWithin(readRanges[i], writeRanges[j], within)
  }

  predicate AllValid(ranges: seq<KeyRange>) {
    forall i :: 0 <= i < |ranges| ==> Valid(ranges[i])
  }

  lemma OnePartition(readRanges: seq<KeyRange>, writeRanges: seq<KeyRange>, partition: Partition)
    requires AllValid(readRanges) && AllValid(writeRanges) && Valid(partition.owned)
    ensures AnyOverlap(ClippedConflicts(readRanges, partition), ClippedConflicts(writeRanges, partition))
            <==> ConflictingWithin(readRanges, writeRanges, partition.owned)
  {
    var rs, ws := ClippedConflicts(readRanges, partition), ClippedConflicts(writeRanges, partition);
    if i, j :| 0 <= i < |rs| && 0 <= j < |ws| && Overlaps(rs[i], ws[j]) {
      ClippedConflictsExact(readRanges, partition, rs[i]);
      ClippedConflictsExact(writeRanges, partition, ws[j]);
      var a :|
        && 0 <= a < |readRanges|
        && Overlaps(readRanges[a], partition.owned)
        && rs[i] == Clip(readRanges[a], partition.owned);
      var b :|
        && 0 <= b < |writeRanges|
        && Overlaps(writeRanges[b], partition.owned)
        && ws[j] == Clip(writeRanges[b], partition.owned);
      ClippedOverlapMeets(readRanges[a], writeRanges[b], partition.owned);
    }
    if i, j :|
      && 0 <= i < |readRanges|
      && 0 <= j < |writeRanges|
      && MeetWithin(readRanges[i], writeRanges[j], partition.owned)
    {
      ClippedOverlapMeets(readRanges[i], writeRanges[j], partition.owned);
      ClippedConflictsExact(readRanges, partition, Clip(readRanges[i], partition.owned));
      ClippedConflictsExact(writeRanges, partition, Clip(writeRanges[j], partition.owned));
      var a :| 0 <= a < |rs| && rs[a] == Clip(readRanges[i], partition.owned);
      var b :| 0 <= b < |ws| && ws[b] == Clip(writeRanges[j], partition.owned);
    }
  }

  /**
  For all non-empty ranges, partitioned detection finds a conflict exactly when a read and a write
  share a key some partition owns.
  */
  lemma PartitionedConflictIff(readRanges: seq<KeyRange>, writeRanges: seq<KeyRange>)
    requires AllValid(readRanges) && AllValid(writeRanges)
    ensures SomePartitionConflicts(readRanges, writeRanges) <==> ConflictingWithin(readRanges, writeRanges, SPAN)
  {
    forall k | 0 <= k < |PARTITIONS|
      ensures AnyOverlap(ClippedConflicts(readRanges, PARTITIONS[k]), ClippedConflicts(writeRanges, PARTITIONS[k]))
              <==> ConflictingWithin(readRanges, writeRanges, PARTITIONS[k].owned)
    {
      OnePartition(readRanges, writeRanges, PARTITIONS[k]);
    }
    if i, j :| 0 <= i < |readRanges| && 0 <= j < |writeRanges| && MeetWithin(readRanges[i], writeRanges[j], SPAN) {
      var key :| Contains(readRanges[i], key) && Contains(writeRanges[j], key) && Contains(SPAN, key);
      PartitionsTileSpan(key);
      var k :| 0 <= k < |PARTITIONS| && Contains(PARTITIONS[k].owned, key);
      assert MeetWithin(readRanges[i], writeRanges[j], PARTITIONS[k].owned);
    }
    if k :| 0 <= k < |PARTITIONS| && ConflictingWithin(readRanges, writeRanges, PARTITIONS[k].owned) {
      var i, j :|
        && 0 <= i < |readRanges|
        && 0 <= j < |writeRanges|
        && MeetWithin(readRanges[i], writeRanges[j], PARTITIONS[k].owned);
      var key :| Contains(readRanges[i], key) && Contains(writeRanges[j], key) && Contains(PARTITIONS[k].owned, key);
      PartitionsTileSpan(key);
      assert MeetWithin(readRanges[i], writeRanges[j], SPAN);
    }
  }

  predicate InSpan(range: KeyRange) {
    AtMost(SPAN.start, range.start) && AtMost(range.end, SPAN.end)
  }

  /** For readRanges inside the span, partitioned and centralized detection agree. */
  lemma PartitionedEqualsCentralized(readRanges: seq<KeyRange>, writeRanges: seq<KeyRange>)
    requires AllValid(readRanges) && AllValid(writeRanges)
    requires forall i :: 0 <= i < |readRanges| ==> InSpan(readRanges[i])
    ensures SomePartitionConflicts(readRanges, writeRanges) <==> AnyOverlap(readRanges, writeRanges)
  {
    PartitionedConflictIff(readRanges, writeRanges);
    if i, j :| 0 <= i < |readRanges| && 0 <= j < |writeRanges| && Overlaps(readRanges[i], writeRanges[j]) {
      OverlapsIffSharedKey(readRanges[i], writeRanges[j]);
      var key :| Contains(readRanges[i], key) && Contains(writeRanges[j], key);
      LessTotal(SPAN.start, readRanges[i].start);
      AtMostLess(key, SPAN.start, readRanges[i].start);
      AtMostLess(key, readRanges[i].end, SPAN.end);
      assert MeetWithin(readRanges[i], writeRanges[j], SPAN) by {
        assert Contains(SPAN, key);
      }
    }
    if i, j :| 0 <= i < |readRanges| && 0 <= j < |writeRanges| && MeetWithin(readRanges[i], writeRanges[j], SPAN) {
      var key :| Contains(readRanges[i], key) && Contains(writeRanges[j], key) && Contains(SPAN, key);
      SharedKeyOverlaps(readRanges[i], writeRanges[j], key);
    }
  }

  // ---- resolver evidence ----

  function Canonical(tx: Transaction): CanonicalTransaction {
    CanonicalTransaction(
      tx.identity, tx.credential, tx.cell, tx.tenant, tx.generation, tx.readVersion, Elements(tx.readConflicts),
      Elements(tx.writeConflicts), Elements(tx.mutations),
      if tx.resolution.Some? then Some(multiset(tx.resolution.value.attestations)) else None,
      Elements(tx.acceptedResolvers), Elements(tx.logTags))
  }

  /** The transaction digest a resolver signs leaves out the evidence itself. */
  function ResolvedDigest(tx: Transaction): Digest {
    PartitionedDigest(Canonical(tx.(resolution := None, acceptedResolvers := [])))
  }

  function ResolverIncarnation(resolver: U16): Bytes {
    [resolver / 256, resolver % 256]
    + [0x6f, 0x6b, 0x76, 0x2d, 0x72, 0x65, 0x73, 0x6f, 0x6c, 0x76, 0x65, 0x72, 0x2d, 0x76]
  }

  /** Stands for the key pair derived from a resolver's id and incarnation. */
  function ResolverKey(resolver: U16, incarnation: Bytes): Bytes {
    [resolver / 256, resolver % 256] + incarnation
  }

  predicate Touched(tx: Transaction, partition: Partition) {
    ClippedConflicts(tx.readConflicts, partition) != [] || ClippedConflicts(tx.writeConflicts, partition) != []
  }

  function RequiredResolvers(tx: Transaction): set<U16> {
    set k | 0 <= k < |PARTITIONS| && Touched(tx, PARTITIONS[k]) :: PARTITIONS[k].resolver
  }

  function SystemGeneration(tx: Transaction, resolution: PartitionedResolution): U64 {
    if resolution.transactionSystemGeneration == 0 then tx.generation else resolution.transactionSystemGeneration
  }

  function ResolverReadSequence(tx: Transaction, resolution: PartitionedResolution): U64 {
    if resolution.resolverReadSequence == 0 then tx.readVersion.sequence else resolution.resolverReadSequence
  }

  /** One attestation speaks for a touched partition, over its exact clips, with a valid signature. */
  predicate AttestationMatches(tx: Transaction, resolution: PartitionedResolution, attestation: ResolverAttestation) {
    var statement := attestation.statement;
    && statement.resolver in RequiredResolvers(tx)
    && 1 <= statement.resolver <= |PARTITIONS|
    && var partition := PARTITIONS[statement.resolver - 1];
    && statement.formatVersion == 1
    && statement.cell == tx.cell
    && statement.tenant == tx.tenant
    && statement.generation == SystemGeneration(tx, resolution)
    && statement.mapEpoch == resolution.mapEpoch
    && statement.mapDigest == ResolverMapDigest
    && statement.incarnation == ResolverIncarnation(statement.resolver)
    && statement.transactionIdentity == tx.identity
    && statement.candidateSequence == resolution.candidateSequence
    && statement.readVersion == tx.readVersion
    && statement.resolverReadSequence == ResolverReadSequence(tx, resolution)
    && statement.transactionDigest == ResolvedDigest(tx)
    && statement.readConflicts == ClippedConflicts(tx.readConflicts, partition)
    && statement.writeConflicts == ClippedConflicts(tx.writeConflicts, partition)
    && Verifies(
         ResolverKey(statement.resolver, statement.incarnation), ResolverMessage(statement), attestation.signature)
  }

  function ResolverIds(attestations: seq<ResolverAttestation>): seq<U16> {
    seq(|attestations|, i requires 0 <= i < |attestations| => attestations[i].statement.resolver)
  }

  predicate ResolutionValid(tx: Transaction, resolution: PartitionedResolution) {
    && resolution.mapEpoch == 1
    && resolution.candidateSequence != 0
    && RequiredResolvers(tx) != {}
    && |resolution.attestations| == |RequiredResolvers(tx)|
    && Distinct(ResolverIds(resolution.attestations))
    && forall i :: 0 <= i < |resolution.attestations| ==> AttestationMatches(tx, resolution, resolution.attestations[i])
  }

  predicate ConflictAmong(attestations: seq<ResolverAttestation>, count: nat)
    requires count <= |attestations|
  {
    count > 0
    && (attestations[count - 1].statement.decision == Conflict || ConflictAmong(attestations, count - 1))
  }

  function CombinedDecision(attestations: seq<ResolverAttestation>): Decision {
    if ConflictAmong(attestations, |attestations|) then Conflict else Accept
  }

  /** `None` is the error result; otherwise one conflict decides for all. */
  function Resolve(tx: Transaction, resolution: PartitionedResolution): Option<Decision> {
    if ResolutionValid(tx, resolution) then Some(CombinedDecision(resolution.attestations)) else None
  }

  /** The verification loop over the attestations, with its growing set of resolvers. */
  method VerifyResolution(tx: Transaction, resolution: PartitionedResolution) returns (decision: Option<Decision>)
    ensures decision == Resolve(tx, resolution)
  {
    hide AttestationMatches, RequiredResolvers;
    var required := RequiredResolvers(tx);
    var attestations := resolution.attestations;
    if resolution.mapEpoch != 1 || resolution.candidateSequence == 0 || required == {}
       || |attestations| != |required|
    {
      return None;
    }
    var distinct: set<U16> := {};
    var combined := Accept;
    for i := 0 to |attestations|
      invariant distinct == set j | 0 <= j < i :: attestations[j].statement.resolver
      invariant |distinct| == i
      invariant forall j :: 0 <= j < i ==> AttestationMatches(tx, resolution, attestations[j])
      invariant combined == Conflict <==> ConflictAmong(attestations, i)
    {
      var attestation := attestations[i];
      if !AttestationMatches(tx, resolution, attestation) {
        return None;
      }
      if attestation.statement.resolver in distinct {
        ghost var j :| 0 <= j < i && attestations[j].statement.resolver == attestation.statement.resolver;
        assert ResolverIds(attestations)[j] == ResolverIds(attestations)[i];
        return None;
      }
      distinct := distinct + {attestation.statement.resolver};
      if attestation.statement.decision == Conflict {
        combined := Conflict;
      }
    }
    ResolverIdsByIndex(attestations);
    DistinctIffCounted(ResolverIds(attestations));
    return Some(combined);
  }

  lemma ResolverIdsByIndex(attestations: seq<ResolverAttestation>)
    ensures Elements(ResolverIds(attestations)) == set j | 0 <= j < |attestations| :: attestations[j].statement.resolver
  {
    var ids := ResolverIds(attestations);
    forall j | 0 <= j < |attestations|
      ensures attestations[j].statement.resolver in Elements(ids)
    {
      assert ids[j] == attestations[j].statement.resolver;
    }
  }

  /** The signing resolvers are all different and are exactly the resolvers of the touched partitions. */
  lemma AttestingResolversExact(tx: Transaction, resolution: PartitionedResolution)
    requires ResolutionValid(tx, resolution)
    ensures Elements(ResolverIds(resolution.attestations)) == RequiredResolvers(tx)
  {
    var ids := ResolverIds(resolution.attestations);
    assert forall i :: 0 <= i < |ids| ==> ids[i] in RequiredResolvers(tx);
    hide AttestationMatches, RequiredResolvers;
    DistinctIffCounted(ids);
    SubsetSameSize(Elements(ids), RequiredResolvers(tx));
  }

  lemma TouchedIffRequired(tx: Transaction, k: nat)
    requires k < |PARTITIONS|
    ensures Touched(tx, PARTITIONS[k]) <==> PARTITIONS[k].resolver in RequiredResolvers(tx)
    ensures PARTITIONS[k].resolver == k + 1
  {
    hide Touched;
    assert |PARTITIONS| == 3;
    assert forall l :: 0 <= l < |PARTITIONS| ==> PARTITIONS[l].resolver == l + 1;
  }

  /** Attestation `i` speaks for partition `k` over its exact clips. */
  predicate SpeaksFor(tx: Transaction, attestation: ResolverAttestation, partition: Partition) {
    && attestation.statement.resolver == partition.resolver
    && attestation.statement.readConflicts == ClippedConflicts(tx.readConflicts, partition)
    && attestation.statement.writeConflicts == ClippedConflicts(tx.writeConflicts, partition)
  }

  /**
  An accepted resolution has exactly one attestation for each touched partition, over that
  partition's exact clips, and none for the others.
  */
  lemma ResolutionCoversTouched(tx: Transaction, resolution: PartitionedResolution, k: nat)
    requires ResolutionValid(tx, resolution) && k < |PARTITIONS|
    ensures var attestations := resolution.attestations;
            && (Touched(tx, PARTITIONS[k])
                <==> exists i :: 0 <= i < |attestations| && SpeaksFor(tx, attestations[i], PARTITIONS[k]))
            && (forall i, j ::
                  && 0 <= i < j < |attestations|
                  && attestations[i].statement.resolver == PARTITIONS[k].resolver
                  ==> attestations[j].statement.resolver != PARTITIONS[k].resolver)
  {
    hide Touched, RequiredResolvers, ClippedConflicts;
    var attestations, ids := resolution.attestations, ResolverIds(resolution.attestations);
    AttestingResolversExact(tx, resolution);
    TouchedIffRequired(tx, k);
    if Touched(tx, PARTITIONS[k]) {
      var i :| 0 <= i < |ids| && ids[i] == PARTITIONS[k].resolver;
      assert AttestationMatches(tx, resolution, attestations[i]);
      assert SpeaksFor(tx, attestations[i], PARTITIONS[k]);
    }
    if i :| 0 <= i < |attestations| && SpeaksFor(tx, attestations[i], PARTITIONS[k]) {
      assert ids[i] in Elements(ids);
    }
    forall i, j | 0 <= i < j < |attestations| && attestations[i].statement.resolver == PARTITIONS[k].resolver
      ensures attestations[j].statement.resolver != PARTITIONS[k].resolver
    {
      assert ids[i] != ids[j];
    }
  }

  lemma SubsetSameSize<T>(a: set<T>, b: set<T>)
    requires a <= b && |a| == |b|
    ensures a == b
  {
    assert |b - a| == |b| - |a * b|;
    assert a * b == a;
  }
}
