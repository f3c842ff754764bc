/** The boundary a proxy recovery publishes: per log set the second-highest frontier, then the lower of the two. */
module Boundary {
  import opened Types

  datatype Ticket = Ticket(generation: U64, batch: U64, previousVersion: U64, currentVersion: U64)

  /** A role's receipt; `verified` is the outcome of checking its signature. */
  datatype RoleReceipt = RoleReceipt(
    generation: U64, role: U16, logSet: Option<U16>, versions: seq<U64>, verified: bool)

  // ---- tickets ----

  function TicketVersions(tickets: seq<Ticket>, generation: U64): seq<U64> {
    if tickets == [] then []
    else
      var n := |tickets| - 1;
      TicketVersions(tickets[..n], generation)
      + (if tickets[n].generation == generation then [tickets[n].currentVersion] else [])
  }

  /** Greatest element, or 0 of an empty list. */
  function Greatest(values: seq<U64>): (r: U64)
    ensures forall i :: 0 <= i < |values| ==> values[i] <= r
    ensures if values == [] then r == 0 else r in values
  {
    if values == [] then 0
    else
      var n := |values| - 1;
      var rest := Greatest(values[..n]);
      if rest <= values[n] then values[n] else rest
  }

  /** Least element, or 0 of an empty list. */
  function Least(values: seq<U64>): (r: U64)
    ensures forall i :: 0 <= i < |values| ==> r <= values[i]
    ensures if values == [] then r == 0 else r in values
  {
    if values == [] then 0
    else
      var n := |values| - 1;
      var rest := Least(values[..n]);
      if n == 0 || values[n] <= rest then values[n] else rest
  }

  function IssuedHighWatermark(tickets: seq<Ticket>, generation: U64): U64 {
    Greatest(TicketVersions(tickets, generation))
  }

  function FirstVersion(tickets: seq<Ticket>, generation: U64): U64 {
    Least(TicketVersions(tickets, generation))
  }

  // ---- frontiers ----

  predicate Counted(receipt: RoleReceipt, generation: U64, logSet: U16) {
    receipt.generation == generation && receipt.logSet == Some(logSet) && receipt.verified
  }

  /** The receipt is counted and has got as far as this version. */
  predicate HasReached(receipt: RoleReceipt, generation: U64, logSet: U16, version: U64) {
    && Counted(receipt, generation, logSet)
    && receipt.versions != []
    && receipt.versions[|receipt.versions| - 1] >= version
  }

  function Frontiers(receipts: seq<RoleReceipt>, generation: U64, logSet: U16): seq<U64> {
    if receipts == [] then []
    else
      var n := |receipts| - 1;
      Frontiers(receipts[..n], generation, logSet)
      + (if Counted(receipts[n], generation, logSet) && receipts[n].versions != []
         then [receipts[n].versions[|receipts[n].versions| - 1]] else [])
  }

  function InsertDown(sorted: seq<U64>, value: U64): seq<U64> {
    if sorted == [] || sorted[0] <= value then [value] + sorted else [sorted[0]] + InsertDown(sorted[1..], value)
  }

  function SortDown(values: seq<U64>): seq<U64> {
    if values == [] then [] else InsertDown(SortDown(values[..|values| - 1]), values[|values| - 1])
  }

  function SecondFrontier(values: seq<U64>): U64 {
    var sorted := SortDown(values);
    if |sorted| > 1 then sorted[1] else 0
  }

  function SetFrontier(receipts: seq<RoleReceipt>, generation: U64, logSet: U16): U64 {
    SecondFrontier(Frontiers(receipts, generation, logSet))
  }

  function AtOrBelow(values: seq<U64>, bound: U64): seq<U64> {
    if values == [] then []
    else
      var n := |values| - 1;
      AtOrBelow(values[..n], bound) + (if values[n] <= bound then [values[n]] else [])
  }

  /** The boundary of one recovered generation. */
  function RecoveredBoundary(tickets: seq<Ticket>, receipts: seq<RoleReceipt>, generation: U64): U64 {
    var first, second := SetFrontier(receipts, generation, 10), SetFrontier(receipts, generation, 20);
    Greatest(AtOrBelow(TicketVersions(tickets, generation), if first <= second then first else second))
  }

  // ---- how many values reach a version ----

  function CountAtLeast(values: seq<U64>, version: U64): nat {
    if values == [] then 0
    else CountAtLeast(values[..|values| - 1], version) + (if values[|values| - 1] >= version then 1 else 0)
  }

  predicate Descending(values: seq<U64>) {
    forall i, j :: 0 <= i < j < |values| ==> values[i] >= values[j]
  }

  /** Receipts of the log set that have reached a version. */
  function ReachCount(receipts: seq<RoleReceipt>, generation: U64, logSet: U16, version: U64): nat {
    if receipts == [] then 0
    else
      var n := |receipts| - 1;
      ReachCount(receipts[..n], generation, logSet, version)
      + (if HasReached(receipts[n], generation, logSet, version) then 1 else 0)
  }

  lemma {:induction false} CountOfConcat(first: seq<U64>, second: seq<U64>, version: U64)
    ensures CountAtLeast(first + second, version) == CountAtLeast(first, version) + CountAtLeast(second, version)
  {
    if second == [] {
      assert first + second == first;
    } else {
      var n := |second| - 1;
      CountOfConcat(first, second[..n], version);
      assert (first + second)[..|first| + n] == first + second[..n];
    }
  }

  lemma {:induction false} InsertCounts(sorted: seq<U64>, value: U64, version: U64)
    ensures CountAtLeast(InsertDown(sorted, value), version)
            == CountAtLeast(sorted, version) + (if value >= version then 1 else 0)
  {
    assert CountAtLeast([value], version) == if value >= version then 1 else 0;
    if sorted == [] || sorted[0] <= value {
      CountOfConcat([value], sorted, version);
    } else {
      InsertCounts(sorted[1..], value, version);
      CountOfConcat([sorted[0]], InsertDown(sorted[1..], value), version);
      CountOfConcat([sorted[0]], sorted[1..], version);
      assert sorted == [sorted[0]] + sorted[1..];
    }
  }

  lemma {:induction false} InsertStaysDescending(sorted: seq<U64>, value: U64)
    requires Descending(sorted)
    ensures Descending(InsertDown(sorted, value))
    ensures forall x :: x in InsertDown(sorted, value) ==> x == value || x in sorted
  {
    if sorted != [] && sorted[0] > value {
      var rest := InsertDown(sorted[1..], value);
      InsertStaysDescending(sorted[1..], value);
      forall i | 0 <= i < |rest|
        ensures rest[i] <= sorted[0]
      {
        assert rest[i] in rest;
      }
    }
  }

  /** The sort orders the values and changes none of the counts. */
  lemma {:induction false} SortDownSorts(values: seq<U64>, version: U64)
    ensures Descending(SortDown(values)) && CountAtLeast(SortDown(values), version) == CountAtLeast(values, version)
  {
    if values != [] {
      var n := |values| - 1;
      SortDownSorts(values[..n], version);
      InsertStaysDescending(SortDown(values[..n]), values[n]);
      InsertCounts(SortDown(values[..n]), values[n], version);
    }
  }

  /** In a descending list, two values reach a version exactly when the second one does. */
  lemma {:induction false} SecondReachesIff(values: seq<U64>, version: U64)
    requires Descending(values)
    ensures CountAtLeast(values, version) >= 2 <==> |values| > 1 && values[1] >= version
  {
    if |values| > 2 {
      SecondReachesIff(values[..|values| - 1], version);
    } else if |values| == 2 {
      assert values[..1] == [values[0]] && [values[0]][..0] == [];
      assert CountAtLeast([values[0]], version) == if values[0] >= version then 1 else 0;
    }
  }

  /** The order statistic: a positive version is at most the second frontier exactly when two values reach it. */
  lemma SecondFrontierIff(values: seq<U64>, version: U64)
    requires version > 0
    ensures version <= SecondFrontier(values) <==> CountAtLeast(values, version) >= 2
  {
    SortDownSorts(values, version);
    SecondReachesIff(SortDown(values), version);
  }

  lemma {:induction false} FrontiersCountReceipts(
    receipts: seq<RoleReceipt>, generation: U64, logSet: U16, version: U64)
    ensures CountAtLeast(Frontiers(receipts, generation, logSet), version)
            == ReachCount(receipts, generation, logSet, version)
  {
    if receipts != [] {
      var n := |receipts| - 1;
      FrontiersCountReceipts(receipts[..n], generation, logSet, version);
      var last := if Counted(receipts[n], generation, logSet) && receipts[n].versions != []
        then [receipts[n].versions[|receipts[n].versions| - 1]] else [];
      CountOfConcat(Frontiers(receipts[..n], generation, logSet), last, version);
      assert Frontiers(receipts, generation, logSet) == Frontiers(receipts[..n], generation, logSet) + last;
    }
  }

  // ---- the boundary ----

  /** At least two verified receipts of each log set have reached the version. */
  predicate QuorumReached(receipts: seq<RoleReceipt>, generation: U64, version: U64) {
    ReachCount(receipts, generation, 10, version) >= 2 && ReachCount(receipts, generation, 20, version) >= 2
  }

  lemma {:induction false} AtOrBelowMembers(values: seq<U64>, bound: U64)
    ensures forall x :: x in AtOrBelow(values, bound) <==> x in values && x <= bound
  {
    if values != [] {
      var n := |values| - 1;
      AtOrBelowMembers(values[..n], bound);
      assert values == values[..n] + [values[n]];
    }
  }

  /**
  The recovered boundary is the greatest ticket version of the generation that at least two verified
  receipts of each log set have reached, or 0 when there is none.
  */
  lemma BoundaryIsGreatestReached(tickets: seq<Ticket>, receipts: seq<RoleReceipt>, generation: U64)
    ensures var boundary, versions :=
              RecoveredBoundary(tickets, receipts, generation), TicketVersions(tickets, generation);
            && (boundary > 0 ==> boundary in versions && QuorumReached(receipts, generation, boundary))
            && forall version :: version in versions && version > 0 && QuorumReached(receipts, generation, version) ==>
                 version <= boundary
  {
    var boundary, versions := RecoveredBoundary(tickets, receipts, generation), TicketVersions(tickets, generation);
    var first, second := SetFrontier(receipts, generation, 10), SetFrontier(receipts, generation, 20);
    var bound := if first <= second then first else second;
    AtOrBelowMembers(versions, bound);
    if boundary > 0 {
      BoundIff(receipts, generation, boundary);
    }
    forall version | version in versions && version > 0 && QuorumReached(receipts, generation, version)
      ensures version <= boundary
    {
      BoundIff(receipts, generation, version);
      assert version in AtOrBelow(versions, bound);
    }
  }

  lemma BoundIff(receipts: seq<RoleReceipt>, generation: U64, version: U64)
    requires version > 0
    ensures version <= SetFrontier(receipts, generation, 10) && version <= SetFrontier(receipts, generation, 20)
            <==> QuorumReached(receipts, generation, version)
  {
    SecondFrontierIff(Frontiers(receipts, generation, 10), version);
    SecondFrontierIff(Frontiers(receipts, generation, 20), version);
    FrontiersCountReceipts(receipts, generation, 10, version);
    FrontiersCountReceipts(receipts, generation, 20, version);
  }

  /** A boundary lies between the first version issued and the high watermark. */
  lemma BoundaryWithinIssued(tickets: seq<Ticket>, receipts: seq<RoleReceipt>, generation: U64)
    ensures var boundary := RecoveredBoundary(tickets, receipts, generation);
            boundary > 0 ==>
              FirstVersion(tickets, generation) <= boundary <= IssuedHighWatermark(tickets, generation)
  {
    BoundaryIsGreatestReached(tickets, receipts, generation);
  }

  // ---- receipts that are prefixes of the ticket chain ----

  /** The versions issued in the generation, in order. */
  ghost predicate IsTicketChain(chain: seq<U64>, tickets: seq<Ticket>, generation: U64) {
    && (forall i :: 0 <= i < |chain| ==> chain[i] > 0)
    && (forall i, j :: 0 <= i < j < |chain| ==> chain[i] < chain[j])
    && forall version :: version in chain <==> version in TicketVersions(tickets, generation)
  }

  /** Every receipt that counts for one of the two log sets is a prefix of the chain. */
  predicate PrefixReceipts(receipts: seq<RoleReceipt>, chain: seq<U64>, generation: U64) {
    forall i ::
      0 <= i < |receipts| && (Counted(receipts[i], generation, 10) || Counted(receipts[i], generation, 20)) ==>
        receipts[i].versions <= chain
  }

  /** Receipts of the log set that hold a version. */
  function HoldCount(receipts: seq<RoleReceipt>, generation: U64, logSet: U16, version: U64): nat {
    if receipts == [] then 0
    else
      var n := |receipts| - 1;
      HoldCount(receipts[..n], generation, logSet, version)
      + (if Counted(receipts[n], generation, logSet) && version in receipts[n].versions then 1 else 0)
  }

  /** A prefix of a growing chain has reached a version of the chain exactly when it holds it. */
  lemma PrefixReachesIffHolds(versions: seq<U64>, chain: seq<U64>, k: nat)
    requires versions <= chain && k < |chain|
    requires forall i, j :: 0 <= i < j < |chain| ==> chain[i] < chain[j]
    ensures versions != [] && versions[|versions| - 1] >= chain[k] <==> chain[k] in versions
  {
    if k < |versions| {
      assert versions[k] == chain[k];
    }
  }

  lemma {:induction false} HoldIsReach(
    receipts: seq<RoleReceipt>, chain: seq<U64>, generation: U64, logSet: U16, k: nat)
    requires PrefixReceipts(receipts, chain, generation) && k < |chain| && (logSet == 10 || logSet == 20)
    requires forall i, j :: 0 <= i < j < |chain| ==> chain[i] < chain[j]
    ensures HoldCount(receipts, generation, logSet, chain[k]) == ReachCount(receipts, generation, logSet, chain[k])
    decreases |receipts|
  {
    if receipts != [] {
      var n := |receipts| - 1;
      HoldIsReach(receipts[..n], chain, generation, logSet, k);
      if Counted(receipts[n], generation, logSet) {
        PrefixReachesIffHolds(receipts[n].versions, chain, k);
      }
    }
  }

  /**
  With counted receipts that are prefixes of the ticket chain, a ticket lies at or below the boundary exactly when
  two receipts of each log set hold it: everything up to the boundary is held, and the next ticket is not.
  */
  lemma BoundaryCutsChain(tickets: seq<Ticket>, receipts: seq<RoleReceipt>, generation: U64, chain: seq<U64>, k: nat)
    requires IsTicketChain(chain, tickets, generation) && PrefixReceipts(receipts, chain, generation) && k < |chain|
    ensures chain[k] <= RecoveredBoundary(tickets, receipts, generation) <==>
              && HoldCount(receipts, generation, 10, chain[k]) >= 2
              && HoldCount(receipts, generation, 20, chain[k]) >= 2
  {
    BoundaryIsGreatestReached(tickets, receipts, generation);
    HoldIsReach(receipts, chain, generation, 10, k);
    HoldIsReach(receipts, chain, generation, 20, k);
    var boundary := RecoveredBoundary(tickets, receipts, generation);
    assert chain[k] in TicketVersions(tickets, generation);
    if chain[k] <= boundary {
      ReachShrinks(receipts, generation, 10, chain[k], boundary);
      ReachShrinks(receipts, generation, 20, chain[k], boundary);
    }
  }

  lemma {:induction false} ReachShrinks(receipts: seq<RoleReceipt>, generation: U64, logSet: U16, low: U64, high: U64)
    requires low <= high
    ensures ReachCount(receipts, generation, logSet, high) <= ReachCount(receipts, generation, logSet, low)
  {
    if receipts != [] {
      ReachShrinks(receipts[..|receipts| - 1], generation, logSet, low, high);
    }
  }
}
