/** The serializability witness: a checker over finished transactions, and what its answer means. */
module Witness {
  import opened Keys
  import opened Types
  import opened Ordering
  import opened Serializability

  datatype Read = Read(key: Bytes, value: Option<Bytes>)

  datatype Write = Write(key: Bytes, value: Bytes)

  datatype Plan = Plan(round: U64, identity: Identity, readVersion: U64, observed: seq<Read>, sets: seq<Write>)

  datatype Completed = Completed(plan: Plan, committed: bool, sequence: Option<U64>)

  datatype Verdict = Verdict(
    readObservations: nat, dependenciesChecked: nat, edgesChecked: U64, readsExact: bool, dependenciesExact: bool,
    orderExact: bool)

  predicate Accepts(verdict: Verdict) {
    verdict.readsExact && verdict.dependenciesExact && verdict.orderExact
  }

  // ---- replaying writes ----

  function ApplySets(rows: Rows, sets: seq<Write>): Rows {
    if sets == [] then rows
    else
      var n := |sets| - 1;
      ApplySets(rows, sets[..n])[sets[n].key := sets[n].value]
  }

  method ApplyExpected(sets: seq<Write>, rows: Rows) returns (next: Rows)
    ensures next == ApplySets(rows, sets)
  {
    next := rows;
    for i := 0 to |sets|
      invariant next == ApplySets(rows, sets[..i])
    {
      assert sets[..i + 1][..i] == sets[..i];
      next := next[sets[i].key := sets[i].value];
    }
    assert sets[..|sets|] == sets;
  }

  /** Rows after the transactions that carry a sequence, in list order. */
  function Serial(list: seq<Completed>): Rows {
    if list == [] then map[]
    else
      var n := |list| - 1;
      if list[n].sequence.Some? then ApplySets(Serial(list[..n]), list[n].plan.sets) else Serial(list[..n])
  }

  // ---- committed transactions in sequence order ----

  function CommittedOnly(history: seq<Completed>): seq<Completed> {
    if history == [] then []
    else
      var n := |history| - 1;
      CommittedOnly(history[..n]) + (if history[n].committed then [history[n]] else [])
  }

  /** Sort key: a missing sequence comes before every present one. */
  function SortKey(transaction: Completed): int {
    if transaction.sequence.Some? then transaction.sequence.value else -1
  }

  predicate InOrder(list: seq<Completed>) {
    forall i, j :: 0 <= i < j < |list| ==> SortKey(list[i]) <= SortKey(list[j])
  }

  function InsertStable(sorted: seq<Completed>, transaction: Completed): seq<Completed> {
    if sorted == [] || SortKey(sorted[|sorted| - 1]) <= SortKey(transaction) then sorted + [transaction]
    else
      var n := |sorted| - 1;
      InsertStable(sorted[..n], transaction) + [sorted[n]]
  }

  /** The stable sort by commit sequence. */
  function SortBySequence(list: seq<Completed>): seq<Completed> {
    if list == [] then []
    else
      var n := |list| - 1;
      InsertStable(SortBySequence(list[..n]), list[n])
  }

  lemma {:induction false} InsertKeepsElements(sorted: seq<Completed>, transaction: Completed)
    ensures multiset(InsertStable(sorted, transaction)) == multiset(sorted) + multiset{transaction}
  {
    if sorted != [] {
      var n := |sorted| - 1;
      InsertKeepsElements(sorted[..n], transaction);
      assert sorted == sorted[..n] + [sorted[n]];
    }
  }

  lemma {:induction false} InsertMembers(sorted: seq<Completed>, transaction: Completed, x: Completed)
    requires x in InsertStable(sorted, transaction)
    ensures x == transaction || x in sorted
  {
    if sorted != [] {
      var n := |sorted| - 1;
      if x in InsertStable(sorted[..n], transaction) {
        InsertMembers(sorted[..n], transaction, x);
      }
    }
  }

  lemma {:induction false} InsertKeepsOrder(sorted: seq<Completed>, transaction: Completed)
    requires InOrder(sorted)
    ensures InOrder(InsertStable(sorted, transaction))
  {
    if sorted != [] && SortKey(sorted[|sorted| - 1]) > SortKey(transaction) {
      var n := |sorted| - 1;
      var front := InsertStable(sorted[..n], transaction);
      InsertKeepsOrder(sorted[..n], transaction);
      forall i | 0 <= i < |front|
        ensures SortKey(front[i]) <= SortKey(sorted[n])
      {
        InsertMembers(sorted[..n], transaction, front[i]);
      }
    }
  }

  lemma EmptyInOrder()
    ensures InOrder([])
  {
  }

  /** Sorting orders the list and keeps every element. */
  lemma {:induction false} SortSorts(list: seq<Completed>)
    ensures InOrder(SortBySequence(list)) && multiset(SortBySequence(list)) == multiset(list)
  {
    hide InsertStable, InOrder;
    if list == [] {
      EmptyInOrder();
    } else {
      var n := |list| - 1;
      SortSorts(list[..n]);
      InsertKeepsOrder(SortBySequence(list[..n]), list[n]);
      InsertKeepsElements(SortBySequence(list[..n]), list[n]);
      assert list == list[..n] + [list[n]];
    }
  }

  function SerialOrder(history: seq<Completed>): seq<Completed> {
    SortBySequence(CommittedOnly(history))
  }

  // ---- snapshots ----

  /** The rows kept under 0 and under each commit sequence. */
  function Snapshots(list: seq<Completed>): map<U64, Rows> {
    if list == [] then map[0 := map[]]
    else
      var n := |list| - 1;
      if list[n].sequence.Some? then Snapshots(list[..n])[list[n].sequence.value := Serial(list)]
      else Snapshots(list[..n])
  }

  /** The last snapshot at or below a version. */
  predicate IsLatest(snapshots: map<U64, Rows>, version: U64, sequence: U64) {
    && sequence in snapshots
    && sequence <= version
    && forall other :: other in snapshots && other <= version ==> other <= sequence
  }

  lemma {:induction false} LatestExists(keys: set<U64>, version: U64) returns (sequence: U64)
    requires exists key :: key in keys && key <= version
    ensures sequence in keys && sequence <= version
    ensures forall other :: other in keys && other <= version ==> other <= sequence
    decreases keys
  {
    sequence :| sequence in keys && sequence <= version;
    if other :| other in keys && other <= version && other > sequence {
      var dropped := sequence;
      assert other in keys - {dropped};
      sequence := LatestExists(keys - {dropped}, version);
      assert sequence >= other > dropped;
      assert forall x :: x in keys && x <= version ==> x == dropped || x in keys - {dropped};
    }
  }

  predicate ReadsAgree(rows: Rows, observed: seq<Read>) {
    forall i :: 0 <= i < |observed| ==> Lookup(rows, observed[i].key) == observed[i].value
  }

  /** Every observed value is the one in the last snapshot at or below the read version. */
  predicate ReadsExact(snapshots: map<U64, Rows>, transaction: Completed) {
    exists sequence ::
      IsLatest(snapshots, transaction.plan.readVersion, sequence)
      && ReadsAgree(snapshots[sequence], transaction.plan.observed)
  }

  // ---- dependencies and rounds ----

  predicate WritesRead(other: Completed, transaction: Completed) {
    exists i, j ::
      && 0 <= i < |transaction.plan.observed|
      && 0 <= j < |other.plan.sets|
      && other.plan.sets[j].key == transaction.plan.observed[i].key
  }

  /** `other` committed between the read version and the commit, and wrote something that was read. */
  predicate Intervenes(other: Completed, transaction: Completed) {
    && transaction.sequence.Some?
    && other.sequence.Some?
    && transaction.plan.readVersion < other.sequence.value < transaction.sequence.value
    && WritesRead(other, transaction)
  }

  predicate DependenciesExact(list: seq<Completed>, transaction: Completed) {
    transaction.sequence.Some? && forall k :: 0 <= k < |list| ==> !Intervenes(list[k], transaction)
  }

  /** An earlier round commits at a smaller sequence. */
  predicate RoundsOrdered(earlier: Completed, later: Completed) {
    earlier.plan.round < later.plan.round ==> SortKey(earlier) < SortKey(later)
  }

  predicate AllReadsExact(history: seq<Completed>) {
    forall i :: 0 <= i < |history| ==> ReadsExact(Snapshots(SerialOrder(history)), history[i])
  }

  predicate AllDependenciesExact(list: seq<Completed>) {
    forall i :: 0 <= i < |list| ==> DependenciesExact(list, list[i])
  }

  predicate AllRoundsOrdered(list: seq<Completed>) {
    forall i, j :: 0 <= i < |list| && 0 <= j < |list| ==> RoundsOrdered(list[i], list[j])
  }

  /** What it takes for the checker to accept a history. */
  predicate Accepted(history: seq<Completed>) {
    && AllReadsExact(history)
    && AllDependenciesExact(SerialOrder(history))
    && AllRoundsOrdered(SerialOrder(history))
  }

  function TotalReads(list: seq<Completed>): nat {
    if list == [] then 0 else TotalReads(list[..|list| - 1]) + |list[|list| - 1].plan.observed|
  }

  /** Pairs with the first `n` transactions in which `earlier` has the smaller round. */
  function EdgesFrom(list: seq<Completed>, earlier: Completed, n: nat): nat
    requires n <= |list|
  {
    if n == 0 then 0
    else EdgesFrom(list, earlier, n - 1) + (if earlier.plan.round < list[n - 1].plan.round then 1 else 0)
  }

  function Edges(list: seq<Completed>, n: nat): nat
    requires n <= |list|
  {
    if n == 0 then 0 else Edges(list, n - 1) + EdgesFrom(list, list[n - 1], |list|)
  }

  function Capped(n: nat): U64 {
    if n <= U64_MAX then n else U64_MAX
  }

  // ---- the checker ----

  method TakeSnapshots(list: seq<Completed>) returns (snapshots: map<U64, Rows>)
    ensures snapshots == Snapshots(list)
  {
    var state: Rows := map[];
    snapshots := map[0 := state];
    for i := 0 to |list|
      invariant state == Serial(list[..i])
      invariant snapshots == Snapshots(list[..i])
    {
      assert list[..i + 1][..i] == list[..i];
      if list[i].sequence.Some? {
        state := ApplyExpected(list[i].plan.sets, state);
        snapshots := snapshots[list[i].sequence.value := state];
      }
    }
    assert list[..|list|] == list;
  }

  lemma LatestIsOne(snapshots: map<U64, Rows>, version: U64, first: U64, second: U64)
    requires IsLatest(snapshots, version, first) && IsLatest(snapshots, version, second)
    ensures first == second
  {
  }

  /** Look up the last snapshot at or below the read version and compare every observed value. */
  method CheckReadsOf(transaction: Completed, snapshots: map<U64, Rows>) returns (exact: bool)
    requires 0 in snapshots
    ensures exact <==> ReadsExact(snapshots, transaction)
  {
    hide ReadsAgree;
    var version := transaction.plan.readVersion;
    ghost var found := LatestExists(snapshots.Keys, version);
    assert IsLatest(snapshots, version, found);
    var latest :| latest in snapshots && IsLatest(snapshots, version, latest);
    exact := ReadsAgree(snapshots[latest], transaction.plan.observed);
    if ReadsExact(snapshots, transaction) {
      ghost var sequence :| IsLatest(snapshots, version, sequence)
        && ReadsAgree(snapshots[sequence], transaction.plan.observed);
      LatestIsOne(snapshots, version, latest, sequence);
    }
  }

  method CheckReads(history: seq<Completed>, snapshots: map<U64, Rows>) returns (exact: bool)
    requires 0 in snapshots
    ensures exact <==> forall i :: 0 <= i < |history| ==> ReadsExact(snapshots, history[i])
  {
    hide ReadsExact;
    for i := 0 to |history|
      invariant forall j :: 0 <= j < i ==> ReadsExact(snapshots, history[j])
    {
      var agrees := CheckReadsOf(history[i], snapshots);
      if !agrees {
        return false;
      }
    }
    return true;
  }

  method CheckDependencies(list: seq<Completed>) returns (exact: bool)
    ensures exact <==> AllDependenciesExact(list)
  {
    for i := 0 to |list|
      invariant forall j :: 0 <= j < i ==> DependenciesExact(list, list[j])
    {
      if list[i].sequence.None? {
        return false;
      }
      for k := 0 to |list|
        invariant forall j :: 0 <= j < k ==> !Intervenes(list[j], list[i])
      {
        if Intervenes(list[k], list[i]) {
          return false;
        }
      }
    }
    return true;
  }

  method CheckRounds(list: seq<Completed>) returns (edges: U64, ordered: bool)
    ensures edges == Capped(Edges(list, |list|))
    ensures ordered <==> AllRoundsOrdered(list)
  {
    edges, ordered := 0, true;
    for i := 0 to |list|
      invariant edges == Capped(Edges(list, i))
      invariant ordered <==> forall k, j :: 0 <= k < i && 0 <= j < |list| ==> RoundsOrdered(list[k], list[j])
    {
      ghost var before := ordered;
      for j := 0 to |list|
        invariant edges == Capped(Edges(list, i) + EdgesFrom(list, list[i], j))
        invariant ordered <==> before && forall k :: 0 <= k < j ==> RoundsOrdered(list[i], list[k])
      {
        if list[i].plan.round < list[j].plan.round {
          edges := SaturatingAdd(edges, 1);
          ordered := ordered && SortKey(list[i]) < SortKey(list[j]);
        }
      }
    }
  }

  method CountReads(list: seq<Completed>) returns (total: nat)
    ensures total == TotalReads(list)
  {
    total := 0;
    for i := 0 to |list|
      invariant total == TotalReads(list[..i])
    {
      assert list[..i + 1][..i] == list[..i];
      total := total + |list[i].plan.observed|;
    }
    assert list[..|list|] == list;
  }

  /** The whole checker, against the three properties it decides. */
  method CheckSerializability(history: seq<Completed>) returns (verdict: Verdict)
    ensures verdict.readObservations == TotalReads(history)
    ensures verdict.dependenciesChecked == TotalReads(SerialOrder(history))
    ensures verdict.edgesChecked == Capped(Edges(SerialOrder(history), |SerialOrder(history)|))
    ensures verdict.readsExact <==> AllReadsExact(history)
    ensures verdict.dependenciesExact <==> AllDependenciesExact(SerialOrder(history))
    ensures verdict.orderExact <==> AllRoundsOrdered(SerialOrder(history))
    ensures Accepts(verdict) <==> Accepted(history)
  {
    var list := SerialOrder(history);
    var snapshots := TakeSnapshots(list);
    ZeroIsKept(list);
    var observations := CountReads(history);
    var dependencies := CountReads(list);
    var readsExact := CheckReads(history, snapshots);
    var dependenciesExact := CheckDependencies(list);
    var edges, ordered := CheckRounds(list);
    verdict := Verdict(observations, dependencies, edges, readsExact, dependenciesExact, ordered);
  }

  lemma {:induction false} ZeroIsKept(list: seq<Completed>)
    ensures 0 in Snapshots(list)
  {
    if list != [] {
      ZeroIsKept(list[..|list| - 1]);
    }
  }

  // ---- what acceptance means ----

  /** Commit sequences are positive and all different, and lie above their read versions. */
  predicate WellNumbered(history: seq<Completed>) {
    && (forall i :: 0 <= i < |history| && history[i].committed ==>
          && history[i].sequence.Some?
          && history[i].sequence.value > 0
          && history[i].plan.readVersion < history[i].sequence.value)
    && forall i, j :: 0 <= i < j < |history| && history[i].committed && history[j].committed ==>
         history[i].sequence != history[j].sequence
  }

  /** The committed transactions in sequence order, each strictly above the one before. */
  predicate StrictlyNumbered(list: seq<Completed>) {
    && (forall i :: 0 <= i < |list| ==> list[i].sequence.Some? && list[i].sequence.value > 0)
    && forall i, j :: 0 <= i < j < |list| ==> list[i].sequence.value < list[j].sequence.value
  }

  /** Replayed one after the other, each transaction sees exactly what it observed. */
  predicate ReplaysSerially(list: seq<Completed>) {
    forall k :: 0 <= k < |list| ==> ReadsAgree(Serial(list[..k]), list[k].plan.observed)
  }

  /** A later round never comes before an earlier one. */
  predicate RespectsRounds(list: seq<Completed>) {
    forall i, j :: 0 <= i < j < |list| ==> list[i].plan.round <= list[j].plan.round
  }

  lemma {:induction false} ApplySetsMisses(rows: Rows, sets: seq<Write>, key: Bytes)
    requires forall i :: 0 <= i < |sets| ==> sets[i].key != key
    ensures Lookup(ApplySets(rows, sets), key) == Lookup(rows, key)
  {
    if sets != [] {
      ApplySetsMisses(rows, sets[..|sets| - 1], key);
    }
  }

  /** A key nobody writes from `from` on has the same value at the end. */
  lemma {:induction false} SerialMisses(list: seq<Completed>, from: nat, upTo: nat, key: Bytes)
    requires from <= upTo <= |list|
    requires forall k, j :: from <= k < upTo && 0 <= j < |list[k].plan.sets| ==> list[k].plan.sets[j].key != key
    ensures Lookup(Serial(list[..upTo]), key) == Lookup(Serial(list[..from]), key)
    decreases upTo
  {
    if from < upTo {
      SerialMisses(list, from, upTo - 1, key);
      assert list[..upTo][..upTo - 1] == list[..upTo - 1];
      ApplySetsMisses(Serial(list[..upTo - 1]), list[upTo - 1].plan.sets, key);
    }
  }

  /** With strictly growing sequences the last snapshot at a version is the replay of everything up to it. */
  lemma {:induction false} SnapshotIsReplay(list: seq<Completed>, version: U64, sequence: U64, cut: nat)
    requires StrictlyNumbered(list) && cut <= |list|
    requires forall k :: 0 <= k < |list| ==> (list[k].sequence.value <= version <==> k < cut)
    requires IsLatest(Snapshots(list), version, sequence)
    ensures Snapshots(list)[sequence] == Serial(list[..cut])
  {
    SnapshotKeys(list);
    if cut == 0 {
      SnapshotValues(list, 0);
    } else {
      SnapshotValues(list, cut);
      assert list[cut - 1].sequence.value in Snapshots(list);
    }
  }

  lemma {:induction false} SnapshotKeys(list: seq<Completed>)
    requires StrictlyNumbered(list)
    ensures forall sequence :: sequence in Snapshots(list) <==>
              sequence == 0 || exists k :: 0 <= k < |list| && list[k].sequence.value == sequence
  {
    if list != [] {
      var n := |list| - 1;
      SnapshotKeys(list[..n]);
      forall sequence | sequence in Snapshots(list)
        ensures sequence == 0 || exists k :: 0 <= k < |list| && list[k].sequence.value == sequence
      {
        if sequence != list[n].sequence.value && sequence != 0 {
          assert sequence in Snapshots(list[..n]);
          var k :| 0 <= k < |list[..n]| && list[..n][k].sequence.value == sequence;
          assert list[k].sequence.value == sequence;
        }
      }
      forall k | 0 <= k < |list|
        ensures list[k].sequence.value in Snapshots(list)
      {
        if k < n {
          assert list[..n][k].sequence.value in Snapshots(list[..n]);
        }
      }
    }
  }

  /** The snapshot under the `cut`-th sequence, or under 0, is the replay of the first `cut` transactions. */
  lemma {:induction false} SnapshotValues(list: seq<Completed>, cut: nat)
    requires StrictlyNumbered(list) && cut <= |list|
    ensures var sequence := if cut == 0 then 0 else list[cut - 1].sequence.value;
            sequence in Snapshots(list) && Snapshots(list)[sequence] == Serial(list[..cut])
  {
    if list != [] {
      var n := |list| - 1;
      if cut <= n {
        SnapshotValues(list[..n], cut);
        assert list[..n][..cut] == list[..cut];
      } else {
        assert list[..cut] == list;
      }
    }
  }

  lemma {:induction false} Cut(list: seq<Completed>, version: U64) returns (cut: nat)
    requires StrictlyNumbered(list)
    ensures cut <= |list|
    ensures forall k :: 0 <= k < |list| ==> (list[k].sequence.value <= version <==> k < cut)
  {
    if list == [] || list[|list| - 1].sequence.value <= version {
      cut := |list|;
    } else {
      cut := Cut(list[..|list| - 1], version);
    }
  }

  lemma NothingIntervenes(list: seq<Completed>, k: nat, cut: nat, i: nat)
    requires StrictlyNumbered(list) && k < |list| && DependenciesExact(list, list[k])
    requires forall m :: 0 <= m < |list| ==> (list[m].sequence.value <= list[k].plan.readVersion <==> m < cut)
    requires i < |list[k].plan.observed|
    ensures forall m, j :: cut <= m < k && 0 <= j < |list[m].plan.sets| ==>
              list[m].plan.sets[j].key != list[k].plan.observed[i].key
  {
    forall m, j | cut <= m < k && 0 <= j < |list[m].plan.sets|
      ensures list[m].plan.sets[j].key != list[k].plan.observed[i].key
    {
      assert !Intervenes(list[m], list[k]);
    }
  }

  /** What was observed at the read version still holds at the commit, when nothing read was overwritten between. */
  lemma ReadsHoldAtCommit(list: seq<Completed>, k: nat)
    requires StrictlyNumbered(list) && k < |list| && list[k].plan.readVersion < list[k].sequence.value
    requires ReadsExact(Snapshots(list), list[k]) && DependenciesExact(list, list[k])
    ensures ReadsAgree(Serial(list[..k]), list[k].plan.observed)
  {
    var transaction := list[k];
    var version := transaction.plan.readVersion;
    var cut := Cut(list, version);
    var sequence :| IsLatest(Snapshots(list), version, sequence)
      && ReadsAgree(Snapshots(list)[sequence], transaction.plan.observed);
    SnapshotIsReplay(list, version, sequence, cut);
    assert cut <= k;
    forall i | 0 <= i < |transaction.plan.observed|
      ensures Lookup(Serial(list[..k]), transaction.plan.observed[i].key) == transaction.plan.observed[i].value
    {
      NothingIntervenes(list, k, cut, i);
      SerialMisses(list, cut, k, transaction.plan.observed[i].key);
    }
  }

  // ---- sorting different sequences ----

  predicate KeysDiffer(list: seq<Completed>) {
    forall i, j :: 0 <= i < j < |list| ==> SortKey(list[i]) != SortKey(list[j])
  }

  predicate StrictOrder(list: seq<Completed>) {
    forall i, j :: 0 <= i < j < |list| ==> SortKey(list[i]) < SortKey(list[j])
  }

  lemma {:induction false} InsertKeepsStrict(sorted: seq<Completed>, transaction: Completed)
    requires StrictOrder(sorted)
    requires forall i :: 0 <= i < |sorted| ==> SortKey(sorted[i]) != SortKey(transaction)
    ensures StrictOrder(InsertStable(sorted, transaction))
  {
    if sorted != [] && SortKey(sorted[|sorted| - 1]) > SortKey(transaction) {
      var n := |sorted| - 1;
      var front := InsertStable(sorted[..n], transaction);
      InsertKeepsStrict(sorted[..n], transaction);
      forall i | 0 <= i < |front|
        ensures SortKey(front[i]) < SortKey(sorted[n])
      {
        InsertMembers(sorted[..n], transaction, front[i]);
      }
    }
  }

  lemma {:induction false} SortIsStrict(list: seq<Completed>)
    requires KeysDiffer(list)
    ensures StrictOrder(SortBySequence(list))
  {
    if list != [] {
      var n := |list| - 1;
      var sorted := SortBySequence(list[..n]);
      SortIsStrict(list[..n]);
      SortSorts(list[..n]);
      forall i | 0 <= i < |sorted|
        ensures SortKey(sorted[i]) != SortKey(list[n])
      {
        assert sorted[i] in multiset(sorted);
        var k :| 0 <= k < n && list[..n][k] == sorted[i];
        assert list[k] == sorted[i];
      }
      InsertKeepsStrict(sorted, list[n]);
    }
  }

  lemma {:induction false} CommittedMembers(history: seq<Completed>)
    ensures forall x :: x in CommittedOnly(history) <==> x in history && x.committed
  {
    if history != [] {
      var n := |history| - 1;
      CommittedMembers(history[..n]);
      assert history == history[..n] + [history[n]];
    }
  }

  lemma {:induction false} CommittedKeysDiffer(history: seq<Completed>)
    requires WellNumbered(history)
    ensures KeysDiffer(CommittedOnly(history))
  {
    if history != [] {
      var n := |history| - 1;
      var front := CommittedOnly(history[..n]);
      CommittedKeysDiffer(history[..n]);
      CommittedMembers(history[..n]);
      forall i | 0 <= i < |front| && history[n].committed
        ensures SortKey(front[i]) != SortKey(history[n])
      {
        assert front[i] in front;
        var k :| 0 <= k < n && history[..n][k] == front[i];
        assert history[k] == front[i];
      }
    }
  }

  lemma SerialOrderMembers(history: seq<Completed>)
    ensures forall x :: x in SerialOrder(history) <==> x in history && x.committed
  {
    var list, committed := SerialOrder(history), CommittedOnly(history);
    SortSorts(committed);
    CommittedMembers(history);
    forall x
      ensures x in list <==> x in committed
    {
      assert x in multiset(list) <==> x in multiset(committed);
    }
  }

  /** Sorting a well-numbered history makes its committed transactions strictly numbered. */
  lemma SerialOrderIsStrict(history: seq<Completed>)
    requires WellNumbered(history)
    ensures StrictlyNumbered(SerialOrder(history))
  {
    var list, committed := SerialOrder(history), CommittedOnly(history);
    CommittedKeysDiffer(history);
    SortIsStrict(committed);
    SerialOrderMembers(history);
    forall i | 0 <= i < |list|
      ensures list[i].sequence.Some? && list[i].sequence.value > 0
    {
      assert list[i] in list;
      var k :| 0 <= k < |history| && history[k] == list[i];
    }
    forall i, j | 0 <= i < j < |list|
      ensures list[i].sequence.value < list[j].sequence.value
    {
      assert SortKey(list[i]) < SortKey(list[j]);
    }
  }

  /**
  Soundness. When the checker accepts a well-numbered history, replaying its committed transactions one
  after the other in sequence order gives each of them exactly the values it observed, and rounds in order.
  */
  lemma AcceptedHistoryIsSerializable(history: seq<Completed>)
    requires WellNumbered(history)
    requires Accepted(history)
    ensures ReplaysSerially(SerialOrder(history)) && RespectsRounds(SerialOrder(history))
  {
    var list := SerialOrder(history);
    SerialOrderIsStrict(history);
    SerialOrderMembers(history);
    hide SerialOrder, ReadsExact, DependenciesExact;
    forall k | 0 <= k < |list|
      ensures ReadsAgree(Serial(list[..k]), list[k].plan.observed)
    {
      assert list[k] in list;
      var i :| 0 <= i < |history| && history[i] == list[k];
      assert ReadsExact(Snapshots(list), history[i]);
      ReadsHoldAtCommit(list, k);
    }
    forall i, j | 0 <= i < j < |list|
      ensures list[i].plan.round <= list[j].plan.round
    {
      assert RoundsOrdered(list[j], list[i]);
    }
  }
}
