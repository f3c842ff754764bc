/** Finite sets and duplicate-free lists: counting, splitting, and when large subsets must meet. */
module Sets {

  predicate Distinct<T(==)>(xs: seq<T>) {
    forall i, j :: 0 <= i < j < |xs| ==> xs[i] != xs[j]
  }

  function Elements<T>(xs: seq<T>): set<T> {
    set x | x in xs
  }

  /** A list has as many elements as entries exactly when it repeats none. */
  lemma {:induction false} DistinctIffCounted<T>(xs: seq<T>)
    ensures |Elements(xs)| <= |xs|
    ensures Distinct(xs) <==> |Elements(xs)| == |xs|
  {
    if xs == [] {
      assert Elements(xs) == {};
    } else {
      var n := |xs| - 1;
      var front, last := xs[..n], xs[n];
      DistinctIffCounted(front);
      assert xs == front + [last];
      assert Elements(xs) == Elements(front) + {last};
      if last in front {
        var j :| 0 <= j < n && front[j] == last;
        assert xs[j] == xs[n];
        assert Elements(xs) == Elements(front);
      }
    }
  }

  /** Two sets too large to be disjoint inside a third share an element. */
  lemma LargeSubsetsMeet<T>(a: set<T>, b: set<T>, whole: set<T>)
    requires a <= whole && b <= whole && |a| + |b| > |whole|
    ensures a * b != {}
  {
    Cardinality(a + b, whole);
    assert |a + b| == |a| + |b| - |a * b|;
  }

  lemma {:induction false} Cardinality<T>(part: set<T>, whole: set<T>)
    requires part <= whole
    ensures |part| <= |whole|
    decreases |part|
  {
    if x :| x in part {
      Cardinality(part - {x}, whole - {x});
    }
  }

  /** A set splits off a subset of any smaller size. */
  lemma {:induction false} SubsetOfSize<T>(whole: set<T>, size: nat) returns (part: set<T>)
    requires size <= |whole|
    ensures part <= whole && |part| == size
    decreases size
  {
    if size == 0 {
      part := {};
    } else {
      part := SubsetOfSize(whole, size - 1);
      Cardinality(part, whole);
      assert whole - part != {} by {
        assert |whole - part| == |whole| - |part * whole|;
        assert part * whole == part;
      }
      var x :| x in whole - part;
      part := part + {x};
    }
  }

  ghost predicate QuorumsIntersect<T(!new)>(members: set<T>, quorum: nat) {
    forall a: set<T>, b: set<T> :: a <= members && b <= members && |a| >= quorum && |b| >= quorum ==> a * b != {}
  }

  /** Subsets of a given size are bound to meet exactly when the size is a majority. */
  lemma QuorumsIntersectIffMajority<T(!new)>(members: set<T>, quorum: nat)
    requires quorum <= |members|
    ensures QuorumsIntersect(members, quorum) <==> 2 * quorum > |members|
  {
    if 2 * quorum > |members| {
      forall a: set<T>, b: set<T> | a <= members && b <= members && |a| >= quorum && |b| >= quorum
        ensures a * b != {}
      {
        LargeSubsetsMeet(a, b, members);
      }
    } else {
      var a := SubsetOfSize(members, quorum);
      assert |members - a| == |members| - quorum by {
        assert a * members == a;
      }
      var b := SubsetOfSize(members - a, quorum);
      assert a <= members && b <= members && a * b == {};
    }
  }

  function CountTrue(marks: seq<bool>): nat {
    if marks == [] then 0 else (if marks[0] then 1 else 0) + CountTrue(marks[1..])
  }

  /** The entries of a list that carry a mark. */
  function Marked<T>(xs: seq<T>, marks: seq<bool>): set<T>
    requires |marks| == |xs|
  {
    set i | 0 <= i < |xs| && marks[i] :: xs[i]
  }

  /** Marks on a list without repetition count different entries. */
  lemma {:induction false} MarksCountEntries<T>(xs: seq<T>, marks: seq<bool>)
    requires |marks| == |xs| && Distinct(xs)
    ensures CountTrue(marks) <= |Marked(xs, marks)|
  {
    if xs != [] {
      var rest := Marked(xs[1..], marks[1..]);
      MarksCountEntries(xs[1..], marks[1..]);
      var here: set<T> := if marks[0] then {xs[0]} else {};
      assert here * rest == {};
      forall x | x in rest
        ensures x in Marked(xs, marks)
      {
        var i :| 0 <= i < |xs[1..]| && marks[1..][i] && xs[1..][i] == x;
        assert xs[i + 1] == x && marks[i + 1];
      }
      Cardinality(rest + here, Marked(xs, marks));
    }
  }
}
