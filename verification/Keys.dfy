/** Byte strings under the lexicographic order of Rust slices, and half-open key ranges. */
module Keys {

  type Byte = b: nat | b < 256

  type Bytes = seq<Byte>

  /** Strict lexicographic order; a proper prefix comes first. */
  predicate Less(a: Bytes, b: Bytes)
    decreases |a|
  {
    b != [] && (a == [] || a[0] < b[0] || (a[0] == b[0] && Less(a[1..], b[1..])))
  }

  predicate AtMost(a: Bytes, b: Bytes) {
    !Less(b, a)
  }

  function Max(a: Bytes, b: Bytes): Bytes {
    if Less(a, b) then b else a
  }

  function Min(a: Bytes, b: Bytes): Bytes {
    if Less(b, a) then b else a
  }

  lemma {:induction false} LessTransitive(a: Bytes, b: Bytes, c: Bytes)
    requires Less(a, b) && Less(b, c)
    ensures Less(a, c)
    decreases |a|
  {
    if a != [] && a[0] == b[0] == c[0] {
      LessTransitive(a[1..], b[1..], c[1..]);
    }
  }

  lemma {:induction false} LessIrreflexive(a: Bytes)
    ensures !Less(a, a)
    decreases |a|
  {
    if a != [] {
      LessIrreflexive(a[1..]);
    }
  }

  lemma {:induction false} LessTotal(a: Bytes, b: Bytes)
    ensures Less(a, b) || a == b || Less(b, a)
    decreases |a|
  {
    if a != [] && b != [] && a[0] == b[0] {
      LessTotal(a[1..], b[1..]);
      assert a == [a[0]] + a[1..] && b == [b[0]] + b[1..];
    }
  }

  /** The order laws, packaged for three strings: `<=` followed by `<` is `<`, either way round. */
  lemma AtMostLess(a: Bytes, b: Bytes, c: Bytes)
    ensures AtMost(a, b) && Less(b, c) ==> Less(a, c)
    ensures Less(a, b) && AtMost(b, c) ==> Less(a, c)
  {
    LessTotal(a, b);
    LessTotal(b, c);
    if AtMost(a, b) && Less(b, c) && a != b {
      LessTransitive(a, b, c);
    }
    if Less(a, b) && AtMost(b, c) && b != c {
      LessTransitive(a, b, c);
    }
  }

  lemma MinMaxLaws(a: Bytes, b: Bytes, c: Bytes)
    ensures Less(Max(a, b), c) <==> Less(a, c) && Less(b, c)
    ensures Less(c, Min(a, b)) <==> Less(c, a) && Less(c, b)
    ensures AtMost(Max(a, b), c) <==> AtMost(a, c) && AtMost(b, c)
  {
    LessTotal(a, b);
    if Less(a, b) {
      LessAsymmetric(a, b);
      AboveSmaller(a, b, c);
    } else if Less(b, a) {
      AboveSmaller(b, a, c);
    }
  }

  lemma AboveSmaller(small: Bytes, large: Bytes, c: Bytes)
    requires Less(small, large)
    ensures Less(large, c) ==> Less(small, c)
    ensures Less(c, small) ==> Less(c, large)
  {
    if Less(large, c) {
      LessTransitive(small, large, c);
    }
    if Less(c, small) {
      LessTransitive(c, small, large);
    }
  }

  lemma LessAsymmetric(a: Bytes, b: Bytes)
    requires Less(a, b)
    ensures !Less(b, a)
  {
    if Less(b, a) {
      LessTransitive(a, b, a);
      LessIrreflexive(a);
    }
  }

  datatype KeyRange = KeyRange(start: Bytes, end: Bytes)

  /** The smallest range holding one key: it ends at the key's immediate successor. */
  function Point(key: Bytes): KeyRange {
    KeyRange(key, key + [0])
  }

  predicate Valid(range: KeyRange) {
    Less(range.start, range.end)
  }

  predicate Contains(range: KeyRange, key: Bytes) {
    AtMost(range.start, key) && Less(key, range.end)
  }

  predicate Overlaps(a: KeyRange, b: KeyRange) {
    Less(a.start, b.end) && Less(b.start, a.end)
  }

  /** Some read range overlaps some write range. */
  predicate AnyOverlap(readRanges: seq<KeyRange>, writeRanges: seq<KeyRange>) {
    exists i, j :: 0 <= i < |readRanges| && 0 <= j < |writeRanges| && Overlaps(readRanges[i], writeRanges[j])
  }

  /** Two ranges that hold a common key overlap: the half that conflict detection relies on. */
  lemma SharedKeyOverlaps(a: KeyRange, b: KeyRange, key: Bytes)
    requires Contains(a, key) && Contains(b, key)
    ensures Overlaps(a, b)
  {
    AtMostLess(a.start, key, b.end);
    AtMostLess(b.start, key, a.end);
  }

  /** For non-empty ranges the bound comparison is exactly "some key lies in both". */
  lemma OverlapsIffSharedKey(a: KeyRange, b: KeyRange)
    requires Valid(a) && Valid(b)
    ensures Overlaps(a, b) <==> exists key :: Contains(a, key) && Contains(b, key)
  {
    if Overlaps(a, b) {
      var key := Max(a.start, b.start);
      LessIrreflexive(key);
      LessTotal(a.start, b.start);
      assert Contains(a, key) && Contains(b, key) by {
        if Less(a.start, b.start) {
          AtMostLess(b.start, b.start, a.start);
          if Less(b.start, a.start) {
            LessTransitive(a.start, b.start, a.start);
            LessIrreflexive(a.start);
          }
        }
      }
    }
    forall key | Contains(a, key) && Contains(b, key)
      ensures Overlaps(a, b)
    {
      SharedKeyOverlaps(a, b, key);
    }
  }

  lemma {:induction false} SuccessorIsImmediate(key: Bytes, other: Bytes)
    ensures Less(key, key + [0])
    ensures Less(key, other) ==> AtMost(key + [0], other)
    decreases |key|
  {
    if key == [] {
    } else {
      assert (key + [0])[1..] == key[1..] + [0];
      SuccessorIsImmediate(key[1..], if other == [] then [] else other[1..]);
    }
  }

  /** A point range is valid and holds exactly its key. */
  lemma PointHoldsOnlyItsKey(key: Bytes, other: Bytes)
    ensures Valid(Point(key))
    ensures Contains(Point(key), other) <==> other == key
  {
    SuccessorIsImmediate(key, other);
    LessIrreflexive(key);
    LessTotal(key, other);
  }
}
