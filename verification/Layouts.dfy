/** Byte layouts: fixed-width fields and length-prefixed ones, read back exactly as they were written. */
module Layouts {
  import opened Keys
  import opened Types

  // ---- big-endian numbers ----

  function Power256(width: nat): nat {
    if width == 0 then 1 else 256 * Power256(width - 1)
  }

  function BigEndian(n: nat, width: nat): (bytes: Bytes)
    ensures |bytes| == width
  {
    if width == 0 then [] else BigEndian(n / 256, width - 1) + [n % 256]
  }

  function FromBigEndian(bytes: Bytes): nat {
    if bytes == [] then 0 else FromBigEndian(bytes[..|bytes| - 1]) * 256 + bytes[|bytes| - 1]
  }

  /** Every number that fits the width comes back from its bytes. */
  lemma {:induction false} NumberRoundTrip(n: nat, width: nat)
    requires n < Power256(width)
    ensures FromBigEndian(BigEndian(n, width)) == n
  {
    if width > 0 {
      NumberRoundTrip(n / 256, width - 1);
      assert BigEndian(n, width)[..width - 1] == BigEndian(n / 256, width - 1);
    }
  }

  /** Every byte string is the bytes of its number, and the number fits the width. */
  lemma {:induction false} BytesRoundTrip(bytes: Bytes)
    ensures FromBigEndian(bytes) < Power256(|bytes|)
    ensures BigEndian(FromBigEndian(bytes), |bytes|) == bytes
  {
    if bytes != [] {
      var n := |bytes| - 1;
      BytesRoundTrip(bytes[..n]);
      assert bytes == bytes[..n] + [bytes[n]];
    }
  }

  lemma Powers()
    ensures Power256(2) == 0x1_0000 && Power256(4) == 0x1_0000_0000
    ensures Power256(8) == U64_MAX + 1
  {
    assert Power256(1) == 256 && Power256(3) == 0x100_0000 && Power256(5) == 0x100_0000_0000;
    assert Power256(6) == 0x1_0000_0000_0000 && Power256(7) == 0x100_0000_0000_0000;
  }

  // ---- one field ----

  /** A field of fixed width, a payload after a four-byte length, or two-byte items after a two-byte count. */
  datatype Field = Fixed(width: nat) | Payload | Pairs

  const U32_MAX: nat := 0xFFFF_FFFF

  predicate Admits(field: Field, value: Bytes) {
    match field
    case Fixed(width) => |value| == width
    case Payload => |value| <= U32_MAX
    case Pairs => |value| % 2 == 0 && |value| / 2 <= 0xFFFF
  }

  function EncodeField(field: Field, value: Bytes): Bytes {
    match field
    case Fixed(_) => value
    case Payload => BigEndian(|value|, 4) + value
    case Pairs => BigEndian(|value| / 2, 2) + value
  }

  /** How many bytes the field's prefix and value take at the front of `bytes`, if they are all there. */
  function Extent(field: Field, bytes: Bytes): (extent: Option<(nat, nat)>)
    ensures extent.Some? ==> extent.value.0 + extent.value.1 <= |bytes|
  {
    match field
    case Fixed(width) => if width <= |bytes| then Some((0, width)) else None
    case Payload =>
      if |bytes| < 4 then None
      else var length := FromBigEndian(bytes[..4]); if 4 + length <= |bytes| then Some((4, length)) else None
    case Pairs =>
      if |bytes| < 2 then None
      else var count := FromBigEndian(bytes[..2]); if 2 + 2 * count <= |bytes| then Some((2, 2 * count)) else None
  }

  lemma FieldRoundTrip(field: Field, value: Bytes, rest: Bytes)
    requires Admits(field, value)
    ensures var bytes := EncodeField(field, value) + rest;
            var extent := Extent(field, bytes);
            && extent.Some?
            && extent.value.0 + extent.value.1 == |EncodeField(field, value)| <= |bytes|
            && bytes[extent.value.0..][..extent.value.1] == value
            && bytes[extent.value.0 + extent.value.1..] == rest
  {
    Powers();
    hide BigEndian, FromBigEndian, Power256;
    var bytes := EncodeField(field, value) + rest;
    match field
    case Fixed(_) =>
    case Payload =>
      NumberRoundTrip(|value|, 4);
      assert bytes[..4] == BigEndian(|value|, 4);
    case Pairs =>
      NumberRoundTrip(|value| / 2, 2);
      assert bytes[..2] == BigEndian(|value| / 2, 2);
  }

  lemma FieldIsExact(field: Field, bytes: Bytes)
    requires Extent(field, bytes).Some?
    ensures var (prefix, length) := Extent(field, bytes).value;
            && prefix + length <= |bytes|
            && Admits(field, bytes[prefix..][..length])
            && bytes == EncodeField(field, bytes[prefix..][..length]) + bytes[prefix + length..]
  {
    Powers();
    var (prefix, length) := Extent(field, bytes).value;
    var value := bytes[prefix..][..length];
    BytesRoundTrip(bytes[..prefix]);
    assert EncodeField(field, value) == bytes[..prefix] + value;
    assert bytes == bytes[..prefix] + value + bytes[prefix + length..];
  }

  // ---- a whole layout ----

  function EncodeAll(layout: seq<Field>, values: seq<Bytes>): Bytes
    requires |values| == |layout|
  {
    if layout == [] then [] else EncodeField(layout[0], values[0]) + EncodeAll(layout[1..], values[1..])
  }

  predicate AllFit(layout: seq<Field>, values: seq<Bytes>) {
    |values| == |layout| && forall i :: 0 <= i < |layout| ==> Admits(layout[i], values[i])
  }

  /** Read the fields one after the other; nothing may be missing and nothing may be left. */
  function ParseAll(layout: seq<Field>, bytes: Bytes): Option<seq<Bytes>>
    decreases |layout|
  {
    if layout == [] then if bytes == [] then Some([]) else None
    else
      match Extent(layout[0], bytes)
      case None => None
      case Some((prefix, length)) =>
        Prepend([bytes[prefix..][..length]], ParseAll(layout[1..], bytes[prefix + length..]))
  }

  function Prepend(taken: seq<Bytes>, rest: Option<seq<Bytes>>): Option<seq<Bytes>> {
    if rest.Some? then Some(taken + rest.value) else None
  }

  /** What was written is read back. */
  lemma {:induction false} LayoutRoundTrip(layout: seq<Field>, values: seq<Bytes>)
    requires AllFit(layout, values)
    ensures ParseAll(layout, EncodeAll(layout, values)) == Some(values)
    decreases |layout|
  {
    if layout != [] {
      assert Admits(layout[0], values[0]);
      LayoutRoundTrip(layout[1..], values[1..]);
      FieldRoundTrip(layout[0], values[0], EncodeAll(layout[1..], values[1..]));
      assert values == [values[0]] + values[1..];
    }
  }

  /** Whatever is read was written that way. */
  lemma {:induction false} LayoutIsExact(layout: seq<Field>, bytes: Bytes)
    requires ParseAll(layout, bytes).Some?
    ensures var values := ParseAll(layout, bytes).value;
            AllFit(layout, values) && bytes == EncodeAll(layout, values)
    decreases |layout|
  {
    if layout != [] {
      var (prefix, length) := Extent(layout[0], bytes).value;
      FieldIsExact(layout[0], bytes);
      LayoutIsExact(layout[1..], bytes[prefix + length..]);
    }
  }

  /** One field of a parse that has reached field `i` at `offset`. */
  lemma ParseStep(layout: seq<Field>, bytes: Bytes, i: nat, offset: nat)
    requires i < |layout| && offset <= |bytes|
    ensures var rest, extent := ParseAll(layout[i..], bytes[offset..]), Extent(layout[i], bytes[offset..]);
            if extent.None? then rest == None
            else
              var (prefix, length) := extent.value;
              rest == Prepend([bytes[offset + prefix..][..length]],
                              ParseAll(layout[i + 1..], bytes[offset + prefix + length..]))
  {
    hide Extent, Prepend;
    assert layout[i..][0] == layout[i] && layout[i..][1..] == layout[i + 1..];
    var extent := Extent(layout[i], bytes[offset..]);
    if extent.Some? {
      var (prefix, length) := extent.value;
      assert bytes[offset..][prefix..] == bytes[offset + prefix..];
      assert bytes[offset..][prefix + length..] == bytes[offset + prefix + length..];
    }
  }

  lemma PrependTwice(taken: seq<Bytes>, value: Bytes, rest: Option<seq<Bytes>>)
    ensures Prepend(taken, Prepend([value], rest)) == Prepend(taken + [value], rest)
  {
    if rest.Some? {
      assert taken + ([value] + rest.value) == (taken + [value]) + rest.value;
    }
  }

  lemma ParseStart(layout: seq<Field>, bytes: Bytes)
    ensures ParseAll(layout, bytes) == Prepend([], ParseAll(layout[0..], bytes[0..]))
  {
    hide ParseAll;
    assert layout[0..] == layout && bytes[0..] == bytes;
    if ParseAll(layout, bytes).Some? {
      assert [] + ParseAll(layout, bytes).value == ParseAll(layout, bytes).value;
    }
  }

  lemma ParseEnd(layout: seq<Field>, bytes: Bytes, offset: nat, taken: seq<Bytes>)
    requires offset <= |bytes|
    ensures Prepend(taken, ParseAll(layout[|layout|..], bytes[offset..]))
            == if offset == |bytes| then Some(taken) else None
  {
    assert layout[|layout|..] == [];
    assert taken + [] == taken;
  }

  /** The reader: an offset moves over the bytes, field by field. */
  method ReadAll(layout: seq<Field>, bytes: Bytes) returns (values: Option<seq<Bytes>>)
    ensures values == ParseAll(layout, bytes)
  {
    hide Extent, ParseAll, Prepend;
    var offset, taken: seq<Bytes> := 0, [];
    ParseStart(layout, bytes);
    for i := 0 to |layout|
      invariant 0 <= offset <= |bytes|
      invariant ParseAll(layout, bytes) == Prepend(taken, ParseAll(layout[i..], bytes[offset..]))
    {
      ParseStep(layout, bytes, i, offset);
      var extent := Extent(layout[i], bytes[offset..]);
      if extent.None? {
        PrependNone(taken);
        return None;
      }
      var (prefix, length) := extent.value;
      var value := bytes[offset + prefix..][..length];
      PrependTwice(taken, value, ParseAll(layout[i + 1..], bytes[offset + prefix + length..]));
      taken := taken + [value];
      offset := offset + prefix + length;
    }
    ParseEnd(layout, bytes, offset, taken);
    return if offset == |bytes| then Some(taken) else None;
  }

  lemma PrependNone(taken: seq<Bytes>)
    ensures Prepend(taken, None) == None
  {
  }
}
