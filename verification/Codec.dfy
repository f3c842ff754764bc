/**
The commit envelope on the wire: a checksummed byte layout. Decoding accepts exactly the encodings of
well-formed envelopes, whatever the digest function.
*/
module Codec {
  import opened Keys
  import opened Types
  import opened Layouts
  import opened Certificates

  datatype Wire = Wire(
    cell: Bytes,
    tenant: Bytes,
    generation: U64,
    versionGeneration: U64,
    versionSequence: U64,
    logIndex: U64,
    client: Bytes,
    request: U64,
    resolverSet: Bytes,
    fingerprint: Bytes,
    readConflicts: Bytes,
    writeConflicts: Bytes,
    mutations: Bytes,
    resolvers: seq<U16>,
    logTags: seq<U16>,
    previousLogChain: Bytes)

  const MAGIC: Bytes := [0x4f, 0x4b, 0x56, 0x43]

  const CODEC_VERSION: nat := 1

  const LAYOUT: seq<Field> := [
    Fixed(4), Fixed(2), Fixed(4), Fixed(16), Fixed(16), Fixed(8), Fixed(8), Fixed(8), Fixed(8), Fixed(16), Fixed(8),
    Fixed(16), Fixed(32), Payload, Payload, Payload, Pairs, Pairs, Fixed(32)]

  // ---- lists of two-byte numbers ----

  function PairBytes(values: seq<U16>): (bytes: Bytes)
    ensures |bytes| == 2 * |values|
  {
    if values == [] then [] else PairBytes(values[..|values| - 1]) + BigEndian(values[|values| - 1], 2)
  }

  function FromPairs(bytes: Bytes): (values: seq<U16>)
    requires |bytes| % 2 == 0
    ensures 2 * |values| == |bytes|
  {
    if bytes == [] then []
    else
      var n := |bytes| - 2;
      PairIsU16(bytes[n..]);
      FromPairs(bytes[..n]) + [FromBigEndian(bytes[n..])]
  }

  lemma PairIsU16(bytes: Bytes)
    requires |bytes| == 2
    ensures FromBigEndian(bytes) <= 0xFFFF
  {
    BytesRoundTrip(bytes);
    Powers();
  }

  lemma OneMorePair(front: Bytes, value: U16)
    requires |front| % 2 == 0
    ensures |front + BigEndian(value, 2)| % 2 == 0
    ensures FromPairs(front + BigEndian(value, 2)) == FromPairs(front) + [value]
  {
    hide BigEndian, FromBigEndian, Power256;
    var bytes := front + BigEndian(value, 2);
    Powers();
    NumberRoundTrip(value, 2);
    assert bytes[..|bytes| - 2] == front && bytes[|bytes| - 2..] == BigEndian(value, 2);
  }

  lemma {:induction false} PairsRoundTrip(values: seq<U16>)
    ensures FromPairs(PairBytes(values)) == values
  {
    hide BigEndian, FromPairs;
    if values == [] {
      NoPairs();
    } else {
      var n := |values| - 1;
      PairsRoundTrip(values[..n]);
      OneMorePair(PairBytes(values[..n]), values[n]);
    }
  }

  lemma NoPairs()
    ensures FromPairs([]) == []
  {
  }

  lemma {:induction false} PairsAreExact(bytes: Bytes)
    requires |bytes| % 2 == 0
    ensures PairBytes(FromPairs(bytes)) == bytes
  {
    if bytes != [] {
      var n := |bytes| - 2;
      PairsAreExact(bytes[..n]);
      BytesRoundTrip(bytes[n..]);
      PairIsU16(bytes[n..]);
      var values := FromPairs(bytes);
      assert values[..|values| - 1] == FromPairs(bytes[..n]);
      assert bytes == bytes[..n] + bytes[n..];
    }
  }

  // ---- encoding ----

  function WireLength(w: Wire): nat {
    226 + |w.readConflicts| + |w.writeConflicts| + |w.mutations| + 2 * |w.resolvers| + 2 * |w.logTags|
  }

  /** The field values in layout order. */
  function FieldsOf(w: Wire): (values: seq<Bytes>)
    ensures |values| == |LAYOUT|
  {
    [MAGIC, BigEndian(CODEC_VERSION, 2), BigEndian(WireLength(w), 4), w.cell, w.tenant, BigEndian(w.generation, 8),
     BigEndian(w.versionGeneration, 8), BigEndian(w.versionSequence, 8), BigEndian(w.logIndex, 8), w.client,
     BigEndian(w.request, 8), w.resolverSet, w.fingerprint, w.readConflicts, w.writeConflicts, w.mutations,
     PairBytes(w.resolvers), PairBytes(w.logTags), w.previousLogChain]
  }

  function Encode(digest: Bytes -> Bytes, w: Wire): Bytes {
    var payload := EncodeAll(LAYOUT, FieldsOf(w));
    payload + digest(payload)
  }

  /** What the fingerprint covers: the request, each list under its length. */
  function RequestBytes(w: Wire): Bytes {
    [0x6f, 0x6b, 0x76, 0x2d, 0x63, 0x6f, 0x6d, 0x6d, 0x69, 0x74, 0x2d, 0x72, 0x65, 0x71, 0x75, 0x65, 0x73, 0x74, 0x2d,
     0x76, 0x31]
    + w.cell + w.tenant + BigEndian(w.generation, 8) + w.client + BigEndian(w.request, 8)
    + BigEndian(|w.readConflicts|, 8) + w.readConflicts + BigEndian(|w.writeConflicts|, 8) + w.writeConflicts
    + BigEndian(|w.mutations|, 8) + w.mutations
  }

  predicate Structural(w: Wire) {
    && !(w.versionGeneration == 0 && w.versionSequence == 0)
    && w.versionGeneration == w.generation
    && w.resolvers != []
    && w.logTags != []
    && StrictlySorted(w.resolvers)
    && StrictlySorted(w.logTags)
  }

  /** The widths the types of the source enforce, and what fits the length fields. */
  predicate WellSized(w: Wire) {
    && |w.cell| == |w.tenant| == |w.client| == |w.resolverSet| == 16
    && |w.fingerprint| == |w.previousLogChain| == 32
    && |w.resolvers| <= 0xFFFF
    && |w.logTags| <= 0xFFFF
    && WireLength(w) <= U32_MAX
  }

  predicate WellFormed(digest: Bytes -> Bytes, w: Wire) {
    WellSized(w) && Structural(w) && w.fingerprint == digest(RequestBytes(w))
  }

  // ---- decoding ----

  function NumberOf(bytes: Bytes): U64
    requires |bytes| == 8
  {
    BytesRoundTrip(bytes);
    Powers();
    FromBigEndian(bytes)
  }

  function WireOf(f: seq<Bytes>): Wire
    requires AllFit(LAYOUT, f)
  {
    FixedWidths(f);
    Wire(f[3], f[4], NumberOf(f[5]), NumberOf(f[6]), NumberOf(f[7]), NumberOf(f[8]), f[9], NumberOf(f[10]), f[11],
         f[12], f[13], f[14], f[15], FromPairs(f[16]), FromPairs(f[17]), f[18])
  }

  lemma FixedWidths(f: seq<Bytes>)
    requires AllFit(LAYOUT, f)
    ensures |f| == |LAYOUT|
    ensures |f[0]| == 4 && |f[1]| == 2 && |f[2]| == 4 && |f[3]| == 16 && |f[4]| == 16 && |f[5]| == 8 && |f[6]| == 8
    ensures |f[7]| == 8 && |f[8]| == 8 && |f[9]| == 16 && |f[10]| == 8 && |f[11]| == 16 && |f[12]| == 32
    ensures |f[16]| % 2 == 0 && |f[16]| / 2 <= 0xFFFF && |f[17]| % 2 == 0 && |f[17]| / 2 <= 0xFFFF && |f[18]| == 32
  {
    assert Admits(LAYOUT[0], f[0]) && Admits(LAYOUT[1], f[1]) && Admits(LAYOUT[2], f[2]) && Admits(LAYOUT[3], f[3]);
    assert Admits(LAYOUT[4], f[4]) && Admits(LAYOUT[5], f[5]) && Admits(LAYOUT[6], f[6]) && Admits(LAYOUT[7], f[7]);
    assert Admits(LAYOUT[8], f[8]) && Admits(LAYOUT[9], f[9]) && Admits(LAYOUT[10], f[10]) && Admits(LAYOUT[11], f[11]);
    assert Admits(LAYOUT[12], f[12]) && Admits(LAYOUT[16], f[16]);
    assert Admits(LAYOUT[17], f[17]) && Admits(LAYOUT[18], f[18]);
  }

  predicate HeaderValid(f: seq<Bytes>, total: nat)
    requires |f| == |LAYOUT|
  {
    f[0] == MAGIC && FromBigEndian(f[1]) == CODEC_VERSION && FromBigEndian(f[2]) == total
  }

  function Decode(digest: Bytes -> Bytes, bytes: Bytes): Option<Wire> {
    if |bytes| < 32 then None
    else
      var payload, checksum := bytes[..|bytes| - 32], bytes[|bytes| - 32..];
      if digest(payload) != checksum then None
      else
        match ParseAll(LAYOUT, payload)
        case None => None
        case Some(f) =>
          LayoutIsExact(LAYOUT, payload);
          var w := WireOf(f);
          if HeaderValid(f, |bytes|) && Structural(w) && w.fingerprint == digest(RequestBytes(w)) then Some(w) else None
  }

  // ---- fields and values ----

  /** Bytes the first `n` fields take. */
  function PrefixLength(layout: seq<Field>, values: seq<Bytes>, n: nat): nat
    requires |values| == |layout| && n <= |layout|
  {
    if n == 0 then 0 else PrefixLength(layout, values, n - 1) + |EncodeField(layout[n - 1], values[n - 1])|
  }

  lemma {:induction false} PrefixLengthShift(layout: seq<Field>, values: seq<Bytes>, n: nat)
    requires |values| == |layout| && 0 < n <= |layout|
    ensures PrefixLength(layout, values, n)
            == |EncodeField(layout[0], values[0])| + PrefixLength(layout[1..], values[1..], n - 1)
  {
    if n > 1 {
      PrefixLengthShift(layout, values, n - 1);
    }
  }

  lemma {:induction false} EncodedLength(layout: seq<Field>, values: seq<Bytes>)
    requires |values| == |layout|
    ensures |EncodeAll(layout, values)| == PrefixLength(layout, values, |layout|)
    decreases |layout|
  {
    if layout != [] {
      EncodedLength(layout[1..], values[1..]);
      PrefixLengthShift(layout, values, |layout|);
    }
  }

  /** The encoded payload is as long as the layout says, so the whole envelope has its wire length. */
  lemma LengthOfFields(f: seq<Bytes>)
    requires AllFit(LAYOUT, f)
    ensures |EncodeAll(LAYOUT, f)| + 32 == 226 + |f[13]| + |f[14]| + |f[15]| + |f[16]| + |f[17]|
  {
    FixedWidths(f);
    EncodedLength(LAYOUT, f);
    hide AllFit, Admits, BigEndian;
    assert PrefixLength(LAYOUT, f, 3) == 10 by {
      assert PrefixLength(LAYOUT, f, 1) == 4;
      assert PrefixLength(LAYOUT, f, 2) == 6;
    }
    assert PrefixLength(LAYOUT, f, 6) == 50 by {
      assert PrefixLength(LAYOUT, f, 4) == 26;
      assert PrefixLength(LAYOUT, f, 5) == 42;
    }
    assert PrefixLength(LAYOUT, f, 9) == 74 by {
      assert PrefixLength(LAYOUT, f, 7) == 58;
      assert PrefixLength(LAYOUT, f, 8) == 66;
    }
    assert PrefixLength(LAYOUT, f, 12) == 114 by {
      assert PrefixLength(LAYOUT, f, 10) == 90;
      assert PrefixLength(LAYOUT, f, 11) == 98;
    }
    assert PrefixLength(LAYOUT, f, 13) == 146;
    assert PrefixLength(LAYOUT, f, 16) == 158 + |f[13]| + |f[14]| + |f[15]| by {
      assert PrefixLength(LAYOUT, f, 14) == 150 + |f[13]|;
      assert PrefixLength(LAYOUT, f, 15) == 154 + |f[13]| + |f[14]|;
    }
    assert PrefixLength(LAYOUT, f, 18) == PrefixLength(LAYOUT, f, 16) + 4 + |f[16]| + |f[17]| by {
      assert PrefixLength(LAYOUT, f, 17) == PrefixLength(LAYOUT, f, 16) + 2 + |f[16]|;
    }
  }

  lemma FieldsFit(w: Wire)
    requires WellSized(w)
    ensures AllFit(LAYOUT, FieldsOf(w))
  {
    hide BigEndian, PairBytes;
    var f := FieldsOf(w);
    forall i | 0 <= i < |LAYOUT|
      ensures Admits(LAYOUT[i], f[i])
    {
    }
  }

  lemma NumberFieldRoundTrip(n: U64)
    ensures NumberOf(BigEndian(n, 8)) == n
  {
    Powers();
    NumberRoundTrip(n, 8);
  }

  lemma NumberFieldExact(bytes: Bytes)
    requires |bytes| == 8
    ensures BigEndian(NumberOf(bytes), 8) == bytes
  {
    BytesRoundTrip(bytes);
  }

  lemma HeaderRoundTrip(w: Wire)
    requires WellSized(w)
    ensures HeaderValid(FieldsOf(w), WireLength(w))
  {
    hide BigEndian, FromBigEndian, PairBytes, Power256;
    Powers();
    NumberRoundTrip(CODEC_VERSION, 2);
    NumberRoundTrip(WireLength(w), 4);
  }

  lemma HeaderExact(f: seq<Bytes>, total: nat)
    requires |f| == |LAYOUT| && |f[1]| == 2 && |f[2]| == 4 && HeaderValid(f, total)
    ensures f[0] == MAGIC && f[1] == BigEndian(CODEC_VERSION, 2) && f[2] == BigEndian(total, 4) && total <= U32_MAX
  {
    hide BigEndian, FromBigEndian, Power256;
    Powers();
    BytesRoundTrip(f[1]);
    BytesRoundTrip(f[2]);
  }

  /** Reading the fields of a value gives the value back. */
  lemma WireRoundTrip(w: Wire)
    requires WellSized(w)
    ensures AllFit(LAYOUT, FieldsOf(w)) && WireOf(FieldsOf(w)) == w && HeaderValid(FieldsOf(w), WireLength(w))
  {
    hide BigEndian, FromBigEndian, PairBytes, FromPairs, AllFit, WellSized, HeaderValid, NumberOf;
    FieldsFit(w);
    HeaderRoundTrip(w);
    NumberFieldRoundTrip(w.generation);
    NumberFieldRoundTrip(w.versionGeneration);
    NumberFieldRoundTrip(w.versionSequence);
    NumberFieldRoundTrip(w.logIndex);
    NumberFieldRoundTrip(w.request);
    PairsRoundTrip(w.resolvers);
    PairsRoundTrip(w.logTags);
  }

  /** Fields under a valid header are the fields of the value they give. */
  lemma FieldsAreExact(f: seq<Bytes>, total: nat)
    requires AllFit(LAYOUT, f) && HeaderValid(f, total) && total == WireLength(WireOf(f))
    ensures FieldsOf(WireOf(f)) == f && WellSized(WireOf(f))
  {
    hide BigEndian, FromBigEndian, PairBytes, FromPairs, AllFit, HeaderValid, NumberOf;
    FixedWidths(f);
    HeaderExact(f, total);
    NumberFieldExact(f[5]);
    NumberFieldExact(f[6]);
    NumberFieldExact(f[7]);
    NumberFieldExact(f[8]);
    NumberFieldExact(f[10]);
    PairsAreExact(f[16]);
    PairsAreExact(f[17]);
  }

  // ---- the codec is exact ----

  /** What was encoded decodes to itself. */
  lemma EncodedDecodes(digest: Bytes -> Bytes, w: Wire)
    requires forall bytes: Bytes :: |digest(bytes)| == 32
    requires WellFormed(digest, w)
    ensures Decode(digest, Encode(digest, w)) == Some(w)
  {
    hide WellSized, Structural, RequestBytes, LAYOUT, WireOf, HeaderValid, FieldsOf, EncodeAll, ParseAll;
    WireRoundTrip(w);
    var f := FieldsOf(w);
    var payload, bytes := EncodeAll(LAYOUT, f), Encode(digest, w);
    LayoutRoundTrip(LAYOUT, f);
    WholeLength(w);
    assert |digest(payload)| == 32;
    assert bytes[..|bytes| - 32] == payload && bytes[|bytes| - 32..] == digest(payload);
  }

  lemma WholeLength(w: Wire)
    requires WellSized(w)
    ensures |EncodeAll(LAYOUT, FieldsOf(w))| + 32 == WireLength(w)
  {
    FieldsFit(w);
    LengthOfFields(FieldsOf(w));
    hide EncodeAll, AllFit, BigEndian, PairBytes, WellSized;
  }

  /** Whatever decodes was encoded. */
  lemma DecodedWasEncoded(digest: Bytes -> Bytes, bytes: Bytes)
    requires forall message: Bytes :: |digest(message)| == 32
    requires Decode(digest, bytes).Some?
    ensures var w := Decode(digest, bytes).value;
            WellFormed(digest, w) && bytes == Encode(digest, w)
  {
    hide WellSized, Structural, RequestBytes, EncodeAll, ParseAll, AllFit, WireOf, FieldsOf, HeaderValid, WireLength;
    var payload := bytes[..|bytes| - 32];
    LayoutIsExact(LAYOUT, payload);
    var f := ParseAll(LAYOUT, payload).value;
    LengthOfFields(f);
    LengthOfWire(f);
    FieldsAreExact(f, |bytes|);
    assert bytes == payload + bytes[|bytes| - 32..];
  }

  lemma LengthOfWire(f: seq<Bytes>)
    requires AllFit(LAYOUT, f)
    ensures WireLength(WireOf(f)) == 226 + |f[13]| + |f[14]| + |f[15]| + |f[16]| + |f[17]|
  {
    FixedWidths(f);
    hide AllFit, BigEndian, FromBigEndian, PairBytes, FromPairs;
  }

  /**
  The codec is exact. For any 32-byte digest function, a byte string decodes to an envelope if and only if the
  envelope is well formed and the byte string is its encoding.
  */
  lemma DecodeIffEncoded(digest: Bytes -> Bytes, bytes: Bytes, w: Wire)
    requires forall message: Bytes :: |digest(message)| == 32
    ensures Decode(digest, bytes) == Some(w) <==> WellFormed(digest, w) && bytes == Encode(digest, w)
  {
    hide Decode, Encode, WellFormed;
    if Decode(digest, bytes) == Some(w) {
      DecodedWasEncoded(digest, bytes);
    }
    if WellFormed(digest, w) && bytes == Encode(digest, w) {
      EncodedDecodes(digest, w);
    }
  }

  /** The decoder: checksum first, then the fields, then the checks on what they say. */
  method DecodeEnvelope(digest: Bytes -> Bytes, bytes: Bytes) returns (decoded: Option<Wire>)
    ensures decoded == Decode(digest, bytes)
  {
    hide WireOf, HeaderValid, Structural, RequestBytes, ParseAll, AllFit;
    if |bytes| < 32 {
      return None;
    }
    var payload, checksum := bytes[..|bytes| - 32], bytes[|bytes| - 32..];
    if digest(payload) != checksum {
      return None;
    }
    var fields := ReadAll(LAYOUT, payload);
    if fields.None? {
      return None;
    }
    LayoutIsExact(LAYOUT, payload);
    FixedWidths(fields.value);
    var w := WireOf(fields.value);
    return if HeaderValid(fields.value, |bytes|) && Structural(w) && w.fingerprint == digest(RequestBytes(w))
      then Some(w) else None;
  }
}
