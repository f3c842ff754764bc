/** The bytes behind a model envelope: its JSON payloads, its length, and when they decode again. */
module EnvelopeBytes {
  import opened Keys
  import opened Types
  import opened Layouts
  import opened Certificates
  import opened Domain
  import opened Codec

  // ---- JSON text ----

  function Digit(n: nat): char
    requires n < 10
  {
    '0' + n as char
  }

  function Decimal(b: Byte): string {
    if b < 10 then [Digit(b)]
    else if b < 100 then [Digit(b / 10), Digit(b % 10)]
    else [Digit(b / 100), Digit(b / 10 % 10), Digit(b % 10)]
  }

  /** The first `count` bytes in decimal, separated by commas. */
  function Numbers(bytes: Bytes, count: nat): string
    requires count <= |bytes|
  {
    if count == 0 then ""
    else if count == 1 then Decimal(bytes[0])
    else Numbers(bytes, count - 1) + "," + Decimal(bytes[count - 1])
  }

  function ByteList(bytes: Bytes): string {
    "[" + Numbers(bytes, |bytes|) + "]"
  }

  function RangeText(range: KeyRange): string {
    "{\"start\":" + ByteList(range.start) + ",\"end\":" + ByteList(range.end) + "}"
  }

  function MutationText(mutation: Mutation): string {
    match mutation
    case Clear(key) => "{\"clear\":{\"key\":" + ByteList(key) + "}}"
    case Set(key, value) => "{\"set\":{\"key\":" + ByteList(key) + ",\"value\":" + ByteList(value) + "}}"
  }

  /** Items separated by commas. */
  function Join(items: seq<string>): string {
    if items == [] then ""
    else if |items| == 1 then items[0]
    else items[0] + "," + Join(items[1..])
  }

  function RangeTexts(ranges: seq<KeyRange>): seq<string> {
    seq(|ranges|, i requires 0 <= i < |ranges| => RangeText(ranges[i]))
  }

  function MutationTexts(mutations: seq<Mutation>): seq<string> {
    seq(|mutations|, i requires 0 <= i < |mutations| => MutationText(mutations[i]))
  }

  function RangesJson(ranges: seq<KeyRange>): string {
    "[" + Join(RangeTexts(ranges)) + "]"
  }

  function MutationsJson(mutations: seq<Mutation>): string {
    "[" + Join(MutationTexts(mutations)) + "]"
  }

  function Ascii(text: string): (bytes: Bytes)
    ensures |bytes| == |text|
  {
    seq(|text|, i requires 0 <= i < |text| => text[i] as int % 256)
  }

  // ---- lengths ----

  lemma {:induction false} NumbersLength(bytes: Bytes, count: nat)
    requires 0 < count <= |bytes|
    ensures |Numbers(bytes, count)| == JsonDigits(bytes, count) + count - 1
  {
    if count > 1 {
      NumbersLength(bytes, count - 1);
    } else {
      assert JsonDigits(bytes, 0) == 0;
    }
  }

  lemma ByteListLength(bytes: Bytes)
    ensures |ByteList(bytes)| == JsonBytes(bytes)
  {
    if bytes != [] {
      NumbersLength(bytes, |bytes|);
    }
  }

  lemma {:induction false} RangesLength(ranges: seq<KeyRange>)
    ensures |RangesJson(ranges)| == JsonRanges(ranges)
  {
    hide JsonBytes, ByteList;
    if ranges != [] {
      RangesLength(ranges[1..]);
      ByteListLength(ranges[0].start);
      ByteListLength(ranges[0].end);
      assert RangeTexts(ranges)[1..] == RangeTexts(ranges[1..]);
    }
  }

  lemma {:induction false} MutationsLength(mutations: seq<Mutation>)
    ensures |MutationsJson(mutations)| == JsonMutations(mutations)
  {
    hide JsonBytes, ByteList;
    if mutations != [] {
      MutationsLength(mutations[1..]);
      ByteListLength(mutations[0].key);
      if mutations[0].Set? {
        ByteListLength(mutations[0].value);
      }
      assert MutationTexts(mutations)[1..] == MutationTexts(mutations[1..]);
    }
  }

  // ---- the envelope ----

  function ClientBytes(identity: Identity): (bytes: Bytes)
    ensures |bytes| == 16
  {
    [0, 0, 0, 0, 0, 0, 0, 0] + BigEndian(identity.client, 8)
  }

  /** The wire form of a model envelope, with its chain digest and fingerprint as bytes. */
  function ToWire(digest: Bytes -> Bytes, e: Envelope, resolverSet: Bytes, chain: Bytes): Wire {
    var w := Wire(
      e.cell, e.tenant, e.generation, e.versionGeneration, e.versionSequence, e.logIndex, ClientBytes(e.identity),
      e.identity.request, resolverSet, [], Ascii(RangesJson(e.readConflicts)), Ascii(RangesJson(e.writeConflicts)),
      Ascii(MutationsJson(e.mutations)), e.requiredResolvers, e.requiredLogTags, chain);
    w.(fingerprint := digest(RequestBytes(w)))
  }

  /** The encoded length that prefix recovery bounds is the length of the encoding. */
  lemma EncodedBytesIsLength(digest: Bytes -> Bytes, e: Envelope, resolverSet: Bytes, chain: Bytes)
    requires forall message: Bytes :: |digest(message)| == 32
    requires WellSized(ToWire(digest, e, resolverSet, chain))
    ensures |Encode(digest, ToWire(digest, e, resolverSet, chain))| == EncodedBytes(e)
  {
    hide RequestBytes, EncodeAll, FieldsOf, WellSized, RangesJson, MutationsJson, JsonRanges, JsonMutations;
    var w := ToWire(digest, e, resolverSet, chain);
    WholeLength(w);
    RangesLength(e.readConflicts);
    RangesLength(e.writeConflicts);
    MutationsLength(e.mutations);
    assert |digest(EncodeAll(LAYOUT, FieldsOf(w)))| == 32;
  }

  /** An encoded envelope decodes again exactly when it passes the structural checks the model calls decoding. */
  lemma EnvelopeDecodesIff(digest: Bytes -> Bytes, e: Envelope, resolverSet: Bytes, chain: Bytes)
    requires forall message: Bytes :: |digest(message)| == 32
    requires WellSized(ToWire(digest, e, resolverSet, chain))
    ensures var w := ToWire(digest, e, resolverSet, chain);
            Decode(digest, Encode(digest, w)) == Some(w) <==> Decodes(e)
  {
    hide RequestBytes, Decode, Encode, WellSized, RangesJson, MutationsJson;
    var w := ToWire(digest, e, resolverSet, chain);
    SameRequest(digest, e, resolverSet, chain);
    DecodeIffEncoded(digest, Encode(digest, w), w);
  }

  /** The fingerprint covers the request, not itself. */
  lemma SameRequest(digest: Bytes -> Bytes, e: Envelope, resolverSet: Bytes, chain: Bytes)
    ensures var w := ToWire(digest, e, resolverSet, chain); w.fingerprint == digest(RequestBytes(w))
  {
    hide BigEndian, RangesJson, MutationsJson;
  }
}
