/** The NBZ1 wire envelope: transport/bridge_transport.cpp, lines 12-194. */
module Envelope {
  import opened Arithmetic
  import opened Common

  const PROTOCOL_VERSION: UInt16 := 1
  const MAX_PAYLOAD_BYTES := 512 * 1024 * 1024
  const MAX_STRING_BYTES := 0xFFFF
  const MAGIC: seq<Byte> := [0x4E, 0x42, 0x5A, 0x31]  // "NBZ1"

  datatype PayloadKind = RosSerialized | Jpeg | PointCloudCompressed | ServiceRequest | ServiceResponse

  datatype Envelope = Envelope(
    version: UInt16,
    kind: PayloadKind,
    sequence: UInt64,
    sourceTimeNs: Int64,
    headerSequence: UInt32,
    sourceHost: Text,
    rosType: Text,
    rosMd5: Text,
    frameId: Text,
    payload: seq<Byte>)

  const DEFAULT_ENVELOPE := Envelope(PROTOCOL_VERSION, RosSerialized, 0, 0, 0, [], [], [], [], [])

  datatype EncodeError = WrongVersion | PayloadTooLarge | StringTooLong

  datatype DecodeError =
    | BadMagic
    | TruncatedHeader
    | UnsupportedVersion
    | BadKind
    | TruncatedMetadata
    | BadPayload

  function KindCode(kind: PayloadKind): Byte {
    match kind
    case RosSerialized => 0
    case Jpeg => 1
    case PointCloudCompressed => 2
    case ServiceRequest => 3
    case ServiceResponse => 4
  }

  function KindOf(code: nat): PayloadKind
    requires code <= 4
  {
    if code == 0 then RosSerialized
    else if code == 1 then Jpeg
    else if code == 2 then PointCloudCompressed
    else if code == 3 then ServiceRequest
    else ServiceResponse
  }

  // static_cast between int64_t and uint64_t, two's complement
  function ToUnsigned(n: Int64): UInt64 {
    if n < 0 then n + 0x1_0000_0000_0000_0000 else n
  }

  function ToSigned(n: UInt64): Int64 {
    if n < 0x8000_0000_0000_0000 then n else n - 0x1_0000_0000_0000_0000
  }

  // ----- Big-endian integers -----

  // The big-endian bytes of the low 8 * width bits of value
  function BigEndian(width: nat, value: nat): (bytes: seq<Byte>)
    ensures |bytes| == width
  {
    if width == 0 then [] else BigEndian(width - 1, value / 256) + [value % 256]
  }

  function Value(bytes: seq<Byte>): nat {
    if |bytes| == 0 then 0 else Value(DropLast(bytes)) * 256 + Last(bytes)
  }

  lemma {:induction false} ValueOfBigEndian(width: nat, value: nat)
    requires value < Pow256(width)
    ensures Value(BigEndian(width, value)) == value
  {
    if width > 0 {
      ValueOfBigEndian(width - 1, value / 256);
      assert DropLast(BigEndian(width, value)) == BigEndian(width - 1, value / 256);
    }
  }

  lemma {:induction false} BigEndianOfValue(bytes: seq<Byte>)
    ensures Value(bytes) < Pow256(|bytes|)
    ensures BigEndian(|bytes|, Value(bytes)) == bytes
  {
    if |bytes| > 0 {
      BigEndianOfValue(DropLast(bytes));
      assert bytes == DropLast(bytes) + [Last(bytes)];
    }
  }

  // value >> 8 * count
  function ShiftBytes(value: nat, count: nat): nat {
    if count == 0 then value else ShiftBytes(value, count - 1) / 256
  }

  method AppendUnsigned(width: nat, value: nat, before: seq<Byte>) returns (output: seq<Byte>)
    ensures output == before + BigEndian(width, value)
  {
    output := before;
    var i := 0;
    while i < width
      invariant 0 <= i <= width
      invariant output == before + BigEndian(i, ShiftBytes(value, width - i))
    {
      var shifted := ShiftBytes(value, width - i - 1);
      Assoc(before, BigEndian(i, shifted / 256), [shifted % 256]);
      output := output + [shifted % 256];
      i := i + 1;
    }
  }

  // The cursor is an index into data; on failure it does not move.
  method ReadUnsigned(data: seq<Byte>, start: nat, width: nat)
    returns (ok: bool, cursor: nat, value: nat)
    requires start <= |data|
    ensures ok <==> |data| - start >= width
    ensures ok ==> cursor == start + width && value == Value(data[start..cursor])
    ensures !ok ==> cursor == start
    ensures value < Pow256(width)
  {
    cursor, value := start, 0;
    if |data| - start < width {
      return false, cursor, 0;
    }
    while cursor < start + width
      invariant start <= cursor <= start + width
      invariant value == Value(data[start..cursor])
    {
      assert DropLast(data[start..cursor + 1]) == data[start..cursor];
      value := value * 256 + data[cursor];
      cursor := cursor + 1;
    }
    BigEndianOfValue(data[start..cursor]);
    ok := true;
  }

  // ----- Strings -----

  function TextBytes(text: Text): (bytes: seq<Byte>)
    ensures |bytes| == |text|
  {
    seq(|text|, i requires 0 <= i < |text| => text[i] as int)
  }

  function BytesText(bytes: seq<Byte>): (text: Text)
    ensures |text| == |bytes|
  {
    seq(|bytes|, i requires 0 <= i < |bytes| => bytes[i] as char)
  }

  lemma TextBytesInverse(text: Text, bytes: seq<Byte>)
    ensures BytesText(TextBytes(text)) == text
    ensures TextBytes(BytesText(bytes)) == bytes
  {
  }

  function StringWire(text: Text): seq<Byte> {
    BigEndian(2, |text|) + TextBytes(text)
  }

  method AppendString(text: Text, before: seq<Byte>) returns (ok: bool, output: seq<Byte>)
    ensures ok <==> |text| <= MAX_STRING_BYTES
    ensures output == if ok then before + StringWire(text) else before
  {
    if |text| > MAX_STRING_BYTES {
      return false, before;
    }
    output := AppendUnsigned(2, |text|, before);
    output := output + TextBytes(text);
    ok := true;
  }

  // ----- The whole envelope -----

  predicate Encodable(e: Envelope) {
    && e.version == PROTOCOL_VERSION
    && |e.payload| <= MAX_PAYLOAD_BYTES
    && StringsFit(e)
  }

  predicate StringsFit(e: Envelope) {
    && |e.sourceHost| <= MAX_STRING_BYTES
    && |e.rosType| <= MAX_STRING_BYTES
    && |e.rosMd5| <= MAX_STRING_BYTES
    && |e.frameId| <= MAX_STRING_BYTES
  }

  // The byte layout, with the reserved flags byte explicit
  function Wire(e: Envelope, flags: Byte): seq<Byte> {
    HeaderWire(e, flags) + MetadataWire(e)
  }

  function HeaderWire(e: Envelope, flags: Byte): (bytes: seq<Byte>)
    ensures |bytes| == 28
  {
    MAGIC
    + (BigEndian(2, e.version)
    + (BigEndian(1, KindCode(e.kind))
    + (BigEndian(1, flags)
    + (BigEndian(8, e.sequence)
    + (BigEndian(8, ToUnsigned(e.sourceTimeNs))
    + BigEndian(4, e.headerSequence))))))
  }

  function MetadataWire(e: Envelope): seq<Byte> {
    StringWire(e.sourceHost)
    + (StringWire(e.rosType)
    + (StringWire(e.rosMd5)
    + (StringWire(e.frameId)
    + PayloadWire(e.payload))))
  }

  function PayloadWire(payload: seq<Byte>): seq<Byte> {
    BigEndian(4, |payload|) + payload
  }

  lemma WireLength(e: Envelope, flags: Byte)
    ensures |Wire(e, flags)|
         == 40 + |e.sourceHost| + |e.rosType| + |e.rosMd5| + |e.frameId| + |e.payload|
  {
  }

  // The reserved flags byte is byte 7, and only byte 7 depends on it.
  lemma FlagsByte(e: Envelope, flags: Byte)
    ensures |Wire(e, flags)| > 7 && Wire(e, flags)[7] == flags
    ensures Wire(e, flags)[7 := 0] == Wire(e, 0)
  {
    var rest := BigEndian(8, e.sequence)
    + (BigEndian(8, ToUnsigned(e.sourceTimeNs)) + BigEndian(4, e.headerSequence));
    var first := MAGIC + (BigEndian(2, e.version) + BigEndian(1, KindCode(e.kind)));
    HeaderByte(e, flags, first, rest);
    HeaderByte(e, 0, first, rest);
    assert Wire(e, flags) == first + [flags] + rest + MetadataWire(e);
    assert Wire(e, 0) == first + [0] + rest + MetadataWire(e);
  }

  lemma HeaderByte(e: Envelope, flags: Byte, first: seq<Byte>, rest: seq<Byte>)
    requires first == MAGIC + (BigEndian(2, e.version) + BigEndian(1, KindCode(e.kind)))
    requires rest == BigEndian(8, e.sequence)
                     + (BigEndian(8, ToUnsigned(e.sourceTimeNs)) + BigEndian(4, e.headerSequence))
    ensures HeaderWire(e, flags) == first + [flags] + rest
  {
    SingleByte(flags);
  }

  lemma SingleByte(b: Byte)
    ensures BigEndian(1, b) == [b]
  {
    assert BigEndian(0, b / 256) == [];
  }

  method AppendHeader(e: Envelope) returns (output: seq<Byte>)
    ensures output == HeaderWire(e, 0)
  {
    ghost var rest4 := BigEndian(4, e.headerSequence);
    ghost var rest3 := BigEndian(8, ToUnsigned(e.sourceTimeNs)) + rest4;
    ghost var rest2 := BigEndian(8, e.sequence) + rest3;
    ghost var rest1 := BigEndian(1, 0) + rest2;
    ghost var rest0 := BigEndian(1, KindCode(e.kind)) + rest1;
    output := MAGIC;
    Assoc(output, BigEndian(2, e.version), rest0);
    output := AppendUnsigned(2, e.version, output);
    Assoc(output, BigEndian(1, KindCode(e.kind)), rest1);
    output := AppendUnsigned(1, KindCode(e.kind), output);
    Assoc(output, BigEndian(1, 0), rest2);
    output := AppendUnsigned(1, 0, output);
    Assoc(output, BigEndian(8, e.sequence), rest3);
    output := AppendUnsigned(8, e.sequence, output);
    Assoc(output, BigEndian(8, ToUnsigned(e.sourceTimeNs)), rest4);
    output := AppendUnsigned(8, ToUnsigned(e.sourceTimeNs), output);
    output := AppendUnsigned(4, e.headerSequence, output);
  }

  method AppendMetadata(e: Envelope, before: seq<Byte>) returns (ok: bool, output: seq<Byte>)
    ensures ok <==> StringsFit(e)
    ensures ok ==> output == before + MetadataWire(e)
  {
    ghost var rest3 := PayloadWire(e.payload);
    ghost var rest2 := StringWire(e.frameId) + rest3;
    ghost var rest1 := StringWire(e.rosMd5) + rest2;
    ghost var rest0 := StringWire(e.rosType) + rest1;
    output := before;
    Assoc(output, StringWire(e.sourceHost), rest0);
    ok, output := AppendString(e.sourceHost, output);
    if !ok {
      return;
    }
    Assoc(output, StringWire(e.rosType), rest1);
    ok, output := AppendString(e.rosType, output);
    if !ok {
      return;
    }
    Assoc(output, StringWire(e.rosMd5), rest2);
    ok, output := AppendString(e.rosMd5, output);
    if !ok {
      return;
    }
    Assoc(output, StringWire(e.frameId), rest3);
    ok, output := AppendString(e.frameId, output);
    if !ok {
      return;
    }
    Assoc(output, BigEndian(4, |e.payload|), e.payload);
    output := AppendUnsigned(4, |e.payload|, output);
    output := output + e.payload;
  }

  // On failure the output is what the code leaves behind: untouched when the
  // version or the payload size is refused, cleared when a string is too long.
  method EncodeEnvelope(e: Envelope, before: seq<Byte>)
    returns (output: seq<Byte>, error: Option<EncodeError>)
    ensures error.None? <==> Encodable(e)
    ensures Encodable(e) ==> output == Wire(e, 0)
    ensures error == Some(WrongVersion) <==> e.version != PROTOCOL_VERSION
    ensures error == Some(PayloadTooLarge)
       <==> e.version == PROTOCOL_VERSION && |e.payload| > MAX_PAYLOAD_BYTES
    ensures error == Some(StringTooLong) ==> output == []
    ensures error == Some(WrongVersion) || error == Some(PayloadTooLarge) ==> output == before
  {
    if e.version != PROTOCOL_VERSION {
      return before, Some(WrongVersion);
    }
    if |e.payload| > MAX_PAYLOAD_BYTES || |e.payload| > 0xFFFF_FFFF {
      return before, Some(PayloadTooLarge);
    }
    output := AppendHeader(e);
    var ok;
    ok, output := AppendMetadata(e, output);
    if !ok {
      return [], Some(StringTooLong);
    }
    error := None;
  }

  // ----- Uniqueness of parsing -----

  lemma SplitUnsigned(width: nat, a: nat, x: seq<Byte>, b: nat, y: seq<Byte>)
    requires a < Pow256(width) && b < Pow256(width)
    requires BigEndian(width, a) + x == BigEndian(width, b) + y
    ensures a == b && x == y
  {
    var s := BigEndian(width, a) + x;
    assert s[..width] == BigEndian(width, a) && s[..width] == BigEndian(width, b);
    assert s[width..] == x && s[width..] == y;
    ValueOfBigEndian(width, a);
    ValueOfBigEndian(width, b);
  }

  lemma SplitString(a: Text, x: seq<Byte>, b: Text, y: seq<Byte>)
    requires |a| <= MAX_STRING_BYTES && |b| <= MAX_STRING_BYTES
    requires StringWire(a) + x == StringWire(b) + y
    ensures a == b && x == y
  {
    Assoc(BigEndian(2, |a|), TextBytes(a), x);
    Assoc(BigEndian(2, |b|), TextBytes(b), y);
    Pow256Widths();
    SplitUnsigned(2, |a|, TextBytes(a) + x, |b|, TextBytes(b) + y);
    var s := TextBytes(a) + x;
    assert s[..|a|] == TextBytes(a) && s[..|a|] == TextBytes(b);
    assert s[|a|..] == x && s[|a|..] == y;
    TextBytesInverse(a, []);
    TextBytesInverse(b, []);
  }

  lemma SplitMetadata(a: Envelope, b: Envelope, x: seq<Byte>)
    requires Encodable(a) && Encodable(b)
    requires MetadataWire(a) + x == MetadataWire(b)
    ensures a.sourceHost == b.sourceHost && a.rosType == b.rosType && a.rosMd5 == b.rosMd5
    ensures a.frameId == b.frameId && a.payload == b.payload && x == []
  {
    var a3, b3 := PayloadWire(a.payload), PayloadWire(b.payload);
    var a2, b2 := StringWire(a.frameId) + a3, StringWire(b.frameId) + b3;
    var a1, b1 := StringWire(a.rosMd5) + a2, StringWire(b.rosMd5) + b2;
    var a0, b0 := StringWire(a.rosType) + a1, StringWire(b.rosType) + b1;
    Assoc(StringWire(a.sourceHost), a0, x);
    SplitString(a.sourceHost, a0 + x, b.sourceHost, b0);
    Assoc(StringWire(a.rosType), a1, x);
    SplitString(a.rosType, a1 + x, b.rosType, b1);
    Assoc(StringWire(a.rosMd5), a2, x);
    SplitString(a.rosMd5, a2 + x, b.rosMd5, b2);
    Assoc(StringWire(a.frameId), a3, x);
    SplitString(a.frameId, a3 + x, b.frameId, b3);
    Assoc(BigEndian(4, |a.payload|), a.payload, x);
    Pow256Widths();
    SplitUnsigned(4, |a.payload|, a.payload + x, |b.payload|, b.payload);
    assert |a.payload + x| == |b.payload|;
    assert a.payload + x == a.payload;
  }

  lemma HeaderInjective(a: Envelope, f: Byte, b: Envelope, g: Byte)
    requires HeaderWire(a, f) == HeaderWire(b, g)
    ensures a.version == b.version && a.kind == b.kind && f == g && a.sequence == b.sequence
    ensures a.sourceTimeNs == b.sourceTimeNs && a.headerSequence == b.headerSequence
  {
    var a4, b4 := BigEndian(4, a.headerSequence), BigEndian(4, b.headerSequence);
    var a3 := BigEndian(8, ToUnsigned(a.sourceTimeNs)) + a4;
    var b3 := BigEndian(8, ToUnsigned(b.sourceTimeNs)) + b4;
    var a2, b2 := BigEndian(8, a.sequence) + a3, BigEndian(8, b.sequence) + b3;
    var a1, b1 := BigEndian(1, f) + a2, BigEndian(1, g) + b2;
    var a0, b0 := BigEndian(1, KindCode(a.kind)) + a1, BigEndian(1, KindCode(b.kind)) + b1;
    Pow256Widths();
    assert HeaderWire(a, f)[4..] == BigEndian(2, a.version) + a0;
    assert HeaderWire(b, g)[4..] == BigEndian(2, b.version) + b0;
    SplitUnsigned(2, a.version, a0, b.version, b0);
    SplitUnsigned(1, KindCode(a.kind), a1, KindCode(b.kind), b1);
    SplitUnsigned(1, f, a2, g, b2);
    SplitUnsigned(8, a.sequence, a3, b.sequence, b3);
    SplitUnsigned(8, ToUnsigned(a.sourceTimeNs), a4, ToUnsigned(b.sourceTimeNs), b4);
    SplitUnsigned(4, a.headerSequence, [], b.headerSequence, []);
  }

  // No encoding is a strict prefix of another, and an encoding determines its envelope.
  lemma PrefixFree(a: Envelope, f: Byte, b: Envelope, g: Byte, x: seq<Byte>)
    requires Encodable(a) && Encodable(b)
    requires Wire(a, f) + x == Wire(b, g)
    ensures a == b && f == g && x == []
  {
    Assoc(HeaderWire(a, f), MetadataWire(a), x);
    assert Wire(b, g)[..28] == HeaderWire(b, g) && Wire(b, g)[28..] == MetadataWire(b);
    assert (HeaderWire(a, f) + (MetadataWire(a) + x))[..28] == HeaderWire(a, f);
    assert (HeaderWire(a, f) + (MetadataWire(a) + x))[28..] == MetadataWire(a) + x;
    HeaderInjective(a, f, b, g);
    SplitMetadata(a, b, x);
  }

  // ----- Decoding -----

  // A length prefix that promises more bytes than there are starts no string.
  lemma TextTooShort(data: seq<Byte>, length: nat, rest: seq<Byte>)
    requires length <= MAX_STRING_BYTES && data == BigEndian(2, length) + rest && |rest| < length
    ensures !StringsAhead(data, 1)
  {
    if StringsAhead(data, 1) {
      var t: Text, tail :| |t| <= MAX_STRING_BYTES && data == StringWire(t) + tail && StringsAhead(tail, 0);
      Assoc(BigEndian(2, |t|), TextBytes(t), tail);
      Pow256Widths();
      SplitUnsigned(2, length, rest, |t|, TextBytes(t) + tail);
    }
  }

  lemma NoLength(data: seq<Byte>)
    requires StringsAhead(data, 1)
    ensures |data| >= 2
  {
  }

  lemma TextRead(data: seq<Byte>, start: nat, length: nat) returns (text: Text)
    requires start + 2 + length <= |data| && length == Value(data[start..start + 2])
    ensures |text| == length && text == BytesText(data[start + 2..start + 2 + length])
    ensures data[start..] == StringWire(text) + data[start + 2 + length..]
  {
    var bytes, rest := data[start + 2..start + 2 + length], data[start + 2 + length..];
    text := BytesText(bytes);
    TextBytesInverse([], bytes);
    BigEndianOfValue(data[start..start + 2]);
    assert data[start..] == (BigEndian(2, length) + bytes) + rest;
  }

  method ReadString(data: seq<Byte>, start: nat) returns (ok: bool, cursor: nat, text: Text)
    requires start <= |data|
    ensures start <= cursor <= |data|
    ensures ok ==> |text| <= MAX_STRING_BYTES && data[start..] == StringWire(text) + data[cursor..]
    ensures !ok ==> !StringsAhead(data[start..], 1)
  {
    var length;
    ok, cursor, length := ReadUnsigned(data, start, 2);
    if !ok {
      if StringsAhead(data[start..], 1) {
        NoLength(data[start..]);
      }
      return false, cursor, [];
    }
    Pow256Widths();
    if |data| - cursor < length {
      BigEndianOfValue(data[start..cursor]);
      assert data[start..] == BigEndian(2, length) + data[cursor..];
      TextTooShort(data[start..], length, data[cursor..]);
      return false, cursor, [];
    }
    ghost var expected := TextRead(data, start, length);
    text := BytesText(data[cursor..cursor + length]);
    cursor := cursor + length;
  }

  // data starts with the wire form of count strings
  ghost predicate StringsAhead(data: seq<Byte>, count: nat)
    decreases count
  {
    if count == 0 then
      true
    else
      exists t: Text, rest ::
        && |t| <= MAX_STRING_BYTES
        && data == StringWire(t) + rest
        && StringsAhead(rest, count - 1)
  }

  lemma StringsAheadStep(data: seq<Byte>, t: Text, rest: seq<Byte>, count: nat)
    requires count > 0
    requires |t| <= MAX_STRING_BYTES && data == StringWire(t) + rest
    ensures StringsAhead(data, count) <==> StringsAhead(rest, count - 1)
  {
    if StringsAhead(data, count) {
      var t': Text, rest' :| |t'| <= MAX_STRING_BYTES && data == StringWire(t') + rest'
                             && StringsAhead(rest', count - 1);
      SplitString(t, rest, t', rest');
    }
  }

  lemma StringsAheadOne(data: seq<Byte>, count: nat)
    requires count > 0 && StringsAhead(data, count)
    ensures StringsAhead(data, 1)
  {
    var t: Text, rest :| |t| <= MAX_STRING_BYTES && data == StringWire(t) + rest
                         && StringsAhead(rest, count - 1);
    assert StringsAhead(rest, 0);
  }

  // The first of the header checks that data fails
  function HeaderError(data: seq<Byte>): Option<DecodeError> {
    if |data| < 4 || data[..4] != MAGIC then Some(BadMagic)
    else if |data| < 28 then Some(TruncatedHeader)
    else if Value(data[4..6]) != PROTOCOL_VERSION then Some(UnsupportedVersion)
    else if data[6] > 4 then Some(BadKind)
    else None
  }

  predicate HeaderAccepted(data: seq<Byte>) {
    HeaderError(data).None?
  }

  // The fixed fields of an accepted header; the variable parts are left empty.
  function RawHeader(data: seq<Byte>): Envelope
    requires HeaderAccepted(data)
  {
    ValueBounds(data[8..16]);
    ValueBounds(data[16..24]);
    ValueBounds(data[24..28]);
    Envelope(PROTOCOL_VERSION, KindOf(data[6]), Value(data[8..16]), ToSigned(Value(data[16..24])),
             Value(data[24..28]), [], [], [], [], [])
  }

  lemma ValueBounds(bytes: seq<Byte>)
    ensures Value(bytes) < Pow256(|bytes|)
    ensures |bytes| == 4 ==> Value(bytes) < 0x1_0000_0000
    ensures |bytes| == 8 ==> Value(bytes) < 0x1_0000_0000_0000_0000
  {
    BigEndianOfValue(bytes);
    Pow256Widths();
  }

  lemma HeaderRoundTrip(data: seq<Byte>)
    requires HeaderAccepted(data)
    ensures HeaderWire(RawHeader(data), data[7]) == data[..28]
  {
    BigEndianOfValue(data[4..6]);
    BigEndianOfValue(data[8..16]);
    BigEndianOfValue(data[16..24]);
    BigEndianOfValue(data[24..28]);
    SingleByte(data[6]);
    SingleByte(data[7]);
    ValueBounds(data[8..16]);
    ValueBounds(data[16..24]);
    ValueBounds(data[24..28]);
    var e := RawHeader(data);
    assert BigEndian(2, e.version) == data[4..6];
    assert BigEndian(1, KindCode(e.kind)) == data[6..7];
    assert BigEndian(8, ToUnsigned(e.sourceTimeNs)) == data[16..24];
    assert data[16..24] + data[24..28] == data[16..28];
    assert data[8..16] + data[16..28] == data[8..28];
    assert [data[7]] + data[8..28] == data[7..28];
    assert data[6..7] + data[7..28] == data[6..28];
    assert data[4..6] + data[6..28] == data[4..28];
    assert data[..4] + data[4..28] == data[..28];
  }

  lemma WireHeaderAccepted(e: Envelope, flags: Byte)
    requires Encodable(e)
    ensures |Wire(e, flags)| >= 28 && HeaderAccepted(Wire(e, flags))
    ensures Wire(e, flags)[28..] == MetadataWire(e)
    ensures StringsAhead(MetadataWire(e), 4)
  {
    var w := Wire(e, flags);
    assert w[..4] == HeaderWire(e, flags)[..4] == MAGIC;
    assert w[4..6] == BigEndian(2, e.version);
    Pow256Widths();
    ValueOfBigEndian(2, e.version);
    SingleByte(KindCode(e.kind));
    assert w[6] == KindCode(e.kind);
    MetadataStrings(e);
  }

  lemma MetadataStrings(e: Envelope)
    requires StringsFit(e)
    ensures StringsAhead(MetadataWire(e), 4)
  {
    var rest3 := PayloadWire(e.payload);
    var rest2 := StringWire(e.frameId) + rest3;
    var rest1 := StringWire(e.rosMd5) + rest2;
    var rest0 := StringWire(e.rosType) + rest1;
    StringsAheadStep(rest2, e.frameId, rest3, 1);
    StringsAheadStep(rest1, e.rosMd5, rest2, 2);
    StringsAheadStep(rest0, e.rosType, rest1, 3);
    StringsAheadStep(MetadataWire(e), e.sourceHost, rest0, 4);
  }

  // Reads the six fixed fields after the magic.
  method ReadHeader(data: seq<Byte>)
    returns (ok: bool, cursor: nat, version: nat, kind: nat, sequence: nat, time: nat, headerSequence: nat)
    requires |data| >= 4
    ensures ok <==> |data| >= 28
    ensures cursor <= |data|
    ensures ok ==> cursor == 28
    ensures ok ==> version == Value(data[4..6]) && kind == data[6] && sequence == Value(data[8..16])
    ensures ok ==> time == Value(data[16..24]) && headerSequence == Value(data[24..28])
  {
    version, kind, sequence, time, headerSequence := 0, 0, 0, 0, 0;
    ok, cursor, version := ReadUnsigned(data, 4, 2);
    if !ok {
      return;
    }
    ok, cursor, kind := ReadUnsigned(data, cursor, 1);
    if !ok {
      return;
    }
    assert kind == data[6] by {
      assert data[6..7] == [data[6]];
      assert Value([]) == 0;
      assert DropLast([data[6]]) == [];
    }
    var flags;
    ok, cursor, flags := ReadUnsigned(data, cursor, 1);
    if !ok {
      return;
    }
    ok, cursor, sequence := ReadUnsigned(data, cursor, 8);
    if !ok {
      return;
    }
    ok, cursor, time := ReadUnsigned(data, cursor, 8);
    if !ok {
      return;
    }
    ok, cursor, headerSequence := ReadUnsigned(data, cursor, 4);
  }

  // Two length-prefixed strings in a row
  method ReadPair(data: seq<Byte>, start: nat) returns (ok: bool, cursor: nat, first: Text, second: Text)
    requires start <= |data|
    ensures start <= cursor <= |data|
    ensures ok <==> StringsAhead(data[start..], 2)
    ensures ok ==> |first| <= MAX_STRING_BYTES && |second| <= MAX_STRING_BYTES
    ensures ok ==> data[start..] == StringWire(first) + (StringWire(second) + data[cursor..])
  {
    second := [];
    ok, cursor, first := ReadString(data, start);
    if !ok {
      NoStrings(data[start..], 2);
      return;
    }
    StringsAheadStep(data[start..], first, data[cursor..], 2);
    ghost var rest := data[cursor..];
    ok, cursor, second := ReadString(data, cursor);
    if ok {
      StringsAheadStep(rest, second, data[cursor..], 1);
    }
  }

  lemma PairStep(data: seq<Byte>, a: Text, b: Text, rest: seq<Byte>)
    requires |a| <= MAX_STRING_BYTES && |b| <= MAX_STRING_BYTES
    requires data == StringWire(a) + (StringWire(b) + rest)
    ensures StringsAhead(data, 4) <==> StringsAhead(rest, 2)
  {
    StringsAheadStep(data, a, StringWire(b) + rest, 4);
    StringsAheadStep(StringWire(b) + rest, b, rest, 3);
  }

  lemma NoPair(data: seq<Byte>)
    requires !StringsAhead(data, 2)
    ensures !StringsAhead(data, 4)
  {
    if StringsAhead(data, 4) {
      var t: Text, rest :| |t| <= MAX_STRING_BYTES && data == StringWire(t) + rest && StringsAhead(rest, 3);
      StringsAheadOne(rest, 3);
    }
  }

  method ReadMetadata(data: seq<Byte>, start: nat)
    returns (ok: bool, cursor: nat, host: Text, rosType: Text, md5: Text, frame: Text)
    requires start <= |data|
    ensures start <= cursor <= |data|
    ensures ok <==> StringsAhead(data[start..], 4)
    ensures ok ==> |host| <= MAX_STRING_BYTES && |rosType| <= MAX_STRING_BYTES
    ensures ok ==> |md5| <= MAX_STRING_BYTES && |frame| <= MAX_STRING_BYTES
    ensures ok ==> data[start..] == StringWire(host) + (StringWire(rosType) + (StringWire(md5)
                                    + (StringWire(frame) + data[cursor..])))
  {
    md5, frame := [], [];
    ok, cursor, host, rosType := ReadPair(data, start);
    if !ok {
      NoPair(data[start..]);
      return;
    }
    PairStep(data[start..], host, rosType, data[cursor..]);
    ok, cursor, md5, frame := ReadPair(data, cursor);
  }

  lemma NoStrings(data: seq<Byte>, count: nat)
    requires count > 0 && !StringsAhead(data, 1)
    ensures !StringsAhead(data, count)
  {
    if StringsAhead(data, count) {
      StringsAheadOne(data, count);
    }
  }

  ghost predicate Accepts(data: seq<Byte>) {
    exists e: Envelope, flags: Byte :: Encodable(e) && data == Wire(e, flags)
  }

  predicate PayloadFits(rest: seq<Byte>) {
    |rest| >= 4 && Value(rest[..4]) <= MAX_PAYLOAD_BYTES && |rest| - 4 == Value(rest[..4])
  }

  method ReadPayload(data: seq<Byte>, start: nat) returns (ok: bool, payload: seq<Byte>)
    requires start <= |data|
    ensures ok <==> PayloadFits(data[start..])
    ensures ok ==> payload == data[start..][4..]
  {
    var cursor, length;
    ok, cursor, length := ReadUnsigned(data, start, 4);
    assert ok ==> data[start..][..4] == data[start..cursor];
    if !ok || length > MAX_PAYLOAD_BYTES || |data| - cursor != length {
      return false, [];
    }
    payload := data[cursor..];
  }

  lemma AcceptsHeader(data: seq<Byte>)
    requires Accepts(data)
    ensures HeaderAccepted(data) && StringsAhead(data[28..], 4)
  {
    var d: Envelope, f: Byte :| Encodable(d) && data == Wire(d, f);
    WireHeaderAccepted(d, f);
  }

  // Everything up to the strings: magic, fixed fields, version and kind checks
  method DecodeHeader(data: seq<Byte>) returns (e: Envelope, cursor: nat, error: Option<DecodeError>)
    ensures HeaderError(data).None? ==> cursor == 28 && e == RawHeader(data)
    ensures error == HeaderError(data)
  {
    e, cursor := DEFAULT_ENVELOPE, 0;
    if |data| < 4 || data[..4] != MAGIC {
      return e, cursor, Some(BadMagic);
    }
    var ok, version, kind, sequence, time, headerSequence;
    ok, cursor, version, kind, sequence, time, headerSequence := ReadHeader(data);
    if !ok {
      return e, cursor, Some(TruncatedHeader);
    }
    if version != PROTOCOL_VERSION {
      return e, cursor, Some(UnsupportedVersion);
    }
    if kind > KindCode(ServiceResponse) {
      return e, cursor, Some(BadKind);
    }
    ValueBounds(data[8..16]);
    ValueBounds(data[16..24]);
    ValueBounds(data[24..28]);
    e := Envelope(version, KindOf(kind), sequence, ToSigned(time), headerSequence, [], [], [], [], []);
    error := None;
  }

  // data is accepted exactly when it is the wire form of some encodable envelope,
  // and then the envelope returned is that one.
  method DecodeEnvelope(data: seq<Byte>, before: Envelope)
    returns (e: Envelope, error: Option<DecodeError>)
    ensures error.None? <==> Accepts(data)
    ensures error.None? ==> Encodable(e) && |data| > 7 && data == Wire(e, data[7])
    ensures error.Some? ==> e == before
    ensures HeaderError(data).Some? ==> error == HeaderError(data)
    ensures error == Some(TruncatedMetadata)
       <==> HeaderAccepted(data) && !StringsAhead(data[28..], 4)
  {
    if Accepts(data) {
      AcceptsHeader(data);
    }
    var decoded, cursor;
    decoded, cursor, error := DecodeHeader(data);
    if error.Some? {
      return before, error;
    }
    var ok, host, rosType, md5, frame;
    ok, cursor, host, rosType, md5, frame := ReadMetadata(data, cursor);
    if !ok {
      return before, Some(TruncatedMetadata);
    }
    ghost var rest := data[cursor..];
    var payload;
    ok, payload := ReadPayload(data, cursor);
    if !ok {
      PayloadRejected(data, host, rosType, md5, frame, rest);
      return before, Some(BadPayload);
    }
    e := decoded.(sourceHost := host, rosType := rosType, rosMd5 := md5, frameId := frame,
                  payload := payload);
    PayloadAccepted(data, decoded, rest, e);
    error := None;
  }

  lemma PayloadAccepted(data: seq<Byte>, decoded: Envelope, rest: seq<Byte>, e: Envelope)
    requires HeaderAccepted(data) && StringsFit(e)
    requires data[28..] == StringWire(e.sourceHost) + (StringWire(e.rosType) + (StringWire(e.rosMd5)
                           + (StringWire(e.frameId) + rest)))
    requires PayloadFits(rest) && e.payload == rest[4..]
    requires decoded == RawHeader(data)
    requires e == decoded.(sourceHost := e.sourceHost, rosType := e.rosType, rosMd5 := e.rosMd5,
                           frameId := e.frameId, payload := e.payload)
    ensures Encodable(e) && data == Wire(e, data[7])
  {
    HeaderRoundTrip(data);
    BigEndianOfValue(rest[..4]);
    assert rest == rest[..4] + rest[4..];
    assert rest == PayloadWire(e.payload);
    assert data == data[..28] + data[28..];
  }

  lemma PayloadRejected(data: seq<Byte>, host: Text, rosType: Text, md5: Text, frame: Text, rest: seq<Byte>)
    requires |data| >= 28
    requires |host| <= MAX_STRING_BYTES && |rosType| <= MAX_STRING_BYTES
    requires |md5| <= MAX_STRING_BYTES && |frame| <= MAX_STRING_BYTES
    requires data[28..] == StringWire(host) + (StringWire(rosType) + (StringWire(md5)
                           + (StringWire(frame) + rest)))
    requires !PayloadFits(rest)
    ensures !Accepts(data)
  {
    if Accepts(data) {
      var e: Envelope, f: Byte :| Encodable(e) && data == Wire(e, f);
      WireHeaderAccepted(e, f);
      SameStrings(e, host, rosType, md5, frame, rest);
      PayloadLength(e.payload);
    }
  }

  lemma PayloadLength(payload: seq<Byte>)
    requires |payload| <= MAX_PAYLOAD_BYTES
    ensures |PayloadWire(payload)| == 4 + |payload|
    ensures Value(PayloadWire(payload)[..4]) == |payload|
  {
    Pow256Widths();
    ValueOfBigEndian(4, |payload|);
    assert PayloadWire(payload)[..4] == BigEndian(4, |payload|);
  }

  lemma SameStrings(e: Envelope, host: Text, rosType: Text, md5: Text, frame: Text, rest: seq<Byte>)
    requires StringsFit(e)
    requires |host| <= MAX_STRING_BYTES && |rosType| <= MAX_STRING_BYTES
    requires |md5| <= MAX_STRING_BYTES && |frame| <= MAX_STRING_BYTES
    requires MetadataWire(e) == StringWire(host) + (StringWire(rosType) + (StringWire(md5)
                                + (StringWire(frame) + rest)))
    ensures rest == PayloadWire(e.payload)
  {
    var rest3 := PayloadWire(e.payload);
    var rest2 := StringWire(e.frameId) + rest3;
    var rest1 := StringWire(e.rosMd5) + rest2;
    var rest0 := StringWire(e.rosType) + rest1;
    var tail2 := StringWire(frame) + rest;
    var tail1 := StringWire(md5) + tail2;
    var tail0 := StringWire(rosType) + tail1;
    SplitString(e.sourceHost, rest0, host, tail0);
    SplitString(e.rosType, rest1, rosType, tail1);
    SplitString(e.rosMd5, rest2, md5, tail2);
    SplitString(e.frameId, rest3, frame, rest);
  }

  // ----- The wire format in numbers -----

  lemma {:induction false} ByteOfBigEndian(width: nat, value: nat, k: nat)
    requires k < width
    ensures BigEndian(width, value)[k] == value / Pow256(width - 1 - k) % 256
  {
    if k < width - 1 {
      ByteOfBigEndian(width - 1, value / 256, k);
      DivideTwice(value, 256, Pow256(width - 2 - k));
    }
  }

  // The bytes are value in as many bytes, most significant first.
  ghost predicate IsNumber(bytes: seq<Byte>, value: nat) {
    forall k :: 0 <= k < |bytes| ==> bytes[k] == value / Pow256(|bytes| - 1 - k) % 256
  }

  // The bytes are a two-byte length and the characters.
  ghost predicate IsText(bytes: seq<Byte>, text: Text) {
    |bytes| == 2 + |text| && IsNumber(bytes[..2], |text|)
    && forall k :: 0 <= k < |text| ==> bytes[2..][k] == text[k] as int
  }

  lemma BigEndianIsNumber(width: nat, value: nat)
    ensures IsNumber(BigEndian(width, value), value)
  {
    forall k | 0 <= k < width
      ensures BigEndian(width, value)[k] == value / Pow256(width - 1 - k) % 256
    {
      ByteOfBigEndian(width, value, k);
    }
  }

  lemma StringWireIsText(text: Text)
    ensures IsText(StringWire(text), text)
  {
    BigEndianIsNumber(2, |text|);
    assert StringWire(text)[..2] == BigEndian(2, |text|) && StringWire(text)[2..] == TextBytes(text);
  }

  lemma NextPart(w: seq<Byte>, at: nat, part: seq<Byte>, after: seq<Byte>)
    requires at <= |w| && w[at..] == part + after
    ensures at + |part| <= |w| && w[at..at + |part|] == part && w[at + |part|..] == after
  {
    assert w[at..][..|part|] == part && w[at..][|part|..] == after;
  }

  lemma SevenParts(w: seq<Byte>, a: seq<Byte>, b: seq<Byte>, c: seq<Byte>, d: seq<Byte>, e: seq<Byte>, f: seq<Byte>,
                   g: seq<Byte>, rest: seq<Byte>)
    requires |a| == 4 && |b| == 2 && |c| == 1 && |d| == 1 && |e| == 8 && |f| == 8 && |g| == 4
    requires w == (a + (b + (c + (d + (e + (f + g)))))) + rest
    ensures |w| >= 28 && w[..4] == a && w[4..6] == b && w[6..7] == c && w[7..8] == d
    ensures w[8..16] == e && w[16..24] == f && w[24..28] == g && w[28..] == rest
  {
  }

  // The header of an encoding, byte by byte
  lemma HeaderBytes(e: Envelope, flags: Byte)
    ensures var w := Wire(e, flags);
            && |w| >= 28 && w[..4] == [0x4E, 0x42, 0x5A, 0x31]
            && IsNumber(w[4..6], e.version) && w[7] == flags
            && (e.kind == RosSerialized ==> w[6] == 0) && (e.kind == Jpeg ==> w[6] == 1)
            && (e.kind == PointCloudCompressed ==> w[6] == 2)
            && (e.kind == ServiceRequest ==> w[6] == 3) && (e.kind == ServiceResponse ==> w[6] == 4)
            && IsNumber(w[8..16], e.sequence)
            && IsNumber(w[16..24], if e.sourceTimeNs < 0 then 18446744073709551616 + e.sourceTimeNs else e.sourceTimeNs)
            && IsNumber(w[24..28], e.headerSequence)
  {
    SevenParts(Wire(e, flags), MAGIC, BigEndian(2, e.version), BigEndian(1, KindCode(e.kind)), BigEndian(1, flags),
               BigEndian(8, e.sequence), BigEndian(8, ToUnsigned(e.sourceTimeNs)), BigEndian(4, e.headerSequence),
               MetadataWire(e));
    FlagsByte(e, flags);
    BigEndianIsNumber(2, e.version);
    SingleByte(KindCode(e.kind));
    assert Wire(e, flags)[6..7][0] == KindCode(e.kind);
    BigEndianIsNumber(8, e.sequence);
    BigEndianIsNumber(8, ToUnsigned(e.sourceTimeNs));
    BigEndianIsNumber(4, e.headerSequence);
  }

  // The variable parts of an encoding: four texts, then the payload under its length
  lemma MetadataBytes(e: Envelope, flags: Byte)
    ensures var w := Wire(e, flags);
            var t := 30 + |e.sourceHost|;
            var m := t + 2 + |e.rosType|;
            var f := m + 2 + |e.rosMd5|;
            var p := f + 2 + |e.frameId|;
            && |w| == p + 4 + |e.payload|
            && IsText(w[28..t], e.sourceHost) && IsText(w[t..m], e.rosType) && IsText(w[m..f], e.rosMd5)
            && IsText(w[f..p], e.frameId) && IsNumber(w[p..p + 4], |e.payload|) && w[p + 4..] == e.payload
  {
    var w := Wire(e, flags);
    var t := 30 + |e.sourceHost|;
    var m := t + 2 + |e.rosType|;
    var f := m + 2 + |e.rosMd5|;
    var p := f + 2 + |e.frameId|;
    assert |w| >= 28 && w[28..] == MetadataWire(e);
    FiveParts(w, StringWire(e.sourceHost), StringWire(e.rosType), StringWire(e.rosMd5), StringWire(e.frameId),
              BigEndian(4, |e.payload|), e.payload);
    StringWireIsText(e.sourceHost);
    StringWireIsText(e.rosType);
    StringWireIsText(e.rosMd5);
    StringWireIsText(e.frameId);
    BigEndianIsNumber(4, |e.payload|);
  }

  lemma FiveParts(w: seq<Byte>, a: seq<Byte>, b: seq<Byte>, c: seq<Byte>, d: seq<Byte>, n: seq<Byte>, rest: seq<Byte>)
    requires |w| >= 28 && w[28..] == a + (b + (c + (d + (n + rest))))
    ensures var t := 28 + |a|;
            var m := t + |b|;
            var f := m + |c|;
            var p := f + |d|;
            && |w| == p + |n| + |rest|
            && w[28..t] == a && w[t..m] == b && w[m..f] == c && w[f..p] == d && w[p..p + |n|] == n
            && w[p + |n|..] == rest
  {
    NextPart(w, 28, a, b + (c + (d + (n + rest))));
    NextPart(w, 28 + |a|, b, c + (d + (n + rest)));
    NextPart(w, 28 + |a| + |b|, c, d + (n + rest));
    NextPart(w, 28 + |a| + |b| + |c|, d, n + rest);
    NextPart(w, 28 + |a| + |b| + |c| + |d|, n, rest);
  }

  // What can be encoded, in numbers
  lemma EncodableLimits(e: Envelope)
    ensures Encodable(e) <==> (e.version == 1 && |e.payload| <= 536870912 && |e.sourceHost| < 65536
                               && |e.rosType| < 65536 && |e.rosMd5| < 65536 && |e.frameId| < 65536)
  {
  }

  // The header error of any data, from its bytes
  lemma HeaderErrors(data: seq<Byte>)
    ensures HeaderError(data) == Some(BadMagic)
       <==> |data| < 4 || data[..4] != [0x4E, 0x42, 0x5A, 0x31]
    ensures HeaderError(data) == Some(TruncatedHeader)
       <==> 4 <= |data| < 28 && data[..4] == [0x4E, 0x42, 0x5A, 0x31]
    ensures |data| >= 28 && data[..4] == [0x4E, 0x42, 0x5A, 0x31] ==>
              && (HeaderError(data) == Some(UnsupportedVersion) <==> data[4] != 0 || data[5] != 1)
              && (HeaderError(data) == Some(BadKind) <==> data[4] == 0 && data[5] == 1 && data[6] > 4)
              && (HeaderError(data) == None <==> data[4] == 0 && data[5] == 1 && data[6] <= 4)
  {
    if |data| >= 28 {
      assert DropLast(data[4..6]) == [data[4]] && DropLast([data[4]]) == [];
      assert Value([data[4]]) == data[4];
      var high: int, low: int := data[4], data[5];
      assert Value(data[4..6]) == high * 256 + low;
    }
  }

  // ----- Main results -----

  // Decoding an encoding gives the envelope back, and nothing else decodes to it.
  lemma RoundTrip(e: Envelope, flags: Byte, d: Envelope)
    requires Encodable(e) && Encodable(d)
    requires |Wire(e, flags)| > 7 && Wire(e, flags) == Wire(d, Wire(e, flags)[7])
    ensures d == e
  {
    assert Wire(d, Wire(e, flags)[7]) + [] == Wire(d, Wire(e, flags)[7]);
    PrefixFree(d, Wire(e, flags)[7], e, flags, []);
  }

  // A strict prefix or a strict extension of an encoding is never accepted.
  lemma TruncatedOrExtendedIsRejected(e: Envelope, flags: Byte, data: seq<Byte>)
    requires Encodable(e)
    requires data < Wire(e, flags) || Wire(e, flags) < data
    ensures !Accepts(data)
  {
    forall d: Envelope, g: Byte | Encodable(d) && data == Wire(d, g)
      ensures false
    {
      if data < Wire(e, flags) {
        PrefixFree(d, g, e, flags, Wire(e, flags)[|data|..]);
      } else {
        PrefixFree(e, flags, d, g, data[|Wire(e, flags)|..]);
      }
    }
  }

  // The two methods composed: every envelope that encodes decodes to itself.
  method EncodeThenDecode(e: Envelope, before: Envelope) returns (sent: bool, received: Envelope)
    ensures sent <==> Encodable(e)
    ensures received == if sent then e else before
  {
    var wire, encodeError := EncodeEnvelope(e, []);
    if encodeError.Some? {
      return false, before;
    }
    var decodeError;
    assert Accepts(wire);
    received, decodeError := DecodeEnvelope(wire, before);
    FlagsByte(e, 0);
    RoundTrip(e, 0, received);
    sent := true;
  }

  // Every accepted byte string re-encodes to itself with the reserved byte zeroed.
  method DecodeThenEncode(data: seq<Byte>) returns (accepted: bool, again: seq<Byte>)
    ensures accepted <==> Accepts(data)
    ensures accepted ==> |data| > 7 && again == data[7 := 0]
  {
    var e, decodeError := DecodeEnvelope(data, DEFAULT_ENVELOPE);
    if decodeError.Some? {
      return false, [];
    }
    var encodeError;
    again, encodeError := EncodeEnvelope(e, []);
    FlagsByte(e, data[7]);
    accepted := true;
  }
}
