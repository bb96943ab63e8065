/**
 * The SDS-TL text PDU of deploy/scripts/tetrapack_brew_bridge.py (clause 29.4 of ETSI EN 300 392-2):
 * building it from a text, parsing it from any bytes under any claimed length, and the BREW frame
 * that carries it.
 */
module SdsText {
  import opened Common
  import opened Bits

  type CodePoint = c: int | 0 <= c < 0x11_0000
  type Text = seq<CodePoint>

  const PID_TEXT_MESSAGING := 0x82
  const SDS_TRANSFER := 0
  const DELIVERY_REPORT_RECEIVED := 1
  const SERVICE_SELECTION_INDIVIDUAL := 0
  const STORAGE_FORWARD_NONE := 0
  const UTF16BE := 0x1A
  const HEADER_BITS := 32

  // ------------------------------------------------------------------ UTF-16, big endian

  predicate IsSurrogate(c: int) { 0xD800 <= c < 0xE000 }

  /** Text that str.encode accepts: no lone surrogates. */
  predicate Encodable(t: Text) {
    forall i :: 0 <= i < |t| ==> !IsSurrogate(t[i])
  }

  function HighSurrogate(c: CodePoint): uint16
    requires c >= 0x1_0000
  {
    0xD800 + (c - 0x1_0000) / 0x400
  }

  function LowSurrogate(c: CodePoint): uint16
    requires c >= 0x1_0000
  {
    0xDC00 + (c - 0x1_0000) % 0x400
  }

  function EncodedChar(c: CodePoint): seq<byte> {
    if c < 0x1_0000 then U16(c) else U16(HighSurrogate(c)) + U16(LowSurrogate(c))
  }

  function EncodedUtf16(t: Text): (d: seq<byte>)
    ensures |d| % 2 == 0 && |d| >= 2 * |t|
  {
    if t == [] then [] else EncodedChar(t[0]) + EncodedUtf16(t[1..])
  }

  /** bytes.decode: nothing on an odd length or an unpaired surrogate. */
  function DecodedUtf16(d: seq<byte>): Option<Text> {
    if d == [] then Some([])
    else if |d| < 2 then None
    else
      var u := ReadU16(d, 0);
      if !IsSurrogate(u) then Prepended(u, DecodedUtf16(d[2..]))
      else if u < 0xDC00 && |d| >= 4 && 0xDC00 <= ReadU16(d, 2) < 0xE000 then
        Prepended(0x1_0000 + (u - 0xD800) * 0x400 + (ReadU16(d, 2) - 0xDC00), DecodedUtf16(d[4..]))
      else None
  }

  function Prepended(c: CodePoint, rest: Option<Text>): Option<Text> {
    match rest
    case None => None
    case Some(t) => Some([c] + t)
  }

  lemma WordOfU16(v: uint16)
    ensures Word(U16(v)[0], U16(v)[1]) == v
  {
  }

  lemma CharRoundTrip(c: CodePoint, d: seq<byte>)
    requires !IsSurrogate(c)
    ensures DecodedUtf16(EncodedChar(c) + d) == Prepended(c, DecodedUtf16(d))
  {
    var e := EncodedChar(c) + d;
    if c < 0x1_0000 {
      WordOfU16(c);
      assert e[2..] == d && ReadU16(e, 0) == c;
    } else {
      var h, l := HighSurrogate(c), LowSurrogate(c);
      WordOfU16(h);
      WordOfU16(l);
      assert ReadU16(e, 0) == h && ReadU16(e, 2) == l;
      assert e[4..] == d;
    }
  }

  /** Every text without lone surrogates is decoded back whole. */
  lemma {:induction false} Utf16RoundTrip(t: Text)
    requires Encodable(t)
    ensures DecodedUtf16(EncodedUtf16(t)) == Some(t)
  {
    if t != [] {
      Utf16RoundTrip(t[1..]);
      CharRoundTrip(t[0], EncodedUtf16(t[1..]));
      assert t == [t[0]] + t[1..];
    }
  }

  // ------------------------------------------------------------------ stripping

  predicate IsSpace(c: CodePoint) { IsSpaceCode(c) }

  function RStripNul(t: Text): Text {
    if t != [] && t[|t| - 1] == 0 then RStripNul(t[..|t| - 1]) else t
  }

  function RStrip(t: Text): Text {
    if t != [] && IsSpace(t[|t| - 1]) then RStrip(t[..|t| - 1]) else t
  }

  function LStrip(t: Text): Text {
    if t != [] && IsSpace(t[0]) then LStrip(t[1..]) else t
  }

  /** rstrip("\x00").strip() or None */
  function Presented(t: Text): Option<Text> {
    var s := LStrip(RStrip(RStripNul(t)));
    if s == [] then None else Some(s)
  }

  lemma {:induction false} StripsShorten(t: Text)
    ensures |RStripNul(t)| <= |t| && |RStrip(t)| <= |t| && |LStrip(t)| <= |t|
  {
    if t != [] {
      StripsShorten(t[..|t| - 1]);
      StripsShorten(t[1..]);
    }
  }

  /** Text that stripping leaves alone. */
  predicate Stable(t: Text) {
    t != [] && t[|t| - 1] != 0 && !IsSpace(t[0]) && !IsSpace(t[|t| - 1])
  }

  lemma PresentedIffStable(t: Text)
    ensures Presented(t) == Some(t) <==> Stable(t)
  {
    var a := RStripNul(t);
    var b := RStrip(a);
    StripsShorten(t);
    StripsShorten(a);
    StripsShorten(b);
    if Presented(t) == Some(t) {
      NoShorter(t);
      NoShorter(a);
      NoShorter(b);
    }
  }

  lemma NoShorter(t: Text)
    ensures |RStripNul(t)| == |t| ==> RStripNul(t) == t && (t == [] || t[|t| - 1] != 0)
    ensures |RStrip(t)| == |t| ==> RStrip(t) == t && (t == [] || !IsSpace(t[|t| - 1]))
    ensures |LStrip(t)| == |t| ==> LStrip(t) == t && (t == [] || !IsSpace(t[0]))
  {
    if t != [] {
      StripsShorten(t[..|t| - 1]);
      StripsShorten(t[1..]);
    }
  }

  // ------------------------------------------------------------------ building

  /** The pushes in front of the text. */
  function Header(reference: nat): seq<Field> {
    [Field(PID_TEXT_MESSAGING, 8), Field(SDS_TRANSFER, 4), Field(DELIVERY_REPORT_RECEIVED, 2), Field(SERVICE_SELECTION_INDIVIDUAL, 1),
     Field(STORAGE_FORWARD_NONE, 1), Field(reference % 0x100, 8), Field(0, 1), Field(UTF16BE, 7)]
  }

  /** build_text_sds_type4_pdu; nothing where the text cannot be encoded. */
  function Built(t: Text, reference: nat): Option<seq<byte>> {
    if Encodable(t) then Some(Pack(Pushed(Header(reference)) + Unpack(EncodedUtf16(t)))) else None
  }

  method BuildTextSds(t: Text, reference: nat) returns (payload: Option<seq<byte>>)
    ensures payload == Built(t, reference)
  {
    hide BitsOf, Pack, Unpack, EncodedUtf16;
    var writer := new BitWriter();
    writer.Push(PID_TEXT_MESSAGING, 8);
    writer.Push(SDS_TRANSFER, 4);
    writer.Push(DELIVERY_REPORT_RECEIVED, 2);
    writer.Push(SERVICE_SELECTION_INDIVIDUAL, 1);
    writer.Push(STORAGE_FORWARD_NONE, 1);
    writer.Push(reference % 0x100, 8);
    writer.Push(0, 1);
    writer.Push(UTF16BE, 7);
    HeaderPushes(reference);
    if !Encodable(t) { return None; }
    writer.PushBytes(EncodedUtf16(t));
    var bytes := writer.ToBytes();
    return Some(bytes);
  }

  lemma HeaderPushes(reference: nat)
    ensures Pushed(Header(reference)) ==
            [] + BitsOf(PID_TEXT_MESSAGING, 8) + BitsOf(SDS_TRANSFER, 4) + BitsOf(DELIVERY_REPORT_RECEIVED, 2) +
            BitsOf(SERVICE_SELECTION_INDIVIDUAL, 1) + BitsOf(STORAGE_FORWARD_NONE, 1) + BitsOf(reference % 0x100, 8) +
            BitsOf(0, 1) + BitsOf(UTF16BE, 7)
    ensures |Pushed(Header(reference))| == HEADER_BITS
  {
    hide BitsOf;
    var h := Header(reference);
    PushedPrefix(h, 8);
    PushedPrefix(h, 7);
    PushedPrefix(h, 6);
    PushedPrefix(h, 5);
    PushedPrefix(h, 4);
    PushedPrefix(h, 3);
    PushedPrefix(h, 2);
    PushedPrefix(h, 1);
    assert h[..8] == h && h[..0] == [];
  }

  lemma PushedPrefix(fields: seq<Field>, n: nat)
    requires 0 < n <= |fields|
    ensures Pushed(fields[..n]) == Pushed(fields[..n - 1]) + BitsOf(fields[n - 1].value, fields[n - 1].width)
  {
    assert fields[..n][..n - 1] == fields[..n - 1];
  }

  // ------------------------------------------------------------------ parsing

  /** The 8-bit character sets, by coding; nothing where the bytes do not decode. */
  type Codecs = (nat, seq<byte>) -> Option<Text>

  /** The claimed length, cut to what is there. */
  function Clamped(lengthBits: Option<int>, available: nat): (n: nat)
    ensures n <= available
  {
    match lengthBits
    case None => available
    case Some(n) => if n < 0 then 0 else if n > available then available else n
  }

  function EvenPart(d: seq<byte>): seq<byte> { d[..|d| - |d| % 2] }

  /** The text bytes under their coding. */
  function DecodedText(coding: nat, bytes: seq<byte>, codecs: Codecs): Option<Text> {
    if coding == UTF16BE then
      if EvenPart(bytes) == [] then None else OrNone(DecodedUtf16(EvenPart(bytes)))
    else if 0x01 <= coding <= 0x19 && bytes != [] then OrNone(codecs(coding, bytes))
    else None
  }

  function OrNone(t: Option<Text>): Option<Text> {
    match t
    case None => None
    case Some(x) => Presented(x)
  }

  /** Where the text coding starts: behind the time stamp, if there is one. */
  function CodingOffset(b: seq<bit>): nat
    requires |b| >= HEADER_BITS
  {
    if b[24] == 1 then 49 else 25
  }

  /** parse_text_sds_type4_pdu, as a function of the bits within the claimed length and of nothing else. */
  function Parsed(b: seq<bit>, codecs: Codecs): Option<Text> {
    if |b| < HEADER_BITS || Number(b[0..8]) != PID_TEXT_MESSAGING || Number(b[8..12]) != SDS_TRANSFER then None
    else if |b| < CodingOffset(b) + 7 then None
    else
      var body := b[CodingOffset(b) + 7..];
      if |body| < 8 then None
      else DecodedText(Number(b[CodingOffset(b)..CodingOffset(b) + 7]), Pack(body[..8 * (|body| / 8)]), codecs)
  }

  /** read_bits */
  method ReadBitsOf(payload: seq<byte>, offset: nat, count: nat) returns (value: nat)
    requires offset + count <= 8 * |payload|
    ensures value == Number(Unpack(payload)[offset..offset + count])
  {
    hide GetBit, Number;
    NothingRead(payload, offset);
    value := 0;
    for i := offset to offset + count
      invariant value == Number(Unpack(payload)[offset..i])
    {
      NextBit(payload, offset, i);
      value := 2 * value + GetBit(payload, i);
    }
  }

  lemma NothingRead(payload: seq<byte>, offset: nat)
    requires offset <= 8 * |payload|
    ensures Number(Unpack(payload)[offset..offset]) == 0
  {
  }

  lemma NextBit(payload: seq<byte>, offset: nat, i: nat)
    requires offset <= i < 8 * |payload|
    ensures Number(Unpack(payload)[offset..i + 1]) == 2 * Number(Unpack(payload)[offset..i]) + GetBit(payload, i)
  {
    hide GetBit, Number;
    var b := Unpack(payload);
    assert b[offset..i + 1] == b[offset..i] + [b[i]];
    NumberAppend(b[offset..i], b[i]);
  }

  /** A field within the claimed length, read from the payload, is the field of the claimed bits. */
  lemma WithinLength(payload: seq<byte>, n: nat, i: nat, j: nat)
    requires i <= j <= n <= 8 * |payload|
    ensures Unpack(payload)[i..j] == Unpack(payload)[..n][i..j]
  {
    hide Unpack;
    var b := Unpack(payload);
    forall m | 0 <= m < j - i ensures b[i..j][m] == b[..n][i..j][m] {
      assert b[..n][i + m] == b[i + m];
    }
    assert b[i..j] == b[..n][i..j];
  }

  lemma OneBit(b: seq<bit>, i: nat)
    requires i < |b|
    ensures Number(b[i..i + 1]) == b[i]
  {
    assert b[i..i + 1] == [] + [b[i]];
    NumberAppend([], b[i]);
  }

  lemma SliceOfSlice(b: seq<bit>, i: nat, j: nat, k: nat)
    requires i <= k <= k + 8 <= j <= |b|
    ensures b[i..j][k - i..k - i + 8] == b[k..k + 8]
  {
    var part, wanted := b[i..j][k - i..k - i + 8], b[k..k + 8];
    forall m | 0 <= m < |part|
      ensures part[m] == wanted[m]
    {
      assert part[m] == b[i..j][k - i + m] == b[k + m];
    }
  }

  method ReadTextBytes(payload: seq<byte>, offset: nat, length: nat) returns (bytes: seq<byte>)
    requires offset <= length <= 8 * |payload|
    ensures bytes == Pack(Unpack(payload)[offset..offset + 8 * ((length - offset) / 8)])
  {
    hide Number, Pack, Unpack;
    var end := offset + 8 * ((length - offset) / 8);
    ghost var body := Unpack(payload)[offset..end];
    assert Padded(body) == body;
    bytes := [];
    var byteOffset := offset;
    while byteOffset < end
      invariant byteOffset == offset + 8 * |bytes| && byteOffset <= end
      invariant bytes == Pack(body)[..|bytes|]
    {
      var value := ReadBitsOf(payload, byteOffset, 8);
      PackStep(body, |bytes|);
      SliceOfSlice(Unpack(payload), offset, end, byteOffset);
      bytes := bytes + [value];
      byteOffset := byteOffset + 8;
    }
  }

  /** parse_text_sds_type4_pdu: reads no bit outside the payload, and depends on no bit beyond the claimed length. */
  method ParseTextSds(payload: seq<byte>, lengthBits: Option<int>, codecs: Codecs) returns (text: Option<Text>)
    ensures text == Parsed(Unpack(payload)[..Clamped(lengthBits, 8 * |payload|)], codecs)
  {
    hide Number, Pack, Unpack, DecodedText;
    var length := Clamped(lengthBits, 8 * |payload|);
    ghost var b := Unpack(payload)[..length];
    if length < HEADER_BITS { return None; }
    WithinLength(payload, length, 0, 8);
    WithinLength(payload, length, 8, 12);
    WithinLength(payload, length, 24, 25);
    OneBit(b, 24);
    var pid := ReadBitsOf(payload, 0, 8);
    if pid != PID_TEXT_MESSAGING { return None; }
    var kind := ReadBitsOf(payload, 8, 4);
    if kind != SDS_TRANSFER { return None; }
    var timestampUsed := ReadBitsOf(payload, 24, 1);
    var offset := 25;
    if timestampUsed != 0 {
      if length < offset + 24 + 7 { return None; }
      offset := offset + 24;
    }
    WithinLength(payload, length, offset, offset + 7);
    var coding := ReadBitsOf(payload, offset, 7);
    offset := offset + 7;
    var textBits := length - offset;
    if textBits < 8 { return None; }
    var bytes := ReadTextBytes(payload, offset, length);
    TextWithinLength(payload, length, offset);
    text := DecodeText(coding, bytes, codecs);
  }

  /** The text bytes read from the payload are those of the claimed bits. */
  lemma TextWithinLength(payload: seq<byte>, length: nat, offset: nat)
    requires offset <= length <= 8 * |payload|
    ensures var body := Unpack(payload)[..length][offset..];
            && |body| == length - offset
            && body[..8 * (|body| / 8)] == Unpack(payload)[offset..offset + 8 * ((length - offset) / 8)]
  {
  }

  method DecodeText(coding: nat, bytes: seq<byte>, codecs: Codecs) returns (text: Option<Text>)
    ensures text == DecodedText(coding, bytes, codecs)
  {
    hide DecodedUtf16, Presented;
    var textBytes := bytes;
    if coding == UTF16BE && |textBytes| % 2 != 0 { textBytes := textBytes[..|textBytes| - 1]; }
    assert coding == UTF16BE ==> textBytes == EvenPart(bytes);
    if (coding != UTF16BE && !(0x01 <= coding <= 0x19)) || textBytes == [] { return None; }
    var decoded := if coding == UTF16BE then DecodedUtf16(textBytes) else codecs(coding, textBytes);
    match decoded {
      case None => return None;
      case Some(t) => return Presented(t);
    }
  }

  // ------------------------------------------------------------------ what is parsed

  /** A text PDU bit by bit: kind of message and transfer, reference and flags, a time stamp if the last flag says so, the coding, the text. */
  function Pdu(pid: byte, transfer: nat, middle: seq<bit>, stamp: Option<seq<bit>>, coding: nat, bytes: seq<byte>, tail: seq<bit>): seq<bit> {
    BitsOf(pid, 8) + BitsOf(transfer, 4) + middle + (match stamp case None => [0] case Some(t) => [1] + t) + BitsOf(coding, 7) + Unpack(bytes) + tail
  }

  /**
   * What is parsed, exactly: the text bytes of every text message transfer, whatever its middle bits, with or without a time
   * stamp and bits beyond the last whole byte - as UTF-16 without an odd last byte, or in one of the 8-bit sets 1 to 25 -
   * and of nothing else.
   */
  lemma ParsedExactly(pid: byte, transfer: nat, middle: seq<bit>, stamp: Option<seq<bit>>, coding: nat, bytes: seq<byte>, tail: seq<bit>, codecs: Codecs)
    requires transfer < 16 && |middle| == 12 && (stamp.Some? ==> |stamp.value| == 24) && coding < 128 && |tail| < 8
    ensures Parsed(Pdu(pid, transfer, middle, stamp, coding, bytes, tail), codecs) ==
            if pid != 0x82 || transfer != 0 then None
            else if coding == 0x1A then
              (if |bytes| < 2 then None else OrNone(DecodedUtf16(bytes[..2 * (|bytes| / 2)])))
            else if 1 <= coding <= 25 && bytes != [] then OrNone(codecs(coding, bytes))
            else None
  {
    hide BitsOf, Number, Unpack, Pack, DecodedUtf16, OrNone;
    PduParts(pid, transfer, middle, stamp, coding, bytes, tail);
    NumberOfBits(pid, 8);
    NumberOfBits(transfer, 4);
    NumberOfBits(coding, 7);
    Pow2Of8();
    assert Pow2(4) == 16 && Pow2(7) == 128;
    PackOfUnpack(bytes);
    assert EvenPart(bytes) == bytes[..2 * (|bytes| / 2)];
  }

  lemma PduParts(pid: byte, transfer: nat, middle: seq<bit>, stamp: Option<seq<bit>>, coding: nat, bytes: seq<byte>, tail: seq<bit>)
    requires |middle| == 12 && (stamp.Some? ==> |stamp.value| == 24) && |tail| < 8
    ensures var b := Pdu(pid, transfer, middle, stamp, coding, bytes, tail);
            && |b| >= 32 && b[0..8] == BitsOf(pid, 8) && b[8..12] == BitsOf(transfer, 4)
            && CodingOffset(b) == (if stamp.Some? then 49 else 25) && CodingOffset(b) + 7 <= |b|
            && b[CodingOffset(b)..CodingOffset(b) + 7] == BitsOf(coding, 7)
            && var body := b[CodingOffset(b) + 7..];
               |body| == 8 * |bytes| + |tail| && body[..8 * (|body| / 8)] == Unpack(bytes)
  {
    hide BitsOf, Unpack;
    var flag := match stamp case None => [0] case Some(t) => [1] + t;
    var front := BitsOf(pid, 8) + BitsOf(transfer, 4) + middle;
    var b := Pdu(pid, transfer, middle, stamp, coding, bytes, tail);
    assert b == front + (flag + (BitsOf(coding, 7) + (Unpack(bytes) + tail)));
    assert b[24] == flag[0];
    Parts(front, flag, BitsOf(coding, 7), Unpack(bytes) + tail);
    assert (8 * |bytes| + |tail|) / 8 == |bytes|;
    assert (Unpack(bytes) + tail)[..8 * |bytes|] == Unpack(bytes);
    assert b[0..8] == BitsOf(pid, 8);
    assert b[8..12] == BitsOf(transfer, 4);
  }

  lemma Parts(front: seq<bit>, flag: seq<bit>, coding: seq<bit>, body: seq<bit>)
    ensures var b := front + (flag + (coding + body)); var at := |front| + |flag|;
            b[at..at + |coding|] == coding && b[at + |coding|..] == body
  {
  }

  // ------------------------------------------------------------------ the round trip

  lemma HeaderReads(reference: nat)
    ensures var b := Pushed(Header(reference));
            && |b| == HEADER_BITS && Number(b[0..8]) == PID_TEXT_MESSAGING && Number(b[8..12]) == SDS_TRANSFER
            && b[24] == 0 && Number(b[25..32]) == UTF16BE && Number(b[16..24]) == reference % 0x100
  {
    hide BitsOf, Number;
    HeaderPushes(reference);
    var b := Pushed(Header(reference));
    assert b[0..8] == BitsOf(PID_TEXT_MESSAGING, 8) && b[8..12] == BitsOf(SDS_TRANSFER, 4) && b[16..24] == BitsOf(reference % 0x100, 8);
    assert b[24..25] == BitsOf(0, 1) && b[25..32] == BitsOf(UTF16BE, 7);
    NumberOfBits(PID_TEXT_MESSAGING, 8);
    NumberOfBits(SDS_TRANSFER, 4);
    NumberOfBits(reference % 0x100, 8);
    NumberOfBits(0, 1);
    NumberOfBits(UTF16BE, 7);
    OneBit(b, 24);
    Pow2Of8();
    assert Pow2(7) == 128 by { assert Pow2(8) == 2 * Pow2(7); }
  }

  /**
   * What is built parses to the text as presented, whatever the reference: under no claimed length,
   * the exact one or a longer one.
   */
  lemma SdsRoundTrip(t: Text, reference: nat, lengthBits: Option<int>, codecs: Codecs)
    requires Encodable(t)
    requires lengthBits.Some? ==> lengthBits.value >= 8 * |Built(t, reference).value|
    ensures var payload := Built(t, reference).value;
            Parsed(Unpack(payload)[..Clamped(lengthBits, 8 * |payload|)], codecs) == Presented(t)
  {
    hide Built, Unpack, Parsed, Presented, Clamped;
    BuiltParses(t, reference, codecs);
    WholeTaken(Unpack(Built(t, reference).value), lengthBits);
  }

  lemma BuiltParses(t: Text, reference: nat, codecs: Codecs)
    requires Encodable(t)
    ensures Built(t, reference).Some? && Parsed(Unpack(Built(t, reference).value), codecs) == Presented(t)
  {
    hide Pack, Unpack, Number, BitsOf, EncodedUtf16, Pushed, Header, Padded, Parsed, Presented;
    var header, d := Pushed(Header(reference)), EncodedUtf16(t);
    HeaderReads(reference);
    UnpackOfPack(header + Unpack(d));
    WholeBytes(header + Unpack(d));
    ParsedBehindHeader(t, header, d, codecs);
  }

  lemma WholeTaken(b: seq<bit>, lengthBits: Option<int>)
    requires lengthBits.Some? ==> lengthBits.value >= |b|
    ensures b[..Clamped(lengthBits, |b|)] == b
  {
    assert b[..|b|] == b;
  }

  lemma WholeBytes(b: seq<bit>)
    requires |b| % 8 == 0
    ensures Padded(b) == b
  {
  }

  lemma HeaderInFront(header: seq<bit>, rest: seq<bit>)
    requires |header| == HEADER_BITS
    ensures var b := header + rest;
            && b[0..8] == header[0..8] && b[8..12] == header[8..12] && b[24] == header[24] && b[25..32] == header[25..32]
            && b[HEADER_BITS..] == rest
  {
  }

  lemma ParsedBehindHeader(t: Text, header: seq<bit>, d: seq<byte>, codecs: Codecs)
    requires Encodable(t) && d == EncodedUtf16(t) && |header| == HEADER_BITS
    requires Number(header[0..8]) == PID_TEXT_MESSAGING && Number(header[8..12]) == SDS_TRANSFER
    requires header[24] == 0 && Number(header[25..32]) == UTF16BE
    ensures Parsed(header + Unpack(d), codecs) == Presented(t)
  {
    hide Pack, Unpack, Number, EncodedUtf16, DecodedUtf16, Presented;
    var body := Unpack(d);
    HeaderInFront(header, body);
    assert body[..8 * (|body| / 8)] == body;
    PackOfUnpack(d);
    Utf16RoundTrip(t);
    assert EvenPart(d) == d;
    if d == [] {
      assert t == [];
      NothingPresented();
    }
  }

  lemma NothingPresented()
    ensures Presented([]) == None
  {
  }

  /** A text comes back unchanged exactly when it is encodable and stripping leaves it alone. */
  lemma SdsTextSurvives(t: Text, reference: nat, codecs: Codecs)
    ensures (Built(t, reference).Some? && Parsed(Unpack(Built(t, reference).value), codecs) == Some(t)) <==> Encodable(t) && Stable(t)
  {
    hide Pack, Unpack, Parsed, Presented, Stable;
    PresentedIffStable(t);
    if Encodable(t) {
      SdsRoundTrip(t, reference, None, codecs);
      var payload := Built(t, reference).value;
      assert Unpack(payload)[..8 * |payload|] == Unpack(payload);
    }
  }

  // ------------------------------------------------------------------ the BREW frame

  type Uuid = u: seq<byte> | |u| == 16 witness seq(16, _ => 0)

  /** build_brew_sds_transfer; nothing where the bit length overflows its two bytes. */
  function TransferFrame(session: Uuid, payload: seq<byte>): Option<seq<byte>> {
    var bits := 8 * |payload|;
    if bits < 0x1_0000 then Some([0xF2, 1] + session + [bits % 0x100, bits / 0x100] + payload) else None
  }

  /** The claimed bit length and the payload bytes, as the audio bridge takes them from a frame. */
  function ReceivedPayload(frame: seq<byte>): (int, seq<byte>)
    requires |frame| >= 20
  {
    var bits: int := Word(frame[19], frame[18]);
    var end := 20 + (bits + 7) / 8;
    (bits, if end <= |frame| then frame[20..end] else frame[20..])
  }

  /** A built text crosses the BREW frame and is presented at the other end, as long as it fits the frame's length field. */
  lemma SdsFrameRoundTrip(t: Text, reference: nat, session: Uuid, codecs: Codecs)
    requires Encodable(t)
    ensures var payload := Built(t, reference).value;
            var frame := TransferFrame(session, payload);
            && (frame.Some? <==> |EncodedUtf16(t)| <= 8187)
            && (frame.Some? ==>
                  |frame.value| >= 20 &&
                  var (bits, received) := ReceivedPayload(frame.value);
                  Parsed(Unpack(received)[..Clamped(Some(bits), 8 * |received|)], codecs) == Presented(t))
  {
    hide Pack, Unpack, Parsed, Presented, Pushed, Header, EncodedUtf16;
    var payload := Built(t, reference).value;
    HeaderReads(reference);
    var frame := TransferFrame(session, payload);
    if frame.Some? {
      var bits := 8 * |payload|;
      assert frame.value[18] == bits % 0x100 && frame.value[19] == bits / 0x100;
      assert Word(frame.value[19], frame.value[18]) == bits;
      assert frame.value[20..20 + |payload|] == payload;
      assert ReceivedPayload(frame.value) == (bits, payload);
      SdsRoundTrip(t, reference, Some(bits), codecs);
    }
  }
}
