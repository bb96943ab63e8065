/**
 * Motorola TMS text messages of src/SmsSubsystem.cpp: building, parsing, the printable-run
 * fallback, and the acknowledgement. Text is a sequence of UTF-16 code units.
 */
module TmsText {
  import opened Common
  import opened Decimal
  import opened Ipv4Udp

  type Text = seq<uint16>

  const CR: uint16 := 0x0D
  const LF: uint16 := 0x0A

  /** isPrintableUtf16 */
  predicate Printable(v: uint16) {
    v == 0x0D || v == 0x0A || v == 0x09 || 0x20 <= v <= 0x7E || (0xA0 <= v && !(0xD800 <= v <= 0xDFFF))
  }

  predicate Blank(v: uint16) { v == 0x20 || v == 0x09 || v == 0x0D || v == 0x0A }

  predicate AllPrintable(t: Text) { forall i :: 0 <= i < |t| ==> Printable(t[i]) }

  predicate AllBlank(t: Text) { forall i :: 0 <= i < |t| ==> Blank(t[i]) }

  function TrimFront(t: Text): Text {
    if t != [] && Blank(t[0]) then TrimFront(t[1..]) else t
  }

  function TrimBack(t: Text): Text {
    if t != [] && Blank(t[|t| - 1]) then TrimBack(t[..|t| - 1]) else t
  }

  function Trim(t: Text): Text { TrimBack(TrimFront(t)) }

  lemma {:induction false} TrimFrontParts(t: Text) returns (front: Text)
    ensures t == front + TrimFront(t) && AllBlank(front)
    ensures TrimFront(t) != [] ==> !Blank(TrimFront(t)[0])
  {
    if t != [] && Blank(t[0]) {
      var rest := TrimFrontParts(t[1..]);
      front := [t[0]] + rest;
    } else {
      front := [];
    }
  }

  lemma {:induction false} TrimBackParts(t: Text) returns (back: Text)
    ensures t == TrimBack(t) + back && AllBlank(back)
    ensures TrimBack(t) != [] ==> !Blank(TrimBack(t)[|TrimBack(t)| - 1])
  {
    if t != [] && Blank(t[|t| - 1]) {
      var rest := TrimBackParts(t[..|t| - 1]);
      back := rest + [t[|t| - 1]];
    } else {
      back := [];
    }
  }

  /** Trimming cuts off exactly the blanks at both ends. */
  lemma TrimParts(t: Text) returns (front: Text, back: Text)
    ensures t == front + Trim(t) + back && AllBlank(front) && AllBlank(back)
    ensures Trim(t) != [] ==> !Blank(Trim(t)[0]) && !Blank(Trim(t)[|Trim(t)| - 1])
    ensures Trim(t) == [] <==> AllBlank(t)
  {
    front := TrimFrontParts(t);
    back := TrimBackParts(TrimFront(t));
    var m := TrimFront(t);
    assert m == Trim(t) + back;
    if Trim(t) == [] {
      assert t == front + back;
    } else {
      assert m[0] == Trim(t)[0];
      assert t[|front|] == m[0];
    }
  }

  /** Trimming twice changes nothing, and keeps every unit printable if all were. */
  lemma TrimAgain(t: Text)
    ensures Trim(Trim(t)) == Trim(t)
    ensures AllPrintable(t) ==> AllPrintable(Trim(t))
  {
    var front, back := TrimParts(t);
    var m := Trim(t);
    assert forall i :: 0 <= i < |m| ==> m[i] == t[|front| + i];
    assert TrimFront(m) == m;
    assert TrimBack(m) == m;
  }

  lemma TrimPrintable(t: Text)
    requires AllPrintable(Trim(t))
    ensures AllPrintable(t)
  {
    var front, back := TrimParts(t);
    var m := Trim(t);
    forall i | 0 <= i < |t| ensures Printable(t[i]) {
      assert t[i] == if i < |front| then front[i] else if i < |front| + |m| then m[i - |front|] else back[i - |front| - |m|];
    }
  }

  // ------------------------------------------------------------------ code units as bytes

  function Lo(v: uint16): byte { v % 0x100 }
  function Hi(v: uint16): byte { v / 0x100 }

  /** The code units of `t`, least significant byte first. */
  function Utf16Le(t: Text): (d: seq<byte>)
    ensures |d| == 2 * |t|
  {
    seq(2 * |t|, k requires 0 <= k < 2 * |t| => if k % 2 == 0 then Lo(t[k / 2]) else Hi(t[k / 2]))
  }

  /** The little-endian 16-bit units at the even offsets of `d`. */
  function LeWords(d: seq<byte>): (w: Text)
    ensures |w| == |d| / 2
  {
    seq(|d| / 2, k requires 0 <= k < |d| / 2 => Word(d[2 * k + 1], d[2 * k]))
  }

  lemma LeWordAt(d: seq<byte>, k: nat)
    requires k < |d| / 2
    ensures LeWords(d)[k] == Word(d[2 * k + 1], d[2 * k])
  {
  }

  /** encodeUtf16Le without terminator. */
  method EncodeUtf16Le(text: Text) returns (output: seq<byte>)
    ensures output == Utf16Le(text)
  {
    output := [];
    var i := 0;
    while i < |text|
      invariant 0 <= i <= |text|
      invariant output == Utf16Le(text)[..2 * i]
    {
      output := output + [text[i] % 0x100];
      output := output + [text[i] / 0x100];
      i := i + 1;
    }
  }

  lemma WordsOfHeadAndText(head: seq<byte>, t: Text)
    requires |head| % 2 == 0
    ensures LeWords(head + Utf16Le(t)) == LeWords(head) + t
  {
    var d := head + Utf16Le(t);
    forall k | 0 <= k < |d| / 2
      ensures LeWords(d)[k] == (LeWords(head) + t)[k]
    {
      WordAtSplit(head, t, k);
    }
  }

  lemma WordAtSplit(head: seq<byte>, t: Text, k: nat)
    requires |head| % 2 == 0 && k < |head| / 2 + |t|
    ensures LeWords(head + Utf16Le(t))[k] == if k < |head| / 2 then LeWords(head)[k] else t[k - |head| / 2]
  {
    var d := head + Utf16Le(t);
    if k >= |head| / 2 {
      var u := k - |head| / 2;
      assert d[2 * k] == Utf16Le(t)[2 * u] == Lo(t[u]);
      assert d[2 * k + 1] == Utf16Le(t)[2 * u + 1] == Hi(t[u]);
    } else {
      assert d[2 * k] == head[2 * k] && d[2 * k + 1] == head[2 * k + 1];
    }
  }

  // ------------------------------------------------------------------ building

  function TmsHead(length: uint16, messageId: byte): seq<byte> {
    U16(length) + [0xE0, 0, 0x80 + messageId % 0x20, 4]
  }

  /** buildMotorolaTmsPayload in the BrandMeister format; empty when the length field would overflow. */
  function TmsPayload(text: Text, messageId: byte): seq<byte> {
    var length := 4 + 2 * (2 + |text|);
    if length > 0xFFFF then [] else TmsHead(length, messageId) + Utf16Le([CR, LF] + text)
  }

  /** A radio id's numeral in code units. */
  function NumeralUnits(n: nat): (t: Text)
    ensures |t| == |Numeral(n)| && forall i :: 0 <= i < |t| ==> 0x30 <= t[i] <= 0x39
  {
    seq(|Numeral(n)|, i requires 0 <= i < |Numeral(n)| => 0x30 + DigitValue(Numeral(n)[i]))
  }

  /** The length field of the older format. */
  function MarkedLength(sender: uint32, text: Text): nat { 4 + 2 * |Numeral(sender)| + 2 * |text| }

  function MarkedHead(length: uint16, sender: uint32, messageId: byte): seq<byte> {
    SenderFits(sender);
    AnyHead(length, Utf16Le(NumeralUnits(sender)), messageId)
  }

  /** What both formats put in front of the text. */
  function AnyHead(length: uint16, address: seq<byte>, messageId: byte): seq<byte>
    requires |address| <= 0xFF
  {
    U16(length) + ([0xE0, |address|] + address + [0x80 + messageId % 0x20, 4])
  }

  /** buildMotorolaTmsPayload in the older format: the sender's number in front, and no CR LF. */
  function MarkedPayload(sender: uint32, text: Text, messageId: byte): seq<byte> {
    var length := MarkedLength(sender, text);
    if length > 0xFFFF then [] else MarkedHead(length, sender, messageId) + Utf16Le(text)
  }

  lemma SenderFits(sender: uint32)
    ensures 1 <= |Numeral(sender)| <= 10
  {
    NumeralFits(sender, 10);
  }

  method BuildMotorolaTmsPayload(sender: uint32, text: Text, messageId: byte, brandmeisterFormat: bool) returns (payload: seq<byte>)
    ensures payload == if brandmeisterFormat then TmsPayload(text, messageId) else MarkedPayload(sender, text, messageId)
  {
    hide Utf16Le, NumeralUnits, AnyHead, TmsHead;
    SenderFits(sender);
    var address: seq<byte> := [];
    if !brandmeisterFormat { address := EncodeUtf16Le(NumeralUnits(sender)); }
    payload := [0x00, 0x00, 0xE0, |address|];
    payload := payload + address;
    payload := payload + [0x80 + messageId % 0x20];
    payload := payload + [0x04];
    var body := if brandmeisterFormat then [CR, LF] + text else text;
    var textBytes := EncodeUtf16Le(body);
    ghost var head := payload;
    payload := payload + textBytes;
    if |payload| - 2 > 0xFFFF { return []; }
    var length := |payload| - 2;
    payload := payload[0 := length / 0x100][1 := length % 0x100];
    LengthInPlace(head, address, messageId, length, textBytes);
    HeadsAre(length, messageId);
  }

  lemma LengthInPlace(head: seq<byte>, address: seq<byte>, messageId: byte, length: uint16, tail: seq<byte>)
    requires |address| <= 0xFF && head == [0x00, 0x00, 0xE0, |address|] + address + [0x80 + messageId % 0x20] + [0x04]
    ensures (head + tail)[0 := length / 0x100][1 := length % 0x100] == AnyHead(length, address, messageId) + tail
  {
    var rest := [0xE0, |address|] + address + [0x80 + messageId % 0x20, 4];
    assert head == [0x00, 0x00] + rest;
    assert (head + tail)[0 := length / 0x100][1 := length % 0x100] == U16(length) + (rest + tail);
  }

  lemma HeadsAre(length: uint16, messageId: byte)
    ensures TmsHead(length, messageId) == AnyHead(length, [], messageId)
  {
  }

  // ------------------------------------------------------------------ parsing

  /** The CRLF search: word positions from `k` on; a hit needs both words inside the payload. */
  function FindCrlf(w: Text, k: nat): (r: Option<nat>)
    ensures r.Some? ==> k <= r.value && r.value + 2 <= |w|
    decreases |w| - k
  {
    if k + 2 > |w| then None
    else if w[k] == CR && w[k + 1] == LF then Some(k)
    else FindCrlf(w, k + 1)
  }

  /** Units up to a zero unit or the end; none of it when a unit is not printable. */
  function DecodeUnits(w: Text): (r: Option<Text>)
    ensures r.Some? ==> AllPrintable(r.value) && r.value <= w
  {
    if w == [] || w[0] == 0 then Some([])
    else if !Printable(w[0]) then None
    else
      match DecodeUnits(w[1..])
      case None => None
      case Some(rest) => Some([w[0]] + rest)
  }

  lemma DecodeStep(w: Text)
    requires w != []
    ensures w[0] == 0 ==> DecodeUnits(w) == Some([])
    ensures w[0] != 0 && !Printable(w[0]) ==> DecodeUnits(w) == None
    ensures w[0] != 0 && Printable(w[0]) ==> (DecodeUnits(w).Some? <==> DecodeUnits(w[1..]).Some?)
    ensures w[0] != 0 && Printable(w[0]) && DecodeUnits(w).Some? ==>
              DecodeUnits(w).value == [w[0]] + DecodeUnits(w[1..]).value
  {
  }

  lemma DecodeEnd(units: Text)
    ensures Continued(units, []) == Some(units)
  {
    assert units + [] == units;
  }

  lemma {:induction false} DecodePrintable(t: Text)
    requires AllPrintable(t)
    ensures DecodeUnits(t) == Some(t)
  {
    if t != [] {
      DecodePrintable(t[1..]);
      assert t == [t[0]] + t[1..];
    }
  }

  predicate IsMarker(d: seq<byte>, i: nat)
    requires i + 1 < |d|
  {
    d[i] == 0x80 && d[i + 1] == 0x04
  }

  /** First position of the bytes 80 04 from `i` on. */
  function FindMarker(d: seq<byte>, i: nat): (r: Option<nat>)
    ensures r.Some? ==> r.value + 1 < |d| && IsMarker(d, r.value)
    decreases |d| - i
  {
    if i + 1 >= |d| then None else if IsMarker(d, i) then Some(i) else FindMarker(d, i + 1)
  }

  predicate AsciiText(b: byte) { 0x20 <= b <= 0x7E }

  /** extractTmsTextFragment before trimming: three shapes of character, the last one final. */
  function Fragment(d: seq<byte>, i: nat): (t: Text)
    ensures AllPrintable(t)
    decreases |d| - i
  {
    if i >= |d| then []
    else if i + 2 < |d| && d[i] == 0 && d[i + 2] == 0 && AsciiText(d[i + 1]) then [d[i + 1]] + Fragment(d, i + 3)
    else if i + 1 < |d| && d[i + 1] == 0 && AsciiText(d[i]) then [d[i]] + Fragment(d, i + 2)
    else if AsciiText(d[i]) then [d[i]]
    else []
  }

  /** The digits of the address field: UTF-16LE digits at even offsets before the marker. */
  function AddressDigits(d: seq<byte>, i: nat, marker: nat): (r: seq<nat>)
    requires marker <= |d|
    ensures forall k :: 0 <= k < |r| ==> r[k] < 10
    decreases marker - i
  {
    if i + 1 >= marker then []
    else
      var rest := AddressDigits(d, i + 2, marker);
      if d[i + 1] == 0 && 0x30 <= d[i] <= 0x39 then [d[i] as int - 0x30] + rest else rest
  }

  function DigitsValue(r: seq<nat>): nat {
    if r == [] then 0 else 10 * DigitsValue(r[..|r| - 1]) + r[|r| - 1]
  }

  function SourceRid(digits: seq<nat>): nat {
    if |digits| >= 7 then DigitsValue(digits[..7]) else 0
  }

  datatype ParsedTms = ParsedTms(operation: byte, messageId: byte, sourceRid: nat, text: Text, fragment: Text)

  /** The E0 body after its CRLF, `k` being the CRLF's word position. */
  function ParseBody(d: seq<byte>, k: nat): Option<ParsedTms>
    requires |d| >= 12 && k + 2 <= |d| / 2
  {
    match DecodeUnits(LeWords(d)[k + 2..])
    case None => None
    case Some(units) =>
      if Trim(units) == [] then None else Some(ParsedTms(d[2], d[4] % 0x20, 0, Trim(units), []))
  }

  function ParseMarked(d: seq<byte>): Option<ParsedTms>
    requires |d| >= 12
  {
    match FindMarker(d, 0)
    case None => None
    case Some(m) =>
      Some(ParsedTms(d[2], d[m] % 0x20, SourceRid(AddressDigits(d, 0, m)), [], Trim(Fragment(d, m + 2))))
  }

  function ParseTms(d: seq<byte>): Option<ParsedTms> {
    if |d| < 12 then None
    else if d[2] == 0xE0 && FindCrlf(LeWords(d), 2).Some? then ParseBody(d, FindCrlf(LeWords(d), 2).value)
    else ParseMarked(d)
  }

  /** The search loop of parseMotorolaTms, on byte offsets. */
  method SearchCrlf(data: seq<byte>) returns (textOffset: Option<nat>)
    ensures match FindCrlf(LeWords(data), 2)
            case None => textOffset == None
            case Some(k) => textOffset == Some(2 * k + 4)
  {
    hide FindCrlf, LeWords;
    ghost var w := LeWords(data);
    var i := 4;
    while i + 3 < |data|
      invariant i >= 4 && i % 2 == 0
      invariant FindCrlf(w, 2) == FindCrlf(w, i / 2)
    {
      FindCrlfUnfold(w, i / 2);
      LeWordAt(data, i / 2);
      LeWordAt(data, i / 2 + 1);
      if data[i] == 0x0D && data[i + 1] == 0 && data[i + 2] == 0x0A && data[i + 3] == 0 {
        return Some(i + 4);
      }
      i := i + 2;
    }
    FindCrlfUnfold(w, i / 2);
    return None;
  }

  lemma FindCrlfUnfold(w: Text, k: nat)
    ensures FindCrlf(w, k) ==
            if k + 2 > |w| then None
            else if w[k] == CR && w[k + 1] == LF then Some(k)
            else FindCrlf(w, k + 1)
  {
  }

  /** The decode loop of parseMotorolaTms; the parse fails at the first unprintable unit. */
  method DecodeFrom(data: seq<byte>, textOffset: nat) returns (decoded: Option<Text>)
    requires textOffset % 2 == 0 && textOffset <= |data|
    ensures decoded == DecodeUnits(LeWords(data)[textOffset / 2..])
  {
    hide DecodeUnits, Printable, LeWords, Continued;
    ghost var w := LeWords(data);
    var units: Text := [];
    var i := textOffset;
    NothingDecoded(w[textOffset / 2..]);
    while i + 1 < |data|
      invariant textOffset <= i <= |data| && i % 2 == 0
      invariant DecodeUnits(w[textOffset / 2..]) == Continued(units, w[i / 2..])
    {
      var value := Word(data[i + 1], data[i]);
      LeWordAt(data, i / 2);
      DecodeNext(units, w, i / 2);
      if value == 0 { return Some(units); }
      if !Printable(value) { return None; }
      units := units + [value];
      i := i + 2;
    }
    assert w[i / 2..] == [];
    DecodeEnd(units);
    return Some(units);
  }

  /** What the units read so far and the rest decode to together. */
  function Continued(units: Text, rest: Text): Option<Text> {
    match DecodeUnits(rest) case None => None case Some(more) => Some(units + more)
  }

  lemma NothingDecoded(rest: Text)
    ensures Continued([], rest) == DecodeUnits(rest)
  {
    if DecodeUnits(rest).Some? { assert [] + DecodeUnits(rest).value == DecodeUnits(rest).value; }
  }

  lemma DecodeNext(units: Text, w: Text, i: nat)
    requires i < |w|
    ensures Continued(units, w[i..]) ==
            if w[i] == 0 then Some(units) else if !Printable(w[i]) then None else Continued(units + [w[i]], w[i + 1..])
  {
    hide Printable;
    var rest := w[i..];
    assert rest[1..] == w[i + 1..];
    DecodeStep(rest);
    hide DecodeUnits;
    assert units + [] == units;
    if DecodeUnits(rest[1..]).Some? {
      assert units + ([w[i]] + DecodeUnits(rest[1..]).value) == (units + [w[i]]) + DecodeUnits(rest[1..]).value;
    }
  }

  method SearchMarker(data: seq<byte>) returns (markerOffset: Option<nat>)
    ensures markerOffset == FindMarker(data, 0)
  {
    var i := 0;
    while i + 1 < |data|
      invariant 0 <= i && FindMarker(data, 0) == FindMarker(data, i)
    {
      if data[i] == 0x80 && data[i + 1] == 0x04 { return Some(i); }
      i := i + 1;
    }
    return None;
  }

  /** extractTmsTextFragment */
  method ExtractFragment(data: seq<byte>, markerOffset: nat) returns (fragment: Text)
    ensures fragment == Trim(Fragment(data, markerOffset + 2))
  {
    hide Fragment, Trim, AsciiText;
    var out: Text := [];
    var i := markerOffset + 2;
    ghost var rest := Fragment(data, i);
    ghost var whole := rest;
    while i < |data|
      invariant rest == Fragment(data, i)
      invariant whole == out + rest
      decreases |data| - i
    {
      FragmentUnfold(data, i);
      if i + 2 < |data| && data[i] == 0 && data[i + 2] == 0 && AsciiText(data[i + 1]) {
        out := out + [data[i + 1]];
        i := i + 3;
        rest := Fragment(data, i);
        continue;
      }
      if i + 1 < |data| && data[i + 1] == 0 && AsciiText(data[i]) {
        out := out + [data[i]];
        i := i + 2;
        rest := Fragment(data, i);
        continue;
      }
      if AsciiText(data[i]) {
        out := out + [data[i]];
      }
      assert whole == out;
      return Trim(out);
    }
    FragmentUnfold(data, i);
    assert whole == out;
    return Trim(out);
  }

  lemma FragmentUnfold(d: seq<byte>, i: nat)
    ensures Fragment(d, i) ==
            if i >= |d| then []
            else if i + 2 < |d| && d[i] == 0 && d[i + 2] == 0 && AsciiText(d[i + 1]) then [d[i + 1]] + Fragment(d, i + 3)
            else if i + 1 < |d| && d[i + 1] == 0 && AsciiText(d[i]) then [d[i]] + Fragment(d, i + 2)
            else if AsciiText(d[i]) then [d[i]]
            else []
  {
  }

  method CollectDigits(data: seq<byte>, markerOffset: nat) returns (digits: seq<nat>)
    requires markerOffset <= |data|
    ensures digits == AddressDigits(data, 0, markerOffset)
  {
    hide AddressDigits;
    digits := [];
    var i := 0;
    ghost var rest := AddressDigits(data, 0, markerOffset);
    ghost var whole := rest;
    while i + 1 < markerOffset
      invariant 0 <= i
      invariant rest == AddressDigits(data, i, markerOffset)
      invariant whole == digits + rest
    {
      AddressDigitsUnfold(data, i, markerOffset);
      rest := AddressDigits(data, i + 2, markerOffset);
      if data[i + 1] == 0 && 0x30 <= data[i] <= 0x39 {
        digits := digits + [data[i] as int - 0x30];
      }
      i := i + 2;
    }
    AddressDigitsUnfold(data, i, markerOffset);
  }

  lemma AddressDigitsUnfold(d: seq<byte>, i: nat, marker: nat)
    requires marker <= |d|
    ensures i + 1 >= marker ==> AddressDigits(d, i, marker) == []
    ensures i + 1 < marker ==>
              AddressDigits(d, i, marker) ==
              (if d[i + 1] == 0 && 0x30 <= d[i] <= 0x39 then [d[i] as int - 0x30] else []) + AddressDigits(d, i + 2, marker)
  {
  }

  /** parseMotorolaTms */
  method ParseMotorolaTms(data: seq<byte>) returns (r: Option<ParsedTms>)
    ensures r == ParseTms(data)
  {
    if |data| < 12 { return None; }
    if data[2] == 0xE0 {
      var textOffset := SearchCrlf(data);
      if textOffset.Some? {
        var decoded := DecodeFrom(data, textOffset.value);
        if decoded.None? || decoded.value == [] { return None; }
        var text := Trim(decoded.value);
        if text == [] { return None; }
        return Some(ParsedTms(data[2], data[4] % 0x20, 0, text, []));
      }
    }
    var markerOffset := SearchMarker(data);
    if markerOffset.None? { return None; }
    var fragment := ExtractFragment(data, markerOffset.value);
    var digits := CollectDigits(data, markerOffset.value);
    var sourceRid := 0;
    if |digits| >= 7 { sourceRid := DigitsValue(digits[..7]); }
    return Some(ParsedTms(data[2], data[markerOffset.value] % 0x20, sourceRid, [], fragment));
  }

  // ------------------------------------------------------------------ printable runs

  /** A maximal run of printable units, as positions [a, b). */
  ghost predicate IsRun(w: Text, a: nat, b: nat) {
    && a < b <= |w|
    && (forall k :: a <= k < b ==> Printable(w[k]))
    && (a == 0 || !Printable(w[a - 1]))
    && (b == |w| || !Printable(w[b]))
  }

  /** No run is longer than [a, b), and every run as long starts later. */
  ghost predicate EarliestLongest(w: Text, a: nat, b: nat) {
    forall x: nat, y: nat :: IsRun(w, x, y) ==> y - x <= b - a && (x < a ==> y - x < b - a)
  }

  /** The open run [start, i) if it is strictly longer than the best so far. */
  function Longer(start: nat, i: nat, a: nat, b: nat): (nat, nat) {
    if i - start > b - a then (start, i) else (a, b)
  }

  /** The scan of extractText: [start, i) is the open run, [a, b) the best closed one. */
  function ScanRuns(w: Text, i: nat, start: nat, a: nat, b: nat): (nat, nat)
    requires start <= i <= |w| && a <= b
    decreases |w| - i
  {
    var (x, y) := Longer(start, i, a, b);
    if i == |w| then (x, y)
    else if Printable(w[i]) then ScanRuns(w, i + 1, start, a, b)
    else ScanRuns(w, i + 1, i + 1, x, y)
  }

  ghost predicate ScanState(w: Text, i: nat, start: nat, a: nat, b: nat) {
    && start <= i <= |w|
    && (forall k :: start <= k < i ==> Printable(w[k]))
    && (start == 0 || !Printable(w[start - 1]))
    && a <= b <= start
    && (a == b ==> a == 0)
    && (a < b ==> IsRun(w, a, b))
    && (forall x: nat, y: nat :: IsRun(w, x, y) && x < start ==> y - x <= b - a && (x < a ==> y - x < b - a))
  }

  lemma ScanStep(w: Text, i: nat, start: nat, a: nat, b: nat)
    requires ScanState(w, i, start, a, b) && (i == |w| || !Printable(w[i]))
    ensures var (x, y) := Longer(start, i, a, b);
            && (x < y ==> IsRun(w, x, y)) && (x == y ==> x == 0) && x <= y <= i
            && (forall p: nat, q: nat :: IsRun(w, p, q) && p <= i ==> q - p <= y - x && (p < x ==> q - p < y - x))
  {
    var (x, y) := Longer(start, i, a, b);
    forall p: nat, q: nat | IsRun(w, p, q) && p <= i
      ensures q - p <= y - x && (p < x ==> q - p < y - x)
    {
      if p >= start {
        assert p < |w| && Printable(w[p]);
        assert p == start;
        assert q == i;
      }
    }
  }

  lemma ScanOn(w: Text, i: nat, start: nat, a: nat, b: nat)
    requires ScanState(w, i, start, a, b) && i < |w| && Printable(w[i])
    ensures ScanState(w, i + 1, start, a, b)
  {
    hide IsRun;
  }

  lemma ScanClose(w: Text, i: nat, start: nat, a: nat, b: nat)
    requires ScanState(w, i, start, a, b) && i < |w| && !Printable(w[i])
    ensures var (x, y) := Longer(start, i, a, b); ScanState(w, i + 1, i + 1, x, y)
  {
    ScanStep(w, i, start, a, b);
    var (x, y) := Longer(start, i, a, b);
    forall p: nat, q: nat | IsRun(w, p, q) && p < i + 1
      ensures q - p <= y - x && (p < x ==> q - p < y - x)
    {
    }
  }

  lemma ScanEnd(w: Text, start: nat, a: nat, b: nat)
    requires ScanState(w, |w|, start, a, b)
    ensures var (x, y) := Longer(start, |w|, a, b);
            x <= y <= |w| && (x < y ==> IsRun(w, x, y)) && (x == y ==> x == 0) && EarliestLongest(w, x, y)
  {
    ScanStep(w, |w|, start, a, b);
    hide ScanState;
  }

  lemma {:induction false} ScanCorrect(w: Text, i: nat, start: nat, a: nat, b: nat)
    requires ScanState(w, i, start, a, b)
    ensures var (x, y) := ScanRuns(w, i, start, a, b);
            x <= y <= |w| && (x < y ==> IsRun(w, x, y)) && (x == y ==> x == 0) && EarliestLongest(w, x, y)
    decreases |w| - i
  {
    hide IsRun, EarliestLongest, Printable, ScanRuns;
    ScanUnfold(w, i, start, a, b);
    if i == |w| {
      ScanEnd(w, start, a, b);
    } else if Printable(w[i]) {
      ScanOn(w, i, start, a, b);
      ScanCorrect(w, i + 1, start, a, b);
    } else {
      ScanClose(w, i, start, a, b);
      var (x, y) := Longer(start, i, a, b);
      ScanCorrect(w, i + 1, i + 1, x, y);
    }
  }

  function BestRun(w: Text): (nat, nat) { ScanRuns(w, 0, 0, 0, 0) }

  /** The best run is the earliest among the longest maximal printable runs, or empty if there is none. */
  lemma BestRunIsEarliestLongest(w: Text)
    ensures var (a, b) := BestRun(w);
            && a <= b <= |w| && EarliestLongest(w, a, b)
            && (if a == b then forall x: nat, y: nat :: !IsRun(w, x, y) else IsRun(w, a, b))
  {
    ScanCorrect(w, 0, 0, 0, 0);
  }

  /** What extractText returns: the best run if it has three units or more, trimmed. */
  function ExtractedText(d: seq<byte>): Text {
    var (a, b) := BestRun(LeWords(d));
    BestRunIsEarliestLongest(LeWords(d));
    if b - a < 3 then [] else Trim(LeWords(d)[a..b])
  }

  /** extractText, with its two growing strings. */
  method ExtractText(data: seq<byte>) returns (text: Text)
    ensures text == ExtractedText(data)
  {
    hide ScanRuns, Printable, IsRun, EarliestLongest, Trim, LeWords;
    ghost var w := LeWords(data);
    BestRunIsEarliestLongest(w);
    ghost var (first, last) := BestRun(w);
    if |data| < 4 {
      assert last - first < 3;
      return [];
    }
    var current: Text, best: Text := [], [];
    ghost var start: nat, a: nat, b: nat := 0, 0, 0;
    var offset := 0;
    while offset + 1 < |data|
      invariant 0 <= offset <= |data| && offset % 2 == 0
      invariant start <= offset / 2 && a <= b <= |w|
      invariant current == w[start..offset / 2] && best == w[a..b]
      invariant BestRun(w) == ScanRuns(w, offset / 2, start, a, b)
    {
      var value := Word(data[offset + 1], data[offset]);
      ghost var i := offset / 2;
      LeWordAt(data, i);
      ScanUnfold(w, i, start, a, b);
      if Printable(value) {
        current := current + [value];
      } else {
        if |current| > |best| {
          best := current;
          a, b := start, i;
        }
        current := [];
        start := i + 1;
      }
      offset := offset + 2;
    }
    assert offset / 2 == |w|;
    ScanUnfold(w, |w|, start, a, b);
    if |current| > |best| { best := current; }
    assert best == w[first..last];
    if |best| < 3 { return []; }
    return Trim(best);
  }

  lemma ScanUnfold(w: Text, i: nat, start: nat, a: nat, b: nat)
    requires start <= i <= |w| && a <= b
    ensures var (x, y) := Longer(start, i, a, b);
            && x <= y
            && (i == |w| ==> ScanRuns(w, i, start, a, b) == (x, y))
            && (i < |w| && Printable(w[i]) ==> ScanRuns(w, i, start, a, b) == ScanRuns(w, i + 1, start, a, b))
            && (i < |w| && !Printable(w[i]) ==> ScanRuns(w, i, start, a, b) == ScanRuns(w, i + 1, i + 1, x, y))
  {
  }

  // ------------------------------------------------------------------ handling a packet

  datatype Handled =
    | NotTms
    | Control
    | NoText
    | Message(text: Text, parsed: Option<ParsedTms>, sourcePort: uint16, targetPort: uint16)

  /** The text the handler settles on: the parsed text, else its fragment, else the best run. */
  function ChosenText(d: seq<byte>): Text {
    var parsed := ParseTms(d);
    var text := if parsed.None? then [] else if parsed.value.text != [] then parsed.value.text else parsed.value.fragment;
    Trim(if text == [] then ExtractedText(d) else text)
  }

  function HandleDatagram(view: UdpView): Handled {
    var d := view.payload;
    if |d| >= 3 && d[2] % 0x20 == 0x1F then Control
    else if ChosenText(d) == [] then NoText
    else Message(ChosenText(d), ParseTms(d), view.sourcePort, view.targetPort)
  }

  /** handleBrandmeisterPacketData up to the point where it queues the text. */
  function Handle(packet: seq<byte>): (h: Handled)
    ensures h.Message? ==> |packet| >= 28
  {
    match ParsePacket(packet)
    case None => NotTms
    case Some(view) => HandleDatagram(view)
  }

  /** Whatever arrives, a text handed on is non-empty, trimmed and printable. */
  lemma HandledTextIsClean(packet: seq<byte>)
    requires Handle(packet).Message?
    ensures var t := Handle(packet).text; t != [] && Trim(t) == t && AllPrintable(t)
    ensures forall v :: v in Handle(packet).text ==>
              v in {0x09, 0x0A, 0x0D} || 0x20 <= v < 0x7F || 0xA0 <= v < 0xD800 || 0xE000 <= v
  {
    var d := ParsePacket(packet).value.payload;
    ChosenTextIsClean(d);
  }

  lemma ChosenTextIsClean(d: seq<byte>)
    ensures AllPrintable(ChosenText(d)) && Trim(ChosenText(d)) == ChosenText(d)
  {
    var w := LeWords(d);
    var (a, b) := BestRun(w);
    BestRunIsEarliestLongest(w);
    TrimAgain(w[a..b]);
    TrimAgain(ExtractedText(d));
    match ParseTms(d) {
      case None =>
      case Some(p) =>
        if d[2] == 0xE0 && FindCrlf(w, 2).Some? {
          TrimAgain(DecodeUnits(w[FindCrlf(w, 2).value + 2..]).value);
        } else {
          TrimAgain(Fragment(d, FindMarker(d, 0).value + 2));
        }
        TrimAgain(p.text);
        TrimAgain(p.fragment);
    }
  }

  /** The words in front of the text: the length with its bytes swapped, E0, id and encoding. */
  function HeadWords(length: uint16, messageId: byte): Text {
    [Word(length % 0x100, length / 0x100), 0x00E0, Word(4, 0x80 + messageId % 0x20)]
  }

  lemma PayloadWords(text: Text, messageId: byte)
    requires 8 + 2 * |text| <= 0xFFFF
    ensures var d := TmsPayload(text, messageId);
            && |d| == 10 + 2 * |text| && d[2] == 0xE0 && d[4] == 0x80 + messageId % 0x20
            && LeWords(d) == HeadWords(8 + 2 * |text|, messageId) + ([CR, LF] + text)
  {
    hide Utf16Le;
    var length := 8 + 2 * |text|;
    var head := TmsHead(length, messageId);
    WordsOfHeadAndText(head, [CR, LF] + text);
    assert |head| == 6 && head[0] == length / 0x100 && head[1] == length % 0x100 && head[2] == 0xE0
           && head[3] == 0 && head[4] == 0x80 + messageId % 0x20 && head[5] == 4;
    assert LeWords(head) == HeadWords(length, messageId);
  }

  /** A printable, non-blank text comes back trimmed with its message id modulo 32. */
  lemma TmsRoundTrip(text: Text, messageId: byte)
    requires 8 + 2 * |text| <= 0xFFFF && AllPrintable(text) && !AllBlank(text)
    ensures ParseTms(TmsPayload(text, messageId)) == Some(ParsedTms(0xE0, messageId % 0x20, 0, Trim(text), []))
  {
    hide TmsPayload, LeWords, Utf16Le, DecodeUnits, Trim, ParseMarked;
    var d := TmsPayload(text, messageId);
    PayloadWords(text, messageId);
    CrlfAfterHead(HeadWords(8 + 2 * |text|, messageId), text);
    DecodePrintable(text);
    var _, _ := TrimParts(text);
    assert |d| >= 12;
  }

  lemma CrlfAfterHead(head: Text, text: Text)
    requires |head| == 3 && head[2] != CR
    ensures var w := head + ([CR, LF] + text);
            FindCrlf(w, 2) == Some(3) && w[5..] == text
  {
    var w := head + ([CR, LF] + text);
    assert w[2] == head[2] && w[3] == CR && w[4] == LF;
    assert FindCrlf(w, 3) == Some(3);
  }

  /**
   * Exactly when a built message is handled as its own trimmed text: the text is printable
   * throughout and not blank. In every other case the handler reports something else.
   */
  lemma MessageRoundTrip(source: Address, target: Address, sourcePort: uint16, targetPort: uint16, text: Text, messageId: byte)
    requires 38 + 2 * |text| <= 0xFFFF
    ensures var h := Handle(Packet(source, target, sourcePort, targetPort, TmsPayload(text, messageId)));
            && (h.Message? && h.text == Trim(text) <==> AllPrintable(text) && !AllBlank(text))
            && (AllPrintable(text) && !AllBlank(text) ==>
                h == Message(Trim(text), Some(ParsedTms(0xE0, messageId % 0x20, 0, Trim(text), [])), sourcePort, targetPort))
  {
    hide TmsPayload, Packet, ParsePacket, ParseTms, ExtractedText, Trim, LeWords;
    var d := TmsPayload(text, messageId);
    PayloadWords(text, messageId);
    var p := Packet(source, target, sourcePort, targetPort, d);
    PacketRoundTrip(source, target, sourcePort, targetPort, d);
    var front, back := TrimParts(text);
    TrimAgain(text);
    if AllPrintable(text) && !AllBlank(text) {
      TmsRoundTrip(text, messageId);
    } else if Handle(p).Message? && Handle(p).text == Trim(text) {
      HandledTextIsClean(p);
      TrimPrintable(text);
    }
  }

  /** The header words as the printable-run search leaves them: the first only if it is printable. */
  function ReadableHead(head: Text): Text
    requires |head| == 3
  {
    if Printable(head[0]) then head else head[1..]
  }

  /**
   * A blank text, the empty one included, is not dropped: its own length, operation and id words
   * are read as text, without the length word when that is unprintable.
   */
  lemma BlankTextBecomesHeaderWords(text: Text, messageId: byte)
    requires AllBlank(text) && 8 + 2 * |text| <= 0xFFFF
    ensures ChosenText(TmsPayload(text, messageId)) == Trim(ReadableHead(HeadWords(8 + 2 * |text|, messageId)))
    ensures Trim(ReadableHead(HeadWords(8 + 2 * |text|, messageId))) != []
  {
    hide TmsPayload, LeWords, Trim, ScanRuns, ParseTms;
    var d := TmsPayload(text, messageId);
    var head := HeadWords(8 + 2 * |text|, messageId);
    var blanks := [CR, LF] + text;
    var start := if Printable(head[0]) then 0 else 1;
    PayloadWords(text, messageId);
    BlankIsNotParsed(text, messageId);
    BlankRun(head, blanks, start);
    TrimMore(ReadableHead(head), blanks);
    assert (head + blanks)[start..|head + blanks|] == ReadableHead(head) + blanks;
    TrimAgain(ReadableHead(head) + blanks);
  }

  lemma BlankIsNotParsed(text: Text, messageId: byte)
    requires AllBlank(text) && 8 + 2 * |text| <= 0xFFFF
    ensures ParseTms(TmsPayload(text, messageId)) == None
  {
    hide TmsPayload, LeWords, DecodeUnits, Trim, ParseMarked;
    PayloadWords(text, messageId);
    CrlfAfterHead(HeadWords(8 + 2 * |text|, messageId), text);
    DecodePrintable(text);
    var _, _ := TrimParts(text);
  }

  /** The best run of a blank message's words: all of them, or all but the first. */
  lemma BlankRun(head: Text, blanks: Text, start: nat)
    requires |head| == 3 && Printable(head[1]) && Printable(head[2]) && AllBlank(blanks) && blanks != []
    requires start == if Printable(head[0]) then 0 else 1
    ensures BestRun(head + blanks) == (start, |head + blanks|)
  {
    var w := head + blanks;
    BestRunIsEarliestLongest(w);
    var (a, b) := BestRun(w);
    assert forall k :: start <= k < |w| ==> Printable(w[k]);
    assert IsRun(w, start, |w|);
    assert b - a >= |w| - start;
    assert w[0] == head[0];
  }

  lemma TrimMore(t: Text, blanks: Text)
    requires t != [] && !Blank(t[|t| - 1]) && AllBlank(blanks)
    ensures Trim(t + blanks) == Trim(t) != []
  {
    var front, back := TrimParts(t);
    var m := Trim(t);
    assert !AllBlank(t);
    if back != [] { EndsBlank(front + m, back); }
    assert t + blanks == front + (m + blanks);
    TrimFrontOf(front, m + blanks);
    TrimKeeps(m, blanks);
    assert TrimFront(m + blanks) == m + blanks;
  }

  lemma EndsBlank(t: Text, blanks: Text)
    requires AllBlank(blanks) && blanks != []
    ensures Blank((t + blanks)[|t + blanks| - 1])
  {
  }

  lemma {:induction false} TrimFrontOf(front: Text, t: Text)
    requires AllBlank(front) && t != [] && !Blank(t[0])
    ensures TrimFront(front + t) == t
  {
    if front == [] {
      assert front + t == t;
    } else {
      TrimFrontOf(front[1..], t);
      assert (front + t)[1..] == front[1..] + t;
    }
  }

  lemma {:induction false} TrimKeeps(t: Text, blanks: Text)
    requires t != [] && !Blank(t[0]) && !Blank(t[|t| - 1]) && AllBlank(blanks)
    ensures Trim(t + blanks) == t
    decreases |blanks|
  {
    assert TrimFront(t + blanks) == t + blanks;
    if blanks == [] {
      assert t + blanks == t;
    } else {
      var fewer := blanks[..|blanks| - 1];
      TrimKeeps(t, fewer);
      assert (t + blanks)[..|t + blanks| - 1] == t + fewer;
      assert TrimFront(t + fewer) == t + fewer;
    }
  }

  // ------------------------------------------------------------------ acknowledgement

  /** sendBrandmeisterTmsAcknowledgement: operation 9F, keeping bit 5 of the request. */
  function AckPayload(operation: byte, messageId: byte): seq<byte> {
    [0x00, 0x03, 0x9F + operation / 0x20 % 2 * 0x20, 0x00, messageId % 0x20]
  }

  function AckPacket(packet: seq<byte>, sourcePort: uint16, targetPort: uint16, operation: byte, messageId: byte): seq<byte>
    requires |packet| >= 20
  {
    BuiltPacket(FormatAddress(packet[16..20]), FormatAddress(packet[12..16]),
                targetPort, sourcePort, AckPayload(operation, messageId))
  }

  /** An acknowledgement packet between the swapped endpoints of `packet`. */
  ghost predicate AnswersTo(ack: seq<byte>, packet: seq<byte>, sourcePort: uint16, targetPort: uint16, messageId: byte) {
    && |ack| == 33 && |packet| >= 20
    && ack[12..16] == packet[16..20] && ack[16..20] == packet[12..16]
    && ParsePacket(ack) == Some(UdpView(targetPort, sourcePort, ack[28..]))
    && ack[32] == messageId % 0x20
    && IpChecksumVerifies(ack) && UdpChecksumVerifies(ack)
  }

  lemma AckAnswers(packet: seq<byte>, sourcePort: uint16, targetPort: uint16, operation: byte, messageId: byte)
    requires |packet| >= 20
    ensures var ack := AckPacket(packet, sourcePort, targetPort, operation, messageId);
            AnswersTo(ack, packet, sourcePort, targetPort, messageId) && ack[28..] == AckPayload(operation, messageId)
  {
    hide ParsePacket, Packet, FormatAddress, ParseAddress, IpChecksumVerifies, UdpChecksumVerifies;
    var source, target := packet[16..20], packet[12..16];
    var payload := AckPayload(operation, messageId);
    AddressRoundTrip(source);
    AddressRoundTrip(target);
    PacketRoundTrip(source, target, targetPort, sourcePort, payload);
    PacketVerifies(source, target, targetPort, sourcePort, payload);
    PacketLayout(source, target, targetPort, sourcePort, payload);
    var ack := Packet(source, target, targetPort, sourcePort, payload);
    assert AckPacket(packet, sourcePort, targetPort, operation, messageId) == ack;
    assert ack[32] == ack[28..][4];
  }

  /**
   * The acknowledgement of any message goes back between the same two endpoints, verifies,
   * names the message, and is itself consumed as a control response: no acknowledgement is
   * ever answered by another.
   */
  lemma AcknowledgementIsNotAnswered(packet: seq<byte>)
    requires Handle(packet).Message? && Handle(packet).parsed.Some?
    ensures var h := Handle(packet);
            var p := h.parsed.value;
            var ack := AckPacket(packet, h.sourcePort, h.targetPort, p.operation, p.messageId);
            && AnswersTo(ack, packet, h.sourcePort, h.targetPort, p.messageId)
            && p.messageId < 0x20
            && Handle(ack) == Control
  {
    hide ParsePacket, AckPacket, ParseTms, ChosenText, IpChecksumVerifies, UdpChecksumVerifies, AckPayload;
    var h := Handle(packet);
    var p := h.parsed.value;
    ParsedIdIsSmall(ParsePacket(packet).value.payload);
    AckAnswers(packet, h.sourcePort, h.targetPort, p.operation, p.messageId);
    AckIsControl(p.operation, p.messageId);
  }

  lemma AckIsControl(operation: byte, messageId: byte)
    ensures |AckPayload(operation, messageId)| == 5 && AckPayload(operation, messageId)[2] % 0x20 == 0x1F
  {
  }

  lemma ParsedIdIsSmall(d: seq<byte>)
    requires ParseTms(d).Some?
    ensures ParseTms(d).value.messageId < 0x20
  {
  }
}
