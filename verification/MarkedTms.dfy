/**
 * The older Motorola TMS format of src/SmsSubsystem.cpp, with the sender's number in front and no
 * CR LF: what parseMotorolaTms makes of the messages buildMotorolaTmsPayload writes in it.
 */
module MarkedTms {
  import opened Common
  import opened Decimal
  import opened TmsText

  predicate AllAscii(t: Text) { forall i :: 0 <= i < |t| ==> 0x20 <= t[i] <= 0x7E }

  /** Position of the 80 04 pair when the id is 0. */
  function MarkerPosition(sender: uint32): nat { 4 + 2 * |Numeral(sender)| }

  /** The first digit of the sender's number. */
  function FirstDigit(sender: uint32): nat { DigitValue(Numeral(sender)[0]) }

  /** The words in front of the text. */
  function MarkedWords(length: uint16, sender: uint32, messageId: byte): Text {
    SenderFits(sender);
    [Word(length % 0x100, length / 0x100), Word(2 * |Numeral(sender)|, 0xE0)] + NumeralUnits(sender) + [Word(4, 0x80 + messageId % 0x20)]
  }

  // ------------------------------------------------------------------ the payload, byte by byte and word by word

  lemma AnyHeadBytes(length: uint16, address: seq<byte>, messageId: byte)
    requires |address| <= 0xFF
    ensures var h := AnyHead(length, address, messageId);
            && |h| == 6 + |address|
            && h[0] == length / 0x100 && h[1] == length % 0x100 && h[2] == 0xE0 && h[3] == |address|
            && h[4..4 + |address|] == address
            && h[4 + |address|] == 0x80 + messageId % 0x20 && h[5 + |address|] == 4
  {
    var h, rest := AnyHead(length, address, messageId), [0xE0, |address|] + address + [0x80 + messageId % 0x20, 4];
    assert h == U16(length) + rest;
    assert rest == [0xE0, |address|] + (address + [0x80 + messageId % 0x20, 4]);
    Middle([0xE0, |address|], address, [0x80 + messageId % 0x20, 4]);
    assert h[4..4 + |address|] == rest[2..2 + |address|];
  }

  lemma DigitBytes(u: Text, j: nat)
    requires j < |u| && u[j] < 0x100
    ensures Utf16Le(u)[2 * j] == u[j] && Utf16Le(u)[2 * j + 1] == 0
  {
  }

  lemma HeadBytes(length: uint16, sender: uint32, messageId: byte)
    ensures var h := MarkedHead(length, sender, messageId);
            var k := |Numeral(sender)|;
            && 1 <= k <= 10 && |h| == 6 + 2 * k
            && h[0] == length / 0x100 && h[1] == length % 0x100 && h[2] == 0xE0 && h[3] == 2 * k
            && (forall j :: 0 <= j < k ==> h[4 + 2 * j] == NumeralUnits(sender)[j] && h[5 + 2 * j] == 0)
            && h[4 + 2 * k] == 0x80 + messageId % 0x20 && h[5 + 2 * k] == 4
  {
    SenderFits(sender);
    var u := NumeralUnits(sender);
    var address := Utf16Le(u);
    hide NumeralUnits, Numeral, AnyHead, Utf16Le;
    AnyHeadBytes(length, address, messageId);
    var h := MarkedHead(length, sender, messageId);
    forall j | 0 <= j < |u| ensures h[4 + 2 * j] == u[j] && h[5 + 2 * j] == 0 {
      DigitBytes(u, j);
      assert h[4 + 2 * j] == h[4..4 + |address|][2 * j] && h[5 + 2 * j] == h[4..4 + |address|][2 * j + 1];
    }
  }

  lemma HeadWordsAre(length: uint16, sender: uint32, messageId: byte)
    ensures |MarkedHead(length, sender, messageId)| % 2 == 0
    ensures LeWords(MarkedHead(length, sender, messageId)) == MarkedWords(length, sender, messageId)
  {
    HeadBytes(length, sender, messageId);
    hide NumeralUnits, Numeral, MarkedHead;
    var h := MarkedHead(length, sender, messageId);
    forall k | 0 <= k < |h| / 2 ensures LeWords(h)[k] == MarkedWords(length, sender, messageId)[k] {
      LeWordAt(h, k);
      if 2 <= k < 2 + |Numeral(sender)| { assert h[4 + 2 * (k - 2)] == h[2 * k] && h[5 + 2 * (k - 2)] == h[2 * k + 1]; }
    }
  }

  /** Head and text of a message that fits its length field. */
  lemma MarkedLayout(sender: uint32, text: Text, messageId: byte)
    requires MarkedLength(sender, text) <= 0xFFFF
    ensures var d := MarkedPayload(sender, text, messageId);
            var h := MarkedHead(MarkedLength(sender, text), sender, messageId);
            && d == h + Utf16Le(text) && |h| == MarkerPosition(sender) + 2 && |d| == MarkedLength(sender, text) + 2
            && d[2] == 0xE0 && d[4] == 0x30 + FirstDigit(sender)
  {
    var length := MarkedLength(sender, text);
    HeadBytes(length, sender, messageId);
    assert MarkedHead(length, sender, messageId)[4 + 2 * 0] == NumeralUnits(sender)[0];
    hide MarkedHead, LeWords, Utf16Le, Numeral;
  }

  lemma MarkedWordsAre(sender: uint32, text: Text, messageId: byte)
    requires MarkedLength(sender, text) <= 0xFFFF
    ensures LeWords(MarkedPayload(sender, text, messageId)) == MarkedWords(MarkedLength(sender, text), sender, messageId) + text
  {
    var length := MarkedLength(sender, text);
    MarkedLayout(sender, text, messageId);
    HeadWordsAre(length, sender, messageId);
    hide MarkedHead, MarkedWords, MarkedPayload, LeWords, Utf16Le, Numeral;
    WordsOfHeadAndText(MarkedHead(length, sender, messageId), text);
  }

  /** The bytes of the text behind the head. */
  lemma TextByte(sender: uint32, text: Text, messageId: byte, k: nat)
    requires MarkedLength(sender, text) <= 0xFFFF && k < 2 * |text|
    ensures var d := MarkedPayload(sender, text, messageId);
            MarkerPosition(sender) + 2 + k < |d| && d[MarkerPosition(sender) + 2 + k] == Utf16Le(text)[k]
  {
    MarkedLayout(sender, text, messageId);
    hide MarkedHead, MarkedPayload, Utf16Le, Numeral;
  }

  lemma HeadByte(sender: uint32, text: Text, messageId: byte, k: nat)
    requires MarkedLength(sender, text) <= 0xFFFF && k < MarkerPosition(sender) + 2
    ensures var d, h := MarkedPayload(sender, text, messageId), MarkedHead(MarkedLength(sender, text), sender, messageId);
            |d| == MarkedLength(sender, text) + 2 && k < |h| && d[k] == h[k]
  {
    MarkedLayout(sender, text, messageId);
    hide MarkedHead, MarkedPayload, Utf16Le, Numeral;
  }

  // ------------------------------------------------------------------ a CR LF in the text

  /** With no carriage return from word 2 of the head on, the first CR LF is the text's own. */
  lemma {:induction false} CrlfBehind(head: Text, text: Text, k: nat)
    requires 2 <= k <= |head| && forall i :: 2 <= i < |head| ==> head[i] != CR
    ensures FindCrlf(head + text, k) ==
            match FindCrlf(text, 0) case None => None case Some(j) => Some(|head| + j)
    decreases |head| - k
  {
    if k == |head| {
      CrlfShift(head, text, 0);
    } else {
      assert (head + text)[k] == head[k];
      CrlfBehind(head, text, k + 1);
      FindCrlfUnfold(head + text, k);
      if k + 2 > |head + text| { FindCrlfUnfold(text, 0); FindCrlfUnfold(head + text, k + 1); }
    }
  }

  lemma {:induction false} CrlfShift(head: Text, text: Text, j: nat)
    requires j <= |text|
    ensures FindCrlf(head + text, |head| + j) ==
            match FindCrlf(text, j) case None => None case Some(i) => Some(|head| + i)
    decreases |text| - j
  {
    FindCrlfUnfold(head + text, |head| + j);
    FindCrlfUnfold(text, j);
    if j + 2 <= |text| {
      assert (head + text)[|head| + j] == text[j] && (head + text)[|head| + j + 1] == text[j + 1];
      CrlfShift(head, text, j + 1);
    }
  }

  /** The units up to the first zero one are printable, and not all blank. */
  predicate Readable(t: Text) {
    DecodeUnits(t).Some? && Trim(DecodeUnits(t).value) != []
  }

  lemma MarkedCrlf(sender: uint32, text: Text, messageId: byte)
    requires MarkedLength(sender, text) <= 0xFFFF
    ensures var w := LeWords(MarkedPayload(sender, text, messageId));
            var base := 3 + |Numeral(sender)|;
            && FindCrlf(w, 2) == (match FindCrlf(text, 0) case None => None case Some(j) => Some(base + j))
            && |w| == base + |text| && forall j :: 0 <= j <= |text| ==> w[base + j..] == text[j..]
  {
    hide MarkedPayload, LeWords, FindCrlf, Numeral;
    MarkedWordsAre(sender, text, messageId);
    CrlfBehind(MarkedWords(MarkedLength(sender, text), sender, messageId), text, 2);
  }

  lemma BodyIsParsed(d: seq<byte>, k: nat)
    requires |d| >= 12 && d[2] == 0xE0 && FindCrlf(LeWords(d), 2) == Some(k)
    ensures var tail := LeWords(d)[k + 2..];
            ParseTms(d) == if Readable(tail) then Some(ParsedTms(0xE0, d[4] % 0x20, 0, Trim(DecodeUnits(tail).value), [])) else None
  {
    hide ParseMarked, LeWords, FindCrlf, DecodeUnits, Trim;
  }

  /** With a CR LF in the text, only what follows it is read, and the id is that of the sender's first digit. */
  lemma CrlfMakesItAnother(sender: uint32, text: Text, messageId: byte)
    requires MarkedLength(sender, text) <= 0xFFFF && FindCrlf(text, 0).Some?
    ensures var tail := text[FindCrlf(text, 0).value + 2..];
            ParseTms(MarkedPayload(sender, text, messageId)) ==
            if |text| + |Numeral(sender)| >= 3 && Readable(tail) then
              Some(ParsedTms(0xE0, 0x10 + FirstDigit(sender), 0, Trim(DecodeUnits(tail).value), []))
            else None
  {
    hide MarkedPayload, MarkedHead, LeWords, FindCrlf, Readable, Numeral, ParseTms, DecodeUnits, Trim, Utf16Le, NumeralUnits;
    MarkedLayout(sender, text, messageId);
    MarkedCrlf(sender, text, messageId);
    var d, j := MarkedPayload(sender, text, messageId), FindCrlf(text, 0).value;
    if |d| >= 12 {
      var base := 3 + |Numeral(sender)|;
      BodyIsParsed(d, base + j);
      assert LeWords(d)[base + (j + 2)..] == text[j + 2..];
    } else {
      ShortIsRefused(d);
    }
  }

  lemma ShortIsRefused(d: seq<byte>)
    requires |d| < 12
    ensures ParseTms(d) == None
  {
  }

  // ------------------------------------------------------------------ the marker

  lemma {:induction false} MarkerFound(d: seq<byte>, i: nat, m: nat)
    requires i <= m && m + 1 < |d| && IsMarker(d, m) && forall k :: i <= k < m ==> !IsMarker(d, k)
    ensures FindMarker(d, i) == Some(m)
    decreases m - i
  {
    if i < m { MarkerFound(d, i + 1, m); }
  }

  lemma {:induction false} NoMarker(d: seq<byte>, i: nat)
    requires forall k :: i <= k && k + 1 < |d| ==> !IsMarker(d, k)
    ensures FindMarker(d, i) == None
    decreases |d| - i
  {
    if i + 1 < |d| { NoMarker(d, i + 1); }
  }

  /** With id 0 the marker is in its place, so one is always found. */
  lemma {:induction false} SomeMarker(d: seq<byte>, i: nat, m: nat)
    requires i <= m && m + 1 < |d| && IsMarker(d, m)
    ensures FindMarker(d, i).Some?
    decreases m - i
  {
    if i < m { SomeMarker(d, i + 1, m); }
  }

  lemma MarkerInPlace(sender: uint32, text: Text, messageId: byte)
    requires MarkedLength(sender, text) <= 0xFFFF
    ensures var d := MarkedPayload(sender, text, messageId); var m := MarkerPosition(sender);
            m + 1 < |d| && (IsMarker(d, m) <==> messageId % 0x20 == 0)
  {
    HeadBytes(MarkedLength(sender, text), sender, messageId);
    HeadByte(sender, text, messageId, MarkerPosition(sender));
    HeadByte(sender, text, messageId, MarkerPosition(sender) + 1);
    hide MarkedPayload, MarkedHead, Numeral, NumeralUnits;
  }

  /**
   * When a message of the older format is read with the id it was sent with: without a CR LF in its
   * text, exactly for id 0; with one, exactly when the id happens to be that of the sender's first
   * digit and there is something to read behind the CR LF.
   */
  lemma IdReturnedIff(sender: uint32, text: Text, messageId: byte)
    requires MarkedLength(sender, text) <= 0xFFFF
    ensures var p := ParseTms(MarkedPayload(sender, text, messageId));
            p.Some? && p.value.messageId == messageId % 0x20 <==>
            && |text| + |Numeral(sender)| >= 3
            && match FindCrlf(text, 0)
               case None => messageId % 0x20 == 0
               case Some(j) => messageId % 0x20 == 0x10 + FirstDigit(sender) && Readable(text[j + 2..])
  {
    hide MarkedPayload, LeWords, FindCrlf, DecodeUnits, Trim, Readable, FindMarker, IsMarker, Numeral;
    if FindCrlf(text, 0).Some? {
      CrlfMakesItAnother(sender, text, messageId);
    } else {
      MarkedLayout(sender, text, messageId);
      MarkedCrlf(sender, text, messageId);
      MarkerInPlace(sender, text, messageId);
      var d := MarkedPayload(sender, text, messageId);
      if messageId % 0x20 == 0 { SomeMarker(d, 0, MarkerPosition(sender)); }
      if |d| >= 12 { MarkedIdIsZero(d); }
    }
  }

  lemma MarkedIdIsZero(d: seq<byte>)
    requires |d| >= 12
    ensures ParseMarked(d).Some? <==> FindMarker(d, 0).Some?
    ensures ParseMarked(d).Some? ==> ParseMarked(d).value.messageId == 0
  {
  }

  lemma CrlfInFront(tail: Text)
    ensures FindCrlf([CR, LF] + tail, 0) == Some(0) && ([CR, LF] + tail)[2..] == tail
  {
  }

  lemma Radio23()
    ensures Numeral(23) == [DigitChar(2), DigitChar(3)] && FirstDigit(23) == 2
  {
    assert Numeral(23) == Numeral(2) + [DigitChar(3)];
  }

  /** A CR LF in the text, concretely: id 5 from radio 23 is read as id 18. */
  lemma CrlfMisread()
    ensures var tail: Text := [0x68, 0x69, 0x21, 0x21, 0x21];
            ParseTms(MarkedPayload(23, [CR, LF] + tail, 5)) == Some(ParsedTms(0xE0, 18, 0, tail, []))
  {
    var tail: Text := [0x68, 0x69, 0x21, 0x21, 0x21];
    Radio23();
    hide MarkedPayload, ParseTms, FindCrlf, DecodeUnits, Numeral, FirstDigit;
    CrlfInFront(tail);
    DecodePrintable(tail);
    assert TrimFront(tail) == tail && TrimBack(tail) == tail;
    CrlfMakesItAnother(23, [CR, LF] + tail, 5);
  }

  // ------------------------------------------------------------------ plain ASCII texts

  lemma AsciiHasNoCrlf(text: Text)
    requires AllAscii(text)
    ensures FindCrlf(text, 0) == None
  {
    if FindCrlf(text, 0).Some? { CrlfIsThere(text, 0); }
  }

  lemma {:induction false} CrlfIsThere(w: Text, k: nat)
    requires FindCrlf(w, k).Some?
    ensures w[FindCrlf(w, k).value] == CR
    decreases |w| - k
  {
    if !(w[k] == CR && w[k + 1] == LF) { CrlfIsThere(w, k + 1); }
  }

  /** The bytes of an ASCII text are its units and zeros. */
  lemma AsciiBytes(text: Text, k: nat)
    requires AllAscii(text) && k < 2 * |text|
    ensures Utf16Le(text)[k] == if k % 2 == 0 then text[k / 2] else 0
  {
  }

  /** Only the length bytes and the marker itself can read 80 04. */
  lemma MarkersOf(sender: uint32, text: Text, messageId: byte, i: nat)
    requires MarkedLength(sender, text) <= 0xFFFF && AllAscii(text)
    requires i + 1 < |MarkedPayload(sender, text, messageId)|
    ensures IsMarker(MarkedPayload(sender, text, messageId), i) <==>
            (i == 0 && MarkedLength(sender, text) == 0x8004) || (i == MarkerPosition(sender) && messageId % 0x20 == 0)
  {
    var length, m := MarkedLength(sender, text), MarkerPosition(sender);
    hide MarkedPayload, MarkedHead, Utf16Le, Numeral, NumeralUnits, AllAscii;
    HeadBytes(length, sender, messageId);
    MarkedLayout(sender, text, messageId);
    if i >= m + 2 {
      TextByte(sender, text, messageId, i - m - 2);
      AsciiByteIsSmall(text, i - m - 2);
    } else {
      HeadByte(sender, text, messageId, i);
      if i <= m { HeadByte(sender, text, messageId, i + 1); }
      if 4 <= i < m { AddressByteIsSmall(length, sender, messageId, i); }
    }
  }

  lemma AddressByteIsSmall(length: uint16, sender: uint32, messageId: byte, i: nat)
    requires 4 <= i < MarkerPosition(sender)
    ensures i < |MarkedHead(length, sender, messageId)| && MarkedHead(length, sender, messageId)[i] < 0x80
  {
    HeadBytes(length, sender, messageId);
    hide MarkedHead, Numeral;
    var j := (i - 4) / 2;
    assert i == 4 + 2 * j || i == 5 + 2 * j;
  }

  lemma AsciiByteIsSmall(text: Text, k: nat)
    requires AllAscii(text) && k < 2 * |text|
    ensures Utf16Le(text)[k] < 0x80
  {
    AsciiBytes(text, k);
  }

  /** The characters behind the marker are the text. */
  lemma {:induction false} FragmentOfAscii(d: seq<byte>, at: nat, text: Text, j: nat)
    requires AllAscii(text) && j <= |text| && |d| == at + 2 * |text|
    requires forall i :: j <= i < |text| ==> d[at + 2 * i] == text[i] && d[at + 2 * i + 1] == 0
    ensures Fragment(d, at + 2 * j) == text[j..]
    decreases |text| - j
  {
    hide Fragment;
    if j < |text| {
      assert d[at + 2 * j] == text[j] && d[at + 2 * j + 1] == 0;
      assert AsciiText(text[j]);
      PlainCharacter(d, at + 2 * j);
      FragmentOfAscii(d, at, text, j + 1);
      assert text[j..] == [text[j]] + text[j + 1..];
    } else {
      FragmentUnfold(d, at + 2 * j);
      assert text[j..] == [];
    }
  }

  lemma PlainCharacter(d: seq<byte>, i: nat)
    requires i + 1 < |d| && AsciiText(d[i]) && d[i + 1] == 0
    ensures Fragment(d, i) == [d[i]] + Fragment(d, i + 2)
  {
    FragmentUnfold(d, i);
  }

  lemma MarkedFragment(sender: uint32, text: Text, messageId: byte)
    requires MarkedLength(sender, text) <= 0xFFFF && AllAscii(text)
    ensures Fragment(MarkedPayload(sender, text, messageId), MarkerPosition(sender) + 2) == text
  {
    hide MarkedPayload, MarkedHead, Utf16Le, Numeral, Fragment, AllAscii;
    MarkedLayout(sender, text, messageId);
    var d, at := MarkedPayload(sender, text, messageId), MarkerPosition(sender) + 2;
    forall i | 0 <= i < |text| ensures d[at + 2 * i] == text[i] && d[at + 2 * i + 1] == 0 {
      AsciiBytes(text, 2 * i);
      AsciiBytes(text, 2 * i + 1);
      TextByte(sender, text, messageId, 2 * i);
      TextByte(sender, text, messageId, 2 * i + 1);
    }
    FragmentOfAscii(d, at, text, 0);
    assert text[0..] == text;
  }

  /** The digits of a number, most significant first. */
  function NumeralDigits(n: nat): (r: seq<nat>)
    ensures |r| == |Numeral(n)|
  {
    seq(|Numeral(n)|, i requires 0 <= i < |Numeral(n)| => DigitValue(Numeral(n)[i]))
  }

  /** A digit the length field may add in front: its high byte, when that is one and the low byte is zero. */
  function LengthDigit(length: nat): seq<nat> {
    if length % 0x100 == 0 && 0x30 <= length / 0x100 <= 0x39 then [length / 0x100 - 0x30] else []
  }

  lemma {:induction false} DigitsFrom(d: seq<byte>, n: nat, j: nat)
    requires j <= |Numeral(n)| && 4 + 2 * |Numeral(n)| <= |d|
    requires forall i :: j <= i < |Numeral(n)| ==> d[4 + 2 * i] == NumeralUnits(n)[i] && d[5 + 2 * i] == 0
    ensures AddressDigits(d, 4 + 2 * j, 4 + 2 * |Numeral(n)|) == NumeralDigits(n)[j..]
    decreases |Numeral(n)| - j
  {
    hide Numeral, AddressDigits, NumeralUnits, NumeralDigits;
    var k := |Numeral(n)|;
    AddressDigitsUnfold(d, 4 + 2 * j, 4 + 2 * k);
    if j < k {
      DigitsFrom(d, n, j + 1);
      DigitOf(n, j);
      assert d[4 + 2 * j] == NumeralUnits(n)[j] && d[5 + 2 * j] == 0;
    } else {
      assert NumeralDigits(n)[j..] == [];
    }
  }

  lemma DigitOf(n: nat, j: nat)
    requires j < |Numeral(n)|
    ensures |NumeralDigits(n)| == |NumeralUnits(n)| == |Numeral(n)|
    ensures 0x30 <= NumeralUnits(n)[j] <= 0x39 && NumeralDigits(n)[j..] == [NumeralUnits(n)[j] as int - 0x30] + NumeralDigits(n)[j + 1..]
  {
    hide Numeral;
  }

  lemma MarkedDigits(sender: uint32, text: Text, messageId: byte)
    requires MarkedLength(sender, text) <= 0xFFFF
    ensures MarkerPosition(sender) <= |MarkedPayload(sender, text, messageId)|
    ensures AddressDigits(MarkedPayload(sender, text, messageId), 0, MarkerPosition(sender)) ==
            LengthDigit(MarkedLength(sender, text)) + NumeralDigits(sender)
  {
    hide MarkedPayload, MarkedHead, Utf16Le, Numeral, AddressDigits, NumeralUnits, NumeralDigits;
    var length, m := MarkedLength(sender, text), MarkerPosition(sender);
    MarkedLayout(sender, text, messageId);
    HeadBytes(length, sender, messageId);
    var d := MarkedPayload(sender, text, messageId);
    forall j | 0 <= j < |Numeral(sender)| ensures d[4 + 2 * j] == NumeralUnits(sender)[j] && d[5 + 2 * j] == 0 {
      HeadByte(sender, text, messageId, 4 + 2 * j);
      HeadByte(sender, text, messageId, 5 + 2 * j);
    }
    DigitsFrom(d, sender, 0);
    FrontDigits(sender, text, messageId);
    assert NumeralDigits(sender)[0..] == NumeralDigits(sender);
  }

  /** Before the address only the length bytes can look like a digit. */
  lemma FrontDigits(sender: uint32, text: Text, messageId: byte)
    requires MarkedLength(sender, text) <= 0xFFFF
    ensures var d, m := MarkedPayload(sender, text, messageId), MarkerPosition(sender);
            m <= |d| && AddressDigits(d, 0, m) == LengthDigit(MarkedLength(sender, text)) + AddressDigits(d, 4, m)
  {
    hide MarkedPayload, MarkedHead, Utf16Le, Numeral, AddressDigits, NumeralUnits, LengthDigit;
    HeadBytes(MarkedLength(sender, text), sender, messageId);
    HeadByte(sender, text, messageId, 0);
    HeadByte(sender, text, messageId, 1);
    HeadByte(sender, text, messageId, 3);
    FrontDigitsOf(MarkedPayload(sender, text, messageId), MarkerPosition(sender), MarkedLength(sender, text));
  }

  lemma FrontDigitsOf(d: seq<byte>, m: nat, length: uint16)
    requires 6 <= m <= |d| && d[0] == length / 0x100 && d[1] == length % 0x100 && d[3] != 0
    ensures AddressDigits(d, 0, m) == LengthDigit(length) + AddressDigits(d, 4, m)
  {
    hide AddressDigits;
    var rest := AddressDigits(d, 4, m);
    assert AddressDigits(d, 2, m) == rest by {
      AddressDigitsUnfold(d, 2, m);
      assert [] + rest == rest;
    }
    AddressDigitsUnfold(d, 0, m);
  }

  /**
   * What an ASCII message of the older format is read as, whatever its id: with id 0 its sender and
   * its text, trimmed; with any other id nothing. A payload of 32774 bytes, whose length itself reads
   * 80 04, is taken for an empty message.
   */
  lemma AsciiMessageIsRead(sender: uint32, text: Text, messageId: byte)
    requires MarkedLength(sender, text) <= 0xFFFF && AllAscii(text)
    ensures ParseTms(MarkedPayload(sender, text, messageId)) ==
            var length := MarkedLength(sender, text);
            if |text| + |Numeral(sender)| < 3 then None
            else if length == 0x8004 then Some(ParsedTms(0xE0, 0, 0, [], []))
            else if messageId % 0x20 != 0 then None
            else Some(ParsedTms(0xE0, 0, SourceRid(LengthDigit(length) + NumeralDigits(sender)), [], Trim(text)))
  {
    hide MarkedPayload, LeWords, FindCrlf, FindMarker, Trim, Fragment, Numeral, AddressDigits, SourceRid, AllAscii, IsMarker, LengthDigit, NumeralDigits;
    AsciiHasNoCrlf(text);
    MarkedLayout(sender, text, messageId);
    MarkedCrlf(sender, text, messageId);
    var d := MarkedPayload(sender, text, messageId);
    if |d| >= 12 {
      MarkerOfAscii(sender, text, messageId);
      if MarkedLength(sender, text) == 0x8004 {
        NothingAtTheFront(sender, text, messageId);
      } else if messageId % 0x20 == 0 {
        MarkerInPlace(sender, text, messageId);
        MarkedFragment(sender, text, messageId);
        MarkedDigits(sender, text, messageId);
        MarkerByte(d, MarkerPosition(sender));
      }
    }
  }

  lemma MarkerByte(d: seq<byte>, m: nat)
    requires m + 1 < |d| && IsMarker(d, m)
    ensures d[m] % 0x20 == 0
  {
  }

  lemma MarkerOfAscii(sender: uint32, text: Text, messageId: byte)
    requires MarkedLength(sender, text) <= 0xFFFF && AllAscii(text)
    ensures FindMarker(MarkedPayload(sender, text, messageId), 0) ==
            if MarkedLength(sender, text) == 0x8004 then Some(0)
            else if messageId % 0x20 == 0 then Some(MarkerPosition(sender)) else None
  {
    hide MarkedPayload, FindMarker, IsMarker, AllAscii, Numeral;
    var d := MarkedPayload(sender, text, messageId);
    MarkedLayout(sender, text, messageId);
    forall i | 0 <= i && i + 1 < |d|
      ensures IsMarker(d, i) <==>
              (i == 0 && MarkedLength(sender, text) == 0x8004) || (i == MarkerPosition(sender) && messageId % 0x20 == 0)
    {
      MarkersOf(sender, text, messageId, i);
    }
    if MarkedLength(sender, text) == 0x8004 {
      MarkerFound(d, 0, 0);
    } else if messageId % 0x20 == 0 {
      MarkerFound(d, 0, MarkerPosition(sender));
    } else {
      NoMarker(d, 0);
    }
  }

  /** Behind a length of 80 04 stands E0: no text, and no digits in front. */
  lemma NothingAtTheFront(sender: uint32, text: Text, messageId: byte)
    requires MarkedLength(sender, text) == 0x8004
    ensures var d := MarkedPayload(sender, text, messageId);
            && |d| >= 12 && d[0] % 0x20 == 0 && Trim(Fragment(d, 2)) == [] && SourceRid(AddressDigits(d, 0, 0)) == 0
  {
    hide MarkedPayload, MarkedHead, Numeral, NumeralUnits, Utf16Le;
    MarkedLayout(sender, text, messageId);
    HeadBytes(0x8004, sender, messageId);
    HeadByte(sender, text, messageId, 0);
    HeadByte(sender, text, messageId, 3);
    FragmentUnfold(MarkedPayload(sender, text, messageId), 2);
    hide Fragment;
  }

  lemma {:induction false} DigitsValueOfNumeral(n: nat)
    ensures DigitsValue(NumeralDigits(n)) == n
  {
    var r := NumeralDigits(n);
    if n < 10 {
      assert r[..0] == [];
    } else {
      DigitsValueOfNumeral(n / 10);
      assert r[..|r| - 1] == NumeralDigits(n / 10);
    }
  }

  /** So a seven-digit radio's non-blank ASCII message comes through with its sender and its text, trimmed. */
  lemma AsciiRoundTrip(sender: uint32, text: Text, messageId: byte)
    requires MarkedLength(sender, text) <= 0xFFFF && AllAscii(text) && !AllBlank(text)
    requires 1_000_000 <= sender < 10_000_000 && MarkedLength(sender, text) != 0x8004 && LengthDigit(MarkedLength(sender, text)) == []
    ensures ParseTms(MarkedPayload(sender, text, messageId)) ==
            if messageId % 0x20 == 0 then Some(ParsedTms(0xE0, 0, sender, [], Trim(text))) else None
    ensures messageId % 0x20 == 0 ==> ChosenText(MarkedPayload(sender, text, messageId)) == Trim(text)
  {
    hide ParseTms, MarkedPayload, ExtractedText;
    AsciiMessageIsRead(sender, text, messageId);
    SevenDigits(sender);
    DigitsValueOfNumeral(sender);
    hide Numeral, NumeralDigits, DigitsValue, Trim;
    var r := NumeralDigits(sender);
    assert [] + r == r && r[..7] == r;
    var _, _ := TrimParts(text);
    TrimAgain(text);
  }

  lemma SevenDigits(n: nat)
    requires 1_000_000 <= n < 10_000_000
    ensures |Numeral(n)| == 7 == |NumeralDigits(n)|
  {
    NumeralLong(n, 6);
    NumeralFits(n, 7);
  }

  lemma {:induction false} NumeralLong(n: nat, width: nat)
    requires n >= Pow10(width)
    ensures |Numeral(n)| > width
  {
    if width > 0 { NumeralLong(n / 10, width - 1); }
  }
}
