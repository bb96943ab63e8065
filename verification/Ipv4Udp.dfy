/**
 * IPv4/UDP packets of src/SmsSubsystem.cpp: building with both checksums, dotted addresses,
 * and the field checks of the receiving side.
 */
module Ipv4Udp {
  import opened Common
  import opened Decimal
  import opened Checksum

  // ------------------------------------------------------------------ addresses

  type Address = a: seq<byte> | |a| == 4 witness [0, 0, 0, 0]

  /** Position of the first '.' at or after `i`, or the end. */
  function DotFrom(s: string, i: nat): (j: nat)
    requires i <= |s|
    ensures i <= j <= |s| && (j < |s| ==> s[j] == '.')
    ensures forall k :: i <= k < j ==> s[k] != '.'
    decreases |s| - i
  {
    if i == |s| || s[i] == '.' then i else DotFrom(s, i + 1)
  }

  predicate IsOctet(part: string) {
    1 <= |part| <= 3 && AllDigits(part) && NumeralValue(part) <= 255
  }

  /** `count` octets separated by dots from offset `at`, and then the end of the string. */
  function OctetsFrom(s: string, at: nat, count: nat): (r: Option<seq<byte>>)
    ensures r.Some? ==> |r.value| == count
    decreases count
  {
    if count == 0 then
      if at >= |s| then Some([]) else None
    else if at >= |s| then None
    else
      var end := DotFrom(s, at);
      if !IsOctet(s[at..end]) then None
      else PrependOctet(NumeralValue(s[at..end]), OctetsFrom(s, end + 1, count - 1))
  }

  function PrependOctet(o: byte, rest: Option<seq<byte>>): (r: Option<seq<byte>>)
    ensures rest.Some? <==> r.Some?
    ensures r.Some? ==> r.value == [o] + rest.value
  {
    match rest case None => None case Some(tail) => Some([o] + tail)
  }

  lemma OctetsUnfold(s: string, at: nat, count: nat)
    requires count > 0
    ensures OctetsFrom(s, at, count) ==
            if at >= |s| || !IsOctet(s[at..DotFrom(s, at)]) then None
            else PrependOctet(NumeralValue(s[at..DotFrom(s, at)]), OctetsFrom(s, DotFrom(s, at) + 1, count - 1))
  {
  }

  lemma OctetsEnd(s: string, at: nat)
    ensures OctetsFrom(s, at, 0) == if at >= |s| then Some([]) else None
  {
  }

  function ParseAddress(s: string): Option<Address> {
    OctetsFrom(s, 0, 4)
  }

  /** parseIpv4Address. The final std::getline succeeds only when text is left after an octet's dot. */
  method ParseIpv4Address(value: string) returns (r: Option<Address>)
    ensures r == ParseAddress(value)
  {
    hide OctetsFrom, DotFrom, NumeralValue;
    var output := new byte[4](_ => 0);
    var at := 0;
    var i := 0;
    ghost var whole := OctetsFrom(value, 0, 4);
    ghost var rest := whole;
    while i < 4
      invariant 0 <= i <= 4 && 0 <= at
      invariant rest == OctetsFrom(value, at, 4 - i)
      invariant rest.Some? <==> whole.Some?
      invariant whole.Some? ==> whole.value == output[..i] + rest.value
    {
      OctetsUnfold(value, at, 4 - i);
      if at >= |value| { return None; }
      var end := DotFrom(value, at);
      var part := value[at..end];
      if !IsOctet(part) { return None; }
      output[i] := NumeralValue(part);
      ghost var next := OctetsFrom(value, end + 1, 3 - i);
      assert output[..i + 1] == output[..i] + [output[i]];
      rest := next;
      at := end + 1;
      i := i + 1;
    }
    OctetsEnd(value, at);
    if at < |value| { return None; }
    assert output[..4] + [] == output[..];
    return Some(output[..]);
  }

  /** Parts separated by dots. */
  function JoinDots(parts: seq<string>): string
    requires parts != []
  {
    if |parts| == 1 then parts[0] else parts[0] + ("." + JoinDots(parts[1..]))
  }

  function Numerals(octets: seq<byte>): seq<string> {
    seq(|octets|, i requires 0 <= i < |octets| => Numeral(octets[i]))
  }

  /** addressToString of the acknowledgement path. */
  function FormatAddress(a: Address): string {
    JoinDots(Numerals(a))
  }

  /** The parts are octets with these values. */
  ghost predicate Spell(parts: seq<string>, octets: seq<byte>) {
    |parts| == |octets| && forall i :: 0 <= i < |parts| ==> IsOctet(parts[i]) && NumeralValue(parts[i]) == octets[i]
  }

  lemma PartEnd(prefix: string, part: string, rest: string)
    requires AllDigits(part) && (rest == [] || rest[0] == '.')
    ensures var s := prefix + (part + rest);
            var end := |prefix| + |part|;
            DotFrom(s, |prefix|) == end && s[|prefix|..end] == part
  {
    hide DotFrom, IsDigit;
    var s := prefix + (part + rest);
    var end := |prefix| + |part|;
    Middle(prefix, part, rest);
    forall k | |prefix| <= k < end ensures s[k] != '.' {
      assert s[k] == s[|prefix|..end][k - |prefix|] == part[k - |prefix|];
      DotIsNoDigit(part[k - |prefix|]);
    }
    if rest != [] { assert s[end] == s[end..][0]; }
    DotFromIs(s, |prefix|, end);
  }

  lemma DotIsNoDigit(c: char)
    requires IsDigit(c)
    ensures c != '.'
  {
  }

  lemma DotFromIs(s: string, i: nat, j: nat)
    requires i <= j <= |s| && (j < |s| ==> s[j] == '.') && forall k :: i <= k < j ==> s[k] != '.'
    ensures DotFrom(s, i) == j
  {
    hide DotFrom;
  }

  /** Octets joined by dots are parsed, with or without one dot behind them. */
  lemma {:induction false} JoinedParses(prefix: string, parts: seq<string>, octets: seq<byte>, tail: string)
    requires parts != [] && Spell(parts, octets) && tail in {"", "."}
    ensures OctetsFrom(prefix + (JoinDots(parts) + tail), |prefix|, |parts|) == Some(octets)
    decreases |parts|
  {
    hide OctetsFrom, JoinDots, IsOctet, NumeralValue, Spell;
    SpellFirst(parts, octets);
    JoinedSplit(parts, tail);
    if |parts| == 1 {
      LastPartParses(prefix, parts[0], tail);
      assert octets == [octets[0]];
    } else {
      var rest := JoinDots(parts[1..]) + tail;
      SpellRest(parts, octets);
      JoinedParses(prefix + (parts[0] + "."), parts[1..], octets[1..], tail);
      FirstPartParses(prefix, parts[0], rest, |parts|, octets[1..]);
    }
  }

  lemma LastPartParses(prefix: string, part: string, tail: string)
    requires IsOctet(part) && tail in {"", "."}
    ensures OctetsFrom(prefix + (part + tail), |prefix|, 1) == Some([NumeralValue(part)])
  {
    hide OctetsFrom, NumeralValue, AllDigits;
    PartParses(prefix, part, tail, 1);
    OctetsEnd(prefix + (part + tail), |prefix| + |part| + 1);
    assert [NumeralValue(part)] + [] == [NumeralValue(part)];
  }

  lemma FirstPartParses(prefix: string, part: string, rest: string, count: nat, others: seq<byte>)
    requires IsOctet(part) && count > 1
    requires OctetsFrom(prefix + (part + ".") + rest, |prefix + (part + ".")|, count - 1) == Some(others)
    ensures OctetsFrom(prefix + (part + ("." + rest)), |prefix|, count) == Some([NumeralValue(part)] + others)
  {
    hide OctetsFrom, NumeralValue, AllDigits;
    PartParses(prefix, part, "." + rest, count);
    Regrouped(prefix, part, rest);
  }

  lemma Regrouped(prefix: string, part: string, rest: string)
    ensures prefix + (part + ("." + rest)) == (prefix + (part + ".")) + rest && |prefix + (part + ".")| == |prefix| + |part| + 1
  {
  }

  lemma SpellFirst(parts: seq<string>, octets: seq<byte>)
    requires parts != [] && Spell(parts, octets)
    ensures |octets| == |parts| && IsOctet(parts[0]) && NumeralValue(parts[0]) == octets[0] && octets == [octets[0]] + octets[1..]
  {
    hide NumeralValue, AllDigits;
  }

  lemma JoinedSplit(parts: seq<string>, tail: string)
    requires parts != []
    ensures JoinDots(parts) + tail == parts[0] + (if |parts| == 1 then tail else "." + (JoinDots(parts[1..]) + tail))
  {
    JoinUnfold(parts);
    hide JoinDots;
    if |parts| > 1 { Grouped(parts[0], JoinDots(parts[1..]), tail); }
  }

  lemma JoinUnfold(parts: seq<string>)
    requires parts != []
    ensures JoinDots(parts) == if |parts| == 1 then parts[0] else parts[0] + ("." + JoinDots(parts[1..]))
  {
  }

  lemma Grouped(part: string, rest: string, tail: string)
    ensures (part + ("." + rest)) + tail == part + ("." + (rest + tail))
  {
  }

  lemma SpellRest(parts: seq<string>, octets: seq<byte>)
    requires parts != [] && Spell(parts, octets)
    ensures Spell(parts[1..], octets[1..])
  {
    hide IsOctet, NumeralValue;
  }

  lemma PartParses(prefix: string, part: string, rest: string, count: nat)
    requires IsOctet(part) && (rest == [] || rest[0] == '.') && count > 0
    ensures var s := prefix + (part + rest);
            OctetsFrom(s, |prefix|, count) == PrependOctet(NumeralValue(part), OctetsFrom(s, |prefix| + |part| + 1, count - 1))
  {
    hide OctetsFrom, DotFrom, NumeralValue;
    PartEnd(prefix, part, rest);
    OctetsUnfold(prefix + (part + rest), |prefix|, count);
  }

  /** Whatever is parsed is octets joined by dots, with at most one dot behind them. */
  lemma {:induction false} ParsedIsJoined(s: string, at: nat, count: nat) returns (parts: seq<string>, tail: string)
    requires count > 0 && at <= |s| && OctetsFrom(s, at, count).Some?
    ensures |parts| == count && Spell(parts, OctetsFrom(s, at, count).value)
    ensures tail in {"", "."} && s[at..] == JoinDots(parts) + tail
    decreases count
  {
    hide OctetsFrom, DotFrom, NumeralValue, JoinDots;
    OctetsUnfold(s, at, count);
    var end := DotFrom(s, at);
    var part := s[at..end];
    DotAt(s, at);
    if count == 1 {
      parts, tail := [part], s[end..];
      OctetsEnd(s, end + 1);
      OneJoined(s, at, end);
      assert OctetsFrom(s, at, count).value == [NumeralValue(part)] + [];
    } else {
      BehindTheEnd(s, end, count - 1);
      var rest;
      rest, tail := ParsedIsJoined(s, end + 1, count - 1);
      parts := [part] + rest;
      assert OctetsFrom(s, at, count).value == [NumeralValue(part)] + OctetsFrom(s, end + 1, count - 1).value;
      ManyJoined(s, at, end, rest, tail);
    }
  }

  lemma BehindTheEnd(s: string, end: nat, count: nat)
    requires end <= |s| && count > 0 && OctetsFrom(s, end + 1, count).Some?
    ensures end < |s|
  {
    hide IsOctet, DotFrom;
    OctetsUnfold(s, end + 1, count);
  }

  lemma OneJoined(s: string, at: nat, end: nat)
    requires at <= end <= |s| <= end + 1 && (end < |s| ==> s[end..] == "." + s[end + 1..])
    ensures s[end..] in {"", "."} && s[at..] == JoinDots([s[at..end]]) + s[end..]
  {
    if end < |s| {
      assert s[end + 1..] == "";
      assert s[end..] == ".";
    } else {
      assert s[end..] == "";
    }
    assert s[at..] == s[at..end] + s[end..];
  }

  lemma ManyJoined(s: string, at: nat, end: nat, rest: seq<string>, tail: string)
    requires at <= end < |s| && s[end..] == "." + s[end + 1..] && rest != [] && s[end + 1..] == JoinDots(rest) + tail
    ensures s[at..] == JoinDots([s[at..end]] + rest) + tail
  {
    var part := s[at..end];
    assert ([part] + rest)[1..] == rest;
    assert JoinDots([part] + rest) == part + ("." + JoinDots(rest));
    hide JoinDots;
    assert s[at..] == part + s[end..];
    assert part + ("." + (JoinDots(rest) + tail)) == (part + ("." + JoinDots(rest))) + tail;
  }

  lemma DotAt(s: string, i: nat)
    requires i <= |s|
    ensures var j := DotFrom(s, i); i <= j <= |s| && (j < |s| ==> s[j..] == "." + s[j + 1..])
  {
  }

  /**
   * Exactly what parseIpv4Address accepts: four parts of one to three digits each, of value at most
   * 255, leading zeros included, joined by dots - and one more dot may follow the fourth.
   */
  lemma ParsesIff(s: string, a: Address)
    ensures ParseAddress(s) == Some(a) <==>
            exists parts :: |parts| == 4 && Spell(parts, a) && (s == JoinDots(parts) || s == JoinDots(parts) + ".")
  {
    hide OctetsFrom, JoinDots, IsOctet, NumeralValue;
    if ParseAddress(s) == Some(a) {
      var parts, tail := ParsedIsJoined(s, 0, 4);
      assert s[0..] == s && JoinDots(parts) + "" == JoinDots(parts);
    }
    forall parts | |parts| == 4 && Spell(parts, a) && (s == JoinDots(parts) || s == JoinDots(parts) + ".")
      ensures ParseAddress(s) == Some(a)
    {
      var tail := if s == JoinDots(parts) then "" else ".";
      JoinedParses("", parts, a, tail);
      assert "" + (JoinDots(parts) + tail) == s;
    }
  }

  /** Formatting and parsing an address are inverse; a dot behind the formatted address makes no difference. */
  lemma AddressRoundTrip(a: Address)
    ensures ParseAddress(FormatAddress(a)) == Some(a) && ParseAddress(FormatAddress(a) + ".") == Some(a)
  {
    hide OctetsFrom, JoinDots, Numeral, NumeralValue;
    forall i | 0 <= i < 4 ensures IsOctet(Numeral(a[i])) && NumeralValue(Numeral(a[i])) == a[i] {
      NumeralRoundTrip(a[i]);
      NumeralFits(a[i], 3);
    }
    assert Spell(Numerals(a), a);
    ParsesIff(FormatAddress(a), a);
    ParsesIff(FormatAddress(a) + ".", a);
  }

  /** motorolaRadioIp: 12.x.y.z from a 24-bit radio id; empty for an id outside that range. */
  function RadioIp(rid: uint32): string {
    if rid == 0 || rid > 0xFF_FFFF then "" else FormatAddress(RadioAddress(rid))
  }

  function RadioAddress(rid: uint32): Address
    requires rid <= 0xFF_FFFF
  {
    [12, rid / 0x1_0000, rid / 0x100 % 0x100, rid % 0x100]
  }

  /** Every usable radio id has an address, and no two radios share one. */
  lemma RadioIpInjective(a: uint32, b: uint32)
    requires 0 < a <= 0xFF_FFFF && 0 < b <= 0xFF_FFFF
    ensures ParseAddress(RadioIp(a)).Some?
    ensures RadioIp(a) == RadioIp(b) <==> a == b
  {
    hide ParseAddress, FormatAddress;
    var x, y := RadioAddress(a), RadioAddress(b);
    AddressRoundTrip(x);
    AddressRoundTrip(y);
    if RadioIp(a) == RadioIp(b) {
      assert x == y;
      RadioAddressInjective(a, b);
    }
  }

  lemma RadioAddressInjective(a: uint32, b: uint32)
    requires a <= 0xFF_FFFF && b <= 0xFF_FFFF && RadioAddress(a) == RadioAddress(b)
    ensures a == b
  {
    var x, y := RadioAddress(a), RadioAddress(b);
    assert x[1] == y[1] && x[2] == y[2] && x[3] == y[3];
    Split24(a);
    Split24(b);
  }

  // ------------------------------------------------------------------ building

  /** RFC 768 pseudo-header for a datagram of `udpLength` bytes. */
  function PseudoHeader(source: Address, target: Address, udpLength: uint16): (h: seq<byte>)
    ensures |h| == 12
  {
    source + target + [0, 17] + U16(udpLength)
  }

  function IpHeader(source: Address, target: Address, total: uint16, checksum: uint16): (h: seq<byte>)
    ensures |h| == 20
  {
    [0x45, 0] + U16(total) + [0, 0, 0, 0, 64, 17] + U16(checksum) + source + target
  }

  function Datagram(sourcePort: uint16, targetPort: uint16, checksum: uint16, payload: seq<byte>): (d: seq<byte>)
    requires |payload| <= 0xFFFF - 8
    ensures |d| == 8 + |payload|
  {
    U16(sourcePort) + U16(targetPort) + U16(8 + |payload|) + U16(checksum) + payload
  }

  /** A UDP checksum that comes out zero is sent as all ones. */
  function UdpChecksum(sum: nat): uint16 {
    if ChecksumOf(sum) == 0 then 0xFFFF else ChecksumOf(sum)
  }

  /** The IP header with its checksum in place. */
  function SealedHeader(source: Address, target: Address, total: uint16): (h: seq<byte>)
    ensures |h| == 20
  {
    IpHeader(source, target, total, ChecksumOf(WordSum(IpHeader(source, target, total, 0))))
  }

  /** The plain sum the UDP checksum is taken over: pseudo-header, then datagram with a zero field. */
  function UdpSum(source: Address, target: Address, sourcePort: uint16, targetPort: uint16, payload: seq<byte>): nat
    requires |payload| <= 0xFFFF - 8
  {
    WordSum(PseudoHeader(source, target, 8 + |payload|)) + WordSum(Datagram(sourcePort, targetPort, 0, payload))
  }

  /** The datagram with its checksum in place. */
  function SealedDatagram(source: Address, target: Address, sourcePort: uint16, targetPort: uint16, payload: seq<byte>): (d: seq<byte>)
    requires |payload| <= 0xFFFF - 8
    ensures |d| == 8 + |payload|
  {
    Datagram(sourcePort, targetPort, UdpChecksum(UdpSum(source, target, sourcePort, targetPort, payload)), payload)
  }

  /** The packet for parsed addresses; the caller has checked the 16-bit length. */
  function Packet(source: Address, target: Address, sourcePort: uint16, targetPort: uint16, payload: seq<byte>): (p: seq<byte>)
    requires |payload| <= 0xFFFF - 28
    ensures |p| == 28 + |payload|
  {
    SealedHeader(source, target, 28 + |payload|) + SealedDatagram(source, target, sourcePort, targetPort, payload)
  }

  /** buildIpv4UdpPacket as a whole: empty when an address is bad or the packet too long. */
  function BuiltPacket(sourceIp: string, targetIp: string, sourcePort: uint16, targetPort: uint16, payload: seq<byte>): seq<byte> {
    match (ParseAddress(sourceIp), ParseAddress(targetIp))
    case (Some(source), Some(target)) =>
      if |payload| <= 0xFFFF - 28 then Packet(source, target, sourcePort, targetPort, payload) else []
    case _ => []
  }

  /** `buffer` with `data` written over it at `offset`. */
  function Splice(buffer: seq<byte>, offset: nat, data: seq<byte>): (r: seq<byte>)
    requires offset + |data| <= |buffer|
    ensures |r| == |buffer|
  {
    buffer[..offset] + data + buffer[offset + |data|..]
  }

  /** Reading what was written, and what was not. */
  lemma SpliceParts(buffer: seq<byte>, offset: nat, data: seq<byte>)
    requires offset + |data| <= |buffer|
    ensures var r := Splice(buffer, offset, data);
            r[..offset] == buffer[..offset] && r[offset..offset + |data|] == data && r[offset + |data|..] == buffer[offset + |data|..]
  {
  }

  lemma SpliceAt(buffer: seq<byte>, offset: nat, data: seq<byte>, k: nat)
    requires offset + |data| <= |buffer| && k < |buffer|
    ensures Splice(buffer, offset, data)[k] == if offset <= k < offset + |data| then data[k - offset] else buffer[k]
  {
  }

  method WriteUint16(buffer: array<byte>, offset: nat, value: uint16)
    requires offset + 2 <= buffer.Length
    modifies buffer
    ensures buffer[..] == Splice(old(buffer[..]), offset, U16(value))
  {
    buffer[offset] := value / 0x100;
    buffer[offset + 1] := value % 0x100;
  }

  method CopyInto(buffer: array<byte>, offset: nat, data: seq<byte>)
    requires offset + |data| <= buffer.Length
    modifies buffer
    ensures buffer[..] == Splice(old(buffer[..]), offset, data)
  {
    hide Splice;
    ghost var was := buffer[..];
    var i := 0;
    while i < |data|
      invariant 0 <= i <= |data|
      invariant forall k :: 0 <= k < buffer.Length ==> buffer[k] == if offset <= k < offset + i then data[k - offset] else was[k]
    {
      buffer[offset + i] := data[i];
      i := i + 1;
    }
    forall k | 0 <= k < buffer.Length ensures buffer[..][k] == Splice(was, offset, data)[k] {
      SpliceAt(was, offset, data, k);
    }
  }

  predicate Zero(d: seq<byte>) { forall i :: 0 <= i < |d| ==> d[i] == 0 }

  /** The fixed fields of the header, the addresses and the checksum still zero. */
  function FixedFields(total: uint16): (h: seq<byte>)
    ensures |h| == 12
  {
    [0x45, 0] + U16(total) + [0, 0, 0, 0, 64, 17, 0, 0]
  }

  lemma FixedInPlace(zeros: seq<byte>, total: uint16)
    requires |zeros| >= 20 && Zero(zeros)
    ensures Splice(zeros[0 := 0x45], 2, U16(total))[8 := 64][9 := 17] == FixedFields(total) + zeros[12..]
  {
    var r := Splice(zeros[0 := 0x45], 2, U16(total));
    forall k | 0 <= k < |zeros| ensures r[8 := 64][9 := 17][k] == (FixedFields(total) + zeros[12..])[k] {
      SpliceAt(zeros[0 := 0x45], 2, U16(total), k);
    }
  }

  lemma AddressesInPlace(buffer: seq<byte>, head: seq<byte>, source: Address, target: Address)
    requires |head| == 12 && |buffer| >= 20 && buffer[..12] == head
    ensures var r := Splice(Splice(buffer, 12, source), 16, target);
            r[..20] == head + source + target && r[20..] == buffer[20..]
  {
    hide Splice;
    SpliceParts(buffer, 12, source);
    var b := Splice(buffer, 12, source);
    SpliceParts(b, 16, target);
    var r := Splice(b, 16, target);
    assert b[..16] == b[..12] + b[12..16];
    assert r[..20] == r[..16] + r[16..20];
    assert b[20..] == b[16..][4..] && buffer[20..] == buffer[16..][4..];
  }

  lemma SealInPlace(buffer: seq<byte>, source: Address, target: Address, total: uint16, checksum: uint16)
    requires |buffer| >= 20 && buffer[..20] == IpHeader(source, target, total, 0)
    ensures var r := Splice(buffer, 10, U16(checksum));
            r[..20] == IpHeader(source, target, total, checksum) && r[20..] == buffer[20..]
  {
    hide Splice;
    var r := Splice(buffer, 10, U16(checksum));
    SpliceParts(buffer, 10, U16(checksum));
    assert r[..20] == r[..10] + r[10..12] + r[12..][..8];
    assert buffer[..10] == buffer[..20][..10] && buffer[12..][..8] == buffer[..20][12..];
    assert r[20..] == r[12..][8..] && buffer[20..] == buffer[12..][8..];
  }

  /** The twenty header bytes of a zeroed packet, checksum included. */
  method FillIpHeader(packet: array<byte>, source: Address, target: Address)
    requires 28 <= packet.Length <= 0xFFFF && Zero(packet[..])
    modifies packet
    ensures packet[..20] == SealedHeader(source, target, packet.Length)
    ensures packet[20..] == old(packet[20..])
  {
    hide WordSum, Folded, ChecksumOf, Splice, IpHeader;
    ghost var total, zeros := packet.Length, packet[..];
    packet[0] := 0x45;
    assert packet[..] == zeros[0 := 0x45];
    WriteUint16(packet, 2, packet.Length);
    packet[8] := 64;
    packet[9] := 17;
    FixedInPlace(zeros, total);
    ghost var fixed := packet[..];
    assert fixed == FixedFields(total) + zeros[12..];
    assert fixed[..12] == FixedFields(total) && fixed[20..] == zeros[20..];
    CopyInto(packet, 12, source);
    CopyInto(packet, 16, target);
    AddressesInPlace(fixed, FixedFields(total), source, target);
    ghost var zeroed := packet[..];
    HeaderIs(source, target, total);
    assert packet[..20] == zeroed[..20];
    var ipSum := Accumulate(packet[..20], 0);
    WordSumBound(zeroed[..20]);
    var ipChecksum := Finalize(ipSum);
    WriteUint16(packet, 10, ipChecksum);
    SealInPlace(zeroed, source, target, total, ipChecksum);
    assert packet[..20] == packet[..][..20] && packet[20..] == packet[..][20..];
  }

  lemma HeaderIs(source: Address, target: Address, total: uint16)
    ensures FixedFields(total) + source + target == IpHeader(source, target, total, 0)
  {
  }

  /** The plain sum of a datagram under its pseudo-header, in the code's four steps. */
  method SumDatagram(source: Address, target: Address, datagram: seq<byte>) returns (sum: uint32)
    requires |datagram| <= 0xFFFF
    ensures sum == WordSum(PseudoHeader(source, target, |datagram|)) + WordSum(datagram)
  {
    var pseudoTail: seq<byte> := [0, 17, |datagram| / 0x100, |datagram| % 0x100];
    hide WordSum;
    WordSumBound(source);
    WordSumBound(target);
    WordSumBound(pseudoTail);
    WordSumBound(datagram);
    ghost var a, b, c, d := WordSum(source), WordSum(target), WordSum(pseudoTail), WordSum(datagram);
    PseudoSum(source, target, |datagram|);
    sum := Accumulate(source, 0);
    assert sum == a;
    sum := Accumulate(target, sum);
    assert sum == a + b;
    sum := Accumulate(pseudoTail, sum);
    assert sum == a + b + c;
    sum := Accumulate(datagram, sum);
  }

  lemma PortsInPlace(buffer: seq<byte>, sourcePort: uint16, targetPort: uint16, payload: seq<byte>)
    requires |buffer| == 28 + |payload| <= 0xFFFF && Zero(buffer[20..])
    ensures var length := U16(8 + |payload|);
            var r := Splice(Splice(Splice(Splice(buffer, 20, U16(sourcePort)), 22, U16(targetPort)), 24, length), 28, payload);
            r == buffer[..20] + Datagram(sourcePort, targetPort, 0, payload)
  {
    var length := U16(8 + |payload|);
    var a := Splice(buffer, 20, U16(sourcePort));
    var b := Splice(a, 22, U16(targetPort));
    var c := Splice(b, 24, length);
    var r := Splice(c, 28, payload);
    forall k | 0 <= k < |buffer| ensures r[k] == (buffer[..20] + Datagram(sourcePort, targetPort, 0, payload))[k] {
      hide Splice;
      SpliceAt(buffer, 20, U16(sourcePort), k);
      SpliceAt(a, 22, U16(targetPort), k);
      SpliceAt(b, 24, length, k);
      SpliceAt(c, 28, payload, k);
      DatagramAt(sourcePort, targetPort, payload, k, buffer);
    }
  }

  lemma DatagramAt(sourcePort: uint16, targetPort: uint16, payload: seq<byte>, k: nat, buffer: seq<byte>)
    requires |buffer| == 28 + |payload| <= 0xFFFF && Zero(buffer[20..]) && k < |buffer|
    ensures (buffer[..20] + Datagram(sourcePort, targetPort, 0, payload))[k] ==
            if k < 20 then buffer[k] else if k < 22 then U16(sourcePort)[k - 20] else if k < 24 then U16(targetPort)[k - 22]
            else if k < 26 then U16(8 + |payload|)[k - 24] else if k < 28 then buffer[k] else payload[k - 28]
  {
    if 26 <= k < 28 { assert buffer[k] == buffer[20..][k - 20]; }
  }

  lemma ChecksumInPlace(head: seq<byte>, sourcePort: uint16, targetPort: uint16, payload: seq<byte>, checksum: uint16)
    requires |head| == 20 && |payload| <= 0xFFFF - 28
    ensures Splice(head + Datagram(sourcePort, targetPort, 0, payload), 26, U16(checksum)) ==
            head + Datagram(sourcePort, targetPort, checksum, payload)
  {
  }

  /** The datagram after a finished IP header, with the checksum over the pseudo-header. */
  method FillDatagram(packet: array<byte>, source: Address, target: Address, sourcePort: uint16, targetPort: uint16, payload: seq<byte>)
    requires packet.Length == 28 + |payload| <= 0xFFFF && Zero(packet[20..])
    modifies packet
    ensures packet[..20] == old(packet[..20])
    ensures packet[20..] == SealedDatagram(source, target, sourcePort, targetPort, payload)
  {
    var udpLength := 8 + |payload|;
    hide WordSum, Folded, ChecksumOf, PseudoHeader, Splice, Datagram;
    ghost var was := packet[..];
    assert was[20..] == packet[20..] && was[..20] == packet[..20];
    WriteUint16(packet, 20, sourcePort);
    WriteUint16(packet, 22, targetPort);
    WriteUint16(packet, 24, udpLength);
    CopyInto(packet, 28, payload);
    PortsInPlace(was, sourcePort, targetPort, payload);
    ghost var zeroed := packet[..];
    assert packet[20..] == zeroed[20..] == Datagram(sourcePort, targetPort, 0, payload);
    var udpSum := SumDatagram(source, target, packet[20..]);
    var udpChecksum := Finalize(udpSum);
    if udpChecksum == 0 { udpChecksum := 0xFFFF; }
    WriteUint16(packet, 26, udpChecksum);
    ChecksumInPlace(was[..20], sourcePort, targetPort, payload, udpChecksum);
    assert packet[..] == was[..20] + Datagram(sourcePort, targetPort, udpChecksum, payload);
    assert packet[..20] == packet[..][..20] && packet[20..] == packet[..][20..];
  }

  /** buildIpv4UdpPacket: the packet is zeroed, filled field by field and checksummed in place. */
  method BuildIpv4UdpPacket(sourceIp: string, targetIp: string, sourcePort: uint16, targetPort: uint16, payload: seq<byte>)
    returns (result: seq<byte>)
    ensures result == BuiltPacket(sourceIp, targetIp, sourcePort, targetPort, payload)
  {
    hide SealedHeader, SealedDatagram, OctetsFrom;
    var source := ParseIpv4Address(sourceIp);
    var target := ParseIpv4Address(targetIp);
    if source.None? || target.None? { return []; }
    var udpLength := 8 + |payload|;
    var totalLength := 20 + udpLength;
    if totalLength > 0xFFFF { return []; }

    var packet := new byte[totalLength](_ => 0);
    FillIpHeader(packet, source.value, target.value);
    FillDatagram(packet, source.value, target.value, sourcePort, targetPort, payload);
    assert packet[..] == packet[..20] + packet[20..];
    result := packet[..];
  }

  lemma PseudoSum(source: Address, target: Address, udpLength: uint16)
    ensures WordSum(PseudoHeader(source, target, udpLength)) ==
            WordSum(source) + WordSum(target) + WordSum([0, 17, udpLength / 0x100, udpLength % 0x100])
  {
    var tail: seq<byte> := [0, 17, udpLength / 0x100, udpLength % 0x100];
    WordSumConcat(source, target);
    WordSumConcat(source + target, tail);
    assert PseudoHeader(source, target, udpLength) == source + target + tail;
  }

  // ------------------------------------------------------------------ checksums verify

  /** Writing `c` into a zeroed word at an even offset adds `c` to the plain sum. */
  lemma WordSumField(before: seq<byte>, c: uint16, after: seq<byte>)
    requires |before| % 2 == 0
    ensures WordSum(before + U16(c) + after) == WordSum(before + U16(0) + after) + c
  {
    WordSumConcat(before + U16(c), after);
    WordSumConcat(before, U16(c));
    WordSumConcat(before + U16(0), after);
    WordSumConcat(before, U16(0));
    assert U16(c)[2..] == [] && U16(0)[2..] == [];
  }

  /** What a receiver recomputes, taking every field from the packet itself. */
  predicate IpChecksumVerifies(p: seq<byte>)
    requires |p| >= 20
  {
    OnesSum(p[..20]) == 0xFFFF
  }

  predicate UdpChecksumVerifies(p: seq<byte>)
    requires |p| >= 28
  {
    OnesSum(PseudoHeader(p[12..16], p[16..20], ReadU16(p, 24)) + p[20..]) == 0xFFFF
  }

  /** Every built packet verifies at both layers, and never says "no UDP checksum". */
  lemma PacketVerifies(source: Address, target: Address, sourcePort: uint16, targetPort: uint16, payload: seq<byte>)
    requires |payload| <= 0xFFFF - 28
    ensures var p := Packet(source, target, sourcePort, targetPort, payload);
            IpChecksumVerifies(p) && UdpChecksumVerifies(p) && ReadU16(p, 26) != 0
  {
    hide Packet, SealedHeader, SealedDatagram, PseudoHeader, OnesSum, UdpSum;
    var p := Packet(source, target, sourcePort, targetPort, payload);
    IpSumVerifies(source, target, 28 + |payload|);
    UdpSumVerifies(source, target, sourcePort, targetPort, payload);
    PacketParts(source, target, sourcePort, targetPort, payload);
  }

  /** Where the fields of a built packet are. */
  lemma PacketParts(source: Address, target: Address, sourcePort: uint16, targetPort: uint16, payload: seq<byte>)
    requires |payload| <= 0xFFFF - 28
    ensures var p := Packet(source, target, sourcePort, targetPort, payload);
            && p[..20] == SealedHeader(source, target, 28 + |payload|)
            && p[20..] == SealedDatagram(source, target, sourcePort, targetPort, payload)
            && p[12..16] == source && p[16..20] == target
            && ReadU16(p, 24) == 8 + |payload|
            && ReadU16(p, 26) == UdpChecksum(UdpSum(source, target, sourcePort, targetPort, payload))
  {
    hide WordSum, ChecksumOf, UdpSum, UdpChecksum;
    var p := Packet(source, target, sourcePort, targetPort, payload);
    var h := SealedHeader(source, target, 28 + |payload|);
    var d := SealedDatagram(source, target, sourcePort, targetPort, payload);
    assert p == h + d;
    assert h[12..16] == source && h[16..20] == target;
    assert d[4..6] == U16(8 + |payload|) && d[6..8] == U16(UdpChecksum(UdpSum(source, target, sourcePort, targetPort, payload)));
    assert p[24] == d[4] && p[25] == d[5] && p[26] == d[6] && p[27] == d[7];
  }

  lemma IpSumVerifies(source: Address, target: Address, total: uint16)
    ensures OnesSum(SealedHeader(source, target, total)) == 0xFFFF
  {
    hide ChecksumOf, Folded, OnesSum;
    var zeroed := IpHeader(source, target, total, 0);
    var s := WordSum(zeroed);
    var c := ChecksumOf(s);
    var before := [0x45, 0] + U16(total) + [0, 0, 0, 0, 64, 17];
    assert zeroed == before + U16(0) + (source + target);
    assert IpHeader(source, target, total, c) == before + U16(c) + (source + target);
    WordSumField(before, c, source + target);
    assert s > 0 by { WordSumPositive(zeroed); }
    ChecksumVerifies(s, c);
    FoldedIsOnesSum(IpHeader(source, target, total, c));
  }

  lemma WordSumPositive(d: seq<byte>)
    requires |d| >= 2 && d[0] > 0
    ensures WordSum(d) > 0
  {
  }

  /** The bytes in front of the UDP checksum field, as the receiver sums them. */
  function BeforeChecksum(pseudo: seq<byte>, sourcePort: uint16, targetPort: uint16, length: uint16): seq<byte> {
    pseudo + U16(sourcePort) + U16(targetPort) + U16(length)
  }

  lemma DatagramAround(pseudo: seq<byte>, sourcePort: uint16, targetPort: uint16, checksum: uint16, payload: seq<byte>)
    requires |payload| <= 0xFFFF - 8 && |pseudo| % 2 == 0
    ensures pseudo + Datagram(sourcePort, targetPort, checksum, payload) ==
            BeforeChecksum(pseudo, sourcePort, targetPort, 8 + |payload|) + U16(checksum) + payload
    ensures |BeforeChecksum(pseudo, sourcePort, targetPort, 8 + |payload|)| % 2 == 0
  {
  }

  lemma PseudoPositive(source: Address, target: Address, length: uint16)
    ensures WordSum(PseudoHeader(source, target, length)) >= 17
  {
    PseudoSum(source, target, length);
    var tail: seq<byte> := [0, 17, length / 0x100, length % 0x100];
    assert WordSum(tail) == Word(0, 17) + WordSum(tail[2..]);
  }

  lemma UdpSumVerifies(source: Address, target: Address, sourcePort: uint16, targetPort: uint16, payload: seq<byte>)
    requires |payload| <= 0xFFFF - 28
    ensures var pseudo := PseudoHeader(source, target, 8 + |payload|);
            OnesSum(pseudo + SealedDatagram(source, target, sourcePort, targetPort, payload)) == 0xFFFF
  {
    hide ChecksumOf, Folded, OnesSum, WordSum, PseudoHeader, Datagram, BeforeChecksum;
    var pseudo := PseudoHeader(source, target, 8 + |payload|);
    var zeroed := Datagram(sourcePort, targetPort, 0, payload);
    var s := WordSum(pseudo) + WordSum(zeroed);
    var c := UdpChecksum(s);
    var before := BeforeChecksum(pseudo, sourcePort, targetPort, 8 + |payload|);
    DatagramAround(pseudo, sourcePort, targetPort, 0, payload);
    DatagramAround(pseudo, sourcePort, targetPort, c, payload);
    WordSumConcat(pseudo, zeroed);
    WordSumField(before, c, payload);
    PseudoPositive(source, target, 8 + |payload|);
    ChecksumVerifies(s, c);
    FoldedIsOnesSum(pseudo + Datagram(sourcePort, targetPort, c, payload));
  }

  // ------------------------------------------------------------------ parsing

  datatype UdpView = UdpView(sourcePort: uint16, targetPort: uint16, payload: seq<byte>)

  /** The checks at the head of handleBrandmeisterPacketData, and the datagram they admit. */
  function ParsePacket(p: seq<byte>): (r: Option<UdpView>)
    ensures r.Some? ==> |p| >= 28 + |r.value.payload|
  {
    if |p| < 28 || p[0] / 16 != 4 || p[9] != 0x11 then None
    else
      var header := p[0] % 16 * 4;
      var total := ReadU16(p, 2);
      if header < 20 || header + 8 > |p| || total < header + 8 || total > |p| then None
      else
        var udpLength := ReadU16(p, header + 4);
        if udpLength < 8 || header + udpLength > total then None
        else Some(UdpView(ReadU16(p, header), ReadU16(p, header + 2), p[header + 8..header + udpLength]))
  }

  /** Parsing a built packet recovers both ports and the payload, at any payload length. */
  lemma PacketRoundTrip(source: Address, target: Address, sourcePort: uint16, targetPort: uint16, payload: seq<byte>)
    requires |payload| <= 0xFFFF - 28
    ensures ParsePacket(Packet(source, target, sourcePort, targetPort, payload)) ==
            Some(UdpView(sourcePort, targetPort, payload))
  {
    hide WordSum, ChecksumOf, UdpSum, UdpChecksum;
    var p := Packet(source, target, sourcePort, targetPort, payload);
    assert p[2..4] == U16(28 + |payload|);
    assert p[20..22] == U16(sourcePort) && p[22..24] == U16(targetPort) && p[24..26] == U16(8 + |payload|);
    assert p[28..28 + |payload|] == payload;
  }

  lemma PacketLayout(source: Address, target: Address, sourcePort: uint16, targetPort: uint16, payload: seq<byte>)
    requires |payload| <= 0xFFFF - 28
    ensures var p := Packet(source, target, sourcePort, targetPort, payload);
            p[12..16] == source && p[16..20] == target && p[28..] == payload
  {
  }
}
