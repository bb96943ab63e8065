/** The 55-byte DMRD packet of src/BMNetwork.cpp: buildHomebrewPacket and its reading back. */
module Homebrew {
  import opened Common
  import opened Dmr

  const PACKET_LENGTH := 55

  type Payload = p: seq<byte> | |p| == 33 witness seq(33, _ => 0)
  type RepeaterId = r: seq<byte> | |r| == 4 witness [0, 0, 0, 0]

  function Big24(v: uint32): (s: seq<byte>)
    ensures |s| == 3
  {
    [v / 0x1_0000 % 0x100, v / 0x100 % 0x100, v % 0x100]
  }

  function Little32(v: uint32): (s: seq<byte>)
    ensures |s| == 4
  {
    [v % 0x100, v / 0x100 % 0x100, v / 0x1_0000 % 0x100, v / 0x100_0000]
  }

  function Read24(p: seq<byte>, i: nat): uint32
    requires i + 3 <= |p|
  {
    p[i] as int * 0x1_0000 + p[i + 1] as int * 0x100 + p[i + 2]
  }

  /** Byte 15: slot, call type, sync kind and data type or voice burst number. */
  function Flags(f: Frame<Payload>): byte {
    (if f.slot == 2 then 0x80 else 0) + (if f.isPrivate then 0x40 else 0) +
    match f.dataType
    case VoiceSync => 0x10
    case Voice => f.n % 0x10
    case Data(code) => 0x20 + code
  }

  /** buildHomebrewPacket; empty for a slot other than 1 or 2. */
  function Build(f: Frame<Payload>, repeater: RepeaterId, streamId: uint32): (p: seq<byte>)
    ensures p == [] <==> f.slot !in {1, 2}
    ensures p != [] ==> |p| == PACKET_LENGTH
  {
    if f.slot != 1 && f.slot != 2 then []
    else
      [0x44, 0x4D, 0x52, 0x44] + [f.seqNo] + Big24(f.src) + Big24(f.dst) + repeater + [Flags(f)] + Little32(streamId) +
      f.payload + [f.ber, f.rssi]
  }

  /** read, for a packet taken from the receive queue. */
  function Read(p: seq<byte>): Option<Frame<Payload>> {
    if |p| < PACKET_LENGTH then None
    else
      var b := p[15];
      var payload: Payload := p[20..53];
      var dataType := if b / 0x20 % 2 == 1 then Data(b % 0x10) else if b / 0x10 % 2 == 1 then VoiceSync else Voice;
      Some(Frame(Read24(p, 5), Read24(p, 8), if b / 0x80 == 1 then 2 else 1, b / 0x40 % 2 == 1,
                 if dataType.Voice? then b % 0x10 else 0, p[4], dataType, p[53], p[54], payload))
  }

  /** Three bytes carry the low 24 bits of an id. */
  lemma Read24OfBig24(p: seq<byte>, i: nat, v: uint32)
    requires i + 3 <= |p| && p[i..i + 3] == Big24(v)
    ensures Read24(p, i) == v % 0x100_0000
  {
    var n := v % 0x100_0000;
    Split24(n);
    assert p[i] == p[i..i + 3][0] && p[i + 1] == p[i..i + 3][1] && p[i + 2] == p[i..i + 3][2];
    assert v == v / 0x100_0000 * 0x100_0000 + n;
    LowBytes(v);
  }

  lemma LowBytes(v: nat)
    ensures var n := v % 0x100_0000;
            v / 0x1_0000 % 0x100 == n / 0x1_0000 && v / 0x100 % 0x100 == n / 0x100 % 0x100 && v % 0x100 == n % 0x100
  {
    var h, n := v / 0x100_0000, v % 0x100_0000;
    Split24(n);
    assert v / 0x1_0000 == 0x100 * h + n / 0x1_0000;
    assert v / 0x100 == 0x100 * (0x100 * h) + n / 0x100;
    assert v == 0x100 * (0x1_0000 * h) + n;
    LowByte(h, n / 0x1_0000);
    LowByte(0x100 * h, n / 0x100);
    LowByte(0x1_0000 * h, n);
  }

  lemma LowByte(k: nat, x: nat)
    ensures (0x100 * k + x) % 0x100 == x % 0x100
  {
  }

  /** What the header can carry: 24-bit ids, and a burst number only on voice. */
  predicate Carriable(f: Frame<Payload>) {
    && f.src < 0x100_0000 && f.dst < 0x100_0000 && f.slot in {1, 2}
    && (if f.dataType.Voice? then f.n < 0x10 else f.n == 0)
  }

  /** What reading makes of a built packet: ids lose their high byte, and only voice keeps its burst number. */
  lemma ReadOfBuild(f: Frame<Payload>, repeater: RepeaterId, streamId: uint32)
    requires f.slot in {1, 2}
    ensures Read(Build(f, repeater, streamId)) ==
            Some(f.(src := f.src % 0x100_0000, dst := f.dst % 0x100_0000, n := if f.dataType.Voice? then f.n % 0x10 else 0))
  {
    hide Big24, Little32, Read24, Flags;
    var p := Build(f, repeater, streamId);
    assert p[4] == f.seqNo && p[15] == Flags(f) && p[53] == f.ber && p[54] == f.rssi;
    assert p[5..8] == Big24(f.src) && p[8..11] == Big24(f.dst) && p[20..53] == f.payload;
    Read24OfBig24(p, 5, f.src);
    Read24OfBig24(p, 8, f.dst);
    FlagsRoundTrip(f);
  }

  /** Where everything is in a packet: the tag, the sequence number, both ids, the repeater, the flags, the burst, and two measurements. */
  lemma PacketLayout(f: Frame<Payload>, repeater: RepeaterId, streamId: uint32)
    requires f.slot in {1, 2}
    ensures var p := Build(f, repeater, streamId);
            && |p| == 55 && p[..4] == [0x44, 0x4D, 0x52, 0x44] && p[4] == f.seqNo
            && p[5] as int * 0x1_0000 + p[6] as int * 0x100 + p[7] == f.src % 0x100_0000
            && p[8] as int * 0x1_0000 + p[9] as int * 0x100 + p[10] == f.dst % 0x100_0000
            && p[11..15] == repeater && (p[15] >= 0x80 <==> f.slot == 2) && (p[15] / 0x40 % 2 == 1 <==> f.isPrivate)
            && p[20..53] == f.payload && p[53] == f.ber && p[54] == f.rssi
  {
    hide Big24, Little32, Flags;
    var p := Build(f, repeater, streamId);
    assert p[15] == Flags(f);
    assert p[5..8] == Big24(f.src) && p[8..11] == Big24(f.dst);
    Read24OfBig24(p, 5, f.src);
    Read24OfBig24(p, 8, f.dst);
    FlagsRoundTrip(f);
  }

  /** A frame comes back whole from its packet exactly when the header can carry it. */
  lemma HomebrewRoundTrip(f: Frame<Payload>, repeater: RepeaterId, streamId: uint32)
    ensures Read(Build(f, repeater, streamId)) == Some(f) <==> Carriable(f)
  {
    hide Read, Build, Carriable;
    if f.slot in {1, 2} {
      ReadOfBuild(f, repeater, streamId);
      LowPartIsWhole(f);
    } else {
      NotRead(f, repeater, streamId);
    }
  }

  lemma LowPartIsWhole(f: Frame<Payload>)
    requires f.slot in {1, 2}
    ensures Some(f.(src := f.src % 0x100_0000, dst := f.dst % 0x100_0000, n := if f.dataType.Voice? then f.n % 0x10 else 0)) == Some(f)
            <==> Carriable(f)
  {
  }

  lemma NotRead(f: Frame<Payload>, repeater: RepeaterId, streamId: uint32)
    requires f.slot !in {1, 2}
    ensures Read(Build(f, repeater, streamId)) == None && !Carriable(f)
  {
  }

  lemma FlagsRoundTrip(f: Frame<Payload>)
    requires f.slot in {1, 2}
    ensures var b := Flags(f);
            && (b / 0x80 == 1 <==> f.slot == 2) && (b / 0x40 % 2 == 1 <==> f.isPrivate)
            && (b / 0x20 % 2 == 1 <==> f.dataType.Data?)
            && (f.dataType.Data? ==> b % 0x10 == f.dataType.code)
            && (!f.dataType.Data? ==> (b / 0x10 % 2 == 1 <==> f.dataType.VoiceSync?))
            && (f.dataType.Voice? ==> b % 0x10 == f.n % 0x10)
  {
  }
}
