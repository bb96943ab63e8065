/** src/BmPacketDataReassembler.cpp: packet-data sessions, timeouts and the duplicate window. */
module Reassembler {
  import opened Common
  import opened Dmr
  import Bits

  /** steady_clock, in nanoseconds. */
  type Time = int

  const SESSION_TIMEOUT: Time := 5_000_000_000
  const DUPLICATE_WINDOW: Time := 30_000_000_000
  const MAX_BLOCKS := 64

  type DataFrame = Frame<Burst>

  // ------------------------------------------------------------------ keys and signatures

  /** sessionKey: 24 bits of source, 24 of target, one of slot. */
  function SessionKey(src: uint32, dst: uint32, slot: nat): nat {
    src % 0x100_0000 * 0x200_0000 + dst % 0x100_0000 * 2 + (if slot == 2 then 1 else 0)
  }

  function Key(f: DataFrame): nat { SessionKey(f.src, f.dst, f.slot) }

  /** Radios with 24-bit ids on slot 1 or 2 never share a session. */
  lemma SessionKeyInjective(s: uint32, d: uint32, slot: nat, s': uint32, d': uint32, slot': nat)
    requires s < 0x100_0000 && d < 0x100_0000 && s' < 0x100_0000 && d' < 0x100_0000
    requires slot in {1, 2} && slot' in {1, 2}
    ensures SessionKey(s, d, slot) == SessionKey(s', d', slot') <==> s == s' && d == d' && slot == slot'
  {
    KeyParts(s, d, slot);
    KeyParts(s', d', slot');
    hide SessionKey;
  }

  lemma KeyParts(s: uint32, d: uint32, slot: nat)
    requires s < 0x100_0000 && d < 0x100_0000
    ensures var k := SessionKey(s, d, slot);
            k / 0x200_0000 == s && k % 0x200_0000 / 2 == d && k % 2 == if slot == 2 then 1 else 0
  {
    var low := d * 2 + (if slot == 2 then 1 else 0);
    assert SessionKey(s, d, slot) == 0x200_0000 * s + low && low < 0x200_0000;
  }

  datatype Packet = Packet(sourceRid: uint32, targetRid: uint32, slotNo: nat, sequenceNo: nat, definedShortData: bool, bytes: seq<byte>)

  /** Bitwise exclusive or. */
  function Xor(a: nat, b: nat): nat {
    if a == 0 then b else if b == 0 then a
    else 2 * Xor(a / 2, b / 2) + (a % 2 + b % 2) % 2
  }

  /** FNV-1a over a byte string, in 64 bits. */
  function Fnv(hash: nat, bytes: seq<nat>): nat
    decreases |bytes|
  {
    if bytes == [] then hash else Fnv(FnvStep(hash, bytes[0]), bytes[1..])
  }

  function FnvStep(hash: nat, b: nat): nat {
    Xor(hash, b) * 1099511628211 % 0x1_0000_0000_0000_0000
  }

  function BigEndian32(v: uint32): seq<nat> {
    [v / 0x100_0000, v / 0x1_0000 % 0x100, v / 0x100 % 0x100, v % 0x100]
  }

  /** The bytes a signature is taken over. */
  function SignedBytes(p: Packet): seq<nat> {
    BigEndian32(p.sourceRid) + BigEndian32(p.targetRid) + [p.slotNo % 0x100] + p.bytes
  }

  /** packetSignature depends on the ids, the slot and the bytes only. */
  function Signature(p: Packet): nat {
    Fnv(1469598103934665603, SignedBytes(p))
  }

  predicate SameContent(p: Packet, q: Packet) {
    p.sourceRid == q.sourceRid && p.targetRid == q.targetRid && p.slotNo == q.slotNo && p.bytes == q.bytes
  }

  // ------------------------------------------------------------------ what a signature tells apart

  const WORD64 := 0x1_0000_0000_0000_0000

  lemma {:induction false} XorCancels(a: nat, b: nat, c: nat)
    requires Xor(a, b) == Xor(a, c)
    ensures b == c
  {
    hide Xor;
    if a == 0 {
      XorNothing(b);
      XorNothing(c);
    } else {
      XorBits(a, b);
      XorBits(a, c);
      XorCancels(a / 2, b / 2, c / 2);
      Halves(b);
      Halves(c);
    }
  }

  lemma XorNothing(b: nat)
    ensures Xor(0, b) == b
  {
  }

  lemma Halves(n: nat)
    ensures n == 2 * (n / 2) + n % 2
  {
  }

  lemma XorBits(a: nat, b: nat)
    ensures Xor(a, b) / 2 == Xor(a / 2, b / 2) && Xor(a, b) % 2 == (a % 2 + b % 2) % 2
  {
  }

  lemma {:induction false} XorCommutes(a: nat, b: nat)
    ensures Xor(a, b) == Xor(b, a)
  {
    if a > 0 && b > 0 { XorCommutes(a / 2, b / 2); }
  }

  lemma {:induction false} XorBound(a: nat, b: nat, width: nat)
    requires a < Bits.Pow2(width) && b < Bits.Pow2(width)
    ensures Xor(a, b) < Bits.Pow2(width)
  {
    if a > 0 && b > 0 { XorBound(a / 2, b / 2, width - 1); }
  }

  lemma {:induction false} Pow2Sum(m: nat, n: nat)
    ensures Bits.Pow2(m + n) == Bits.Pow2(m) * Bits.Pow2(n)
  {
    if m > 0 { Pow2Sum(m - 1, n); }
  }

  lemma Pow2Of64()
    ensures Bits.Pow2(64) == WORD64
  {
    hide Bits.Pow2;
    Bits.Pow2Of8();
    Pow2Sum(8, 8);
    Pow2Sum(16, 16);
    Pow2Sum(32, 32);
  }

  const MULTIPLIER := 1099511628211
  const INVERSE := 0xCE965057AFF6957B

  /** The multiplier is odd, so it has an inverse in 64 bits. */
  lemma InverseOfMultiplier()
    ensures MULTIPLIER * INVERSE == 1 + MULTIPLIER * INVERSE / WORD64 * WORD64
  {
    assert MULTIPLIER * INVERSE % WORD64 == 1;
  }

  lemma InverseCancels(d: int, m: int, inverse: int, k: int, w: int, q: int)
    requires d * m == w * q && m * inverse == 1 + k * w
    ensures d == w * (q * inverse - d * k)
  {
    calc {
      d;
      d * (m * inverse) - d * (k * w);
      (d * m) * inverse - w * (d * k);
      (w * q) * inverse - w * (d * k);
      w * (q * inverse) - w * (d * k);
    }
  }

  lemma SmallMultiple(d: int, w: int, m: int)
    requires d == w * m && -w < d < w
    ensures d == 0
  {
  }

  /** So multiplying by it in 64 bits loses nothing. */
  lemma MultiplierInvertible(x: nat, y: nat)
    requires x < WORD64 && y < WORD64 && x * MULTIPLIER % WORD64 == y * MULTIPLIER % WORD64
    ensures x == y
  {
    InverseOfMultiplier();
    var q := x * MULTIPLIER / WORD64 - y * MULTIPLIER / WORD64;
    var k := MULTIPLIER * INVERSE / WORD64;
    InverseCancels(x - y, MULTIPLIER, INVERSE, k, WORD64, q);
    SmallMultiple(x - y, WORD64, q * INVERSE - (x - y) * k);
  }

  /** One step of the hash tells different hashes apart under the same byte, and different bytes under the same hash. */
  lemma FnvStepInjective(h: nat, g: nat, b: nat, c: nat)
    requires h < WORD64 && g < WORD64 && b < 256 && c < 256 && (h == g || b == c)
    ensures FnvStep(h, b) == FnvStep(g, c) <==> h == g && b == c
    ensures FnvStep(h, b) < WORD64
  {
    hide Xor;
    Pow2Of64();
    XorBound(h, b, 64);
    XorBound(g, c, 64);
    if FnvStep(h, b) == FnvStep(g, c) {
      MultiplierInvertible(Xor(h, b), Xor(g, c));
      if h == g {
        XorCancels(h, b, c);
      } else {
        XorCommutes(h, b);
        XorCommutes(g, b);
        XorCancels(b, h, g);
      }
    }
  }

  predicate AllBytes(s: seq<nat>) { forall i :: 0 <= i < |s| ==> s[i] < 256 }

  /** Different hashes stay different through the same bytes. */
  lemma {:induction false} FnvKeepsApart(h: nat, g: nat, s: seq<nat>)
    requires h < WORD64 && g < WORD64 && h != g && AllBytes(s)
    ensures Fnv(h, s) != Fnv(g, s)
    decreases |s|
  {
    hide FnvStep;
    if s != [] {
      FnvStepInjective(h, g, s[0], s[0]);
      FnvStepInjective(g, g, s[0], s[0]);
      FnvKeepsApart(FnvStep(h, s[0]), FnvStep(g, s[0]), s[1..]);
    }
  }

  /** Byte strings that differ in exactly one place have different hashes. */
  lemma {:induction false} FnvTellsOneByte(h: nat, s: seq<nat>, t: seq<nat>, i: nat)
    requires h < WORD64 && AllBytes(s) && AllBytes(t) && |s| == |t| && i < |s|
    requires s[i] != t[i] && forall j :: 0 <= j < |s| && j != i ==> s[j] == t[j]
    ensures Fnv(h, s) != Fnv(h, t)
    decreases |s|
  {
    hide FnvStep;
    FnvStepInjective(h, h, s[0], t[0]);
    FnvStepInjective(h, h, t[0], t[0]);
    if i == 0 {
      assert s[1..] == t[1..];
      FnvKeepsApart(FnvStep(h, s[0]), FnvStep(h, t[0]), s[1..]);
    } else {
      FnvTellsOneByte(FnvStep(h, s[0]), s[1..], t[1..], i - 1);
    }
  }

  lemma SignedAllBytes(p: Packet)
    ensures AllBytes(SignedBytes(p)) && |SignedBytes(p)| == 9 + |p.bytes|
    ensures SignedBytes(p)[8] == p.slotNo % 0x100 && forall i :: 0 <= i < |p.bytes| ==> SignedBytes(p)[9 + i] == p.bytes[i]
  {
  }

  lemma IdReadsBack(v: uint32)
    ensures var d := BigEndian32(v); v == ((d[0] * 0x100 + d[1]) * 0x100 + d[2]) * 0x100 + d[3]
  {
    var q := v / 0x100;
    assert v == q * 0x100 + v % 0x100 && q / 0x100 == v / 0x1_0000 && q == q / 0x100 * 0x100 + q % 0x100;
    assert v / 0x1_0000 == v / 0x1_0000 / 0x100 * 0x100 + v / 0x1_0000 % 0x100 && v / 0x1_0000 / 0x100 == v / 0x100_0000;
  }

  /** The bytes signed tell packets apart by both ids, the slot and every byte, and by nothing else. */
  lemma SignedInjective(p: Packet, q: Packet)
    ensures SignedBytes(p) == SignedBytes(q) <==>
            p.sourceRid == q.sourceRid && p.targetRid == q.targetRid && p.slotNo % 0x100 == q.slotNo % 0x100 && p.bytes == q.bytes
  {
    if SignedBytes(p) == SignedBytes(q) {
      IdReadsBack(p.sourceRid);
      IdReadsBack(p.targetRid);
      IdReadsBack(q.sourceRid);
      IdReadsBack(q.targetRid);
      hide BigEndian32;
      SignedParts(p);
      SignedParts(q);
    }
  }

  lemma SignedParts(p: Packet)
    ensures var s := SignedBytes(p);
            && |s| == 9 + |p.bytes| && |BigEndian32(p.sourceRid)| == 4 == |BigEndian32(p.targetRid)|
            && s[..4] == BigEndian32(p.sourceRid) && s[4..8] == BigEndian32(p.targetRid)
            && s[8] == p.slotNo % 0x100 && s[9..] == p.bytes
  {
  }

  /** Packets of the same radios whose slot alone, or one byte alone, differs, are signed over bytes that differ in one place. */
  lemma SignedDiffers(p: Packet, q: Packet, at: nat, j: nat)
    requires p.sourceRid == q.sourceRid && p.targetRid == q.targetRid && |p.bytes| == |q.bytes|
    requires if at == 0 then p.slotNo % 0x100 != q.slotNo % 0x100 && p.bytes == q.bytes
             else p.slotNo == q.slotNo && at <= |p.bytes| && p.bytes[at - 1] != q.bytes[at - 1]
                  && forall k :: 0 <= k < |p.bytes| && k != at - 1 ==> p.bytes[k] == q.bytes[k]
    requires j < 9 + |p.bytes|
    ensures SignedBytes(p)[j] == SignedBytes(q)[j] <==> j != 8 + at
  {
    hide BigEndian32;
    var ids := BigEndian32(p.sourceRid) + BigEndian32(p.targetRid);
    assert SignedBytes(p) == ids + ([p.slotNo % 0x100] + p.bytes) && SignedBytes(q) == ids + ([q.slotNo % 0x100] + q.bytes);
    IdBytes(p.sourceRid);
    IdBytes(p.targetRid);
  }

  lemma IdBytes(v: uint32)
    ensures |BigEndian32(v)| == 4
  {
  }

  /** Packets of the same radios that differ in one byte of their contents, or in the slot alone, have different signatures. */
  lemma SignatureTellsApart(p: Packet, q: Packet, at: nat)
    requires p.sourceRid == q.sourceRid && p.targetRid == q.targetRid && |p.bytes| == |q.bytes|
    requires if at == 0 then p.slotNo % 0x100 != q.slotNo % 0x100 && p.bytes == q.bytes
             else p.slotNo == q.slotNo && at <= |p.bytes| && p.bytes[at - 1] != q.bytes[at - 1]
                  && forall k :: 0 <= k < |p.bytes| && k != at - 1 ==> p.bytes[k] == q.bytes[k]
    ensures Signature(p) != Signature(q)
  {
    SignedAllBytes(p);
    SignedAllBytes(q);
    hide Fnv, SignedBytes;
    var s, t := SignedBytes(p), SignedBytes(q);
    forall j | 0 <= j < |s| ensures s[j] == t[j] <==> j != 8 + at { SignedDiffers(p, q, at, j); }
    FnvTellsOneByte(1469598103934665603, s, t, 8 + at);
  }

  // ------------------------------------------------------------------ one session

  datatype SessionData = Session(
    header: DataHeader, expected: nat, received: nat, nextUnconfirmed: nat, confirmed: bool, shortData: bool,
    blocks: seq<seq<byte>>, got: seq<bool>, updatedAt: Time)

  function CountTrue(s: seq<bool>): nat {
    if s == [] then 0 else (if s[0] then 1 else 0) + CountTrue(s[1..])
  }

  lemma {:induction false} CountTrueSet(s: seq<bool>, i: nat)
    requires i < |s| && !s[i]
    ensures CountTrue(s[i := true]) == CountTrue(s) + 1
  {
    if i == 0 {
      assert s[0 := true][1..] == s[1..];
    } else {
      CountTrueSet(s[1..], i - 1);
      assert s[i := true][1..] == s[1..][i - 1 := true];
    }
  }

  /** The count reaches the length exactly when every flag is set. */
  lemma {:induction false} CountTrueFull(s: seq<bool>)
    ensures CountTrue(s) <= |s|
    ensures CountTrue(s) == |s| <==> forall i :: 0 <= i < |s| ==> s[i]
  {
    if s != [] {
      CountTrueFull(s[1..]);
      assert forall i :: 0 <= i < |s| ==> s[i] == if i == 0 then s[0] else s[1..][i - 1];
    }
  }

  /** The shape a session has from its header on, complete or not. */
  predicate WellFormed(s: SessionData) {
    && 1 <= s.expected <= MAX_BLOCKS
    && |s.blocks| == |s.got| == s.expected
    && s.received == CountTrue(s.got)
    && (!s.confirmed ==> s.nextUnconfirmed == s.received && forall i :: 0 <= i < s.expected ==> (s.got[i] <==> i < s.nextUnconfirmed))
  }

  /** What a stored session always satisfies: it is still missing a block. */
  predicate ValidSession(s: SessionData) { WellFormed(s) && s.received < s.expected }

  const IDLE_HEADER := DataHeader(OtherFormat, OtherSap, false, 1, 0, 0)

  type Session = s: SessionData | ValidSession(s)
    witness Session(IDLE_HEADER, 1, 0, 0, true, false, [[]], [false], 0)

  predicate AcceptsHeader(h: DataHeader) {
    && ((h.dpf in {ConfirmedData, UnconfirmedData} && h.sap == PacketData) || (h.dpf == DefinedShort && h.sap == ShortData))
    && 0 < h.blocksToFollow <= MAX_BLOCKS
  }

  lemma {:induction false} CountTrueNone(n: nat)
    ensures CountTrue(seq(n, _ => false)) == 0
  {
    if n > 0 {
      CountTrueNone(n - 1);
      assert seq(n, _ => false)[1..] == seq(n - 1, _ => false);
    }
  }

  function NewSession(h: DataHeader, now: Time): Session
    requires AcceptsHeader(h)
  {
    var shortData := h.dpf == DefinedShort && h.sap == ShortData;
    CountTrueNone(h.blocksToFollow);
    Session(h, h.blocksToFollow, 0, 0, h.dpf == ConfirmedData || (shortData && h.acknowledge), shortData,
            seq(h.blocksToFollow, _ => []), seq(h.blocksToFollow, _ => false), now)
  }

  /** The block decoder, given the session's layout; None when its checks fail. */
  function DecodeBlock(s: SessionData, b: Burst): Option<NumberedBlock> {
    if s.confirmed then b.numbered
    else match b.plain case None => None case Some(bytes) => Some(NumberedBlock(s.nextUnconfirmed, bytes))
  }

  function StoreBlock(s: SessionData, block: NumberedBlock): (r: SessionData)
    requires WellFormed(s) && block.serial < s.expected
    requires !s.confirmed ==> block.serial == s.nextUnconfirmed
    ensures WellFormed(r) && r.expected == s.expected && r.confirmed == s.confirmed
  {
    var s' := if s.confirmed then s else s.(nextUnconfirmed := s.nextUnconfirmed + 1);
    if s.got[block.serial] then s'
    else
      CountTrueSet(s.got, block.serial);
      s'.(blocks := s.blocks[block.serial := block.bytes], got := s.got[block.serial := true], received := s.received + 1)
  }

  /** The trimming of pad and CRC, or to the length an IPv4 header claims. */
  function TrimmedBytes(bytes: seq<byte>, shortData: bool, padLength: nat): seq<byte> {
    var padAndCrc := (if shortData then (padLength + 7) / 8 else padLength) + 4;
    if |bytes| >= 20 && bytes[0] / 16 == 4 then
      var ipv4Length := ReadU16(bytes, 2);
      if bytes[0] % 16 * 4 <= ipv4Length <= |bytes| then bytes[..ipv4Length] else bytes
    else if padAndCrc <= |bytes| then bytes[..|bytes| - padAndCrc]
    else bytes
  }

  function FinishedPacket(f: DataFrame, s: SessionData): Packet {
    Packet(f.src, f.dst, f.slot % 0x100, s.header.ns, s.shortData,
           TrimmedBytes(Flatten(s.blocks), s.shortData, s.header.padLength))
  }

  datatype Outcome = Ignored | Consumed | Completed(packet: Packet)

  /** A payload frame for an open session. */
  function StepBlock(s: Session, f: DataFrame, now: Time): (Option<Session>, Outcome) {
    var s1 := s.(updatedAt := now);
    match DecodeBlock(s1, f.payload)
    case None => (Some(s1), Consumed)
    case Some(block) =>
      if block.serial >= s.expected then (Some(s1), Consumed)
      else
        var s2 := StoreBlock(s1, block);
        CountTrueFull(s2.got);
        if s2.received != s2.expected then (Some(s2), Consumed) else (None, Completed(FinishedPacket(f, s2)))
  }

  /** What a frame does to its own session, before the duplicate window. */
  function StepSession(s: Option<Session>, f: DataFrame, now: Time): (Option<Session>, Outcome) {
    if f.dataType == DATA_HEADER then
      if f.payload.header.None? || !AcceptsHeader(f.payload.header.value) then (s, Ignored)
      else (Some(NewSession(f.payload.header.value, now)), Consumed)
    else if !IsPayloadDataType(f.dataType) || s.None? then (s, Ignored)
    else StepBlock(s.value, f, now)
  }

  // ------------------------------------------------------------------ the whole reassembler

  datatype State = State(sessions: map<nat, Session>, recent: map<nat, Time>)
  datatype Result = Result(consumed: bool, packet: Option<Packet>)

  predicate TimedOut(s: Session, now: Time) { now - s.updatedAt > SESSION_TIMEOUT }

  function Live(s: Option<Session>, now: Time): Option<Session> {
    if s.Some? && TimedOut(s.value, now) then None else s
  }

  function Expired(st: State, now: Time): State {
    State(map k | k in st.sessions && !TimedOut(st.sessions[k], now) :: st.sessions[k],
          map k | k in st.recent && now < st.recent[k] :: st.recent[k])
  }

  /** The duplicate window: a completed packet is passed on unless its signature is still remembered. */
  function Deliver(recent: map<nat, Time>, outcome: Outcome, now: Time): (map<nat, Time>, Result) {
    match outcome
    case Ignored => (recent, Result(false, None))
    case Consumed => (recent, Result(true, None))
    case Completed(p) =>
      if Signature(p) in recent && now < recent[Signature(p)] then (recent, Result(true, None))
      else (recent[Signature(p) := now + DUPLICATE_WINDOW], Result(true, Some(p)))
  }

  function Pushed(st: State, f: DataFrame, now: Time): (State, Result) {
    var st1 := Expired(st, now);
    var (session, outcome) := StepSession(Get(st1.sessions, Key(f)), f, now);
    var (recent, result) := Deliver(st1.recent, outcome, now);
    (State(Put(st1.sessions, Key(f), session), recent), result)
  }

  class BmPacketDataReassembler {
    var sessions: map<nat, Session>
    var recentPackets: map<nat, Time>

    function View(): State
      reads this
    {
      State(sessions, recentPackets)
    }

    constructor ()
      ensures View() == State(map[], map[])
    {
      sessions, recentPackets := map[], map[];
    }

    /** The first loop of expire, entry by entry. */
    method ExpireSessions(now: Time)
      modifies this`sessions
      ensures sessions == Expired(old(View()), now).sessions
    {
      hide WellFormed;
      ghost var before := sessions;
      var todo := sessions.Keys;
      while todo != {}
        invariant todo <= sessions.Keys <= before.Keys
        invariant forall k :: k in sessions ==> sessions[k] == before[k] && (k in todo || !TimedOut(before[k], now))
        invariant forall k :: k in before && !TimedOut(before[k], now) ==> k in sessions
        decreases |todo|
      {
        var k :| k in todo;
        todo := todo - {k};
        if now - sessions[k].updatedAt > SESSION_TIMEOUT {
          sessions := sessions - {k};
        }
      }
    }

    /** The second loop of expire. */
    method ExpireRecent(now: Time)
      modifies this`recentPackets
      ensures recentPackets == Expired(old(View()), now).recent
    {
      ghost var before := recentPackets;
      var todo := recentPackets.Keys;
      while todo != {}
        invariant todo <= recentPackets.Keys <= before.Keys
        invariant forall k :: k in recentPackets ==> recentPackets[k] == before[k] && (k in todo || now < before[k])
        invariant forall k :: k in before && now < before[k] ==> k in recentPackets
        decreases |todo|
      {
        var k :| k in todo;
        todo := todo - {k};
        if now >= recentPackets[k] {
          recentPackets := recentPackets - {k};
        }
      }
    }

    method Expire(now: Time)
      modifies this
      ensures View() == Expired(old(View()), now)
    {
      ExpireSessions(now);
      ExpireRecent(now);
    }

    /** The session a header opens replaces any session under the same key. */
    method PushHeader(frame: DataFrame, now: Time) returns (consumed: bool)
      requires frame.dataType == DATA_HEADER
      modifies this
      ensures recentPackets == old(recentPackets)
      ensures sessions == Put(old(sessions), Key(frame), StepSession(Get(old(sessions), Key(frame)), frame, now).0)
      ensures StepSession(Get(old(sessions), Key(frame)), frame, now).1 == if consumed then Consumed else Ignored
    {
      if frame.payload.header.None? || !AcceptsHeader(frame.payload.header.value) {
        assert sessions == Put(old(sessions), Key(frame), Get(old(sessions), Key(frame)));
        return false;
      }
      sessions := sessions[Key(frame) := NewSession(frame.payload.header.value, now)];
      return true;
    }

    /** A payload frame: refresh, decode, store; a complete session leaves the table. */
    method PushBlock(frame: DataFrame, now: Time) returns (outcome: Outcome)
      requires frame.dataType != DATA_HEADER
      modifies this
      ensures recentPackets == old(recentPackets)
      ensures outcome == StepSession(Get(old(sessions), Key(frame)), frame, now).1
      ensures sessions == Put(old(sessions), Key(frame), StepSession(Get(old(sessions), Key(frame)), frame, now).0)
    {
      hide StoreBlock, FinishedPacket, SessionKey, CountTrue;
      var key := Key(frame);
      assert sessions == Put(sessions, key, Get(sessions, key));
      if !IsPayloadDataType(frame.dataType) { return Ignored; }
      if key !in sessions { return Ignored; }
      var session: SessionData := sessions[key].(updatedAt := now);
      sessions := sessions[key := session];
      var block := DecodeBlock(session, frame.payload);
      if block.None? { return Consumed; }
      if block.value.serial >= session.expected { return Consumed; }
      session := StoreBlock(session, block.value);
      CountTrueFull(session.got);
      if session.received != session.expected {
        sessions := sessions[key := session];
        return Consumed;
      }
      sessions := sessions - {key};
      return Completed(FinishedPacket(frame, session));
    }

    method Push(frame: DataFrame, now: Time) returns (result: Result)
      modifies this
      ensures (View(), result) == Pushed(old(View()), frame, now)
    {
      hide Expired, StepSession, Signature, SessionKey;
      Expire(now);
      if frame.dataType == DATA_HEADER {
        var consumed := PushHeader(frame, now);
        return Result(consumed, None);
      }
      var outcome := PushBlock(frame, now);
      match outcome {
        case Ignored => return Result(false, None);
        case Consumed => return Result(true, None);
        case Completed(packet) =>
          var signature := Signature(packet);
          if signature in recentPackets && now < recentPackets[signature] {
            return Result(true, None);
          }
          recentPackets := recentPackets[signature := now + DUPLICATE_WINDOW];
          return Result(true, Some(packet));
      }
    }
  }
}
