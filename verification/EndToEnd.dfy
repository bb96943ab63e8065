/**
 * The packet-data path as a whole: a text built, wrapped, encoded and pushed frame by frame
 * into a fresh reassembler is handled as the same text.
 */
module EndToEnd {
  import opened Common
  import opened Dmr
  import opened PacketEncoder
  import R = Reassembler
  import opened ReassemblerRuns
  import opened Ipv4Udp
  import opened TmsText

  /** Frames pushed one after another, frame `i` at `times[i]`. */
  function Timed(frames: seq<Frame<Burst>>, times: seq<R.Time>): (t: Trace)
    requires |times| == |frames|
    ensures |t| == |frames|
  {
    seq(|frames|, i requires 0 <= i < |frames| => Event(frames[i], times[i]))
  }

  /** A clock that never steps back and never pauses longer than the session timeout. */
  predicate Steady(times: seq<R.Time>) {
    forall i :: 0 < i < |times| ==> 0 <= times[i] - times[i - 1] <= R.SESSION_TIMEOUT
  }

  predicate SteadyTrace(t: Trace) {
    forall i :: 0 < i < |t| ==> 0 <= t[i].now - t[i - 1].now <= R.SESSION_TIMEOUT
  }

  lemma {:induction false} SteadyTraceIsMonotone(trace: Trace)
    requires SteadyTrace(trace)
    ensures Monotone(trace)
  {
    if trace != [] {
      var before, e := trace[..|trace| - 1], trace[|trace| - 1];
      SteadyTraceIsMonotone(before);
      MonotoneAppend(before, e);
      assert trace == before + [e];
    }
  }

  lemma {:induction false} SteadyIsPrompt(head: Event, rest: Trace)
    requires SteadyTrace([head] + rest)
    ensures Prompt(head.now, rest)
  {
    if rest != [] {
      var whole := [head] + rest;
      var before := rest[..|rest| - 1];
      assert [head] + before == whole[..|whole| - 1];
      SteadyIsPrompt(head, before);
      assert whole[|whole| - 1] == rest[|rest| - 1];
      assert whole[|whole| - 2].now == LastTime(head.now, before);
    }
  }

  lemma {:induction false} PreamblesAreIgnored(evs: Trace)
    requires forall i :: 0 <= i < |evs| ==> evs[i].frame.dataType == CSBK
    ensures Alone(None, evs) == None && forall i :: 0 <= i < |evs| ==> AloneOutcomes(None, evs)[i] == R.Ignored
  {
    if evs != [] {
      PreamblesAreIgnored(evs[..|evs| - 1]);
    }
  }

  /** The last push sees the same session, and so has the same outcome, as the automaton run alone. */
  lemma OutcomeIsAlone(trace: Trace, k: nat)
    requires trace != [] && Monotone(trace) && forall i :: 0 <= i < |trace| ==> R.Key(trace[i].frame) == k
    ensures var e := trace[|trace| - 1];
            LastResult(trace) == R.Deliver(R.Expired(Run(trace[..|trace| - 1]), e.now).recent, AloneOutcomes(None, trace)[|trace| - 1], e.now).1
  {
    hide R.StepSession, R.Key, R.Expired, Monotone;
    AllOwn(trace, k);
    FollowsAlone(trace, k);
    LastOutcome(trace, k);
  }

  /** A push that completes nothing delivers nothing and leaves no more remembered. */
  lemma NothingRemembered(trace: Trace, k: nat)
    requires trace != [] && Monotone(trace) && forall i :: 0 <= i < |trace| ==> R.Key(trace[i].frame) == k
    requires !AloneOutcomes(None, trace)[|trace| - 1].Completed?
    ensures LastResult(trace).packet == None
    ensures Run(trace[..|trace| - 1]).recent == map[] ==> Run(trace).recent == map[]
  {
    hide R.StepSession, R.Key, R.Signature, AloneOutcomes, Monotone;
    OutcomeIsAlone(trace, k);
    if Run(trace).recent != map[] && Run(trace[..|trace| - 1]).recent == map[] {
      var sig :| sig in Run(trace).recent;
      RememberedStep(Run(trace[..|trace| - 1]), trace[|trace| - 1], sig);
    }
  }

  lemma OutcomesOfFront(trace: Trace, n: nat)
    requires n <= |trace|
    ensures AloneOutcomes(None, trace[..n]) == AloneOutcomes(None, trace)[..n]
  {
    hide AloneOutcomes, Alone;
    AloneSplit(None, trace[..n], trace[n..]);
    assert trace[..n] + trace[n..] == trace;
  }

  lemma MonotonePrefix(trace: Trace, n: nat)
    requires Monotone(trace) && n <= |trace|
    ensures Monotone(trace[..n])
  {
  }

  /** While nothing completes, nothing is remembered. */
  lemma {:induction false} QuietSoFar(trace: Trace, k: nat, n: nat)
    requires n <= |trace| && Monotone(trace) && forall i :: 0 <= i < |trace| ==> R.Key(trace[i].frame) == k
    requires forall i :: 0 <= i < n ==> !AloneOutcomes(None, trace)[i].Completed?
    ensures Run(trace[..n]).recent == map[]
  {
    hide R.Key, AloneOutcomes, Monotone;
    if n > 0 {
      QuietSoFar(trace, k, n - 1);
      assert trace[..n][..n - 1] == trace[..n - 1];
      MonotonePrefix(trace, n);
      OutcomesOfFront(trace, n);
      hide Run;
      NothingRemembered(trace[..n], k);
    }
  }

  /** Every push of a stream that completes nothing is silent. */
  lemma SilentPush(trace: Trace, k: nat, i: nat)
    requires i < |trace| && Monotone(trace) && forall i :: 0 <= i < |trace| ==> R.Key(trace[i].frame) == k
    requires !AloneOutcomes(None, trace)[i].Completed?
    ensures SilentAt(trace, i)
  {
    hide R.Key, AloneOutcomes, Monotone, Run;
    MonotonePrefix(trace, i + 1);
    OutcomesOfFront(trace, i + 1);
    NothingRemembered(trace[..i + 1], k);
  }

  /** The first push that completes a packet delivers it. */
  lemma FirstCompletionDelivers(trace: Trace, k: nat, at: nat, p: R.Packet)
    requires at < |trace| && Monotone(trace) && forall i :: 0 <= i < |trace| ==> R.Key(trace[i].frame) == k
    requires AloneOutcomes(None, trace)[at] == R.Completed(p)
    requires forall i :: 0 <= i < at ==> !AloneOutcomes(None, trace)[i].Completed?
    ensures DeliversAt(trace, at, p) && LastResult(trace[..at + 1]) == R.Result(true, Some(p))
  {
    hide R.Key, AloneOutcomes, Monotone, Run, LastResult, R.Signature;
    QuietSoFar(trace, k, at);
    MonotonePrefix(trace, at + 1);
    OutcomesOfFront(trace, at + 1);
    OutcomeIsAlone(trace[..at + 1], k);
    assert trace[..at + 1][..at] == trace[..at];
    assert R.Expired(Run(trace[..at]), trace[at].now).recent == map[];
  }

  /** Preambles, then the header, then the blocks as the block writer types them. */
  ghost predicate BurstShape(first: Trace, head: Event, rest: Trace, r: Route, h: DataHeader, blocks: seq<seq<byte>>) {
    && (forall i :: 0 <= i < |first| ==> first[i].frame.dataType == CSBK)
    && head.frame.dataType == DATA_HEADER && head.frame.payload.header == Some(h)
    && |rest| == |blocks|
    && (forall i :: 0 <= i < |rest| ==>
          && rest[i].frame.dataType == BlockType(i) && rest[i].frame.payload == BlockBurst(blocks[i])
          && rest[i].frame.src == r.src && rest[i].frame.dst == r.dst && rest[i].frame.slot == r.slot)
  }

  /** Up to the 255th block, what follows the header is blocks in order. */
  lemma BlocksInOrder(first: Trace, head: Event, rest: Trace, r: Route, h: DataHeader, blocks: seq<seq<byte>>, n: nat)
    requires BurstShape(first, head, rest, r, h, blocks) && n <= |rest| && n <= 255
    ensures InOrder(rest[..n], blocks[..n])
    ensures forall i :: 0 <= i < n ==> rest[..n][i].frame.src == r.src && rest[..n][i].frame.dst == r.dst && rest[..n][i].frame.slot == r.slot
  {
  }

  lemma EncodedShape(r: Route, sequenceNo: byte, packet: seq<byte>, asm: Assembler, preambleCount: byte, times: seq<R.Time>)
    returns (first: Trace, head: Event, rest: Trace)
    requires r.src != 0 && r.dst != 0 && packet != []
    requires |times| == |Encoded(r, sequenceNo, packet, asm, preambleCount)|
    ensures Timed(Encoded(r, sequenceNo, packet, asm, preambleCount), times) == first + ([head] + rest)
    ensures BurstShape(first, head, rest, r, HeaderFor(|packet|, sequenceNo, asm.counts), Chunks(UserData(packet, asm.crc)))
    ensures |rest| == BlockCount(|packet|)
  {
    hide Encoded, Chunks, UserData, PreambleCount, BurstFrames, BurstShape;
    var frames := Encoded(r, sequenceNo, packet, asm, preambleCount);
    var blocks := Chunks(UserData(packet, asm.crc));
    EncodedKinds(r, sequenceNo, packet, asm, preambleCount);
    first, head, rest := CutBurst(frames, times, PreambleCount(preambleCount, 1 + |blocks|), r, HeaderFor(|packet|, sequenceNo, asm.counts), blocks);
  }

  lemma CutBurst(frames: seq<Frame<Burst>>, times: seq<R.Time>, p: nat, r: Route, h: DataHeader, blocks: seq<seq<byte>>)
    returns (first: Trace, head: Event, rest: Trace)
    requires |times| == |frames| && BurstFrames(frames, p, r, h, blocks)
    ensures Timed(frames, times) == first + ([head] + rest)
    ensures BurstShape(first, head, rest, r, h, blocks)
    ensures |rest| == |blocks|
  {
    var trace := Timed(frames, times);
    first, head, rest := trace[..p], trace[p], trace[p + 1..];
    hide BlockType, BlockBurst;
    assert trace == first + ([head] + rest);
    assert forall i :: 0 <= i < |first| ==> first[i].frame == frames[i];
    forall i | 0 <= i < |rest| ensures rest[i].frame == frames[p + 1 + i] && frames[p + 1 + i].dataType == BlockType(i) {
      assert p + 1 + i - p - 1 == i;
    }
  }

  /**
   * A burst run alone whose header announces `h.blocksToFollow` of its blocks, 64 at most: the last of
   * those completes the session with exactly them, no other frame completes anything.
   */
  lemma BurstAlone(first: Trace, head: Event, rest: Trace, r: Route, h: DataHeader, blocks: seq<seq<byte>>)
    requires BurstShape(first, head, rest, r, h, blocks) && h.blocksToFollow <= |blocks|
    requires R.AcceptsHeader(h) && h.dpf == UnconfirmedData && Prompt(head.now, rest[..h.blocksToFollow])
    ensures var trace := first + ([head] + rest);
            var at := |first| + h.blocksToFollow;
            && at < |trace|
            && AloneOutcomes(None, trace)[at] ==
               R.Completed(R.Packet(r.src, r.dst, r.slot % 0x100, h.ns, false,
                                    R.TrimmedBytes(Flatten(blocks[..h.blocksToFollow]), false, h.padLength)))
            && forall i :: 0 <= i < |trace| && i != at ==> !AloneOutcomes(None, trace)[i].Completed?
  {
    hide R.StepSession, R.TrimmedBytes, Flatten, Prompt, R.NewSession, InOrder, Alone, AloneOutcomes;
    var n := h.blocksToFollow;
    var own, later := rest[..n], rest[n..];
    HasBlocks(h);
    BlocksInOrder(first, head, rest, r, h, blocks, n);
    PreamblesAreIgnored(first);
    assert [head] + rest == ([head] + own) + later;
    AloneSplit(None, first, [head] + rest);
    AloneSplit(None, [head] + own, later);
    AloneSplit(None, [head], own);
    HeaderReplaces(None, head, h);
    UnconfirmedOutcomes(h, head.now, own, blocks[..n]);
    PlainIsUnconfirmed(h, head.now);
    UnconfirmedCompletes(h, head.now, own, blocks[..n]);
    NoHeaderNoSession(later);
  }

  lemma HasBlocks(h: DataHeader)
    requires R.AcceptsHeader(h)
    ensures 0 < h.blocksToFollow <= R.MAX_BLOCKS
  {
  }

  lemma {:induction false} UnconfirmedOutcomes(h: DataHeader, start: R.Time, evs: Trace, data: seq<seq<byte>>)
    requires R.AcceptsHeader(h) && h.dpf == UnconfirmedData && |data| == h.blocksToFollow
    requires Prompt(start, evs) && InOrder(evs, data)
    ensures var s := Some(R.NewSession(h, start));
            && (forall i :: 0 <= i < |evs| && i < |data| - 1 ==> !AloneOutcomes(s, evs)[i].Completed?)
            && (|evs| == |data| ==>
                  var f := evs[|evs| - 1].frame;
                  AloneOutcomes(s, evs)[|evs| - 1] ==
                  R.Completed(R.Packet(f.src, f.dst, f.slot % 0x100, h.ns, false, R.TrimmedBytes(Flatten(data), false, h.padLength))))
    decreases |evs|
  {
    hide R.StepSession, R.TrimmedBytes, Flatten;
    if evs != [] {
      var before, e := evs[..|evs| - 1], evs[|evs| - 1];
      UnconfirmedOutcomes(h, start, before, data);
      if |evs| == |data| {
        UnconfirmedCompletes(h, start, evs, data);
      } else {
        UnconfirmedProgress(h, start, before, data);
        UnconfirmedStep(Alone(Some(R.NewSession(h, start)), before).value, e, data);
      }
    }
  }

  lemma FirstChunk(d: seq<byte>)
    requires |d| >= BLOCK_BYTES
    ensures Chunks(d) == [d[..BLOCK_BYTES]] + Chunks(d[BLOCK_BYTES..])
  {
  }

  lemma FlattenFirst<T>(s: seq<T>, ss: seq<seq<T>>)
    ensures Flatten([s] + ss) == s + Flatten(ss)
  {
  }

  lemma FlattenNothing<T>()
    ensures Flatten<T>([]) == []
  {
  }

  lemma {:induction false} FlattenFront(d: seq<byte>, c: nat)
    requires BLOCK_BYTES * c <= |d|
    ensures c <= |Chunks(d)| && Flatten(Chunks(d)[..c]) == d[..BLOCK_BYTES * c]
    decreases c
  {
    hide Chunks, Flatten;
    if c == 0 {
      FlattenNothing<byte>();
      assert Chunks(d)[..0] == [];
    } else {
      var first, rest := d[..BLOCK_BYTES], d[BLOCK_BYTES..];
      FlattenFront(rest, c - 1);
      FirstChunk(d);
      assert Chunks(d)[..c] == [first] + Chunks(rest)[..c - 1];
      FlattenFirst(first, Chunks(rest)[..c - 1]);
      assert d[..BLOCK_BYTES * c] == d[..BLOCK_BYTES] + d[BLOCK_BYTES..][..BLOCK_BYTES * (c - 1)];
    }
  }

  /** An IPv4 packet whose header states its length, as buildIpv4UdpPacket writes it. */
  predicate StatesLength(packet: seq<byte>) {
    |packet| >= 20 && packet[0] == 0x45 && ReadU16(packet, 2) == |packet|
  }

  /** What a receiver that was announced `c` blocks makes of a packet: all of it, or its first blocks. */
  function ReceivedBytes(packet: seq<byte>, c: nat): seq<byte> {
    if c >= BlockCount(|packet|) then packet
    else if BLOCK_BYTES * c > |packet| then packet
    else if c != 1 then packet[..BLOCK_BYTES * c]
    else if PadLength(|packet|) + 4 <= BLOCK_BYTES then packet[..BLOCK_BYTES - 4 - PadLength(|packet|)]
    else packet[..BLOCK_BYTES]
  }

  /** Announcing fewer blocks than there are leaves out at least two. */
  lemma CutIsShort(packetLength: nat, counts: positive)
    requires 0 < Announced(packetLength, counts) < BlockCount(packetLength)
    ensures BLOCK_BYTES * Announced(packetLength, counts) < packetLength
  {
    AnnouncedAtMost(packetLength, counts);
    ModCut(BlockCount(packetLength), counts);
  }

  lemma ModCut(n: nat, m: positive)
    requires n >= m
    ensures n % m <= n - m
  {
    var q := n / m;
    assert n == q * m + n % m && q >= 1;
    assert q * m >= m;
  }

  lemma TrimmedFront(packet: seq<byte>, crc: Crc, counts: positive)
    requires StatesLength(packet) && Announced(|packet|, counts) > 0
    ensures var c := Announced(|packet|, counts);
            && BLOCK_BYTES * c <= |UserData(packet, crc)|
            && R.TrimmedBytes(UserData(packet, crc)[..BLOCK_BYTES * c], false, PadLength(|packet|)) == ReceivedBytes(packet, c)
  {
    var n, c, d := BlockCount(|packet|), Announced(|packet|, counts), UserData(packet, crc);
    AnnouncedAtMost(|packet|, counts);
    hide Announced;
    if c == n {
      TrimmedWhole(packet, crc);
      assert d[..BLOCK_BYTES * c] == d;
    } else {
      CutIsShort(|packet|, counts);
      TrimmedPart(packet, crc, c);
    }
  }

  lemma AnnouncedAtMost(packetLength: nat, counts: positive)
    ensures Announced(packetLength, counts) <= BlockCount(packetLength)
    ensures BlockCount(packetLength) < counts ==> Announced(packetLength, counts) == BlockCount(packetLength)
  {
  }

  /** Trimming by the IPv4 length gives back exactly the packet that was padded. */
  lemma TrimmedWhole(packet: seq<byte>, crc: Crc)
    requires StatesLength(packet)
    ensures R.TrimmedBytes(UserData(packet, crc), false, PadLength(|packet|)) == packet
  {
    var d := UserData(packet, crc);
    assert d[..|packet|] == packet;
    assert d[0] == packet[0] && d[2] == packet[2] && d[3] == packet[3];
  }

  lemma TrimmedPart(packet: seq<byte>, crc: Crc, c: nat)
    requires StatesLength(packet) && 0 < c && BLOCK_BYTES * c < |packet| && c < BlockCount(|packet|)
    ensures R.TrimmedBytes(UserData(packet, crc)[..BLOCK_BYTES * c], false, PadLength(|packet|)) == ReceivedBytes(packet, c)
  {
    var b := UserData(packet, crc)[..BLOCK_BYTES * c];
    assert b == packet[..BLOCK_BYTES * c];
    if c >= 2 {
      assert b[0] == packet[0] && b[2] == packet[2] && b[3] == packet[3];
    }
  }

  /**
   * What becomes of an IPv4 packet, whatever its length and the width of the header's count: with 1 to 64
   * blocks announced, the last of them delivers what was announced, and no other frame delivers anything;
   * with none or more announced, no frame does.
   */
  lemma PacketOutcome(r: Route, sequenceNo: byte, packet: seq<byte>, asm: Assembler, preambleCount: byte, times: seq<R.Time>)
    requires r.src != 0 && r.dst != 0 && StatesLength(packet)
    requires |times| == |Encoded(r, sequenceNo, packet, asm, preambleCount)| && Steady(times)
    ensures var trace := Timed(Encoded(r, sequenceNo, packet, asm, preambleCount), times);
            var c := Announced(|packet|, asm.counts);
            var at := |trace| - 1 - BlockCount(|packet|) + c;
            && 0 <= at < |trace|
            && (forall i :: 0 <= i < |trace| && (i == at ==> !(1 <= c <= R.MAX_BLOCKS)) ==> SilentAt(trace, i))
            && (1 <= c <= R.MAX_BLOCKS ==>
                  var p := R.Packet(r.src, r.dst, r.slot % 0x100, sequenceNo % 8, false, ReceivedBytes(packet, c));
                  DeliversAt(trace, at, p) && LastResult(trace[..at + 1]) == R.Result(true, Some(p)))
  {
    hide R.TrimmedBytes, UserData, Encoded, AloneOutcomes, LastResult, Run, Chunks, Prompt, BurstShape, Monotone, SilentAt, DeliversAt, ReceivedBytes, Announced, R.Key;
    var trace := Timed(Encoded(r, sequenceNo, packet, asm, preambleCount), times);
    var first, head, rest := EncodedShape(r, sequenceNo, packet, asm, preambleCount, times);
    var h, blocks, c := HeaderFor(|packet|, sequenceNo, asm.counts), Chunks(UserData(packet, asm.crc)), Announced(|packet|, asm.counts);
    var k := R.SessionKey(r.src, r.dst, r.slot);
    AnnouncedAtMost(|packet|, asm.counts);
    SteadyTimes(trace, times);
    OneKey(r, sequenceNo, packet, asm, preambleCount, times);
    if 1 <= c <= R.MAX_BLOCKS {
      PromptBlocks(first, head, rest, c);
      FlattenFront(UserData(packet, asm.crc), c);
      TrimmedFront(packet, asm.crc, asm.counts);
      BurstAlone(first, head, rest, r, h, blocks);
      FirstCompletionDelivers(trace, k, |first| + c,
                              R.Packet(r.src, r.dst, r.slot % 0x100, sequenceNo % 8, false, ReceivedBytes(packet, c)));
    } else {
      RefusedBurst(first, head, rest, r, h, blocks);
    }
    forall i | 0 <= i < |trace| && (i == |first| + c ==> !(1 <= c <= R.MAX_BLOCKS)) ensures SilentAt(trace, i) {
      SilentPush(trace, k, i);
    }
  }

  lemma SteadyTimes(trace: Trace, times: seq<R.Time>)
    requires |trace| == |times| && Steady(times) && forall i :: 0 <= i < |trace| ==> trace[i].now == times[i]
    ensures SteadyTrace(trace) && Monotone(trace)
  {
    SteadyTraceIsMonotone(trace);
  }

  lemma OneKey(r: Route, sequenceNo: byte, packet: seq<byte>, asm: Assembler, preambleCount: byte, times: seq<R.Time>)
    requires |times| == |Encoded(r, sequenceNo, packet, asm, preambleCount)|
    ensures var trace := Timed(Encoded(r, sequenceNo, packet, asm, preambleCount), times);
            forall i :: 0 <= i < |trace| ==> R.Key(trace[i].frame) == R.SessionKey(r.src, r.dst, r.slot)
  {
    hide Encoded, R.SessionKey;
    FramesAreNumbered(r, sequenceNo, packet, asm, preambleCount);
  }

  lemma PromptBlocks(first: Trace, head: Event, rest: Trace, c: nat)
    requires SteadyTrace(first + ([head] + rest)) && c <= |rest|
    ensures Prompt(head.now, rest[..c])
  {
    var trace := first + ([head] + rest);
    assert [head] + rest[..c] == trace[|first|..|first| + 1 + c];
    SteadyIsPrompt(head, rest[..c]);
  }

  /** An IPv4 packet that fits 64 blocks is delivered once, byte for byte, on its last frame. */
  lemma PacketSurvives(r: Route, sequenceNo: byte, packet: seq<byte>, asm: Assembler, preambleCount: byte, times: seq<R.Time>)
    requires r.src != 0 && r.dst != 0 && BlockCount(|packet|) <= R.MAX_BLOCKS < asm.counts && StatesLength(packet)
    requires |times| == |Encoded(r, sequenceNo, packet, asm, preambleCount)| && Steady(times)
    ensures var trace := Timed(Encoded(r, sequenceNo, packet, asm, preambleCount), times);
            && trace != []
            && LastResult(trace) == R.Result(true, Some(R.Packet(r.src, r.dst, r.slot % 0x100, sequenceNo % 8, false, packet)))
            && forall i :: 0 <= i < |trace| - 1 ==> SilentAt(trace, i)
  {
    hide Encoded, LastResult, SilentAt, DeliversAt, Announced;
    PacketOutcome(r, sequenceNo, packet, asm, preambleCount, times);
    AnnouncedAtMost(|packet|, asm.counts);
    var trace := Timed(Encoded(r, sequenceNo, packet, asm, preambleCount), times);
    assert trace[..|trace|] == trace;
  }

  /**
   * A packet of more than 64 blocks never arrives whole. Unless its count, wrapped to the header's field,
   * reads 1 to 64, none of its frames delivers anything; if it does, one frame delivers the packet cut
   * after that many blocks, which the handler refuses.
   */
  lemma OverlongPacketIsLost(r: Route, sequenceNo: byte, packet: seq<byte>, asm: Assembler, preambleCount: byte, times: seq<R.Time>)
    requires r.src != 0 && r.dst != 0 && BlockCount(|packet|) > R.MAX_BLOCKS && StatesLength(packet)
    requires |times| == |Encoded(r, sequenceNo, packet, asm, preambleCount)| && Steady(times)
    ensures var trace := Timed(Encoded(r, sequenceNo, packet, asm, preambleCount), times);
            && ((forall i :: 0 <= i < |trace| ==> SilentAt(trace, i)) <==> !(1 <= Announced(|packet|, asm.counts) <= R.MAX_BLOCKS))
            && forall i, p :: DeliversAt(trace, i, p) ==> p.bytes != packet && p.bytes <= packet && Handle(p.bytes) == NotTms
  {
    hide Encoded, LastResult, Announced, Handle, ReceivedBytes;
    PacketOutcome(r, sequenceNo, packet, asm, preambleCount, times);
    AnnouncedAtMost(|packet|, asm.counts);
    var trace := Timed(Encoded(r, sequenceNo, packet, asm, preambleCount), times);
    var c := Announced(|packet|, asm.counts);
    if 1 <= c <= R.MAX_BLOCKS {
      CutIsShort(|packet|, asm.counts);
      CutIsRefused(packet, c);
      var at := |trace| - 1 - BlockCount(|packet|) + c;
      assert !SilentAt(trace, at);
      forall i, p | DeliversAt(trace, i, p)
        ensures p.bytes == ReceivedBytes(packet, c)
      {
        assert !SilentAt(trace, i);
        assert i == at;
      }
    } else {
      forall i, p | DeliversAt(trace, i, p)
        ensures !SilentAt(trace, i)
      {
      }
    }
  }

  lemma CutIsRefused(packet: seq<byte>, c: nat)
    requires StatesLength(packet) && 0 < c < BlockCount(|packet|) && BLOCK_BYTES * c < |packet|
    ensures ReceivedBytes(packet, c) != packet && ReceivedBytes(packet, c) <= packet && Handle(ReceivedBytes(packet, c)) == NotTms
  {
    hide HandleDatagram;
    var b := ReceivedBytes(packet, c);
    assert |b| < |packet| && b == packet[..|b|];
    if |b| >= 28 { assert b[0] == packet[0] && b[2] == packet[2] && b[3] == packet[3]; }
  }

  /** Without an acceptable header no session opens, and every frame is ignored. */
  lemma {:induction false} NoHeaderNoSession(evs: Trace)
    requires forall i :: 0 <= i < |evs| && evs[i].frame.dataType == DATA_HEADER && evs[i].frame.payload.header.Some? ==>
               !R.AcceptsHeader(evs[i].frame.payload.header.value)
    ensures Alone(None, evs) == None && forall i :: 0 <= i < |evs| ==> AloneOutcomes(None, evs)[i] == R.Ignored
  {
    hide R.AcceptsHeader, R.StepBlock;
    if evs != [] {
      NoHeaderNoSession(evs[..|evs| - 1]);
    }
  }

  /** A header that announces no block, or more than 64, opens nothing. */
  lemma RefusedBurst(first: Trace, head: Event, rest: Trace, r: Route, h: DataHeader, blocks: seq<seq<byte>>)
    requires BurstShape(first, head, rest, r, h, blocks) && !R.AcceptsHeader(h)
    ensures var trace := first + ([head] + rest);
            forall i :: 0 <= i < |trace| ==> !AloneOutcomes(None, trace)[i].Completed?
  {
    hide R.AcceptsHeader, AloneOutcomes;
    NoHeaderNoSession(first + ([head] + rest));
  }

  lemma PacketHead(source: Address, target: Address, sourcePort: uint16, targetPort: uint16, payload: seq<byte>)
    requires |payload| <= 0xFFFF - 28
    ensures var p := Packet(source, target, sourcePort, targetPort, payload);
            p[0] == 0x45 && ReadU16(p, 2) == |p|
  {
  }

  /**
   * End to end: a printable, non-blank text whose packet fits 64 blocks (764 bytes) is queued
   * trimmed, with both ports and the message id modulo 32, exactly when the last frame arrives.
   */
  lemma TextSurvives(
    r: Route, source: Address, target: Address, sourcePort: uint16, targetPort: uint16,
    text: Text, messageId: byte, sequenceNo: byte, asm: Assembler, preambleCount: byte, times: seq<R.Time>)
    requires r.src != 0 && r.dst != 0 && R.MAX_BLOCKS < asm.counts
    requires 38 + 2 * |text| <= 764 && AllPrintable(text) && !AllBlank(text)
    requires var packet := Packet(source, target, sourcePort, targetPort, TmsPayload(text, messageId));
             |times| == |Encoded(r, sequenceNo, packet, asm, preambleCount)| && Steady(times)
    ensures var packet := Packet(source, target, sourcePort, targetPort, TmsPayload(text, messageId));
            var trace := Timed(Encoded(r, sequenceNo, packet, asm, preambleCount), times);
            && trace != []
            && (forall i :: 0 <= i < |trace| - 1 ==> SilentAt(trace, i))
            && LastResult(trace).packet.Some?
            && LastResult(trace).packet.value.sourceRid == r.src && LastResult(trace).packet.value.targetRid == r.dst
            && Handle(LastResult(trace).packet.value.bytes) ==
               Message(Trim(text), Some(ParsedTms(0xE0, messageId % 0x20, 0, Trim(text), [])), sourcePort, targetPort)
  {
    hide Packet, TmsPayload, Encoded, LastResult, Handle, Timed;
    var payload := TmsPayload(text, messageId);
    PayloadWords(text, messageId);
    var packet := Packet(source, target, sourcePort, targetPort, payload);
    PacketHead(source, target, sourcePort, targetPort, payload);
    PacketSurvives(r, sequenceNo, packet, asm, preambleCount, times);
    MessageRoundTrip(source, target, sourcePort, targetPort, text, messageId);
  }
}
