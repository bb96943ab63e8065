/**
 * src/BmPacketDataEncoder.cpp: an IP packet as a burst of preambles, one header and rate-1/2
 * blocks. The block layout is DVMHost's Assembler contract: packet, zero padding, four CRC bytes.
 */
module PacketEncoder {
  import opened Common
  import opened Dmr

  const BLOCK_BYTES := 12

  /** Blocks needed for a packet and its CRC. */
  function BlockCount(packetLength: nat): nat { (packetLength + 4 + BLOCK_BYTES - 1) / BLOCK_BYTES }

  function PadLength(packetLength: nat): (pad: nat)
    ensures packetLength + pad + 4 == BLOCK_BYTES * BlockCount(packetLength) && pad < BLOCK_BYTES
  {
    BLOCK_BYTES * BlockCount(packetLength) - 4 - packetLength
  }

  type Crc = c: seq<byte> | |c| == 4 witness [0, 0, 0, 0]

  function Chunks(d: seq<byte>): seq<seq<byte>> {
    if |d| < BLOCK_BYTES then [] else [d[..BLOCK_BYTES]] + Chunks(d[BLOCK_BYTES..])
  }

  lemma {:induction false} FlattenChunks(d: seq<byte>)
    requires |d| % BLOCK_BYTES == 0
    ensures Flatten(Chunks(d)) == d && |Chunks(d)| == |d| / BLOCK_BYTES
  {
    if |d| >= BLOCK_BYTES {
      FlattenChunks(d[BLOCK_BYTES..]);
      assert Chunks(d)[1..] == Chunks(d[BLOCK_BYTES..]);
    }
  }

  function UserData(packet: seq<byte>, crc: Crc): (d: seq<byte>)
    ensures |d| == BLOCK_BYTES * BlockCount(|packet|)
  {
    packet + seq(PadLength(|packet|), _ => 0) + crc
  }

  /**
   * What the assembler adds to a packet: its CRC, and a header whose block count is a field of
   * `counts` values, so that it carries the number of blocks modulo `counts`.
   */
  datatype Assembler = Assembler(crc: Crc, counts: positive)

  type positive = n: nat | n >= 1 witness 1

  /** The block count a header announces. */
  function Announced(packetLength: nat, counts: positive): nat { BlockCount(packetLength) % counts }

  function HeaderFor(packetLength: nat, sequenceNo: byte, counts: positive): DataHeader {
    DataHeader(UnconfirmedData, PacketData, false, Announced(packetLength, counts), PadLength(packetLength), sequenceNo % 8)
  }

  datatype Route = Route(src: uint32, dst: uint32, slot: nat)

  /** makeFrame */
  function MakeFrame(r: Route, seqNo: byte, dataType: DataType, payload: Burst): Frame<Burst> {
    Frame(r.src, r.dst, r.slot, true, 0, seqNo, dataType, 0, 0, payload)
  }

  function HeaderBurst(h: DataHeader): Burst { Burst(None, Some(h), None, None) }
  function BlockBurst(bytes: seq<byte>): Burst { Burst(None, None, Some(bytes), None) }

  /** makePreamble: `remaining` is cut to the one byte the control block has for it. */
  function MakePreamble(r: Route, seqNo: byte, remaining: nat): Frame<Burst> {
    MakeFrame(r, seqNo, CSBK, Burst(Some(Preamble(remaining % 0x100, r.dst % 0x100_0000, r.src % 0x100_0000)), None, None, None))
  }

  /** The block writer's type for block `i`: it counts frames in one byte, and takes number 0 for the header. */
  function BlockType(i: nat): DataType {
    if (i + 1) % 0x100 == 0 then DATA_HEADER else RATE_12_DATA
  }

  /** Header and blocks, as the assembler hands them to the block writer. */
  function AssembledFrames(r: Route, sequenceNo: byte, packet: seq<byte>, asm: Assembler): (frames: seq<Frame<Burst>>)
    ensures |frames| >= 1
  {
    var blocks := Chunks(UserData(packet, asm.crc));
    [MakeFrame(r, 0, DATA_HEADER, HeaderBurst(HeaderFor(|packet|, sequenceNo, asm.counts)))] +
    seq(|blocks|, i requires 0 <= i < |blocks| => MakeFrame(r, 0, BlockType(i), BlockBurst(blocks[i])))
  }

  /** The clamp on the preamble count. */
  function PreambleCount(requested: byte, dataFrames: nat): nat {
    var room := 256 - (if dataFrames < 255 then dataFrames else 255);
    if requested < room then requested else room
  }

  /** The one-byte sequence number of frame `i`. */
  function Numbered(i: nat): byte { i % 0x100 }

  lemma NextNumber(i: nat)
    ensures Numbered(i + 1) == (Numbered(i) + 1) % 0x100 && Numbered(0) == 0
  {
  }

  /** The `i`-th frame sent: preambles count down what follows, and every frame carries its position. */
  function SentFrame(r: Route, data: seq<Frame<Burst>>, preambles: nat, i: nat): Frame<Burst>
    requires i < preambles + |data|
  {
    if i < preambles then MakePreamble(r, Numbered(i), |data| + preambles - 1 - i)
    else data[i - preambles].(seqNo := Numbered(i))
  }

  /** encode as a whole. */
  function Encoded(r: Route, sequenceNo: byte, packet: seq<byte>, asm: Assembler, preambleCount: byte): seq<Frame<Burst>> {
    if r.src == 0 || r.dst == 0 || packet == [] then []
    else
      var data := AssembledFrames(r, sequenceNo, packet, asm);
      var preambles := PreambleCount(preambleCount, |data|);
      seq(preambles + |data|, i requires 0 <= i < preambles + |data| => SentFrame(r, data, preambles, i))
  }

  /** The frames pushed so far are the first frames of the burst. */
  ghost predicate SentSoFar(frames: seq<Frame<Burst>>, r: Route, data: seq<Frame<Burst>>, preambles: nat) {
    |frames| <= preambles + |data| && forall j :: 0 <= j < |frames| ==> frames[j] == SentFrame(r, data, preambles, j)
  }

  method Encode(r: Route, sequenceNo: byte, packet: seq<byte>, asm: Assembler, preambleCount: byte) returns (frames: seq<Frame<Burst>>)
    ensures frames == Encoded(r, sequenceNo, packet, asm, preambleCount)
  {
    hide AssembledFrames, PreambleCount, SentFrame, MakePreamble, Encoded, SentSoFar, Numbered;
    NextNumber(0);
    EncodedOrNot(r, sequenceNo, packet, asm, preambleCount);
    if r.src == 0 || r.dst == 0 || packet == [] { return []; }
    var dataFrames := AssembledFrames(r, sequenceNo, packet, asm);
    var preambles := PreambleCount(preambleCount, |dataFrames|);
    frames := [];
    NothingSent(r, dataFrames, preambles);
    var frameSequence: byte := 0;
    var i := 0;
    while i < preambles
      invariant 0 <= i <= preambles && |frames| == i && frameSequence == Numbered(i)
      invariant SentSoFar(frames, r, dataFrames, preambles)
    {
      var remaining := |dataFrames| + preambles - 1 - i;
      SentPreamble(frames, r, dataFrames, preambles, i);
      frames := frames + [MakePreamble(r, frameSequence, remaining)];
      NextNumber(i);
      frameSequence := (frameSequence + 1) % 0x100;
      i := i + 1;
    }
    i := 0;
    while i < |dataFrames|
      invariant 0 <= i <= |dataFrames| && |frames| == preambles + i && frameSequence == Numbered(preambles + i)
      invariant SentSoFar(frames, r, dataFrames, preambles)
    {
      SentData(frames, r, dataFrames, preambles, i);
      frames := frames + [dataFrames[i].(seqNo := frameSequence)];
      NextNumber(preambles + i);
      frameSequence := (frameSequence + 1) % 0x100;
      i := i + 1;
    }
    EncodedIs(r, sequenceNo, packet, asm, preambleCount, frames);
  }

  lemma EncodedOrNot(r: Route, sequenceNo: byte, packet: seq<byte>, asm: Assembler, preambleCount: byte)
    ensures r.src == 0 || r.dst == 0 || packet == [] ==> Encoded(r, sequenceNo, packet, asm, preambleCount) == []
  {
  }

  lemma EncodedIs(r: Route, sequenceNo: byte, packet: seq<byte>, asm: Assembler, preambleCount: byte, frames: seq<Frame<Burst>>)
    requires r.src != 0 && r.dst != 0 && packet != []
    requires var data := AssembledFrames(r, sequenceNo, packet, asm);
             var preambles := PreambleCount(preambleCount, |data|);
             |frames| == preambles + |data| && SentSoFar(frames, r, data, preambles)
    ensures frames == Encoded(r, sequenceNo, packet, asm, preambleCount)
  {
    hide AssembledFrames, SentFrame, PreambleCount;
  }

  lemma NothingSent(r: Route, data: seq<Frame<Burst>>, preambles: nat)
    ensures SentSoFar([], r, data, preambles)
  {
  }

  lemma SentPreamble(frames: seq<Frame<Burst>>, r: Route, data: seq<Frame<Burst>>, preambles: nat, i: nat)
    requires i < preambles && |frames| == i && SentSoFar(frames, r, data, preambles)
    ensures SentSoFar(frames + [MakePreamble(r, Numbered(i), |data| + preambles - 1 - i)], r, data, preambles)
  {
    hide MakePreamble;
  }

  lemma SentData(frames: seq<Frame<Burst>>, r: Route, data: seq<Frame<Burst>>, preambles: nat, i: nat)
    requires i < |data| && |frames| == preambles + i && SentSoFar(frames, r, data, preambles)
    ensures SentSoFar(frames + [data[i].(seqNo := Numbered(preambles + i))], r, data, preambles)
  {
    hide MakePreamble;
  }

  lemma EncodedLayout(r: Route, sequenceNo: byte, packet: seq<byte>, asm: Assembler, preambleCount: byte)
    requires r.src != 0 && r.dst != 0 && packet != []
    ensures var frames := Encoded(r, sequenceNo, packet, asm, preambleCount);
            var data := AssembledFrames(r, sequenceNo, packet, asm);
            var preambles := PreambleCount(preambleCount, |data|);
            && |data| == 1 + BlockCount(|packet|) && |frames| == preambles + |data|
            && forall i :: 0 <= i < |frames| ==> frames[i] == SentFrame(r, data, preambles, i)
  {
    FlattenChunks(UserData(packet, asm.crc));
  }

  /** `p` preambles first, then the header, then the blocks in order, all on one route. */
  ghost predicate BurstFrames(frames: seq<Frame<Burst>>, p: nat, r: Route, h: DataHeader, blocks: seq<seq<byte>>) {
    && |frames| == p + 1 + |blocks|
    && (forall i :: 0 <= i < p ==> frames[i].dataType == CSBK)
    && frames[p].dataType == DATA_HEADER && frames[p].payload.header == Some(h)
    && (forall i :: p < i < |frames| ==>
          && frames[i].dataType == BlockType(i - p - 1) && frames[i].payload == BlockBurst(blocks[i - p - 1])
          && frames[i].src == r.src && frames[i].dst == r.dst && frames[i].slot == r.slot)
  }

  lemma EncodedKinds(r: Route, sequenceNo: byte, packet: seq<byte>, asm: Assembler, preambleCount: byte)
    requires r.src != 0 && r.dst != 0 && packet != []
    ensures var blocks := Chunks(UserData(packet, asm.crc));
            && |blocks| == BlockCount(|packet|) && |packet| + 4 <= 12 * |blocks| < |packet| + 16
            && Flatten(blocks) == packet + seq(12 * |blocks| - |packet| - 4, _ => 0) + asm.crc
            && BurstFrames(Encoded(r, sequenceNo, packet, asm, preambleCount), PreambleCount(preambleCount, 1 + |blocks|),
                           r, DataHeader(UnconfirmedData, PacketData, false, |blocks| % asm.counts, 12 * |blocks| - |packet| - 4, sequenceNo % 8),
                           blocks)
  {
    hide Encoded, Chunks, PreambleCount;
    EncodedLayout(r, sequenceNo, packet, asm, preambleCount);
    FlattenChunks(UserData(packet, asm.crc));
  }

  /**
   * Every frame of a burst carries the same route and its own position as sequence number;
   * while header and blocks are at most 255 frames, no two frames share a sequence number.
   */
  lemma FramesAreNumbered(r: Route, sequenceNo: byte, packet: seq<byte>, asm: Assembler, preambleCount: byte)
    ensures var frames := Encoded(r, sequenceNo, packet, asm, preambleCount);
            && (forall i :: 0 <= i < |frames| ==> IsSentAt(frames[i], r, i))
            && (1 + BlockCount(|packet|) <= 255 ==> forall i, j :: 0 <= i < j < |frames| ==> frames[i].seqNo != frames[j].seqNo)
  {
    hide Chunks, UserData, Encoded, AssembledFrames, SentFrame, PreambleCount;
    if r.src != 0 && r.dst != 0 && packet != [] {
      EncodedLayout(r, sequenceNo, packet, asm, preambleCount);
      var frames, data := Encoded(r, sequenceNo, packet, asm, preambleCount), AssembledFrames(r, sequenceNo, packet, asm);
      var preambles := PreambleCount(preambleCount, |data|);
      forall i | 0 <= i < |frames| ensures IsSentAt(frames[i], r, i) {
        SentFrameIs(r, sequenceNo, packet, asm, preambles, i);
      }
      PreamblesFit(preambleCount, |data|);
    } else {
      EncodedOrNot(r, sequenceNo, packet, asm, preambleCount);
    }
  }

  /** Preambles only fill up what header and blocks leave of 256 frames. */
  lemma PreamblesFit(requested: byte, dataFrames: nat)
    ensures dataFrames <= 255 ==> PreambleCount(requested, dataFrames) + dataFrames <= 256
  {
  }

  /** On the burst's route, as a private call, and numbered by its position. */
  predicate IsSentAt(f: Frame<Burst>, r: Route, i: nat) {
    f.src == r.src && f.dst == r.dst && f.slot == r.slot && f.isPrivate && f.seqNo == i % 0x100
  }

  lemma SentFrameIs(r: Route, sequenceNo: byte, packet: seq<byte>, asm: Assembler, preambles: nat, i: nat)
    requires i < preambles + |AssembledFrames(r, sequenceNo, packet, asm)|
    ensures IsSentAt(SentFrame(r, AssembledFrames(r, sequenceNo, packet, asm), preambles, i), r, i)
  {
    hide Chunks, UserData;
  }

  /**
   * Every preamble announces exactly the frames behind it, if and only if header and blocks
   * are at most 255 frames (or no preamble is sent): beyond that the one preamble left wraps. There are
   * as many as asked for, as far as 256 frames leave room, and each names the target and the source.
   */
  lemma PreamblesCountDown(r: Route, sequenceNo: byte, packet: seq<byte>, asm: Assembler, preambleCount: byte)
    requires r.src != 0 && r.dst != 0 && packet != []
    ensures var frames := Encoded(r, sequenceNo, packet, asm, preambleCount);
            var preambles := |frames| - (1 + BlockCount(|packet|));
            var room := if BlockCount(|packet|) < 255 then 255 - BlockCount(|packet|) else 1;
            && preambles == (if preambleCount < room then preambleCount else room)
            && (forall i :: 0 <= i < preambles ==>
                  && frames[i].dataType == CSBK && frames[i].payload.preamble.Some?
                  && frames[i].payload.preamble.value.target == r.dst % 0x100_0000
                  && frames[i].payload.preamble.value.source == r.src % 0x100_0000)
            && ((forall i :: 0 <= i < preambles ==> frames[i].payload.preamble.value.blocksToFollow == |frames| - 1 - i)
                <==> 1 + BlockCount(|packet|) <= 255 || preambleCount == 0)
  {
    hide AssembledFrames, Encoded;
    EncodedLayout(r, sequenceNo, packet, asm, preambleCount);
    var frames := Encoded(r, sequenceNo, packet, asm, preambleCount);
    var dataFrames := 1 + BlockCount(|packet|);
    if dataFrames > 255 && preambleCount > 0 {
      assert frames[0].payload.preamble.value.blocksToFollow == dataFrames % 0x100;
    }
  }
}
