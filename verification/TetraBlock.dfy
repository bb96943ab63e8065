/**
 * The TETRA voice block of deploy/scripts/tetrapack_brew_audio.py: two 137-bit codec frames,
 * each in 18 bytes, packed back to back into 35 bytes behind one header byte.
 */
module TetraBlock {
  import opened Common
  import opened Bits

  const FRAME_BITS := 137
  const BLOCK_BITS := 274
  const FRAME_BYTES := 18
  const PACKED_BYTES := 35
  const STE_BYTES := 36

  type CodecFrame = f: seq<byte> | |f| == FRAME_BYTES witness seq(18, _ => 0)

  /** The bits of a codec frame that mean something; its last seven are padding. */
  function FrameBits(frame: CodecFrame): (b: seq<bit>)
    ensures |b| == FRAME_BITS
  {
    Unpack(frame)[..FRAME_BITS]
  }

  /** The packed bytes of a block, with or without its header byte. */
  function PackedPart(data: seq<byte>): Option<seq<byte>> {
    if |data| == STE_BYTES then Some(data[1..]) else if |data| == PACKED_BYTES then Some(data) else None
  }

  /** The bits of a block that mean something, both frames; six bits of padding follow them. */
  function BlockBits(packed: seq<byte>): (b: seq<bit>)
    requires |packed| == PACKED_BYTES
    ensures |b| == BLOCK_BITS
  {
    Unpack(packed)[..BLOCK_BITS]
  }

  /** split_tmd_block; nothing for a block of another length. */
  function Split(data: seq<byte>): Option<(CodecFrame, CodecFrame)> {
    match PackedPart(data)
    case None => None
    case Some(packed) => Some((Pack(BlockBits(packed)[..FRAME_BITS]), Pack(BlockBits(packed)[FRAME_BITS..])))
  }

  /** join_tmd_block; nothing for frames of another length. */
  function Join(a: seq<byte>, b: seq<byte>): Option<seq<byte>> {
    if |a| != FRAME_BYTES || |b| != FRAME_BYTES then None else Some([0] + Pack(FrameBits(a) + FrameBits(b)))
  }

  // ------------------------------------------------------------------ the in-place loops

  /** The first `i` bits of `b`, the rest of `total` still clear. */
  function Filled(b: seq<bit>, i: nat, total: nat): (f: seq<bit>)
    requires i <= |b| <= total
    ensures |f| == total
  {
    b[..i] + Zeros(total - i)
  }

  lemma FilledNext(b: seq<bit>, i: nat, total: nat)
    requires i < |b| <= total
    ensures Filled(b, i + 1, total) == if b[i] == 1 then Filled(b, i, total)[i := 1] else Filled(b, i, total)
  {
  }

  /** A byte string whose bits are `b` and then zeros is `b` packed. */
  lemma FilledIsPacked(d: seq<byte>, b: seq<bit>)
    requires |b| <= 8 * |d| == 8 * ((|b| + 7) / 8) && Unpack(d) == Filled(b, |b|, 8 * |d|)
    ensures d == Pack(b)
  {
    hide Unpack, Pack;
    UnpackOfPack(b);
    assert b[..|b|] == b;
    UnpackInjective(d, Pack(b));
  }

  /** A fresh bytearray. */
  method Cleared(n: nat) returns (a: array<byte>)
    ensures fresh(a) && a.Length == n && Unpack(a[..]) == Zeros(8 * n)
  {
    a := new byte[n](_ => 0);
    AllClear(a[..]);
  }

  lemma AllClear(d: seq<byte>)
    requires forall i :: 0 <= i < |d| ==> d[i] == 0
    ensures Unpack(d) == Zeros(8 * |d|)
  {
  }

  /** Copies bit `from` of `source` to bit `to` of `target`, where bits up to `to` of `b` have arrived. */
  method CopyBit(source: seq<byte>, from: nat, target: array<byte>, to: nat, ghost b: seq<bit>)
    requires from < 8 * |source| && to < |b| <= 8 * target.Length
    requires GetBit(source, from) == b[to]
    requires Unpack(target[..]) == Filled(b, to, 8 * target.Length)
    modifies target
    ensures Unpack(target[..]) == Filled(b, to + 1, 8 * target.Length)
  {
    FilledNext(b, to, 8 * target.Length);
    SetPackedBit(target, to, GetBit(source, from));
  }

  /** Bit `i` of a block is bit `i % 137` of its first or of its second frame. */
  lemma BitOfBlock(packed: seq<byte>, i: nat)
    requires |packed| == PACKED_BYTES && i < BLOCK_BITS
    ensures var b := BlockBits(packed);
            GetBit(packed, i) == if i < FRAME_BITS then b[..FRAME_BITS][i % FRAME_BITS] else b[FRAME_BITS..][i % FRAME_BITS]
    ensures i % FRAME_BITS == if i < FRAME_BITS then i else i - FRAME_BITS
  {
    hide GetBit;
  }

  lemma BitOfFrames(a: CodecFrame, b: CodecFrame, i: nat)
    requires i < BLOCK_BITS
    ensures GetBit(if i < FRAME_BITS then a else b, i % FRAME_BITS) == (FrameBits(a) + FrameBits(b))[i]
  {
    hide GetBit;
  }

  method SplitTmdBlock(data: seq<byte>) returns (frames: Option<(CodecFrame, CodecFrame)>)
    ensures frames == Split(data)
  {
    hide Unpack, Pack, GetBit, Filled;
    var packed: seq<byte>;
    if |data| == STE_BYTES {
      packed := data[1..];
    } else if |data| == PACKED_BYTES {
      packed := data;
    } else {
      return None;
    }
    ghost var b := BlockBits(packed);
    var frameA := Cleared(FRAME_BYTES);
    var frameB := Cleared(FRAME_BYTES);
    NothingFilled(b[..FRAME_BITS], 8 * FRAME_BYTES);
    NothingFilled(b[FRAME_BITS..], 8 * FRAME_BYTES);
    var bitIndex := 0;
    while bitIndex < BLOCK_BITS
      invariant 0 <= bitIndex <= BLOCK_BITS
      invariant Unpack(frameA[..]) == Filled(b[..FRAME_BITS], if bitIndex < FRAME_BITS then bitIndex else FRAME_BITS, 8 * FRAME_BYTES)
      invariant Unpack(frameB[..]) == Filled(b[FRAME_BITS..], if bitIndex < FRAME_BITS then 0 else bitIndex - FRAME_BITS, 8 * FRAME_BYTES)
    {
      var frameIndex, frameBit := bitIndex / FRAME_BITS, bitIndex % FRAME_BITS;
      BitOfBlock(packed, bitIndex);
      if frameIndex == 0 {
        CopyBit(packed, bitIndex, frameA, frameBit, b[..FRAME_BITS]);
      } else {
        CopyBit(packed, bitIndex, frameB, frameBit, b[FRAME_BITS..]);
      }
      bitIndex := bitIndex + 1;
    }
    FilledIsPacked(frameA[..], b[..FRAME_BITS]);
    FilledIsPacked(frameB[..], b[FRAME_BITS..]);
    return Some((frameA[..], frameB[..]));
  }

  lemma NothingFilled(b: seq<bit>, total: nat)
    requires |b| <= total
    ensures Filled(b, 0, total) == Zeros(total)
  {
  }

  method JoinTmdBlock(a: seq<byte>, b: seq<byte>) returns (data: Option<seq<byte>>)
    ensures data == Join(a, b)
  {
    hide Unpack, Pack, GetBit, Filled;
    if |a| != FRAME_BYTES || |b| != FRAME_BYTES { return None; }
    ghost var bits := FrameBits(a) + FrameBits(b);
    var packed := Cleared(PACKED_BYTES);
    NothingFilled(bits, 8 * PACKED_BYTES);
    var bitIndex := 0;
    while bitIndex < BLOCK_BITS
      invariant 0 <= bitIndex <= BLOCK_BITS
      invariant Unpack(packed[..]) == Filled(bits, bitIndex, 8 * PACKED_BYTES)
    {
      var frame := if bitIndex < FRAME_BITS then a else b;
      BitOfFrames(a, b, bitIndex);
      CopyBit(frame, bitIndex % FRAME_BITS, packed, bitIndex, bits);
      bitIndex := bitIndex + 1;
    }
    FilledIsPacked(packed[..], bits);
    return Some([0] + packed[..]);
  }

  // ------------------------------------------------------------------ a bijection on significant bits

  /** A frame with its padding cleared. */
  function Clean(frame: CodecFrame): CodecFrame { Pack(FrameBits(frame)) }

  /** Clearing the padding keeps every significant bit, and changes a frame unless its padding was clear. */
  lemma CleanKeepsBits(frame: CodecFrame)
    ensures FrameBits(Clean(frame)) == FrameBits(frame)
    ensures Unpack(Clean(frame))[FRAME_BITS..] == Zeros(7)
    ensures Clean(frame) == frame <==> Unpack(frame)[FRAME_BITS..] == Zeros(7)
  {
    hide Unpack, Pack;
    UnpackOfPack(FrameBits(frame));
    assert Padded(FrameBits(frame)) == FrameBits(frame) + Zeros(7);
    if Unpack(frame)[FRAME_BITS..] == Zeros(7) {
      assert Unpack(frame) == FrameBits(frame) + Zeros(7);
      UnpackInjective(frame, Clean(frame));
    }
  }

  /** Splitting a joined block gives back both frames with their padding cleared. */
  lemma SplitOfJoin(a: CodecFrame, b: CodecFrame)
    ensures Join(a, b).Some? && Split(Join(a, b).value) == Some((Clean(a), Clean(b)))
  {
    hide Unpack, Pack;
    var bits := FrameBits(a) + FrameBits(b);
    UnpackOfPack(bits);
    var data := Join(a, b).value;
    assert data[1..] == Pack(bits);
    assert Padded(bits)[..BLOCK_BITS] == bits;
    assert bits[..FRAME_BITS] == FrameBits(a) && bits[FRAME_BITS..] == FrameBits(b);
  }

  /** Joining a split block keeps all 274 significant bits, and clears the header byte and the padding. */
  lemma JoinOfSplit(data: seq<byte>)
    requires PackedPart(data).Some?
    ensures var frames := Split(data).value;
            var joined := Join(frames.0, frames.1);
            && joined.Some? && |joined.value| == STE_BYTES && joined.value[0] == 0
            && Unpack(joined.value[1..]) == BlockBits(PackedPart(data).value) + Zeros(6)
            && (joined.value == data <==> |data| == STE_BYTES && data[0] == 0 && Unpack(data[1..])[BLOCK_BITS..] == Zeros(6))
  {
    hide Unpack, Pack;
    var packed := PackedPart(data).value;
    var b := BlockBits(packed);
    var (fa, fb) := Split(data).value;
    HalfSurvives(b[..FRAME_BITS]);
    HalfSurvives(b[FRAME_BITS..]);
    assert FrameBits(fa) + FrameBits(fb) == b;
    UnpackOfPack(b);
    assert Padded(b) == b + Zeros(6);
    var joined := Join(fa, fb).value;
    assert joined[1..] == Pack(b);
    if |data| == STE_BYTES && data[0] == 0 && Unpack(data[1..])[BLOCK_BITS..] == Zeros(6) {
      assert Unpack(packed) == b + Zeros(6);
      UnpackInjective(packed, Pack(b));
      assert data == [0] + packed;
    }
  }

  /** Where every bit of a joined block is from: behind a zero byte, the first frame's 137 bits, then the second's, then zeros. */
  lemma JoinLayout(a: CodecFrame, b: CodecFrame, k: nat)
    requires k < 8 * PACKED_BYTES
    ensures var data := Join(a, b);
            && data.Some? && |data.value| == 36 && data.value[0] == 0
            && Unpack(data.value[1..])[k] == if k < 137 then Unpack(a)[k] else if k < 274 then Unpack(b)[k - 137] else 0
  {
    hide Unpack, Pack;
    var bits := FrameBits(a) + FrameBits(b);
    UnpackOfPack(bits);
    assert Join(a, b).value[1..] == Pack(bits);
    assert Padded(bits)[k] == if k < 274 then bits[k] else 0;
  }

  lemma HalfSurvives(half: seq<bit>)
    requires |half| == FRAME_BITS
    ensures FrameBits(Pack(half)) == half
  {
    hide Unpack, Pack;
    UnpackOfPack(half);
    assert Padded(half)[..FRAME_BITS] == half;
  }

  /** Two pairs of frames join to the same block only if they agree on every significant bit. */
  lemma JoinInjective(a: CodecFrame, b: CodecFrame, c: CodecFrame, d: CodecFrame)
    ensures Join(a, b) == Join(c, d) <==> FrameBits(a) == FrameBits(c) && FrameBits(b) == FrameBits(d)
  {
    hide Unpack, Pack, Split, Join;
    SplitOfJoin(a, b);
    SplitOfJoin(c, d);
    CleanKeepsBits(a);
    CleanKeepsBits(b);
    CleanKeepsBits(c);
    CleanKeepsBits(d);
    if FrameBits(a) == FrameBits(c) && FrameBits(b) == FrameBits(d) { SameBitsJoinAlike(a, b, c, d); }
  }

  lemma SameBitsJoinAlike(a: CodecFrame, b: CodecFrame, c: CodecFrame, d: CodecFrame)
    requires FrameBits(a) == FrameBits(c) && FrameBits(b) == FrameBits(d)
    ensures Join(a, b) == Join(c, d)
  {
  }
}
