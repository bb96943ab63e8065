/**
 * Bit strings, most significant bit first, and their packing into bytes: the BitWriter of
 * deploy/scripts/tetrapack_brew_bridge.py and the packed-bit access of tetrapack_brew_audio.py.
 */
module Bits {
  import opened Common

  type bit = x: int | 0 <= x <= 1

  function Pow2(n: nat): (p: nat)
    ensures p >= 1
  {
    if n == 0 then 1 else 2 * Pow2(n - 1)
  }

  /** The lowest `width` bits of a value, in the order a shift from `width - 1` down to 0 yields them. */
  function BitsOf(value: nat, width: nat): (b: seq<bit>)
    ensures |b| == width
  {
    seq(width, i requires 0 <= i < width => value / Pow2(width - 1 - i) % 2)
  }

  /** The number a bit string denotes. */
  function Number(b: seq<bit>): nat {
    if b == [] then 0 else 2 * Number(b[..|b| - 1]) + b[|b| - 1]
  }

  lemma {:induction false} AtLeastOnce(d: nat, k: nat)
    requires k >= 1
    ensures d * k >= d
  {
    if k > 1 { AtLeastOnce(d, k - 1); }
  }

  lemma QuotientIs(x: nat, d: nat, q: nat, r: nat)
    requires 0 < d && r < d && x == d * q + r
    ensures x / d == q && x % d == r
  {
    var q', r' := x / d, x % d;
    DivMod(x, d);
    if q' != q {
      var k := if q' < q then q - q' else q' - q;
      assert d * k == if q' < q then d * q - d * q' else d * q' - d * q;
      AtLeastOnce(d, k);
    }
  }

  lemma DivMod(x: nat, d: nat)
    requires d > 0
    ensures x == d * (x / d) + x % d && x % d < d
  {
  }

  lemma HalvedShift(value: nat, shift: nat)
    ensures value / Pow2(shift + 1) == value / 2 / Pow2(shift)
  {
    HalfThenDivide(value, Pow2(shift));
  }

  lemma HalfThenDivide(x: nat, b: nat)
    requires b > 0
    ensures x / (2 * b) == x / 2 / b
  {
    var h := x / 2;
    DivMod(h, b);
    var q, r := h / b, h % b;
    assert 2 * b * q == 2 * (b * q);
    QuotientIs(x, 2 * b, q, 2 * r + x % 2);
  }

  /** The last bit is the parity; the bits before it are those of the halved value. */
  lemma BitsOfHalf(value: nat, width: nat)
    requires width > 0
    ensures BitsOf(value, width) == BitsOf(value / 2, width - 1) + [value % 2]
  {
    var b := BitsOf(value, width);
    forall i | 0 <= i < width - 1
      ensures b[i] == BitsOf(value / 2, width - 1)[i]
    {
      HalvedShift(value, width - 2 - i);
    }
    assert Pow2(0) == 1;
  }

  /** Reading back the bits of a value gives the value modulo the width's range. */
  lemma {:induction false} NumberOfBits(value: nat, width: nat)
    ensures Number(BitsOf(value, width)) == value % Pow2(width)
    decreases width
  {
    if width > 0 {
      BitsOfHalf(value, width);
      NumberOfBits(value / 2, width - 1);
      assert BitsOf(value, width)[..width - 1] == BitsOf(value / 2, width - 1);
      HalvedModulus(value, Pow2(width - 1));
    }
  }

  lemma HalvedModulus(value: nat, p: nat)
    requires p > 0
    ensures value % (2 * p) == 2 * (value / 2 % p) + value % 2
  {
    var h := value / 2;
    DivMod(h, p);
    var q, r := h / p, h % p;
    assert 2 * p * q == 2 * (p * q);
    QuotientIs(value, 2 * p, q, 2 * r + value % 2);
  }

  lemma {:induction false} NumberBound(b: seq<bit>)
    ensures Number(b) < Pow2(|b|)
  {
    if b != [] { NumberBound(b[..|b| - 1]); }
  }

  /** A bit string is the bits of the number it denotes. */
  lemma {:induction false} BitsOfNumber(b: seq<bit>)
    ensures BitsOf(Number(b), |b|) == b
  {
    if b != [] {
      var n := |b| - 1;
      BitsOfNumber(b[..n]);
      BitsOfHalf(Number(b), |b|);
      assert Number(b) / 2 == Number(b[..n]) && Number(b) % 2 == b[n];
      assert b == b[..n] + [b[n]];
    }
  }

  /** Setting a clear bit adds its weight. */
  lemma {:induction false} NumberWithBit(b: seq<bit>, i: nat)
    requires i < |b| && b[i] == 0
    ensures Number(b[i := 1]) == Number(b) + Pow2(|b| - 1 - i)
  {
    var n := |b| - 1;
    var c := b[i := 1];
    if i < n {
      NumberWithBit(b[..n], i);
      assert c[..n] == b[..n][i := 1];
    } else {
      assert c[..n] == b[..n];
    }
  }

  lemma NumberAppend(b: seq<bit>, x: bit)
    ensures Number(b + [x]) == 2 * Number(b) + x
  {
    assert (b + [x])[..|b|] == b;
  }

  // ------------------------------------------------------------------ bytes

  /** get_packed_bit */
  function GetBit(d: seq<byte>, i: nat): bit
    requires i < 8 * |d|
  {
    d[i / 8] / Pow2(7 - i % 8) % 2
  }

  /** All bits of a byte string. */
  function Unpack(d: seq<byte>): (b: seq<bit>)
    ensures |b| == 8 * |d|
    ensures forall i :: 0 <= i < |b| ==> b[i] == GetBit(d, i)
  {
    seq(8 * |d|, i requires 0 <= i < 8 * |d| => GetBit(d, i))
  }

  function Zeros(n: nat): (b: seq<bit>)
    ensures |b| == n
  {
    seq(n, _ => 0)
  }

  /** `b` filled up with zeros to whole bytes. */
  function Padded(b: seq<bit>): (p: seq<bit>)
    ensures |p| == 8 * ((|b| + 7) / 8)
  {
    b + Zeros(8 * ((|b| + 7) / 8) - |b|)
  }

  function ByteOf(b: seq<bit>): byte
    requires |b| == 8
  {
    NumberBound(b);
    Pow2Of8();
    Number(b)
  }

  lemma Pow2Of8()
    ensures Pow2(8) == 0x100
  {
    assert Pow2(4) == 16;
  }

  /** A bit string packed into bytes, the last one filled up with zeros. */
  function Pack(b: seq<bit>): (d: seq<byte>)
    ensures |d| == (|b| + 7) / 8
  {
    seq((|b| + 7) / 8, k requires 0 <= k < (|b| + 7) / 8 => ByteOf(Padded(b)[8 * k..8 * k + 8]))
  }

  lemma PackStep(b: seq<bit>, k: nat)
    requires k < |Pack(b)|
    ensures 8 * k + 8 <= |Padded(b)| && Number(Padded(b)[8 * k..8 * k + 8]) < 0x100
    ensures Pack(b)[..k + 1] == Pack(b)[..k] + [Number(Padded(b)[8 * k..8 * k + 8])]
  {
    assert Pack(b)[k] == ByteOf(Padded(b)[8 * k..8 * k + 8]);
  }

  lemma UnpackAt(d: seq<byte>, k: nat)
    requires k < |d|
    ensures Unpack(d)[8 * k..8 * k + 8] == BitsOf(d[k], 8)
  {
    forall j | 0 <= j < 8
      ensures Unpack(d)[8 * k + j] == BitsOf(d[k], 8)[j]
    {
      assert (8 * k + j) / 8 == k && (8 * k + j) % 8 == j;
    }
  }

  /** Two bit strings that agree on every byte of `d` bytes are equal. */
  lemma EqualByBytes(a: seq<bit>, b: seq<bit>, n: nat)
    requires |a| == |b| == 8 * n
    requires forall k :: 0 <= k < n ==> a[8 * k..8 * k + 8] == b[8 * k..8 * k + 8]
    ensures a == b
  {
    forall i | 0 <= i < 8 * n
      ensures a[i] == b[i]
    {
      var k, j := i / 8, i % 8;
      assert i == 8 * k + j;
      assert a[8 * k..8 * k + 8][j] == b[8 * k..8 * k + 8][j];
    }
  }

  /** Unpacking a packed bit string gives it back, zeros filled in up to the byte. */
  lemma UnpackOfPack(b: seq<bit>)
    ensures Unpack(Pack(b)) == Padded(b)
  {
    var d, p := Pack(b), Padded(b);
    forall k | 0 <= k < |d|
      ensures Unpack(d)[8 * k..8 * k + 8] == p[8 * k..8 * k + 8]
    {
      UnpackAt(d, k);
      BitsOfNumber(p[8 * k..8 * k + 8]);
    }
    EqualByBytes(Unpack(d), p, |d|);
  }

  /** Packing the bits of a byte string gives the byte string. */
  lemma PackOfUnpack(d: seq<byte>)
    ensures Pack(Unpack(d)) == d
  {
    var b := Unpack(d);
    assert Padded(b) == b;
    hide Unpack, Padded;
    forall k | 0 <= k < |d|
      ensures Pack(b)[k] == d[k]
    {
      ByteOfUnpack(d, k);
    }
  }

  lemma ByteOfUnpack(d: seq<byte>, k: nat)
    requires k < |d|
    ensures 8 * k + 8 <= |Unpack(d)| && Number(Unpack(d)[8 * k..8 * k + 8]) == d[k]
  {
    hide Unpack, BitsOf, Number, Pow2;
    UnpackAt(d, k);
    NumberOfBits(d[k], 8);
    Pow2Of8();
    assert d[k] % 0x100 == d[k];
  }

  lemma UnpackInjective(d: seq<byte>, e: seq<byte>)
    requires Unpack(d) == Unpack(e)
    ensures d == e
  {
    PackOfUnpack(d);
    PackOfUnpack(e);
  }

  lemma UnpackSnoc(d: seq<byte>, x: byte)
    ensures Unpack(d + [x]) == Unpack(d) + BitsOf(x, 8)
  {
    var e := d + [x];
    var whole := Unpack(d) + BitsOf(x, 8);
    forall k | 0 <= k < |e|
      ensures Unpack(e)[8 * k..8 * k + 8] == whole[8 * k..8 * k + 8]
    {
      UnpackAt(e, k);
      if k < |d| {
        UnpackAt(d, k);
        assert whole[8 * k..8 * k + 8] == Unpack(d)[8 * k..8 * k + 8];
      } else {
        assert whole[8 * k..8 * k + 8] == BitsOf(x, 8);
      }
    }
    EqualByBytes(Unpack(e), whole, |e|);
  }

  // ------------------------------------------------------------------ the writer

  class BitWriter {
    var bits: seq<bit>

    constructor ()
      ensures bits == []
    {
      bits := [];
    }

    method Push(value: nat, width: nat)
      modifies this
      ensures bits == old(bits) + BitsOf(value, width)
    {
      ghost var was := bits;
      var shift := width;
      while shift > 0
        invariant 0 <= shift <= width
        invariant bits == was + BitsOf(value, width)[..width - shift]
      {
        shift := shift - 1;
        bits := bits + [value / Pow2(shift) % 2];
        assert BitsOf(value, width)[..width - shift] == BitsOf(value, width)[..width - shift - 1] + [value / Pow2(shift) % 2];
      }
      assert BitsOf(value, width)[..width] == BitsOf(value, width);
    }

    method PushBytes(data: seq<byte>)
      modifies this
      ensures bits == old(bits) + Unpack(data)
    {
      ghost var was := bits;
      assert bits == was + Unpack([]);
      for i := 0 to |data|
        invariant bits == was + Unpack(data[..i])
      {
        Push(data[i], 8);
        assert data[..i + 1] == data[..i] + [data[i]];
        UnpackSnoc(data[..i], data[i]);
      }
      assert data[..|data|] == data;
    }

    method ToBytes() returns (out: seq<byte>)
      ensures out == Pack(bits)
    {
      hide Pack, Number;
      if bits == [] { return []; }
      var padded := bits;
      while |padded| % 8 != 0
        invariant |bits| <= |padded| <= 8 * ((|bits| + 7) / 8)
        invariant padded == bits + Zeros(|padded| - |bits|)
        decreases 8 * ((|bits| + 7) / 8) - |padded|
      {
        padded := padded + [0];
      }
      assert padded == Padded(bits);
      out := [];
      var offset := 0;
      while offset < |padded|
        invariant 0 <= offset <= |padded| && offset == 8 * |out|
        invariant out == Pack(bits)[..|out|]
      {
        var value := NumberByShifting(padded[offset..offset + 8]);
        PackStep(bits, |out|);
        out := out + [value];
        offset := offset + 8;
      }
    }
  }

  /** value = (value << 1) | bit, over a bit string. */
  method NumberByShifting(b: seq<bit>) returns (value: nat)
    ensures value == Number(b)
  {
    value := 0;
    for i := 0 to |b|
      invariant value == Number(b[..i])
    {
      assert b[..i + 1] == b[..i] + [b[i]];
      NumberAppend(b[..i], b[i]);
      value := 2 * value + b[i];
    }
    assert b[..|b|] == b;
  }

  // ------------------------------------------------------------------ pushes read back

  datatype Field = Field(value: nat, width: nat)

  /** The bits of a sequence of pushes. */
  function Pushed(fields: seq<Field>): seq<bit> {
    if fields == [] then [] else Pushed(fields[..|fields| - 1]) + BitsOf(fields[|fields| - 1].value, fields[|fields| - 1].width)
  }

  /** Where the field at `i` starts. */
  function OffsetOf(fields: seq<Field>, i: nat): nat
    requires i <= |fields|
  {
    if i == 0 then 0 else OffsetOf(fields, i - 1) + fields[i - 1].width
  }

  /** read_bits */
  function ReadBits(d: seq<byte>, offset: nat, count: nat): nat
    requires offset + count <= 8 * |d|
  {
    Number(Unpack(d)[offset..offset + count])
  }

  lemma {:induction false} OffsetOfPrefix(fields: seq<Field>, n: nat, i: nat)
    requires i <= n <= |fields|
    ensures OffsetOf(fields[..n], i) == OffsetOf(fields, i)
  {
    if i > 0 { OffsetOfPrefix(fields, n, i - 1); }
  }

  lemma {:induction false} PushedAt(fields: seq<Field>, i: nat)
    requires i < |fields|
    ensures OffsetOf(fields, i) + fields[i].width <= |Pushed(fields)| == OffsetOf(fields, |fields|)
    ensures Pushed(fields)[OffsetOf(fields, i)..OffsetOf(fields, i) + fields[i].width] == BitsOf(fields[i].value, fields[i].width)
  {
    var n := |fields| - 1;
    var before := fields[..n];
    OffsetOfPrefix(fields, n, i);
    OffsetOfPrefix(fields, n, n);
    if i < n {
      PushedAt(before, i);
      var o := OffsetOf(fields, i);
      assert Pushed(fields)[o..o + fields[i].width] == Pushed(before)[o..o + fields[i].width];
    } else {
      PushedLength(before);
    }
  }

  lemma {:induction false} PushedLength(fields: seq<Field>)
    ensures |Pushed(fields)| == OffsetOf(fields, |fields|)
  {
    if fields != [] {
      PushedLength(fields[..|fields| - 1]);
      OffsetOfPrefix(fields, |fields| - 1, |fields| - 1);
    }
  }

  lemma PaddedPart(b: seq<bit>, i: nat, j: nat)
    requires i <= j <= |b|
    ensures |b| <= |Padded(b)| && Padded(b)[i..j] == b[i..j]
  {
  }

  /** Whatever is pushed, each field reads back at its offset, modulo its width's range. */
  lemma PushesReadBack(fields: seq<Field>, i: nat)
    requires i < |fields|
    ensures OffsetOf(fields, i) + fields[i].width <= 8 * |Pack(Pushed(fields))|
    ensures ReadBits(Pack(Pushed(fields)), OffsetOf(fields, i), fields[i].width) == fields[i].value % Pow2(fields[i].width)
  {
    hide Pack, BitsOf, Unpack, Pushed, OffsetOf, Number, Pow2;
    var b := Pushed(fields);
    PushedAt(fields, i);
    UnpackOfPack(b);
    var o, w := OffsetOf(fields, i), fields[i].width;
    PaddedPart(b, o, o + w);
    NumberOfBits(fields[i].value, w);
  }

  // ------------------------------------------------------------------ single bits in place

  /** data[i] |= 1 << (7 - j) */
  function WithBit(x: byte, j: nat): byte
    requires j < 8
  {
    if x / Pow2(7 - j) % 2 == 1 then x
    else
      WithBitBits(x, j);
      x + Pow2(7 - j)
  }

  lemma WithBitBits(x: byte, j: nat)
    requires j < 8 && x / Pow2(7 - j) % 2 != 1
    ensures x + Pow2(7 - j) < 0x100 && BitsOf(x + Pow2(7 - j), 8) == BitsOf(x, 8)[j := 1]
  {
    var b := BitsOf(x, 8);
    assert b[j] == 0;
    SetBitNumber(x, b, j);
  }

  lemma SetBitNumber(x: byte, b: seq<bit>, j: nat)
    requires j < 8 && b == BitsOf(x, 8) && b[j] == 0
    ensures x + Pow2(7 - j) < 0x100 && BitsOf(x + Pow2(7 - j), 8) == b[j := 1]
  {
    hide BitsOf, Number, Pow2;
    Pow2Of8();
    NumberOfBits(x, 8);
    NumberWithBit(b, j);
    NumberBound(b[j := 1]);
    BitsOfNumber(b[j := 1]);
  }

  /** set_packed_bit: a 1 is written into its place, a 0 leaves the byte as it is. */
  method SetPackedBit(data: array<byte>, i: nat, value: bit)
    requires i < 8 * data.Length
    modifies data
    ensures Unpack(data[..]) == if value == 1 then old(Unpack(data[..]))[i := 1] else old(Unpack(data[..]))
  {
    ghost var was := data[..];
    if value == 1 {
      data[i / 8] := WithBit(data[i / 8], i % 8);
      WithBitAt(was, i);
      assert data[..] == was[i / 8 := WithBit(was[i / 8], i % 8)];
    }
  }

  lemma WithBitAt(d: seq<byte>, i: nat)
    requires i < 8 * |d|
    ensures Unpack(d[i / 8 := WithBit(d[i / 8], i % 8)]) == Unpack(d)[i := 1]
  {
    hide WithBit, BitsOf, GetBit;
    var k, j := i / 8, i % 8;
    var e := d[k := WithBit(d[k], j)];
    var wanted := Unpack(d)[i := 1];
    forall m | 0 <= m < |d|
      ensures Unpack(e)[8 * m..8 * m + 8] == wanted[8 * m..8 * m + 8]
    {
      UnpackAt(e, m);
      UnpackAt(d, m);
      if m == k {
        BitsWithBit(d[k], j);
        assert wanted[8 * m..8 * m + 8] == Unpack(d)[8 * m..8 * m + 8][j := 1];
      } else {
        assert wanted[8 * m..8 * m + 8] == Unpack(d)[8 * m..8 * m + 8];
      }
    }
    EqualByBytes(Unpack(e), wanted, |d|);
  }

  lemma BitsWithBit(x: byte, j: nat)
    requires j < 8
    ensures BitsOf(WithBit(x, j), 8) == BitsOf(x, 8)[j := 1]
  {
    if x / Pow2(7 - j) % 2 != 1 {
      WithBitBits(x, j);
    } else {
      assert BitsOf(x, 8)[j] == 1;
    }
  }
}
