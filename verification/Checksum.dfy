/** The Internet checksum of section 2 of RFC 1071, as computed by src/SmsSubsystem.cpp. */
module Checksum {
  import opened Common

  /** Plain sum of the big-endian 16-bit words of `d`; an odd last byte is a word's high half. */
  function WordSum(d: seq<byte>): (s: nat) {
    if |d| == 0 then 0
    else if |d| == 1 then Word(d[0], 0)
    else Word(d[0], d[1]) + WordSum(d[2..])
  }

  /** One step of ones'-complement addition: the carry out of bit 15 is added back in. */
  function EndAround(a: uint16, b: uint16): uint16 {
    if a + b > 0xFFFF then a + b - 0xFFFF else a + b
  }

  /** Ones'-complement sum of the words of `d`: the reference a receiver checks against. */
  function OnesSum(d: seq<byte>): uint16 {
    if |d| == 0 then 0
    else if |d| == 1 then Word(d[0], 0)
    else EndAround(Word(d[0], d[1]), OnesSum(d[2..]))
  }

  /** The 16-bit ones'-complement representative of a plain sum: zero only for zero. */
  function Folded(s: nat): uint16 {
    if s == 0 then 0 else 1 + (s - 1) % 0xFFFF
  }

  lemma FoldedStep(w: uint16, s: nat)
    ensures Folded(w + s) == EndAround(w, Folded(s))
  {
    if s > 0 && w > 0 {
      var q, r := (s - 1) / 0xFFFF, (s - 1) % 0xFFFF;
      assert s == 1 + q * 0xFFFF + r;
      if w + r + 1 > 0xFFFF {
        assert w + s - 1 == (q + 1) * 0xFFFF + (w + r - 0xFFFF);
        DivModUnique(w + s - 1, q + 1, w + r - 0xFFFF);
      } else {
        assert w + s - 1 == q * 0xFFFF + (w + r);
        DivModUnique(w + s - 1, q, w + r);
      }
    }
  }

  lemma DivModUnique(n: int, q: int, r: int)
    requires n == q * 0xFFFF + r && 0 <= r < 0xFFFF
    ensures n % 0xFFFF == r
  {
  }

  /** Deferring the carries, as the code does, gives the ones'-complement sum. */
  lemma {:induction false} FoldedIsOnesSum(d: seq<byte>)
    ensures OnesSum(d) == Folded(WordSum(d))
  {
    OnesSumStep(d);
    WordSumStep(d);
    if |d| >= 2 {
      hide OnesSum, WordSum, Folded, EndAround;
      FoldedIsOnesSum(d[2..]);
      FoldedStep(Word(d[0], d[1]), WordSum(d[2..]));
    } else {
      hide OnesSum, WordSum;
    }
  }

  lemma OnesSumStep(d: seq<byte>)
    ensures |d| == 0 ==> OnesSum(d) == 0
    ensures |d| == 1 ==> OnesSum(d) == Word(d[0], 0)
    ensures |d| >= 2 ==> OnesSum(d) == EndAround(Word(d[0], d[1]), OnesSum(d[2..]))
  {
  }

  lemma {:induction false} WordSumBound(d: seq<byte>)
    ensures WordSum(d) <= 0xFFFF * ((|d| + 1) / 2)
  {
    if |d| >= 2 {
      WordSumBound(d[2..]);
    }
  }

  lemma {:induction false} WordSumConcat(a: seq<byte>, b: seq<byte>)
    requires |a| % 2 == 0
    ensures WordSum(a + b) == WordSum(a) + WordSum(b)
  {
    if a == [] {
      assert a + b == b;
    } else {
      WordSumConcat(a[2..], b);
      assert (a + b)[2..] == a[2..] + b;
    }
  }

  /** The checksum field that makes a block whose other words sum to `s` verify. */
  function ChecksumOf(s: nat): uint16 {
    0xFFFF - Folded(s)
  }

  /** What checksumFinalize returns is determined by three facts, none of them a loop. */
  lemma ChecksumCharacterised(s: nat, c: uint16)
    ensures c == ChecksumOf(s) <==> (s + c) % 0xFFFF == 0 && (s == 0 <==> c == 0xFFFF)
  {
    if s > 0 {
      var q, r := (s - 1) / 0xFFFF, (s - 1) % 0xFFFF;
      assert s == 1 + q * 0xFFFF + r;
      assert ChecksumOf(s) == 0xFFFE - r;
      assert s + c == q * 0xFFFF + (1 + r + c);
      if c == 0xFFFF {
        assert s + c == (q + 1) * 0xFFFF + (1 + r);
      } else if 1 + r + c == 0xFFFF {
        DivModUnique(s + c, q + 1, 0);
      } else if 1 + r + c < 0xFFFF {
        DivModUnique(s + c, q, 1 + r + c);
      } else {
        assert s + c == (q + 1) * 0xFFFF + (1 + r + c - 0xFFFF);
        DivModUnique(s + c, q + 1, 1 + r + c - 0xFFFF);
      }
    }
  }

  /**
   * A checksummed block verifies: with the field zero the words sum to `s`; with the field
   * written the ones'-complement sum is all ones. A zero checksum may be sent as 0xFFFF.
   */
  lemma ChecksumVerifies(s: nat, c: uint16)
    requires s > 0
    requires c == ChecksumOf(s) || (ChecksumOf(s) == 0 && c == 0xFFFF)
    ensures Folded(s + c) == 0xFFFF
  {
    ChecksumCharacterised(s, ChecksumOf(s));
    var t := s + c;
    assert t % 0xFFFF == 0 by {
      if c != ChecksumOf(s) {
        assert t == s + ChecksumOf(s) + 0xFFFF;
      }
    }
    var q := t / 0xFFFF;
    assert t == q * 0xFFFF && q >= 1;
    DivModUnique(t - 1, q - 1, 0xFFFE);
  }

  lemma WordSumStep(d: seq<byte>)
    ensures |d| == 0 ==> WordSum(d) == 0
    ensures |d| == 1 ==> WordSum(d) == Word(d[0], 0)
    ensures |d| >= 2 ==> WordSum(d) == Word(d[0], d[1]) + WordSum(d[2..])
  {
  }

  lemma WrapOnce(a: nat, b: nat)
    ensures (a % 0x1_0000_0000 + b) % 0x1_0000_0000 == (a + b) % 0x1_0000_0000
  {
  }

  /**
   * checksumAccumulate: 32-bit running sum, wrapping as uint32_t does.
   */
  method Accumulate(data: seq<byte>, start: uint32) returns (sum: uint32)
    ensures sum == (start + WordSum(data)) % 0x1_0000_0000
    ensures start + WordSum(data) < 0x1_0000_0000 ==> sum == start + WordSum(data)
  {
    hide WordSum;
    sum := start;
    var i := 0;
    while i + 1 < |data|
      invariant 0 <= i <= |data| && i % 2 == 0
      invariant (sum + WordSum(data[i..])) % 0x1_0000_0000 == (start + WordSum(data)) % 0x1_0000_0000
    {
      assert data[i..][2..] == data[i + 2..];
      ghost var word, rest := Word(data[i], data[i + 1]), WordSum(data[i + 2..]);
      WordSumStep(data[i..]);
      WrapOnce(sum + word, rest);
      sum := (sum + Word(data[i], data[i + 1])) % 0x1_0000_0000;
      i := i + 2;
    }
    WordSumStep(data[i..]);
    if |data| % 2 != 0 {
      sum := (sum + Word(data[|data| - 1], 0)) % 0x1_0000_0000;
    }
  }

  /** checksumFinalize: fold the carries until none is left, then complement. */
  method Finalize(sum: uint32) returns (c: uint16)
    ensures c == ChecksumOf(sum)
  {
    var s := sum;
    while s / 0x1_0000 != 0
      invariant 0 <= s <= sum
      invariant s % 0xFFFF == sum % 0xFFFF
      invariant sum > 0 ==> s > 0
      decreases s
    {
      var hi, lo := s / 0x1_0000, s % 0x1_0000;
      assert s == hi * 0xFFFF + (hi + lo);
      s := lo + hi;
    }
    c := 0xFFFF - s;
    assert (s + c) % 0xFFFF == 0;
    assert (sum + c) % 0xFFFF == 0 by { SameResidue(s, sum, c); }
    ChecksumCharacterised(sum, c);
  }

  lemma SameResidue(a: nat, b: nat, c: nat)
    requires a % 0xFFFF == b % 0xFFFF && (a + c) % 0xFFFF == 0
    ensures (b + c) % 0xFFFF == 0
  {
  }
}
