/** Value types shared by every component: machine-width numbers, options and sequence helpers. */
module Common {

  datatype Option<+T> = None | Some(value: T)

  type byte = x: int | 0 <= x < 0x100
  type uint16 = x: int | 0 <= x < 0x1_0000
  type uint32 = x: int | 0 <= x < 0x1_0000_0000

  /** str.isspace, by code point. */
  predicate IsSpaceCode(n: int) {
    || 0x09 <= n <= 0x0D || 0x1C <= n <= 0x20 || n == 0x85 || n == 0xA0 || n == 0x1680
    || 0x2000 <= n <= 0x200A || n == 0x2028 || n == 0x2029 || n == 0x202F || n == 0x205F || n == 0x3000
  }

  /** The entry of `m` at `k`, if any. */
  function Get<K, V>(m: map<K, V>, k: K): Option<V> {
    if k in m then Some(m[k]) else None
  }

  /** `m` with the entry at `k` written, or removed when there is nothing to write. */
  function Put<K, V>(m: map<K, V>, k: K, v: Option<V>): map<K, V> {
    match v
    case Some(x) => m[k := x]
    case None => m - {k}
  }

  lemma SomeMember<T>(s: set<T>) returns (x: T)
    requires s != {}
    ensures x in s
  {
    x :| x in s;
  }

  /** The sequences of `ss` joined in order. */
  function Flatten<T>(ss: seq<seq<T>>): seq<T> {
    if ss == [] then [] else ss[0] + Flatten(ss[1..])
  }

  lemma {:induction false} FlattenAppend<T>(ss: seq<seq<T>>, s: seq<T>)
    ensures Flatten(ss + [s]) == Flatten(ss) + s
  {
    if ss == [] {
      assert ss + [s] == [s];
      assert Flatten([s]) == s + Flatten([]);
    } else {
      FlattenAppend(ss[1..], s);
      assert (ss + [s])[1..] == ss[1..] + [s];
    }
  }

  /** A 16-bit value as two bytes, most significant first. */
  function U16(v: uint16): (s: seq<byte>)
    ensures |s| == 2
  {
    [v / 0x100, v % 0x100]
  }

  /** Two bytes as a 16-bit value, most significant first. */
  function Word(hi: byte, lo: byte): uint16 {
    hi as int * 0x100 + lo
  }

  /** The 16-bit value at offset `i`, most significant byte first. */
  function ReadU16(d: seq<byte>, i: nat): uint16
    requires i + 2 <= |d|
  {
    Word(d[i], d[i + 1])
  }

  /** The middle and the end of three sequences joined. */
  lemma Middle<T>(a: seq<T>, b: seq<T>, c: seq<T>)
    ensures var s := a + (b + c);
            s[|a|..|a| + |b|] == b && s[|a| + |b|..] == c
  {
  }

  /** A number from its third byte up, its second and its first. */
  lemma Split24(n: nat)
    ensures n == n / 0x1_0000 * 0x1_0000 + n / 0x100 % 0x100 * 0x100 + n % 0x100
    ensures n < 0x100_0000 <==> n / 0x1_0000 < 0x100
  {
    var q := n / 0x100;
    assert n == q * 0x100 + n % 0x100;
    assert q == q / 0x100 * 0x100 + q % 0x100;
    assert q / 0x100 == n / 0x1_0000;
  }
}
