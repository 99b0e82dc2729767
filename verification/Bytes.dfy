/** Bytes, 32-bit words and the fixed-width integer fields of RTMP, FLV and AMF. */
module Bytes {
  type Byte = x: int | 0 <= x < 0x100
  type U32 = x: int | 0 <= x < 0x1_0000_0000

  datatype Option<+T> = None | Some(value: T)

  function Wrap32(x: int): U32 { x % 0x1_0000_0000 }

  function Min(a: int, b: int): int { if a < b then a else b }

  /** The bytes of a name. */
  function Text(s: string): (r: seq<Byte>)
    ensures |r| == |s|
  {
    seq(|s|, i requires 0 <= i < |s| => s[i] as int % 0x100)
  }

  // Big-endian fields. A value that is too wide loses its high bits, as the
  // assignments to `char` in amf.c do.
  function Be16(v: int): (s: seq<Byte>)
    ensures |s| == 2
  {
    [v / 0x100 % 0x100, v % 0x100]
  }

  function Be24(v: int): (s: seq<Byte>)
    ensures |s| == 3
  {
    [v / 0x1_0000 % 0x100, v / 0x100 % 0x100, v % 0x100]
  }

  function Be32(v: int): (s: seq<Byte>)
    ensures |s| == 4
  {
    [v / 0x100_0000 % 0x100, v / 0x1_0000 % 0x100, v / 0x100 % 0x100, v % 0x100]
  }

  // The one little-endian field: the message stream id.
  function Le32(v: int): (s: seq<Byte>)
    ensures |s| == 4
  {
    [v % 0x100, v / 0x100 % 0x100, v / 0x1_0000 % 0x100, v / 0x100_0000 % 0x100]
  }

  function Dec16(s: seq<Byte>): (v: int)
    requires |s| >= 2
    ensures 0 <= v < 0x1_0000
  {
    s[0] as int * 0x100 + s[1]
  }

  function Dec24(s: seq<Byte>): (v: int)
    requires |s| >= 3
    ensures 0 <= v < 0x100_0000
  {
    s[0] as int * 0x1_0000 + s[1] as int * 0x100 + s[2]
  }

  function Dec32(s: seq<Byte>): (v: U32)
    requires |s| >= 4
  {
    s[0] as int * 0x100_0000 + s[1] as int * 0x1_0000 + s[2] as int * 0x100 + s[3]
  }

  function DecLe32(s: seq<Byte>): (v: U32)
    requires |s| >= 4
  {
    s[3] as int * 0x100_0000 + s[2] as int * 0x1_0000 + s[1] as int * 0x100 + s[0]
  }

  lemma Dec16Be16(v: int, r: seq<Byte>)
    requires 0 <= v < 0x1_0000
    ensures Dec16(Be16(v) + r) == v
  {
  }

  /** Base-256 digits, by nested division. */
  lemma Digits(v: int)
    ensures v / 0x1_0000 == v / 0x100 / 0x100 && v / 0x100_0000 == v / 0x100 / 0x100 / 0x100
  {
  }

  lemma ThreeDigits(v: int)
    ensures v / 0x1_0000 % 0x100 * 0x1_0000 + v / 0x100 % 0x100 * 0x100 + v % 0x100 == v % 0x100_0000
  {
    var a := v / 0x100;
    var b := a / 0x100;
    var c := b / 0x100;
    Digits(v);
    assert v == 0x100_0000 * c + (b % 0x100 * 0x1_0000 + a % 0x100 * 0x100 + v % 0x100);
  }

  lemma FourDigits(v: U32)
    ensures v / 0x100_0000 % 0x100 * 0x100_0000 + v / 0x1_0000 % 0x100 * 0x1_0000 + v / 0x100 % 0x100 * 0x100 +
      v % 0x100 == v
  {
    var a := v / 0x100;
    var b := a / 0x100;
    var c := b / 0x100;
    Digits(v);
    assert c % 0x100 == c;
  }

  /** Decoding a 24-bit field gives the low 24 bits of what was encoded, whatever follows. */
  lemma Dec24Be24(v: int, r: seq<Byte>)
    ensures Dec24(Be24(v) + r) == v % 0x100_0000
  {
    ThreeDigits(v);
  }

  lemma Dec32Be32(v: U32, r: seq<Byte>)
    ensures Dec32(Be32(v) + r) == v
  {
    FourDigits(v);
  }

  lemma DecLe32Le32(v: U32, r: seq<Byte>)
    ensures DecLe32(Le32(v) + r) == v
  {
    FourDigits(v);
  }

  lemma Be32Dec32(s: seq<Byte>)
    requires |s| == 4
    ensures Be32(Dec32(s)) == s
  {
    var v := Dec32(s);
    assert v / 0x100 == s[0] as int * 0x1_0000 + s[1] as int * 0x100 + s[2];
    assert v / 0x1_0000 == s[0] as int * 0x100 + s[1];
    assert v / 0x100_0000 == s[0];
  }

  lemma Be24Dec24(s: seq<Byte>)
    requires |s| == 3
    ensures Be24(Dec24(s)) == s
  {
    var v := Dec24(s);
    assert v / 0x100 == s[0] as int * 0x100 + s[1];
    assert v / 0x1_0000 == s[0];
  }

  /** Dropping a prefix of known length. */
  lemma DropPrefix<T>(a: seq<T>, b: seq<T>)
    ensures (a + b)[|a|..] == b
    ensures (a + b)[..|a|] == a
  {
  }

  lemma Assoc<T>(a: seq<T>, b: seq<T>, c: seq<T>)
    ensures a + (b + c) == a + b + c
  {
  }

  lemma SubTake<T>(s: seq<T>, k: nat, i: nat, j: nat)
    requires i <= j <= k <= |s|
    ensures s[..k][i..j] == s[i..j]
  {
  }

  lemma SubDrop<T>(s: seq<T>, k: nat, i: nat, j: nat)
    requires i <= j && k + j <= |s|
    ensures s[k..][i..j] == s[k + i..k + j]
  {
  }

  lemma SubSlice<T>(s: seq<T>, lo: nat, hi: nat, i: nat, j: nat)
    requires i <= j && lo + j <= hi <= |s|
    ensures s[lo..hi][i..j] == s[lo + i..lo + j]
  {
    SubTake(s, hi, lo + i, lo + j);
    SubDrop(s[..hi], lo, i, j);
  }

  lemma Split<T>(s: seq<T>, i: nat, j: nat, k: nat)
    requires i <= j <= k <= |s|
    ensures s[i..k] == s[i..j] + s[j..k]
  {
  }

  lemma SameBytes<T>(a: seq<T>, b: seq<T>, lo: nat, hi: nat)
    requires lo <= hi <= |a| && hi <= |b| && forall k :: lo <= k < hi ==> a[k] == b[k]
    ensures a[lo..hi] == b[lo..hi]
  {
  }

  lemma SamePrefix<T>(a: seq<T>, b: seq<T>, n: nat)
    requires n <= |a| && n <= |b| && forall k :: 0 <= k < n ==> a[k] == b[k]
    ensures a[..n] == b[..n]
  {
  }

  lemma Middle<T>(a: seq<T>, b: seq<T>, c: seq<T>)
    ensures (a + b + c)[|a|..|a| + |b|] == b
  {
  }
}
