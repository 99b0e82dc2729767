/** The secure token: DecodeTEA undoes Block TEA (XXTEA). The proof needs nothing of the
    mixing term but that it is a function of the neighbours, the sum and the position, so it
    is carried out for every such function and used for the real one. */
module BlockTea {
  import opened Bytes
  import opened Arith

  const DELTA := 0x9e3779b9

  /** The mixing term: left neighbour z, right neighbour y, sum, position. */
  type Mixer = (U32, U32, U32, nat) -> U32

  /** The macro MX, for a key of four words. */
  function Mx(key: seq<U32>, z: U32, y: U32, sum: U32, p: nat): U32
    requires |key| == 4
  {
    Blend(z as bv32, y as bv32, sum as bv32, key[KeyIndex(sum / 4 % 4, p % 4)] as bv32) as U32
  }

  function Blend(z: bv32, y: bv32, sum: bv32, k: bv32): bv32 {
    (((z >> 5) ^ (y << 2)) + ((y >> 3) ^ (z << 4))) ^ ((sum ^ y) + (k ^ z))
  }

  function KeyIndex(e: nat, p: nat): (i: nat)
    requires e < 4 && p < 4
    ensures i < 4
  {
    (p as bv2 ^ e as bv2) as int
  }

  /** The macro by an example that takes a carry out of every sum and a bit out of every shift. */
  lemma BlendExample()
    ensures Blend(0xfedcba98, 0x01234567, 0x3c6ef372, 0x89abcdef) == 0x45ae9cf8
    ensures Blend(0x12345678, 0x9abcdef0, 0x9e3779b9, 4) == 0x8cca2814
  {
  }

  /** The order in which neighbouring words take the words of the key, by the bits of the sum. */
  lemma KeyOrder(p: nat)
    requires p < 4
    ensures KeyIndex(0, p) == [0, 1, 2, 3][p] && KeyIndex(1, p) == [1, 0, 3, 2][p]
    ensures KeyIndex(2, p) == [2, 3, 0, 1][p] && KeyIndex(3, p) == [3, 2, 1, 0][p]
  {
    assert KeyIndex(1, 0) == 1 && KeyIndex(1, 1) == 0 && KeyIndex(1, 2) == 3 && KeyIndex(1, 3) == 2;
  }

  /** XXTEA mixes every word at least six times and makes about 52 steps more: the number of rounds is
      the largest whose rounds beyond the sixth take no more than 52 steps. */
  lemma RoundsOf(n: nat, q: nat)
    requires n > 0
    ensures q <= Rounds(n) <==> (q - 6) * n <= 52
  {
    Euclid(52, n);
    var r := Rounds(n) - 6;
    if q - 6 <= r {
      Distrib(r, q - 6, n);
      MulNonNeg(r - (q - 6), n);
    } else {
      Distrib(q - 6, r + 1, n);
      Distrib(r, 1, n);
      MulNonNeg(q - 6 - (r + 1), n);
    }
  }

  lemma MulNonNeg(a: nat, b: nat)
    ensures a * b >= 0
  {
  }

  function MixerOf(key: seq<U32>): Mixer
    requires |key| == 4
  {
    (z, y, sum, p) => Mx(key, z, y, sum, p)
  }

  function Rounds(n: nat): (q: nat)
    requires n > 0
    ensures 6 <= q <= 58
  {
    Euclid(52, n);
    6 + 52 / n
  }

  function Left(p: nat, n: nat): nat
    requires p < n
  {
    if p == 0 then n - 1 else p - 1
  }

  function Right(p: nat, n: nat): nat
    requires p < n
  {
    if p == n - 1 then 0 else p + 1
  }

  function Mix(mx: Mixer, v: seq<U32>, p: nat, sum: U32): U32
    requires p < |v|
  {
    mx(v[Left(p, |v|)], v[Right(p, |v|)], sum, p)
  }

  // ---- The cipher ----

  function StepUp(mx: Mixer, v: seq<U32>, p: nat, sum: U32): (w: seq<U32>)
    requires p < |v|
    ensures |w| == |v|
  {
    v[p := Wrap32(v[p] + Mix(mx, v, p, sum))]
  }

  /** A round of Block TEA encryption over the words before p, in ascending order. */
  function RoundUp(mx: Mixer, v: seq<U32>, p: nat, sum: U32): (w: seq<U32>)
    requires p <= |v|
    ensures |w| == |v|
  {
    if p == 0 then v else StepUp(mx, RoundUp(mx, v, p - 1, sum), p - 1, sum)
  }

  /** q rounds of encryption, with sums DELTA, 2 DELTA, ..., q DELTA. */
  function Encipher(mx: Mixer, v: seq<U32>, q: nat): (w: seq<U32>)
    ensures |w| == |v|
  {
    if q == 0 then v else RoundUp(mx, Encipher(mx, v, q - 1), |v|, Wrap32(q * DELTA))
  }

  /** The first round over three words: in ascending order, each word from its neighbours as they then
      are, the last one's right neighbour being the first. */
  lemma RoundOfThree(mx: Mixer, a: U32, b: U32, c: U32)
    ensures var sum := 0x9e3779b9;
            var x := Wrap32(a + mx(c, b, sum, 0));
            var y := Wrap32(b + mx(x, c, sum, 1));
            var z := Wrap32(c + mx(y, x, sum, 2));
            Encipher(mx, [a, b, c], 1) == [x, y, z]
  {
    var sum, v := 0x9e3779b9, [a, b, c];
    var x := Wrap32(a + mx(c, b, sum, 0));
    var y := Wrap32(b + mx(x, c, sum, 1));
    assert RoundUp(mx, v, 0, sum) == v && RoundUp(mx, v, 1, sum) == [x, b, c];
    assert RoundUp(mx, v, 2, sum) == [x, y, c] && Encipher(mx, v, 0) == v;
    assert Wrap32(1 * DELTA) == sum;
  }

  // ---- Decryption ----

  function StepDown(mx: Mixer, v: seq<U32>, p: nat, sum: U32): (w: seq<U32>)
    requires p < |v|
    ensures |w| == |v|
  {
    v[p := Wrap32(v[p] - Mix(mx, v, p, sum))]
  }

  /** A round of decryption over the words before p, in descending order. */
  function RoundDown(mx: Mixer, v: seq<U32>, p: nat, sum: U32): (w: seq<U32>)
    requires p <= |v|
    ensures |w| == |v|
    decreases p
  {
    if p == 0 then v else RoundDown(mx, StepDown(mx, v, p - 1, sum), p - 1, sum)
  }

  function Decipher(mx: Mixer, v: seq<U32>, q: nat): (w: seq<U32>)
    ensures |w| == |v|
    decreases q
  {
    if q == 0 then v else Decipher(mx, RoundDown(mx, v, |v|, Wrap32(q * DELTA)), q - 1)
  }

  lemma WrapAddSub(a: U32, m: U32)
    ensures Wrap32(Wrap32(a + m) - m) == a
  {
    if a + m >= 0x1_0000_0000 {
      assert Wrap32(a + m) == a + m - 0x1_0000_0000;
      assert Wrap32(a - 0x1_0000_0000) == a;
    }
  }

  /** With two words or more a word is not its own neighbour, so its step can be undone. */
  lemma StepUndone(mx: Mixer, v: seq<U32>, p: nat, sum: U32)
    requires p < |v| && |v| >= 2
    ensures StepDown(mx, StepUp(mx, v, p, sum), p, sum) == v
  {
    WrapAddSub(v[p], Mix(mx, v, p, sum));
    assert Mix(mx, StepUp(mx, v, p, sum), p, sum) == Mix(mx, v, p, sum);
  }

  lemma {:induction false} RoundUndone(mx: Mixer, v: seq<U32>, p: nat, sum: U32)
    requires p <= |v| && |v| >= 2
    ensures RoundDown(mx, RoundUp(mx, v, p, sum), p, sum) == v
  {
    if p > 0 {
      StepUndone(mx, RoundUp(mx, v, p - 1, sum), p - 1, sum);
      RoundUndone(mx, v, p - 1, sum);
    }
  }

  /** Decryption undoes encryption, for every mixing function and number of rounds. */
  lemma {:induction false} CipherUndone(mx: Mixer, v: seq<U32>, q: nat)
    requires |v| >= 2
    ensures Decipher(mx, Encipher(mx, v, q), q) == v
  {
    if q > 0 {
      RoundUndone(mx, Encipher(mx, v, q - 1), |v|, Wrap32(q * DELTA));
      CipherUndone(mx, v, q - 1);
    }
  }

  /** DELTA is odd, so its multiples vanish mod 2^32 only with the multiplier: the loop that
      counts the sum down to zero runs exactly as many rounds as it was started for. */
  lemma DeltaMultiples(j: int)
    ensures Wrap32(j * DELTA) == 0 <==> j % 0x1_0000_0000 == 0
  {
    hide Wrap32;
    VanishesOnlyWith(j);
    VanishesWith(j);
  }

  lemma VanishesOnlyWith(j: int)
    ensures Wrap32(j * DELTA) == 0 ==> j % 0x1_0000_0000 == 0
  {
    var inverse, excess := 0x144cbc89, 210485888;
    if Wrap32(j * DELTA) == 0 {
      var k := MultipleOf(j * DELTA);
      Multiple(j, k * inverse - j * excess);
    }
  }

  lemma VanishesWith(j: int)
    ensures j % 0x1_0000_0000 == 0 ==> Wrap32(j * DELTA) == 0
  {
    if j % 0x1_0000_0000 == 0 {
      var k := MultipleOf(j);
      Multiple(j * DELTA, k * DELTA);
    }
  }

  lemma MultipleOf(x: int) returns (t: int)
    requires x % 0x1_0000_0000 == 0
    ensures x == 0x1_0000_0000 * t
  {
    t := x / 0x1_0000_0000;
  }

  lemma Multiple(x: int, t: int)
    requires x == 0x1_0000_0000 * t
    ensures x % 0x1_0000_0000 == 0
  {
  }

  lemma ModShift(x: int, k: int)
    ensures Wrap32(x - 0x1_0000_0000 * k) == Wrap32(x)
  {
  }

  lemma SumStep(j: nat)
    requires j > 0
    ensures Wrap32(Wrap32(j * DELTA) - DELTA) == Wrap32((j - 1) * DELTA)
  {
    var k := j * DELTA / 0x1_0000_0000;
    ModShift((j - 1) * DELTA, k);
    assert Wrap32(j * DELTA) - DELTA == (j - 1) * DELTA - 0x1_0000_0000 * k;
  }

  // ---- The word loop of DecodeTEA ----

  method DecipherWords(v: array<U32>, key: seq<U32>)
    requires |key| == 4 && 1 <= v.Length
    modifies v
    ensures v[..] == Decipher(MixerOf(key), old(v[..]), Rounds(v.Length))
  {
    hide RoundDown, Rounds, Mx;
    var mx := MixerOf(key);
    var n := v.Length;
    ghost var start := v[..];
    var q := Rounds(n);
    var sum := Wrap32(q * DELTA);
    ghost var j: nat := q;
    while sum != 0
      invariant j <= q && sum == Wrap32(j * DELTA)
      invariant Decipher(mx, v[..], j) == Decipher(mx, start, q)
      decreases j
    {
      RoundInPlace(v, mx, sum);
      SumStep(j);
      sum := Wrap32(sum - DELTA);
      j := j - 1;
    }
    DeltaMultiples(j);
  }

  /** One turn of the outer loop: from the last word down to the first, each reduced by the
      mixing term of its neighbours as they are by then. */
  method RoundInPlace(v: array<U32>, mx: Mixer, sum: U32)
    requires 1 <= v.Length
    modifies v
    ensures v[..] == RoundDown(mx, old(v[..]), v.Length, sum)
  {
    var n := v.Length;
    ghost var start := v[..];
    var y := v[0];
    var p := n - 1;
    while p > 0
      invariant 0 <= p < n && y == v[if p == n - 1 then 0 else p + 1]
      invariant RoundDown(mx, v[..], p + 1, sum) == RoundDown(mx, start, n, sum)
    {
      var z := v[p - 1];
      ghost var before := v[..];
      v[p] := Wrap32(v[p] - mx(z, y, sum, p));
      y := v[p];
      assert v[..] == StepDown(mx, before, p, sum);
      p := p - 1;
    }
    var z := v[n - 1];
    ghost var before := v[..];
    v[0] := Wrap32(v[0] - mx(z, y, sum, 0));
    assert v[..] == StepDown(mx, before, 0, sum);
  }

  // ---- DecodeTEA around the word loop ----

  /** HEX2BIN. */
  function HexDigit(c: Byte): nat {
    if c / 0x40 % 2 == 1 then c % 16 + 9 else c % 16
  }

  predicate IsHex(c: Byte) {
    '0' as int <= c <= '9' as int || 'a' as int <= c <= 'f' as int || 'A' as int <= c <= 'F' as int
  }

  function HexByte(text: seq<Byte>, i: nat): Byte
    requires 2 * i + 1 < |text| && IsHex(text[2 * i]) && IsHex(text[2 * i + 1])
  {
    HexDigit(text[2 * i]) * 16 + HexDigit(text[2 * i + 1])
  }

  function LeWord(a: Byte, b: Byte, c: Byte, d: Byte): U32 {
    a as int + b as int * 0x100 + c as int * 0x1_0000 + d as int * 0x100_0000
  }

  predicate HexText(text: seq<Byte>) {
    |text| % 8 == 0 && forall i :: 0 <= i < |text| ==> IsHex(text[i])
  }

  function TextWord(text: seq<Byte>, i: nat): U32
    requires HexText(text) && 8 * i + 8 <= |text|
  {
    LeWord(HexByte(text, 4 * i), HexByte(text, 4 * i + 1), HexByte(text, 4 * i + 2), HexByte(text, 4 * i + 3))
  }

  /** The words a hex text stands for. */
  function TextWords(text: seq<Byte>): (w: seq<U32>)
    requires HexText(text)
    ensures |w| == |text| / 8
  {
    seq(|text| / 8, i requires 0 <= i < |text| / 8 => TextWord(text, i))
  }

  /** Byte i of a key that is cut after 16 bytes and padded with zeros. */
  function KeyByte(key: seq<Byte>, i: nat): Byte {
    if i < |key| && i < 16 then key[i] else 0
  }

  function KeyWord(key: seq<Byte>, i: nat): U32 {
    LeWord(KeyByte(key, 4 * i), KeyByte(key, 4 * i + 1), KeyByte(key, 4 * i + 2), KeyByte(key, 4 * i + 3))
  }

  function KeyWords(key: seq<Byte>): (k: seq<U32>)
    ensures |k| == 4
  {
    [KeyWord(key, 0), KeyWord(key, 1), KeyWord(key, 2), KeyWord(key, 3)]
  }

  function WordBytes(w: seq<U32>): seq<Byte> {
    if w == [] then [] else Le32(w[0]) + WordBytes(w[1..])
  }

  /** The key loop of DecodeTEA: at most 16 bytes, four to a word, lowest byte first. */
  method PackKey(key: seq<Byte>) returns (k: seq<U32>)
    ensures k == KeyWords(key)
  {
    hide KeyWord, PartWord, KeyByte, Shifted;
    k := [0, 0, 0, 0];
    var u: U32, n, at := 0, 0, 0;
    var i := 0;
    NoBytes(key, at);
    while i < |key| && i < 16
      invariant 0 <= i <= |key| && i <= 16 && i == 4 * at + n && 0 <= n < 4 && 0 <= at && |k| == 4
      invariant u == PartWord(key, at, n)
      invariant forall j :: 0 <= j < 4 ==> k[j] == if j < at then KeyWord(key, j) else 0
    {
      NextByte(key, at, n);
      u := u + Shifted(key[i], n);
      if n == 3 {
        WholeWord(key, at);
        k := k[at := u];
        u, n, at := 0, 0, at + 1;
        NoBytes(key, at);
      } else {
        n := n + 1;
      }
      i := i + 1;
    }
    BehindTheKey(key, at, n);
    if u != 0 {
      k := k[at := u];
    }
  }

  /** ptr[i] << (n * 8). */
  function Shifted(b: Byte, n: nat): int
    requires n < 4
  {
    if n == 0 then b
    else if n == 1 then b as int * 0x100
    else if n == 2 then b as int * 0x1_0000
    else b as int * 0x100_0000
  }

  /** The first n bytes of a key word. */
  function PartWord(key: seq<Byte>, at: nat, n: nat): (w: U32)
    requires n <= 4
    ensures n == 0 ==> w == 0
    ensures n == 1 ==> w < 0x100
    ensures n == 2 ==> w < 0x1_0000
    ensures n == 3 ==> w < 0x100_0000
  {
    if n == 0 then 0 else PartWord(key, at, n - 1) + Shifted(KeyByte(key, 4 * at + n - 1), n - 1)
  }

  lemma NoBytes(key: seq<Byte>, at: nat)
    ensures PartWord(key, at, 0) == 0
  {
  }

  lemma NextByte(key: seq<Byte>, at: nat, n: nat)
    requires n < 4 && 4 * at + n < |key| && 4 * at + n < 16
    ensures PartWord(key, at, n) + Shifted(key[4 * at + n], n) == PartWord(key, at, n + 1)
  {
  }

  lemma WholeWord(key: seq<Byte>, at: nat)
    ensures PartWord(key, at, 4) == KeyWord(key, at)
  {
    hide KeyByte;
    assert PartWord(key, at, 2) == KeyByte(key, 4 * at) as int + KeyByte(key, 4 * at + 1) as int * 0x100;
    assert PartWord(key, at, 3) == PartWord(key, at, 2) + KeyByte(key, 4 * at + 2) as int * 0x1_0000;
    assert PartWord(key, at, 4) == PartWord(key, at, 3) + KeyByte(key, 4 * at + 3) as int * 0x100_0000;
  }

  /** Behind the end of the key there are only zeros, so a word begun is as good as whole. */
  lemma BehindTheKey(key: seq<Byte>, at: nat, n: nat)
    requires n < 4 && 4 * at + n == Min(|key|, 16)
    ensures at < 4 ==> PartWord(key, at, n) == KeyWord(key, at)
    ensures at >= 4 ==> PartWord(key, at, n) == 0
    ensures forall j :: at < j < 4 ==> KeyWord(key, j) == 0
  {
    hide PartWord, KeyWord, KeyByte;
    if at < 4 {
      ZeroBytes(key, at, n);
      WholeWord(key, at);
    } else {
      NoBytes(key, at);
    }
    forall j | at < j < 4 ensures KeyWord(key, j) == 0 {
      ZeroBytes(key, j, 0);
      WholeWord(key, j);
      NoBytes(key, j);
    }
  }

  lemma ZeroBytes(key: seq<Byte>, at: nat, n: nat)
    requires n <= 4 && |key| <= 4 * at + n
    ensures PartWord(key, at, 4) == PartWord(key, at, n)
    decreases 4 - n
  {
    if n < 4 {
      assert KeyByte(key, 4 * at + n) == 0;
      ZeroBytes(key, at, n + 1);
    }
  }

  /** DecodeTEA on a hex text of whole words. */
  method DecodeTEA(key: seq<Byte>, text: seq<Byte>) returns (plain: seq<Byte>)
    requires HexText(text) && |text| > 0
    ensures plain == WordBytes(Decipher(MixerOf(KeyWords(key)), TextWords(text), Rounds(|text| / 8)))
  {
    hide Decipher, TextWord, Le32, Rounds, KeyWords;
    var n := |text| / 8;
    var out := new U32[n];
    var i := 0;
    while i < n
      invariant i <= n && forall k :: 0 <= k < i ==> out[k] == TextWord(text, k)
    {
      out[i] := TextWord(text, i);
      i := i + 1;
    }
    assert out[..] == TextWords(text);
    var k := PackKey(key);
    DecipherWords(out, k);
    plain := BytesOf(out[..]);
  }

  /** The copy of the words back into the text, lowest byte first. */
  method BytesOf(w: seq<U32>) returns (bytes: seq<Byte>)
    ensures bytes == WordBytes(w)
  {
    hide Le32;
    bytes := [];
    var i := 0;
    assert w[0..] == w;
    while i < |w|
      invariant i <= |w| && bytes + WordBytes(w[i..]) == WordBytes(w)
    {
      Assoc(bytes, Le32(w[i]), WordBytes(w[i + 1..]));
      assert w[i..][1..] == w[i + 1..];
      bytes := bytes + Le32(w[i]);
      i := i + 1;
    }
    assert bytes + [] == bytes;
  }

  function HexChar(d: nat): Byte
    requires d < 16
  {
    if d < 10 then '0' as int + d else 'a' as int + (d - 10)
  }

  /** The hex text of a sequence of words, lowest byte first. */
  function HexOf(w: seq<U32>): (text: seq<Byte>)
    ensures |text| == 8 * |w|
  {
    seq(8 * |w|, i requires 0 <= i < 8 * |w| =>
      var b := Le32(w[i / 8])[i % 8 / 2];
      HexChar(if i % 2 == 0 then b / 16 else b % 16))
  }

  lemma HexCharDecodes(d: nat)
    requires d < 16
    ensures IsHex(HexChar(d)) && HexDigit(HexChar(d)) == d
  {
  }

  lemma HexByteOf(w: seq<U32>, i: nat)
    requires i < 4 * |w|
    ensures var text := HexOf(w);
            IsHex(text[2 * i]) && IsHex(text[2 * i + 1]) && HexByte(text, i) == Le32(w[i / 4])[i % 4]
  {
    hide Le32, IsHex, HexDigit, HexChar;
    var b := Le32(w[i / 4])[i % 4];
    HexCharDecodes(b / 16);
    HexCharDecodes(b % 16);
  }

  lemma HexRoundTrip(w: seq<U32>)
    ensures HexText(HexOf(w)) && TextWords(HexOf(w)) == w
  {
    hide Le32, IsHex, HexDigit, HexChar, HexOf, HexByte, LeWord;
    var text := HexOf(w);
    forall i | 0 <= i < |text| ensures IsHex(text[i]) {
      HexByteOf(w, i / 2);
    }
    forall i | 0 <= i < |w| ensures TextWord(text, i) == w[i] {
      HexByteOf(w, 4 * i);
      HexByteOf(w, 4 * i + 1);
      HexByteOf(w, 4 * i + 2);
      HexByteOf(w, 4 * i + 3);
      LeWordOfBytes(w[i]);
    }
  }

  /** The order of the bytes in words, by examples: lowest first in hex text and in the key. */
  lemma HexExample()
    ensures var text: seq<Byte> := [0x37, 0x38, 0x35, 0x36, 0x33, 0x34, 0x31, 0x32];  // 78563412
            HexText(text) && TextWord(text, 0) == 0x12345678
    ensures HexDigit('9' as int) == 9 && HexDigit('a' as int) == 10 && HexDigit('F' as int) == 15
  {
    var text: seq<Byte> := [0x37, 0x38, 0x35, 0x36, 0x33, 0x34, 0x31, 0x32];
    assert HexByte(text, 0) == 0x78 && HexByte(text, 1) == 0x56;
    assert HexByte(text, 2) == 0x34 && HexByte(text, 3) == 0x12;
  }

  lemma KeyExample()
    ensures KeyWords([0x61, 0x62, 0x63, 0x64, 0x45]) == [0x64636261, 0x45, 0, 0]
  {
    var key: seq<Byte> := [0x61, 0x62, 0x63, 0x64, 0x45];
    assert KeyWord(key, 0) == 0x64636261 && KeyWord(key, 1) == 0x45;
  }

  lemma LeWordOfBytes(v: U32)
    ensures var b := Le32(v); LeWord(b[0], b[1], b[2], b[3]) == v
  {
    FourDigits(v);
  }

  /** Whoever holds the key and enciphers two or more words with as many rounds as DecodeTEA
      runs gets them back from the hex text. */
  lemma TokenRoundTrip(key: seq<Byte>, w: seq<U32>)
    requires |w| >= 2
    ensures var mx := MixerOf(KeyWords(key));
            var text := HexOf(Encipher(mx, w, Rounds(|w|)));
            HexText(text) && |text| / 8 == |w| &&
            Decipher(mx, TextWords(text), Rounds(|text| / 8)) == w
  {
    hide HexOf, HexText, TextWords;
    var mx := MixerOf(KeyWords(key));
    var c := Encipher(mx, w, Rounds(|w|));
    HexRoundTrip(c);
    CipherUndone(mx, w, Rounds(|w|));
  }
}
