/** AMF numbers: IEEE 754 doubles in network order, kept as their 8 bytes. Only the integers
    used as transaction ids and stream ids are given a meaning. */
module Numbers {
  import opened Bytes
  import opened Arith

  type Number = s: seq<Byte> | |s| == 8 witness [0, 0, 0, 0, 0, 0, 0, 0]

  const MAX_INT: int := 0x7fff_ffff
  const TWO52: int := 0x10_0000_0000_0000

  function Pow2(e: nat): (p: nat)
    ensures p >= 1
  {
    if e == 0 then 1 else 2 * Pow2(e - 1)
  }

  /** The position of the highest set bit. */
  function Exponent(n: nat): (e: nat)
    requires n > 0
    ensures Pow2(e) <= n < 2 * Pow2(e)
  {
    if n == 1 then 0 else Exponent(n / 2) + 1
  }

  function Be64(v: nat): (s: Number)
    requires v < 0x1_0000_0000_0000_0000
  {
    Be32(v / 0x1_0000_0000) + Be32(v % 0x1_0000_0000)
  }

  function Dec64(s: Number): (v: nat)
    ensures v < 0x1_0000_0000_0000_0000
  {
    Dec32(s) as int * 0x1_0000_0000 + Dec32(s[4..])
  }

  /** The double that equals a non-negative int. */
  function NumberOfInt(n: nat): Number
    requires n <= MAX_INT
  {
    if n == 0 then [0, 0, 0, 0, 0, 0, 0, 0]
    else
      IntExponentSmall(n);
      var e := Exponent(n);
      SignificandFits(n, e);
      Be64((1023 + e) * TWO52 + (n - Pow2(e)) * Pow2(52 - e))
  }

  /** The cast (int): truncation toward zero, saturating outside the range of int. */
  function IntOfNumber(x: Number): int {
    var bits := Dec64(x);
    var sign, ex, m := bits / 0x8000_0000_0000_0000, bits / TWO52 % 2048, bits % TWO52;
    if ex < 1023 then 0
    else if ex > 1053 then (if ex == 2047 && m != 0 then 0 else if sign == 1 then -MAX_INT - 1 else MAX_INT)
    else
      var magnitude := (TWO52 + m) / Pow2(1075 - ex);
      if sign == 1 then -magnitude else magnitude
  }

  lemma {:induction false} Pow2Adds(a: nat, b: nat)
    ensures Pow2(a + b) == Pow2(a) * Pow2(b)
  {
    if a > 0 {
      Pow2Adds(a - 1, b);
    }
  }

  lemma {:induction false} Pow2Grows(a: nat, b: nat)
    requires a <= b
    ensures Pow2(a) <= Pow2(b)
  {
    if a < b {
      Pow2Grows(a, b - 1);
    }
  }

  lemma Pow2Constants()
    ensures Pow2(31) == 0x8000_0000 && Pow2(52) == TWO52
  {
    assert Pow2(8) == 0x100;
    Pow2Adds(8, 8);
    Pow2Adds(16, 8);
    assert Pow2(7) == 0x80;
    Pow2Adds(24, 7);
    Pow2Adds(24, 8);
    Pow2Adds(32, 16);
    assert Pow2(4) == 16;
    Pow2Adds(48, 4);
  }

  lemma IntExponentSmall(n: nat)
    requires 0 < n <= MAX_INT
    ensures Exponent(n) <= 30
  {
    var e := Exponent(n);
    Pow2Constants();
    if e >= 31 {
      Pow2Grows(31, e);
    }
  }

  lemma Scale(n: nat, p: nat, q: nat)
    requires p <= n < 2 * p && q >= 1
    ensures 0 <= (n - p) * q < p * q
    ensures p * q + (n - p) * q == n * q
  {
    Distrib(n, p, q);
    if n > p {
      MulGe(n - p, q);
    }
    Distrib(p, n - p, q);
    MulGe(p - (n - p), q);
  }

  lemma SignificandFits(n: nat, e: nat)
    requires e <= 30 && Pow2(e) <= n < 2 * Pow2(e)
    ensures 0 <= (n - Pow2(e)) * Pow2(52 - e) < TWO52
    ensures TWO52 + (n - Pow2(e)) * Pow2(52 - e) == n * Pow2(52 - e)
    ensures (1023 + e) * TWO52 + (n - Pow2(e)) * Pow2(52 - e) < 0x8000_0000_0000_0000
  {
    Pow2Constants();
    Pow2Adds(e, 52 - e);
    Scale(n, Pow2(e), Pow2(52 - e));
  }

  lemma Dec64Be64(v: nat)
    requires v < 0x1_0000_0000_0000_0000
    ensures Dec64(Be64(v)) == v
  {
    hide Be32, Dec32;
    var hi, lo := v / 0x1_0000_0000, v % 0x1_0000_0000;
    Dec32Be32(hi, Be32(lo));
    Dec32Be32(lo, []);
    assert Be64(v)[4..] == Be32(lo) + [];
  }

  lemma IntOfFields(x: Number, ex: nat, m: nat, n: nat, q: nat)
    requires 1023 <= ex <= 1053 && m < TWO52 && Dec64(x) == ex * TWO52 + m
    requires q == Pow2(1075 - ex) && TWO52 + m == n * q
    ensures IntOfNumber(x) == n
  {
    hide Dec64, Pow2;
    var bits := Dec64(x);
    DivUnique(bits, TWO52, ex, m);
    assert bits / 0x8000_0000_0000_0000 == 0;
    DivUnique(n * q, q, n, 0);
  }

  /** A transaction id or stream id survives the trip through a double. */
  lemma IntRoundTrip(n: nat)
    requires n <= MAX_INT
    ensures IntOfNumber(NumberOfInt(n)) == n
  {
    hide Dec64, Be64, Pow2, IntOfNumber;
    if n > 0 {
      IntExponentSmall(n);
      var e := Exponent(n);
      SignificandFits(n, e);
      var m := (n - Pow2(e)) * Pow2(52 - e);
      Dec64Be64((1023 + e) * TWO52 + m);
      IntOfFields(NumberOfInt(n), 1023 + e, m, n, Pow2(52 - e));
    } else {
      ZeroIsZero();
    }
  }

  /** And the double is that int, not merely one near it: significand times power of two, no sign. */
  lemma NumberEquals(n: nat)
    requires 0 < n <= MAX_INT
    ensures var bits := Dec64(NumberOfInt(n));
            var ex, m := bits / TWO52, bits % TWO52;
            1023 <= ex <= 1075 && TWO52 + m == n * Pow2(1075 - ex)
  {
    hide Dec64, Be64, Pow2, Exponent;
    IntExponentSmall(n);
    var e := Exponent(n);
    SignificandFits(n, e);
    var m := (n - Pow2(e)) * Pow2(52 - e);
    Dec64Be64((1023 + e) * TWO52 + m);
    assert NumberOfInt(n) == Be64((1023 + e) * TWO52 + m);
    DivUnique((1023 + e) * TWO52 + m, TWO52, 1023 + e, m);
  }

  lemma ZeroIsZero()
    ensures IntOfNumber([0, 0, 0, 0, 0, 0, 0, 0]) == 0
  {
    assert Dec64([0, 0, 0, 0, 0, 0, 0, 0]) == 0;
  }
}
