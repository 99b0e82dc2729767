/** The AMF0 grammar of single values, and that AMFProp_Decode reads exactly what it generates.
    Sections 2.2 to 2.4, 2.7, 2.8 and 2.13 to 2.15 of Adobe's AMF0 specification. */
module AmfGrammar {
  import opened Bytes
  import opened Numbers
  import opened Amf0
  import opened AmfRoundTrip

  /** The bytes are one encoding of the value, its type first. A boolean is any byte, null has three
      types, and a short string may be encoded as a long one. */
  predicate Encodes(b: seq<Byte>, v: Value) {
    match v
    case Num(bits) => b == [0] + bits
    case Bool(x) => |b| == 2 && b[0] == 1 && (x <==> b[1] != 0)
    case Str(s) =>
      (|s| < 0x1_0000 && b == [2] + Be16(|s|) + s) || (|s| < 0x1_0000_0000 && b == [12] + Be32(|s|) + s)
    case Null => b == [5] || b == [6] || b == [13]
    case Date(time, offset) => 0 <= offset < 0x1_0000 && b == [11] + time + Be16(offset)
    case _ => false
  }

  /** AMFProp_Decode without a name gives a value exactly when the bytes begin with an encoding of
      it, of the length it consumes. */
  lemma ValueExactly(s: seq<Byte>, v: Value, n: nat)
    requires !v.Obj?
    ensures DecodeProp(s, false) == Ok(Prop([], v), n) <==> n <= |s| && Encodes(s[..n], v)
  {
    hide DecodeProps, DecodeScalar, Encodes;
    if n <= |s| {
      NotEmpty(s[..n], v);
    }
    if s != [] && s[0] != OBJECT && 0 < n <= |s| {
      ScalarExactly(s[0], s[1..], v, n);
      assert s[..n] == [s[0]] + s[1..][..n - 1];
    }
  }

  lemma NotEmpty(b: seq<Byte>, v: Value)
    ensures Encodes(b, v) ==> b != [] && b[0] != OBJECT
  {
  }

  /** With a name, the same behind length and characters of the name, if there are at least four
      bytes: three, for null under the empty name, are refused. */
  lemma NamedExactly(s: seq<Byte>, name: seq<Byte>, v: Value, n: nat)
    requires !v.Obj?
    ensures DecodeProp(s, true) == Ok(Prop(name, v), n) <==> IsNamed(s, name, v, n)
  {
    hide DecodeProp, IsNamed;
    if DecodeProp(s, true) == Ok(Prop(name, v), n) { NamedRead(s, name, v, n); }
    if IsNamed(s, name, v, n) { NamedWritten(s, name, v, n); }
  }

  /** The first n of at least four bytes are this name, behind its length, and an encoding of the value. */
  predicate IsNamed(s: seq<Byte>, name: seq<Byte>, v: Value, n: nat) {
    4 <= |s| && |name| < 0x1_0000 && 2 + |name| <= n <= |s| && s[..2 + |name|] == Be16(|name|) + name &&
    Encodes(s[2 + |name|..n], v)
  }

  lemma NamedRead(s: seq<Byte>, name: seq<Byte>, v: Value, n: nat)
    requires !v.Obj? && DecodeProp(s, true) == Ok(Prop(name, v), n)
    ensures IsNamed(s, name, v, n)
  {
    hide DecodeProp, Encodes, Be16, Dec16;
    if |s| < 4 { TooShort(s); }
    NamedIs(s);
    NameExactly(s, name);
    var k := 2 + Dec16(s);
    ValueExactly(s[k..], v, n - k);
    SubDrop(s, k, 0, n - k);
  }

  lemma NamedWritten(s: seq<Byte>, name: seq<Byte>, v: Value, n: nat)
    requires !v.Obj? && IsNamed(s, name, v, n)
    ensures DecodeProp(s, true) == Ok(Prop(name, v), n)
  {
    hide DecodeProp, Encodes, Be16, Dec16;
    NamedIs(s);
    NameExactly(s, name);
    var k := 2 + |name|;
    NotEmpty(s[k..n], v);
    ValueExactly(s[k..], v, n - k);
    SubDrop(s, k, 0, n - k);
  }

  lemma TooShort(s: seq<Byte>)
    requires |s| < 4
    ensures DecodeProp(s, true).Fail?
  {
  }

  /** A named property is a name and an unnamed one. */
  lemma NamedIs(s: seq<Byte>)
    requires |s| >= 4
    ensures var k := 2 + Dec16(s);
            DecodeProp(s, true) ==
            if k >= |s| then Fail
            else
              match DecodeProp(s[k..], false)
              case Ok(p, used) => Ok(Prop(s[2..k], p.value), k + used)
              case Fail => Fail
              case Outside => Outside
    ensures var k := 2 + Dec16(s);
            k < |s| && DecodeProp(s[k..], false).Ok? ==> DecodeProp(s[k..], false).value.name == []
  {
    hide DecodeProps, DecodeScalar, Dec16;
    var k := 2 + Dec16(s);
    if k < |s| {
      assert s[k..][1..] == s[k + 1..];
    }
  }

  lemma NameExactly(s: seq<Byte>, name: seq<Byte>)
    requires |s| >= 2
    ensures |name| < 0x1_0000 && 2 + |name| <= |s| && s[..2 + |name|] == Be16(|name|) + name <==>
            Dec16(s) == |name| && 2 + Dec16(s) <= |s| && s[2..2 + Dec16(s)] == name
  {
    if Dec16(s) == |name| && 2 + |name| <= |s| {
      Be16Dec16(s);
      assert s[..2 + |name|] == s[..2] + s[2..2 + |name|];
    }
    if |name| < 0x1_0000 && 2 + |name| <= |s| && s[..2 + |name|] == Be16(|name|) + name {
      assert s == Be16(|name|) + (name + s[2 + |name|..]);
      Dec16Be16(|name|, name + s[2 + |name|..]);
      assert s[..2 + |name|][2..] == name;
    }
  }

  lemma Be16Dec16(s: seq<Byte>)
    requires |s| >= 2
    ensures Be16(Dec16(s)) == s[..2]
  {
  }

  /** The part behind the type byte. */
  lemma ScalarExactly(t: Byte, s: seq<Byte>, v: Value, n: nat)
    requires t != OBJECT && 0 < n <= |s| + 1
    ensures DecodeScalar(t, s) == Ok(v, n - 1) <==> Encodes([t] + s[..n - 1], v)
  {
    hide Be16, Be32, Dec16, Dec32;
    var b := [t] + s[..n - 1];
    assert b[0] == t && |b| == n && b[1..] == s[..n - 1] && (n == 1 ==> b == [t]);
    match v {
      case Num(bits) => assert ([NUMBER] + bits)[1..] == bits && |[NUMBER] + bits| == 9;
      case Bool(_) =>
      case Null =>
      case Str(x) =>
        if Encodes(b, v) { StringRead(t, s, x, n); }
        if DecodeScalar(t, s) == Ok(v, n - 1) { StringWritten(t, s, x, n); }
      case Date(time, offset) => DateExactly(t, s, time, offset, n);
      case _ =>
    }
  }

  lemma Behind(t: Byte, x: seq<Byte>, y: seq<Byte>, z: seq<Byte>)
    ensures ([t] + x + y)[1..] == x + y && x + y + z == x + (y + z)
  {
  }

  lemma StringRead(t: Byte, s: seq<Byte>, x: seq<Byte>, n: nat)
    requires 0 < n <= |s| + 1 && Encodes([t] + s[..n - 1], Str(x))
    ensures DecodeScalar(t, s) == Ok(Str(x), n - 1)
  {
    hide Be16, Be32, Dec16, Dec32;
    var b, r := [t] + s[..n - 1], s[n - 1..];
    assert b[1..] == s[..n - 1] && s == b[1..] + r && b[0] == t;
    if |x| < 0x1_0000 && b == [2] + Be16(|x|) + x {
      Behind(2, Be16(|x|), x, r);
      Dec16Be16(|x|, x + r);
    } else {
      Behind(12, Be32(|x|), x, r);
      Dec32Be32(|x|, x + r);
    }
  }

  lemma StringWritten(t: Byte, s: seq<Byte>, x: seq<Byte>, n: nat)
    requires 0 < n <= |s| + 1 && DecodeScalar(t, s) == Ok(Str(x), n - 1)
    ensures Encodes([t] + s[..n - 1], Str(x))
  {
    hide Be16, Be32, Dec16, Dec32;
    var k := if t == STRING then 2 else 4;
    Split(s, 0, k, n - 1);
    assert s[0..k] == s[..k] && s[0..n - 1] == s[..n - 1];
    if t == STRING {
      Be16Dec16(s);
      Assoc([t], Be16(|x|), x);
    } else {
      FirstFour(s);
      Assoc([t], Be32(|x|), x);
    }
  }

  lemma FirstFour(s: seq<Byte>)
    requires |s| >= 4
    ensures Be32(Dec32(s)) == s[..4]
  {
    hide Be32;
    assert Dec32(s) == Dec32(s[..4]);
    Be32Dec32(s[..4]);
  }

  lemma DateExactly(t: Byte, s: seq<Byte>, time: Number, offset: int, n: nat)
    requires 0 < n <= |s| + 1
    ensures DecodeScalar(t, s) == Ok(Date(time, offset), n - 1) <==> Encodes([t] + s[..n - 1], Date(time, offset))
  {
    hide Be16, Dec16;
    var b, r := [t] + s[..n - 1], s[n - 1..];
    assert b[1..] == s[..n - 1] && s == b[1..] + r && b[0] == t;
    if Encodes(b, Date(time, offset)) {
      Behind(11, time, Be16(offset), r);
      DropPrefix(time, Be16(offset) + r);
      Dec16Be16(offset, r);
    }
    if DecodeScalar(t, s) == Ok(Date(time, offset), n - 1) {
      Be16Dec16(s[8..]);
      assert s[..10] == s[..8] + s[8..][..2];
      Assoc([t], time, Be16(offset));
    }
  }

  /** The encoders write one of these encodings, and refuse a value for lack of room alone: a short
      string when two bytes more than its encoding are not there, null when one more is not. */
  lemma EncoderWrites(v: Value, room: int)
    requires !v.Obj? && !v.Date? && !v.Invalid? && (v.Str? ==> |v.s| < 0x1_0000_0000)
    ensures FitScalar(v, room).Some? ==> Encodes(FitScalar(v, room).value, v)
    ensures v.Num? ==> (FitScalar(v, room).Some? <==> 9 <= room)
    ensures v.Bool? ==> (FitScalar(v, room).Some? <==> 2 <= room)
    ensures v.Null? ==> (FitScalar(v, room).Some? <==> 1 + 1 <= room)
    ensures v.Str? ==>
      (FitScalar(v, room).Some? <==> |StringBytes(v.s)| + (if |v.s| < 0x1_0000 then 2 else 0) <= room)
  {
    hide Be16, Be32;
  }

  /** AMFProp_Encode puts the name of a property in front of its value, except that null loses its name
      and an empty name leaves no trace. */
  lemma PropertyWrites(p: Prop, room: int)
    requires !p.value.Obj? && FitProp(p, room).Some?
    ensures var b := FitProp(p, room).value.0;
            if p.value.Null? then b == [5]
            else if p.name == [] then FitScalar(p.value, room) == Some(b)
            else
              var k := 2 + |p.name|;
              k <= |b| && b[..k] == Be16(|p.name|) + p.name && FitScalar(p.value, room - k) == Some(b[k..])
  {
    hide Be16, FitScalar;
    NullWrites(room);
    assert p.name == [] || p.value.Null? ==> [] + FitScalar(p.value, room).value == FitScalar(p.value, room).value;
    if p.name != [] && !p.value.Null? {
      var name, b := Be16(|p.name|) + p.name, FitProp(p, room).value.0;
      assert b == name + FitScalar(p.value, room - |name|).value;
      DropPrefix(name, FitScalar(p.value, room - |name|).value);
    }
  }

  lemma NullWrites(room: int)
    ensures FitScalar(Null, room).Some? ==> FitScalar(Null, room).value == [5]
  {
  }

  // ---- Values one after the other, as in an invoke ----

  function Concat(parts: seq<seq<Byte>>): seq<Byte> {
    if parts == [] then [] else parts[0] + Concat(parts[1..])
  }

  function Unnamed(vs: seq<Value>): (ps: seq<Prop>)
    ensures |ps| == |vs|
  {
    seq(|vs|, i requires 0 <= i < |vs| => Prop([], vs[i]))
  }

  predicate AllEncode(parts: seq<seq<Byte>>, vs: seq<Value>) {
    |parts| == |vs| && forall i :: 0 <= i < |vs| ==> !vs[i].Obj? && Encodes(parts[i], vs[i])
  }

  /** A number whose encoding begins 00 00 09. */
  predicate LooksLikeEnd(v: Value) {
    v.Num? && v.bits[0] == 0 && v.bits[1] == 9
  }

  lemma MarkerInFront(b: seq<Byte>, v: Value, rest: seq<Byte>)
    requires !v.Obj? && Encodes(b, v)
    ensures AtMarker(b + rest) <==> LooksLikeEnd(v)
  {
    hide Be16, Be32;
    var s := b + rest;
    assert s[0] == b[0] && (|b| >= 3 ==> s[1] == b[1] && s[2] == b[2]);
  }

  /** Values without names decode to themselves and nothing else, to the last byte, if and only if no
      number among them looks like the end marker. */
  lemma {:induction false} ValuesDecode(parts: seq<seq<Byte>>, vs: seq<Value>)
    requires AllEncode(parts, vs)
    ensures DecodeProps(Concat(parts), false, false) == Ok(Unnamed(vs), |Concat(parts)|) <==>
            forall i :: 0 <= i < |vs| ==> !LooksLikeEnd(vs[i])
    decreases |vs|
  {
    hide Encodes, DecodeProp, AtMarker, LooksLikeEnd;
    if vs != [] {
      var b, rest := parts[0], Concat(parts[1..]);
      NotEmpty(b, vs[0]);
      MarkerInFront(b, vs[0], rest);
      DropPrefix(b, rest);
      ValueExactly(b + rest, vs[0], |b|);
      ValuesDecode(parts[1..], vs[1..]);
      assert Unnamed(vs) == [Prop([], vs[0])] + Unnamed(vs[1..]);
      FirstOrLater(vs);
      NextValue(b + rest, Prop([], vs[0]), |b|, rest, Unnamed(vs[1..]), |rest|);
    }
  }

  lemma FirstOrLater(vs: seq<Value>)
    requires vs != []
    ensures (forall i :: 0 <= i < |vs| ==> !LooksLikeEnd(vs[i])) <==>
            !LooksLikeEnd(vs[0]) && forall i :: 0 <= i < |vs[1..]| ==> !LooksLikeEnd(vs[1..][i])
  {
    hide LooksLikeEnd;
    if !LooksLikeEnd(vs[0]) && forall i :: 0 <= i < |vs[1..]| ==> !LooksLikeEnd(vs[1..][i]) {
      forall i | 0 <= i < |vs| ensures !LooksLikeEnd(vs[i]) {
        if i > 0 { assert vs[i] == vs[1..][i - 1]; }
      }
    }
  }

  lemma NextValue(s: seq<Byte>, p: Prop, n: nat, rest: seq<Byte>, ps: seq<Prop>, more: nat)
    requires DecodeProp(s, false) == Ok(p, n) && s[n..] == rest
    ensures DecodeProps(s, false, false) == Ok([p] + ps, n + more) <==>
            !AtMarker(s) && DecodeProps(rest, false, false) == Ok(ps, more)
  {
    hide DecodeProp, AtMarker;
    var r := DecodeProps(rest, false, false);
    if r.Ok? && [p] + r.value == [p] + ps {
      assert r.value == ([p] + r.value)[1..] == ([p] + ps)[1..] == ps;
    }
  }
}
