/** What AMF_Encode writes, AMFProp_Decode reads back: the object, or the object with every
    level cut to the properties that fitted. And what a decoding error amounts to. */
module AmfRoundTrip {
  import opened Bytes
  import opened Numbers
  import opened Amf0

  /** Objects the encoder can express: named numbers, booleans, strings and objects. */
  predicate Plain(v: Value) {
    match v
    case Num(_) => true
    case Bool(_) => true
    case Str(s) => |s| < 0x8000_0000
    case Obj(ps) => PlainProps(ps)
    case _ => false
  }

  predicate PlainProps(ps: seq<Prop>) {
    forall i :: 0 <= i < |ps| ==> 0 < |ps[i].name| < 0x1_0000 && Plain(ps[i].value)
  }

  /** k is v with every level cut to a prefix of its properties. */
  predicate Cut(k: Value, v: Value)
    decreases v, 0
  {
    if v.Obj? then k.Obj? && CutProps(k.props, v.props) else k == v
  }

  predicate CutProps(ks: seq<Prop>, ps: seq<Prop>)
    decreases ps, 1
  {
    |ks| <= |ps| && forall i :: 0 <= i < |ks| ==> ks[i].name == ps[i].name && Cut(ks[i].value, ps[i].value)
  }

  // ---- The encoder stays inside its room ----

  lemma {:induction false} PropFits(p: Prop, room: int)
    requires FitProp(p, room).Some?
    ensures |FitProp(p, room).value.0| <= room
    decreases p, 0
  {
    if p.value.Obj? {
      ObjectFits(p.value.props, room - |NameBytes(p)|);
    }
  }

  lemma {:induction false} PropsFit(ps: seq<Prop>, room: int)
    requires room >= 0
    ensures |FitProps(ps, room).0| <= room
    decreases ps, 0
  {
    if ps != [] && FitProp(ps[0], room).Some? {
      PropFits(ps[0], room);
      PropsFit(ps[1..], room - |FitProp(ps[0], room).value.0|);
    }
  }

  /** A non-NULL AMF_Encode result lies strictly inside the buffer. */
  lemma {:induction false} ObjectFits(ps: seq<Prop>, room: int)
    requires FitObject(ps, room).Some?
    ensures |FitObject(ps, room).value.0| < room
    decreases ps, 1
  {
    PropsFit(ps, room - 1);
  }

  // ---- What is kept is the object cut at each level ----

  lemma {:induction false} KeptPropIsCut(p: Prop, room: int)
    requires FitProp(p, room).Some?
    ensures var q := FitProp(p, room).value.1; q.name == p.name && Cut(q.value, p.value)
    decreases p, 0
  {
    if p.value.Obj? {
      KeptObjectIsCut(p.value.props, room - |NameBytes(p)|);
    }
  }

  lemma {:induction false} KeptIsCut(ps: seq<Prop>, room: int)
    ensures CutProps(FitProps(ps, room).1, ps)
    decreases ps, 0
  {
    if ps != [] && FitProp(ps[0], room).Some? {
      KeptPropIsCut(ps[0], room);
      KeptIsCut(ps[1..], room - |FitProp(ps[0], room).value.0|);
    }
  }

  lemma {:induction false} KeptObjectIsCut(ps: seq<Prop>, room: int)
    requires FitObject(ps, room).Some?
    ensures CutProps(FitObject(ps, room).value.1, ps)
    decreases ps, 1
  {
    KeptIsCut(ps, room - 1);
  }

  /** And it is cut no earlier than it must be: the first property that is missing did not fit into
      what the others left. */
  lemma {:induction false} LongestPrefix(ps: seq<Prop>, room: int)
    ensures var (b, kept) := FitProps(ps, room);
            |kept| <= |ps| && (|kept| < |ps| ==> FitProp(ps[|kept|], room - |b|).None?)
    decreases ps, 0
  {
    hide FitProp;
    if ps != [] && FitProp(ps[0], room).Some? {
      LongestPrefix(ps[1..], room - |FitProp(ps[0], room).value.0|);
    }
  }

  // ---- The decoder reads back what was written ----

  lemma DecodesString(s: seq<Byte>, rest: seq<Byte>)
    requires |s| < 0x8000_0000
    ensures var b := StringBytes(s);
            DecodeScalar(b[0], b[1..] + rest) == Ok(Str(s), |b| - 1)
  {
    hide Be16, Be32, Dec16, Dec32;
    var b := StringBytes(s);
    if |s| < 0x1_0000 {
      Dec16Be16(|s|, s + rest);
      assert b[1..] + rest == Be16(|s|) + (s + rest);
    } else {
      Dec32Be32(|s|, s + rest);
      assert b[1..] + rest == Be32(|s|) + (s + rest);
    }
  }

  lemma DecodesScalar(v: Value, room: int, rest: seq<Byte>)
    requires Plain(v) && !v.Obj? && FitScalar(v, room).Some?
    ensures var b := FitScalar(v, room).value;
            b != [] && b[0] != OBJECT && DecodeScalar(b[0], b[1..] + rest) == Ok(v, |b| - 1)
  {
    match v {
      case Str(s) => DecodesString(s, rest);
      case Num(bits) =>
        var b := FitScalar(v, room).value;
        assert (b[1..] + rest)[..8] == bits;
      case Bool(_) =>
    }
  }

  lemma NameDecodes(name: seq<Byte>, rest: seq<Byte>)
    requires |name| < 0x1_0000
    ensures var s := Be16(|name|) + name + rest;
            Dec16(s) == |name| && s[2..2 + |name|] == name && s[2 + |name|..] == rest
  {
    assert Be16(|name|) + name + rest == Be16(|name|) + (name + rest);
    Dec16Be16(|name|, name + rest);
  }

  /** A name, a type byte and a value make up a property. */
  lemma DecodesNamed(name: seq<Byte>, v: Value, b: seq<Byte>, rest: seq<Byte>)
    requires 0 < |name| < 0x1_0000 && |b| > 0
    requires v.Obj? ==> b[0] == OBJECT && DecodeProps(b[1..] + rest, true, false) == Ok(v.props, |b| - 1)
    requires !v.Obj? ==> b[0] != OBJECT && DecodeScalar(b[0], b[1..] + rest) == Ok(v, |b| - 1)
    ensures var s := Be16(|name|) + name + b + rest;
            DecodeProp(s, true) == Ok(Prop(name, v), 2 + |name| + |b|) && !AtMarker(s)
  {
    hide DecodeProps, DecodeScalar, Be16;
    var s := Be16(|name|) + name + b + rest;
    assert s == Be16(|name|) + name + (b + rest);
    NameDecodes(name, b + rest);
    assert s[2 + |name| + 1..] == b[1..] + rest;
    NotAtMarker(s);
  }

  lemma NotAtMarker(s: seq<Byte>)
    requires |s| >= 2 && Dec16(s) > 0
    ensures !AtMarker(s)
  {
  }

  /** A named property followed by anything is decoded to what was encoded and no more is consumed. */
  lemma {:induction false} DecodesProp(p: Prop, room: int, rest: seq<Byte>)
    requires FitProp(p, room).Some? && 0 < |p.name| < 0x1_0000 && Plain(p.value)
    ensures var (b, q) := FitProp(p, room).value;
            DecodeProp(b + rest, true) == Ok(q, |b|) && !AtMarker(b + rest)
    decreases p, 0
  {
    hide DecodeProp, DecodeProps, DecodeScalar, AtMarker, FitScalar, Be16;
    var name := NameBytes(p);
    assert name == Be16(|p.name|) + p.name;
    if p.value.Obj? {
      DecodesObject(p.value.props, room - |name|, rest);
      var (o, kept) := FitObject(p.value.props, room - |name|).value;
      DecodesNamed(p.name, Obj(kept), o, rest);
      assert FitProp(p, room).value == (name + o, p.(value := Obj(kept)));
    } else {
      DecodesScalar(p.value, room - |name|, rest);
      var v := FitScalar(p.value, room - |name|).value;
      DecodesNamed(p.name, p.value, v, rest);
      assert FitProp(p, room).value == (name + v, p);
    }
  }

  lemma DecodeStep(b: seq<Byte>, q: Prop, tail: seq<Byte>, qs: seq<Prop>, used: nat)
    requires DecodeProp(b + tail, true) == Ok(q, |b|) && !AtMarker(b + tail) && |b| > 0
    requires DecodeProps(tail, true, false) == Ok(qs, used)
    ensures DecodeProps(b + tail, true, false) == Ok([q] + qs, |b| + used)
  {
    hide DecodeProp, AtMarker;
    DropPrefix(b, tail);
  }

  lemma DecodeEnd(rest: seq<Byte>)
    ensures DecodeProps(END_MARKER + rest, true, false) == Ok([], 3)
  {
    assert (END_MARKER + rest)[..3] == END_MARKER;
  }

  lemma {:induction false} DecodesProps(ps: seq<Prop>, room: int, rest: seq<Byte>)
    requires PlainProps(ps)
    ensures var (b, qs) := FitProps(ps, room);
            DecodeProps(b + (END_MARKER + rest), true, false) == Ok(qs, |b| + 3)
    decreases ps, 0
  {
    hide DecodeProp, DecodeProps, AtMarker, FitProp;
    var (b, qs) := FitProps(ps, room);
    if ps == [] || FitProp(ps[0], room).None? {
      DecodeEnd(rest);
      assert b + (END_MARKER + rest) == END_MARKER + rest;
    } else {
      var (b0, q) := FitProp(ps[0], room).value;
      var (bs, qs1) := FitProps(ps[1..], room - |b0|);
      var tail := bs + (END_MARKER + rest);
      DecodesProp(ps[0], room, tail);
      DecodesProps(ps[1..], room - |b0|, rest);
      Assoc(b0, bs, END_MARKER + rest);
      DecodeStep(b0, q, tail, qs1, |bs| + 3);
    }
  }

  /** The body of an encoded object, behind the object marker. */
  lemma {:induction false} DecodesObject(ps: seq<Prop>, room: int, rest: seq<Byte>)
    requires PlainProps(ps) && FitObject(ps, room).Some?
    ensures var (b, qs) := FitObject(ps, room).value;
            b[0] == OBJECT && DecodeProps(b[1..] + rest, true, false) == Ok(qs, |b| - 1)
    decreases ps, 1
  {
    hide DecodeProps, FitProps;
    var (b, _) := FitObject(ps, room).value;
    var body := FitProps(ps, room - 1).0;
    DecodesProps(ps, room - 1, rest);
    assert b[1..] + rest == body + (END_MARKER + rest);
  }

  /** AMF0 round trip with truncation: whatever room the encoder had and whatever follows, an
      encoded object decodes to the object cut at each level, consuming exactly its bytes. */
  lemma RoundTrip(ps: seq<Prop>, room: int, rest: seq<Byte>)
    requires PlainProps(ps) && FitObject(ps, room).Some?
    ensures var (b, kept) := FitObject(ps, room).value;
            |b| < room && DecodeProp(b + rest, false) == Ok(Prop([], Obj(kept)), |b|) && CutProps(kept, ps)
  {
    hide DecodeProps, FitObject, CutProps, PlainProps;
    ObjectFits(ps, room);
    KeptObjectIsCut(ps, room);
    DecodesObject(ps, room, rest);
    var (b, kept) := FitObject(ps, room).value;
    assert (b + rest)[1..] == b[1..] + rest;
  }

  // ---- Exactly when nothing is cut ----

  function FullValue(v: Value): seq<Byte>
    requires Plain(v)
    decreases v, 0
  {
    match v
    case Num(bits) => [NUMBER] + bits
    case Bool(b) => [BOOLEAN, if b then 1 else 0]
    case Str(s) => StringBytes(s)
    case Obj(ps) => [OBJECT] + FullProps(ps) + END_MARKER
  }

  /** The encoding of properties when room is no limit. */
  function FullProps(ps: seq<Prop>): seq<Byte>
    requires PlainProps(ps)
    decreases ps, 1
  {
    if ps == [] then [] else Be16(|ps[0].name|) + ps[0].name + FullValue(ps[0].value) + FullProps(ps[1..])
  }

  /** Whatever is kept, the bytes written are its full encoding. */
  lemma {:induction false} BytesOfKeptProp(p: Prop, room: int)
    requires FitProp(p, room).Some? && 0 < |p.name| < 0x1_0000 && Plain(p.value)
    ensures var (b, q) := FitProp(p, room).value;
            q.name == p.name && Plain(q.value) && b == Be16(|q.name|) + q.name + FullValue(q.value)
    decreases p, 0
  {
    hide Be16;
    if p.value.Obj? {
      var left := room - |NameBytes(p)|;
      BytesOfKept(p.value.props, left - 1);
      assert FitObject(p.value.props, left).Some?;
    }
  }

  lemma {:induction false} BytesOfKept(ps: seq<Prop>, room: int)
    requires PlainProps(ps)
    ensures var (b, qs) := FitProps(ps, room); PlainProps(qs) && b == FullProps(qs)
    decreases ps, 0
  {
    hide Be16, Plain, FullValue, FitProp;
    if ps != [] && FitProp(ps[0], room).Some? {
      var (b, q) := FitProp(ps[0], room).value;
      BytesOfKeptProp(ps[0], room);
      BytesOfKept(ps[1..], room - |b|);
      var qs := FitProps(ps[1..], room - |b|).1;
      assert ([q] + qs)[1..] == qs;
    }
  }

  lemma {:induction false} EnoughForProp(p: Prop, room: int)
    requires 0 < |p.name| < 0x1_0000 && Plain(p.value)
    requires room >= |Be16(|p.name|) + p.name + FullValue(p.value)| + 4
    ensures FitProp(p, room) == Some((Be16(|p.name|) + p.name + FullValue(p.value), p))
    decreases p, 0
  {
    hide Be16;
    if p.value.Obj? {
      EnoughForProps(p.value.props, room - |NameBytes(p)| - 1);
    }
  }

  lemma {:induction false} EnoughForProps(ps: seq<Prop>, room: int)
    requires PlainProps(ps) && room >= |FullProps(ps)| + 4
    ensures FitProps(ps, room) == (FullProps(ps), ps)
    decreases ps, 0
  {
    hide Be16, Plain, FullValue;
    if ps != [] {
      EnoughForProp(ps[0], room);
      var b := FitProp(ps[0], room).value.0;
      EnoughForProps(ps[1..], room - |b|);
      assert [ps[0]] + ps[1..] == ps;
    }
  }

  /** AMF_Encode keeps the whole object exactly when the room exceeds the full encoding. */
  lemma WholeObjectFits(ps: seq<Prop>, room: int)
    requires PlainProps(ps)
    ensures (FitObject(ps, room).Some? && FitObject(ps, room).value.1 == ps) <==> room > |FullValue(Obj(ps))|
    ensures room > |FullValue(Obj(ps))| ==> FitObject(ps, room) == Some((FullValue(Obj(ps)), ps))
  {
    hide FitProps, FullProps, PlainProps, FullValue;
    FullObject(ps);
    if room > |FullValue(Obj(ps))| {
      EnoughForProps(ps, room - 1);
    }
    if FitObject(ps, room).Some? {
      BytesOfKept(ps, room - 1);
      ObjectFits(ps, room);
    }
  }

  lemma FullObject(ps: seq<Prop>)
    requires PlainProps(ps)
    ensures FullValue(Obj(ps)) == [OBJECT] + FullProps(ps) + END_MARKER
  {
    hide FullProps, PlainProps;
  }

  // ---- Errors and resynchronisation ----

  predicate NoMarker(s: seq<Byte>) {
    forall k :: 0 <= k <= |s| ==> !AtMarker(s[k..])
  }

  /** Once in error, AMF_Decode ends at the first end marker, or fails when there is none. */
  lemma {:induction false} SkipsToMarker(s: seq<Byte>, named: bool)
    ensures var r := DecodeProps(s, named, true);
            !r.Outside? && (r.Fail? <==> NoMarker(s)) &&
            (r.Ok? ==> r.value == [] && r.used >= 3 && AtMarker(s[r.used - 3..]) &&
                       forall k :: 0 <= k < r.used - 3 ==> !AtMarker(s[k..]))
    decreases |s|
  {
    var r := DecodeProps(s, named, true);
    if |s| > 0 && !AtMarker(s) {
      SkipsToMarker(s[1..], named);
      assert s[0..] == s;
      forall k | 1 <= k <= |s| ensures s[k..] == s[1..][k - 1..] {}
      if r.Fail? {
        forall k | 0 <= k <= |s| ensures !AtMarker(s[k..]) {
          if k > 0 { assert !AtMarker(s[1..][k - 1..]); }
        }
      } else {
        assert AtMarker(s[1..][r.used - 4..]);
        forall k | 0 <= k < r.used - 3 ensures !AtMarker(s[k..]) {
          if k > 0 { assert !AtMarker(s[1..][k - 1..]); }
        }
      }
    } else {
      assert s[0..] == s;
    }
  }

  /** The properties ps take up exactly the first k bytes of s and the next one does not decode. */
  predicate FailsAt(s: seq<Byte>, named: bool, k: nat, ps: seq<Prop>)
    decreases |s|
  {
    |s| > 0 && k < |s| && !AtMarker(s) &&
    if ps == [] then k == 0 && DecodeProp(s, named).Fail?
    else
      var r := DecodeProp(s, named);
      r.Ok? && r.value == ps[0] && r.used <= k && FailsAt(s[r.used..], named, k - r.used, ps[1..])
  }

  /** When a property fails to decode, AMF_Decode keeps the properties before it and resumes behind
      the first end marker from there on; it returns -1 when no such marker exists. */
  lemma {:induction false} FailureOutcome(s: seq<Byte>, named: bool, k: nat, ps: seq<Prop>)
    requires FailsAt(s, named, k, ps)
    ensures k < |s|
    ensures DecodeProps(s, named, false) ==
            match DecodeProps(s[k..], named, true)
            case Ok(_, used) => Ok(ps, k + used)
            case _ => Fail
    decreases |s|
  {
    hide AtMarker, NoMarker, DecodeProp;
    if ps == [] {
      assert s[0..] == s;
      SkipsToMarker(s, named);
    } else {
      var n := DecodeProp(s, named).used;
      FailureOutcome(s[n..], named, k - n, ps[1..]);
      SubDrop(s, n, k - n, |s| - n);
      assert s[n..][k - n..] == s[k..];
      SkipsToMarker(s[k..], named);
      assert [ps[0]] + ps[1..] == ps;
    }
  }

  /** AMF_Decode returns -1 exactly when some property fails to decode behind properties that do
      decode, and no end marker stands anywhere from the failing property on. */
  lemma {:induction false} FailsExactlyWhen(s: seq<Byte>, named: bool)
    ensures DecodeProps(s, named, false).Fail? <==>
      exists k: nat, ps: seq<Prop> :: FailsAt(s, named, k, ps) && NoMarker(s[k..])
    decreases |s|
  {
    if k: nat, ps: seq<Prop> :| FailsAt(s, named, k, ps) && NoMarker(s[k..]) {
      FailureOutcome(s, named, k, ps);
      SkipsToMarker(s[k..], named);
    }
    if DecodeProps(s, named, false).Fail? {
      var k, ps := FailingProp(s, named);
    }
  }

  lemma {:induction false} FailingProp(s: seq<Byte>, named: bool) returns (k: nat, ps: seq<Prop>)
    requires DecodeProps(s, named, false).Fail?
    ensures FailsAt(s, named, k, ps) && NoMarker(s[k..])
    decreases |s|
  {
    hide AtMarker, NoMarker, DecodeProp;
    match DecodeProp(s, named) {
      case Fail =>
        k, ps := 0, [];
        SkipsToMarker(s, named);
        assert s[0..] == s;
      case Ok(p, n) =>
        var k1, ps1 := FailingProp(s[n..], named);
        k, ps := n + k1, [p] + ps1;
        assert ps[1..] == ps1 && s[n..][k1..] == s[k..];
    }
  }

  /** AMF_Decode succeeds without a single property exactly when there are no bytes, or the end
      marker comes first, or the first property fails to decode and an end marker stands somewhere
      behind. */
  lemma NothingDecodedExactlyWhen(s: seq<Byte>, named: bool)
    ensures var r := DecodeProps(s, named, false);
            r.Ok? && r.value == [] <==> s == [] || AtMarker(s) || (DecodeProp(s, named).Fail? && !NoMarker(s))
  {
    hide AtMarker, NoMarker, DecodeProp;
    SkipsToMarker(s, named);
  }

  /** A string that is longer than its message, in front of an end marker. */
  lemma NothingDecoded()
    ensures DecodeProps([STRING, 0xff, 0xff, 0, 0, 9], false, false) == Ok([], 6)
  {
    var s: seq<Byte> := [STRING, 0xff, 0xff, 0, 0, 9];
    assert s[1..][1..][1..] == [0, 0, 9];
    assert DecodeProp(s, false).Fail?;
    assert DecodeProps([0, 0, 9], false, true) == Ok([], 3);
    assert s[1..][1..] == [0xff, 0, 0, 9] && s[1..] == [0xff, 0xff, 0, 0, 9];
    assert DecodeProps(s[1..][1..], false, true) == Ok([], 4);
    assert DecodeProps(s[1..], false, true) == Ok([], 5);
    assert DecodeProps(s, false, true) == Ok([], 6);
  }
}
