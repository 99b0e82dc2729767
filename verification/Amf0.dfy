/** AMF0 values and the two codecs of amf.c as functions: what AMF_Encode puts into a buffer
    of limited room, and what AMF_Decode makes of a byte sequence, its resynchronisation after
    an error included. Adobe's AMF0 specification, sections 2.2 to 2.5, 2.11 and 2.14. */
module Amf0 {
  import opened Bytes
  import opened Numbers

  const NUMBER: Byte := 0
  const BOOLEAN: Byte := 1
  const STRING: Byte := 2
  const OBJECT: Byte := 3
  const NULL: Byte := 5
  const UNDEFINED: Byte := 6
  const ECMA_ARRAY: Byte := 8
  const STRICT_ARRAY: Byte := 10
  const DATE: Byte := 11
  const LONG_STRING: Byte := 12
  const UNSUPPORTED: Byte := 13
  const AVMPLUS: Byte := 17

  const END_MARKER: seq<Byte> := [0, 0, 9]

  datatype Value = Num(bits: Number) | Bool(b: bool) | Str(s: seq<Byte>) | Obj(props: seq<Prop>)
                 | Null | Date(time: Number, offset: int) | Invalid
  datatype Prop = Prop(name: seq<Byte>, value: Value)

  // ---- Encoding into limited room ----

  function StringBytes(s: seq<Byte>): seq<Byte> {
    if |s| < 0x1_0000 then [STRING] + Be16(|s|) + s else [LONG_STRING] + Be32(|s|) + s
  }

  function NameBytes(p: Prop): seq<Byte> {
    if p.value.Null? || p.name == [] then [] else Be16(|p.name|) + p.name
  }

  /** AMF_EncodeNumber, AMF_EncodeBoolean, AMF_EncodeString and the null marker. A string, long or
      short, needs room for a long string's header. */
  function FitScalar(v: Value, room: int): Option<seq<Byte>>
    requires !v.Obj?
  {
    match v
    case Num(bits) => if room < 9 then None else Some([NUMBER] + bits)
    case Bool(b) => if room < 2 then None else Some([BOOLEAN, if b then 1 else 0])
    case Str(s) => if room < |s| + 5 then None else Some(StringBytes(s))
    case Null => if room <= 1 then None else Some([NULL])
    case Date(_, _) => None
    case Invalid => None
  }

  /** AMFProp_Encode: the bytes written and the property they stand for, or None for NULL. */
  function FitProp(p: Prop, room: int): (r: Option<(seq<Byte>, Prop)>)
    decreases p, 0
  {
    if p.value.Invalid? || (!p.value.Null? && room <= |p.name| + 3) then None
    else
      var name := NameBytes(p);
      if p.value.Obj? then
        match FitObject(p.value.props, room - |name|)
        case None => None
        case Some((b, kept)) => Some((name + b, p.(value := Obj(kept))))
      else
        match FitScalar(p.value, room - |name|)
        case None => None
        case Some(b) => Some((name + b, p))
  }

  /** The property loop of AMF_Encode: it stops at the first property that does not fit. */
  function FitProps(ps: seq<Prop>, room: int): (r: (seq<Byte>, seq<Prop>))
    decreases ps, 0
  {
    if ps == [] then ([], [])
    else
      match FitProp(ps[0], room)
      case None => ([], [])
      case Some((b, q)) =>
        var (bs, qs) := FitProps(ps[1..], room - |b|);
        (b + bs, [q] + qs)
  }

  /** AMF_Encode: the bytes written and the properties that fitted, or None for NULL. */
  function FitObject(ps: seq<Prop>, room: int): (r: Option<(seq<Byte>, seq<Prop>)>)
    decreases ps, 1
  {
    if room <= 4 then None
    else
      var (b, kept) := FitProps(ps, room - 1);
      if room - 1 - |b| <= 3 then None else Some(([OBJECT] + b + END_MARKER, kept))
  }

  // ---- Decoding ----

  /** The outcome of a decoder: a value and the bytes consumed, the error -1, or one of the
      types that this model leaves out (ECMA and strict arrays, AMF3). */
  datatype Result<+T> = Ok(value: T, used: nat) | Fail | Outside

  /** The part of AMFProp_Decode behind the type byte, for every type without nested values. */
  function DecodeScalar(t: Byte, s: seq<Byte>): (r: Result<Value>)
    ensures r.Ok? ==> r.used <= |s|
  {
    if t == NUMBER then (if |s| < 8 then Fail else Ok(Num(s[..8]), 8))
    else if t == BOOLEAN then (if |s| < 1 then Fail else Ok(Bool(s[0] != 0), 1))
    else if t == STRING then
      (if |s| < 2 || |s| < Dec16(s) + 2 then Fail else Ok(Str(s[2..2 + Dec16(s)]), 2 + Dec16(s)))
    else if t == LONG_STRING then
      (if |s| < 4 || |s| < Dec32(s) + 4 then Fail else Ok(Str(s[4..4 + Dec32(s)]), 4 + Dec32(s)))
    else if t == NULL || t == UNDEFINED || t == UNSUPPORTED then Ok(Null, 0)
    else if t == DATE then (if |s| < 10 then Fail else Ok(Date(s[..8], Dec16(s[8..])), 10))
    else if t == ECMA_ARRAY || t == STRICT_ARRAY || t == AVMPLUS then Outside
    else Fail
  }

  /** AMFProp_Decode. */
  function DecodeProp(s: seq<Byte>, named: bool): (r: Result<Prop>)
    ensures r.Ok? ==> 1 <= r.used <= |s|
    decreases |s|, 0
  {
    if |s| == 0 || (named && |s| < 4) then Fail
    else if named && Dec16(s) > |s| - 2 then Fail
    else
      var n := if named then 2 + Dec16(s) else 0;
      var name := if named then s[2..n] else [];
      if |s| == n then Fail
      else if s[n] == OBJECT then
        match DecodeProps(s[n + 1..], true, false)
        case Ok(ps, used) => Ok(Prop(name, Obj(ps)), n + 1 + used)
        case Fail => Fail
        case Outside => Outside
      else
        match DecodeScalar(s[n], s[n + 1..])
        case Ok(v, used) => Ok(Prop(name, v), n + 1 + used)
        case Fail => Fail
        case Outside => Outside
  }

  predicate AtMarker(s: seq<Byte>) {
    |s| >= 3 && Dec24(s) == 9
  }

  /** AMF_Decode. After an error (bError) it skips bytes up to the next end marker. */
  function DecodeProps(s: seq<Byte>, named: bool, error: bool): (r: Result<seq<Prop>>)
    ensures r.Ok? ==> r.used <= |s|
    decreases |s|, if error then 1 else 2
  {
    if |s| == 0 then (if error then Fail else Ok([], 0))
    else if AtMarker(s) then Ok([], 3)
    else if error then
      match DecodeProps(s[1..], named, true)
      case Ok(ps, used) => Ok(ps, used + 1)
      case Fail => Fail
      case Outside => Outside
    else
      match DecodeProp(s, named)
      case Fail => DecodeProps(s, named, true)
      case Outside => Outside
      case Ok(p, used) =>
        match DecodeProps(s[used..], named, false)
        case Ok(ps, more) => Ok([p] + ps, used + more)
        case Fail => Fail
        case Outside => Outside
  }
}
