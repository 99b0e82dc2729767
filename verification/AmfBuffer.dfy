/** The loops of amf.c: encoders that write through an advancing cursor into a bounded buffer,
    decoders that walk over a byte sequence, each proved against its function in Amf0. */
module AmfBuffer {
  import opened Bytes
  import opened Numbers
  import opened Amf0
  import opened Net

  /** AMF_EncodeString. */
  method EncodeString(buf: array<Byte>, output: nat, end: nat, s: seq<Byte>) returns (next: Option<nat>)
    requires output <= end <= buf.Length
    modifies buf
    ensures next == if end - output < |s| + 5 then None else Some(output + |StringBytes(s)|)
    ensures next.Some? ==> next.value <= end && buf[output..next.value] == StringBytes(s)
    ensures forall k :: 0 <= k < buf.Length && !(output <= k < end) ==> buf[k] == old(buf[k])
  {
    hide Be16, Be32, StringBytes;
    ghost var head := StringHead(s);
    if (|s| < 65536 && output + 1 + 2 + |s| > end) || output + 1 + 4 + |s| > end {
      return None;
    }
    var cursor := output;
    if |s| < 65536 {
      cursor := Emit(buf, output, cursor, [STRING]);
      cursor := Emit(buf, output, cursor, Be16(|s|));
    } else {
      cursor := Emit(buf, output, cursor, [LONG_STRING]);
      cursor := Emit(buf, output, cursor, Be32(|s|));
    }
    assert buf[output..cursor] == head;
    cursor := Emit(buf, output, cursor, s);
    return Some(cursor);
  }

  /** Type and length of a string. */
  lemma StringHead(s: seq<Byte>) returns (head: seq<Byte>)
    ensures head == if |s| < 65536 then [STRING] + Be16(|s|) else [LONG_STRING] + Be32(|s|)
    ensures StringBytes(s) == head + s && |StringBytes(s)| == |head| + |s|
  {
    hide Be16, Be32;
    head := if |s| < 65536 then [STRING] + Be16(|s|) else [LONG_STRING] + Be32(|s|);
  }

  /** The value part of AMFProp_Encode for a value without properties. */
  method EncodeScalar(v: Value, buf: array<Byte>, output: nat, end: nat) returns (next: Option<nat>)
    requires output <= end <= buf.Length && !v.Obj?
    modifies buf
    ensures next == Advance(output, FitScalar(v, end - output))
    ensures next.Some? ==> next.value <= end && buf[output..next.value] == FitScalar(v, end - output).value
    ensures forall k :: 0 <= k < buf.Length && !(output <= k < end) ==> buf[k] == old(buf[k])
  {
    match v {
      case Num(bits) =>
        if output + 1 + 8 > end { return None; }
        var cursor := Emit(buf, output, output, [NUMBER]);
        cursor := Emit(buf, output, cursor, bits);
        return Some(cursor);
      case Bool(b) =>
        if output + 2 > end { return None; }
        var cursor := Emit(buf, output, output, [BOOLEAN]);
        cursor := Emit(buf, output, cursor, [if b then 1 else 0]);
        return Some(cursor);
      case Str(s) =>
        next := EncodeString(buf, output, end, s);
      case Null =>
        if output + 1 >= end { return None; }
        var cursor := Emit(buf, output, output, [NULL]);
        return Some(cursor);
      case _ =>
        return None;
    }
  }

  function Advance(pos: nat, bytes: Option<seq<Byte>>): Option<nat> {
    if bytes.None? then None else Some(pos + |bytes.value|)
  }

  /** AMFProp_Encode. */
  method EncodeProp(p: Prop, buf: array<Byte>, pos: nat, end: nat) returns (next: Option<nat>)
    requires pos <= end <= buf.Length
    modifies buf
    ensures next.Some? <==> FitProp(p, end - pos).Some?
    ensures next.Some? ==> pos <= next.value <= end && buf[pos..next.value] == FitProp(p, end - pos).value.0
    ensures forall k :: 0 <= k < buf.Length && !(pos <= k < end) ==> buf[k] == old(buf[k])
    decreases p, 0
  {
    hide FitScalar, FitObject, FitProp, Be16;
    FitPropIs(p, end - pos);
    if p.value.Invalid? {
      return None;
    }
    if !p.value.Null? && pos + |p.name| + 2 + 1 >= end {
      return None;
    }
    var cursor := pos;
    if !p.value.Null? && |p.name| > 0 {
      cursor := Emit(buf, pos, cursor, Be16(|p.name|));
      cursor := Emit(buf, pos, cursor, p.name);
    }
    ghost var name := NameBytes(p);
    assert buf[pos..cursor] == name;
    if p.value.Obj? {
      next := EncodeObject(p.value.props, buf, cursor, end);
    } else {
      next := EncodeScalar(p.value, buf, cursor, end);
    }
    if next.Some? {
      Split(buf[..], pos, cursor, next.value);
    }
  }

  /** A property fits if there is room for its name and then for its value. */
  lemma FitPropIs(p: Prop, room: int)
    ensures var left := room - |NameBytes(p)|;
            if p.value.Invalid? || (!p.value.Null? && room <= |p.name| + 3) then FitProp(p, room).None?
            else if p.value.Obj? then
              (FitProp(p, room).Some? <==> FitObject(p.value.props, left).Some?) &&
              (FitProp(p, room).Some? ==>
                FitProp(p, room).value.0 == NameBytes(p) + FitObject(p.value.props, left).value.0)
            else
              (FitProp(p, room).Some? <==> FitScalar(p.value, left).Some?) &&
              (FitProp(p, room).Some? ==> FitProp(p, room).value.0 == NameBytes(p) + FitScalar(p.value, left).value)
  {
    hide FitScalar, FitObject, NameBytes;
  }

  /** AMF_Encode: the end marker follows if there is room for it and one byte more. */
  method EncodeObject(ps: seq<Prop>, buf: array<Byte>, pos: nat, end: nat) returns (next: Option<nat>)
    requires pos <= end <= buf.Length
    modifies buf
    ensures next.Some? <==> FitObject(ps, end - pos).Some?
    ensures next.Some? ==> pos <= next.value <= end && buf[pos..next.value] == FitObject(ps, end - pos).value.0
    ensures forall k :: 0 <= k < buf.Length && !(pos <= k < end) ==> buf[k] == old(buf[k])
    decreases ps, 1
  {
    hide FitProps;
    if pos + 4 >= end {
      return None;
    }
    buf[pos] := OBJECT;
    var cursor := EncodeProps(ps, buf, pos + 1, end);
    Split(buf[..], pos, pos + 1, cursor);
    if cursor + 3 >= end {
      return None;
    }
    cursor := Emit(buf, pos, cursor, Be24(9));
    return Some(cursor);
  }

  /** The loop of AMF_Encode, which ends at a property that does not fit. */
  method EncodeProps(ps: seq<Prop>, buf: array<Byte>, start: nat, end: nat) returns (cursor: nat)
    requires start <= end <= buf.Length
    modifies buf
    ensures start <= cursor <= end && buf[start..cursor] == FitProps(ps, end - start).0
    ensures forall k :: 0 <= k < buf.Length && !(start <= k < end) ==> buf[k] == old(buf[k])
    decreases ps, 0
  {
    hide FitProp, FitProps;
    cursor := start;
    var i := 0;
    ghost var done := [];
    assert ps[0..] == ps;
    while i < |ps|
      invariant i <= |ps| && cursor == start + |done| <= end && buf[start..cursor] == done
      invariant FitProps(ps, end - start).0 == done + FitProps(ps[i..], end - cursor).0
      invariant forall k :: 0 <= k < buf.Length && !(start <= k < end) ==> buf[k] == old(buf[k])
    {
      FitStep(ps, i, end - cursor);
      var res := EncodeProp(ps[i], buf, cursor, end);
      assert buf[start..cursor] == done;
      if res.None? {
        assert done + [] == done;
        return;
      }
      ghost var b := FitProp(ps[i], end - cursor).value.0;
      Split(buf[..], start, cursor, res.value);
      Assoc(done, b, FitProps(ps[i + 1..], end - cursor - |b|).0);
      done := done + b;
      cursor := res.value;
      i := i + 1;
    }
    FitNothing(end - cursor);
    assert ps[i..] == [] && done + [] == done;
  }

  /** One turn of the property loop, on the function. */
  lemma FitStep(ps: seq<Prop>, i: nat, room: int)
    requires i < |ps|
    ensures FitProps(ps[i..], room).0 ==
            match FitProp(ps[i], room)
            case None => []
            case Some((b, _)) => b + FitProps(ps[i + 1..], room - |b|).0
  {
    hide FitProp;
    assert ps[i..][0] == ps[i] && ps[i..][1..] == ps[i + 1..];
  }

  lemma FitNothing(room: int)
    ensures FitProps([], room).0 == []
  {
  }

  // ---- Decoders ----

  /** AMFProp_Decode, over the bytes pBuffer points to and nSize counts. */
  method DecodeProperty(s: seq<Byte>, named: bool) returns (r: Result<Prop>)
    ensures r == DecodeProp(s, named)
    decreases |s|, 0
  {
    hide DecodeScalar, Dec16, DecodeProps;
    var at, nSize := 0, |s|;
    var name := [];
    if nSize == 0 || (named && nSize < 4) {
      return Fail;
    }
    if named {
      var nNameSize := Dec16(s);
      if nNameSize > nSize - 2 {
        return Fail;
      }
      name := s[2..2 + nNameSize];
      at, nSize := at + 2 + nNameSize, nSize - 2 - nNameSize;
    }
    if nSize == 0 {
      return Fail;
    }
    var t := s[at];
    at, nSize := at + 1, nSize - 1;
    var v: Result<Value>;
    if t == OBJECT {
      var nested := DecodeObject(s[at..], true);
      v := match nested case Ok(ps, used) => Ok(Obj(ps), used) case Fail => Fail case Outside => Outside;
    } else {
      v := DecodeScalar(t, s[at..]);
    }
    match v {
      case Ok(value, used) =>
        nSize := nSize - used;
        return Ok(Prop(name, value), |s| - nSize);
      case Fail => return Fail;
      case Outside => return Outside;
    }
  }

  function Prefixed(ps: seq<Prop>, used: nat, r: Result<seq<Prop>>): Result<seq<Prop>> {
    match r
    case Ok(more, n) => Ok(ps + more, used + n)
    case Fail => Fail
    case Outside => Outside
  }

  /** AMF_Decode: the loop over pBuffer, nSize and bError. */
  method DecodeObject(s: seq<Byte>, named: bool) returns (r: Result<seq<Prop>>)
    ensures r == DecodeProps(s, named, false)
    decreases |s|, 1
  {
    hide DecodeProp, DecodeProps, AtMarker, Prefixed;
    var at, nSize, bError := 0, |s|, false;
    var obj: seq<Prop> := [];
    assert s[0..] == s;
    PrefixedNothing(DecodeProps(s, named, false));
    while nSize > 0
      invariant 0 <= at <= |s| && nSize == |s| - at
      invariant Prefixed(obj, at, DecodeProps(s[at..], named, bError)) == DecodeProps(s, named, false)
      decreases nSize, if bError then 0 else 1
    {
      var rest := s[at..];
      PropsStep(rest, named, bError);
      if AtMarker(rest) {
        PrefixedEnd(obj, at, 3);
        return Ok(obj, at + 3);
      }
      if bError {
        assert rest[1..] == s[at + 1..];
        PrefixedSkip(obj, at, DecodeProps(rest[1..], named, true));
        nSize, at := nSize - 1, at + 1;
        continue;
      }
      var nRes := DecodeProperty(rest, named);
      match nRes {
        case Fail =>
          bError := true;
        case Outside =>
          PrefixedBad(obj, at);
          return Outside;
        case Ok(p, used) =>
          assert rest[used..] == s[at + used..];
          PrefixedStep(obj, p, at, used, DecodeProps(s[at + used..], named, false));
          nSize, at, obj := nSize - used, at + used, obj + [p];
      }
    }
    PropsStep(s[at..], named, bError);
    PrefixedEnd(obj, at, 0);
    PrefixedBad(obj, at);
    return if bError then Fail else Ok(obj, at);
  }

  /** One turn of the loop, on the function. */
  lemma PropsStep(s: seq<Byte>, named: bool, error: bool)
    ensures DecodeProps(s, named, error) ==
            if |s| == 0 then (if error then Fail else Ok([], 0))
            else if AtMarker(s) then Ok([], 3)
            else if error then Prefixed([], 1, DecodeProps(s[1..], named, true))
            else
              match DecodeProp(s, named)
              case Fail => DecodeProps(s, named, true)
              case Outside => Outside
              case Ok(p, used) => Prefixed([p], used, DecodeProps(s[used..], named, false))
  {
    hide DecodeProp, AtMarker;
    if |s| > 0 && error {
      var r := DecodeProps(s[1..], named, true);
      if r.Ok? { assert [] + r.value == r.value; }
    }
  }

  lemma PrefixedSkip(ps: seq<Prop>, at: nat, r: Result<seq<Prop>>)
    ensures Prefixed(ps, at, Prefixed([], 1, r)) == Prefixed(ps, at + 1, r)
  {
    if r.Ok? { assert [] + r.value == r.value; }
  }

  lemma PrefixedBad(ps: seq<Prop>, at: nat)
    ensures Prefixed(ps, at, Fail) == Fail && Prefixed(ps, at, Outside) == Outside
  {
  }

  lemma PrefixedNothing(r: Result<seq<Prop>>)
    ensures Prefixed([], 0, r) == r
  {
    if r.Ok? {
      assert [] + r.value == r.value;
    }
  }

  lemma PrefixedEnd(ps: seq<Prop>, at: nat, n: nat)
    ensures Prefixed(ps, at, Ok([], n)) == Ok(ps, at + n)
  {
    assert ps + [] == ps;
  }

  lemma PrefixedStep(ps: seq<Prop>, p: Prop, at: nat, used: nat, r: Result<seq<Prop>>)
    ensures Prefixed(ps, at, Prefixed([p], used, r)) == Prefixed(ps + [p], at + used, r)
  {
    if r.Ok? {
      Assoc(ps, [p], r.value);
    }
  }
}
