/** The bodies of invokes: what their arguments may be, and that a receiver decodes them. */
module InvokeArgs {
  import opened Bytes
  import opened Numbers
  import opened Amf0
  import opened AmfGrammar

  /** An argument of an invoke: a scalar value, or bytes that the options of the link determine. */
  datatype Arg = Scalar(v: Value) | Raw(bytes: seq<Byte>)

  /** What is known of an argument: all, that it is the double of some int, or that it is a string. */
  datatype ArgSpec = Known(arg: Arg) | AnInt | AnyText

  function ScalarBytes(v: Value): seq<Byte>
    requires !v.Obj?
  {
    match v
    case Num(bits) => [NUMBER] + bits
    case Bool(b) => [BOOLEAN, if b then 1 else 0]
    case Str(s) => StringBytes(s)
    case _ => [NULL]
  }

  /** The values that can be arguments: no object, no date. */
  predicate Encodable(v: Value) {
    v.Num? || v.Bool? || v.Null? || (v.Str? && |v.s| < 0x1_0000_0000)
  }

  predicate Sane(a: Arg) { a.Scalar? ==> Encodable(a.v) }

  function ArgBytes(a: Arg): seq<Byte>
    requires Sane(a)
  {
    match a
    case Scalar(v) => ScalarBytes(v)
    case Raw(bytes) => bytes
  }

  predicate AllSane(args: seq<Arg>) {
    forall i :: 0 <= i < |args| ==> Sane(args[i])
  }

  function ArgsBytes(args: seq<Arg>): seq<Byte>
    requires AllSane(args)
  {
    if args == [] then [] else ArgBytes(args[0]) + ArgsBytes(args[1..])
  }

  lemma {:induction false} ArgsBytesNext(args: seq<Arg>, i: nat)
    requires AllSane(args) && i < |args|
    ensures ArgsBytes(args[..i + 1]) == ArgsBytes(args[..i]) + ArgBytes(args[i])
  {
    hide ArgBytes;
    if i == 0 {
      assert args[..1] == [args[0]] && args[..0] == [] && [args[0]][1..] == [];
      assert ArgsBytes([args[0]]) == ArgBytes(args[0]) + ArgsBytes([]);
    } else {
      ArgsBytesNext(args[1..], i - 1);
      assert args[..i + 1][1..] == args[1..][..i] && args[..i][1..] == args[1..][..i - 1];
      Assoc(ArgBytes(args[0]), ArgsBytes(args[1..][..i - 1]), ArgBytes(args[i]));
    }
  }

  predicate Is(a: Arg, spec: ArgSpec) {
    match spec
    case Known(b) => a == b
    case AnInt => a.Scalar? && a.v.Num? && !LooksLikeEnd(a.v)
    case AnyText => a.Scalar? && a.v.Str?
  }

  predicate AllAre(args: seq<Arg>, specs: seq<ArgSpec>) {
    |args| == |specs| && forall i :: 0 <= i < |args| ==> Is(args[i], specs[i])
  }

  /** The body of an invoke: its name and arguments of this kind, the first one being its number. */
  ghost predicate Says(body: seq<Byte>, name: seq<Byte>, specs: seq<ArgSpec>) {
    exists args: seq<Arg> :: AllSane(args) && AllAre(args, specs) && body == StringBytes(name) + ArgsBytes(args)
  }

  /** An invoke that carries the next number, and these arguments. */
  function Numbered(args: seq<Arg>): seq<ArgSpec> {
    [AnInt] + Knowns(args)
  }

  function Knowns(args: seq<Arg>): (specs: seq<ArgSpec>)
    ensures |specs| == |args|
  {
    seq(|args|, i requires 0 <= i < |args| => Known(args[i]))
  }

  /** The number of an int is no end marker. */
  lemma IntIsNoEnd(n: nat)
    requires n <= MAX_INT
    ensures !LooksLikeEnd(Num(NumberOfInt(n)))
  {
    hide Be64, Pow2, Exponent;
    if n > 0 {
      var e := Exponent(n);
      IntExponentSmall(n);
      SignificandFits(n, e);
      var m := (n - Pow2(e)) * Pow2(52 - e);
      HighByte((1023 + e) * TWO52 + m);
    }
  }

  lemma HighByte(v: nat)
    requires 1023 * TWO52 <= v < 0x8000_0000_0000_0000
    ensures Be64(v)[0] > 0
  {
    var hi := v / 0x1_0000_0000;
    assert hi >= 0x3ff0_0000;
    assert hi / 0x100_0000 >= 0x3f && hi / 0x100_0000 < 0x80;
    assert Be32(hi)[0] == hi / 0x100_0000 % 0x100;
  }

  /** Arguments that are all scalar values. */
  predicate Readable(specs: seq<ArgSpec>) {
    forall i :: 0 <= i < |specs| ==>
      (specs[i].Known? ==> specs[i].arg.Scalar? && Encodable(specs[i].arg.v) && !LooksLikeEnd(specs[i].arg.v))
  }

  predicate IsValue(v: Value, spec: ArgSpec) {
    match spec
    case Known(a) => a == Scalar(v)
    case AnInt => v.Num?
    case AnyText => v.Str?
  }

  /** The values a receiver gets of an invoke: its name, and its arguments. */
  predicate AreValues(vs: seq<Value>, name: seq<Byte>, specs: seq<ArgSpec>) {
    |vs| == 1 + |specs| && vs[0] == Str(name) && forall i :: 0 <= i < |specs| ==> IsValue(vs[i + 1], specs[i])
  }

  /** AMF_Decode reads exactly name and arguments, to the last byte. */
  lemma InvokeDecodes(body: seq<Byte>, name: seq<Byte>, specs: seq<ArgSpec>) returns (vs: seq<Value>)
    requires Says(body, name, specs) && Readable(specs) && |name| < 0x1_0000
    ensures AreValues(vs, name, specs) && DecodeProps(body, false, false) == Ok(Unnamed(vs), |body|)
  {
    hide StringBytes, DecodeProps, ArgsBytes, Encodes, ArgBytes, LooksLikeEnd;
    var args: seq<Arg> :| AllSane(args) && AllAre(args, specs) && body == StringBytes(name) + ArgsBytes(args);
    var tail := seq(|args|, i requires 0 <= i < |args| => args[i].v);
    var parts := seq(|args|, i requires 0 <= i < |args| => ArgBytes(args[i]));
    vs := [Str(name)] + tail;
    var all := [StringBytes(name)] + parts;
    forall i | 0 <= i < |vs| ensures !vs[i].Obj? && Encodes(all[i], vs[i]) {
      ScalarIsEncoded(vs[i]);
      if i > 0 { assert all[i] == ArgBytes(args[i - 1]) && vs[i] == args[i - 1].v; }
    }
    ConcatIs(args, parts);
    assert all[1..] == parts;
    forall i | 0 <= i < |vs| ensures !LooksLikeEnd(vs[i]) {
      OnlyNumbers(vs[i]);
      if i > 0 { assert Is(args[i - 1], specs[i - 1]) && vs[i] == args[i - 1].v; }
    }
    ValuesDecode(all, vs);
  }

  lemma OnlyNumbers(v: Value)
    ensures !v.Num? ==> !LooksLikeEnd(v)
  {
  }

  lemma ScalarIsEncoded(v: Value)
    ensures Encodable(v) ==> Encodes(ScalarBytes(v), v) && ArgBytes(Scalar(v)) == ScalarBytes(v)
    ensures v.Str? ==> ScalarBytes(v) == StringBytes(v.s)
  {
  }

  lemma {:induction false} ConcatIs(args: seq<Arg>, parts: seq<seq<Byte>>)
    requires AllSane(args) && |parts| == |args| && forall i :: 0 <= i < |args| ==> parts[i] == ArgBytes(args[i])
    ensures Concat(parts) == ArgsBytes(args)
    decreases |args|
  {
    hide ArgBytes;
    if args != [] {
      ConcatIs(args[1..], parts[1..]);
    }
  }
}
