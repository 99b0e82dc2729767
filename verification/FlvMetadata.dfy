/** What metadata announces: RTMP_ClientPacket looks into onMetaData messages, and into the
    metadata tags of an aggregate, for properties about video and audio. */
module FlvMetadata {
  import opened Bytes
  import opened Numbers
  import opened Amf0
  import opened AmfBuffer
  import opened AmfRoundTrip
  import opened FlvTags

  const ON_META_DATA := Text("onMetaData")

  function PrefixOf(kind: Byte): (p: seq<Byte>)
    ensures |p| == 5
  {
    if kind == AUDIO then Text("audio") else Text("video")
  }

  /** A name that goes on behind the prefix. */
  predicate Extends(name: seq<Byte>, prefix: seq<Byte>) {
    |name| > |prefix| && name[..|prefix|] == prefix
  }

  /** Some property, at any depth, has such a name. */
  predicate Names(ps: seq<Prop>, prefix: seq<Byte>)
    decreases ps
  {
    exists i :: 0 <= i < |ps| &&
      (Extends(ps[i].name, prefix) || (ps[i].value.Obj? && Names(ps[i].value.props, prefix)))
  }

  /** RTMP_FindPrefixProperty. */
  method FindPrefixProperty(ps: seq<Prop>, prefix: seq<Byte>) returns (found: bool)
    ensures found == Names(ps, prefix)
    decreases ps
  {
    var n := 0;
    while n < |ps|
      invariant 0 <= n <= |ps|
      invariant forall i :: 0 <= i < n ==>
        !Extends(ps[i].name, prefix) && !(ps[i].value.Obj? && Names(ps[i].value.props, prefix))
    {
      if Extends(ps[n].name, prefix) {
        return true;
      }
      if ps[n].value.Obj? {
        var inner := FindPrefixProperty(ps[n].value.props, prefix);
        if inner {
          return true;
        }
      }
      n := n + 1;
    }
    return false;
  }

  /** A body decodes to an onMetaData message. */
  predicate IsMetaData(r: Result<seq<Prop>>) {
    r.Ok? && |r.value| > 0 && r.value[0].value == Str(ON_META_DATA)
  }

  /** The kinds a metadata body announces, if this model can decode it. */
  function Announced(body: seq<Byte>): set<Byte> {
    var r := DecodeProps(body, false, false);
    if !IsMetaData(r) then {}
    else set kind | kind in {AUDIO, VIDEO} && Names(r.value, PrefixOf(kind))
  }

  /** Decoding settles what HandleMetadata does: no array, and a string in front. */
  predicate Settled(body: seq<Byte>) {
    var r := DecodeProps(body, false, false);
    r.Fail? || (r.Ok? && |r.value| > 0 && r.value[0].value.Str?)
  }

  /** HandleMetadata; a body with types this model leaves out announces anything. */
  method HandleMetadata(body: seq<Byte>) returns (ret: bool, kinds: set<Byte>)
    ensures kinds <= {AUDIO, VIDEO}
    ensures Settled(body) ==> ret == IsMetaData(DecodeProps(body, false, false)) && kinds == Announced(body)
  {
    hide DecodeProps, Names, Text;
    ret, kinds := false, {};
    var decoded := DecodeObject(body, false);
    if decoded.Fail? {
      return;
    }
    if decoded.Outside? || decoded.value == [] || !decoded.value[0].value.Str? {
      ret := *;
      kinds :| kinds <= {AUDIO, VIDEO};
      return;
    }
    if decoded.value[0].value.s == ON_META_DATA {
      var video := FindPrefixProperty(decoded.value, Text("video"));
      if video {
        kinds := kinds + {VIDEO};
      }
      var audio := FindPrefixProperty(decoded.value, Text("audio"));
      if audio {
        kinds := kinds + {AUDIO};
      }
      ret := true;
    }
  }

  /** An onMetaData message as AMF_EncodeString and AMF_Encode write it announces a kind exactly
      when a property that fitted has a name that goes on behind "audio" or "video". */
  lemma EncodedIsAnnounced(ps: seq<Prop>, room: int, kind: Byte)
    requires PlainProps(ps) && FitObject(ps, room).Some? && kind in {AUDIO, VIDEO}
    ensures var (b, kept) := FitObject(ps, room).value;
            var body := StringBytes(ON_META_DATA) + b;
            Settled(body) && IsMetaData(DecodeProps(body, false, false)) &&
            (kind in Announced(body) <==> Names(kept, PrefixOf(kind)))
  {
    hide FitObject, PlainProps, CutProps, Names, DecodeProps, PrefixOf;
    var (b, kept) := FitObject(ps, room).value;
    var props := [Prop([], Str(ON_META_DATA)), Prop([], Obj(kept))];
    RoundTrip(ps, room, []);
    assert b + [] == b;
    DecodesObject(ps, room, []);
    TwoProps(b, kept);
    NamesBelow(kept, PrefixOf(kind));
  }

  lemma FirstProp(a: seq<Byte>, p: Prop, tail: seq<Byte>, ps: seq<Prop>, used: nat)
    requires DecodeProp(a + tail, false) == Ok(p, |a|) && !AtMarker(a + tail) && |a| > 0
    requires DecodeProps(tail, false, false) == Ok(ps, used)
    ensures DecodeProps(a + tail, false, false) == Ok([p] + ps, |a| + used)
  {
    hide DecodeProp, AtMarker;
    DropPrefix(a, tail);
  }

  lemma NameFirst(tail: seq<Byte>)
    ensures var name := StringBytes(ON_META_DATA);
            |name| == 13 && DecodeProp(name + tail, false) == Ok(Prop([], Str(ON_META_DATA)), |name|) &&
            !AtMarker(name + tail)
  {
    hide DecodeProps, DecodeScalar, Text;
    var name := StringBytes(ON_META_DATA);
    assert |ON_META_DATA| == 10;
    DecodesString(ON_META_DATA, tail);
    assert (name + tail)[1..] == name[1..] + tail;
  }

  lemma ObjectLast(b: seq<Byte>, kept: seq<Prop>)
    requires DecodeProp(b, false) == Ok(Prop([], Obj(kept)), |b|) && |b| > 0 && b[0] == OBJECT
    ensures DecodeProps(b, false, false) == Ok([Prop([], Obj(kept))], |b|)
  {
    hide DecodeProp;
    assert DecodeProps([], false, false) == Ok([], 0);
    assert b + [] == b && [Prop([], Obj(kept))] + [] == [Prop([], Obj(kept))];
    FirstProp(b, Prop([], Obj(kept)), [], [], 0);
  }

  /** A property announces a kind by what follows the prefix, and not by the prefix alone. */
  lemma PrefixAlone(v: Number)
    ensures var rate, alone := [Prop(Text("videodatarate"), Num(v))], [Prop(Text("video"), Num(v))];
            Names(rate, PrefixOf(VIDEO)) && !Names(rate, PrefixOf(AUDIO)) && !Names(alone, PrefixOf(VIDEO))
  {
    assert Text("videodatarate")[..5] == Text("video") && Text("videodatarate")[0] != Text("audio")[0];
    assert Extends([Prop(Text("videodatarate"), Num(v))][0].name, Text("video"));
  }

  lemma TwoProps(b: seq<Byte>, kept: seq<Prop>)
    requires DecodeProp(b, false) == Ok(Prop([], Obj(kept)), |b|) && |b| > 0 && b[0] == OBJECT
    ensures DecodeProps(StringBytes(ON_META_DATA) + b, false, false) ==
            Ok([Prop([], Str(ON_META_DATA)), Prop([], Obj(kept))], |StringBytes(ON_META_DATA)| + |b|)
  {
    hide DecodeProp, DecodeProps, AtMarker, StringBytes, Text;
    var name := StringBytes(ON_META_DATA);
    NameFirst(b);
    ObjectLast(b, kept);
    var first, last := Prop([], Str(ON_META_DATA)), Prop([], Obj(kept));
    FirstProp(name, first, b, [last], |b|);
    assert [first] + [last] == [first, last];
  }

  lemma NamesBelow(kept: seq<Prop>, prefix: seq<Byte>)
    requires |prefix| > 0
    ensures Names([Prop([], Str(ON_META_DATA)), Prop([], Obj(kept))], prefix) <==> Names(kept, prefix)
  {
    var props := [Prop([], Str(ON_META_DATA)), Prop([], Obj(kept))];
    if Names(kept, prefix) {
      assert props[1].value.Obj? && Names(props[1].value.props, prefix);
    }
  }

  function CodecIds(video: Number, audio: Number): (ps: seq<Prop>)
    ensures PlainProps(ps)
  {
    [Prop(Text("videocodecid"), Num(video)), Prop(Text("audiocodecid"), Num(audio))]
  }

  lemma CodecIdsLength(video: Number, audio: Number)
    ensures |FullValue(Obj(CodecIds(video, audio)))| == 50
  {
    hide Text, Be16;
    var ps := CodecIds(video, audio);
    assert |ps[0].name| == 12 == |ps[1].name|;
    var last := ps[1..];
    assert last[1..] == [];
    assert FullProps(last) == Be16(|last[0].name|) + last[0].name + FullValue(last[0].value) + FullProps([]);
    assert |FullValue(last[0].value)| == 9 && |FullProps(last)| == 23;
    assert FullProps(ps) == Be16(|ps[0].name|) + ps[0].name + FullValue(ps[0].value) + FullProps(last);
  }

  lemma CodecIdsAreNamed(video: Number, audio: Number)
    ensures Names(CodecIds(video, audio), Text("video")) && Names(CodecIds(video, audio), Text("audio"))
  {
    var ps := CodecIds(video, audio);
    assert Text("videocodecid")[..5] == Text("video") && Text("audiocodecid")[..5] == Text("audio");
    assert Extends(ps[0].name, Text("video")) && Extends(ps[1].name, Text("audio"));
  }

  /** A message with a video and an audio codec id announces both kinds. */
  lemma CodecIdsAreAnnounced(video: Number, audio: Number)
    ensures var body := StringBytes(ON_META_DATA) + FullValue(Obj(CodecIds(video, audio)));
            Settled(body) && Announced(body) == {AUDIO, VIDEO}
  {
    hide Text, FitObject, FullValue, Settled, IsMetaData, CodecIds, Names, DecodeProps, StringBytes, PlainProps;
    var ps := CodecIds(video, audio);
    CodecIdsLength(video, audio);
    WholeObjectFits(ps, 51);
    EncodedIsAnnounced(ps, 51, AUDIO);
    EncodedIsAnnounced(ps, 51, VIDEO);
    CodecIdsAreNamed(video, audio);
    OnlyKinds(StringBytes(ON_META_DATA) + FullValue(Obj(ps)));
  }

  lemma OnlyKinds(body: seq<Byte>)
    ensures Announced(body) <= {AUDIO, VIDEO}
  {
  }

  /** The kinds the metadata tags of an aggregate announce, up to a tag without its whole
      trailing size. */
  function AnnouncedBy(s: seq<Byte>): set<Byte>
    decreases |s|
  {
    if |s| <= TAG_HEADER then {}
    else
      var n := TAG_HEADER + DataSize(s);
      if n + 4 > |s| then {}
      else (if s[0] == METADATA then Announced(s[TAG_HEADER..n]) else {}) + AnnouncedBy(s[n + 4..])
  }

  predicate AllSettled(s: seq<Byte>)
    decreases |s|
  {
    |s| > TAG_HEADER ==>
      var n := TAG_HEADER + DataSize(s);
      n + 4 <= |s| ==> (s[0] == METADATA ==> Settled(s[TAG_HEADER..n])) && AllSettled(s[n + 4..])
  }

  /** The timestamp of the last audio or video tag among these tags. */
  function MediaStamp(s: seq<Byte>, before: U32): U32
    decreases |s|
  {
    if |s| <= TAG_HEADER then before
    else
      var n := TAG_HEADER + DataSize(s);
      if n + 4 > |s| then before
      else MediaStamp(s[n + 4..], if s[0] == AUDIO || s[0] == VIDEO then StampOf(s[4..]) else before)
  }

  /** One turn of the loop, on the functions. */
  lemma TagLookedAt(s: seq<Byte>, before: U32)
    ensures |s| <= TAG_HEADER ==> AnnouncedBy(s) == {} && AllSettled(s) && MediaStamp(s, before) == before
    ensures |s| > TAG_HEADER ==>
            var n := TAG_HEADER + DataSize(s);
            if n + 4 > |s| then AnnouncedBy(s) == {} && AllSettled(s) && MediaStamp(s, before) == before
            else
              AnnouncedBy(s) ==
                (if s[0] == METADATA then Announced(s[TAG_HEADER..n]) else {}) + AnnouncedBy(s[n + 4..]) &&
              AllSettled(s) == ((s[0] == METADATA ==> Settled(s[TAG_HEADER..n])) && AllSettled(s[n + 4..])) &&
              MediaStamp(s, before) ==
                MediaStamp(s[n + 4..], if s[0] == AUDIO || s[0] == VIDEO then StampOf(s[4..]) else before)
  {
    hide Announced, Settled, DataSize, StampOf;
  }

  /** The loop of RTMP_ClientPacket over the tags of an aggregate. */
  method HandleAggregate(body: seq<Byte>, before: U32) returns (kinds: set<Byte>, stamp: U32)
    ensures AllSettled(body) ==> kinds == AnnouncedBy(body)
    ensures stamp == MediaStamp(body, before)
  {
    hide Announced, AnnouncedBy, Settled, AllSettled, MediaStamp, DataSize, StampOf;
    kinds, stamp := {}, before;
    var pos := 0;
    assert body[0..] == body;
    while pos + TAG_HEADER < |body|
      invariant 0 <= pos <= |body|
      invariant AllSettled(body) ==> AllSettled(body[pos..]) && kinds + AnnouncedBy(body[pos..]) == AnnouncedBy(body)
      invariant MediaStamp(body[pos..], stamp) == MediaStamp(body, before)
    {
      ghost var rest := body[pos..];
      TagLookedAt(rest, stamp);
      var n := TAG_HEADER + DataSize(body[pos..]);
      if pos + n + 4 > |body| {
        break;
      }
      if body[pos] == METADATA {
        SubDrop(body, pos, TAG_HEADER, n);
        var _, more := HandleMetadata(body[pos + TAG_HEADER..pos + n]);
        kinds := kinds + more;
      } else if body[pos] == AUDIO || body[pos] == VIDEO {
        stamp := StampOf(body[pos..][4..]);
      }
      SubDrop(body, pos, n + 4, |rest|);
      assert rest[n + 4..] == body[pos + n + 4..];
      pos := pos + n + 4;
    }
    TagLookedAt(body[pos..], stamp);
  }
}
