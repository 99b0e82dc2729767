/** What RTMP_Read hands out, in terms of tags. */
module FlvStream {
  import opened Amf0
  import opened AmfRoundTrip
  import opened Bytes
  import opened FlvTags
  import opened FlvMetadata
  import opened FlvRead
  import opened Numbers

  /** A media packet by its content: one frame, or an aggregate of complete tags. */
  datatype Content =
    | Frame(kind: Byte, timestamp: U32, data: seq<Byte>, announced: set<Byte>)
    | Bundle(timestamp: U32, tags: seq<Tag>, trailers: seq<seq<Byte>>, announced: set<Byte>)

  predicate Whole(c: Content) {
    match c
    case Frame(kind, _, data, _) => kind in {AUDIO, VIDEO, METADATA} && |data| < 0x100_0000
    case Bundle(_, tags, trailers, _) =>
      tags != [] && Trailed(tags, trailers) && AllVisited(tags, trailers) &&
        |AggregateBytes(tags, trailers)| < 0x100_0000
  }

  predicate AllWhole(cs: seq<Content>) {
    forall i :: 0 <= i < |cs| ==> Whole(cs[i])
  }

  function PacketOf(c: Content): Media
    requires Whole(c)
  {
    match c
    case Frame(kind, timestamp, data, announced) => Media(kind, timestamp, data, announced)
    case Bundle(timestamp, tags, trailers, announced) => Media(AGGREGATE, timestamp, AggregateBytes(tags, trailers),
      announced)
  }

  function PacketsOf(cs: seq<Content>): (ms: seq<Media>)
    requires AllWhole(cs)
    ensures |ms| == |cs|
  {
    seq(|cs|, i requires 0 <= i < |cs| => PacketOf(cs[i]))
  }

  /** What stands in front of the media data of a frame: codec and frame type, packet type and
      composition time of AVC video; codec and sampling of audio. */
  function MediaHeader(kind: Byte): nat {
    if kind == VIDEO then 5 else 1
  }

  /** A frame with nothing behind that header is dropped; metadata never is. */
  predicate HasMedia(kind: Byte, data: seq<Byte>) {
    kind == METADATA || data[Min(MediaHeader(kind), |data|)..] != []
  }

  /** The tags a packet contributes: its own for a frame with media in it, and for a bundle those
      it holds, all moved so that the first has the packet's timestamp. */
  function TagsOf(c: Content): seq<Tag>
    requires Whole(c)
  {
    match c
    case Frame(kind, timestamp, data, _) => if HasMedia(kind, data) then [Tag(kind, timestamp, 0, data)] else []
    case Bundle(timestamp, tags, _, _) => Shifted(tags, Wrap32(timestamp - tags[0].timestamp))
  }

  function AllTags(cs: seq<Content>): seq<Tag>
    requires AllWhole(cs)
  {
    if cs == [] then [] else TagsOf(cs[0]) + AllTags(cs[1..])
  }

  lemma {:induction false} TagsBytesConcat(x: seq<Tag>, y: seq<Tag>)
    ensures TagsBytes(x + y) == TagsBytes(x) + TagsBytes(y)
  {
    hide TagBytes;
    if x == [] {
      assert [] + y == y;
    } else {
      TagsBytesConcat(x[1..], y);
      assert (x + y)[1..] == x[1..] + y && (x + y)[0] == x[0];
      Assoc(TagBytes(x[0]), TagsBytes(x[1..]), TagsBytes(y));
    }
  }

  /** The first tag of a bundle keeps the packet's time, the others their distance to it. */
  lemma BundleTimes(c: Content, i: nat)
    requires Whole(c) && c.Bundle? && i < |c.tags|
    ensures |TagsOf(c)| == |c.tags| && TagsOf(c)[0].timestamp == c.timestamp
    ensures Wrap32(TagsOf(c)[i].timestamp - TagsOf(c)[0].timestamp) == Wrap32(c.tags[i].timestamp - c.tags[0].timestamp)
  {
    var d := Wrap32(c.timestamp - c.tags[0].timestamp);
    Moved(c.timestamp, c.tags[0].timestamp);
    Apart(c.tags[i].timestamp, c.tags[0].timestamp, d);
  }

  lemma Moved(t: U32, u: U32)
    ensures Wrap32(u + Wrap32(t - u)) == t
  {
  }

  lemma Apart(t: U32, u: U32, d: U32)
    ensures Wrap32(Wrap32(t + d) - Wrap32(u + d)) == Wrap32(t - u)
  {
    var x, y := t + d - Wrap32(t + d), u + d - Wrap32(u + d);
    assert x == 0 || x == 0x1_0000_0000;
    assert y == 0 || y == 0x1_0000_0000;
  }

  lemma PacketIsTags(c: Content)
    requires Whole(c)
    ensures Readable(PacketOf(c)) && PacketBytes(PacketOf(c)) == TagsBytes(TagsOf(c))
  {
    hide TagBytes, HeaderBytes, Retimed, WholeTrailer, Dec24;
    match c {
      case Frame(kind, timestamp, data, _) =>
        assert TagsBytes([Tag(kind, timestamp, 0, data)][1..]) == [];
      case Bundle(timestamp, tags, trailers, _) =>
        var t, rest := tags[0], AggregateBytes(tags[1..], trailers[1..]);
        var body := AggregateBytes(tags, trailers);
        assert body == HeaderBytes(t) + (t.data + trailers[0] + rest);
        HeaderFields(t, t.data + trailers[0] + rest);
        AggregateRetimed(tags, trailers, Wrap32(timestamp - t.timestamp));
    }
  }

  /** Aggregates or not, the stream is that of the tags. */
  lemma {:induction false} StreamIsTags(cs: seq<Content>)
    requires AllWhole(cs)
    ensures AllReadable(PacketsOf(cs)) && StreamBytes(PacketsOf(cs)) == TagsBytes(AllTags(cs))
  {
    hide PacketBytes, TagsOf, TagsBytes, Readable, Whole;
    forall i | 0 <= i < |cs| ensures Readable(PacketsOf(cs)[i]) {
      PacketIsTags(cs[i]);
    }
    if cs == [] {
      NoTags();
    } else {
      StreamIsTags(cs[1..]);
      PacketIsTags(cs[0]);
      assert PacketsOf(cs)[1..] == PacketsOf(cs[1..]);
      TagsBytesConcat(TagsOf(cs[0]), AllTags(cs[1..]));
    }
  }

  lemma NoTags()
    ensures TagsBytes([]) == []
  {
  }

  // ---- When reading starts ----

  predicate Stamped(m: Media, live: bool)
    requires Readable(m)
  {
    StampAfter(m, live, 0) != 0
  }

  predicate AnyStamped(ms: seq<Media>, live: bool)
    requires AllReadable(ms)
  {
    exists i :: 0 <= i < |ms| && Stamped(ms[i], live)
  }

  predicate AnyBrings(ms: seq<Media>, kind: Byte) {
    exists i :: 0 <= i < |ms| && Brings(ms[i], kind)
  }

  /** RTMP_Read gets past its start-up phase exactly when some packet sets a timestamp other
      than zero, or there is a packet and both audio and video turn up or are announced.
      Otherwise every packet it has read is lost. */
  lemma {:induction false} StartsExactlyWhen(ms: seq<Media>, acc: seq<Byte>, audio: bool, video: bool, live: bool)
    requires AllReadable(ms)
    ensures StartUp(ms, acc, audio, video, 0, live).Some? <==>
            AnyStamped(ms, live) ||
            (ms != [] && (audio || AnyBrings(ms, AUDIO)) && (video || AnyBrings(ms, VIDEO)))
  {
    hide PacketBytes, StampAfter, Brings;
    if ms != [] {
      var m := ms[0];
      var a, v := audio || Brings(m, AUDIO), video || Brings(m, VIDEO);
      FirstOrLater(ms, AUDIO);
      FirstOrLater(ms, VIDEO);
      StampedFirstOrLater(ms, live);
      if StampAfter(m, live, 0) == 0 && !(a && v) {
        StartsExactlyWhen(ms[1..], acc + PacketBytes(m), a, v, live);
      }
    }
  }

  /** What the start-up phase makes of a packet, by its content. The time is that of the packet for a
      live stream and for a frame, and of the last tag for a bundle; a frame without media leaves it
      alone. The kinds are those of its tags, dropped or not, and what has been announced. */
  lemma ContentSeen(c: Content, live: bool, before: U32, kind: Byte)
    requires Whole(c) && kind in {AUDIO, VIDEO}
    ensures Readable(PacketOf(c))
    ensures StampAfter(PacketOf(c), live, before) ==
            if c.Frame? && !HasMedia(c.kind, c.data) then before
            else if live || c.Frame? then c.timestamp
            else TagsOf(c)[|c.tags| - 1].timestamp
    ensures Brings(PacketOf(c), kind) <==>
            kind in c.announced ||
            (if c.Frame? then c.kind == kind else SomeTag(c.tags, kind))
  {
    hide HasKind, SomeTag, LastStamp, StampOf, AggregateBytes, PacketBytes, WholeTrailer, Trailed, AllVisited;
    PacketIsTags(c);
    if c.Bundle? {
      BundleSeen(c, kind);
    }
  }

  lemma BundleSeen(c: Content, kind: Byte)
    requires Whole(c) && c.Bundle?
    ensures var m := PacketOf(c);
            |m.body| >= 8 &&
            (HasKind(m.body, kind) <==> SomeTag(c.tags, kind)) &&
            LastStamp(m.body, Move(m), StampOf(m.body[4..])) == TagsOf(c)[|c.tags| - 1].timestamp
  {
    hide HasKind, SomeTag, LastStamp, StampOf, AggregateBytes;
    FirstTime(c);
    AggregateSeen(c.tags, c.trailers, Wrap32(c.timestamp - c.tags[0].timestamp), c.tags[0].timestamp, kind);
  }

  lemma FirstTime(c: Content)
    requires Whole(c) && c.Bundle?
    ensures var s := AggregateBytes(c.tags, c.trailers); |s| >= 8 && StampOf(s[4..]) == c.tags[0].timestamp
  {
    hide HeaderBytes, StampOf, Dec24;
    var t, rest := c.tags[0], AggregateBytes(c.tags[1..], c.trailers[1..]);
    assert AggregateBytes(c.tags, c.trailers) == HeaderBytes(t) + (t.data + c.trailers[0] + rest);
    HeaderFields(t, t.data + c.trailers[0] + rest);
  }

  /** When the phase ends, the packets that are left are the last ones, and the header announces a kind
      exactly when one of the others has brought it or it was announced before. */
  lemma {:induction false} HeaderAnnounces(ms: seq<Media>, acc: seq<Byte>, audio: bool, video: bool, stamp: U32,
      live: bool)
    requires AllReadable(ms) && StartUp(ms, acc, audio, video, stamp, live).Some?
    ensures var s := StartUp(ms, acc, audio, video, stamp, live).value;
            var n := |ms| - |s.rest|;
            n >= 0 && s.rest == ms[n..] && (s.audio <==> audio || AnyBrings(ms[..n], AUDIO)) &&
            (s.video <==> video || AnyBrings(ms[..n], VIDEO))
  {
    hide StartUp, Brings, StampAfter, PacketBytes, AnyBrings;
    StartStep(ms, acc, audio, video, stamp, live);
    if stamp == 0 {
      var m := ms[0];
      var a, v, after := audio || Brings(m, AUDIO), video || Brings(m, VIDEO), StampAfter(m, live, stamp);
      var s := StartUp(ms, acc, audio, video, stamp, live).value;
      if !(a && v) {
        HeaderAnnounces(ms[1..], acc + PacketBytes(m), a, v, after, live);
      }
      TakenFirstOrLater(ms, |ms| - |s.rest|, AUDIO);
      TakenFirstOrLater(ms, |ms| - |s.rest|, VIDEO);
    } else {
      NoneTaken(ms);
    }
  }

  lemma NoneTaken(ms: seq<Media>)
    ensures !AnyBrings(ms[..0], AUDIO) && !AnyBrings(ms[..0], VIDEO)
  {
  }

  lemma TakenFirstOrLater(ms: seq<Media>, n: nat, kind: Byte)
    requires 0 < n <= |ms|
    ensures AnyBrings(ms[..n], kind) == (Brings(ms[0], kind) || AnyBrings(ms[1..][..n - 1], kind))
    ensures n == 1 ==> !AnyBrings(ms[1..][..n - 1], kind)
    ensures ms[1..][n - 1..] == ms[n..]
  {
    hide Brings;
    assert ms[..n][1..] == ms[1..][..n - 1];
    FirstOrLater(ms[..n], kind);
  }

  /** An audio frame at time zero alone is read and lost. */
  lemma LoneAudioIsLost()
    ensures var ms := [Media(AUDIO, 0, [0xaf, 1, 7], {})];
            AllReadable(ms) && StreamBytes(ms) != [] && StartUp(ms, [], false, false, 0, false).None?
  {
    var m := Media(AUDIO, 0, [0xaf, 1, 7], {});
    var ms := [m];
    assert ms[1..] == [];
    StreamStep(ms);
    PacketLength(m);
  }

  /** Metadata at time zero that announces both kinds is enough to start, and the header says
      so although no frame has been seen. */
  lemma MetadataStarts(body: seq<Byte>, live: bool)
    requires |body| < 0x100_0000
    ensures var ms := [Media(METADATA, 0, body, {AUDIO, VIDEO})];
            AllReadable(ms) && StartUp(ms, [], false, false, 0, live) ==
            Some(Started(TagBytes(Tag(METADATA, 0, 0, body)), true, true, 0, []))
  {
    hide TagBytes;
    var ms := [Media(METADATA, 0, body, {AUDIO, VIDEO})];
    assert ms[1..] == [];
    assert [] + TagBytes(Tag(METADATA, 0, 0, body)) == TagBytes(Tag(METADATA, 0, 0, body));
  }

  /** So an onMetaData message with two codec ids starts a stream all by itself. */
  lemma CodecIdsStart(video: Number, audio: Number, live: bool)
    ensures var body := StringBytes(ON_META_DATA) + FullValue(Obj(CodecIds(video, audio)));
            var ms := [Media(METADATA, 0, body, Announced(body))];
            AllReadable(ms) && StartUp(ms, [], false, false, 0, live) ==
            Some(Started(TagBytes(Tag(METADATA, 0, 0, body)), true, true, 0, []))
  {
    hide StartUp, Announced, FullValue, StringBytes, TagBytes;
    CodecIdsAreAnnounced(video, audio);
    CodecIdsLength(video, audio);
    NameFirst([]);
    MetadataStarts(StringBytes(ON_META_DATA) + FullValue(Obj(CodecIds(video, audio))), live);
  }

  lemma FirstOrLater(ms: seq<Media>, kind: Byte)
    requires ms != []
    ensures AnyBrings(ms, kind) == (Brings(ms[0], kind) || AnyBrings(ms[1..], kind))
  {
    hide Brings;
    if AnyBrings(ms, kind) {
      var i :| 0 <= i < |ms| && Brings(ms[i], kind);
      assert i > 0 ==> ms[i] == ms[1..][i - 1];
    }
    if AnyBrings(ms[1..], kind) {
      var i :| 0 <= i < |ms[1..]| && Brings(ms[1..][i], kind);
      assert ms[1..][i] == ms[i + 1];
    }
  }

  lemma StampedFirstOrLater(ms: seq<Media>, live: bool)
    requires AllReadable(ms) && ms != []
    ensures AnyStamped(ms, live) == (Stamped(ms[0], live) || AnyStamped(ms[1..], live))
  {
    hide Stamped;
    if AnyStamped(ms, live) {
      var i :| 0 <= i < |ms| && Stamped(ms[i], live);
      assert i > 0 ==> ms[i] == ms[1..][i - 1];
    }
    if AnyStamped(ms[1..], live) {
      var i :| 0 <= i < |ms[1..]| && Stamped(ms[1..][i], live);
      assert ms[1..][i] == ms[i + 1];
    }
  }
}
