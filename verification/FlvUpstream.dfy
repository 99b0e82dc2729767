/** From RTMP_Write to the receiver of the chunk stream: the packets of FLV tags on their channel. */
module FlvUpstream {
  import opened Bytes
  import opened Amf0
  import opened AmfGrammar
  import opened FlvTags
  import opened FlvWrite
  import opened ChunkFormat
  import opened ChunkReceive
  import opened ChunkRoundTrip
  import opened ChunkTimestamps
  import opened ChunkHeaders

  /** A tag of media or metadata whose packet has a 24-bit size. */
  predicate Media(t: Tag) {
    t.kind in {AUDIO, VIDEO, METADATA} && |t.data| + (if t.kind == METADATA then 16 else 0) < 0x100_0000
  }

  predicate AllMedia(tags: seq<Tag>) {
    forall i :: 0 <= i < |tags| ==> Media(tags[i])
  }

  /** Metadata, and audio or video at time zero, go out with an absolute time and their stream id,
      whatever went before; every other packet with a difference and without. */
  lemma AbsoluteTime(t: Tag, prev: Option<OutRecord>, id: U32, cs: nat)
    requires Media(t) && cs > 0
    ensures var p := TagPacket(t, id);
            p.headerType <= 3 && p.channel == 4 && TakeBasic(Emission(prev, p, cs)).Some? &&
            (TakeBasic(Emission(prev, p, cs)).value.0 == LARGE <==> t.kind == METADATA || t.timestamp == 0)
  {
    hide Emission, TakeBasic, Prefix;
    HeaderTypeOnWire(prev, TagPacket(t, id), cs);
  }

  predicate Opens(tags: seq<Tag>) {
    tags == [] || tags[0].kind == METADATA || tags[0].timestamp == 0
  }

  /** The packets of tags open channel 4 as a receiver needs it if and only if the first tag is
      metadata or has time zero. */
  lemma TagsAreSendable(tags: seq<Tag>, id: U32, clock: U32)
    requires AllMedia(tags)
    ensures AllSendable(Fresh(clock), TagPackets(tags, id), 4) <==> Opens(tags)
  {
    hide Prefix;
    if tags != [] {
      var ps := TagPackets(tags, id);
      assert ps[1..] == TagPackets(tags[1..], id);
      RestIsSendable(After(Fresh(clock), ps[0]), tags[1..], id);
    }
  }

  lemma {:induction false} RestIsSendable(track: Track, tags: seq<Tag>, id: U32)
    requires AllMedia(tags) && track.prev.Some? && track.streamId == id
    ensures AllSendable(track, TagPackets(tags, id), 4)
    decreases |tags|
  {
    hide Prefix;
    if tags != [] {
      var ps := TagPackets(tags, id);
      assert ps[1..] == TagPackets(tags[1..], id);
      RestIsSendable(After(track, ps[0]), tags[1..], id);
    }
  }

  /** The message of a tag, but for its time: metadata behind the string "@setDataFrame". */
  predicate IsMessageOf(m: Message, t: Tag, id: U32) {
    m.channel == 4 && m.packetType == t.kind && m.streamId == id &&
    if t.kind != METADATA then m.body == t.data
    else
      |m.body| == 16 + |t.data| && m.body[16..] == t.data &&
      DecodeProp(m.body, false) == Ok(Prop([], Str(Text("@setDataFrame"))), 16)
  }

  lemma {:induction false} MessagesOfTags(track: Track, tags: seq<Tag>, id: U32)
    requires AllMedia(tags)
    ensures var ms := Expected(track, TagPackets(tags, id));
            |ms| == |tags| && forall i :: 0 <= i < |tags| ==> IsMessageOf(ms[i], tags[i], id)
    decreases |tags|
  {
    hide IsMessageOf;
    if tags != [] {
      var ps, ms := TagPackets(tags, id), Expected(track, TagPackets(tags, id));
      assert ps[1..] == TagPackets(tags[1..], id);
      MessagesOfTags(After(track, ps[0]), tags[1..], id);
      MessageOfTag(track, tags[0], id);
      forall i | 0 <= i < |tags| ensures IsMessageOf(ms[i], tags[i], id) {
        if i > 0 { assert tags[i] == tags[1..][i - 1]; }
      }
    }
  }

  lemma MessageOfTag(track: Track, t: Tag, id: U32)
    requires Media(t)
    ensures IsMessageOf(ChunkRoundTrip.Delivered(track, TagPacket(t, id)), t, id)
  {
    hide DecodeProp, Text, Be16;
    if t.kind == METADATA {
      var name := Text("@setDataFrame");
      var body := StringBytes(name) + t.data;
      DropPrefix(StringBytes(name), t.data);
      assert Encodes(StringBytes(name), Str(name));
      ValueExactly(body, Str(name), 16);
    }
  }

  /** The chunks of the packets of tags. */
  function ChunksOf(tags: seq<Tag>, id: U32, clock: U32, cs: nat): seq<WireChunk>
    requires AllMedia(tags) && Opens(tags) && cs > 0
  {
    TagsAreSendable(tags, id, clock);
    ChannelChunks(Fresh(clock), TagPackets(tags, id), 4, cs)
  }

  /** What RTMP_Write has made of FLV tags, sent in chunks of any size, reaches a receiver as one
      message a tag, in order, and nothing else, if the first tag is metadata or has time zero. */
  lemma WrittenThenReceived(tags: seq<Tag>, id: U32, st: RecvState, cur: InPacket)
    requires AllMedia(tags) && Opens(tags)
    requires st.Valid() && cur.Valid() && st.chunkSize > 0 && 4 !in st.saved
    ensures var r := ReadAll(st, cur, WireBytes(ChunksOf(tags, id, st.ClockOf(4), st.chunkSize)));
            r.left == [] && |r.messages| == |tags| &&
            forall i :: 0 <= i < |tags| ==> IsMessageOf(r.messages[i], tags[i], id)
  {
    hide ReadAll, ChannelChunks, AllSendable, TagPackets, IsMessageOf, Expected, Interleaves;
    var clock, ps := st.ClockOf(4), TagPackets(tags, id);
    var w := ChunksOf(tags, id, clock, st.chunkSize);
    TagsAreSendable(tags, id, clock);
    OneChannelInterleaves(st, ps, w);
    InterleavedRoundTrip(map[4 := ps], w, st, cur);
    CompletedChannel(Fresh(clock), ps, 4, st.chunkSize);
    MessagesOfTags(Fresh(clock), tags, id);
  }

  lemma OneChannelInterleaves(st: RecvState, ps: seq<Packet>, w: seq<WireChunk>)
    requires st.chunkSize > 0 && AllSendable(Fresh(st.ClockOf(4)), ps, 4)
    requires w == ChannelChunks(Fresh(st.ClockOf(4)), ps, 4, st.chunkSize)
    ensures Interleaves(w, Starting(map[4 := ps], st), st.chunkSize)
  {
    hide ChannelChunks, AllSendable;
    OnOneChannel(Fresh(st.ClockOf(4)), ps, 4, st.chunkSize);
    forall d: nat ensures OnChannel(w, d) == if d == 4 then w else [] {
      Only(w, 4, d);
    }
  }

  predicate AllOn(w: seq<WireChunk>, c: nat) {
    forall i :: 0 <= i < |w| ==> w[i].channel == c
  }

  lemma {:induction false} Only(w: seq<WireChunk>, c: nat, d: nat)
    requires AllOn(w, c)
    ensures OnChannel(w, d) == if d == c then w else []
  {
    if w != [] {
      Only(w[1..], c, d);
    }
  }

  lemma {:induction false} OnOneChannel(track: Track, todo: seq<Packet>, c: nat, cs: nat)
    requires AllSendable(track, todo, c) && cs > 0
    ensures AllOn(ChannelChunks(track, todo, c, cs), c)
    decreases |todo|
  {
    if todo != [] {
      RestOnOneChannel(track, todo[0], Min(cs, |todo[0].body|), cs);
      OnOneChannel(After(track, todo[0]), todo[1..], c, cs);
    }
  }

  lemma {:induction false} RestOnOneChannel(track: Track, p: Packet, k: nat, cs: nat)
    requires k <= |p.body| && p.channel <= 65599 && cs > 0
    ensures AllOn(RestChunks(track, p, k, cs), p.channel)
    decreases |p.body| - k
  {
    if k < |p.body| {
      RestOnOneChannel(track, p, k + Min(cs, |p.body| - k), cs);
    }
  }

  /** Neighbouring tags that differ in kind, time or size. */
  predicate NoRepeats(tags: seq<Tag>) {
    forall i :: 0 < i < |tags| ==>
      tags[i].kind != tags[i - 1].kind || tags[i].timestamp != tags[i - 1].timestamp ||
      |tags[i].data| != |tags[i - 1].data|
  }

  /** The times arrive too when no tag repeats kind, time and size of the one before it. */
  lemma TimesOfTags(tags: seq<Tag>, id: U32, clock: U32)
    requires AllMedia(tags) && Opens(tags) && NoRepeats(tags)
    ensures SameTimes(Expected(Fresh(clock), TagPackets(tags, id)), TagPackets(tags, id))
  {
    hide Prefix, TagPackets, AllSendable;
    TagsAreSendable(tags, id, clock);
    FieldsStandFrom(Fresh(clock), tags, id, []);
    TimestampsOverARun(Fresh(clock), TagPackets(tags, id), 4);
  }

  lemma {:induction false} FieldsStandFrom(track: Track, tags: seq<Tag>, id: U32, before: seq<Tag>)
    requires AllMedia(tags) && |before| <= 1 && NoRepeats(before + tags)
    requires track.prev.Some? ==> before != [] && track.prev.value == RecordOf(TagPacket(before[0], id))
    ensures AllFieldsStand(track, TagPackets(tags, id))
    decreases |tags|
  {
    hide Prefix;
    if tags != [] {
      var ps, t := TagPackets(tags, id), tags[0];
      assert ps[1..] == TagPackets(tags[1..], id);
      assert [t] + tags[1..] == tags && forall i :: 0 <= i < |tags| ==> tags[i] == (before + tags)[|before| + i];
      FieldsStandFrom(After(track, ps[0]), tags[1..], id, [t]);
      if before != [] {
        assert (before + tags)[1] == t && (before + tags)[0] == before[0];
      }
    }
  }
}
