/** What RTMP_Read hands out, RTMP_Write takes. */
module FlvBridge {
  import opened Bytes
  import opened FlvTags
  import opened FlvRead
  import opened FlvStream
  import opened FlvWrite

  /** The stream a reader hands out for these packets, if it starts. */
  function StreamOf(cs: seq<Content>, announced: set<Byte>, live: bool): seq<Byte>
    requires AllWhole(cs) && AllReadable(PacketsOf(cs))
  {
    match StartUp(PacketsOf(cs), [], AUDIO in announced, VIDEO in announced, 0, live)
    case None => []
    case Some(s) => FlvHeader(s.audio, s.video) + StreamBytes(PacketsOf(cs))
  }

  /** A stream that was read and is written again, in pieces cut as they may be, becomes one
      packet for every tag, with the same kind, timestamp and data. */
  lemma ReadThenWritten(cs: seq<Content>, announced: set<Byte>, live: bool, pieces: seq<seq<Byte>>, id: U32)
    requires AllWhole(cs) && AllWritable(AllTags(cs)) && AllTags(cs) != [] && AllReadable(PacketsOf(cs))
    requires var start := StartUp(PacketsOf(cs), [], AUDIO in announced, VIDEO in announced, 0, live);
             start.Some? && CutUp(FlvHeader(start.value.audio, start.value.video), AllTags(cs), 0, pieces)
    ensures Flat(pieces) == StreamOf(cs, announced, live)
    ensures FeedAll(Idle, pieces, id) == Some(Total(Idle, TagPackets(AllTags(cs), id), true))
  {
    hide StartUp, CutUp, FeedAll, AllTags, TagsBytes, StreamBytes, TagPackets, AllWritable, PacketsOf;
    var s := StartUp(PacketsOf(cs), [], AUDIO in announced, VIDEO in announced, 0, live).value;
    var h := FlvHeader(s.audio, s.video);
    StreamIsTags(cs);
    AnyCuts(h, AllTags(cs), pieces, id);
    FlatIs(h, AllTags(cs), 0, pieces);
    assert (h + TagsBytes(AllTags(cs)))[0..] == h + TagsBytes(AllTags(cs));
  }

  /** In one piece, for example. */
  lemma ReadThenWrittenWhole(cs: seq<Content>, announced: set<Byte>, live: bool, id: U32)
    requires AllWhole(cs) && AllWritable(AllTags(cs)) && AllTags(cs) != [] && AllReadable(PacketsOf(cs))
    requires StartUp(PacketsOf(cs), [], AUDIO in announced, VIDEO in announced, 0, live).Some?
    ensures FeedAll(Idle, [StreamOf(cs, announced, live)], id) == Some(Total(Idle, TagPackets(AllTags(cs), id), true))
  {
    hide StartUp, CutUp, FeedAll, AllTags, TagsBytes, StreamBytes, TagPackets, AllWritable, PacketsOf;
    var s := StartUp(PacketsOf(cs), [], AUDIO in announced, VIDEO in announced, 0, live).value;
    StreamIsTags(cs);
    OnePiece(FlvHeader(s.audio, s.video), AllTags(cs));
    ReadThenWritten(cs, announced, live, [StreamOf(cs, announced, live)], id);
  }

  function Flat(pieces: seq<seq<Byte>>): seq<Byte> {
    if pieces == [] then [] else pieces[0] + Flat(pieces[1..])
  }

  lemma {:induction false} FlatIs(h: seq<Byte>, tags: seq<Tag>, c: nat, pieces: seq<seq<Byte>>)
    requires CutUp(h, tags, c, pieces)
    ensures c <= |h + TagsBytes(tags)| && Flat(pieces) == (h + TagsBytes(tags))[c..]
    decreases |pieces|
  {
    hide TagsBytes, FileCut;
    if pieces != [] {
      var s, d := h + TagsBytes(tags), c + |pieces[0]|;
      FlatIs(h, tags, d, pieces[1..]);
      assert s[c..] == s[c..d] + s[d..];
    }
  }
}
