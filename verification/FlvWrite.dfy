/** RTMP_Write: FLV bytes, cut anyhow inside tag bodies, as one RTMP packet a tag. */
module FlvWrite {
  import opened Bytes
  import opened FlvTags
  import opened Amf0
  import opened ChunkFormat
  import opened AmfBuffer
  import opened Net

  const SOURCE_CHANNEL := 4
  const FLV_HEADER := 13
  const SET_DATA_FRAME := Text("@setDataFrame")

  /** The packet under construction. With no byte of its body there, RTMP_Write takes itself
      to be between packets. */
  datatype Partial = Idle | Filling(kind: Byte, timestamp: U32, size: nat, got: seq<Byte>) {
    predicate Valid() { Filling? ==> 0 < |got| < size }
  }

  function HeaderTypeOf(kind: Byte, timestamp: U32): nat {
    if ((kind == AUDIO || kind == VIDEO) && timestamp == 0) || kind == METADATA then LARGE else MEDIUM
  }

  function Prefix(kind: Byte): (s: seq<Byte>)
    ensures |s| == if kind == METADATA then 16 else 0
  {
    if kind == METADATA then StringBytes(SET_DATA_FRAME) else []
  }

  /** The packet for a tag: metadata gains a leading "@setDataFrame" string. */
  function PacketFor(kind: Byte, timestamp: U32, streamId: U32, body: seq<Byte>): Packet {
    Packet(HeaderTypeOf(kind, timestamp), kind, SOURCE_CHANNEL, timestamp, streamId, body)
  }

  function TagPacket(t: Tag, streamId: U32): Packet {
    PacketFor(t.kind, t.timestamp, streamId, Prefix(t.kind) + t.data)
  }

  function TagPackets(tags: seq<Tag>, streamId: U32): (ps: seq<Packet>)
    ensures |ps| == |tags|
  {
    seq(|tags|, i requires 0 <= i < |tags| => TagPacket(tags[i], streamId))
  }

  predicate StartsFlv(s: seq<Byte>) {
    |s| >= 3 && s[0] == 'F' as int && s[1] == 'L' as int && s[2] == 'V' as int
  }

  function SkipFlv(s: seq<Byte>): seq<Byte>
    requires StartsFlv(s) ==> |s| >= FLV_HEADER
  {
    if StartsFlv(s) then s[FLV_HEADER..] else s
  }

  /** What a call has done: the packet it leaves unfinished, the packets to send, the number
      it returns, and whether it read a tag header without a byte of its body, which the
      next call will know nothing of. */
  datatype Outcome = Outcome(partial: Partial, packets: seq<Packet>, returned: int, forgot: bool)

  /** RTMP_Write on the bytes s, the rest of a call of `size` bytes. None if it reads or skips
      beyond the bytes it was given, or has to fit metadata of less than two bytes. */
  function Feed(p: Partial, s: seq<Byte>, size: nat, id: U32): (o: Option<Outcome>)
    requires p.Valid()
    ensures o.Some? ==> o.value.partial.Valid()
    decreases |s|, 1
  {
    if s == [] then Some(Outcome(p, [], size, false))
    else if p.Filling? then Fill(p, s, size, id)
    else if size < TAG_HEADER then Some(Outcome(Idle, [], 0, false))
    else if !Beginnable(s) then None
    else Fill(Begun(SkipFlv(s)), SkipFlv(s)[TAG_HEADER..], size, id)
  }

  predicate Beginnable(s: seq<Byte>) {
    (StartsFlv(s) ==> |s| >= FLV_HEADER) &&
    |SkipFlv(s)| >= TAG_HEADER && (SkipFlv(s)[0] == METADATA ==> DataSize(SkipFlv(s)) >= 2)
  }

  /** The state after a tag header. */
  function Begun(b: seq<Byte>): (p: Partial)
    requires |b| >= TAG_HEADER && (b[0] == METADATA ==> DataSize(b) >= 2)
    ensures p.Filling? && |p.got| <= p.size
  {
    Filling(b[0], StampOf(b[4..]), DataSize(b) + |Prefix(b[0])|, Prefix(b[0]))
  }

  function Fill(p: Partial, s: seq<Byte>, size: nat, id: U32): (o: Option<Outcome>)
    requires p.Filling? && |p.got| <= p.size
    ensures o.Some? ==> o.value.partial.Valid()
    decreases |s|, 0
  {
    var num := Min(p.size - |p.got|, |s|);
    var got := p.got + s[..num];
    if |got| < p.size then Some(Outcome(if got == [] then Idle else p.(got := got), [], size, got == []))
    else
      var packet := PacketFor(p.kind, p.timestamp, id, got);
      if |s| < num + 4 then Some(Outcome(Idle, [packet], size + |s| - num - 4, false))
      else
        match Feed(Idle, s[num + 4..], size, id)
        case None => None
        case Some(o) => Some(o.(packets := [packet] + o.packets))
  }

  // ---- Where the bytes may be cut ----

  /** Tags RTMP_Write can take: metadata of two bytes or more, nothing that looks like the
      beginning of an FLV file. */
  predicate Writable(t: Tag) {
    t.Fits() && (t.kind == METADATA ==> |t.data| >= 2) && !StartsFlv(HeaderBytes(t))
  }

  predicate AllWritable(tags: seq<Tag>) {
    forall i :: 0 <= i < |tags| ==> Writable(tags[i])
  }

  function TagSize(t: Tag): nat { TAG_HEADER + |t.data| + 4 }

  /** Position c lies between tags or strictly inside the data of one; in metadata it may
      also lie right behind the header. */
  predicate Cut(tags: seq<Tag>, c: nat) {
    c == 0 ||
    (tags != [] &&
      if c >= TagSize(tags[0]) then Cut(tags[1..], c - TagSize(tags[0]))
      else TAG_HEADER + (if tags[0].kind == METADATA then 0 else 1) <= c < TAG_HEADER + |tags[0].data|)
  }

  /** The packet unfinished at c. */
  function At(tags: seq<Tag>, c: nat): (p: Partial)
    requires Cut(tags, c)
    ensures p.Valid()
  {
    if c == 0 then Idle
    else
      var t := tags[0];
      if c >= TagSize(t) then At(tags[1..], c - TagSize(t))
      else Filling(t.kind, t.timestamp, |Prefix(t.kind)| + |t.data|, Prefix(t.kind) + t.data[..c - TAG_HEADER])
  }

  /** The packets of the tags that end after c and at or before d. */
  function Between(tags: seq<Tag>, c: nat, d: nat, id: U32): seq<Packet>
    requires c <= d
  {
    if tags == [] || d < TagSize(tags[0]) then []
    else if c >= TagSize(tags[0]) then Between(tags[1..], c - TagSize(tags[0]), d - TagSize(tags[0]), id)
    else [TagPacket(tags[0], id)] + Between(tags[1..], 0, d - TagSize(tags[0]), id)
  }

  lemma FirstTag(t: Tag, r: seq<Byte>)
    requires Writable(t)
    ensures var s := HeaderBytes(t) + r;
            Beginnable(s) && SkipFlv(s) == s && s[TAG_HEADER..] == r &&
            Begun(s) == Filling(t.kind, t.timestamp, |t.data| + |Prefix(t.kind)|, Prefix(t.kind))
  {
    hide HeaderBytes, StampOf, Dec24, Prefix;
    HeaderFields(t, r);
    var h := HeaderBytes(t);
    assert forall k :: 0 <= k < 3 ==> (h + r)[k] == h[k];
    assert (h + r)[TAG_HEADER..] == r;
  }

  /** The body of a tag from any position in it, to any other or past the tag. */
  lemma FillTag(t: Tag, i: nat, r: seq<Byte>, size: nat, id: U32)
    requires i <= |t.data|
    ensures var p := Filling(t.kind, t.timestamp, |t.data| + |Prefix(t.kind)|, Prefix(t.kind) + t.data[..i]);
            var s := t.data[i..] + Be32(|t.data| + TAG_HEADER) + r;
            Fill(p, s, size, id) ==
            match Feed(Idle, r, size, id)
            case None => None
            case Some(o) => Some(o.(packets := [TagPacket(t, id)] + o.packets))
  {
    hide Feed, Prefix, Be32;
    var s := t.data[i..] + Be32(|t.data| + TAG_HEADER) + r;
    assert s[..|t.data| - i] == t.data[i..];
    assert Prefix(t.kind) + t.data[..i] + t.data[i..] == Prefix(t.kind) + t.data;
    assert s[|t.data| - i + 4..] == r;
  }

  lemma FillPart(t: Tag, i: nat, j: nat, size: nat, id: U32)
    requires i <= j < |t.data| && (t.kind != METADATA ==> j > 0)
    ensures var p := Filling(t.kind, t.timestamp, |t.data| + |Prefix(t.kind)|, Prefix(t.kind) + t.data[..i]);
            Fill(p, t.data[i..j], size, id) == Some(Outcome(p.(got := Prefix(t.kind) + t.data[..j]), [], size, false))
  {
    hide Feed, Prefix;
    var got := Prefix(t.kind) + t.data[..j];
    assert Prefix(t.kind) + t.data[..i] + t.data[i..j] == got;
    assert t.data[i..j][..j - i] == t.data[i..j];
    assert |got| == |Prefix(t.kind)| + j;
  }

  /** From any cut to any later one: the state, the packets and the full count. */
  lemma {:induction false} Piece(tags: seq<Tag>, c: nat, d: nat, size: nat, id: U32)
    requires AllWritable(tags) && Cut(tags, c) && Cut(tags, d) && c <= d <= |TagsBytes(tags)| && d - c <= size
    ensures Feed(At(tags, c), TagsBytes(tags)[c..d], size, id) ==
      Some(Outcome(At(tags, d), Between(tags, c, d, id), size, false))
  {
    hide Feed, Fill, HeaderBytes, Writable, Be32, TagPacket;
    if c == d {
      NothingFed(tags, c, size, id);
    } else {
      var t, rest := tags[0], TagsBytes(tags[1..]);
      var n := TagSize(t);
      assert TagsBytes(tags) == TagBytes(t) + rest;
      if c >= n {
        assert TagsBytes(tags)[c..d] == rest[c - n..d - n];
        Piece(tags[1..], c - n, d - n, size, id);
      } else if d >= n {
        assert Cut(tags[1..], d - n);
        Piece(tags[1..], 0, d - n, size, id);
        PastTag(t, c, rest, d, size, id);
      } else {
        InTag(t, c, d, rest, size, id);
      }
    }
  }

  lemma NothingFed(tags: seq<Tag>, c: nat, size: nat, id: U32)
    requires Cut(tags, c) && c <= |TagsBytes(tags)|
    ensures TagsBytes(tags)[c..c] == [] && Between(tags, c, c, id) == []
    ensures Feed(At(tags, c), [], size, id) == Some(Outcome(At(tags, c), [], size, false))
  {
    NoneBetween(tags, c, id);
  }

  lemma {:induction false} NoneBetween(tags: seq<Tag>, c: nat, id: U32)
    ensures Between(tags, c, c, id) == []
  {
    if tags != [] && c >= TagSize(tags[0]) {
      NoneBetween(tags[1..], c - TagSize(tags[0]), id);
    }
  }

  /** From inside or before a tag to the cut d behind it. */
  lemma PastTag(t: Tag, c: nat, rest: seq<Byte>, d: nat, size: nat, id: U32)
    requires Writable(t) && Cut([t], c) && c < TagSize(t) <= d <= TagSize(t) + |rest| && d - c <= size
    ensures Feed(At([t], c), (TagBytes(t) + rest)[c..d], size, id) ==
            match Feed(Idle, rest[..d - TagSize(t)], size, id)
            case None => None
            case Some(o) => Some(o.(packets := [TagPacket(t, id)] + o.packets))
  {
    hide Feed, Fill, HeaderBytes, Writable, Be32, TagPacket, Beginnable, Begun, Prefix, SkipFlv;
    var h, r, tail := HeaderBytes(t), rest[..d - TagSize(t)], Be32(|t.data| + TAG_HEADER);
    if c == 0 {
      assert (TagBytes(t) + rest)[0..d] == h + (t.data + tail + r);
      FirstTag(t, t.data + tail + r);
      FillTag(t, 0, r, size, id);
      assert t.data[0..] == t.data && Prefix(t.kind) + t.data[..0] == Prefix(t.kind);
      FedBehindHeader(h + (t.data + tail + r), size, id);
    } else {
      var i := c - TAG_HEADER;
      assert (TagBytes(t) + rest)[c..d] == t.data[i..] + tail + r;
      FillTag(t, i, r, size, id);
      FedPart(At([t], c), t.data[i..] + tail + r, size, id);
    }
  }

  lemma FedBehindHeader(s: seq<Byte>, size: nat, id: U32)
    requires Beginnable(s) && SkipFlv(s) == s && |s| >= TAG_HEADER && size >= TAG_HEADER
    ensures Feed(Idle, s, size, id) == Fill(Begun(s), s[TAG_HEADER..], size, id)
  {
    hide Fill, Begun;
  }

  lemma FedPart(p: Partial, s: seq<Byte>, size: nat, id: U32)
    requires p.Valid() && p.Filling? && s != []
    ensures Feed(p, s, size, id) == Fill(p, s, size, id)
  {
    hide Fill;
  }

  lemma InTag(t: Tag, c: nat, d: nat, rest: seq<Byte>, size: nat, id: U32)
    requires Writable(t) && Cut([t], c) && Cut([t], d) && c < d < TagSize(t) && d - c <= size
    ensures Feed(At([t], c), (TagBytes(t) + rest)[c..d], size, id) == Some(Outcome(At([t], d), [], size, false))
  {
    hide Feed, Fill, HeaderBytes, Writable, Be32, TagPacket, Beginnable, Begun, Prefix, SkipFlv;
    var h, j := HeaderBytes(t), d - TAG_HEADER;
    if c == 0 {
      assert (TagBytes(t) + rest)[0..d] == h + t.data[0..j];
      FirstTag(t, t.data[0..j]);
      FillPart(t, 0, j, size, id);
      assert Prefix(t.kind) + t.data[..0] == Prefix(t.kind);
      FedBehindHeader(h + t.data[0..j], size, id);
    } else {
      var i := c - TAG_HEADER;
      assert (TagBytes(t) + rest)[c..d] == t.data[i..j];
      FillPart(t, i, j, size, id);
      FedPart(At([t], c), t.data[i..j], size, id);
    }
  }

  // ---- Whole files in pieces ----

  /** An optional FLV header, then tags. */
  predicate FileStart(h: seq<Byte>) {
    h == [] || (|h| == FLV_HEADER && StartsFlv(h))
  }

  predicate FileCut(h: seq<Byte>, tags: seq<Tag>, c: nat) {
    c == 0 || (c > |h| && Cut(tags, c - |h|))
  }

  function FileAt(h: seq<Byte>, tags: seq<Tag>, c: nat): (p: Partial)
    requires FileCut(h, tags, c)
    ensures p.Valid()
  {
    if c == 0 then Idle else At(tags, c - |h|)
  }

  function FileBetween(h: seq<Byte>, tags: seq<Tag>, c: nat, d: nat, id: U32): seq<Packet>
    requires c <= d
  {
    if d <= |h| then [] else Between(tags, if c <= |h| then 0 else c - |h|, d - |h|, id)
  }

  lemma FilePiece(h: seq<Byte>, tags: seq<Tag>, c: nat, d: nat, id: U32)
    requires FileStart(h) && AllWritable(tags) && FileCut(h, tags, c) && FileCut(h, tags, d)
    requires c <= d <= |h + TagsBytes(tags)|
    ensures Feed(FileAt(h, tags, c), (h + TagsBytes(tags))[c..d], d - c, id) ==
            Some(Outcome(FileAt(h, tags, d), FileBetween(h, tags, c, d, id), d - c, false))
  {
    hide Feed, TagsBytes, AllWritable, Cut, At, Between, StartsFlv;
    var s := TagsBytes(tags);
    if d == 0 {
      FeedNothing(Idle, 0, id);
    } else if c == 0 {
      StartsIdle(tags);
      Piece(tags, 0, d - |h|, d, id);
      assert (h + s)[0..d] == h + s[0..d - |h|];
      HeaderSkipped(h, tags, d - |h|, d, id);
    } else {
      assert (h + s)[c..d] == s[c - |h|..d - |h|];
      Piece(tags, c - |h|, d - |h|, d - c, id);
    }
  }

  lemma FeedNothing(p: Partial, size: nat, id: U32)
    requires p.Valid()
    ensures Feed(p, [], size, id) == Some(Outcome(p, [], size, false))
  {
  }

  lemma StartsIdle(tags: seq<Tag>)
    ensures Cut(tags, 0) && At(tags, 0) == Idle
  {
  }

  lemma HeaderSkipped(h: seq<Byte>, tags: seq<Tag>, d: nat, size: nat, id: U32)
    requires FileStart(h) && AllWritable(tags) && 0 < d <= |TagsBytes(tags)| && Cut(tags, d) && size == |h| + d
    ensures Feed(Idle, h + TagsBytes(tags)[0..d], size, id) == Feed(Idle, TagsBytes(tags)[0..d], size, id)
  {
    hide Fill, Begun, HeaderBytes, Be32;
    var x := TagsBytes(tags)[0..d];
    if h == [] {
      assert h + x == x;
    } else {
      var t := tags[0];
      var r := TagsBytes(tags)[TAG_HEADER..d];
      assert x == HeaderBytes(t) + r;
      FirstTag(t, r);
      assert (h + x)[FLV_HEADER..] == x;
      assert forall k :: 0 <= k < 3 ==> (h + x)[k] == h[k];
    }
  }

  datatype Total = Total(partial: Partial, packets: seq<Packet>, accepted: bool)

  /** One call of RTMP_Write a piece. */
  function FeedAll(p: Partial, pieces: seq<seq<Byte>>, id: U32): Option<Total>
    requires p.Valid()
    decreases |pieces|
  {
    if pieces == [] then Some(Total(p, [], true))
    else
      match Feed(p, pieces[0], |pieces[0]|, id)
      case None => None
      case Some(o) =>
        match FeedAll(o.partial, pieces[1..], id)
        case None => None
        case Some(r) => Some(Total(r.partial, o.packets + r.packets, o.returned == |pieces[0]| && r.accepted))
  }

  /** The pieces make up what follows position c, and every cut between them is a good one. */
  predicate CutUp(h: seq<Byte>, tags: seq<Tag>, c: nat, pieces: seq<seq<Byte>>)
    decreases |pieces|
  {
    var s := h + TagsBytes(tags);
    FileCut(h, tags, c) &&
    if pieces == [] then c == |s|
    else c + |pieces[0]| <= |s| && pieces[0] == s[c..c + |pieces[0]|] && CutUp(h, tags, c + |pieces[0]|, pieces[1..])
  }

  lemma {:induction false} FeedFrom(h: seq<Byte>, tags: seq<Tag>, c: nat, pieces: seq<seq<Byte>>, id: U32)
    requires FileStart(h) && AllWritable(tags) && CutUp(h, tags, c, pieces)
    ensures c <= |h + TagsBytes(tags)| && FileCut(h, tags, |h + TagsBytes(tags)|)
    ensures FeedAll(FileAt(h, tags, c), pieces, id) ==
            Some(Total(FileAt(h, tags, |h + TagsBytes(tags)|), FileBetween(h, tags, c, |h + TagsBytes(tags)|, id),
              true))
    decreases |pieces|
  {
    hide Feed, FileBetween, FileAt, TagsBytes, FileStart, AllWritable, FileCut;
    var end := |h + TagsBytes(tags)|;
    if pieces == [] {
      FilePiece(h, tags, c, c, id);
      NoneInFile(h, tags, c, id);
    } else {
      var d := c + |pieces[0]|;
      FilePiece(h, tags, c, d, id);
      FeedFrom(h, tags, d, pieces[1..], id);
      FileBetweenAdds(h, tags, c, d, end, id);
    }
  }

  lemma NoneInFile(h: seq<Byte>, tags: seq<Tag>, c: nat, id: U32)
    ensures FileBetween(h, tags, c, c, id) == []
  {
    if c > |h| { NoneBetween(tags, c - |h|, id); }
  }

  lemma {:induction false} BetweenAdds(tags: seq<Tag>, c: nat, d: nat, e: nat, id: U32)
    requires c <= d <= e
    ensures Between(tags, c, d, id) + Between(tags, d, e, id) == Between(tags, c, e, id)
    decreases |tags|
  {
    hide TagPacket;
    if tags != [] {
      var n := TagSize(tags[0]);
      if c >= n {
        BetweenAdds(tags[1..], c - n, d - n, e - n, id);
      } else if d >= n {
        BetweenAdds(tags[1..], 0, d - n, e - n, id);
        Assoc([TagPacket(tags[0], id)], Between(tags[1..], 0, d - n, id), Between(tags[1..], d - n, e - n, id));
      }
    }
  }

  lemma FileBetweenAdds(h: seq<Byte>, tags: seq<Tag>, c: nat, d: nat, e: nat, id: U32)
    requires c <= d <= e
    ensures FileBetween(h, tags, c, d, id) + FileBetween(h, tags, d, e, id) == FileBetween(h, tags, c, e, id)
  {
    hide Between;
    var c', d' := if c <= |h| then 0 else c - |h|, if d <= |h| then 0 else d - |h|;
    if e > |h| {
      BetweenAdds(tags, c', d', e - |h|, id);
      if d <= |h| {
        assert [] + Between(tags, c', e - |h|, id) == Between(tags, c', e - |h|, id);
      }
    }
  }

  lemma {:induction false} AllBetween(tags: seq<Tag>, id: U32)
    ensures Between(tags, 0, |TagsBytes(tags)|, id) == TagPackets(tags, id)
    ensures Cut(tags, |TagsBytes(tags)|) && At(tags, |TagsBytes(tags)|) == Idle
  {
    hide TagPacket, TagBytes;
    if tags != [] {
      AllBetween(tags[1..], id);
      assert TagPackets(tags, id) == [TagPacket(tags[0], id)] + TagPackets(tags[1..], id);
    }
  }

  /** However a file is cut, as long as no cut lies in a header or a trailing size or right
      behind a header: one packet a tag, in order, every call returns its full size, and
      nothing is left over. */
  lemma AnyCuts(h: seq<Byte>, tags: seq<Tag>, pieces: seq<seq<Byte>>, id: U32)
    requires FileStart(h) && AllWritable(tags) && tags != [] && CutUp(h, tags, 0, pieces)
    ensures FeedAll(Idle, pieces, id) == Some(Total(Idle, TagPackets(tags, id), true))
  {
    hide FeedAll, Between, TagPackets, CutUp, Cut, At;
    FeedFrom(h, tags, 0, pieces, id);
    AllBetween(tags, id);
    assert |TagsBytes(tags)| > 0;
  }

  /** A whole file in one call is cut well. */
  lemma OnePiece(h: seq<Byte>, tags: seq<Tag>)
    requires FileStart(h) && tags != []
    ensures CutUp(h, tags, 0, [h + TagsBytes(tags)])
  {
    hide TagsBytes, At, Between;
    var s := h + TagsBytes(tags);
    AllBetween(tags, 0);
    TagsAreThere(tags);
    assert s[0..|s|] == s;
    assert CutUp(h, tags, |s|, []);
    var pieces: seq<seq<Byte>> := [s];
    assert pieces[1..] == [];
  }

  lemma TagsAreThere(tags: seq<Tag>)
    requires tags != []
    ensures |TagsBytes(tags)| > 0
  {
  }

  /** A cut elsewhere in a tag is one too many: the call does not return its full size, or
      drops the tag. */
  lemma CutExactly(t: Tag, c: nat, id: U32)
    requires Writable(t) && 0 < c <= TagSize(t)
    ensures var o := Feed(Idle, TagBytes(t)[..c], c, id);
            Cut([t], c) <==> o.Some? && o.value.returned == c && !o.value.forgot
  {
    hide HeaderBytes, Writable, Be32, Prefix, StampOf, Beginnable, Begun, SkipFlv, Fill, TagBytes;
    var s, k := TagBytes(t)[..c], c - TAG_HEADER;
    if k >= 0 {
      var r := s[TAG_HEADER..];
      CutTag(t, c);
      FirstTag(t, r);
      FedBehindHeader(s, c, id);
      var p := Filling(t.kind, t.timestamp, |t.data| + |Prefix(t.kind)|, Prefix(t.kind));
      if k < |t.data| {
        FillsPart(p, r, c, id);
      } else {
        FillsAll(p, r, |t.data|, c, id);
      }
    }
  }

  /** An audio tag cut behind its header: both calls claim their full size or nothing, and the
      tag is gone. */
  lemma HeaderAlone(id: U32)
    ensures var t := Tag(AUDIO, 0, 0, [7]);
            Writable(t) && TagSize(t) == 16 &&
            Feed(Idle, TagBytes(t)[..11], 11, id) == Some(Outcome(Idle, [], 11, true)) &&
            Feed(Idle, TagBytes(t)[11..], 5, id) == Some(Outcome(Idle, [], 0, false))
  {
    hide Fill, StampOf, Be32, Beginnable, Begun, SkipFlv;
    var t := Tag(AUDIO, 0, 0, [7]);
    CutTag(t, 11);
    FirstTag(t, []);
    assert TagBytes(t)[..11] == HeaderBytes(t) + [];
    FedBehindHeader(TagBytes(t)[..11], 11, id);
    FillsPart(Filling(AUDIO, 0, 1, []), [], 11, id);
  }

  /** A cut inside a trailing size: the packet is sent, and the call claims as many bytes less as
      are missing. */
  lemma TrailerCut(t: Tag, c: nat, id: U32)
    requires Writable(t) && TagSize(t) - 4 <= c <= TagSize(t)
    ensures Feed(Idle, TagBytes(t)[..c], c, id) == Some(Outcome(Idle, [TagPacket(t, id)], c - (TagSize(t) - c), false))
  {
    hide HeaderBytes, Writable, Be32, Prefix, StampOf, Beginnable, Begun, SkipFlv, Fill, TagBytes;
    var s, n := TagBytes(t)[..c], |t.data|;
    var r := s[TAG_HEADER..];
    CutTag(t, c);
    FirstTag(t, r);
    FedBehindHeader(s, c, id);
    TagDataIs(t, c);
    FillIs(Filling(t.kind, t.timestamp, n + |Prefix(t.kind)|, Prefix(t.kind)), r, c, id);
    if c == TagSize(t) {
      assert r[n + 4..] == [];
      FeedNothing(Idle, c, id);
      assert [TagPacket(t, id)] + [] == [TagPacket(t, id)];
    }
  }

  lemma TagDataIs(t: Tag, c: nat)
    requires TAG_HEADER + |t.data| <= c <= TagSize(t)
    ensures TagBytes(t)[..c][TAG_HEADER..][..|t.data|] == t.data
  {
    hide HeaderBytes, Be32;
    var h, tail := HeaderBytes(t), Be32(|t.data| + TAG_HEADER);
    SubSlice(TagBytes(t)[..c], TAG_HEADER, c, 0, |t.data|);
    SubTake(TagBytes(t), c, TAG_HEADER, TAG_HEADER + |t.data|);
    Middle(h, t.data, tail);
  }

  /** A tag cut behind its header. */
  lemma CutTag(t: Tag, c: nat)
    requires TAG_HEADER <= c <= TagSize(t)
    ensures var s := TagBytes(t)[..c];
            s == HeaderBytes(t) + s[TAG_HEADER..] && |s[TAG_HEADER..]| == c - TAG_HEADER
  {
    hide HeaderBytes, Be32;
    var h, rest := HeaderBytes(t), t.data + Be32(|t.data| + TAG_HEADER);
    assert TagBytes(t) == h + rest;
    assert TagBytes(t)[..c] == h + rest[..c - TAG_HEADER];
    DropPrefix(h, rest[..c - TAG_HEADER]);
  }

  lemma FillsPart(p: Partial, r: seq<Byte>, size: nat, id: U32)
    requires p.Filling? && |p.got| + |r| < p.size
    ensures Fill(p, r, size, id) ==
      Some(Outcome(if p.got + r == [] then Idle else p.(got := p.got + r), [], size, p.got + r == []))
  {
    assert r[..|r|] == r;
  }

  lemma FillsAll(p: Partial, r: seq<Byte>, num: nat, size: nat, id: U32)
    requires p.Filling? && |p.got| + num == p.size && num <= |r| <= num + 4
    ensures var o := Fill(p, r, size, id);
            o.Some? && o.value.returned == size + |r| - num - 4 && !o.value.forgot
  {
  }

  class Writer {
    const streamId: U32
    var kind: Byte
    var timestamp: U32
    var headerType: nat
    var bodySize: nat
    var bytesRead: nat
    var body: array?<Byte>
    var sent: seq<Packet>  // what RTMP_SendPacket has been given and has sent

    ghost predicate Valid()
      reads this, body
    {
      bytesRead > 0 ==>
        bytesRead < bodySize && body != null && body.Length == bodySize && headerType == HeaderTypeOf(kind, timestamp)
    }

    ghost function State(): (p: Partial)
      reads this, body
      requires Valid()
      ensures p.Valid()
    {
      if bytesRead == 0 then Idle else Filling(kind, timestamp, bodySize, body[..bytesRead])
    }

    constructor (streamId: U32)
      ensures Valid() && State() == Idle && sent == [] && this.streamId == streamId
    {
      this.streamId := streamId;
      bytesRead, bodySize, body, sent := 0, 0, null, [];
    }

    /** RTMP_SendPacket on the packet under construction, which is freed afterwards. */
    method SendPending(ghost packet: Packet) returns (ok: bool)
      requires body != null && body[..] == packet.body
      requires packet == Packet(headerType, kind, SOURCE_CHANNEL, timestamp, streamId, body[..])
      modifies this`sent, this`body, this`bytesRead
      ensures body == null && bytesRead == 0 && sent == if ok then old(sent) + [packet] else old(sent)
    {
      ok := *;
      if ok {
        sent := sent + [Packet(headerType, kind, SOURCE_CHANNEL, timestamp, streamId, body[..])];
      }
      body, bytesRead := null, 0;
    }

    /** The branch of RTMP_Write for a new tag: the header fields, the body buffer and, for
        metadata, the string in front. */
    method Begin(b: seq<Byte>)
      requires |b| >= TAG_HEADER && (b[0] == METADATA ==> DataSize(b) >= 2)
      modifies this`kind, this`timestamp, this`bodySize, this`headerType, this`body, this`bytesRead
      ensures body != null && fresh(body) && body.Length == bodySize && bytesRead <= bodySize
      ensures Begun(b) == Filling(kind, timestamp, bodySize, body[..bytesRead])
      ensures headerType == HeaderTypeOf(kind, timestamp)
    {
      hide StampOf, DataSize, StringBytes;
      kind, bodySize, timestamp := b[0], DataSize(b), StampOf(b[4..]);
      if ((kind == AUDIO || kind == VIDEO) && timestamp == 0) || kind == METADATA {
        headerType := LARGE;
        if kind == METADATA {
          bodySize := bodySize + 16;
        }
      } else {
        headerType := MEDIUM;
      }
      var room := new Byte[bodySize];
      body, bytesRead := room, 0;
      if kind == METADATA {
        var enc := EncodeString(room, 0, bodySize, SET_DATA_FRAME);
        bytesRead := enc.value;
      }
    }

    /** The first half of a turn between packets: past an FLV header and a tag header. */
    method StartTag(s: seq<Byte>, ghost size: nat) returns (eaten: nat)
      requires s != [] && size >= TAG_HEADER && Feed(Idle, s, size, streamId).Some?
      modifies this`kind, this`timestamp, this`bodySize, this`headerType, this`body, this`bytesRead
      ensures body != null && fresh(body) && body.Length == bodySize && bytesRead <= bodySize
      ensures headerType == HeaderTypeOf(kind, timestamp) && 0 < eaten <= |s|
      ensures Feed(Idle, s, size, streamId) ==
              Fill(Filling(kind, timestamp, bodySize, body[..bytesRead]), s[eaten..], size, streamId)
    {
      hide Feed, Fill, Begun, HeaderTypeOf;
      FeedBegins(s, size, streamId);
      eaten := 0;
      if StartsFlv(s) {
        eaten := FLV_HEADER;
      }
      Begin(s[eaten..]);
      Onward(s, eaten, TAG_HEADER);
      eaten := eaten + TAG_HEADER;
    }

    /** Copies as much of s as the body still lacks. */
    method FillBody(s: seq<Byte>) returns (num: nat)
      requires body != null && body.Length == bodySize && bytesRead <= bodySize
      modifies this`bytesRead, body
      ensures num == Min(bodySize - old(bytesRead), |s|) && bytesRead == old(bytesRead) + num
      ensures body[..bytesRead] == old(body[..bytesRead]) + s[..num]
    {
      num := bodySize - bytesRead;
      if num > |s| {
        num := |s|;
      }
      Put(body, bytesRead, s[..num]);
      bytesRead := bytesRead + num;
      Split(body[..], 0, bytesRead - num, bytesRead);
    }

    /** The second half of a turn: body bytes are copied and, when they are all there, the
        packet is sent and the trailing size skipped. */
    method TakeBody(s: seq<Byte>, ghost size: nat) returns (eaten: nat, ok: bool, ghost added: seq<Packet>)
      requires body != null && body.Length == bodySize && bytesRead <= bodySize
      requires headerType == HeaderTypeOf(kind, timestamp)
      requires Fill(Filling(kind, timestamp, bodySize, body[..bytesRead]), s, size, streamId).Some?
      modifies this`bytesRead, this`body, this`sent, body
      ensures Valid() && (body == null || body == old(body)) && sent == old(sent) + added
      ensures s != [] && old(bytesRead < bodySize) ==> eaten > 0
      ensures var o := old(Fill(Filling(kind, timestamp, bodySize, body[..bytesRead]), s, size, streamId)).value;
              if !ok then State() == Idle && added == [] && o.packets != []
              else if eaten > |s| then
                Rejoins(o, added, Outcome(Idle, [], size + |s| - eaten, false)) && State() == Idle
              else
                Feed(State(), s[eaten..], size, streamId).Some? &&
                Rejoins(o, added, Feed(State(), s[eaten..], size, streamId).value)
    {
      hide Feed, Fill, HeaderTypeOf;
      FillIs(Filling(kind, timestamp, bodySize, body[..bytesRead]), s, size, streamId);
      eaten := FillBody(s);
      if bytesRead == bodySize {
        ghost var packet := PacketFor(kind, timestamp, streamId, body[..]);
        assert body[..] == body[..bytesRead];
        ok := SendPending(packet);
        eaten, added := eaten + 4, if ok then [packet] else [];
      } else {
        ok, added := true, [];
        assert s[eaten..] == [];
        FeedNothing(State(), size, streamId);
      }
    }

    /** One turn of the loop of RTMP_Write. */
    method Turn(s: seq<Byte>, ghost size: nat) returns (eaten: nat, ok: bool, ghost added: seq<Packet>)
      requires Valid() && s != [] && (bytesRead == 0 ==> size >= TAG_HEADER) && Feed(State(), s, size, streamId).Some?
      modifies this, body
      ensures Valid() && (body == null || body == old(body) || fresh(body)) && sent == old(sent) + added && eaten > 0
      ensures var o := old(Feed(State(), s, size, streamId)).value;
              if !ok then State() == Idle && added == [] && o.packets != []
              else
                (eaten > |s| ==> State() == Idle) &&
                (eaten <= |s| ==> Feed(State(), s[eaten..], size, streamId).Some?) &&
                Rejoins(o, added, After(eaten, s, size))
    {
      hide Feed, Fill, Begun, Beginnable, HeaderTypeOf, Prefix, SkipFlv, Rejoins;
      eaten := 0;
      if bytesRead == 0 {
        eaten := StartTag(s, size);
      } else {
        FedPart(State(), s, size, streamId);
        assert s[0..] == s;
      }
      var taken;
      taken, ok, added := TakeBody(s[eaten..], size);
      Onward(s, eaten, taken);
      eaten := eaten + taken;
    }

    /** RTMP_Write. Unless a packet cannot be sent, it does what Feed says. */
    method Write(s: seq<Byte>) returns (ret: int, ghost ok: bool)
      requires Valid() && Feed(State(), s, |s|, streamId).Some?
      modifies this, body
      ensures Valid() && (body == null || body == old(body) || fresh(body))
      ensures ok ==> var o := old(Feed(State(), s, |s|, streamId)).value;
                     ret == o.returned && State() == o.partial && sent == old(sent) + o.packets
      ensures !ok ==> ret == -1 && State() == Idle &&
                      old(sent) <= sent < old(sent) + old(Feed(State(), s, |s|, streamId)).value.packets
    {
      hide Feed, Fill, Begun, Beginnable, HeaderTypeOf, Prefix, SkipFlv, Rejoins;
      var at, s2 := 0, |s|;
      ghost var all := Feed(State(), s, |s|, streamId).value;
      ghost var acc := [];
      RejoinsNothing(all);
      assert s[0..] == s;
      while s2 > 0
        invariant Valid() && (body == null || body == old(body) || fresh(body))
        invariant 0 <= at && s2 == |s| - at && sent == old(sent) + acc
        invariant at <= |s| ==> Feed(State(), s[at..], |s|, streamId).Some?
        invariant at > |s| ==> State() == Idle
        invariant Rejoins(all, acc, After(at, s, |s|))
        decreases s2
      {
        RejoinsIs(all, acc, After(at, s, |s|));
        if bytesRead == 0 && |s| < TAG_HEADER {
          FeedTooSmall(s[at..], |s|, streamId);
          return 0, true;
        }
        ghost var turn, added := After(at, s, |s|), [];
        var eaten, sentIt;
        eaten, sentIt, added := Turn(s[at..], |s|);
        if !sentIt {
          return -1, false;
        }
        Onward(s, at, eaten);
        RejoinsOn(all, acc, turn, added, After(at + eaten, s, |s|));
        acc := acc + added;
        at, s2 := at + eaten, s2 - eaten;
      }
      RejoinsIs(all, acc, After(at, s, |s|));
      if s2 == 0 { FeedNothing(State(), |s|, streamId); }
      return |s| + s2, true;
    }

    /** What a call does behind a turn that has taken so many of the bytes s. */
    ghost function After(eaten: nat, s: seq<Byte>, size: nat): Outcome
      reads this, body
      requires Valid() && (eaten <= |s| ==> Feed(State(), s[eaten..], size, streamId).Some?)
    {
      if eaten > |s| then Outcome(Idle, [], size + |s| - eaten, false)
      else Feed(State(), s[eaten..], size, streamId).value
    }
  }

  /** All the call does is what it has done and the rest. */
  ghost predicate Rejoins(all: Outcome, done: seq<Packet>, rest: Outcome) {
    all.partial == rest.partial && all.returned == rest.returned && all.packets == done + rest.packets
  }

  lemma RejoinsNothing(all: Outcome)
    ensures Rejoins(all, [], all)
  {
  }

  lemma RejoinsOn(all: Outcome, done: seq<Packet>, turn: Outcome, more: seq<Packet>, rest: Outcome)
    requires Rejoins(all, done, turn) && Rejoins(turn, more, rest)
    ensures Rejoins(all, done + more, rest)
  {
    Assoc(done, more, rest.packets);
  }

  lemma RejoinsIs(all: Outcome, done: seq<Packet>, rest: Outcome)
    requires Rejoins(all, done, rest)
    ensures all.partial == rest.partial && all.returned == rest.returned && all.packets == done + rest.packets
  {
  }

  lemma Onward(s: seq<Byte>, at: nat, num: nat)
    requires at <= |s|
    ensures at + num == |s| ==> s[at + num..] == []
    ensures at + num <= |s| ==> s[at..][num..] == s[at + num..]
  {
  }

  lemma FeedTooSmall(s: seq<Byte>, size: nat, id: U32)
    requires s != [] && size < TAG_HEADER
    ensures Feed(Idle, s, size, id) == Some(Outcome(Idle, [], 0, false))
  {
  }

  lemma FeedBegins(s: seq<Byte>, size: nat, id: U32)
    requires s != [] && size >= TAG_HEADER && Feed(Idle, s, size, id).Some?
    ensures StartsFlv(s) ==> |s| >= FLV_HEADER
    ensures var b := if StartsFlv(s) then s[FLV_HEADER..] else s;
            |b| >= TAG_HEADER && (b[0] == METADATA ==> DataSize(b) >= 2) &&
            Feed(Idle, s, size, id) == Fill(Begun(b), b[TAG_HEADER..], size, id)
  {
    hide Begun, Fill;
  }

  lemma FillIs(p: Partial, s: seq<Byte>, size: nat, id: U32)
    requires p.Filling? && |p.got| <= p.size
    ensures var num := Min(p.size - |p.got|, |s|);
            var got := p.got + s[..num];
            if |got| < p.size then
              num == |s| && Fill(p, s, size, id) ==
                Some(Outcome(if got == [] then Idle else p.(got := got), [], size, got == []))
            else
              var packet := PacketFor(p.kind, p.timestamp, id, got);
              if |s| < num + 4 then Fill(p, s, size, id) == Some(Outcome(Idle, [packet], size + |s| - num - 4, false))
              else
                var o := Feed(Idle, s[num + 4..], size, id);
                Fill(p, s, size, id) == if o.None? then None else Some(o.value.(packets := [packet] + o.value.packets))
  {
    hide Feed;
  }
}
