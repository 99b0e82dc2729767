/** RTMP_ReadPacket undoes RTMP_SendPacket, for any interleaving of the chunks of
    different channels, and exactly when the rebuilt timestamps are the sent ones. */
module ChunkRoundTrip {
  import opened Bytes
  import opened ChunkFormat
  import opened ChunkReceive

  lemma TakeBasicOfHeader(fmt: nat, c: nat, r: seq<Byte>)
    requires fmt <= 3 && 2 <= c <= 65599
    ensures TakeBasic(BasicHeader(fmt, c) + r) == Some((fmt, c, 1 + ChannelBytes(c)))
  {
  }

  /** The packet after a message header has been read into it. */
  function WithFields(p: InPacket, fmt: nat, t: U32, size: nat, packetType: Byte, streamId: U32): InPacket {
    var p1 := if fmt <= SMALL then p.(timestamp := t) else p;
    var p2 := if fmt <= MEDIUM then p1.(bodySize := size, got := None, packetType := packetType) else p1;
    if fmt == LARGE then p2.(streamId := streamId) else p2
  }

  lemma FourParts(a: seq<Byte>, b: seq<Byte>, c: seq<Byte>, d: seq<Byte>, r: seq<Byte>, s: seq<Byte>)
    requires s == a + b + c + d + r
    ensures s == a + (b + c + d + r) && s[|a|..] == b + (c + d + r)
    ensures s[|a| + |b|..] == c + (d + r) && s[|a| + |b| + |c|..] == d + r
  {
  }

  lemma TimestampField(t: U32, s: seq<Byte>, r: seq<Byte>)
    requires s == Be24(if t > EXTENDED then EXTENDED else t) + r
    ensures |s| >= 3 && Dec24(s) == if t > EXTENDED then EXTENDED else t
  {
    Dec24Be24(if t > EXTENDED then EXTENDED else t, r);
  }

  lemma SizeAndType(size: nat, packetType: Byte, s: seq<Byte>, r: seq<Byte>)
    requires size < 0x100_0000 && s == Be24(size) + [packetType] + r
    ensures |s| >= 4 && Dec24(s) == size && s[3] == packetType
  {
    assert s == Be24(size) + ([packetType] + r);
    Dec24Be24(size, [packetType] + r);
  }

  /** TakeFields on a stream whose fields decode to the given values. */
  lemma TakeFieldsOfValues(p: InPacket, fmt: nat, t: U32, size: nat, packetType: Byte, streamId: U32, s: seq<Byte>)
    requires fmt <= 3
    requires |s| >= FieldBytes(fmt) + if fmt <= SMALL && t >= EXTENDED then 4 else 0
    requires fmt <= SMALL ==> Dec24(s) == if t > EXTENDED then EXTENDED else t
    requires fmt <= SMALL && t >= EXTENDED ==> Dec32(s[FieldBytes(fmt)..]) == t
    requires fmt <= MEDIUM ==> Dec24(s[3..]) == size && s[6] == packetType
    requires fmt == LARGE ==> DecLe32(s[7..]) == streamId
    ensures TakeFields(fmt, p, s) == Some((WithFields(p, fmt, t, size, packetType, streamId),
                                          FieldBytes(fmt) + if fmt <= SMALL && t >= EXTENDED then 4 else 0))
  {
  }

  lemma TakeFieldsOfHeader(p: InPacket, fmt: nat, t: U32, size: nat, packetType: Byte, streamId: U32, r: seq<Byte>)
    requires fmt <= 3 && size < 0x100_0000
    ensures TakeFields(fmt, p, MessageHeader(fmt, t, size, packetType, streamId) + r)
         == Some((WithFields(p, fmt, t, size, packetType, streamId),
                  |MessageHeader(fmt, t, size, packetType, streamId)|))
  {
    var a := if fmt <= SMALL then Be24(if t > EXTENDED then EXTENDED else t) else [];
    var b := if fmt <= MEDIUM then Be24(size) + [packetType] else [];
    var c := if fmt == LARGE then Le32(streamId) else [];
    var d := if fmt <= SMALL && t >= EXTENDED then Be32(t) else [];
    var h := MessageHeader(fmt, t, size, packetType, streamId);
    assert h == a + b + c + d;
    var s := h + r;
    hide MessageHeader, TakeFields, Be24, Be32, Le32, Dec24, Dec32, DecLe32;
    FourParts(a, b, c, d, r, s);
    if fmt <= SMALL {
      TimestampField(t, s, b + c + d + r);
      if t >= EXTENDED {
        Dec32Be32(t, r);
      }
    }
    if fmt <= MEDIUM {
      SizeAndType(size, packetType, s[3..], c + d + r);
    }
    if fmt == LARGE {
      DecLe32Le32(streamId, d + r);
    }
    TakeFieldsOfValues(p, fmt, t, size, packetType, streamId, s);
  }

  // ---- What one channel sends and what the receiver makes of it ----

  /** A channel between two messages: the sender's record, the stream id last sent, the last
      timestamp field sent, and the receiver's m_channelTimestamp. */
  datatype Track = Track(prev: Option<OutRecord>, streamId: U32, field: U32, clock: U32)

  /** The timestamp field in force for a message: a MINIMUM header leaves the last one. */
  function FieldFor(track: Track, p: Packet): U32 {
    if Compress(track.prev, p) <= SMALL then Delta(track.prev, p) else track.field
  }

  /** The absolute timestamp the receiver gives the message. */
  function ReceivedTime(track: Track, p: Packet): U32 {
    if Compress(track.prev, p) == LARGE then FieldFor(track, p)
    else Wrap32(FieldFor(track, p) + track.clock)
  }

  function After(track: Track, p: Packet): Track {
    Track(Some(RecordOf(p)), p.streamId, FieldFor(track, p), ReceivedTime(track, p))
  }

  function Delivered(track: Track, p: Packet): Message {
    Message(p.channel, p.packetType, p.streamId, ReceivedTime(track, p), p.body)
  }

  /** What the sender must respect for the message to be decodable: a channel opens with a
      LARGE header, other headers keep the stream id, and a caller who asks for a SMALL or
      MINIMUM header repeats the size and type of the previous message. */
  predicate Sendable(track: Track, p: Packet, c: nat) {
    && p.headerType <= 3 && p.channel == c && 2 <= c <= 65599 && |p.body| < 0x100_0000
    && (p.headerType != LARGE ==> track.prev.Some? && p.streamId == track.streamId)
    && (p.headerType >= SMALL ==>
          track.prev.value.packetType == p.packetType && track.prev.value.bodySize == |p.body|)
  }

  predicate AllSendable(track: Track, todo: seq<Packet>, c: nat)
    decreases |todo|
  {
    todo == [] || (Sendable(track, todo[0], c) && AllSendable(After(track, todo[0]), todo[1..], c))
  }

  /** One chunk on the wire, with the message it completes. */
  datatype WireChunk = WireChunk(channel: nat, bytes: seq<Byte>, done: Option<Message>)

  function ChunkAt(track: Track, p: Packet, header: seq<Byte>, k: nat, cs: nat): WireChunk
    requires k <= |p.body|
  {
    var n := Min(cs, |p.body| - k);
    WireChunk(p.channel, header + p.body[k..k + n], if k + n == |p.body| then Some(Delivered(track, p)) else None)
  }

  function RestChunks(track: Track, p: Packet, k: nat, cs: nat): seq<WireChunk>
    requires k <= |p.body| && p.channel <= 65599 && cs > 0
    decreases |p.body| - k
  {
    if k == |p.body| then []
    else
      [ChunkAt(track, p, BasicHeader(MINIMUM, p.channel), k, cs)] +
      RestChunks(track, p, k + Min(cs, |p.body| - k), cs)
  }

  function MessageChunks(track: Track, p: Packet, cs: nat): seq<WireChunk>
    requires p.headerType <= 3 && p.channel <= 65599 && cs > 0
  {
    [ChunkAt(track, p, FirstHeader(track.prev, p), 0, cs)] + RestChunks(track, p, Min(cs, |p.body|), cs)
  }

  /** All the chunks a channel sends for a list of messages. */
  function ChannelChunks(track: Track, todo: seq<Packet>, c: nat, cs: nat): seq<WireChunk>
    requires AllSendable(track, todo, c) && cs > 0
    decreases |todo|
  {
    if todo == [] then []
    else MessageChunks(track, todo[0], cs) + ChannelChunks(After(track, todo[0]), todo[1..], c, cs)
  }

  function WireBytes(w: seq<WireChunk>): seq<Byte> {
    if w == [] then [] else w[0].bytes + WireBytes(w[1..])
  }

  lemma {:induction false} RestChunksAreContinuation(track: Track, p: Packet, k: nat, cs: nat)
    requires k <= |p.body| && p.channel <= 65599 && cs > 0
    ensures WireBytes(RestChunks(track, p, k, cs)) == Continuation(p.channel, p.body, k, cs)
    decreases |p.body| - k
  {
    if k < |p.body| {
      var n := Min(cs, |p.body| - k);
      RestChunksAreContinuation(track, p, k + n, cs);
      Assoc(BasicHeader(MINIMUM, p.channel), p.body[k..k + n], Continuation(p.channel, p.body, k + n, cs));
    }
  }

  /** The chunks of a message, joined, are what RTMP_SendPacket emits for it. */
  lemma MessageChunksAreEmission(track: Track, p: Packet, cs: nat)
    requires p.headerType <= 3 && p.channel <= 65599 && cs > 0
    ensures WireBytes(MessageChunks(track, p, cs)) == Emission(track.prev, p, cs)
  {
    RestChunksAreContinuation(track, p, Min(cs, |p.body|), cs);
    var n := Min(cs, |p.body|);
    assert MessageChunks(track, p, cs)[1..] == RestChunks(track, p, n, cs);
    Assoc(FirstHeader(track.prev, p), p.body[0..0 + n], Continuation(p.channel, p.body, n, cs));
  }

  // ---- Interleaving ----

  /** Where a channel stands: between messages, or k bytes into one. */
  datatype Pos = Idle(track: Track, todo: seq<Packet>)
               | Mid(track: Track, p: Packet, k: nat, todo: seq<Packet>)

  predicate ValidPos(pos: Pos, c: nat) {
    match pos
    case Idle(track, todo) => AllSendable(track, todo, c)
    case Mid(track, p, k, todo) => 0 < k < |p.body| && AllSendable(track, [p] + todo, c)
  }

  function Remaining(pos: Pos, c: nat, cs: nat): seq<WireChunk>
    requires ValidPos(pos, c) && cs > 0
  {
    match pos
    case Idle(track, todo) => ChannelChunks(track, todo, c, cs)
    case Mid(track, p, k, todo) =>
      assert ([p] + todo)[1..] == todo;
      RestChunks(track, p, k, cs) + ChannelChunks(After(track, p), todo, c, cs)
  }

  function AfterChunk(track: Track, p: Packet, k: nat, todo: seq<Packet>, cs: nat): Pos
    requires k <= |p.body|
  {
    var n := k + Min(cs, |p.body| - k);
    if n == |p.body| then Idle(After(track, p), todo) else Mid(track, p, n, todo)
  }

  /** The part of the wire that belongs to one channel. */
  function OnChannel(w: seq<WireChunk>, c: nat): seq<WireChunk> {
    if w == [] then []
    else (if w[0].channel == c then [w[0]] else []) + OnChannel(w[1..], c)
  }

  /** w interleaves what the channels still have to send, keeping each channel's order. */
  ghost predicate Interleaves(w: seq<WireChunk>, at: map<nat, Pos>, cs: nat)
    requires cs > 0 && forall c :: c in at ==> ValidPos(at[c], c)
  {
    forall c: nat :: OnChannel(w, c) == if c in at then Remaining(at[c], c, cs) else []
  }

  function Completed(w: seq<WireChunk>): seq<Message> {
    if w == [] then []
    else (if w[0].done.Some? then [w[0].done.value] else []) + Completed(w[1..])
  }

  /** What the receiver holds for a channel at a given position of its sender. */
  ghost predicate Tracks(st: RecvState, c: nat, pos: Pos) {
    && st.ClockOf(c) == pos.track.clock
    && match pos
       case Idle(track, _) =>
         (match track.prev
          case None => c !in st.saved
          case Some(r) =>
            c in st.saved &&
            st.saved[c] == InPacket(st.saved[c].headerType, r.packetType, false, c, track.field, track.streamId,
              r.bodySize, None))
       case Mid(track, p, k, _) =>
         c in st.saved && k <= |p.body| &&
         st.saved[c] == InPacket(st.saved[c].headerType, p.packetType, Compress(track.prev, p) == LARGE, c,
                                 FieldFor(track, p), p.streamId, |p.body|, Some(p.body[..k]))
  }

  /** The receiver's state changed for at most channel c. */
  ghost predicate OnlyChannel(st: RecvState, st': RecvState, c: nat) {
    forall d :: d != c ==>
      (d in st.saved <==> d in st'.saved) && (d in st.saved ==> st.saved[d] == st'.saved[d]) &&
      st.ClockOf(d) == st'.ClockOf(d)
  }

  /** The outcome ReadChunk must have on a chunk ch that moves channel c to `next`. */
  ghost predicate ReadsChunk(st: RecvState, cur: InPacket, ch: WireChunk, next: Pos, c: nat, rest: seq<Byte>)
    requires st.Valid() && cur.Valid()
  {
    var o := ReadChunk(st, cur, ch.bytes + rest);
    o.Chunk? && o.used == |ch.bytes| && o.ready == ch.done.Some? &&
    (o.ready ==> MessageOf(o.packet) == ch.done.value) &&
    Tracks(o.st, c, next) && OnlyChannel(st, o.st, c)
  }

  /** Header parsed and body slice read: the rest of RTMP_ReadPacket does the right thing. */
  lemma AfterHeader(st: RecvState, track: Track, p: Packet, k: nat, todo: seq<Packet>, c: nat, q: InPacket)
    requires st.Valid() && st.chunkSize > 0 && Sendable(track, p, c) && k <= |p.body|
    requires st.ClockOf(c) == track.clock
    requires q == InPacket(q.headerType, p.packetType, Compress(track.prev, p) == LARGE, c, FieldFor(track, p),
      p.streamId,
                           |p.body|, if |p.body| == 0 then None else Some(p.body[..k]))
    ensures q.Valid() && ChunkBytes(st, q) == Min(st.chunkSize, |p.body| - k)
    ensures var n := Min(st.chunkSize, |p.body| - k);
            var r := Append(q, p.body[k..k + n]);
            var (st', out) := Finish(st, r);
            (r.IsReady() <==> k + n == |p.body|) &&
            (r.IsReady() ==> MessageOf(out) == Delivered(track, p)) &&
            Tracks(st', c, AfterChunk(track, p, k, todo, st.chunkSize)) && OnlyChannel(st, st', c)
  {
    var n := Min(st.chunkSize, |p.body| - k);
    assert p.body[..k] + p.body[k..k + n] == p.body[..k + n];
    assert p.body[..|p.body|] == p.body;
  }

  /** ReadChunk on a stream cut into basic header, message header, body slice and the rest. */
  lemma ReadChunkOfParts(st: RecvState, cur: InPacket, fmt: nat, c: nat, p: InPacket,
                         basic: seq<Byte>, fields: seq<Byte>, body: seq<Byte>, rest: seq<Byte>)
    requires st.Valid() && cur.Valid() && p.Valid()
    requires TakeBasic(basic + (fields + (body + rest))) == Some((fmt, c, |basic|))
    requires TakeFields(fmt, Start(st, cur, fmt, c), fields + (body + rest)) == Some((p, |fields|))
    requires |basic| >= 1 && |body| == ChunkBytes(st, Allocate(fmt, p))
    ensures var r := Append(Allocate(fmt, p), body);
            var (st', out) := Finish(st, r);
            ReadChunk(st, cur, basic + fields + body + rest) ==
            Chunk(st', out, r.IsReady(), |basic + fields + body|)
  {
    var s := basic + fields + body + rest;
    assert s == basic + (fields + (body + rest));
    assert s[|basic|..] == fields + (body + rest);
    assert s[|basic| + |fields|..|basic| + |fields| + |body|] == body;
  }

  /** A chunk of packet p from offset k on is read correctly if its header is. */
  lemma ReadsOfParts(st: RecvState, cur: InPacket, track: Track, p: Packet, k: nat, todo: seq<Packet>, c: nat,
                     fmt: nat, basic: seq<Byte>, fields: seq<Byte>, q: InPacket, body: seq<Byte>, rest: seq<Byte>)
    requires st.Valid() && cur.Valid() && q.Valid() && st.chunkSize > 0 && Sendable(track, p, c) && k <= |p.body|
    requires st.ClockOf(c) == track.clock && |basic| >= 1
    requires body == p.body[k..k + Min(st.chunkSize, |p.body| - k)]
    requires TakeBasic(basic + (fields + (body + rest))) == Some((fmt, c, |basic|))
    requires TakeFields(fmt, Start(st, cur, fmt, c), fields + (body + rest)) == Some((q, |fields|))
    requires var a := Allocate(fmt, q);
             a == InPacket(a.headerType, p.packetType, Compress(track.prev, p) == LARGE, c, FieldFor(track, p),
                           p.streamId, |p.body|, if |p.body| == 0 then None else Some(p.body[..k]))
    ensures ReadsChunk(st, cur, ChunkAt(track, p, basic + fields, k, st.chunkSize),
                       AfterChunk(track, p, k, todo, st.chunkSize), c, rest)
  {
    hide ReadChunk, TakeBasic, TakeFields, Finish, Allocate, Append;
    AfterHeader(st, track, p, k, todo, c, Allocate(fmt, q));
    ReadChunkOfParts(st, cur, fmt, c, q, basic, fields, body, rest);
  }

  /** A channel that opens with a MEDIUM header, as that of acknowledgements may: type, size and body
      are those sent, the stream id is that of the packet the caller passes in, and the time is added
      to the channel's unless that packet was left marked as absolute. */
  lemma UnseenChannel(st: RecvState, cur: InPacket, c: nat, t: U32, packetType: Byte, id: U32, body: seq<Byte>,
                      rest: seq<Byte>)
    requires st.Valid() && cur.Valid() && c !in st.saved && 2 <= c <= 65599
    requires |body| <= st.chunkSize && |body| < 0x100_0000
    ensures var s := BasicHeader(MEDIUM, c) + MessageHeader(MEDIUM, t, |body|, packetType, id) + body + rest;
            var o := ReadChunk(st, cur, s);
            o.Chunk? && o.ready && s[o.used..] == rest &&
            MessageOf(o.packet) ==
              Message(c, packetType, cur.streamId, if cur.hasAbs then t else Wrap32(t + st.ClockOf(c)), body)
  {
    hide TakeBasic, TakeFields, ReadChunk, BasicHeader, MessageHeader;
    var basic, fields := BasicHeader(MEDIUM, c), MessageHeader(MEDIUM, t, |body|, packetType, id);
    TakeBasicOfHeader(MEDIUM, c, fields + (body + rest));
    var q0 := Start(st, cur, MEDIUM, c);
    TakeFieldsOfHeader(q0, MEDIUM, t, |body|, packetType, id, body + rest);
    var q := WithFields(q0, MEDIUM, t, |body|, packetType, id);
    ReadChunkOfParts(st, cur, MEDIUM, c, q, basic, fields, body, rest);
    DropPrefix(basic + fields + body, rest);
    assert [] + body == body;
  }

  lemma ReadsFirst(st: RecvState, cur: InPacket, track: Track, p: Packet, todo: seq<Packet>, c: nat, rest: seq<Byte>)
    requires st.Valid() && cur.Valid() && st.chunkSize > 0 && Sendable(track, p, c)
    requires Tracks(st, c, Idle(track, [p] + todo))
    ensures ReadsChunk(st, cur, ChunkAt(track, p, FirstHeader(track.prev, p), 0, st.chunkSize),
                       AfterChunk(track, p, 0, todo, st.chunkSize), c, rest)
  {
    var fmt, t := Compress(track.prev, p), Delta(track.prev, p);
    var basic := BasicHeader(fmt, c);
    var fields := MessageHeader(fmt, t, |p.body|, p.packetType, p.streamId);
    var body := p.body[0..0 + Min(st.chunkSize, |p.body|)];
    TakeBasicOfHeader(fmt, c, fields + (body + rest));
    var q0 := Start(st, cur, fmt, c);
    TakeFieldsOfHeader(q0, fmt, t, |p.body|, p.packetType, p.streamId, body + rest);
    var q := WithFields(q0, fmt, t, |p.body|, p.packetType, p.streamId);
    StartedPacket(st, cur, track, p, todo, c);
    ReadsOfParts(st, cur, track, p, 0, todo, c, fmt, basic, fields, q, body, rest);
  }

  lemma StartedPacket(st: RecvState, cur: InPacket, track: Track, p: Packet, todo: seq<Packet>, c: nat)
    requires st.Valid() && cur.Valid() && Sendable(track, p, c) && Tracks(st, c, Idle(track, [p] + todo))
    ensures var fmt := Compress(track.prev, p);
            var q := WithFields(Start(st, cur, fmt, c), fmt, Delta(track.prev, p), |p.body|, p.packetType, p.streamId);
            var a := Allocate(fmt, q);
            q.Valid() &&
            a == InPacket(a.headerType, p.packetType, Compress(track.prev, p) == LARGE, c, FieldFor(track, p),
                          p.streamId, |p.body|, if |p.body| == 0 then None else Some(p.body[..0]))
  {
    assert p.body[..0] == [];
  }

  lemma ReadsNext(st: RecvState, cur: InPacket, track: Track, p: Packet, k: nat, todo: seq<Packet>, c: nat,
      rest: seq<Byte>)
    requires st.Valid() && cur.Valid() && st.chunkSize > 0 && Sendable(track, p, c) && 0 < k < |p.body|
    requires Tracks(st, c, Mid(track, p, k, todo))
    ensures ReadsChunk(st, cur, ChunkAt(track, p, BasicHeader(MINIMUM, c), k, st.chunkSize),
                       AfterChunk(track, p, k, todo, st.chunkSize), c, rest)
  {
    var basic, body := BasicHeader(MINIMUM, c), p.body[k..k + Min(st.chunkSize, |p.body| - k)];
    assert [] + (body + rest) == body + rest;
    assert basic + [] == basic;
    TakeBasicOfHeader(MINIMUM, c, body + rest);
    ReadsOfParts(st, cur, track, p, k, todo, c, MINIMUM, basic, [], st.saved[c], body, rest);
  }

  lemma HeadAndTail<T>(x: T, a: seq<T>, b: seq<T>)
    ensures ([x] + a + b)[0] == x && ([x] + a + b)[1..] == a + b
  {
  }

  lemma AfterChunkRemaining(track: Track, p: Packet, k: nat, todo: seq<Packet>, c: nat, cs: nat)
    requires cs > 0 && AllSendable(track, [p] + todo, c) && (k < |p.body| || k == 0 == |p.body|)
    ensures var next := AfterChunk(track, p, k, todo, cs);
            ([p] + todo)[1..] == todo && AllSendable(After(track, p), todo, c) &&
            ValidPos(next, c) &&
            Remaining(next, c, cs) ==
            RestChunks(track, p, k + Min(cs, |p.body| - k), cs) + ChannelChunks(After(track, p), todo, c, cs)
  {
    assert ([p] + todo)[1..] == todo;
  }

  /** A channel's next chunk is read correctly and moves it to `next`, from where it sends the rest. */
  ghost predicate HeadIsRead(st: RecvState, cur: InPacket, pos: Pos, next: Pos, c: nat, rest: seq<Byte>)
    requires st.Valid() && cur.Valid() && st.chunkSize > 0
    requires ValidPos(pos, c) && Remaining(pos, c, st.chunkSize) != []
  {
    var chunks := Remaining(pos, c, st.chunkSize);
    ValidPos(next, c) && chunks[1..] == Remaining(next, c, st.chunkSize) &&
      ReadsChunk(st, cur, chunks[0], next, c, rest)
  }

  lemma ReadsIdleHead(st: RecvState, cur: InPacket, track: Track, p: Packet, todo: seq<Packet>, c: nat, rest: seq<Byte>)
    requires st.Valid() && cur.Valid() && st.chunkSize > 0
    requires AllSendable(track, [p] + todo, c) && Tracks(st, c, Idle(track, [p] + todo))
    ensures Remaining(Idle(track, [p] + todo), c, st.chunkSize) != []
    ensures HeadIsRead(st, cur, Idle(track, [p] + todo), AfterChunk(track, p, 0, todo, st.chunkSize), c, rest)
  {
    hide ReadsChunk, Tracks, RecvState.Valid, BasicHeader, FirstHeader, RestChunks;
    var cs := st.chunkSize;
    AfterChunkRemaining(track, p, 0, todo, c, cs);
    ReadsFirst(st, cur, track, p, todo, c, rest);
    HeadAndTail(ChunkAt(track, p, FirstHeader(track.prev, p), 0, cs),
                RestChunks(track, p, Min(cs, |p.body|), cs), ChannelChunks(After(track, p), todo, c, cs));
  }

  lemma ReadsMidHead(st: RecvState, cur: InPacket, track: Track, p: Packet, k: nat, todo: seq<Packet>, c: nat,
      rest: seq<Byte>)
    requires st.Valid() && cur.Valid() && st.chunkSize > 0
    requires ValidPos(Mid(track, p, k, todo), c) && Tracks(st, c, Mid(track, p, k, todo))
    ensures Remaining(Mid(track, p, k, todo), c, st.chunkSize) != []
    ensures HeadIsRead(st, cur, Mid(track, p, k, todo), AfterChunk(track, p, k, todo, st.chunkSize), c, rest)
  {
    hide ReadsChunk, Tracks, RecvState.Valid, BasicHeader, FirstHeader;
    var cs := st.chunkSize;
    AfterChunkRemaining(track, p, k, todo, c, cs);
    ReadsNext(st, cur, track, p, k, todo, c, rest);
    HeadAndTail(ChunkAt(track, p, BasicHeader(MINIMUM, p.channel), k, cs),
                RestChunks(track, p, k + Min(cs, |p.body| - k), cs), ChannelChunks(After(track, p), todo, c, cs));
  }

  lemma ReadsHead(st: RecvState, cur: InPacket, pos: Pos, c: nat, rest: seq<Byte>) returns (next: Pos)
    requires st.Valid() && cur.Valid() && st.chunkSize > 0
    requires ValidPos(pos, c) && Tracks(st, c, pos) && Remaining(pos, c, st.chunkSize) != []
    ensures HeadIsRead(st, cur, pos, next, c, rest)
  {
    match pos {
      case Idle(track, todo) =>
        assert [todo[0]] + todo[1..] == todo;
        ReadsIdleHead(st, cur, track, todo[0], todo[1..], c, rest);
        next := AfterChunk(track, todo[0], 0, todo[1..], st.chunkSize);
      case Mid(track, p, k, todo) =>
        ReadsMidHead(st, cur, track, p, k, todo, c, rest);
        next := AfterChunk(track, p, k, todo, st.chunkSize);
    }
  }

  /** The same for repeated reading: the head chunk delivers what it completes, then the rest is read. */
  lemma ReadAllHead(st: RecvState, cur: InPacket, ch: WireChunk, next: Pos, c: nat, rest: seq<Byte>)
    returns (st': RecvState, cur': InPacket)
    requires st.Valid() && cur.Valid() && ReadsChunk(st, cur, ch, next, c, rest)
    ensures st'.Valid() && cur'.Valid() && st'.chunkSize == st.chunkSize
    ensures Tracks(st', c, next) && OnlyChannel(st, st', c)
    ensures ReadAll(st, cur, ch.bytes + rest).left == ReadAll(st', cur', rest).left
    ensures ReadAll(st, cur, ch.bytes + rest).messages ==
            (if ch.done.Some? then [ch.done.value] else []) + ReadAll(st', cur', rest).messages
  {
    hide ReadChunk, Tracks, OnlyChannel, MessageOf;
    var o := ReadChunk(st, cur, ch.bytes + rest);
    DropPrefix(ch.bytes, rest);
    st', cur' := o.st, o.packet.(got := None);
  }

  lemma HeadOfInterleaving(w: seq<WireChunk>, at: map<nat, Pos>, cs: nat)
    requires cs > 0 && w != [] && forall c :: c in at ==> ValidPos(at[c], c)
    requires Interleaves(w, at, cs)
    ensures var c := w[0].channel;
            c in at && Remaining(at[c], c, cs) == [w[0]] + OnChannel(w[1..], c)
  {
    assert OnChannel(w, w[0].channel) == [w[0]] + OnChannel(w[1..], w[0].channel);
  }

  lemma TailInterleaves(w: seq<WireChunk>, at: map<nat, Pos>, next: Pos, cs: nat)
    requires cs > 0 && w != [] && forall c :: c in at ==> ValidPos(at[c], c)
    requires Interleaves(w, at, cs) && ValidPos(next, w[0].channel)
    requires OnChannel(w[1..], w[0].channel) == Remaining(next, w[0].channel, cs)
    ensures Interleaves(w[1..], at[w[0].channel := next], cs)
  {
    forall d: nat | d != w[0].channel
      ensures OnChannel(w[1..], d) == if d in at then Remaining(at[d], d, cs) else []
    {
      assert OnChannel(w, d) == OnChannel(w[1..], d);
    }
  }

  lemma TracksAfter(at: map<nat, Pos>, st: RecvState, st': RecvState, next: Pos, c: nat)
    requires forall d :: d in at ==> Tracks(st, d, at[d])
    requires OnlyChannel(st, st', c) && Tracks(st', c, next)
    ensures var at' := at[c := next]; forall d :: d in at' ==> Tracks(st', d, at'[d])
  {
  }

  /** The receiver tracks every channel of an interleaving that is still to be read. */
  ghost predicate Follows(w: seq<WireChunk>, at: map<nat, Pos>, st: RecvState) {
    st.Valid() && st.chunkSize > 0 &&
    (forall c :: c in at ==> ValidPos(at[c], c) && Tracks(st, c, at[c])) &&
    Interleaves(w, at, st.chunkSize)
  }

  lemma ReadsOneChunk(w: seq<WireChunk>, at: map<nat, Pos>, st: RecvState, cur: InPacket)
    returns (at': map<nat, Pos>, st': RecvState, cur': InPacket)
    requires Follows(w, at, st) && cur.Valid() && w != []
    ensures Follows(w[1..], at', st') && cur'.Valid()
    ensures ReadAll(st, cur, WireBytes(w)).left == ReadAll(st', cur', WireBytes(w[1..])).left
    ensures ReadAll(st, cur, WireBytes(w)).messages ==
            (if w[0].done.Some? then [w[0].done.value] else []) + ReadAll(st', cur', WireBytes(w[1..])).messages
  {
    hide ReadsChunk, ReadAll, Tracks, Remaining, OnChannel;
    var c := w[0].channel;
    HeadOfInterleaving(w, at, st.chunkSize);
    var rest := WireBytes(w[1..]);
    var next := ReadsHead(st, cur, at[c], c, rest);
    st', cur' := ReadAllHead(st, cur, w[0], next, c, rest);
    TailInterleaves(w, at, next, st.chunkSize);
    TracksAfter(at, st, st', next, c);
    at' := at[c := next];
  }

  /** Reading any interleaving, from any receiver that tracks the channels' positions, delivers
      the messages in the order in which their last chunks arrive and leaves no byte over. */
  lemma {:induction false} ReadsInterleaving(w: seq<WireChunk>, at: map<nat, Pos>, st: RecvState, cur: InPacket)
    requires Follows(w, at, st) && cur.Valid()
    ensures ReadAll(st, cur, WireBytes(w)).messages == Completed(w)
    ensures ReadAll(st, cur, WireBytes(w)).left == []
    decreases |w|
  {
    if w != [] {
      hide ReadAll, Follows;
      var at', st', cur' := ReadsOneChunk(w, at, st, cur);
      ReadsInterleaving(w[1..], at', st', cur');
    }
  }

  // ---- The main theorem ----

  function Fresh(clock: U32): Track { Track(None, 0, 0, clock) }

  /** The messages of one channel as they are delivered. */
  function Expected(track: Track, todo: seq<Packet>): seq<Message>
    decreases |todo|
  {
    if todo == [] then [] else [Delivered(track, todo[0])] + Expected(After(track, todo[0]), todo[1..])
  }

  function MessagesOn(ms: seq<Message>, c: nat): seq<Message> {
    if ms == [] then []
    else (if ms[0].channel == c then [ms[0]] else []) + MessagesOn(ms[1..], c)
  }

  lemma {:induction false} MessagesOnConcat(a: seq<Message>, b: seq<Message>, c: nat)
    ensures MessagesOn(a + b, c) == MessagesOn(a, c) + MessagesOn(b, c)
  {
    if a == [] {
      assert a + b == b;
    } else {
      MessagesOnConcat(a[1..], b, c);
      assert (a + b)[1..] == a[1..] + b;
      Assoc(if a[0].channel == c then [a[0]] else [], MessagesOn(a[1..], c), MessagesOn(b, c));
    }
  }

  lemma {:induction false} CompletedConcat(a: seq<WireChunk>, b: seq<WireChunk>)
    ensures Completed(a + b) == Completed(a) + Completed(b)
  {
    if a == [] {
      assert a + b == b;
    } else {
      CompletedConcat(a[1..], b);
      assert (a + b)[1..] == a[1..] + b;
      Assoc(if a[0].done.Some? then [a[0].done.value] else [], Completed(a[1..]), Completed(b));
    }
  }

  ghost predicate OwnChannel(w: seq<WireChunk>) {
    forall i :: 0 <= i < |w| && w[i].done.Some? ==> w[i].done.value.channel == w[i].channel
  }

  lemma {:induction false} CompletedOnChannel(w: seq<WireChunk>, c: nat)
    requires OwnChannel(w)
    ensures MessagesOn(Completed(w), c) == Completed(OnChannel(w, c))
  {
    if w != [] {
      CompletedOnChannel(w[1..], c);
      var head := if w[0].done.Some? then [w[0].done.value] else [];
      MessagesOnConcat(head, Completed(w[1..]), c);
      CompletedConcat(if w[0].channel == c then [w[0]] else [], OnChannel(w[1..], c));
    }
  }

  lemma {:induction false} CompletedRest(track: Track, p: Packet, k: nat, cs: nat)
    requires k <= |p.body| && p.channel <= 65599 && cs > 0
    ensures Completed(RestChunks(track, p, k, cs)) == if k == |p.body| then [] else [Delivered(track, p)]
    ensures OwnChannel(RestChunks(track, p, k, cs))
    decreases |p.body| - k
  {
    if k < |p.body| {
      CompletedRest(track, p, k + Min(cs, |p.body| - k), cs);
    }
  }

  lemma {:induction false} CompletedChannel(track: Track, todo: seq<Packet>, c: nat, cs: nat)
    requires AllSendable(track, todo, c) && cs > 0
    ensures Completed(ChannelChunks(track, todo, c, cs)) == Expected(track, todo)
    ensures OwnChannel(ChannelChunks(track, todo, c, cs))
    decreases |todo|
  {
    if todo != [] {
      var p := todo[0];
      var first := ChunkAt(track, p, FirstHeader(track.prev, p), 0, cs);
      var rest := RestChunks(track, p, Min(cs, |p.body|), cs);
      CompletedRest(track, p, Min(cs, |p.body|), cs);
      CompletedConcat([first], rest);
      assert Completed([first] + rest) == [Delivered(track, p)];
      CompletedConcat(MessageChunks(track, p, cs), ChannelChunks(After(track, p), todo[1..], c, cs));
      CompletedChannel(After(track, p), todo[1..], c, cs);
    }
  }

  /** The positions of channels that have all their messages still to send. */
  function Starting(plan: map<nat, seq<Packet>>, st: RecvState): map<nat, Pos> {
    map c | c in plan :: Idle(Fresh(st.ClockOf(c)), plan[c])
  }

  lemma {:induction false} InterleavedChunksOwnChannel(w: seq<WireChunk>)
    requires forall c: nat :: OwnChannel(OnChannel(w, c))
    ensures OwnChannel(w)
  {
    if w != [] {
      forall c: nat ensures OwnChannel(OnChannel(w[1..], c)) {
        var a, b := OnChannel(w, c), OnChannel(w[1..], c);
        assert OwnChannel(a);
        forall i | 0 <= i < |b| && b[i].done.Some? ensures b[i].done.value.channel == b[i].channel {
          assert b[i] == a[|a| - |b| + i];
        }
      }
      InterleavedChunksOwnChannel(w[1..]);
      assert OwnChannel(OnChannel(w, w[0].channel));
      assert OnChannel(w, w[0].channel)[0] == w[0];
      forall i | 0 <= i < |w| && w[i].done.Some? ensures w[i].done.value.channel == w[i].channel {
        if i > 0 { assert w[i] == w[1..][i - 1]; }
      }
    }
  }

  /** Chunk round trip under interleaving. Each channel in `plan` sends its packets with
      RTMP_SendPacket; w is any interleaving of the chunks of distinct channels. A receiver
      with no saved packets on those channels and the same chunk size gets every message back,
      in order of completion, and per channel in the order sent, and no byte is left over. */
  lemma InterleavedRoundTrip(plan: map<nat, seq<Packet>>, w: seq<WireChunk>, st: RecvState, cur: InPacket)
    requires st.Valid() && cur.Valid() && st.chunkSize > 0
    requires forall c :: c in plan ==> c !in st.saved && AllSendable(Fresh(st.ClockOf(c)), plan[c], c)
    requires Interleaves(w, Starting(plan, st), st.chunkSize)
    ensures var r := ReadAll(st, cur, WireBytes(w));
            r.left == [] && r.messages == Completed(w) &&
            forall c: nat :: MessagesOn(r.messages, c) ==
              if c in plan then Expected(Fresh(st.ClockOf(c)), plan[c]) else []
  {
    var at := Starting(plan, st);
    ReadsInterleaving(w, at, st, cur);
    forall c: nat
      ensures Completed(OnChannel(w, c)) == if c in plan then Expected(Fresh(st.ClockOf(c)), plan[c]) else []
      ensures OwnChannel(OnChannel(w, c))
    {
      assert OnChannel(w, c) == if c in at then Remaining(at[c], c, st.chunkSize) else [];
      if c in plan {
        CompletedChannel(Fresh(st.ClockOf(c)), plan[c], c, st.chunkSize);
      }
    }
    InterleavedChunksOwnChannel(w);
    forall c: nat ensures MessagesOn(Completed(w), c) == Completed(OnChannel(w, c)) {
      CompletedOnChannel(w, c);
    }
  }
}
