/** The chunk stream as RTMP_ReadPacket reads it: one chunk per call, messages rebuilt
    from per-channel saved packets, timestamps made absolute when a message completes. */
module ChunkReceive {
  import opened Bytes
  import opened ChunkFormat

  /** An incoming RTMPPacket. `got` is m_body with the bytes read so far (None for a NULL
      body); its length is m_nBytesRead. A count left over from a body that is gone is never
      used (CountStartsOver). */
  datatype InPacket = InPacket(headerType: nat, packetType: Byte, hasAbs: bool, channel: nat, timestamp: U32,
                               streamId: U32, bodySize: nat, got: Option<seq<Byte>>)
  {
    function BytesRead(): nat { if got.None? then 0 else |got.value| }

    predicate IsReady() { BytesRead() == bodySize }

    predicate Valid() { BytesRead() <= bodySize }
  }

  /** m_vecChannelsIn, m_channelTimestamp and m_inChunkSize. */
  datatype RecvState = RecvState(saved: map<nat, InPacket>, clock: map<nat, U32>, chunkSize: nat)
  {
    function ClockOf(c: nat): U32 { if c in clock then clock[c] else 0 }

    ghost predicate Valid() { forall c :: c in saved ==> saved[c].Valid() }
  }

  /** A basic header: header type, channel, number of bytes. */
  function TakeBasic(s: seq<Byte>): Option<(nat, nat, nat)> {
    if |s| < 1 then None
    else
      var fmt, low := s[0] / 64, s[0] % 64;
      if low == 0 then
        if |s| < 2 then None else Some((fmt, s[1] as int + 64, 2))
      else if low == 1 then
        if |s| < 3 then None else Some((fmt, s[2] as int * 256 + s[1] + 64, 3))
      else Some((fmt, low, 1))
  }

  /** packetSize[fmt] - 1: the message header without the extended timestamp. */
  function FieldBytes(fmt: nat): nat {
    if fmt == LARGE then 11 else if fmt == MEDIUM then 7 else if fmt == SMALL then 3 else 0
  }

  /** The packet a chunk header applies to, before its fields are read. */
  function Start(st: RecvState, cur: InPacket, fmt: nat, c: nat): InPacket {
    if fmt == LARGE then cur.(headerType := fmt, channel := c, hasAbs := true)
    else if c in st.saved then st.saved[c]
    else cur.(headerType := fmt, channel := c)
  }

  /** The packet with the fields of a message header read into it. */
  function WithHeader(fmt: nat, p: InPacket, s: seq<Byte>): InPacket
    requires |s| >= FieldBytes(fmt)
  {
    var n := FieldBytes(fmt);
    var p1 := if n < 3 then p else p.(timestamp := Dec24(s));
    var p2 := if n < 6 then p1 else p1.(bodySize := Dec24(s[3..]), got := None, packetType := s[6]);
    if n < 11 then p2 else p2.(streamId := DecLe32(s[7..]))
  }

  /** Reads the message header fields and the extended timestamp; gives the bytes used. */
  function TakeFields(fmt: nat, p: InPacket, s: seq<Byte>): Option<(InPacket, nat)> {
    var n := FieldBytes(fmt);
    if |s| < n then None
    else
      var q := WithHeader(fmt, p, s);
      if n < 3 || q.timestamp != EXTENDED then Some((q, n))
      else if |s| < n + 4 then None
      else Some((q.(timestamp := Dec32(s[n..])), n + 4))
  }

  /** Allocates the body when a message starts. */
  function Allocate(fmt: nat, p: InPacket): InPacket {
    if p.bodySize > 0 && p.got.None? then p.(got := Some([]), headerType := fmt) else p
  }

  /** m_nBytesRead of a packet, as far as the code relies on it: a packet without a body may have
      a count left over, but not when its size is zero. */
  predicate Counted(p: InPacket, read: nat) {
    (p.got.Some? ==> read == |p.got.value|) && (p.got.None? && p.bodySize == 0 ==> read == 0)
  }

  /** The headers of types LARGE and MEDIUM reset the count, and so does RTMPPacket_Alloc. */
  function CountAfter(fmt: nat, p: InPacket, s: seq<Byte>, read: nat): nat
    requires |s| >= FieldBytes(fmt)
  {
    var q := WithHeader(fmt, p, s);
    if fmt <= MEDIUM || (q.bodySize > 0 && q.got.None?) then 0 else read
  }

  /** When the body is read on, the code's count is the number of bytes in it. */
  lemma CountStartsOver(fmt: nat, p: InPacket, s: seq<Byte>, read: nat)
    requires fmt <= 3 && |s| >= FieldBytes(fmt) && Counted(p, read)
    ensures CountAfter(fmt, p, s, read) == Allocate(fmt, WithHeader(fmt, p, s)).BytesRead()
  {
  }

  /** And what a call leaves with its caller is counted: the packet of an unfinished message,
      whose body has been taken away, and a complete one that has been freed. */
  lemma LeftCounted(st: RecvState, p: InPacket)
    requires st.Valid() && p.Valid()
    ensures var q := Finish(st, p).1; Counted(q, p.BytesRead()) && Counted(q.(got := None), p.BytesRead())
  {
  }

  function ChunkBytes(st: RecvState, p: InPacket): nat
    requires p.Valid()
  {
    Min(st.chunkSize, p.bodySize - p.BytesRead())
  }

  function Append(p: InPacket, bytes: seq<Byte>): InPacket {
    if p.got.None? then p else p.(got := Some(p.got.value + bytes))
  }

  /** Files the packet under its channel and, when it is complete, makes its timestamp absolute. */
  function Finish(st: RecvState, p: InPacket): (RecvState, InPacket) {
    if p.IsReady() then
      var abs := if p.hasAbs then p.timestamp else Wrap32(p.timestamp + st.ClockOf(p.channel));
      (st.(saved := st.saved[p.channel := p.(got := None, hasAbs := false)], clock := st.clock[p.channel := abs]),
       p.(timestamp := abs))
    else
      (st.(saved := st.saved[p.channel := p]), p.(got := None))
  }

  /** The outcome of RTMP_ReadPacket on a byte stream: not enough bytes, or the new state, the
      caller's packet, whether it is complete, and the number of bytes consumed. */
  datatype Outcome = Short | Chunk(st: RecvState, packet: InPacket, ready: bool, used: nat)

  function ReadChunk(st: RecvState, cur: InPacket, s: seq<Byte>): (o: Outcome)
    requires st.Valid() && cur.Valid()
    ensures o.Chunk? ==> 1 <= o.used <= |s| && o.st.Valid() && o.st.chunkSize == st.chunkSize && o.packet.Valid()
  {
    match TakeBasic(s)
    case None => Short
    case Some((fmt, c, n)) =>
      match TakeFields(fmt, Start(st, cur, fmt, c), s[n..])
      case None => Short
      case Some((p, m)) =>
        var q := Allocate(fmt, p);
        var k := ChunkBytes(st, q);
        if |s| < n + m + k then Short
        else
          var r := Append(q, s[n + m..n + m + k]);
          var (st', out) := Finish(st, r);
          Chunk(st', out, r.IsReady(), n + m + k)
  }

  /** A message handed to the caller. */
  datatype Message = Message(channel: nat, packetType: Byte, streamId: U32, timestamp: U32, body: seq<Byte>)

  function MessageOf(p: InPacket): Message {
    Message(p.channel, p.packetType, p.streamId, p.timestamp, if p.got.None? then [] else p.got.value)
  }

  /** Repeated RTMP_ReadPacket, each complete packet being freed before the next call: the
      messages in order of completion, the final state and the bytes that no call could use. */
  datatype Received = Received(messages: seq<Message>, st: RecvState, left: seq<Byte>)

  function ReadAll(st: RecvState, cur: InPacket, s: seq<Byte>): (r: Received)
    requires st.Valid() && cur.Valid()
    decreases |s|
  {
    match ReadChunk(st, cur, s)
    case Short => Received([], st, s)
    case Chunk(st', p, ready, used) =>
      var r := ReadAll(st', p.(got := None), s[used..]);
      if ready then r.(messages := [MessageOf(p)] + r.messages) else r
  }
}
