/** struct RTMP and its transport: RTMPSockBuf_Fill, ReadN, WriteN, RTMP_SendPacket,
    SendBytesReceived and RTMP_ReadPacket, off HTTP unless said otherwise. */
module Engine {
  import opened Bytes
  import opened ChunkFormat
  import opened ChunkReceive
  import opened CallTable
  import opened Net
  import opened Numbers
  import opened SentBody

  const CACHE := 16 * 1024      // RTMP_BUFFER_CACHE_SIZE
  const DEFAULT_CHUNK := 128    // RTMP_DEFAULT_CHUNKSIZE
  const INVOKE: Byte := 0x14

  /** C's division by 2. */
  function Half(x: int): int { if x >= 0 then x / 2 else -(-x / 2) }

  /** Name and transaction id as RTMP_SendPacket reads them back from an invoke body. */
  predicate HasCall(body: seq<Byte>) {
    |body| >= 3 && 12 + Dec16(body[1..3]) <= |body|
  }

  function CallOf(body: seq<Byte>): Call
    requires HasCall(body)
  {
    var n := Dec16(body[1..3]);
    Call(body[3..3 + n], IntOfNumber(body[4 + n..12 + n]))
  }

  /** packetSize[]. */
  function PacketSize(fmt: nat): nat {
    if fmt == LARGE then 12 else if fmt == MEDIUM then 8 else if fmt == SMALL then 4 else 1
  }

  /** The length of the first header, as RTMP_SendPacket counts it before writing it. */
  function HeaderSize(fmt: nat, channel: nat, t: U32): nat {
    PacketSize(fmt) + ChannelBytes(channel) + if fmt <= SMALL && t >= EXTENDED then 4 else 0
  }

  /** Writes basic header, message header and extended timestamp through a moving cursor. */
  method PutHeader(a: array<Byte>, start: nat, fmt: nat, channel: nat, t: U32, size: nat, packetType: Byte,
      streamId: U32)
    requires fmt <= 3 && channel <= 65599 && start + HeaderSize(fmt, channel, t) <= a.Length
    modifies a
    ensures a[start..start + HeaderSize(fmt, channel, t)] ==
            BasicHeader(fmt, channel) + MessageHeader(fmt, t, size, packetType, streamId)
    ensures forall k :: 0 <= k < a.Length && !(start <= k < start + HeaderSize(fmt, channel, t)) ==> a[k] == old(a[k])
  {
    hide Be24, Be32, Le32, BasicHeader, MessageHeader, HeaderSize;
    ghost var time := if fmt <= SMALL then Be24(if t > EXTENDED then EXTENDED else t) else [];
    ghost var kind := if fmt <= MEDIUM then Be24(size) + [packetType] else [];
    ghost var id := if fmt == LARGE then Le32(streamId) else [];
    ghost var ext := if fmt <= SMALL && t >= EXTENDED then Be32(t) else [];
    HeaderParts(fmt, channel, t, size, packetType, streamId, time, kind, id, ext);
    var hptr := Emit(a, start, start, BasicHeader(fmt, channel));
    assert a[start..hptr] == BasicHeader(fmt, channel);
    hptr := EmitIf(fmt <= SMALL, a, start, hptr, Be24(if t > EXTENDED then EXTENDED else t), time);
    hptr := EmitIf(fmt <= MEDIUM, a, start, hptr, Be24(size) + [packetType], kind);
    hptr := EmitIf(fmt == LARGE, a, start, hptr, Le32(streamId), id);
    hptr := EmitIf(fmt <= SMALL && t >= EXTENDED, a, start, hptr, Be32(t), ext);
  }

  /** Writes a field that not every header type has. */
  method EmitIf(present: bool, a: array<Byte>, start: nat, cursor: nat, field: seq<Byte>, ghost part: seq<Byte>)
    returns (next: nat)
    requires part == (if present then field else []) && start <= cursor && cursor + |part| <= a.Length
    modifies a
    ensures next == cursor + |part| && a[start..next] == old(a[start..cursor]) + part
    ensures forall k :: 0 <= k < a.Length && !(cursor <= k < next) ==> a[k] == old(a[k])
  {
    next := cursor;
    if present {
      next := Emit(a, start, cursor, field);
    }
  }

  lemma HeaderParts(fmt: nat, channel: nat, t: U32, size: nat, packetType: Byte, streamId: U32,
                    time: seq<Byte>, kind: seq<Byte>, id: seq<Byte>, ext: seq<Byte>)
    requires fmt <= 3 && channel <= 65599
    requires time == if fmt <= SMALL then Be24(if t > EXTENDED then EXTENDED else t) else []
    requires kind == if fmt <= MEDIUM then Be24(size) + [packetType] else []
    requires id == if fmt == LARGE then Le32(streamId) else []
    requires ext == if fmt <= SMALL && t >= EXTENDED then Be32(t) else []
    ensures BasicHeader(fmt, channel) + MessageHeader(fmt, t, size, packetType, streamId) ==
            BasicHeader(fmt, channel) + time + kind + id + ext
    ensures |BasicHeader(fmt, channel)| + |time| + |kind| + |id| + |ext| == HeaderSize(fmt, channel, t)
  {
    hide Be24, Be32, Le32, BasicHeader;
    assert MessageHeader(fmt, t, size, packetType, streamId) == time + kind + id + ext;
  }

  /** Received bytes put behind the unread ones leave the pending stream as it was. */
  lemma Extended(a: seq<Byte>, b: seq<Byte>, start: nat, end: nat, k: nat, coming: seq<Byte>, rest: seq<Byte>)
    requires start <= end <= end + k <= |a| == |b| && a[..end] == b[..end] && coming == b[end..end + k] + rest
    ensures a[start..end] + coming == b[start..end + k] + rest
  {
    assert a[start..end] == a[..end][start..] == b[start..end];
    assert b[start..end + k] == b[start..end] + b[end..end + k];
    Assoc(b[start..end], b[end..end + k], rest);
  }

  /** RTMP_SendPacket reads name and transaction id of an invoke after its chunk loop, from what that
      has left of the body, and must not read beyond it. */
  predicate CallLeft(p: Packet, cs: nat) {
    p.channel <= 65599 && cs > 0 && HasCall(Worn(p.body, 0, p.channel, cs))
  }

  function QueuedCall(p: Packet, queue: bool, cs: nat): seq<Call>
    requires queue && p.packetType == INVOKE ==> CallLeft(p, cs)
  {
    if queue && p.packetType == INVOKE then [CallOf(Worn(p.body, 0, p.channel, cs))] else []
  }

  /** Name and transaction id lie in the part of the body that is certainly left. */
  predicate CallReadable(p: Packet, cs: nat) {
    p.channel <= 65599 && cs > 0 && HasCall(p.body) && 12 + Dec16(p.body[1..3]) <= Kept(|p.body|, p.channel, cs)
  }

  /** They are then queued as they were sent. */
  lemma ReadableIsLeft(p: Packet, cs: nat)
    requires CallReadable(p, cs)
    ensures CallLeft(p, cs) && CallOf(Worn(p.body, 0, p.channel, cs)) == CallOf(p.body)
  {
    hide Worn, Dec16, IntOfNumber;
    var left, k, n := Worn(p.body, 0, p.channel, cs), Kept(|p.body|, p.channel, cs), Dec16(p.body[1..3]);
    WornKeeps(p.body, 0, p.channel, cs);
    SameFront(left, p.body, k, 1, 3);
    SameFront(left, p.body, k, 3, 3 + n);
    SameFront(left, p.body, k, 4 + n, 12 + n);
  }

  lemma SameFront(a: seq<Byte>, b: seq<Byte>, k: nat, i: nat, j: nat)
    requires i <= j <= k <= |a| && k <= |b| && a[..k] == b[..k]
    ensures a[i..j] == b[i..j]
  {
    SubTake(a, k, i, j);
    SubTake(b, k, i, j);
  }

  /** An invoke in two chunks, on a channel below 64: the second header replaces byte 127. A name of
      125 bytes or more is queued with its 125th byte changed. */
  lemma LongName(p: Packet)
    requires p.channel < 64 && HasCall(p.body) && 128 < |p.body| <= 256
    ensures CallLeft(p, 128)
    ensures var n, queued := Dec16(p.body[1..3]), CallOf(Worn(p.body, 0, p.channel, 128));
            (n <= 115 || n == 124 ==> queued == CallOf(p.body)) &&
            (n >= 125 ==> queued == CallOf(p.body).(name := CallOf(p.body).name[124 := 0xc0 + p.channel]))
  {
    hide IntOfNumber, Dec16;
    var n, left := Dec16(p.body[1..3]), p.body[127 := 0xc0 + p.channel];
    TwoChunks(p.body, p.channel, 128);
    assert left[1..3] == p.body[1..3];
    if n >= 124 || n <= 115 {
      assert left[4 + n..12 + n] == p.body[4 + n..12 + n];
      assert left[3..3 + n] == if n >= 125 then p.body[3..3 + n][124 := 0xc0 + p.channel] else p.body[3..3 + n];
    }
  }

  /** Section 5.4.3 of RTMP 1.0: the sequence number is the number of bytes received so far. */
  function Acknowledgement(bytesIn: int): Packet {
    Packet(MEDIUM, 3, 2, 0, 0, Be32(Wrap32(bytesIn)))
  }

  /** As its receiver reads it: message type 3 on channel 2, four bytes that are the count mod 2^32. */
  lemma AcknowledgementSays(bytesIn: nat)
    ensures var p := Acknowledgement(bytesIn);
            p.packetType == 3 && p.channel == 2 && p.streamId == 0 == p.timestamp && |p.body| == 4 &&
            Dec32(p.body) == bytesIn % 0x1_0000_0000
  {
    Dec32Be32(Wrap32(bytesIn), []);
    assert Be32(Wrap32(bytesIn)) + [] == Be32(Wrap32(bytesIn));
  }

  lemma BasicHeaderIs(s: seq<Byte>, b: seq<Byte>, more: seq<Byte>, rest: seq<Byte>)
    requires |b| == 1 && s == b + (more + rest)
    requires |more| == if b[0] % 64 == 0 then 1 else if b[0] % 64 == 1 then 2 else 0
    ensures s[1 + |more|..] == rest
    ensures TakeBasic(s) == Some((b[0] / 64,
                                  if |more| == 0 then b[0] % 64
                                  else if |more| == 1 then more[0] as int + 64
                                  else more[1] as int * 256 + more[0] + 64, 1 + |more|))
  {
  }

  lemma Dec32Prefix(s: seq<Byte>, ext: seq<Byte>, rest: seq<Byte>)
    requires s == ext + rest && |ext| == 4
    ensures Dec32(s) == Dec32(ext) && s[4..] == rest
  {
  }

  /** The parts of a chunk, read one after the other, are what ReadChunk makes of the stream. */
  lemma ReadChunkIs(st: RecvState, cur: InPacket, fmt: nat, c: nat, n: nat, p: InPacket, m: nat, k: nat, s: seq<Byte>,
      tail: seq<Byte>, q: InPacket)
    requires st.Valid() && cur.Valid() && p.Valid() && n <= |s| && m <= |s[n..]| && tail == s[n..][m..] && k <= |tail|
    requires TakeBasic(s) == Some((fmt, c, n)) && TakeFields(fmt, Start(st, cur, fmt, c), s[n..]) == Some((p, m))
    requires k == ChunkBytes(st, Allocate(fmt, p)) && q == Append(Allocate(fmt, p), tail[..k])
    ensures n + m + k <= |s| && tail[k..] == s[n + m + k..]
    ensures q.Valid() &&
            ReadChunk(st, cur, s) == Chunk(Finish(st, q).0, Finish(st, q).1, Finish(st, q).1.IsReady(), n + m + k)
  {
    hide TakeBasic, TakeFields;
    assert tail[..k] == s[n + m..n + m + k];
  }

  lemma FirstHeaderIs(prev: Option<OutRecord>, q: Packet, cs: nat)
    requires q.headerType <= 3 && q.channel <= 65599 && cs > 0
    ensures FirstHeader(prev, q) == BasicHeader(Compress(prev, q), q.channel) +
            MessageHeader(Compress(prev, q), Delta(prev, q), |q.body|, q.packetType, q.streamId)
    ensures Emission(prev, q, cs) == FirstHeader(prev, q) + Following(q.channel, q.body, 0, cs)
  {
  }

  /** The single-request buffer is long enough for every chunk. */
  lemma CollectedFits(header: seq<Byte>, channel: nat, body: seq<Byte>, cs: nat)
    requires channel <= 65599 && cs > 0 && ChunkCount(|body|, cs) > 1
    ensures |header + Following(channel, body, 0, cs)| <= ChunkCount(|body|, cs) * (ChannelBytes(channel) + 1) +
      |body| + |header|
  {
    FollowingLength(channel, body, cs);
  }

  /** Name and id of a call stand in the memory where the body does. */
  lemma CallInMemory(mem: seq<Byte>, body: seq<Byte>)
    requires HEADROOM + |body| <= |mem| && mem[HEADROOM..HEADROOM + |body|] == body && HasCall(body)
    ensures mem[HEADROOM + 1..HEADROOM + 3] == body[1..3]
    ensures var n := Dec16(body[1..3]);
            mem[HEADROOM + 3..HEADROOM + 3 + n] == body[3..3 + n] &&
            mem[HEADROOM + 4 + n..HEADROOM + 12 + n] == body[4 + n..12 + n]
  {
    hide Dec16;
    var n := Dec16(body[1..3]);
    SubSlice(mem, HEADROOM, HEADROOM + |body|, 1, 3);
    SubSlice(mem, HEADROOM, HEADROOM + |body|, 3, 3 + n);
    SubSlice(mem, HEADROOM, HEADROOM + |body|, 4 + n, 12 + n);
  }

  class Rtmp {
    const socket: Socket
    const calls: Table
    const http: bool
    const buf: array<Byte>     // sb_buf
    var sbStart: nat
    var sbSize: nat
    var timedOut: bool

    var recv: RecvState        // m_vecChannelsIn, m_channelTimestamp, m_inChunkSize
    var out: map<nat, OutRecord>  // m_vecChannelsOut
    const outChunkSize: nat

    var bytesIn: int
    var bytesInSent: int
    var clientBW: int
    var sendCounter: bool

    var numInvokes: nat
    var streamId: int
    var playing: bool
    var bwCheckCounter: nat

    ghost predicate Valid()
      reads this, calls
    {
      calls.Valid() && recv.Valid() && SockValid() && outChunkSize > 0
    }

    /** The unread bytes lie inside the cache. */
    ghost predicate SockValid()
      reads this
    {
      buf.Length == CACHE && sbStart + sbSize <= CACHE
    }

    ghost function Footprint(): set<object>
      reads this, calls
    {
      {this, socket, calls, calls.vals, buf}
    }

    /** The bytes the peer has sent that no caller has read yet. */
    ghost function Pending(): seq<Byte>
      reads this, socket, buf
      requires SockValid()
    {
      buf[sbStart..sbStart + sbSize] + socket.incoming
    }

    /** Section 5.4.3 of RTMP 1.0: bytes received since the last acknowledgement. */
    ghost predicate AckBound()
      reads this
    {
      sendCounter && clientBW >= 0 ==> 2 * (bytesIn - bytesInSent) <= clientBW
    }

    /** What RTMP_Close leaves behind. */
    ghost predicate Closed()
      reads this, socket, calls, calls.vals
      requires calls.Valid()
    {
      !socket.open && sbSize == 0 && bytesIn == 0 == bytesInSent && recv.saved == map[] && out == map[] &&
      calls.Contents() == [] && numInvokes == 0 && streamId == -1 && !playing && bwCheckCounter == 0
    }

    /** RTMP_Init, connected to a peer. */
    constructor (socket: Socket, http: bool, outChunkSize: nat := DEFAULT_CHUNK)
      requires outChunkSize > 0
      ensures Valid() && fresh(buf) && fresh(calls) && fresh(calls.vals)
      ensures this.socket == socket && this.http == http && sbSize == 0
      ensures recv == RecvState(map[], map[], DEFAULT_CHUNK) && out == map[] && this.outChunkSize == outChunkSize
      ensures calls.Contents() == [] && numInvokes == 0 && streamId == 0 && !playing && bwCheckCounter == 0
      ensures bytesIn == 0 == bytesInSent && clientBW == 2500000 && !sendCounter
    {
      this.socket, this.http := socket, http;
      calls := new Table();
      buf := new Byte[CACHE];
      sbStart, sbSize, timedOut := 0, 0, false;
      recv := RecvState(map[], map[], DEFAULT_CHUNK);
      out, this.outChunkSize := map[], outChunkSize;
      bytesIn, bytesInSent, clientBW, sendCounter := 0, 0, 2500000, false;
      numInvokes, streamId, playing, bwCheckCounter := 0, 0, false, 0;
    }

    /** RTMP_Close without its farewell messages. m_channelTimestamp and the chunk sizes stay. */
    method Close()
      requires Valid()
      modifies this, socket`open, calls
      ensures Valid() && Closed() && fresh(calls.vals)
      ensures recv == old(recv).(saved := map[])
      ensures clientBW == old(clientBW) && sendCounter == old(sendCounter)
    {
      socket.open := false;
      streamId, bwCheckCounter, bytesIn, bytesInSent := -1, 0, 0, 0;
      recv, out := recv.(saved := map[]), map[];
      calls.Clear();
      numInvokes, playing, sbSize := 0, false, 0;
    }

    /** RTMPSockBuf_Fill: number of bytes added, 0 for a timeout or end of stream, -1 for an error. */
    method Fill() returns (n: int)
      requires SockValid()
      modifies this`sbStart, this`sbSize, this`timedOut, socket`incoming, socket`interrupts, buf
      ensures SockValid() && Pending() == old(Pending())
      ensures -1 <= n && sbSize == old(sbSize) + if n > 0 then n else 0
      ensures !socket.open ==> n == -1
    {
      if sbSize == 0 {
        sbStart := 0;
      }
      assert Pending() == old(Pending());
      var res := RecvUninterrupted();
      n := if res.Got? then res.n else if res.WouldBlock? then 0 else -1;
      if res.Got? {
        sbSize := sbSize + res.n;
      } else if res.WouldBlock? {
        timedOut := true;
      }
    }

    /** A call of recv that a signal has interrupted is made again. */
    method RecvUninterrupted() returns (res: RecvResult)
      requires SockValid()
      modifies socket`incoming, socket`interrupts, buf
      ensures sbStart + sbSize + (if res.Got? then res.n else 0) <= CACHE
      ensures PendingWith(res) == old(Pending())
      ensures !socket.open ==> res.Failed?
      ensures !res.Interrupted?
    {
      res := RecvMore();
      while res.Interrupted?
        invariant sbStart + sbSize + (if res.Got? then res.n else 0) <= CACHE
        invariant PendingWith(res) == old(Pending())
        invariant !socket.open ==> res.Failed?
        decreases if res.Interrupted? then socket.interrupts + 1 else 0
      {
        assert Pending() == old(Pending());
        res := RecvMore();
      }
    }

    /** The pending stream when a recv has put bytes behind the unread ones. */
    ghost function PendingWith(res: RecvResult): seq<Byte>
      requires buf.Length == CACHE && sbStart + sbSize + (if res.Got? then res.n else 0) <= CACHE
      reads this, socket, buf
    {
      buf[sbStart..sbStart + sbSize + if res.Got? then res.n else 0] + socket.incoming
    }

    method RecvMore() returns (res: RecvResult)
      requires SockValid()
      modifies socket`incoming, socket`interrupts, buf
      ensures sbStart + sbSize + (if res.Got? then res.n else 0) <= CACHE
      ensures PendingWith(res) == old(Pending())
      ensures !socket.open ==> res.Failed?
      ensures res.Interrupted? ==> socket.interrupts < old(socket.interrupts)
    {
      ghost var before, coming := buf[..], socket.incoming;
      res := socket.Recv(buf, sbStart + sbSize, CACHE - sbSize - sbStart);
      if res.Got? {
        Extended(before, buf[..], sbStart, sbStart + sbSize, res.n, coming, socket.incoming);
      } else {
        assert buf[..] == before;
      }
    }

    /** WriteN: hands the bytes over in order, whatever part each send takes. */
    method WriteN(bytes: seq<Byte>) returns (ok: bool)
      requires Valid()
      modifies this, calls, socket`open, socket`outgoing, socket`interrupts
      ensures Valid() && old(socket.outgoing) <= socket.outgoing <= old(socket.outgoing) + bytes
      ensures ok ==> socket.outgoing == old(socket.outgoing) + bytes
      ensures ok ==> unchanged(this) && unchanged(calls) && socket.open == old(socket.open)
      ensures ok && bytes != [] ==> socket.open
      ensures !ok ==> KeptOrClosed()
    {
      var sent, failed := 0, false;
      while sent < |bytes|
        modifies socket`outgoing, socket`interrupts
        invariant sent > 0 ==> socket.open
        invariant sent <= |bytes| && socket.outgoing == old(socket.outgoing) + bytes[..sent]
        decreases |bytes| - sent, socket.interrupts
      {
        var res := socket.Send(bytes[sent..]);
        match res {
          case Got(k) =>
            if k == 0 { break; }
            assert bytes[..sent] + bytes[sent..][..k] == bytes[..sent + k];
            sent := sent + k;
          case Interrupted =>
          case Failed =>
            failed := true;
            break;
        }
      }
      if failed {
        Close();
      }
      ok := !failed && sent == |bytes|;
    }

    /** Sending changes nothing but the channel's record, the call table and the socket. */
    twostate predicate OnlySends()
      reads this, socket
    {
      unchanged(this`sbStart, this`sbSize, this`timedOut, this`recv, this`bytesIn, this`bytesInSent,
                this`clientBW, this`sendCounter, this`numInvokes, this`streamId, this`playing, this`bwCheckCounter) &&
      socket.open == old(socket.open)
    }

    function Previous(channel: nat): Option<OutRecord>
      reads this
    {
      if channel in out then Some(out[channel]) else None
    }

    /** RTMP_SendPacket. */
    method SendPacket(p: OutPacket, queue: bool) returns (ok: bool)
      requires Valid() && p.Valid() && p.mem != buf
      requires queue && p.packetType == INVOKE ==> CallLeft(p.Value(), outChunkSize)
      modifies this, calls, calls.vals, socket`open, socket`outgoing, socket`interrupts, p`headerType, p.mem
      ensures Valid() && (calls.vals == old(calls.vals) || fresh(calls.vals)) && p.Valid()
      ensures ok ==> p.headerType == Compress(old(Previous(p.channel)), old(p.Value())) && old(p.headerType) <= 3
      ensures ok ==> socket.outgoing == old(socket.outgoing + Emission(Previous(p.channel), p.Value(), outChunkSize))
      ensures ok ==> out == old(out)[p.channel := RecordOf(old(p.Value()))] && OnlySends()
      ensures ok ==> calls.Contents() == old(calls.Contents() + QueuedCall(p.Value(), queue, outChunkSize))
      ensures ok ==> socket.open
      ensures !ok ==> KeptOrClosed()
      ensures !ok && old(p.headerType) <= 3 ==>
                old(socket.outgoing) <= socket.outgoing <=
                old(socket.outgoing + Emission(Previous(p.channel), p.Value(), outChunkSize))
      ensures old(p.headerType) > 3 ==> !ok && unchanged(socket)
    {
      hide Emission, FirstHeader, RecvState.Valid, Closed, MessageHeader, BasicHeader;
      ghost var q, prev := p.Value(), Previous(p.channel);
      var last := ChooseHeader(p);
      if p.headerType > 3 {
        return false;
      }
      var t := Wrap32(p.timestamp - last);
      assert t == Delta(prev, q);
      FirstHeaderIs(prev, q, outChunkSize);
      ok := SendWithHeader(p, t, q, FirstHeader(prev, q));
      if ok {
        RecordSent(p, queue, q);
      }
    }

    /** Compresses the header type against the channel's last packet, whose timestamp it gives. */
    method ChooseHeader(p: OutPacket) returns (last: U32)
      requires p.Valid()
      modifies p`headerType
      ensures p.headerType == Compress(Previous(p.channel), old(p.Value())) && p.Valid()
      ensures Wrap32(p.timestamp - last) == Delta(Previous(p.channel), old(p.Value()))
    {
      last := 0;
      if p.channel in out && p.headerType != LARGE {
        var record := out[p.channel];
        if record.bodySize == p.bodySize && record.packetType == p.packetType && p.headerType == MEDIUM {
          p.headerType := SMALL;
        }
        if record.timestamp == p.timestamp && p.headerType == SMALL {
          p.headerType := MINIMUM;
        }
        last := record.timestamp;
      }
    }

    /** Queues a remote call, read back from the sent body, and files the packet under its channel. */
    method RecordSent(p: OutPacket, queue: bool, ghost q: Packet)
      requires Valid() && p.Valid()
      requires p.packetType == q.packetType && p.timestamp == q.timestamp && p.channel == q.channel
      requires p.bodySize == |q.body|
      requires queue && q.packetType == INVOKE ==> CallLeft(q, outChunkSize)
      requires p.mem != null ==>
                 p.mem[HEADROOM..HEADROOM + p.bodySize] == Worn(q.body, 0, q.channel, outChunkSize)
      modifies this`out, calls, calls.vals
      ensures Valid() && (calls.vals == old(calls.vals) || fresh(calls.vals))
      ensures out == old(out)[q.channel := RecordOf(q)]
      ensures calls.Contents() == old(calls.Contents()) + QueuedCall(q, queue, outChunkSize)
    {
      hide IntOfNumber, Worn, Dec16, RecvState.Valid;
      if p.packetType == INVOKE && queue {
        CallInMemory(p.mem[..], Worn(q.body, 0, q.channel, outChunkSize));
        var n := Dec16(p.mem[HEADROOM + 1..HEADROOM + 3]);
        var name := p.mem[HEADROOM + 3..HEADROOM + 3 + n];
        var txn := IntOfNumber(p.mem[HEADROOM + 4 + n..HEADROOM + 12 + n]);
        calls.Queue(Call(name, txn));
      }
      out := out[p.channel := OutRecord(p.packetType, p.timestamp, p.bodySize)];
    }

    /** What reading may change besides the input: acknowledgements go out, nothing else. */
    twostate predicate OnlyAcknowledges()
      reads this, socket, calls, calls.vals
    {
      calls.Valid() && old(calls.Valid()) && calls.Contents() == old(calls.Contents()) &&
      unchanged(this`recv, this`clientBW, this`sendCounter,
                this`numInvokes, this`streamId, this`playing, this`bwCheckCounter) &&
      out - {2} == old(out) - {2} && socket.open && old(socket.open)
    }

    /** The state of a connection that has been closed, as far as the session goes. */
    ghost predicate Ended()
      reads this, socket, calls, calls.vals
    {
      calls.Valid() && !socket.open && calls.Contents() == [] && out == map[] && numInvokes == 0 && streamId == -1 &&
      !playing
    }

    /** Reading leaves the session alone unless it closes the connection. */
    twostate predicate InputOnly()
      reads this, socket, calls, calls.vals
    {
      (socket.open ==> OnlyAcknowledges()) && (old(socket.open) && !socket.open ==> Ended()) &&
      (old(Ended()) ==> Ended()) && old(socket.outgoing) <= socket.outgoing
    }

    /** SendBytesReceived: an acknowledgement for all the bytes received so far. */
    method SendBytesReceived() returns (ok: bool)
      requires Valid()
      modifies this, calls, calls.vals, socket`open, socket`outgoing, socket`interrupts
      ensures Valid() && (calls.vals == old(calls.vals) || fresh(calls.vals))
      ensures InputOnly() && (socket.open ==> unchanged(this`sbStart, this`sbSize, this`timedOut, this`bytesIn))
      ensures if socket.open then bytesInSent == old(bytesIn) else bytesIn - bytesInSent == 0
      ensures old(socket.open) && !socket.open ==> sbSize == 0
      ensures !old(socket.open) ==> !socket.open && (sbSize == 0 || unchanged(this`sbStart, this`sbSize))
      ensures ok ==>
                socket.outgoing == old(socket.outgoing + Emission(Previous(2), Acknowledgement(bytesIn), outChunkSize))
    {
      hide Emission, RecvState.Valid, Be32;
      var p := ControlPacket(MEDIUM, 3, Be32(Wrap32(bytesIn)));
      bytesInSent := bytesIn;
      ok := SendPacket(p, false);
    }

    /** ReadN: the next n bytes of the stream, however recv fragments them, or none. After every
        step the acknowledgement bound holds. */
    method ReadN(n: nat) returns (got: seq<Byte>)
      requires Valid()
      modifies this, calls, calls.vals, socket, buf
      ensures Valid() && (calls.vals == old(calls.vals) || fresh(calls.vals))
      ensures old(AckBound()) || got != [] ==> AckBound()
      ensures (|got| == n || got == []) && got <= old(Pending())
      ensures InputOnly()
      ensures socket.open && |got| == n ==> old(Pending()) == got + Pending()
    {
      hide Emission, RecvState.Valid;
      ghost var stream := Pending();
      timedOut := false;
      got := [];
      while |got| < n
        invariant Valid() && (calls.vals == old(calls.vals) || fresh(calls.vals))
        invariant old(AckBound()) || got != [] ==> AckBound()
        invariant |got| <= n && got <= stream
        invariant InputOnly()
        invariant stream == got + Pending() || Dead()
        decreases n - |got|
      {
        var some := ReadSome(n - |got|);
        if some == [] {
          return [];
        }
        Assoc(got, some, Pending());
        got := got + some;
      }
    }

    /** Closed, with nothing left in the cache. */
    ghost predicate Dead()
      reads this, socket
    {
      !socket.open && sbSize == 0
    }

    /** One turn of ReadN's loop: refills an empty cache, takes what it can, and acknowledges when
        more than half the window has come in since the last acknowledgement. */
    method ReadSome(n: nat) returns (some: seq<Byte>)
      requires Valid() && n > 0
      modifies this, calls, calls.vals, socket, buf
      ensures Valid() && (calls.vals == old(calls.vals) || fresh(calls.vals))
      ensures old(AckBound()) || some != [] ==> AckBound()
      ensures |some| <= n && some <= old(Pending())
      ensures InputOnly()
      ensures old(Pending()) == some + Pending() || Dead()
      ensures old(Dead()) ==> some == []
    {
      hide Emission, RecvState.Valid, Closed, Pending;
      some := [];
      var ready := Refill();
      if ready {
        some := TakeCached(n);
        AcknowledgeWhenDue();
      }
    }

    /** More than half the window has come in since the last acknowledgement. */
    ghost predicate Due()
      reads this
    {
      sendCounter && 2 * (bytesIn - bytesInSent) > clientBW
    }

    method AcknowledgeWhenDue()
      requires Valid()
      modifies this, calls, calls.vals, socket`open, socket`outgoing, socket`interrupts
      ensures Valid() && (calls.vals == old(calls.vals) || fresh(calls.vals)) && AckBound() && InputOnly()
      ensures Pending() == old(Pending()) || Dead()
      ensures old(Dead()) ==> Dead()
      ensures clientBW >= 0 && !old(Due()) ==> unchanged(this) && unchanged(socket)
      ensures old(clientBW) >= 0 && old(Due()) && socket.open ==> bytesInSent == bytesIn == old(bytesIn)
    {
      hide Emission, RecvState.Valid, Closed, Compress;
      if sendCounter && bytesIn > bytesInSent + Half(clientBW) {
        var _ := SendBytesReceived();
      }
    }

    /** Makes sure the cache is not empty, or gives up; an error closes the connection. */
    method Refill() returns (ready: bool)
      requires Valid()
      modifies this, calls, socket`open, socket`incoming, socket`interrupts, buf
      ensures Valid() && (calls.vals == old(calls.vals) || fresh(calls.vals)) && (old(AckBound()) ==> AckBound())
      ensures old(Pending()) == Pending() || Dead()
      ensures InputOnly() && (socket.open ==> unchanged(this`bytesIn, this`bytesInSent))
      ensures ready ==> sbSize > 0 && old(Pending()) == Pending() && !old(Dead()) && unchanged(calls) &&
                        socket.open == old(socket.open) &&
                          unchanged(this`bytesIn, this`bytesInSent, this`clientBW, this`sendCounter)
    {
      hide Emission, RecvState.Valid;
      ready := true;
      if sbSize == 0 {
        var filled := Fill();
        if filled < 1 {
          if !timedOut {
            Close();
          }
          ready := false;
        }
      }
    }

    /** Takes up to n bytes out of the cache and counts them. */
    method TakeCached(n: nat) returns (some: seq<Byte>)
      requires SockValid() && n > 0 && sbSize > 0
      modifies this`sbStart, this`sbSize, this`bytesIn
      ensures SockValid() && 0 < |some| <= n && old(Pending()) == some + Pending()
      ensures bytesIn == old(bytesIn) + |some|
    {
      var k := Min(n, sbSize);
      some := buf[sbStart..sbStart + k];
      Split(buf[..], sbStart, sbStart + k, sbStart + sbSize);
      Assoc(some, buf[sbStart + k..sbStart + sbSize], socket.incoming);
      sbStart, sbSize, bytesIn := sbStart + k, sbSize - k, bytesIn + k;
    }

    /** Puts the first header into the room in front of the body, or into a buffer of its own when
        there is no body. The body begins at offset `at`. */
    method PutFirstHeader(p: OutPacket, t: U32, ghost header: seq<Byte>)
      returns (base: array<Byte>, at: nat, hSize: nat)
      requires p.Valid() && p.headerType <= 3
      requires header == BasicHeader(p.headerType, p.channel) +
                         MessageHeader(p.headerType, t, p.bodySize, p.packetType, p.streamId)
      modifies p.mem
      ensures if p.mem == null then fresh(base) else base == p.mem && at == HEADROOM
      ensures hSize == HeaderSize(p.headerType, p.channel, t) && 1 <= hSize <= at && 2 <= at
      ensures at + p.bodySize <= base.Length && |header| == hSize && base[at - hSize..at] == header
      ensures base[at..at + p.bodySize] == old(p.Value()).body
    {
      hide BasicHeader, MessageHeader;
      if p.mem != null {
        base, at := p.mem, HEADROOM;
      } else {
        base, at := new Byte[HEADROOM], 6 + PacketSize(p.headerType);
      }
      hSize := HeaderSize(p.headerType, p.channel, t);
      PutHeader(base, at - hSize, p.headerType, p.channel, t, p.bodySize, p.packetType, p.streamId);
      assert at - hSize + hSize == at;
    }

    /** Puts the first header in front of the body and sends the chunks. */
    method SendWithHeader(p: OutPacket, t: U32, ghost q: Packet, ghost header: seq<Byte>) returns (ok: bool)
      requires Valid() && p.Valid() && p.mem != buf && p.headerType <= 3
      requires q == p.Value().(headerType := q.headerType)
      requires header == BasicHeader(p.headerType, p.channel) +
                         MessageHeader(p.headerType, t, p.bodySize, p.packetType, p.streamId)
      modifies this, calls, socket`open, socket`outgoing, socket`interrupts, p.mem
      ensures Valid()
      ensures ok ==> socket.outgoing == old(socket.outgoing) + (header + Following(q.channel, q.body, 0, outChunkSize))
      ensures ok ==> unchanged(this) && unchanged(calls) && socket.open == old(socket.open)
      ensures ok ==> socket.open
      ensures ok && p.mem != null ==>
                p.mem[HEADROOM..HEADROOM + p.bodySize] == Worn(q.body, 0, q.channel, outChunkSize)
      ensures !ok ==> KeptOrClosed()
      ensures !ok ==> old(socket.outgoing) <= socket.outgoing <=
                      old(socket.outgoing) + (header + Following(q.channel, q.body, 0, outChunkSize))
    {
      hide BasicHeader, MessageHeader, Following, Worn, RecvState.Valid;
      var base, at, hSize := PutFirstHeader(p, t, header);
      var cSize := ChannelBytes(p.channel);
      var chunks := ChunkCount(p.bodySize, outChunkSize);
      var collect := http && chunks > 1;
      var tbuf := new Byte[if collect then chunks * (cSize + 1) + p.bodySize + hSize else 0];
      if collect {
        CollectedFits(header, p.channel, q.body, outChunkSize);
      }
      ok := SendChunks(base, at, hSize, p.channel, p.bodySize, collect, tbuf, q.body,
                       header + Following(p.channel, q.body, 0, outChunkSize));
    }

    /** The basic header of a chunk: header type and channel. */
    method ReadBasicHeader() returns (ok: bool, fmt: nat, c: nat, ghost n: nat)
      requires Valid()
      modifies this, calls, calls.vals, socket, buf
      ensures Valid() && (calls.vals == old(calls.vals) || fresh(calls.vals))
      ensures old(AckBound()) || ok ==> AckBound()
      ensures InputOnly()
      ensures ok && socket.open ==> TakeBasic(old(Pending())) == Some((fmt, c, n)) && Reads(old(Pending()), n)
    {
      hide Pending, Emission, RecvState.Valid, TakeBasic;
      ghost var stream := Pending();
      ok, fmt, c, n := false, 0, 0, 1;
      var b := ReadN(1);
      if b == [] { return; }
      fmt, c := b[0] / 64, b[0] % 64;
      ghost var more := [];
      if c == 0 {
        var id := ReadN(1);
        if |id| != 1 { return; }
        c, n, more := id[0] as int + 64, 2, id;
      } else if c == 1 {
        var id := ReadN(2);
        if |id| != 2 { return; }
        c, n, more := id[1] as int * 256 + id[0] as int + 64, 3, id;
      }
      ok := true;
      if socket.open {
        assert stream == b + (more + Pending());
        BasicHeaderIs(stream, b, more, Pending());
      }
    }

    /** The first n bytes of the stream have been read. */
    ghost predicate Reads(stream: seq<Byte>, n: nat)
      reads this, socket, buf
      requires SockValid()
    {
      n <= |stream| && Pending() == stream[n..]
    }

    lemma ReadsIs(stream: seq<Byte>, n: nat)
      requires SockValid() && Reads(stream, n)
      ensures n <= |stream| && Pending() == stream[n..]
    {
    }

    lemma ReadsSame(tail: seq<Byte>, k: nat, stream: seq<Byte>, n: nat)
      requires SockValid() && Reads(tail, k) && n <= |stream| && tail[k..] == stream[n..]
      ensures Reads(stream, n)
    {
    }

    /** The message header of a chunk, read into the packet it applies to. */
    method ReadFields(fmt: nat, packet: InPacket) returns (ok: bool, p: InPacket)
      requires Valid() && packet.Valid()
      modifies this, calls, calls.vals, socket, buf
      ensures Valid() && (calls.vals == old(calls.vals) || fresh(calls.vals)) && p.Valid()
      ensures old(AckBound()) ==> AckBound()
      ensures InputOnly()
      ensures ok && socket.open ==>
        Reads(old(Pending()), FieldBytes(fmt)) && p == WithHeader(fmt, packet, old(Pending()))
    {
      hide Pending, Emission, RecvState.Valid;
      ok, p := false, packet;
      var nSize := FieldBytes(fmt);
      var header := [];
      if nSize > 0 {
        header := ReadN(nSize);
        if |header| != nSize { return; }
      }
      if nSize >= 3 {
        p := p.(timestamp := Dec24(header));
        if nSize >= 6 {
          p := p.(bodySize := Dec24(header[3..]), got := None);
          if nSize > 6 {
            p := p.(packetType := header[6]);
            if nSize == 11 {
              p := p.(streamId := DecLe32(header[7..]));
            }
          }
        }
      }
      ok := true;
    }

    method ReadMessageHeader(fmt: nat, packet: InPacket) returns (ok: bool, p: InPacket, ghost n: nat)
      requires Valid() && packet.Valid()
      modifies this, calls, calls.vals, socket, buf
      ensures Valid() && (calls.vals == old(calls.vals) || fresh(calls.vals)) && p.Valid()
      ensures old(AckBound()) ==> AckBound()
      ensures InputOnly()
      ensures ok && socket.open ==> TakeFields(fmt, packet, old(Pending())) == Some((p, n)) && Reads(old(Pending()), n)
    {
      hide Pending, Emission, RecvState.Valid, WithHeader, Dec32;
      ghost var stream := Pending();
      n := FieldBytes(fmt);
      ok, p := ReadFields(fmt, packet);
      if !ok { return; }
      if FieldBytes(fmt) >= 3 && p.timestamp == 0xffffff {
        var ext := ReadN(4);
        if |ext| != 4 { return false, p, n; }
        p, n := p.(timestamp := Dec32(ext)), n + 4;
        if socket.open {
          Dec32Prefix(stream[FieldBytes(fmt)..], ext, Pending());
        }
      }
    }

    /** The body bytes of a chunk, appended to the packet's body. */
    method ReadBody(fmt: nat, packet: InPacket) returns (ok: bool, p: InPacket, ghost n: nat)
      requires Valid() && packet.Valid()
      modifies this, calls, calls.vals, socket, buf
      ensures Valid() && (calls.vals == old(calls.vals) || fresh(calls.vals))
      ensures old(AckBound()) ==> AckBound()
      ensures InputOnly()
      ensures p.Valid() && (ok && socket.open ==> n == ChunkBytes(old(recv), Allocate(fmt, packet)))
      ensures ok && socket.open ==> Reads(old(Pending()), n) && p == Append(Allocate(fmt, packet), old(Pending())[..n])
    {
      hide Pending, Emission, RecvState.Valid;
      ok, p := false, packet;
      if p.bodySize > 0 && p.got.None? {
        p := p.(got := Some([]), headerType := fmt);
      }
      var nToRead := p.bodySize - p.BytesRead();
      var nChunk := recv.chunkSize;
      if nToRead < nChunk {
        nChunk := nToRead;
      }
      n := nChunk;
      var bytes := ReadN(nChunk);
      if |bytes| != nChunk { return; }
      if p.got.Some? {
        p := p.(got := Some(p.got.value + bytes));
      }
      ok := true;
    }

    /** Keeps the packet for its channel and, when it is complete, makes its timestamp absolute. */
    method FilePacket(packet: InPacket) returns (p: InPacket)
      requires Valid() && packet.Valid()
      modifies this`recv
      ensures Valid() && p.Valid() && (recv, p) == Finish(old(recv), packet)
    {
      p := packet;
      var st := recv.(saved := recv.saved[p.channel := p]);
      if p.BytesRead() == p.bodySize {
        if !p.hasAbs {
          p := p.(timestamp := Wrap32(p.timestamp + st.ClockOf(p.channel)));
        }
        st := st.(clock := st.clock[p.channel := p.timestamp]);
        st := st.(saved := st.saved[p.channel := st.saved[p.channel].(got := None, hasAbs := false)]);
        assert recv.saved[p.channel := packet][p.channel := packet.(got := None, hasAbs := false)] ==
               recv.saved[p.channel := packet.(got := None, hasAbs := false)];
      } else {
        p := p.(got := None);
      }
      recv := st;
    }

    /** Both headers of a chunk. */
    method ReadHeaders(cur: InPacket)
      returns (ok: bool, fmt: nat, p: InPacket, ghost c: nat, ghost n: nat, ghost m: nat)
      requires Valid() && cur.Valid()
      modifies this, calls, calls.vals, socket, buf
      ensures Valid() && (calls.vals == old(calls.vals) || fresh(calls.vals)) && p.Valid()
      ensures old(AckBound()) || ok ==> AckBound()
      ensures InputOnly()
      ensures ok && socket.open ==>
                n <= |old(Pending())| && TakeBasic(old(Pending())) == Some((fmt, c, n)) &&
                TakeFields(fmt, Start(old(recv), cur, fmt, c), old(Pending())[n..]) == Some((p, m)) &&
                Reads(old(Pending())[n..], m)
    {
      hide Pending, Emission, TakeBasic, TakeFields;
      ok, p, m := false, cur, 0;
      var id: nat;
      ok, fmt, id, n := ReadBasicHeader();
      c := id;
      if !ok { return; }
      if fmt == LARGE {
        p := p.(hasAbs := true, headerType := fmt, channel := id);
      } else if id in recv.saved {
        p := recv.saved[id];
      } else {
        p := p.(headerType := fmt, channel := id);
      }
      ok, p, m := ReadMessageHeader(fmt, p);
    }

    /** RTMP_ReadPacket: one chunk. `cur` is the packet the caller passes in. */
    method ReadPacket(cur: InPacket) returns (ok: bool, packet: InPacket, ghost used: nat)
      requires Valid() && cur.Valid()
      modifies this, calls, calls.vals, socket, buf
      ensures Valid() && (calls.vals == old(calls.vals) || fresh(calls.vals))
      ensures old(AckBound()) || ok ==> AckBound()
      ensures ok && socket.open ==>
                ReadChunk(old(recv), cur, old(Pending())) == Chunk(recv, packet, packet.IsReady(), used) &&
                Reads(old(Pending()), used)
      ensures socket.open && !ok ==> recv == old(recv)
      ensures packet.Valid() && (old(socket.open) && !socket.open ==> Ended()) && (old(Ended()) ==> Ended())
      ensures socket.open ==> old(socket.open) && calls.Contents() == old(calls.Contents()) &&
                              out - {2} == old(out) - {2} && unchanged(this`numInvokes, this`streamId, this`playing)
      ensures old(socket.outgoing) <= socket.outgoing
    {
      hide Emission, RecvState.Valid, ReadChunk, Finish;
      var q;
      ok, q, used := ReadParts(cur);
      packet := q;
      if !ok { return; }
      ghost var rest := Pending();
      packet := FilePacket(q);
      assert Pending() == rest;
    }

    /** Everything up to the filing of the packet: both headers and the bytes of the body. */
    method ReadParts(cur: InPacket) returns (ok: bool, q: InPacket, ghost used: nat)
      requires Valid() && cur.Valid()
      modifies this, calls, calls.vals, socket, buf
      ensures Valid() && (calls.vals == old(calls.vals) || fresh(calls.vals)) && q.Valid()
      ensures old(AckBound()) || ok ==> AckBound()
      ensures InputOnly()
      ensures ok && socket.open ==>
                Reads(old(Pending()), used) &&
                var (st, p) := Finish(old(recv), q);
                ReadChunk(old(recv), cur, old(Pending())) == Chunk(st, p, p.IsReady(), used)
    {
      hide Pending, Reads, Emission, RecvState.Valid, TakeBasic, TakeFields, ReadChunk, Finish, Append, Allocate,
        ChunkBytes, Start;
      ok, q, used := false, cur, 0;
      ghost var s := Pending();
      var ok1, fmt, p, c, n, m := ReadHeaders(cur);
      if !ok1 { return; }
      if socket.open {
        ReadsIs(s[n..], m);
      }
      ghost var k, tail := 0, Pending();
      ok, q, k := ReadBody(fmt, p);
      used := n + m + k;
      if ok && socket.open {
        ReadsIs(tail, k);
        ReadChunkIs(old(recv), cur, fmt, c, n, p, m, k, s, tail, q);
        ReadsSame(tail, k, s, used);
      }
    }

    /** A failed send has either left the connection alone or closed it. */
    twostate predicate KeptOrClosed()
      reads this, socket, calls, calls.vals
    {
      calls.Valid() &&
      ((unchanged(this) && unchanged(calls) && unchanged(calls.vals) && socket.open == old(socket.open)) ||
       (Closed() && fresh(calls.vals)))
    }

    /** One chunk, to the socket or behind the chunks collected so far. */
    method SendOrCollect(collect: bool, tbuf: array<Byte>, toff: nat, chunk: seq<Byte>,
                         ghost start: seq<Byte>, ghost done: seq<Byte>, ghost all: seq<Byte>)
      returns (ok: bool, next: nat)
      requires Valid() && tbuf != buf && done + chunk <= all
      requires Collected(collect, tbuf, toff, done) && socket.outgoing == start + if collect then [] else done
      requires collect ==> |all| <= tbuf.Length
      modifies this, calls, socket`open, socket`outgoing, socket`interrupts, tbuf
      ensures Valid()
      ensures ok ==> unchanged(this) && unchanged(calls) && socket.open == old(socket.open)
      ensures ok ==> Collected(collect, tbuf, next, done + chunk)
      ensures ok ==> socket.outgoing == start + if collect then [] else done + chunk
      ensures ok && !collect && chunk != [] ==> socket.open
      ensures !ok ==> KeptOrClosed() && start <= socket.outgoing <= start + all
    {
      if collect {
        next := Emit(tbuf, 0, toff, chunk);
        ok := true;
      } else {
        ok := WriteN(chunk);
        next := toff;
        Assoc(start, done, chunk);
      }
    }

    /** The single-request buffer holds the chunks so far. */
    ghost predicate Collected(collect: bool, tbuf: array<Byte>, toff: nat, done: seq<Byte>)
      reads tbuf
    {
      collect ==> toff == |done| <= tbuf.Length && tbuf[..toff] == done
    }

    /** The chunk loop of RTMP_SendPacket. The first header lies in `base` right before offset
        `at`, the body right behind it; every further header is written over the body bytes
        just sent. Off HTTP each chunk is sent as it is cut; otherwise the chunks are collected
        in `tbuf` and sent in one request. */
    method SendChunks(base: array<Byte>, at: nat, headerSize: nat, channel: nat, size: nat,
                      collect: bool, tbuf: array<Byte>, ghost body: seq<Byte>, ghost all: seq<Byte>) returns (ok: bool)
      requires Valid() && base != buf && tbuf != buf && tbuf != base && channel <= 65599
      requires 1 <= headerSize <= at && 2 <= at && at + size <= base.Length && base[at..at + size] == body
      requires all == base[at - headerSize..at] + Following(channel, body, 0, outChunkSize)
      requires collect ==> |all| <= tbuf.Length
      modifies this, calls, socket`open, socket`outgoing, socket`interrupts, base, tbuf
      ensures Valid() && old(socket.outgoing) <= socket.outgoing <= old(socket.outgoing) + all
      ensures ok ==> socket.outgoing == old(socket.outgoing) + all
      ensures ok ==> unchanged(this) && unchanged(calls) && socket.open == old(socket.open)
      ensures !ok ==> KeptOrClosed()
      ensures ok ==> socket.open
      ensures ok ==> base[at..at + size] == Worn(body, 0, channel, outChunkSize)
    {
      hide Progress, Following, Worn, RecvState.Valid, BasicHeader;
      var cs := outChunkSize;
      var sent: nat, hSize: nat, toff: nat := 0, headerSize, 0;
      ghost var done, start := [], socket.outgoing;
      ProgressStart(base[..], at, headerSize, channel, body, cs, all);
      ok := true;
      while ok && size - sent + hSize != 0
        invariant Valid() && sent <= size && cs > 0
        invariant ok ==> unchanged(this) && unchanged(calls) && socket.open == old(socket.open)
        invariant ok ==> Progress(base[..], at, sent, hSize, channel, body, cs, all, done)
        invariant ok && !collect && done != [] ==> socket.open
        invariant ok ==> Collected(collect, tbuf, toff, done) && socket.outgoing == start + if collect then [] else done
        invariant !ok ==> KeptOrClosed() && start <= socket.outgoing <= start + all
        decreases ok, size - sent, hSize
      {
        ok, sent, hSize, toff,
          done := SendChunkAt(base, at, sent, hSize, channel, size, cs, collect, tbuf, toff, body, all, start, done);
      }
      if ok {
        ProgressEnd(base[..], at, channel, body, cs, all, done);
        if collect {
          ok := WriteN(tbuf[..toff]);
        }
      }
    }

    /** One turn of the chunk loop. */
    method SendChunkAt(base: array<Byte>, at: nat, sent0: nat, hSize0: nat, channel: nat, size: nat, cs: nat,
                       collect: bool, tbuf: array<Byte>, toff0: nat,
                       ghost body: seq<Byte>, ghost all: seq<Byte>, ghost start: seq<Byte>, ghost done0: seq<Byte>)
      returns (ok: bool, sent: nat, hSize: nat, toff: nat, ghost done: seq<Byte>)
      requires Valid() && base != buf && tbuf != buf && tbuf != base && |body| == size
      requires sent0 <= size && size - sent0 + hSize0 != 0
      requires Progress(base[..], at, sent0, hSize0, channel, body, cs, all, done0)
      requires Collected(collect, tbuf, toff0, done0) && socket.outgoing == start + if collect then [] else done0
      requires collect ==> |all| <= tbuf.Length
      modifies this, calls, socket`open, socket`outgoing, socket`interrupts, base, tbuf
      ensures Valid() && sent0 <= sent <= size && (sent == sent0 ==> hSize < hSize0)
      ensures ok ==> unchanged(this) && unchanged(calls) && socket.open == old(socket.open)
      ensures ok ==> Progress(base[..], at, sent, hSize, channel, body, cs, all, done)
      ensures ok && !collect ==> socket.open
      ensures ok ==> Collected(collect, tbuf, toff, done) && socket.outgoing == start + if collect then [] else done
      ensures !ok ==> KeptOrClosed() && start <= socket.outgoing <= start + all
    {
      hide Progress, Following, Continuation, Rewritten, KeptOrClosed, Collected, BasicHeader;
      ghost var mem := base[..];
      InRange(mem, at, sent0, hSize0, channel, body, cs, all, done0);
      var nChunk := Min(cs, size - sent0);
      var chunk := base[at + sent0 - hSize0..at + sent0 + nChunk];
      assert chunk == mem[at + sent0 - hSize0..at + sent0 + nChunk];
      ProgressBounds(mem, at, sent0, hSize0, channel, body, cs, all, done0, sent0 + nChunk, chunk);
      ok, toff := SendOrCollect(collect, tbuf, toff0, chunk, start, done0, all);
      done := done0 + chunk;
      sent, hSize := sent0 + nChunk, 0;
      if ok {
        assert base[..] == mem;
        hSize := PutNextHeader(base, at, sent, channel, size);
        ProgressStep(mem, base[..], at, sent0, hSize0, sent, hSize, chunk, channel, body, cs, all, done0, done);
      }
    }
  }

  /** What the chunk loop has still to send. */
  ghost function ToSend(a: seq<Byte>, at: nat, sent: nat, hSize: nat, channel: nat, body: seq<Byte>, cs: nat): seq<Byte>
    requires channel <= 65599 && cs > 0 && sent <= |body| && hSize <= at + sent <= |a|
  {
    if hSize == 0 then [] else a[at + sent - hSize..at + sent] + Following(channel, body, sent, cs)
  }

  /** The invariant of the chunk loop: what is emitted and what is still to send make up the whole
      emission, no byte still to send has been overwritten, and the first chunk is intact but
      for the room of a continuation header. */
  ghost predicate Progress(a: seq<Byte>, at: nat, sent: nat, hSize: nat, channel: nat, body: seq<Byte>, cs: nat,
                           all: seq<Byte>, done: seq<Byte>)
  {
    channel <= 65599 && cs > 0 && sent <= |body| && hSize <= at + sent && 2 <= at && at + |body| <= |a| &&
    (hSize == 0 ==> sent == |body|) &&
    a[at + sent..at + |body|] == body[sent..] &&
    all == done + ToSend(a, at, sent, hSize, channel, body, cs) &&
    Worn(a[at..at + |body|], sent, channel, cs) == Worn(body, 0, channel, cs)
  }

  lemma ProgressStart(a: seq<Byte>, at: nat, hSize: nat, channel: nat, body: seq<Byte>, cs: nat, all: seq<Byte>)
    requires channel <= 65599 && cs > 0 && 1 <= hSize <= at && 2 <= at && at + |body| <= |a|
    requires a[at..at + |body|] == body
    requires all == a[at - hSize..at] + Following(channel, body, 0, cs)
    ensures Progress(a, at, 0, hSize, channel, body, cs, all, [])
  {
    hide Following, Worn;
    assert a[at + 0 - hSize..at + 0] == a[at - hSize..at];
  }

  lemma ProgressEnd(a: seq<Byte>, at: nat, channel: nat, body: seq<Byte>, cs: nat, all: seq<Byte>, done: seq<Byte>)
    requires Progress(a, at, |body|, 0, channel, body, cs, all, done)
    ensures all == done && at + |body| <= |a| && channel <= 65599 && cs > 0
    ensures a[at..at + |body|] == Worn(body, 0, channel, cs)
  {
  }

  lemma InRange(a: seq<Byte>, at: nat, sent: nat, hSize: nat, channel: nat, body: seq<Byte>, cs: nat,
                all: seq<Byte>, done: seq<Byte>)
    requires Progress(a, at, sent, hSize, channel, body, cs, all, done)
    ensures hSize <= at + sent && channel <= 65599 && sent <= |body| && at + |body| <= |a| && 2 <= at && cs > 0
    ensures hSize == 0 ==> sent == |body|
  {
  }

  lemma ProgressBounds(a: seq<Byte>, at: nat, sent: nat, hSize: nat, channel: nat, body: seq<Byte>, cs: nat,
                       all: seq<Byte>, done: seq<Byte>, next: nat, chunk: seq<Byte>)
    requires Progress(a, at, sent, hSize, channel, body, cs, all, done)
    requires next == sent + Min(cs, |body| - sent)
    requires hSize <= at + sent && at + next <= |a| && chunk == a[at + sent - hSize..at + next]
    ensures all == done + chunk + Continuation(channel, body, next, cs)
    ensures a[at + next..at + |body|] == body[next..]
  {
    hide Worn, Continuation;
    var more := Continuation(channel, body, next, cs);
    ChunkSplits(a, at, sent, next, hSize, body, chunk);
    if hSize == 0 {
      NoneToFollow(channel, body, cs);
      assert done + chunk + more == done;
    } else {
      var header := a[at + sent - hSize..at + sent];
      assert ToSend(a, at, sent, hSize, channel, body, cs) == header + (body[sent..next] + more);
      Assoc(header, body[sent..next], more);
      Assoc(done, chunk, more);
    }
  }

  lemma NoneToFollow(channel: nat, body: seq<Byte>, cs: nat)
    requires channel <= 65599 && cs > 0
    ensures Continuation(channel, body, |body|, cs) == []
  {
  }

  lemma ChunkSplits(a: seq<Byte>, at: nat, sent: nat, next: nat, hSize: nat, body: seq<Byte>, chunk: seq<Byte>)
    requires hSize <= at + sent && sent <= next <= |body| && at + |body| <= |a|
    requires a[at + sent..at + |body|] == body[sent..]
    requires chunk == a[at + sent - hSize..at + next]
    ensures chunk == a[at + sent - hSize..at + sent] + body[sent..next]
    ensures a[at + next..at + |body|] == body[next..]
  {
    var n, m := next - sent, |body| - sent;
    SubSlice(a, at + sent, at + |body|, 0, n);
    SubSlice(a, at + sent, at + |body|, n, m);
    SubDrop(body, sent, 0, n);
    SubDrop(body, sent, n, m);
    Split(a, at + sent - hSize, at + sent, at + next);
  }

  /** One chunk is out, and the next header (if any) has been written over the bytes before it. */
  lemma ProgressStep(a: seq<Byte>, b: seq<Byte>, at: nat, sent: nat, hSize: nat, next: nat, hNext: nat,
                     chunk: seq<Byte>, channel: nat, body: seq<Byte>, cs: nat, all: seq<Byte>, done: seq<Byte>,
                     doneNext: seq<Byte>)
    requires Progress(a, at, sent, hSize, channel, body, cs, all, done)
    requires next == sent + Min(cs, |body| - sent) && hNext == if next < |body| then 1 + ChannelBytes(channel) else 0
    requires hSize <= at + sent && at + next <= |a| && chunk == a[at + sent - hSize..at + next]
    requires doneNext == done + chunk
    requires Rewritten(a, b, at, next, channel, |body|)
    ensures Progress(b, at, next, hNext, channel, body, cs, all, doneNext)
  {
    hide Continuation, Following, BasicHeader, ToSend, Rewritten, Worn, ChannelBytes;
    ProgressBounds(a, at, sent, hSize, channel, body, cs, all, done, next, chunk);
    NextToSend(a, b, at, next, hNext, channel, body, cs);
    StillToSend(a, b, at, next, channel, |body|);
    WornStep(a, b, at, sent, next, channel, |body|, cs);
  }

  lemma NextToSend(a: seq<Byte>, b: seq<Byte>, at: nat, next: nat, hNext: nat, channel: nat, body: seq<Byte>, cs: nat)
    requires channel <= 65599 && cs > 0 && next <= |body| && 2 <= at && at + |body| <= |a|
    requires hNext == if next < |body| then 1 + ChannelBytes(channel) else 0
    requires Rewritten(a, b, at, next, channel, |body|)
    ensures |b| == |a| && hNext <= at + next
    ensures ToSend(b, at, next, hNext, channel, body, cs) == Continuation(channel, body, next, cs)
  {
    if next < |body| {
      StillToSend(a, b, at, next, channel, |body|);
    }
  }

  lemma StillToSend(a: seq<Byte>, b: seq<Byte>, at: nat, next: nat, channel: nat, size: nat)
    requires next <= size && at + size <= |a| && Rewritten(a, b, at, next, channel, size)
    ensures |b| == |a| && b[at + next..at + size] == a[at + next..at + size]
    ensures next < size ==> 1 + ChannelBytes(channel) <= at + next &&
                            b[at + next - 1 - ChannelBytes(channel)..at + next] == BasicHeader(MINIMUM, channel)
  {
    hide BasicHeader;
    if next < size {
      SubDrop(a, at + next, 0, size - next);
      SubDrop(b, at + next, 0, size - next);
    }
  }

  lemma WornStep(a: seq<Byte>, b: seq<Byte>, at: nat, sent: nat, next: nat, channel: nat, size: nat, cs: nat)
    requires channel <= 65599 && cs > 0 && sent <= size && next == sent + Min(cs, size - sent) && at + size <= |a|
    requires Rewritten(a, b, at, next, channel, size)
    ensures |b| == |a| && Worn(b[at..at + size], next, channel, cs) == Worn(a[at..at + size], sent, channel, cs)
  {
    hide BasicHeader, Rewritten, Overwritten;
    OverwrittenIs(a, b, at, next, channel, size);
    NotOverwritten(a[at..at + size], channel);
  }

  lemma NotOverwritten(cur: seq<Byte>, channel: nat)
    requires channel <= 65599
    ensures Overwritten(cur, |cur|, channel) == cur
  {
  }

  lemma OverwrittenIs(a: seq<Byte>, b: seq<Byte>, at: nat, next: nat, channel: nat, size: nat)
    requires channel <= 65599 && next <= size && at + size <= |a| && Rewritten(a, b, at, next, channel, size)
    ensures |b| == |a| && b[at..at + size] == Overwritten(a[at..at + size], next, channel)
  {
    hide BasicHeader;
    if next < size {
      var h, x, y := BasicHeader(MINIMUM, channel), a[at..at + size], b[at..at + size];
      forall k | 0 <= k < size ensures y[k] == Overwritten(x, next, channel)[k] {
        WhereHeaderStands(a, b, at, next, size, h, k);
      }
    }
  }

  lemma WhereHeaderStands(a: seq<Byte>, b: seq<Byte>, at: nat, next: nat, size: nat, h: seq<Byte>, k: nat)
    requires k < size && next <= size && at + size <= |a| == |b| && |h| <= at + next
    requires var p := at + next; b[..p - |h|] == a[..p - |h|] && b[p - |h|..p] == h && b[p..] == a[p..]
    ensures b[at..at + size][k] == if next - |h| <= k < next then h[k - (next - |h|)] else a[at..at + size][k]
  {
    var p := at + next;
    if k < next - |h| {
      assert b[..p - |h|][at + k] == a[..p - |h|][at + k];
    } else if k < next {
      assert b[p - |h|..p][k - (next - |h|)] == h[k - (next - |h|)];
    } else {
      assert b[p..][k - next] == a[p..][k - next];
    }
  }

  /** The buffer after a chunk: while body bytes remain, a continuation header stands in front of them. */
  ghost predicate Rewritten(a: seq<Byte>, b: seq<Byte>, at: nat, next: nat, channel: nat, size: nat) {
    if next >= size then b == a
    else
      channel <= 65599 && 3 <= at + next <= |a| == |b| &&
      var p, h := at + next, BasicHeader(MINIMUM, channel);
      b[..p - |h|] == a[..p - |h|] && b[p - |h|..p] == h && b[p..] == a[p..]
  }

  /** Writes a continuation header over the bytes in front of the next chunk, if there is one;
      gives the size of the header. */
  method PutNextHeader(base: array<Byte>, at: nat, next: nat, channel: nat, size: nat) returns (hSize: nat)
    requires channel <= 65599 && 2 <= at && next <= size && (next < size ==> 1 <= next) && at + size <= base.Length
    modifies base
    ensures hSize == if next < size then 1 + ChannelBytes(channel) else 0
    ensures Rewritten(old(base[..]), base[..], at, next, channel, size)
  {
    hSize := 0;
    if next < size {
      hSize := 1 + ChannelBytes(channel);
      Put(base, at + next - hSize, BasicHeader(MINIMUM, channel));
    }
  }
}
