/** The chunk stream as RTMP_SendPacket writes it: header compression against the
    channel's history, and a message body cut into chunks. Adobe's RTMP 1.0
    specification, sections 5.3.1.1 to 5.3.1.3, defines the header layout; the
    type-3 continuation headers here carry no extended timestamp, as in the code. */
module ChunkFormat {
  import opened Bytes
  import opened Arith

  const LARGE := 0
  const MEDIUM := 1
  const SMALL := 2
  const MINIMUM := 3
  const EXTENDED := 0xffffff  // the 24-bit timestamp that announces a 32-bit one

  /** An outgoing RTMPPacket. */
  datatype Packet = Packet(headerType: nat, packetType: Byte, channel: nat,
                           timestamp: U32, streamId: U32, body: seq<Byte>)

  /** What m_vecChannelsOut keeps of the previous packet of a channel. */
  datatype OutRecord = OutRecord(packetType: Byte, timestamp: U32, bodySize: nat)

  function RecordOf(p: Packet): OutRecord { OutRecord(p.packetType, p.timestamp, |p.body|) }

  /** The header type RTMP_SendPacket settles on. */
  function Compress(prev: Option<OutRecord>, p: Packet): (fmt: nat)
    ensures p.headerType <= 3 ==> fmt <= 3
    ensures fmt == LARGE <==> p.headerType == LARGE
  {
    if prev.None? || p.headerType == LARGE then p.headerType
    else
      var h := if prev.value.bodySize == |p.body| && prev.value.packetType == p.packetType && p.headerType == MEDIUM
               then SMALL else p.headerType;
      if prev.value.timestamp == p.timestamp && h == SMALL then MINIMUM else h
  }

  /** The timestamp field: absolute in a LARGE header, otherwise a difference mod 2^32. */
  function Delta(prev: Option<OutRecord>, p: Packet): U32 {
    if prev.None? || p.headerType == LARGE then p.timestamp
    else Wrap32(p.timestamp - prev.value.timestamp)
  }

  /** Number of bytes after the first in a basic header. */
  function ChannelBytes(channel: nat): (n: nat)
    ensures n <= 2
  {
    if channel > 319 then 2 else if channel > 63 then 1 else 0
  }

  function BasicHeader(fmt: nat, channel: nat): (s: seq<Byte>)
    requires fmt <= 3 && channel <= 65599
    ensures |s| == 1 + ChannelBytes(channel)
  {
    if channel > 319 then [fmt * 64 + 1, (channel - 64) % 256, (channel - 64) / 256]
    else if channel > 63 then [fmt * 64, channel - 64]
    else [fmt * 64 + channel]
  }

  function MessageHeader(fmt: nat, t: U32, size: nat, packetType: Byte, streamId: U32): (s: seq<Byte>)
    ensures |s| <= 15
  {
    (if fmt <= SMALL then Be24(if t > EXTENDED then EXTENDED else t) else [])
    + (if fmt <= MEDIUM then Be24(size) + [packetType] else [])
    + (if fmt == LARGE then Le32(streamId) else [])
    + (if fmt <= SMALL && t >= EXTENDED then Be32(t) else [])
  }

  /** The whole header in front of a message. */
  function FirstHeader(prev: Option<OutRecord>, p: Packet): (s: seq<Byte>)
    requires p.headerType <= 3 && p.channel <= 65599
    ensures 1 <= |s| <= 18
  {
    var fmt := Compress(prev, p);
    BasicHeader(fmt, p.channel) + MessageHeader(fmt, Delta(prev, p), |p.body|, p.packetType, p.streamId)
  }

  /** The bytes of a message from offset k on: continuation headers and body slices. */
  function Continuation(channel: nat, body: seq<Byte>, k: nat, cs: nat): (s: seq<Byte>)
    requires channel <= 65599 && k <= |body| && cs > 0
    decreases |body| - k
  {
    if k == |body| then []
    else
      var n := Min(cs, |body| - k);
      BasicHeader(MINIMUM, channel) + (body[k..k + n] + Continuation(channel, body, k + n, cs))
  }

  /** What follows the header of the chunk that starts at offset k. */
  function Following(channel: nat, body: seq<Byte>, k: nat, cs: nat): (s: seq<Byte>)
    requires channel <= 65599 && k <= |body| && cs > 0
  {
    var n := Min(cs, |body| - k);
    body[k..k + n] + Continuation(channel, body, k + n, cs)
  }

  /** Everything RTMP_SendPacket emits for one packet. */
  function Emission(prev: Option<OutRecord>, p: Packet, cs: nat): (s: seq<Byte>)
    requires p.headerType <= 3 && p.channel <= 65599 && cs > 0
  {
    FirstHeader(prev, p) + Following(p.channel, p.body, 0, cs)
  }

  function ChunkCount(size: nat, cs: nat): nat
    requires cs > 0
  {
    (size + cs - 1) / cs
  }

  /** The exact number of bytes emitted: every chunk but the first adds one basic header. */
  lemma {:induction false} ContinuationLength(channel: nat, body: seq<Byte>, k: nat, cs: nat)
    requires channel <= 65599 && k <= |body| && cs > 0
    ensures |Continuation(channel, body, k, cs)|
         == |body| - k + ChunkCount(|body| - k, cs) * (1 + ChannelBytes(channel))
    decreases |body| - k
  {
    if k < |body| {
      var n := Min(cs, |body| - k);
      ContinuationLength(channel, body, k + n, cs);
      var left := |body| - k;
      if n == cs {
        DivStep(left - 1, cs);
        Distrib(ChunkCount(left - cs, cs), 1, 1 + ChannelBytes(channel));
      } else {
        DivStep(left - 1, cs);
        DivSmall(left - 1, cs);
        DivSmall(cs - 1, cs);
      }
    } else {
      DivSmall(cs - 1, cs);
    }
  }

  /** The exact number of bytes that follow the first header. */
  lemma FollowingLength(channel: nat, body: seq<Byte>, cs: nat)
    requires channel <= 65599 && cs > 0 && ChunkCount(|body|, cs) > 1
    ensures |Following(channel, body, 0, cs)| == |body| + (ChunkCount(|body|, cs) - 1) * (1 + ChannelBytes(channel))
    ensures |Following(channel, body, 0, cs)| < |body| + ChunkCount(|body|, cs) * (1 + ChannelBytes(channel))
  {
    var chunks, h := ChunkCount(|body|, cs), 1 + ChannelBytes(channel);
    if |body| <= cs {
      if |body| > 0 {
        DivStep(|body| - 1, cs);
        DivSmall(|body| - 1, cs);
      } else {
        DivSmall(cs - 1, cs);
      }
    } else {
      ContinuationLength(channel, body, cs, cs);
      DivStep(|body| - 1, cs);
    }
    Distrib(chunks - 1, 1, h);
  }

  /** RTMP_SendPacket's single-request buffer is big enough for all the chunks of a
      message, with one basic header to spare. */
  lemma EmissionFits(prev: Option<OutRecord>, p: Packet, cs: nat)
    requires p.headerType <= 3 && p.channel <= 65599 && cs > 0 && ChunkCount(|p.body|, cs) > 1
    ensures |Emission(prev, p, cs)| ==
            |FirstHeader(prev, p)| + |p.body| + (ChunkCount(|p.body|, cs) - 1) * (1 + ChannelBytes(p.channel))
    ensures |Emission(prev, p, cs)| <
            ChunkCount(|p.body|, cs) * (ChannelBytes(p.channel) + 1) + |p.body| + |FirstHeader(prev, p)|
  {
    FollowingLength(p.channel, p.body, cs);
  }
}
