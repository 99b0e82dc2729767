/** What header compression puts on the wire: the header type, its length and its fields, read off
    the emitted bytes. */
module ChunkHeaders {
  import opened Bytes
  import opened ChunkFormat
  import opened ChunkReceive
  import opened ChunkRoundTrip

  /** The header types of section 5.3.1.2 of RTMP 1.0, by what they leave out: a packet offered as
      MEDIUM goes out as SMALL when size and type of the channel's last packet repeat, and as
      MINIMUM when the timestamp repeats too; one offered as SMALL as MINIMUM when the timestamp
      repeats. Nothing else is changed. */
  lemma HeaderTypeOnWire(prev: Option<OutRecord>, p: Packet, cs: nat)
    requires p.headerType <= 3 && 2 <= p.channel <= 65599 && cs > 0
    ensures var b := TakeBasic(Emission(prev, p, cs));
            b.Some? && b.value.1 == p.channel &&
            b.value.2 == (if p.channel <= 63 then 1 else if p.channel <= 319 then 2 else 3)
    ensures var fmt := TakeBasic(Emission(prev, p, cs)).value.0;
            (p.headerType == LARGE || p.headerType == MINIMUM || prev.None? ==> fmt == p.headerType) &&
            (p.headerType == MEDIUM && prev.Some? ==>
              var same := prev.value.bodySize == |p.body| && prev.value.packetType == p.packetType;
              (fmt == MINIMUM <==> same && prev.value.timestamp == p.timestamp) &&
              (fmt == SMALL <==> same && prev.value.timestamp != p.timestamp) && (fmt == MEDIUM <==> !same)) &&
            (p.headerType == SMALL && prev.Some? ==>
              (fmt == MINIMUM <==> prev.value.timestamp == p.timestamp) &&
              (fmt == SMALL <==> prev.value.timestamp != p.timestamp))
  {
    hide BasicHeader, MessageHeader, Following, TakeBasic;
    var fmt := Compress(prev, p);
    var fields := MessageHeader(fmt, Delta(prev, p), |p.body|, p.packetType, p.streamId);
    var rest := Following(p.channel, p.body, 0, cs);
    Assoc(BasicHeader(fmt, p.channel), fields, rest);
    TakeBasicOfHeader(fmt, p.channel, fields + rest);
  }

  /** The bytes in front of a message: 12, 8, 4 or 1 by header type, up to two more for the channel,
      and four more when the time to announce needs more than 24 bits. */
  lemma HeaderLength(prev: Option<OutRecord>, p: Packet, cs: nat)
    requires p.headerType <= 3 && 2 <= p.channel <= 65599 && cs > 0
    ensures var b := TakeBasic(Emission(prev, p, cs));
            b.Some? &&
            var (fmt, _, n) := b.value;
            |FirstHeader(prev, p)| ==
              n + (if fmt == 0 then 11 else if fmt == 1 then 7 else if fmt == 2 then 3 else 0) +
              if fmt != 3 && TimeToSend(prev, p) >= 0xffffff then 4 else 0
    ensures FirstHeader(prev, p) <= Emission(prev, p, cs)
  {
    hide BasicHeader, Following, TakeBasic;
    HeaderTypeOnWire(prev, p, cs);
    var fmt := Compress(prev, p);
    var fields := MessageHeader(fmt, Delta(prev, p), |p.body|, p.packetType, p.streamId);
    var rest := Following(p.channel, p.body, 0, cs);
    Assoc(BasicHeader(fmt, p.channel), fields, rest);
    TakeBasicOfHeader(fmt, p.channel, fields + rest);
  }

  /** The time of the packet, or the time since the last packet of its channel: any n below 2^32 that
      leads from that one to this. */
  function TimeToSend(prev: Option<OutRecord>, p: Packet): (n: U32)
    ensures p.headerType == LARGE || prev.None? ==> n == p.timestamp
    ensures p.headerType != LARGE && prev.Some? ==> (prev.value.timestamp + n) % 0x1_0000_0000 == p.timestamp
  {
    if p.headerType == LARGE || prev.None? then p.timestamp
    else (p.timestamp - prev.value.timestamp) % 0x1_0000_0000
  }

  /** The message header on the wire is read into any packet as this time, and as size, type and
      stream id as far as the header type has them. */
  lemma FieldsOnWire(prev: Option<OutRecord>, p: Packet, cs: nat, q: InPacket)
    requires p.headerType <= 3 && 2 <= p.channel <= 65599 && cs > 0 && |p.body| < 0x100_0000
    ensures var s := Emission(prev, p, cs);
            var b := TakeBasic(s);
            b.Some? && b.value.2 <= |s| &&
            var (fmt, _, n) := b.value;
            var f := TakeFields(fmt, q, s[n..]);
            f.Some? && n + f.value.1 == |FirstHeader(prev, p)| &&
            f.value.0.timestamp == (if fmt == MINIMUM then q.timestamp else TimeToSend(prev, p)) &&
            f.value.0.bodySize == (if fmt <= MEDIUM then |p.body| else q.bodySize) &&
            f.value.0.packetType == (if fmt <= MEDIUM then p.packetType else q.packetType) &&
            f.value.0.streamId == (if fmt == LARGE then p.streamId else q.streamId)
  {
    hide BasicHeader, MessageHeader, Following, TakeBasic, TakeFields;
    HeaderTypeOnWire(prev, p, cs);
    var fmt := Compress(prev, p);
    var basic := BasicHeader(fmt, p.channel);
    var fields := MessageHeader(fmt, Delta(prev, p), |p.body|, p.packetType, p.streamId);
    var rest := Following(p.channel, p.body, 0, cs);
    Assoc(basic, fields, rest);
    TakeBasicOfHeader(fmt, p.channel, fields + rest);
    DropPrefix(basic, fields + rest);
    TakeFieldsOfHeader(q, fmt, Delta(prev, p), |p.body|, p.packetType, p.streamId, rest);
  }

  /** The order of the bytes in the fields, by examples: all big-endian but the stream id. */
  lemma ByteOrder()
    ensures Be16(0x0102) == [1, 2] && Be24(0x010203) == [1, 2, 3] && Be32(0x01020304) == [1, 2, 3, 4]
    ensures Le32(0x01020304) == [4, 3, 2, 1]
    ensures BasicHeader(MEDIUM, 5) == [0x45] && BasicHeader(MEDIUM, 64 + 9) == [0x40, 9]
    ensures BasicHeader(MEDIUM, 64 + 0x0201) == [0x41, 1, 2]
  {
  }
}
