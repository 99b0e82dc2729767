/** RTMP_Read: media packets as one stream of FLV bytes, whatever sizes it is read in. */
module FlvRead {
  import opened Bytes
  import opened FlvTags
  import opened FlvAggregate
  import opened Net

  const HEADERBUF := 128 * 1024
  const READ_EOF := -1
  const READ_ERROR := -2
  const READ_COMPLETE := -3

  /** A media packet as RTMP_GetNextMediaPacket delivers it, with the kinds of media that
      metadata has announced meanwhile (HandleMetadata, see FlvMetadata). */
  datatype Media = Media(kind: Byte, timestamp: U32, body: seq<Byte>, announced: set<Byte>)

  /** An aggregate holds its first timestamp, and its last tag's trailing size in whole or not
      at all. */
  predicate Readable(m: Media) {
    m.kind in {AUDIO, VIDEO, METADATA, AGGREGATE} && |m.body| < 0x100_0000 &&
    (m.kind == AGGREGATE ==> |m.body| >= 8 && WholeTrailer(m.body))
  }

  predicate AllReadable(ms: seq<Media>) {
    forall i :: 0 <= i < |ms| ==> Readable(ms[i])
  }

  predicate TooSmall(m: Media) {
    (m.kind == VIDEO && |m.body| <= 5) || (m.kind == AUDIO && |m.body| <= 1)
  }

  /** How far the tags of an aggregate move: its first one gets the packet's timestamp. */
  function Move(m: Media): U32
    requires |m.body| >= 8
  {
    Wrap32(m.timestamp - StampOf(m.body[4..]))
  }

  function PacketBytes(m: Media): seq<Byte>
    requires Readable(m)
  {
    if TooSmall(m) then []
    else if m.kind == AGGREGATE then Retimed(m.body, Move(m))
    else TagBytes(Tag(m.kind, m.timestamp, 0, m.body))
  }

  function StreamBytes(ms: seq<Media>): seq<Byte>
    requires AllReadable(ms)
  {
    if ms == [] then [] else PacketBytes(ms[0]) + StreamBytes(ms[1..])
  }

  /** The packet is of this kind, holds a tag of it, or has announced it in metadata. */
  predicate Brings(m: Media, kind: Byte) {
    m.kind == kind || kind in m.announced || (m.kind == AGGREGATE && HasKind(m.body, kind))
  }

  /** What m_read.timestamp becomes. */
  function StampAfter(m: Media, live: bool, stamp: U32): U32
    requires Readable(m)
  {
    if TooSmall(m) then stamp
    else if live || m.kind != AGGREGATE then m.timestamp
    else LastStamp(m.body, Move(m), StampOf(m.body[4..]))
  }

  /** The buffer Read_1_Packet asks for, without the four spare bytes. */
  function BufferSize(m: Media): nat {
    |m.body| + if m.kind == AGGREGATE then 0 else TAG_HEADER + 4
  }

  function FlvHeader(audio: bool, video: bool): (s: seq<Byte>)
    ensures |s| == 13
  {
    ['F' as int, 'L' as int, 'V' as int, 1, (if audio then 4 else 0) + (if video then 1 else 0), 0, 0, 0, 9, 0, 0, 0, 0]
  }

  /** Annex E.2 of the FLV specification: signature, version 1, a bit for audio and one for video, the
      header's own length, and the size of no tag. */
  lemma FlvHeaderSays(audio: bool, video: bool)
    ensures var h := FlvHeader(audio, video);
            h[..3] == Text("FLV") && h[3] == 1 && (h[4] / 4 % 2 == 1 <==> audio) && (h[4] % 2 == 1 <==> video) &&
            h[4] <= 5 && h[4] / 2 % 2 == 0 && Dec32(h[5..]) == |h| - 4 && Dec32(h[9..]) == 0
  {
  }

  datatype Started = Started(bytes: seq<Byte>, audio: bool, video: bool, stamp: U32, rest: seq<Media>)

  /** The start-up phase: packets are taken until a timestamp is set or both kinds of media
      have been seen or announced; None if the packets end before. */
  function StartUp(ms: seq<Media>, acc: seq<Byte>, audio: bool, video: bool, stamp: U32, live: bool): Option<Started>
    requires AllReadable(ms)
  {
    if stamp != 0 then Some(Started(acc, audio, video, stamp, ms))
    else if ms == [] then None
    else
      var m := ms[0];
      var a, v, after := audio || Brings(m, AUDIO), video || Brings(m, VIDEO), StampAfter(m, live, stamp);
      if a && v then Some(Started(acc + PacketBytes(m), a, v, after, ms[1..]))
      else StartUp(ms[1..], acc + PacketBytes(m), a, v, after, live)
  }

  /** Every packet of the start-up phase fits into what its predecessors left of the buffer. */
  predicate StartFits(ms: seq<Media>, used: nat, audio: bool, video: bool, stamp: U32, live: bool)
    requires AllReadable(ms)
  {
    stamp == 0 && ms != [] ==>
      var m := ms[0];
      var a, v := audio || Brings(m, AUDIO), video || Brings(m, VIDEO);
      used + BufferSize(m) + 4 <= HEADERBUF &&
      ((a && v) || StartFits(ms[1..], used + |PacketBytes(m)|, a, v, StampAfter(m, live, stamp), live))
  }

  lemma PacketLength(m: Media)
    requires Readable(m)
    ensures |PacketBytes(m)| == if TooSmall(m) then 0 else BufferSize(m) + if m.kind == AGGREGATE &&
      Unfinished(m.body) then 4 else 0
    ensures |PacketBytes(m)| == 0 <==> TooSmall(m)
  {
    if m.kind == AGGREGATE {
      RetimedLength(m.body, Move(m));
    }
  }

  lemma StreamStep(ms: seq<Media>)
    requires AllReadable(ms)
    ensures StreamBytes(ms) == if ms == [] then [] else PacketBytes(ms[0]) + StreamBytes(ms[1..])
    ensures ms != [] && PacketBytes(ms[0]) == [] ==> StreamBytes(ms) == StreamBytes(ms[1..])
  {
    hide PacketBytes;
  }

  /** The start-up phase neither loses nor repeats a packet. */
  lemma {:induction false} StartKeepsOrder(ms: seq<Media>, acc: seq<Byte>, audio: bool, video: bool, stamp: U32,
      live: bool)
    requires AllReadable(ms)
    ensures var s := StartUp(ms, acc, audio, video, stamp, live);
            s.Some? ==> AllReadable(s.value.rest) && s.value.bytes + StreamBytes(s.value.rest) == acc + StreamBytes(ms)
  {
    if stamp == 0 && ms != [] {
      var m := ms[0];
      StartKeepsOrder(ms[1..], acc + PacketBytes(m), audio || Brings(m, AUDIO), video || Brings(m, VIDEO),
                      StampAfter(m, live, stamp), live);
      Assoc(acc, PacketBytes(m), StreamBytes(ms[1..]));
    }
  }

  lemma StartStep(ms: seq<Media>, acc: seq<Byte>, audio: bool, video: bool, stamp: U32, live: bool)
    requires AllReadable(ms)
    ensures stamp != 0 ==> StartUp(ms, acc, audio, video, stamp, live) == Some(Started(acc, audio, video, stamp, ms))
    ensures stamp == 0 && ms == [] ==> StartUp(ms, acc, audio, video, stamp, live).None?
    ensures stamp == 0 && ms != [] ==>
              var m, t := ms[0], acc + PacketBytes(ms[0]);
              var a, v, after := audio || Brings(m, AUDIO), video || Brings(m, VIDEO), StampAfter(m, live, stamp);
              StartUp(ms, acc, audio, video, stamp, live) ==
              if a && v then Some(Started(t, a, v, after, ms[1..])) else StartUp(ms[1..], t, a, v, after, live)
  {
  }

  lemma FitsStep(ms: seq<Media>, used: nat, audio: bool, video: bool, stamp: U32, live: bool)
    requires AllReadable(ms) && StartFits(ms, used, audio, video, stamp, live) && stamp == 0 && ms != []
    ensures var m := ms[0];
            var a, v := audio || Brings(m, AUDIO), video || Brings(m, VIDEO);
            used + BufferSize(m) + 4 <= HEADERBUF &&
            ((a && v) || StartFits(ms[1..], used + |PacketBytes(m)|, a, v, StampAfter(m, live, stamp), live))
  {
  }

  class Reader {
    var incoming: seq<Media>  // what RTMP_GetNextMediaPacket will deliver before it ends
    const live: bool
    var audio: bool  // the two bits of dataType
    var video: bool
    var timestamp: U32
    var header: bool
    var status: int
    var buf: array?<Byte>
    var bufpos: nat
    var buflen: nat
    ghost var given: seq<Byte>
    ghost const stream: seq<Byte>

    ghost function Leftover(): seq<Byte>
      reads `buf, `bufpos, `buflen, buf
      requires buf != null ==> bufpos + buflen <= buf.Length
    {
      if buf == null then [] else buf[bufpos..bufpos + buflen]
    }

    /** All bytes that are still to come. */
    ghost function Future(): seq<Byte>
      reads `incoming, `audio, `video, `timestamp, `header, `status, `buf, `bufpos, `buflen, buf
      requires AllReadable(incoming) && (buf != null ==> bufpos + buflen <= buf.Length)
    {
      if status != 0 then []
      else if header then Leftover() + StreamBytes(incoming)
      else
        match StartUp(incoming, [], audio, video, timestamp, live)
        case None => []
        case Some(s) => FlvHeader(s.audio, s.video) + StreamBytes(incoming)
    }

    ghost predicate Consistent()
      reads `incoming, `audio, `video, `timestamp, `header, `status, `buf, `bufpos, `buflen, buf
    {
      AllReadable(incoming) &&
      (buf != null ==> bufpos + buflen <= buf.Length && header) &&
      (status != 0 ==> buf == null) && (status == 0 || status == READ_EOF || status == READ_COMPLETE) &&
      (status == 0 && !header ==> StartFits(incoming, 13, audio, video, timestamp, live))
    }

    /** What has been handed out and what is to come is always the same stream. */
    ghost predicate Valid()
      reads this, buf
    {
      Consistent() && given + Future() == stream
    }

    /** `announced` is what metadata before the first read has announced. */
    constructor (incoming: seq<Media>, announced: set<Byte>, live: bool)
      requires AllReadable(incoming) && StartFits(incoming, 13, AUDIO in announced, VIDEO in announced, 0, live)
      ensures Valid() && given == [] && buf == null && status == 0
      ensures var s := StartUp(incoming, [], AUDIO in announced, VIDEO in announced, 0, live);
              stream == if s.None? then [] else FlvHeader(s.value.audio, s.value.video) + StreamBytes(incoming)
    {
      this.incoming, this.live := incoming, live;
      audio, video, timestamp, header, status := AUDIO in announced, VIDEO in announced, 0, false, 0;
      buf, bufpos, buflen := null, 0, 0;
      given := [];
      var s := StartUp(incoming, [], AUDIO in announced, VIDEO in announced, 0, live);
      stream := if s.None? then [] else FlvHeader(s.value.audio, s.value.video) + StreamBytes(incoming);
    }

    /** The body of Read_1_Packet for a packet it does not ignore: a tag, or a re-timed
        aggregate, from `at` on. */
    method PutPacket(m: Media, a: array<Byte>, at: nat) returns (size: nat)
      requires Readable(m) && !TooSmall(m) && at + BufferSize(m) + 4 <= a.Length
      modifies this`audio, this`video, this`timestamp, a
      ensures size == |PacketBytes(m)| && at + size <= a.Length && a[at..at + size] == PacketBytes(m)
      ensures timestamp == StampAfter(m, live, old(timestamp))
      ensures audio == (old(audio) || (m.kind == AGGREGATE && HasKind(m.body, AUDIO)))
      ensures video == (old(video) || (m.kind == AGGREGATE && HasKind(m.body, VIDEO)))
      ensures forall k :: 0 <= k < a.Length && !(at <= k < at + BufferSize(m) + 4) ==> a[k] == old(a[k])
    {
      hide Retimed, Unfinished, WholeTrailer, LastStamp, HasKind, StampOf, TagBytes;
      PacketLength(m);
      var stamp := m.timestamp;
      if m.kind == AGGREGATE {
        var before := StampOf(m.body[4..]);
        var delta := Wrap32(m.timestamp - before);
        var sawAudio, sawVideo;
        size, stamp, sawAudio, sawVideo := PutAggregate(m.body, delta, before, a, at);
        audio, video := audio || sawAudio, video || sawVideo;
      } else {
        PutTag(Tag(m.kind, m.timestamp, 0, m.body), a, at);
        size := BufferSize(m);
      }
      timestamp := if live then m.timestamp else stamp;
    }

    /** Read_1_Packet without resume or seek. A packet that may not fit goes into a buffer of
        its own; what does not fit is left there. */
    method ReadOne(dst: array<Byte>, at: nat, room: nat) returns (ret: int)
      requires AllReadable(incoming) && buf == null && at + room <= dst.Length
      modifies this, dst
      ensures AllReadable(incoming) && given == old(given) && status == old(status)
      ensures buf != null ==> fresh(buf) && bufpos + buflen <= buf.Length
      ensures old(incoming) == [] ==> (ret == READ_EOF || ret == READ_COMPLETE) && incoming == [] && buf == null
      ensures old(incoming) == [] ==> timestamp == old(timestamp)
      ensures old(incoming) != [] ==> var m := old(incoming)[0];
              incoming == old(incoming)[1..] && header == old(header) && ret == |PacketBytes(m)| &&
              audio == (old(audio) || Brings(m, AUDIO)) && video == (old(video) || Brings(m, VIDEO)) &&
              timestamp == StampAfter(m, live, old(timestamp)) &&
              dst[at..at + Min(ret, room)] + Leftover() == PacketBytes(m) && (ret == 0 ==> buf == null) &&
              (BufferSize(m) + 4 <= room ==> buf == null && ret <= room && dst[at..at + ret] == PacketBytes(m))
      ensures forall k :: 0 <= k < dst.Length && !(at <= k < at + room) ==> dst[k] == old(dst[k])
    {
      hide PacketBytes, StampAfter, HasKind, StartFits, BufferSize, StartUp, Brings, TooSmall;
      if incoming == [] {
        ret := *;
        if ret != READ_COMPLETE { ret := READ_EOF; }
        if * {  // RTMP_Close on the way
          audio, video, header := false, false, false;
        }
        return;
      }
      var m := incoming[0];
      incoming := incoming[1..];
      ret := TakeOne(m, dst, at, room);
    }

    lemma WhatBrings(m: Media)
      ensures Brings(m, AUDIO) ==
              (AUDIO in m.announced || m.kind == AUDIO || (m.kind == AGGREGATE && HasKind(m.body, AUDIO)))
      ensures Brings(m, VIDEO) ==
              (VIDEO in m.announced || m.kind == VIDEO || (m.kind == AGGREGATE && HasKind(m.body, VIDEO)))
      ensures TooSmall(m) ==> m.kind != AGGREGATE
    {
      hide HasKind;
    }

    /** A packet that has arrived: what was announced is noted, then its own kind. */
    method TakeOne(m: Media, dst: array<Byte>, at: nat, room: nat) returns (ret: nat)
      requires Readable(m) && buf == null && at + room <= dst.Length
      modifies this`audio, this`video, this`timestamp, this`buf, this`bufpos, this`buflen, dst
      ensures ret == |PacketBytes(m)| && timestamp == StampAfter(m, live, old(timestamp))
      ensures audio == (old(audio) || Brings(m, AUDIO)) && video == (old(video) || Brings(m, VIDEO))
      ensures buf != null ==> fresh(buf) && bufpos + buflen <= buf.Length
      ensures dst[at..at + Min(ret, room)] + Leftover() == PacketBytes(m) && (ret == 0 ==> buf == null)
      ensures BufferSize(m) + 4 <= room ==> buf == null && ret <= room && dst[at..at + ret] == PacketBytes(m)
      ensures forall k :: 0 <= k < dst.Length && !(at <= k < at + room) ==> dst[k] == old(dst[k])
    {
      hide PacketBytes, StampAfter, HasKind, BufferSize, StartUp, Brings, TooSmall;
      WhatBrings(m);
      audio := audio || AUDIO in m.announced || m.kind == AUDIO;
      video := video || VIDEO in m.announced || m.kind == VIDEO;
      PacketLength(m);
      if TooSmall(m) {
        Ignored(m, live, timestamp);
        ret := 0;
      } else if BufferSize(m) + 4 > room {
        ret := PutAside(m, dst, at, room);
      } else {
        ret := PutPacket(m, dst, at);
      }
    }

    /** The detour over m_read.buf. */
    method PutAside(m: Media, dst: array<Byte>, at: nat, room: nat) returns (ret: nat)
      requires Readable(m) && !TooSmall(m) && at + room <= dst.Length
      modifies this`audio, this`video, this`timestamp, this`buf, this`bufpos, this`buflen, dst
      ensures buf != null && fresh(buf) && bufpos + buflen <= buf.Length && ret == |PacketBytes(m)|
      ensures dst[at..at + Min(ret, room)] + buf[bufpos..bufpos + buflen] == PacketBytes(m)
      ensures timestamp == StampAfter(m, live, old(timestamp))
      ensures audio == (old(audio) || (m.kind == AGGREGATE && HasKind(m.body, AUDIO)))
      ensures video == (old(video) || (m.kind == AGGREGATE && HasKind(m.body, VIDEO)))
      ensures forall k :: 0 <= k < dst.Length && !(at <= k < at + room) ==> dst[k] == old(dst[k])
    {
      hide PacketBytes, StampAfter, HasKind, BufferSize, TooSmall;
      var slop := new Byte[BufferSize(m) + 4];
      ret := PutPacket(m, slop, 0);
      var len := Min(ret, room);
      Put(dst, at, slop[..len]);
      Split(slop[..], 0, len, ret);
      buf, bufpos, buflen := slop, len, ret - len;
    }

    /** One turn of the start-up phase: a packet's bytes go behind the ones collected. */
    method CollectOne(mybuf: array<Byte>, have: nat, ghost acc: seq<Byte>) returns (ret: int)
      requires AllReadable(incoming) && buf == null && mybuf.Length == HEADERBUF && 13 + have <= HEADERBUF
      requires mybuf[13..13 + have] == acc
      requires incoming != [] ==> 13 + have + BufferSize(incoming[0]) + 4 <= HEADERBUF
      modifies this, mybuf
      ensures AllReadable(incoming) && given == old(given) && status == old(status) && buf == null
      ensures mybuf[..13] == old(mybuf[..13])
      ensures old(incoming) == [] ==> (ret == READ_EOF || ret == READ_COMPLETE)
      ensures old(incoming) != [] ==> var m := old(incoming)[0];
              incoming == old(incoming)[1..] && header == old(header) && ret == |PacketBytes(m)| &&
              audio == (old(audio) || Brings(m, AUDIO)) && video == (old(video) || Brings(m, VIDEO)) &&
              timestamp == StampAfter(m, live, old(timestamp)) &&
              13 + have + ret <= HEADERBUF && mybuf[13..13 + have + ret] == acc + PacketBytes(m)
    {
      hide PacketBytes, StampAfter, BufferSize, Brings, StartUp, StartFits, Reader.Leftover;
      ret := ReadOne(mybuf, 13 + have, HEADERBUF - 13 - have);
      if ret >= 0 {
        assert mybuf[13..13 + have] == acc;
        Joined(mybuf[..], 13, 13 + have, 13 + have + ret, acc, mybuf[13 + have..13 + have + ret]);
      }
    }

    /** The loop of the start-up phase: the first tags, behind the room for the header. */
    method FirstPackets(mybuf: array<Byte>) returns (ok: bool, cnt: nat)
      requires AllReadable(incoming) && buf == null && status == 0 && !header && mybuf.Length == HEADERBUF
      requires StartFits(incoming, 13, audio, video, timestamp, live)
      modifies this, mybuf
      ensures AllReadable(incoming) && given == old(given) && buf == null
      ensures mybuf[..13] == old(mybuf[..13])
      ensures !ok ==> old(StartUp(incoming, [], audio, video, timestamp, live)).None?
      ensures !ok ==> status == READ_EOF || status == READ_COMPLETE
      ensures ok ==> status == 0 && !header && 13 + cnt <= HEADERBUF
      ensures ok ==> old(StartUp(incoming, [], audio, video, timestamp, live)) ==
                     Some(Started(mybuf[13..13 + cnt], audio, video, timestamp, incoming))
    {
      hide PacketBytes, StampAfter, BufferSize, Brings, StartUp, StartFits, AllReadable,
        Reader.Leftover;
      cnt := 0;
      ghost var acc := [];
      ghost var start := StartUp(incoming, [], audio, video, timestamp, live);
      while timestamp == 0
        invariant AllReadable(incoming) && buf == null && status == 0 && !header && given == old(given)
        invariant 13 + cnt <= HEADERBUF && mybuf[..13] == old(mybuf[..13])
        invariant mybuf[13..13 + cnt] == acc && StartUp(incoming, acc, audio, video, timestamp, live) == start
        invariant StartFits(incoming, 13 + cnt, audio, video, timestamp, live)
        decreases |incoming|
      {
        StartStep(incoming, acc, audio, video, timestamp, live);
        if incoming != [] { FitsStep(incoming, 13 + cnt, audio, video, timestamp, live); }
        var nRead := CollectOne(mybuf, cnt, acc);
        if nRead < 0 {
          status := nRead;
          return false, cnt;
        }
        cnt := cnt + nRead;
        acc := mybuf[13..13 + cnt];
        if audio && video {
          return true, cnt;
        }
      }
      StartStep(incoming, acc, audio, video, timestamp, live);
      ok := true;
    }

    /** The start-up phase of RTMP_Read: the FLV header and the first tags, collected in a
        buffer of HEADERBUF bytes. */
    method CollectHeader() returns (ok: bool)
      requires Consistent() && buf == null && status == 0 && !header
      modifies this
      ensures Consistent() && given == old(given) && Future() == old(Future())
      ensures ok ==> status == 0 && header
      ensures !ok ==> status == READ_EOF || status == READ_COMPLETE
      ensures buf != null ==> fresh(buf)
    {
      hide StartUp, StartFits, StreamBytes, FlvHeader, Reader.Future;
      FutureAtStart();
      var mybuf := new Byte[HEADERBUF];
      Put(mybuf, 0, FlvHeader(false, false));
      StartKeepsOrder(incoming, [], audio, video, timestamp, live);
      ghost var all := StreamBytes(incoming);
      assert [] + all == all;
      var cnt;
      ok, cnt := FirstPackets(mybuf);
      if ok {
        ghost var tags := mybuf[13..13 + cnt];
        Assoc(FlvHeader(audio, video), tags, StreamBytes(incoming));
        LeaveOver(mybuf, cnt);
      }
      NothingAfterTheEnd();
    }

    /** Completes the header with the kinds seen; it and the first tags become leftover bytes. */
    method LeaveOver(mybuf: array<Byte>, cnt: nat)
      requires AllReadable(incoming) && status == 0
      requires 13 + cnt <= mybuf.Length && mybuf[..13] == FlvHeader(false, false)
      modifies this`buf, this`bufpos, this`buflen, this`header, mybuf
      ensures Consistent() && header && buf == mybuf
      ensures Future() == FlvHeader(audio, video) + old(mybuf[13..13 + cnt]) + StreamBytes(incoming)
    {
      hide StartUp, StartFits, StreamBytes, FlvHeader, Reader.Future;
      HeaderDone(mybuf[..], cnt, audio, video);
      mybuf[4] := (if audio then 4 else 0) + (if video then 1 else 0);
      buf, bufpos, buflen, header := mybuf, 0, 13 + cnt, true;
      FutureIs();
    }

    lemma FutureAtStart()
      requires Consistent() && status == 0 && !header
      ensures var s := StartUp(incoming, [], audio, video, timestamp, live);
              Future() == if s.None? then [] else FlvHeader(s.value.audio, s.value.video) + StreamBytes(incoming)
    {
      hide StartUp, StreamBytes, FlvHeader;
    }

    /** Hands out what is left over from an earlier packet. */
    method TakeLeftover(dst: array<Byte>, size: nat) returns (n: nat)
      requires Consistent() && status == 0 && header && size <= dst.Length && dst != buf
      modifies this`buf, this`bufpos, this`buflen, dst
      ensures Consistent() && n <= size && (buf == null || (buf == old(buf) && n == size))
      ensures dst[..n] + Leftover() == old(Leftover())
      ensures forall k :: size <= k < dst.Length ==> dst[k] == old(dst[k])
    {
      hide StartFits, StartUp, StreamBytes, AllReadable, Reader.Future;
      n := 0;
      if buf != null {
        n := Min(buflen, size);
        HandOut(dst, n);
        if buflen == 0 {
          buf := null;
        }
      }
    }

    /** The memcpy out of m_read.buf, and its two fields. */
    method HandOut(dst: array<Byte>, n: nat)
      requires buf != null && bufpos + buflen <= buf.Length && n <= buflen && n <= dst.Length && dst != buf
      modifies this`bufpos, this`buflen, dst
      ensures bufpos == old(bufpos) + n && buflen == old(buflen) - n
      ensures dst[..n] + buf[bufpos..bufpos + buflen] == old(buf[bufpos..bufpos + buflen])
      ensures forall k :: n <= k < dst.Length ==> dst[k] == old(dst[k])
    {
      Split(buf[..], bufpos, bufpos + n, bufpos + buflen);
      Put(dst, 0, buf[bufpos..bufpos + n]);
      bufpos, buflen := bufpos + n, buflen - n;
    }

    /** Packets are read until one brings bytes, which go behind the bytes that are there. */
    method ReadMore(dst: array<Byte>, have: nat, size: nat) returns (n: nat)
      requires Consistent() && status == 0 && header && buf == null && have < size <= dst.Length
      modifies this, dst
      ensures Consistent() && (buf == null || fresh(buf)) && given == old(given)
      ensures have <= n <= size && dst[..have] == old(dst[..have]) && (n == have ==> status != 0)
      ensures dst[have..n] + Future() == old(Future())
      ensures forall k :: size <= k < dst.Length ==> dst[k] == old(dst[k])
    {
      hide PacketBytes, StampAfter, BufferSize, Brings, StartFits, StartUp, StreamBytes, Reader.Future,
        Reader.Leftover;
      n := have;
      FutureIs();
      ghost var was := dst[..];
      var nRead := NextBytes(dst, have, size - have);
      SamePrefix(was, dst[..], have);
      assert dst[..have] == was[..have];
      if nRead < 0 {
        status := nRead;
        NothingAfterTheEnd();
      } else {
        n := Min(have + nRead, size);
        FutureIs();
        Assoc(dst[have..n], Leftover(), StreamBytes(incoming));
      }
    }

    /** The next packet that is not ignored. */
    method NextBytes(dst: array<Byte>, at: nat, room: nat) returns (nRead: int)
      requires AllReadable(incoming) && buf == null && at + room <= dst.Length
      modifies this, dst
      ensures AllReadable(incoming) && given == old(given) && status == old(status)
      ensures buf != null ==> fresh(buf) && bufpos + buflen <= buf.Length
      ensures nRead != 0 && (nRead < 0 ==> nRead == READ_EOF || nRead == READ_COMPLETE)
      ensures nRead < 0 ==> buf == null && old(StreamBytes(incoming)) == []
      ensures nRead > 0 ==>
                header == old(header) &&
                old(StreamBytes(incoming)) == dst[at..at + Min(nRead, room)] + Leftover() + StreamBytes(incoming)
      ensures forall k :: 0 <= k < dst.Length && !(at <= k < at + room) ==> dst[k] == old(dst[k])
    {
      hide PacketBytes, StampAfter, BufferSize, Brings, StartFits, StartUp, StreamBytes, Reader.Leftover;
      nRead := 0;
      while nRead == 0
        invariant AllReadable(incoming) && given == old(given) && status == old(status) && header == old(header)
        invariant nRead == 0 && buf == null && StreamBytes(incoming) == old(StreamBytes(incoming))
        invariant forall k :: 0 <= k < dst.Length && !(at <= k < at + room) ==> dst[k] == old(dst[k])
        decreases |incoming|
      {
        StreamStep(incoming);
        nRead := ReadOne(dst, at, room);
        if nRead != 0 { break; }
      }
    }

    lemma FutureIs()
      requires Consistent() && status == 0 && header
      ensures Future() == Leftover() + StreamBytes(incoming)
      ensures buf == null ==> Future() == StreamBytes(incoming)
    {
    }

    lemma NothingAfterTheEnd()
      requires Consistent()
      ensures status != 0 ==> Future() == [] && given + Future() == given
    {
    }

    /** The first part of RTMP_Read: the status is looked at, and the first call collects the
        header. */
    method Prepare() returns (ready: bool)
      requires Consistent()
      modifies this
      ensures Consistent() && given == old(given) && Future() == old(Future())
      ensures if ready then status == 0 && header else status != 0
      ensures buf == null || buf == old(buf) || fresh(buf)
    {
      hide StartFits, StartUp, StreamBytes, Reader.Future;
      ready := false;
      if status == READ_EOF || status == READ_COMPLETE {
        return;
      }
      if status == READ_ERROR {  // only a failed resume
        assert false;
      }
      ready := true;
      if !header {
        ready := CollectHeader();
      }
    }

    /** The rest of RTMP_Read: leftover bytes first, then those of a packet. */
    method Fill(dst: array<Byte>, size: nat) returns (n: nat)
      requires Consistent() && status == 0 && header && size <= dst.Length && dst != buf
      modifies this, dst
      ensures Consistent() && (buf == null || buf == old(buf) || fresh(buf)) && given == old(given)
      ensures n <= size && dst[..n] + Future() == old(Future()) && (n < size && n == 0 ==> status != 0)
      ensures forall k :: size <= k < dst.Length ==> dst[k] == old(dst[k])
    {
      hide StartFits, StartUp, StreamBytes, PacketBytes, Reader.Future;
      FutureIs();
      n := TakeLeftover(dst, size);
      FutureIs();
      Assoc(dst[..n], Leftover(), StreamBytes(incoming));
      if n < size {
        ghost var have, front := n, dst[..n];
        n := ReadMore(dst, n, size);
        Joined(dst[..], 0, have, n, front, dst[have..n]);
        Assoc(front, dst[have..n], Future());
      }
    }

    /** RTMP_Read without resume or seek: the next bytes of the stream, no more than asked
        for; none only at the end. */
    method Read(dst: array<Byte>, size: nat) returns (n: int)
      requires Valid() && size <= dst.Length && dst != buf
      modifies this, dst
      ensures Valid() && (buf == null || buf == old(buf) || fresh(buf))
      ensures 0 <= n <= size && given == old(given) + dst[..n]
      ensures n == 0 < size ==> given == stream
      ensures forall k :: size <= k < dst.Length ==> dst[k] == old(dst[k])
    {
      hide StartFits, StartUp, StreamBytes, PacketBytes, Reader.Future;
      n := 0;
      var ready := Prepare();
      if ready {
        n := Fill(dst, size);
      } else {
        assert dst[..n] + Future() == Future();
      }
      NothingAfterTheEnd();
      Assoc(given, dst[..n], Future());
      given := given + dst[..n];
    }
  }

  /** Storing the kinds of media completes the header. */
  lemma HeaderDone(s: seq<Byte>, cnt: nat, audio: bool, video: bool)
    requires 13 + cnt <= |s| && s[..13] == FlvHeader(false, false)
    ensures var kinds := (if audio then 4 else 0) + (if video then 1 else 0);
            s[4 := kinds][0..0 + (13 + cnt)] == FlvHeader(audio, video) + s[13..13 + cnt]
  {
    var t := s[4 := (if audio then 4 else 0) + (if video then 1 else 0)];
    assert forall k :: 0 <= k < 13 ==> s[k] == s[..13][k];
    assert t[..13] == FlvHeader(audio, video);
    assert t[13..13 + cnt] == s[13..13 + cnt];
    Split(t, 0, 13, 13 + cnt);
  }

  lemma Ignored(m: Media, live: bool, stamp: U32)
    requires Readable(m) && TooSmall(m)
    ensures PacketBytes(m) == [] && StampAfter(m, live, stamp) == stamp
    ensures Brings(m, AUDIO) == (m.kind == AUDIO || AUDIO in m.announced)
    ensures Brings(m, VIDEO) == (m.kind == VIDEO || VIDEO in m.announced)
  {
  }
}
