/** The client's session: the senders of invokes, HandleInvoke with its table of waiting calls,
    and the receive loop that drives them. */
module Session {
  import opened Bytes
  import opened Numbers
  import opened ChunkFormat
  import opened ChunkReceive
  import opened CallTable
  import opened Net
  import opened Engine
  import opened Amf0
  import opened AmfBuffer
  import opened AmfRoundTrip
  import opened AmfGrammar
  import opened InvokeArgs
  import opened Invokes
  import opened SessionLog
  import opened SessionWire
  import FlvMetadata

  /** Name and transaction id in front of an invoke body. */
  function CallHeader(name: seq<Byte>, number: Number): seq<Byte> {
    StringBytes(name) + ([NUMBER] + number)
  }

  predicate ShortName(name: seq<Byte>) { 0 < |name| <= 40 }

  /** The name and id that were encoded are those RTMP_SendPacket reads back. */
  lemma CallReadBack(name: seq<Byte>, number: Number, rest: seq<Byte>)
    requires ShortName(name)
    ensures var body := CallHeader(name, number) + rest;
            HasCall(body) && Dec16(body[1..3]) == |name| && CallOf(body) == Call(name, IntOfNumber(number))
  {
    hide Be16, Dec16, IntOfNumber;
    InvokeParts([STRING], Be16(|name|), name, [NUMBER], number, rest);
    assert Be16(|name|) == Be16(|name|) + [];
    Dec16Be16(|name|, []);
  }

  lemma InvokeParts(tag: seq<Byte>, length: seq<Byte>, name: seq<Byte>, kind: seq<Byte>, number: seq<Byte>,
      rest: seq<Byte>)
    requires |tag| == 1 == |kind| && |length| == 2
    ensures var body := tag + length + name + (kind + number) + rest;
            var n := |name|;
            body[1..3] == length && body[3..3 + n] == name && body[4 + n..4 + n + |number|] == number
  {
    var body, tail := tag + length + name + (kind + number) + rest, kind + number + rest;
    assert body == tag + length + (name + tail);
    Middle(tag, length, name + tail);
    assert body == (tag + length) + name + tail;
    Middle(tag + length, name, tail);
    assert body == (tag + length + name + kind) + number + rest;
    Middle(tag + length + name + kind, number, rest);
  }

  /** How a _result was taken: the call it answers, the number it brings, whether a secure token
      was answered, and whether everything that follows was sent. */
  datatype Answer = Answer(call: Option<Call>, number: int, token: bool, sent: bool)

  class Client {
    const rtmp: Rtmp
    const link: Link
    var pausing: int
    var serverBW: U32
    var mediaStamp: U32
    ghost var log: seq<Event>

    ghost predicate Valid()
      reads this, rtmp, rtmp.socket, rtmp.calls, rtmp.calls.vals
    {
      rtmp.Valid() && rtmp.outChunkSize == DEFAULT_CHUNK &&
      Consistent(log, rtmp.calls.Contents(), rtmp.numInvokes) && Delivered(Now()) && Named(log, link.playpath)
    }

    /** RTMP_Init. */
    constructor (socket: Socket, http: bool, link: Link)
      ensures Valid() && fresh(rtmp) && fresh(rtmp.buf) && fresh(rtmp.calls) && fresh(rtmp.calls.vals)
      ensures log == [] && rtmp.socket == socket && this.link == link && rtmp.numInvokes == 0
    {
      rtmp := new Rtmp(socket, http);
      this.link := link;
      pausing, serverBW, mediaStamp := 0, 2500000, 0;
      log := [];
    }

    ghost function Now(): Moment
      reads this, rtmp, rtmp.socket
    {
      Moment(log, rtmp.out, rtmp.socket.outgoing)
    }

    /** What every operation of a session keeps: the invariant, the history so far, and the
        bytes that are still to be read. */
    twostate predicate GoesOn()
      reads this, rtmp, rtmp.socket, rtmp.calls, rtmp.calls.vals
    {
      Valid() && old(log) <= log && (rtmp.calls.vals == old(rtmp.calls.vals) || fresh(rtmp.calls.vals)) &&
      (rtmp.socket.open ==> old(rtmp.socket.open) && unchanged(rtmp`sbStart, rtmp`sbSize))
    }

    /** What sending and the handling of invokes keep besides: the state of the chunk reader and
        the acknowledgement bound. */
    twostate predicate Goes()
      reads this, rtmp, rtmp.socket, rtmp.calls, rtmp.calls.vals
    {
      GoesOn() && (rtmp.socket.open ==> unchanged(rtmp`recv, rtmp`sendCounter)) &&
      (old(rtmp.AckBound()) ==> rtmp.AckBound())
    }

    /** Sends a packet that is not an invoke. */
    method SendPlain(p: OutPacket) returns (ok: bool)
      requires Valid() && p.Valid() && p.mem != rtmp.buf && p.packetType != INVOKE
      requires p.channel == CONTROL_CHANNEL && p.timestamp == 0 == p.streamId
      modifies this`log, rtmp, rtmp.calls, rtmp.calls.vals, rtmp.socket`open, rtmp.socket`outgoing,
               rtmp.socket`interrupts, p`headerType, p.mem
      ensures Goes() && rtmp.numInvokes <= old(rtmp.numInvokes)
      ensures ok ==> rtmp.streamId == old(rtmp.streamId)
      ensures ok ==> SendsAll(old(Now()), Now(), [Notice(old(p.headerType), p.packetType, old(p.Value().body))])
    {
      hide Emission, Consistent, Delivered, Named, RecvState.Valid, CallReadable, SendsAll;
      ghost var w, q, before := rtmp.calls.Contents(), p.Value(), Now();
      ok := Transmit(p, false, rtmp.numInvokes);
      if ok {
        assert rtmp.calls.Contents() == w;
        AfterNotice(log, w, rtmp.numInvokes, q);
        DeliveredNext(before, Noticed(q));
        NamedNext(log, Noticed(q), link.playpath);
        log := log + [Noticed(q)];
        SendsOne(before, Noticed(q), Notice(q.headerType, q.packetType, q.body));
      }
    }

    /** RTMP_SendPacket, whose failure the history takes note of. */
    method Transmit(p: OutPacket, queue: bool, ghost n: nat) returns (ok: bool)
      requires rtmp.Valid() && rtmp.outChunkSize == DEFAULT_CHUNK && p.Valid() && p.mem != rtmp.buf
      requires Consistent(log, rtmp.calls.Contents(), n) && n <= rtmp.numInvokes
      requires Delivered(Now()) && Named(log, link.playpath)
      requires queue && p.packetType == INVOKE ==> CallLeft(p.Value(), DEFAULT_CHUNK)
      modifies this`log, rtmp, rtmp.calls, rtmp.calls.vals, rtmp.socket`open, rtmp.socket`outgoing,
               rtmp.socket`interrupts, p`headerType, p.mem
      ensures rtmp.Valid() && (rtmp.calls.vals == old(rtmp.calls.vals) || fresh(rtmp.calls.vals))
      ensures ok ==> rtmp.OnlySends() && rtmp.socket.open && log == old(log) && old(p.headerType) <= 3
      ensures ok ==> Now() == Transmitted(old(Now()), old(p.Value()))
      ensures ok ==> rtmp.calls.Contents() == old(rtmp.calls.Contents() + QueuedCall(p.Value(), queue, DEFAULT_CHUNK))
      ensures !ok ==> Goes() && rtmp.numInvokes <= old(rtmp.numInvokes)
      ensures !ok ==> rtmp.streamId == old(rtmp.streamId) || !rtmp.socket.open
    {
      hide Emission, Consistent, Delivered, Named, RecvState.Valid, CallLeft, QueuedCall;
      ghost var w, before := rtmp.calls.Contents(), Now();
      ok := rtmp.SendPacket(p, queue);
      if !ok {
        MoreInvokes(log, w, n, old(rtmp.numInvokes));
        NoteClosed(before);
      }
    }

    /** After a failed send: if it has closed the connection, the history says so. */
    ghost method NoteClosed(before: Moment)
      requires rtmp.Valid() && rtmp.outChunkSize == DEFAULT_CHUNK
      requires Delivered(before) && before.log == log && before.sent <= rtmp.socket.outgoing
      requires Named(log, link.playpath)
      requires rtmp.Closed() || before.out == rtmp.out
      requires exists w, n ::
                 Consistent(log, w, n) && (rtmp.Closed() || (w == rtmp.calls.Contents() && n == rtmp.numInvokes))
      modifies this`log
      ensures Valid() && old(log) <= log
    {
      hide Consistent, Delivered, Named;
      var w, n :| Consistent(log, w, n) && (rtmp.Closed() || (w == rtmp.calls.Contents() && n == rtmp.numInvokes));
      if rtmp.Closed() {
        AfterClosed(log, w, n);
        DeliveredClosed(before, rtmp.socket.outgoing);
        NamedNext(log, Closed, link.playpath);
        log := log + [Closed];
      } else {
        DeliveredStill(before, rtmp.out, rtmp.socket.outgoing);
      }
    }

    /** The common part of the invoke senders: encodes name, transaction id and arguments behind the
        header room of a local buffer, and sends the packet if all of it fitted. */
    method SendInvoke(name: seq<Byte>, id: Txn, args: seq<Arg>, room: nat, headerType: nat, channel: nat,
                      timestamp: U32, streamId: int, queue: bool) returns (ok: bool)
      requires Valid() && ShortName(name) && headerType <= 3 && 2 <= channel < 64 && 256 <= room <= 4096
      requires (rtmp.socket.open ==> MaySend(log, name, streamId)) && (id.Next? ==> rtmp.numInvokes < MAX_INT)
      requires queue && id.Fixed? ==> id.number == NumberOfInt(0)
      requires IsStartName(name) ==> HasPath(SpecsOf(id, args), link.playpath)
      modifies this`log, rtmp, rtmp.calls, rtmp.calls.vals,
               rtmp.socket`open, rtmp.socket`outgoing, rtmp.socket`interrupts
      ensures Goes() && rtmp.numInvokes <= old(rtmp.numInvokes) + if id.Next? then 1 else 0
      ensures ok ==> SendsAll(old(Now()), Now(),
                              [Out(name, streamId, queue, Head(headerType, channel, timestamp), SpecsOf(id, args))])
      ensures ok ==> rtmp.socket.open && rtmp.streamId == old(rtmp.streamId)
      ensures !ok ==> rtmp.streamId == old(rtmp.streamId) || !rtmp.socket.open
    {
      hide Emission, Consistent, Delivered, Named, RecvState.Valid, NumberOfInt, IntOfNumber, StringBytes,
        CallHeader, MaySend,
        ShortName, SendsAll, Tells, HasPath, SpecsOf;
      ghost var n := rtmp.numInvokes;
      var number: Number;
      match id {
        case Next =>
          rtmp.numInvokes := rtmp.numInvokes + 1;
          number := NumberOfInt(rtmp.numInvokes);
        case Fixed(x) =>
          number := x;
      }
      QueuedId(id, number, n, rtmp.numInvokes);
      SpecsHold(id, number, args);
      var p := NewInvoke(name, number, args, room, headerType, channel, timestamp, streamId, SpecsOf(id, args));
      if p == null {
        MoreInvokes(log, rtmp.calls.Contents(), n, rtmp.numInvokes);
        return false;
      }
      ok := SendCall(p, Call(name, IntOfNumber(number)), streamId, queue, n,
                     Head(headerType, channel, timestamp), SpecsOf(id, args));
    }

    /** The packet of an invoke, or null when an argument does not fit. */
    method NewInvoke(name: seq<Byte>, number: Number, args: seq<Arg>, room: nat, headerType: nat, channel: nat,
        timestamp: U32, streamId: int, ghost specs: seq<ArgSpec>) returns (p: OutPacket?)
      requires ShortName(name) && 2 <= channel < 64 && 256 <= room <= 4096
      requires |specs| == 1 + |args| && Is(Scalar(Num(number)), specs[0]) && specs[1..] == Knowns(args)
      requires IsStartName(name) ==> HasPath(specs, link.playpath)
      ensures p != null ==> fresh(p) && p.mem != null && fresh(p.mem) && p.Valid() && p.packetType == INVOKE
      ensures p != null ==> Tells(p.Value(), Call(name, IntOfNumber(number)), streamId,
                                  Head(headerType, channel, timestamp), specs, link.playpath)
    {
      hide IntOfNumber, CallHeader, CallReadable, ShortName, Says, ArgsBytes, HasPath;
      var mem, size := EncodeInvoke(name, number, args, room);
      if size.None? {
        return null;
      }
      p := new OutPacket(headerType, INVOKE, channel, timestamp, Wrap32(streamId), size.value, mem);
      InvokeSays(p.Value().body, name, number, args, specs);
      InvokeIsReadable(p.Value(), name, number);
    }

    /** Sends an encoded invoke and writes it into the history. */
    method SendCall(p: OutPacket, ghost c: Call, ghost streamId: int, queue: bool, ghost n: nat, ghost head: Head,
                    ghost specs: seq<ArgSpec>) returns (ok: bool)
      requires rtmp.Valid() && rtmp.outChunkSize == DEFAULT_CHUNK && Consistent(log, rtmp.calls.Contents(), n)
      requires Delivered(Now()) && Named(log, link.playpath)
      requires p.Valid() && p.mem != rtmp.buf && p.packetType == INVOKE && n <= rtmp.numInvokes
      requires Tells(p.Value(), c, streamId, head, specs, link.playpath)
      requires (rtmp.socket.open ==> MaySend(log, c.name, streamId))
      requires queue ==> c.txn == 0 || n < c.txn <= rtmp.numInvokes
      modifies this`log, rtmp, rtmp.calls, rtmp.calls.vals, rtmp.socket`open, rtmp.socket`outgoing,
               rtmp.socket`interrupts, p`headerType, p.mem
      ensures Goes() && rtmp.numInvokes <= old(rtmp.numInvokes)
      ensures ok ==> SendsAll(old(Now()), Now(), [Out(c.name, streamId, queue, head, specs)])
      ensures ok ==> rtmp.socket.open && rtmp.streamId == old(rtmp.streamId)
      ensures !ok ==> rtmp.streamId == old(rtmp.streamId) || !rtmp.socket.open
    {
      hide Emission, Consistent, Delivered, Named, RecvState.Valid, CallReadable, CallLeft, CallOf, HasCall,
        QueuedCall, MaySend, SendsAll, Tells;
      ghost var w, q, before := rtmp.calls.Contents(), p.Value(), Now();
      TellsQueued(w, q, c, streamId, queue, head, specs, link.playpath);
      ok := Transmit(p, queue, n);
      if ok {
        AfterCall(before, w, n, c, streamId, queue, q, rtmp.numInvokes, head, specs, link.playpath);
        log := log + [Sent(c, streamId, queue, q)];
      }
    }

    // ---- The senders ----

    /** SendConnectPacket. The command object and the extra arguments come from the link options. */
    method SendConnect(commandObject: seq<Byte>, auth: seq<Byte>, extras: seq<Byte>) returns (ok: bool)
      requires Valid() && rtmp.numInvokes < MAX_INT
      modifies this`log, rtmp, rtmp.calls, rtmp.calls.vals,
               rtmp.socket`open, rtmp.socket`outgoing, rtmp.socket`interrupts
      ensures Goes()
      ensures ok ==> SendsAll(old(Now()), Now(), [ConnectOut(link.auth, commandObject, auth, extras)]) &&
                     rtmp.socket.open
    {
      hide Consistent, Delivered, Named, RecvState.Valid, SendsAll;
      OrdinaryName(CONNECT);
      var credentials := if auth == [] then [] else [Scalar(Bool(link.auth)), Scalar(Str(auth))];
      ok := SendInvoke(CONNECT, Next, [Raw(commandObject)] + credentials + [Raw(extras)], 4096, LARGE, 3, 0, 0, true);
    }

    method SendCreateStream() returns (ok: bool)
      requires Valid() && rtmp.numInvokes < MAX_INT && MaySend(log, CREATE_STREAM, 0)
      modifies this`log, rtmp, rtmp.calls, rtmp.calls.vals,
               rtmp.socket`open, rtmp.socket`outgoing, rtmp.socket`interrupts
      ensures Goes() && rtmp.numInvokes <= old(rtmp.numInvokes) + 1
      ensures ok ==> SendsAll(old(Now()), Now(), [CreateOut()])
    {
      hide Consistent, Delivered, Named, RecvState.Valid, MaySend, SendsAll;
      ok := SendInvoke(CREATE_STREAM, Next, [Scalar(Null)], 256, MEDIUM, 3, 0, 0, true);
    }

    /** SendReleaseStream, SendFCPublish and SendFCSubscribe: one path argument. */
    method SendPath(name: seq<Byte>, path: Path, room: nat, queue: bool) returns (ok: bool)
      requires Valid() && rtmp.numInvokes < MAX_INT && ShortName(name) && Ordinary(name) && 256 <= room <= 4096
      modifies this`log, rtmp, rtmp.calls, rtmp.calls.vals,
               rtmp.socket`open, rtmp.socket`outgoing, rtmp.socket`interrupts
      ensures Goes() && rtmp.numInvokes <= old(rtmp.numInvokes) + 1
      ensures ok ==> SendsAll(old(Now()), Now(), [PathOut(name, path, queue)])
    {
      hide Consistent, Delivered, Named, RecvState.Valid, SendsAll;
      ok := SendInvoke(name, Next, [Scalar(Null), Scalar(Str(path))], room, MEDIUM, 3, 0, 0, queue);
    }

    method SendPublish() returns (ok: bool)
      requires Valid() && rtmp.numInvokes < MAX_INT && (rtmp.socket.open ==> MaySend(log, PUBLISH, rtmp.streamId))
      modifies this`log, rtmp, rtmp.calls, rtmp.calls.vals,
               rtmp.socket`open, rtmp.socket`outgoing, rtmp.socket`interrupts
      ensures Goes() && rtmp.numInvokes <= old(rtmp.numInvokes) + 1
      ensures ok ==> SendsAll(old(Now()), Now(), [PublishOut(link, old(rtmp.streamId))])
      ensures ok ==> rtmp.streamId == old(rtmp.streamId)
    {
      hide Consistent, Delivered, Named, RecvState.Valid, MaySend, SendsAll;
      ok := SendInvoke(PUBLISH, Next, [Scalar(Null), Scalar(Str(link.playpath)), Scalar(Str(Text("live")))],
                       1024, LARGE, 4, 0, rtmp.streamId, true);
    }

    method SendPlay() returns (ok: bool)
      requires Valid() && rtmp.numInvokes < MAX_INT && (rtmp.socket.open ==> MaySend(log, PLAY, rtmp.streamId))
      modifies this`log, rtmp, rtmp.calls, rtmp.calls.vals,
               rtmp.socket`open, rtmp.socket`outgoing, rtmp.socket`interrupts
      ensures Goes() && rtmp.numInvokes <= old(rtmp.numInvokes) + 1
      ensures ok ==> SendsAll(old(Now()), Now(), [PlayOut(link, old(rtmp.streamId))])
      ensures ok ==> rtmp.streamId == old(rtmp.streamId)
    {
      hide Consistent, Delivered, Named, RecvState.Valid, MaySend, SendsAll, NumberOfInt;
      ghost var before, id := Now(), rtmp.streamId;
      var start := NumberOfInt(0);
      if link.live {
        start := LIVE_START;
      } else if link.seekTime > 0 {
        start := NumberOfInt(link.seekTime);
      }
      var last := LengthArg();
      var args := [Scalar(Null), Scalar(Str(link.playpath)), Scalar(Num(start))];
      PlayHasPath(link, last);
      ok := SendInvoke(PLAY, Next, args + last, 1024, LARGE, 8, 0, rtmp.streamId, true);
      if ok {
        LengthOnly(before, Now(), link, id, last);
      }
    }

    /** The time from start to stop, if there is a stop time. */
    method LengthArg() returns (last: seq<Arg>)
      ensures AllAre(last, LengthSpec(link))
    {
      hide NumberOfInt;
      last := [];
      if link.stopTime != 0 {
        var length := DoubleOf(link.stopTime - link.seekTime);
        last := [Scalar(Num(length))];
      }
    }

    /** SendPlaylist: transaction id 0, but queued all the same. */
    method SendPlaylist() returns (ok: bool)
      requires Valid()
      modifies this`log, rtmp, rtmp.calls, rtmp.calls.vals,
               rtmp.socket`open, rtmp.socket`outgoing, rtmp.socket`interrupts
      ensures Goes() && rtmp.numInvokes <= old(rtmp.numInvokes) + 1
      ensures rtmp.streamId == old(rtmp.streamId) || !rtmp.socket.open
      ensures ok ==> SendsAll(old(Now()), Now(), [PlaylistOut(link, old(rtmp.streamId))])
    {
      hide Consistent, Delivered, Named, RecvState.Valid, NumberOfInt, SendsAll;
      OrdinaryName(SET_PLAYLIST);
      ok := SendInvoke(SET_PLAYLIST, Fixed(NumberOfInt(0)), PlaylistArgs(link), 1024, LARGE, 8, 0, rtmp.streamId, true);
    }

    /** SendPong, SendCheckBWResult and SendSecureTokenResponse: no id of their own, never queued. */
    method SendReply(name: seq<Byte>, number: Number, args: seq<Arg>, timestamp: U32) returns (ok: bool)
      requires Valid() && ShortName(name) && Ordinary(name)
      modifies this`log, rtmp, rtmp.calls, rtmp.calls.vals,
               rtmp.socket`open, rtmp.socket`outgoing, rtmp.socket`interrupts
      ensures Goes() && rtmp.numInvokes <= old(rtmp.numInvokes)
      ensures ok ==> SendsAll(old(Now()), Now(),
                              [Out(name, 0, false, Head(MEDIUM, 3, timestamp), Knowns([Scalar(Num(number))] + args))])
    {
      hide Consistent, Delivered, Named, RecvState.Valid, SendsAll;
      ok := SendInvoke(name, Fixed(number), args, 1024, MEDIUM, 3, timestamp, 0, false);
    }

    // ---- HandleInvoke ----

    /** AMFProp_GetString of property i: a string, or whatever lies there for another type or one
        past the last property. */
    method StringAt(props: seq<Prop>, i: nat) returns (s: seq<Byte>)
      ensures i < |props| && props[i].value.Str? ==> s == props[i].value.s
    {
      s := *;
      if i < |props| && props[i].value.Str? {
        s := props[i].value.s;
      } else if i > |props| {
        s := [];
      }
    }

    /** (int) AMFProp_GetNumber of property i. */
    method NumberAt(props: seq<Prop>, i: nat) returns (n: int)
      ensures i < |props| && props[i].value.Num? ==> n == IntOfNumber(props[i].value.bits)
    {
      n := *;
      if i < |props| && props[i].value.Num? {
        n := IntOfNumber(props[i].value.bits);
      } else if i > |props| {
        n := 0;
      }
    }

    /** The status code of an onStatus invoke. */
    method StatusCode(props: seq<Prop>) returns (code: seq<Byte>)
      ensures CodeOf(props).Some? ==> code == CodeOf(props).value
    {
      code := *;
      if 3 < |props| && props[3].value.Obj? {
        var inner := props[3].value.props;
        var i := 0;
        code := [];
        while i < |inner|
          invariant i <= |inner| && forall k :: 0 <= k < i ==> inner[k].name != Text("code")
        {
          if inner[i].name == Text("code") {
            code := StringAt(inner, i);
            FirstCode(inner, 0, i);
            return;
          }
          i := i + 1;
        }
        NoCode(inner, 0);
      }
    }

    /** A waiting call of this name, if there is one, is gone, and nothing else. */
    twostate predicate Drops(new name: seq<Byte>)
      reads this, rtmp, rtmp.calls, rtmp.calls.vals
      requires old(rtmp.calls.Valid())
    {
      if exists c :: c in old(rtmp.calls.Contents()) && c.name == name
      then exists c :: c in old(rtmp.calls.Contents()) && c.name == name && log == old(log) + [Erased(c)]
      else log == old(log)
    }

    /** Drops the first waiting call of a name. */
    method EraseByName(name: seq<Byte>)
      requires Valid()
      modifies this`log, rtmp.calls, rtmp.calls.vals
      ensures Goes() && rtmp.numInvokes == old(rtmp.numInvokes)
      ensures Drops(name)
    {
      hide Consistent, Delivered, Named, RecvState.Valid;
      var i := rtmp.calls.FindName(name);
      if i < rtmp.calls.num {
        ghost var e := Erased(rtmp.calls.Contents()[i]);
        AfterTaken(Now(), rtmp.calls.Contents(), rtmp.numInvokes, i, e, link.playpath);
        log := log + [e];
        rtmp.calls.Erase(i);
      }
    }

    method CloseSession()
      requires Valid()
      modifies this`log, rtmp, rtmp.calls, rtmp.socket`open
      ensures Goes() && rtmp.numInvokes == 0
      ensures rtmp.Closed() && log == old(log) + [Closed]
    {
      hide Consistent, Delivered, Named, RecvState.Valid;
      AfterClosed(log, rtmp.calls.Contents(), rtmp.numInvokes);
      DeliveredClosed(Now(), rtmp.socket.outgoing);
      NamedNext(log, Closed, link.playpath);
      log := log + [Closed];
      rtmp.Close();
    }

    /** Takes the call a _result answers out of the table. */
    method TakeCall(txn: int, props: seq<Prop>) returns (found: bool, c: Call, number: int)
      requires Valid()
      modifies this`log, rtmp.calls, rtmp.calls.vals
      ensures Goes() && rtmp.numInvokes == old(rtmp.numInvokes)
      ensures found <==> exists d :: d in old(rtmp.calls.Contents()) && d.txn == txn
      ensures found ==> c.txn == txn && log == old(log) + [Matched(c, number)] && c in old(rtmp.calls.Contents())
      ensures 3 < |props| && props[3].value.Num? ==> number == IntOfNumber(props[3].value.bits)
      ensures !found ==> log == old(log)
    {
      hide Consistent, Delivered, Named, RecvState.Valid;
      number := NumberAt(props, 3);
      var i := rtmp.calls.FindTxn(txn);
      found, c := i < rtmp.calls.num, Call([], 0);
      if found {
        c := rtmp.calls.vals[i];
        AfterTaken(Now(), rtmp.calls.Contents(), rtmp.numInvokes, i, Matched(c, number), link.playpath);
        log := log + [Matched(c, number)];
        rtmp.calls.Erase(i);
      }
    }

    /** RTMP_SendServerBW and RTMP_SendCtrl: control packets on channel 2. */
    method SendControl(packetType: Byte, headerType: nat, payload: seq<Byte>) returns (ok: bool)
      requires Valid() && packetType != INVOKE && headerType <= 3 && |payload| <= 100
      modifies this`log, rtmp, rtmp.calls, rtmp.calls.vals,
               rtmp.socket`open, rtmp.socket`outgoing, rtmp.socket`interrupts
      ensures Goes() && rtmp.numInvokes <= old(rtmp.numInvokes)
      ensures ok ==> SendsAll(old(Now()), Now(), [Notice(headerType, packetType, payload)])
      ensures ok ==> rtmp.streamId == old(rtmp.streamId)
    {
      hide Consistent, Delivered, Named, RecvState.Valid, SendsAll;
      var p := ControlPacket(headerType, packetType, payload);
      ok := SendPlain(p);
    }

    /** The answer to a secureToken: its deciphered value goes back. */
    method AnswerToken() returns (ghost answered: bool, ghost ok: bool)
      requires Valid()
      modifies this`log, rtmp, rtmp.calls, rtmp.calls.vals,
               rtmp.socket`open, rtmp.socket`outgoing, rtmp.socket`interrupts
      ensures Goes() && rtmp.numInvokes <= old(rtmp.numInvokes)
      ensures ok ==> SendsAll(old(Now()), Now(), TokenOuts(answered))
      ensures answered ==> link.token
    {
      hide Consistent, Delivered, Named, RecvState.Valid, Ordinary, NumberOfInt, SendsAll;
      ConnectNames();
      answered, ok := false, true;
      SendsNothing(Now());
      if link.token {
        if * {
          var response: seq<Byte> := *;
          ghost var before := Now();
          var args := [Scalar(Null), Scalar(Str(response))];
          var replied := SendReply(Text("secureTokenResponse"), NumberOfInt(0), args, 0);
          answered, ok := true, replied;
          if replied {
            Weaker(before, Now(), ReplyOut(Text("secureTokenResponse"), NumberOfInt(0), args, 0),
                   TokenOuts(true)[0].args);
          }
        }
      }
    }

    /** The announcement of a stream to be published, or the window and buffer time of a player. */
    method Announce() returns (ghost ok: bool)
      requires Valid() && rtmp.numInvokes + 3 <= MAX_INT
      modifies this`log, rtmp, rtmp.calls, rtmp.calls.vals,
               rtmp.socket`open, rtmp.socket`outgoing, rtmp.socket`interrupts
      ensures Goes() && rtmp.numInvokes <= old(rtmp.numInvokes) + if link.write then 2 else 0
      ensures ok ==> SendsAll(old(Now()), Now(), AnnounceOuts(link, serverBW))
    {
      hide Consistent, Delivered, Named, RecvState.Valid, Ordinary, SendsAll, Text, Be16, Be32;
      ConnectNames();
      ghost var start := Now();
      var first, second;
      if link.write {
        first := SendPath(Text("releaseStream"), link.playpath, 1024, false);
        ghost var middle := Now();
        second := SendPath(Text("FCPublish"), link.playpath, 1024, false);
        if first && second {
          SendsBoth(start, middle, Now(), PathOut(Text("releaseStream"), link.playpath, false),
                    PathOut(Text("FCPublish"), link.playpath, false));
        }
      } else {
        first := SendControl(0x05, LARGE, Be32(serverBW));
        ghost var middle := Now();
        second := SendControl(0x04, MEDIUM, Be16(3) + Be32(0) + Be32(300));
        if first && second {
          SendsBoth(start, middle, Now(), Notice(LARGE, 0x05, Be32(serverBW)), Control(BufferTime(0, 300)));
        }
      }
      ok := first && second;
    }

    /** createStream, and for a player the subscription. */
    method CreateAndSubscribe() returns (ghost ok: bool)
      requires Valid() && rtmp.numInvokes + (if link.write then 1 else 2) <= MAX_INT
      requires MaySend(log, CREATE_STREAM, 0)
      modifies this`log, rtmp, rtmp.calls, rtmp.calls.vals,
               rtmp.socket`open, rtmp.socket`outgoing, rtmp.socket`interrupts
      ensures Goes() && rtmp.numInvokes <= old(rtmp.numInvokes) + if link.write then 1 else 2
      ensures ok ==> SendsAll(old(Now()), Now(), CreateOuts(link))
    {
      hide Consistent, Delivered, Named, RecvState.Valid, MaySend, Ordinary, SendsAll, Text;
      ghost var at := Now();
      var created := SendCreateStream();
      ok := created;
      ghost var middle := Now();
      if !link.write && (link.subscribepath != [] || link.live) {
        ConnectNames();
        var path := if link.subscribepath != [] then link.subscribepath else link.playpath;
        var subscribed := SendPath(Text("FCSubscribe"), path, 512, true);
        if ok && subscribed {
          SendsBoth(at, middle, Now(), CreateOut(), PathOut(Text("FCSubscribe"), path, true));
        }
        ok := ok && subscribed;
      } else {
        assert CreateOuts(link) == [CreateOut()];
      }
    }

    /** The answer to connect: the stream is announced and created. */
    method OnConnected() returns (ghost answered: bool, ghost ok: bool)
      requires Valid() && rtmp.numInvokes + 3 <= MAX_INT && MaySend(log, CREATE_STREAM, 0)
      modifies this`log, rtmp, rtmp.calls, rtmp.calls.vals,
               rtmp.socket`open, rtmp.socket`outgoing, rtmp.socket`interrupts
      ensures Goes() && rtmp.numInvokes <= old(rtmp.numInvokes) + 3
      ensures ok ==> SendsAll(old(Now()), Now(), TokenOuts(answered) + ConnectOuts(link, serverBW))
      ensures answered ==> link.token
    {
      hide Consistent, Delivered, Named, RecvState.Valid, MaySend, Ordinary, SendsAll, AnnounceOuts, CreateOuts,
        TokenOuts;
      ghost var t0 := Now();
      ghost var replied;
      answered, replied := AnswerToken();
      ghost var t1 := Now();
      ghost var announced := Announce();
      ghost var t2 := Now();
      MaySendLater(t0.log, log, CREATE_STREAM, 0);
      ghost var created := CreateAndSubscribe();
      ok := replied && announced && created;
      if ok {
        SendsMore(t1, t2, Now(), AnnounceOuts(link, serverBW), CreateOuts(link));
        SendsMore(t0, t1, Now(), TokenOuts(answered), ConnectOuts(link, serverBW));
      }
    }

    /** The answer to createStream: the stream id is taken and the stream is started. */
    method OnStreamCreated(id: int) returns (ghost ok: bool)
      requires Valid() && rtmp.numInvokes + 3 <= MAX_INT && MaySend(log, PUBLISH, id) && MaySend(log, PLAY, id)
      modifies this`log, rtmp, rtmp.calls, rtmp.calls.vals,
               rtmp.socket`open, rtmp.socket`outgoing, rtmp.socket`interrupts
      ensures Goes() && rtmp.numInvokes <= old(rtmp.numInvokes) + 3
      ensures ok ==> rtmp.streamId == id && SendsAll(old(Now()), Now(), StreamOuts(link, id))
    {
      hide Consistent, Delivered, Named, RecvState.Valid, MaySend, SendsAll;
      ghost var t0 := Now();
      rtmp.streamId := id;
      if link.write {
        var published := SendPublish();
        ok := published;
      } else {
        ok := true;
        SendsNothing(t0);
        if link.playlist {
          var listed := SendPlaylist();
          ok := listed && rtmp.streamId == id;
          MaySendLater(t0.log, log, PLAY, id);
        }
        ghost var t1 := Now();
        ghost var started := StartPlaying(id);
        if ok && started {
          SendsMore(t0, t1, Now(), if link.playlist then [PlaylistOut(link, id)] else [], PlayOuts(link, id));
        }
        ok := ok && started;
      }
    }

    /** play, and the buffer time of its stream. */
    method StartPlaying(ghost id: int) returns (ghost ok: bool)
      requires Valid() && rtmp.numInvokes < MAX_INT
      requires rtmp.socket.open ==> MaySend(log, PLAY, rtmp.streamId) && rtmp.streamId == id
      modifies this`log, rtmp, rtmp.calls, rtmp.calls.vals,
               rtmp.socket`open, rtmp.socket`outgoing, rtmp.socket`interrupts
      ensures Goes() && rtmp.numInvokes <= old(rtmp.numInvokes) + 1
      ensures ok ==> rtmp.streamId == id && SendsAll(old(Now()), Now(), PlayOuts(link, id))
    {
      hide Consistent, Delivered, Named, RecvState.Valid, MaySend, SendsAll, Be16, Be32;
      ghost var t0, right := Now(), rtmp.streamId == id;
      var started := SendPlay();
      ghost var t1 := Now();
      var payload := Be16(3) + Be32(rtmp.streamId) + Be32(BUFFER_MS);
      var sized := SendControl(0x04, MEDIUM, payload);
      ok := right && started && sized;
      if ok {
        SendsBoth(t0, t1, Now(), PlayOut(link, id), Control(payload));
      }
    }

    /** What a _result with this id has done: nothing without a waiting call; otherwise the call is
        matched and, unless a send failed, its continuation follows. */
    twostate predicate Answered(txn: int, new props: seq<Prop>, new how: Answer)
      reads this, rtmp, rtmp.socket, rtmp.calls, rtmp.calls.vals
      requires old(rtmp.calls.Valid())
    {
      if how.call.None? then
        (forall c :: c in old(rtmp.calls.Contents()) ==> c.txn != txn) && log == old(log) && unchanged(rtmp)
      else
        how.call.value in old(rtmp.calls.Contents()) && how.call.value.txn == txn &&
        (3 < |props| && props[3].value.Num? ==> how.number == IntOfNumber(props[3].value.bits)) &&
        Continues(how.call.value, how.number, how.token, how.sent)
    }

    /** The call is matched; connect, createStream, play and publish go on. */
    twostate predicate Continues(c: Call, number: int, token: bool, sent: bool)
      reads this, rtmp, rtmp.socket
    {
      var matched := old(Now()).(log := old(log) + [Matched(c, number)]);
      matched.log <= log && (token ==> link.token) &&
      (c.name == CONNECT && sent ==> SendsAll(matched, Now(), TokenOuts(token) + ConnectOuts(link, serverBW))) &&
      (c.name == CREATE_STREAM && sent ==>
        rtmp.streamId == number && SendsAll(matched, Now(), StreamOuts(link, number))) &&
      (c.name == PLAY || c.name == PUBLISH ==> rtmp.playing && matched == Now())
    }

    /** What follows the match of a call. */
    method Resume(c: Call, number: int) returns (ghost token: bool, ghost sent: bool)
      requires Valid() && rtmp.numInvokes + 3 <= MAX_INT && log != [] && log[|log| - 1] == Matched(c, number)
      modifies this`log, rtmp, rtmp.calls, rtmp.calls.vals,
               rtmp.socket`open, rtmp.socket`outgoing, rtmp.socket`interrupts
      ensures Goes() && rtmp.numInvokes <= old(rtmp.numInvokes) + 3 && (token ==> link.token)
      ensures c.name == CONNECT && sent ==>
                SendsAll(old(Now()), Now(), TokenOuts(token) + ConnectOuts(link, serverBW))
      ensures c.name == CREATE_STREAM && sent ==>
                rtmp.streamId == number && SendsAll(old(Now()), Now(), StreamOuts(link, number))
      ensures c.name == PLAY || c.name == PUBLISH ==> rtmp.playing && Now() == old(Now())
    {
      hide Consistent, Delivered, Named, RecvState.Valid, SendsAll, ConnectOuts, StreamOuts, MaySend;
      ghost var last := |log| - 1;
      DifferentNames();
      token, sent := false, true;
      if c.name == CONNECT {
        assert WasMatched(log, last, CONNECT);
        MayCreate(log);
        token, sent := OnConnected();
      } else if c.name == CREATE_STREAM {
        assert GaveStream(log, last, number);
        MayStart(log, number);
        sent := OnStreamCreated(number);
      } else if c.name == PLAY || c.name == PUBLISH {
        rtmp.playing := true;
      }
    }

    /** A _result: only a waiting call with its transaction id gives it an effect. */
    method OnResult(txn: int, props: seq<Prop>) returns (ghost how: Answer)
      requires Valid() && rtmp.numInvokes + 3 <= MAX_INT
      modifies this`log, rtmp, rtmp.calls, rtmp.calls.vals,
               rtmp.socket`open, rtmp.socket`outgoing, rtmp.socket`interrupts
      ensures Goes() && rtmp.numInvokes <= old(rtmp.numInvokes) + 3
      ensures Answered(txn, props, how)
    {
      hide Consistent, Delivered, Named, RecvState.Valid, SendsAll, ConnectOuts, StreamOuts, MaySend, IntOfNumber;
      how := Answer(None, 0, false, true);
      var found, c, number := TakeCall(txn, props);
      if found {
        ghost var token, sent := Resume(c, number);
        how := Answer(Some(c), number, token, sent);
      }
    }

    /** What an onStatus invoke with this code has done. */
    twostate predicate StatusTaken(new code: seq<Byte>, ret: int, sent: bool)
      reads this, rtmp, rtmp.socket, rtmp.calls, rtmp.calls.vals
      requires old(rtmp.calls.Valid()) && rtmp.calls.Valid()
    {
      ret == (if StreamEnded(code) then 1 else 0) &&
      (StreamFailed(code) || StreamEnded(code) ==> rtmp.Closed() && log == old(log) + [Closed]) &&
      (code == PLAY_START ==> rtmp.playing && Drops(PLAY)) &&
      (code == PUBLISH_START ==> rtmp.playing && Drops(PUBLISH)) &&
      (Resumes(code, old(pausing)) ==>
        pausing == 3 && (sent ==> SendsAll(old(Now()), Now(), [PauseOut(false)]))) &&
      (!Resumes(code, old(pausing)) ==> pausing == old(pausing)) &&
      (NoEffect(code, old(pausing)) ==> log == old(log) && unchanged(rtmp))
    }

    /** An onStatus invoke; gives 1 when the stream is over. */
    method OnStatus(props: seq<Prop>) returns (ret: int, ghost sent: bool)
      requires Valid() && rtmp.numInvokes < MAX_INT
      modifies this`log, this`pausing, rtmp, rtmp.calls, rtmp.calls.vals,
               rtmp.socket`open, rtmp.socket`outgoing, rtmp.socket`interrupts
      ensures Goes() && rtmp.numInvokes <= old(rtmp.numInvokes) + 1
      ensures CodeOf(props).Some? ==> StatusTaken(CodeOf(props).value, ret, sent)
    {
      hide Consistent, Delivered, Named, RecvState.Valid, Ordinary, Text, SendsAll, CodeOf, StreamFailed, StreamEnded,
        Rtmp.Closed;
      var code := StatusCode(props);
      ret, sent := TakeStatus(code);
    }

    method TakeStatus(code: seq<Byte>) returns (ret: int, ghost sent: bool)
      requires Valid() && rtmp.numInvokes < MAX_INT
      modifies this`log, this`pausing, rtmp, rtmp.calls, rtmp.calls.vals,
               rtmp.socket`open, rtmp.socket`outgoing, rtmp.socket`interrupts
      ensures Goes() && rtmp.numInvokes <= old(rtmp.numInvokes) + 1
      ensures StatusTaken(code, ret, sent)
    {
      hide Consistent, Delivered, Named, RecvState.Valid, Ordinary, StreamFailed, StreamEnded, Text, SendsAll,
        Rtmp.Closed;
      DifferentCodes(code);
      ret, sent := 0, true;
      if StreamFailed(code) {
        FailStream();
      } else if code == PLAY_START {
        Started(PLAY);
      } else if code == PUBLISH_START {
        Started(PUBLISH);
      } else if StreamEnded(code) {
        CloseSession();
        ret := 1;
      } else if code == PAUSE_NOTIFY && (pausing == 1 || pausing == 2) {
        var ok := SendPause(false);
        pausing, sent := 3, ok;
      }
    }

    method Started(name: seq<Byte>)
      requires Valid()
      modifies this`log, rtmp`playing, rtmp.calls, rtmp.calls.vals
      ensures Goes() && rtmp.numInvokes == old(rtmp.numInvokes) && rtmp.playing && Drops(name)
    {
      hide Consistent, Delivered, Named, RecvState.Valid;
      rtmp.playing := true;
      EraseByName(name);
    }

    method FailStream()
      requires Valid()
      modifies this`log, rtmp, rtmp.calls, rtmp.socket`open
      ensures Goes() && rtmp.numInvokes == 0
      ensures rtmp.Closed() && log == old(log) + [Closed]
    {
      hide Consistent, Delivered, Named, RecvState.Valid, Rtmp.Closed;
      rtmp.streamId := -1;
      CloseSession();
    }

    /** RTMP_SendPause; the time is the double of an int. */
    method SendPause(doPause: bool) returns (ok: bool)
      requires Valid() && rtmp.numInvokes < MAX_INT
      modifies this`log, rtmp, rtmp.calls, rtmp.calls.vals,
               rtmp.socket`open, rtmp.socket`outgoing, rtmp.socket`interrupts
      ensures Goes() && rtmp.numInvokes <= old(rtmp.numInvokes) + 1
      ensures ok ==> SendsAll(old(Now()), Now(), [PauseOut(doPause)])
    {
      hide Consistent, Delivered, Named, RecvState.Valid, Ordinary, SendsAll;
      OrdinaryName(PAUSE);
      ghost var before := Now();
      var ms: int := *;
      var time := DoubleOf(ms);
      var args := [Scalar(Null), Scalar(Bool(doPause)), Scalar(Num(time))];
      ok := SendInvoke(PAUSE, Next, args, 256, MEDIUM, 8, 0, 0, true);
      if ok {
        Weaker(before, Now(), Out(PAUSE, 0, true, Head(MEDIUM, 8, 0), Numbered(args)), PauseOut(doPause).args);
      }
    }

    /** HandleInvoke. A body with types this model leaves out decodes to anything. */
    method HandleInvoke(body: seq<Byte>) returns (ret: int, ghost how: Answer, ghost sent: bool, ghost id: int)
      requires Valid() && rtmp.numInvokes + 3 <= MAX_INT && body != []
      modifies this`log, this`pausing, rtmp, rtmp.calls, rtmp.calls.vals,
               rtmp.socket`open, rtmp.socket`outgoing, rtmp.socket`interrupts
      ensures Goes() && rtmp.numInvokes <= old(rtmp.numInvokes) + 3
      ensures InvokeTaken(Invoke(body), ret, how, sent, id)
    {
      hide Consistent, Delivered, Named, RecvState.Valid, Invoke, NameOf, IdOf, IntOfNumber, CodeOf, SendsAll,
        ConnectOuts,
        StreamOuts, StreamFailed, StreamEnded, Text, Rtmp.Closed, Handled, NoEffect, Resumes, TokenOuts,
        Rtmp.AckBound, RESULT, ON_STATUS;
      ret, how, sent := 0, Answer(None, 0, false, true), true;
      var parsed, props, name, txn := ParseInvoke(body);
      id := txn;
      if parsed {
        ret, how, sent := TakeInvoke(name, txn, props);
      }
    }

    /** What an invoke that is read like this has done, its id being `id` if it has one: nothing when it
        does not decode, anything when this model leaves its types out. */
    twostate predicate InvokeTaken(new r: Result<seq<Prop>>, ret: int, new how: Answer, sent: bool, id: int)
      reads this, rtmp, rtmp.socket, rtmp.calls, rtmp.calls.vals
      requires old(rtmp.calls.Valid()) && rtmp.calls.Valid()
    {
      match r
      case Fail => ret == 0 && log == old(log) && unchanged(rtmp)
      case Outside => true
      case Ok(props, _) =>
        (IdOf(props).Some? ==> id == IdOf(props).value) &&
        match NameOf(props)
        case None => true
        case Some(name) =>
          if name == RESULT then IdOf(props).Some? ==> ret == 0 && Answered(id, props, how)
          else if name == ON_STATUS then CodeOf(props).Some? ==> StatusTaken(CodeOf(props).value, ret, sent)
          else OtherTaken(name, id, ret, sent)
    }

    /** The properties of an invoke, its name and its transaction id. */
    method ParseInvoke(body: seq<Byte>) returns (parsed: bool, props: seq<Prop>, name: seq<Byte>, txn: int)
      requires body != []
      ensures Invoke(body).Fail? ==> !parsed
      ensures Invoke(body).Ok? ==> parsed && props == Invoke(body).value
      ensures NameOf(props).Some? ==> name == NameOf(props).value
      ensures IdOf(props).Some? ==> txn == IdOf(props).value
    {
      hide DecodeProps, IntOfNumber;
      parsed, props, name, txn := false, [], [], 0;
      if body[0] != STRING {
        return;
      }
      var decoded := DecodeObject(body, false);
      if decoded.Fail? {
        return;
      }
      parsed := true;
      props := *;
      if decoded.Ok? {
        props := decoded.value;
      }
      name := StringAt(props, 0);
      txn := NumberAt(props, 1);
    }

    method TakeInvoke(name: seq<Byte>, txn: int, props: seq<Prop>) returns (ret: int, ghost how: Answer,
        ghost sent: bool)
      requires Valid() && rtmp.numInvokes + 3 <= MAX_INT
      modifies this`log, this`pausing, rtmp, rtmp.calls, rtmp.calls.vals,
               rtmp.socket`open, rtmp.socket`outgoing, rtmp.socket`interrupts
      ensures Goes() && rtmp.numInvokes <= old(rtmp.numInvokes) + 3
      ensures name == RESULT ==> ret == 0 && Answered(txn, props, how)
      ensures name == ON_STATUS && CodeOf(props).Some? ==> StatusTaken(CodeOf(props).value, ret, sent)
      ensures name != RESULT && name != ON_STATUS ==> OtherTaken(name, txn, ret, sent)
    {
      hide Consistent, Delivered, Named, RecvState.Valid, CodeOf, SendsAll, ConnectOuts, StreamOuts, StreamFailed,
        StreamEnded, Text, Rtmp.Closed;
      ret, how, sent := 0, Answer(None, 0, false, true), true;
      ResultIsNoStatus();
      if name == RESULT {
        how := OnResult(txn, props);
      } else if name == ON_STATUS {
        ret, sent := OnStatus(props);
      } else {
        ret, sent := OnOther(name, txn);
      }
    }

    /** What any other invoke of a server has done. */
    twostate predicate OtherTaken(new name: seq<Byte>, txn: int, ret: int, sent: bool)
      reads this, rtmp, rtmp.socket, rtmp.calls, rtmp.calls.vals
      requires old(rtmp.calls.Valid()) && rtmp.calls.Valid()
    {
      ret == (if name == Text("onFCUnsubscribe") then 1 else 0) &&
      (name == Text("onFCUnsubscribe") || name == Text("close") ==> rtmp.Closed() && log == old(log) + [Closed]) &&
      (name == Text("onBWDone") && sent ==>
        SendsAll(old(Now()), Now(), if old(rtmp.bwCheckCounter) == 0 then [CheckOut()] else [])) &&
      (name == Text("ping") && sent ==> SendsAll(old(Now()), Now(), [PongOut(txn, old(rtmp.bwCheckCounter))])) &&
      (name == Text("_onbwcheck") && sent ==>
        SendsAll(old(Now()), Now(), [CheckResultOut(txn, old(rtmp.bwCheckCounter))])) &&
      (name == Text("_onbwdone") ==> Drops(CHECK_BW)) &&
      (name == Text("playlist_ready") ==> Drops(SET_PLAYLIST)) &&
      (!Handled(name) ==> log == old(log) && unchanged(rtmp))
    }

    /** The remaining invokes of a server. */
    method OnOther(name: seq<Byte>, txn: int) returns (ret: int, ghost sent: bool)
      requires Valid() && rtmp.numInvokes < MAX_INT
      modifies this`log, rtmp, rtmp.calls, rtmp.calls.vals,
               rtmp.socket`open, rtmp.socket`outgoing, rtmp.socket`interrupts
      ensures Goes() && rtmp.numInvokes <= old(rtmp.numInvokes) + 1
      ensures OtherTaken(name, txn, ret, sent)
    {
      hide Consistent, Delivered, Named, RecvState.Valid, NumberOfInt, Ordinary, SendsAll, Text, Rtmp.Closed;
      OtherNames();
      ret, sent := 0, true;
      SendsNothing(Now());
      ReplyNames();
      if name == Text("onBWDone") {
        if rtmp.bwCheckCounter == 0 {
          var ok := SendInvoke(CHECK_BW, Next, [Scalar(Null)], 256, LARGE, 3, 0, 0, false);
          sent := ok;
        }
      } else if name == Text("onFCUnsubscribe") {
        CloseSession();
        ret := 1;
      } else if name == Text("ping") {
        var ok := SendPong(txn);
        sent := ok;
      } else if name == Text("_onbwcheck") {
        var ok := SendCheckBWResult(txn);
        sent := ok;
      } else if name == Text("_onbwdone") {
        EraseByName(CHECK_BW);
      } else if name == Text("close") {
        CloseSession();
      } else if name == Text("playlist_ready") {
        EraseByName(SET_PLAYLIST);
      }
    }

    /** The double of an int. That of a negative one is left open. */
    method DoubleOf(n: int) returns (x: Number)
      ensures Is(Scalar(Num(x)), IntSpec(n)) && !LooksLikeEnd(Num(x))
    {
      hide NumberOfInt;
      x := *;
      var known := if 0 <= n <= MAX_INT then n else 0;
      IntIsNoEnd(known);
      if known == n || LooksLikeEnd(Num(x)) {
        x := NumberOfInt(known);
      }
    }

    method SendPong(txn: int) returns (ok: bool)
      requires Valid()
      modifies this`log, rtmp, rtmp.calls, rtmp.calls.vals,
               rtmp.socket`open, rtmp.socket`outgoing, rtmp.socket`interrupts
      ensures Goes() && rtmp.numInvokes <= old(rtmp.numInvokes)
      ensures ok ==> SendsAll(old(Now()), Now(), [PongOut(txn, old(rtmp.bwCheckCounter))])
    {
      hide Consistent, Delivered, Named, RecvState.Valid, Ordinary, SendsAll, LooksLikeEnd, Text, NumberOfInt;
      ReplyNames();
      ghost var before, counter := Now(), rtmp.bwCheckCounter;
      var echo := DoubleOf(txn);
      ok := SendReply(Text("pong"), echo, [Scalar(Null)], Wrap32(0x16 * rtmp.bwCheckCounter));
      if ok {
        Weaker(before, Now(), ReplyOut(Text("pong"), echo, [Scalar(Null)], Wrap32(0x16 * counter)),
               PongOut(txn, counter).args);
      }
    }

    /** SendCheckBWResult: the reply carries the counter before it is increased. */
    method SendCheckBWResult(txn: int) returns (ok: bool)
      requires Valid()
      modifies this`log, rtmp, rtmp.calls, rtmp.calls.vals,
               rtmp.socket`open, rtmp.socket`outgoing, rtmp.socket`interrupts
      ensures Goes() && rtmp.numInvokes <= old(rtmp.numInvokes)
      ensures ok ==> SendsAll(old(Now()), Now(), [CheckResultOut(txn, old(rtmp.bwCheckCounter))])
    {
      hide Consistent, Delivered, Named, RecvState.Valid, Ordinary, SendsAll, LooksLikeEnd, Text, NumberOfInt;
      ReplyNames();
      ghost var before, was := Now(), rtmp.bwCheckCounter;
      var echo := DoubleOf(txn);
      var counter := DoubleOf(rtmp.bwCheckCounter);
      var stamp := Wrap32(0x16 * rtmp.bwCheckCounter);
      rtmp.bwCheckCounter := rtmp.bwCheckCounter + 1;
      var args := [Scalar(Null), Scalar(Num(counter))];
      ok := SendReply(RESULT, echo, args, stamp);
      if ok {
        Weaker(before, Now(), ReplyOut(RESULT, echo, args, stamp), CheckResultOut(txn, was).args);
      }
    }

    // ---- RTMP_Connect ----

    /** WriteN, with the session's invariant. */
    method Hand(bytes: seq<Byte>) returns (ok: bool)
      requires Valid()
      modifies this`log, rtmp, rtmp.calls, rtmp.socket`open, rtmp.socket`outgoing, rtmp.socket`interrupts
      ensures Goes() && rtmp.numInvokes <= old(rtmp.numInvokes)
      ensures ok ==> log == old(log) && rtmp.socket.outgoing == old(rtmp.socket.outgoing) + bytes
      ensures ok && bytes != [] ==> rtmp.socket.open
      ensures ok ==> rtmp.sendCounter == old(rtmp.sendCounter)
    {
      hide Consistent, Delivered, Named, RecvState.Valid;
      ghost var before := Now();
      ok := rtmp.WriteN(bytes);
      if ok {
        DeliveredStill(before, rtmp.out, rtmp.socket.outgoing);
      } else {
        NoteClosed(before);
      }
    }

    /** ReadN, with the session's invariant. */
    method Receive(n: nat) returns (got: seq<Byte>)
      requires Valid() && (rtmp.socket.open || rtmp.Ended())
      modifies this`log, rtmp, rtmp.calls, rtmp.calls.vals, rtmp.socket, rtmp.buf
      ensures Valid() && (rtmp.socket.open || rtmp.Ended())
      ensures (rtmp.calls.vals == old(rtmp.calls.vals) || fresh(rtmp.calls.vals))
      ensures old(log) <= log && rtmp.numInvokes <= old(rtmp.numInvokes)
      ensures rtmp.socket.open ==> old(rtmp.socket.open) && log == old(log) && rtmp.sendCounter == old(rtmp.sendCounter)
      ensures (|got| == n || got == []) && got <= old(rtmp.Pending())
      ensures rtmp.socket.open && |got| == n ==> old(rtmp.Pending()) == got + rtmp.Pending()
      ensures old(rtmp.socket.outgoing) <= rtmp.socket.outgoing
      ensures got != [] ==> rtmp.AckBound()
    {
      hide Consistent, Delivered, Named, RecvState.Valid;
      ghost var before, w, k := Now(), rtmp.calls.Contents(), rtmp.numInvokes;
      got := rtmp.ReadN(n);
      if old(rtmp.socket.open) && !rtmp.socket.open {
        AfterClosed(log, w, k);
        DeliveredClosed(before, rtmp.socket.outgoing);
        NamedNext(log, Closed, link.playpath);
        log := log + [Closed];
      } else {
        DeliveredStill(before, rtmp.out, rtmp.socket.outgoing);
      }
    }

    /** HandShake of a build without encryption: both sides send 1536 bytes and have theirs
        returned; what comes back is compared and never refused. */
    method ShakeHands(clientSig: seq<Byte>) returns (ok: bool)
      requires Valid() && |clientSig| == 1536
      modifies this`log, rtmp, rtmp.calls, rtmp.calls.vals, rtmp.socket, rtmp.buf
      ensures Valid() && (rtmp.calls.vals == old(rtmp.calls.vals) || fresh(rtmp.calls.vals))
      ensures old(log) <= log && rtmp.numInvokes <= old(rtmp.numInvokes)
      ensures ok ==> rtmp.AckBound()
      ensures ok && rtmp.socket.open ==> log == old(log) && rtmp.sendCounter == old(rtmp.sendCounter)
      ensures ok && rtmp.socket.open ==>
                Shaken(clientSig, old(rtmp.socket.outgoing), old(rtmp.Pending()), rtmp.socket.outgoing)
    {
      hide Consistent, Delivered, Named, RecvState.Valid, Shaken, Rtmp.Pending;
      ghost var before, stream := rtmp.socket.outgoing, rtmp.Pending();
      ok := Introduce(clientSig);
      if !ok { return; }
      ghost var sent := rtmp.socket.outgoing;
      var serverSig := HearServer();
      if |serverSig| != 1536 { return false; }
      ghost var sofar := rtmp.socket.outgoing;
      ok := Hand(serverSig);
      if !ok { return; }
      ghost var echoed := rtmp.socket.outgoing;
      var returned := Receive(1536);
      ok := |returned| == 1536;
      if ok && rtmp.socket.open {
        HandsAreShaken(clientSig, before, stream, sent, serverSig, sofar, echoed, rtmp.socket.outgoing);
      }
    }

    /** The server's 1536 bytes behind its version, which is not looked at. */
    method HearServer() returns (serverSig: seq<Byte>)
      requires Valid() && (rtmp.socket.open || rtmp.Ended())
      modifies this`log, rtmp, rtmp.calls, rtmp.calls.vals, rtmp.socket, rtmp.buf
      ensures Valid() && (rtmp.socket.open || rtmp.Ended())
      ensures (rtmp.calls.vals == old(rtmp.calls.vals) || fresh(rtmp.calls.vals))
      ensures old(log) <= log && rtmp.numInvokes <= old(rtmp.numInvokes)
      ensures rtmp.socket.open ==> old(rtmp.socket.open) && log == old(log) && rtmp.sendCounter == old(rtmp.sendCounter)
      ensures rtmp.socket.open && |serverSig| == 1536 ==>
                |old(rtmp.Pending())| >= 1537 && serverSig == old(rtmp.Pending())[1..1537]
      ensures old(rtmp.socket.outgoing) <= rtmp.socket.outgoing
    {
      hide Consistent, Delivered, Named, RecvState.Valid, Rtmp.Pending;
      ghost var stream := rtmp.Pending();
      serverSig := [];
      var answer := Receive(1);
      if |answer| != 1 { return; }
      serverSig := Receive(1536);
      if rtmp.socket.open && |serverSig| == 1536 {
        assert stream == answer + (serverSig + rtmp.Pending());
      }
    }

    /** The version and the client's 1536 bytes. */
    method Introduce(clientSig: seq<Byte>) returns (ok: bool)
      requires Valid()
      modifies this`log, rtmp, rtmp.calls, rtmp.socket`open, rtmp.socket`outgoing, rtmp.socket`interrupts
      ensures Goes() && rtmp.numInvokes <= old(rtmp.numInvokes)
      ensures ok ==> log == old(log) && rtmp.socket.outgoing == old(rtmp.socket.outgoing) + ([3] + clientSig)
      ensures ok ==> rtmp.socket.open && rtmp.sendCounter == old(rtmp.sendCounter)
      ensures ok ==> rtmp.Pending() == old(rtmp.Pending())
    {
      hide Consistent, Delivered, Named, RecvState.Valid;
      ok := Hand([3] + clientSig);
    }

    /** RTMP_Connect once the socket is open: received bytes are counted from now on, hands are
        shaken, connect is sent; a failure closes the connection. */
    method Connect(clientSig: seq<Byte>, commandObject: seq<Byte>, auth: seq<Byte>,
        extras: seq<Byte>) returns (ok: bool)
      requires Valid() && |clientSig| == 1536 && rtmp.numInvokes < MAX_INT
      modifies this`log, rtmp, rtmp.calls, rtmp.calls.vals, rtmp.socket, rtmp.buf
      ensures Valid() && (rtmp.calls.vals == old(rtmp.calls.vals) || fresh(rtmp.calls.vals))
      ensures old(log) <= log
      ensures ok ==> rtmp.socket.open && rtmp.sendCounter && rtmp.AckBound()
      ensures ok ==> |log| == |old(log)| + 1 &&
                     IsSent(log[|old(log)|], ConnectOut(link.auth, commandObject, auth, extras))
      ensures ok ==> Shaken(clientSig, old(rtmp.socket.outgoing), old(rtmp.Pending()), rtmp.socket.outgoing)
      ensures !ok ==> rtmp.Closed()
    {
      hide Consistent, Delivered, Named, RecvState.Valid, IsSent, SendsAll, Shaken, ConnectOut;
      rtmp.sendCounter := true;
      ok := ShakeHands(clientSig);
      if ok {
        ghost var shaken := Now();
        ok := SendConnect(commandObject, auth, extras);
        if ok {
          SentLast(shaken, Now(), ConnectOut(link.auth, commandObject, auth, extras));
          ShakenStill(clientSig, old(rtmp.socket.outgoing), old(rtmp.Pending()), shaken.sent, rtmp.socket.outgoing);
        }
      }
      if !ok {
        CloseSession();
      }
    }

    // ---- The receive loop ----

    /** HandleCtrl: a ping is answered; the state of a pause moves on. */
    method HandleCtrl(body: seq<Byte>) returns (ghost sent: bool)
      requires Valid() && rtmp.numInvokes < MAX_INT
      modifies this`log, this`pausing, rtmp, rtmp.calls, rtmp.calls.vals,
               rtmp.socket`open, rtmp.socket`outgoing, rtmp.socket`interrupts
      ensures Goes() && rtmp.numInvokes <= old(rtmp.numInvokes) + 1
      ensures pausing == NextPausing(old(pausing), body, link.bufferHack)
      ensures sent ==> SendsAll(old(Now()), Now(), CtrlOuts(old(pausing), body, link.bufferHack))
    {
      hide Consistent, Delivered, Named, RecvState.Valid, SendsAll, Be16, Be32, Dec16, Dec32;
      sent := true;
      SendsNothing(Now());
      if |body| < 6 {
        return;
      }
      var nType := Dec16(body);
      if nType == 1 {
        if pausing == 1 { pausing := 2; }
      } else if nType == 6 {
        var pong := SendControl(0x04, MEDIUM, Be16(7) + Be32(Dec32(body[2..])));
        sent := pong;
      } else if nType == 31 && link.bufferHack {
        if pausing == 0 {
          var ok := SendPause(true);
          pausing, sent := 1, ok;
        } else if pausing == 2 {
          var ok := SendPause(false);
          pausing, sent := 3, ok;
        }
      }
    }

    /** HandleChangeChunkSize, HandleServerBW and HandleClientBW; what they read beyond a short body,
        and a chunk size or window beyond the positive ints, can be anything. */
    method SetSizes(packetType: Byte, body: seq<Byte>)
      requires Valid()
      modifies rtmp`recv, rtmp`clientBW, this`serverBW
      ensures GoesOn() && rtmp.numInvokes == old(rtmp.numInvokes) && log == old(log)
      ensures packetType == 0x01 && |body| >= 4 && Dec32(body) <= MAX_INT ==>
                rtmp.recv == old(rtmp.recv).(chunkSize := Dec32(body))
      ensures packetType == 0x05 && |body| >= 4 ==> serverBW == Dec32(body)
      ensures packetType == 0x06 && |body| >= 4 && Dec32(body) <= MAX_INT ==> rtmp.clientBW == Dec32(body)
      ensures packetType != 0x01 || |body| < 4 ==> rtmp.recv == old(rtmp.recv)
      ensures packetType != 0x05 ==> serverBW == old(serverBW)
      ensures packetType != 0x06 ==> rtmp.clientBW == old(rtmp.clientBW)
    {
      hide Consistent, Delivered, Named;
      if packetType == 0x01 && |body| >= 4 {
        var size: nat := *;
        rtmp.recv := rtmp.recv.(chunkSize := if Dec32(body) <= MAX_INT then Dec32(body) else size);
      } else if packetType == 0x05 {
        var bandwidth :| 0 <= bandwidth < 0x1_0000_0000;
        serverBW := if |body| >= 4 then Dec32(body) else bandwidth;
      } else if packetType == 0x06 {
        var bandwidth := *;
        rtmp.clientBW := if |body| >= 4 && Dec32(body) <= MAX_INT then Dec32(body) else bandwidth;
      }
    }

    /** RTMP_ClientPacket for a complete packet: 1 for media, 2 when the server ends the stream.
        What it reads beyond an empty or short body can be anything. */
    method ClientPacket(p: InPacket) returns (media: nat)
      requires Valid() && rtmp.numInvokes + 3 <= MAX_INT && p.IsReady()
      modifies this`log, this`pausing, this`mediaStamp, this`serverBW, rtmp, rtmp.calls, rtmp.calls.vals,
               rtmp.socket`open, rtmp.socket`outgoing, rtmp.socket`interrupts
      ensures GoesOn() && rtmp.numInvokes <= old(rtmp.numInvokes) + 3
      ensures rtmp.socket.open ==> rtmp.Pending() == old(rtmp.Pending())
      ensures p.packetType !in {0x04, 0x11, 0x14} ==> log == old(log)
      ensures p.packetType in {0x08, 0x09, 0x16} ==> media == 1
      ensures p.packetType !in {0x08, 0x09, 0x11, 0x12, 0x14, 0x16} ==> media == 0
      ensures mediaStamp == if old(pausing) == 0 then StampTaken(p, old(mediaStamp)) else old(mediaStamp)
    {
      hide Consistent, Delivered, Named, RecvState.Valid;
      var body := BodyOf(p);
      media := 0;
      if p.packetType == 0x04 {
        ghost var _ := HandleCtrl(body);
      } else if p.packetType == 0x11 || p.packetType == 0x14 {
        var ret := ReadInvoke(p.packetType, body);
        media := if ret == 1 then 2 else 0;
      } else if p.packetType == 0x12 {
        var named, _ := FlvMetadata.HandleMetadata(body);
        media := if named then 1 else 0;
      } else if p.packetType == 0x08 || p.packetType == 0x09 || p.packetType == 0x16 {
        media := 1;
        TakeStamp(p, body);
      } else {
        SetSizes(p.packetType, body);
      }
    }

    /** The timestamp of the last media that was not paused. */
    method TakeStamp(p: InPacket, body: seq<Byte>)
      requires p.packetType in {0x08, 0x09, 0x16} && body == BodyOf(p)
      modifies this`mediaStamp
      ensures mediaStamp == if pausing == 0 then StampTaken(p, old(mediaStamp)) else old(mediaStamp)
    {
      var stamp := p.timestamp;
      if p.packetType == 0x16 {
        var _, last := FlvMetadata.HandleAggregate(body, p.timestamp);
        stamp := last;
      }
      if pausing == 0 {
        mediaStamp := stamp;
      }
    }

    /** An invoke, in a message of its own or behind the first byte of a flex message. */
    method ReadInvoke(packetType: Byte, body: seq<Byte>) returns (ret: int)
      requires Valid() && rtmp.numInvokes + 3 <= MAX_INT
      modifies this`log, this`pausing, rtmp, rtmp.calls, rtmp.calls.vals,
               rtmp.socket`open, rtmp.socket`outgoing, rtmp.socket`interrupts
      ensures GoesOn() && rtmp.numInvokes <= old(rtmp.numInvokes) + 3
    {
      hide Consistent, Delivered, Named, RecvState.Valid;
      var begin := if packetType == 0x11 then 1 else 0;
      var there: seq<Byte> := *;
      if |body| > begin {
        there := body[begin..];
      } else if there == [] {
        there := [0];
      }
      ghost var how, sent, id := Answer(None, 0, false, true), true, 0;
      ret, how, sent, id := HandleInvoke(there);
    }

    /** RTMP_ConnectStream: reads packets until the stream plays or the connection ends, for at
        most as many invokes as an int can number. */
    method ConnectStream() returns (playing: bool)
      requires Valid()
      modifies this`log, this`pausing, this`mediaStamp, this`serverBW, rtmp, rtmp.socket, rtmp.buf, rtmp.calls,
               rtmp.calls.vals
      ensures Valid() && old(log) <= log && playing == rtmp.playing
      ensures rtmp.calls.vals == old(rtmp.calls.vals) || fresh(rtmp.calls.vals)
    {
      hide Consistent, Delivered, Named, RecvState.Valid, Rtmp.Pending;
      var packet := InPacket(0, 0, false, 0, 0, 0, 0, None);
      while !rtmp.playing && rtmp.socket.open && rtmp.numInvokes + 3 <= MAX_INT
        invariant Valid() && old(log) <= log && packet.Valid()
        invariant rtmp.calls.vals == old(rtmp.calls.vals) || fresh(rtmp.calls.vals)
        decreases if rtmp.socket.open then |rtmp.Pending()| + 1 else 0
      {
        var ok, p := ReadNext(packet);
        if !ok {
          break;
        }
        packet := p.(got := None);
        if p.IsReady() && p.bodySize > 0 && p.packetType != 8 && p.packetType != 9 && p.packetType != 0x12 {
          var _ := ClientPacket(p);
        }
      }
      playing := rtmp.playing;
    }

    /** Behind a pause, media is held back until it is newer than what came before. */
    method Unpause(media: nat, stamp: U32) returns (kept: nat)
      requires Valid()
      modifies this`pausing
      ensures Valid() && (kept > 0 ==> pausing != 3)
      ensures kept == if old(pausing) == 3 && stamp <= mediaStamp then 0 else media
      ensures pausing == if old(pausing) == 3 && stamp > mediaStamp then 0 else old(pausing)
    {
      hide Consistent, Delivered, Named, RecvState.Valid;
      kept := media;
      if pausing == 3 {
        if stamp <= mediaStamp {
          kept := 0;
        } else {
          pausing := 0;
        }
      }
    }

    /** A complete packet. One that is no media is freed, one that is held back is not. */
    method Deliver(p: InPacket) returns (media: nat, packet: InPacket)
      requires Valid() && rtmp.numInvokes + 3 <= MAX_INT && p.IsReady()
      modifies this`log, this`pausing, this`mediaStamp, this`serverBW, rtmp, rtmp.calls, rtmp.calls.vals,
               rtmp.socket`open, rtmp.socket`outgoing, rtmp.socket`interrupts
      ensures GoesOn() && packet.Valid() && (media > 0 ==> pausing != 3 && packet == p)
      ensures rtmp.socket.open ==> rtmp.Pending() == old(rtmp.Pending())
    {
      hide Consistent, Delivered, Named, RecvState.Valid;
      packet := p;
      media := ClientPacket(p);
      if media == 0 {
        packet := packet.(got := None);
      } else {
        media := Unpause(media, packet.timestamp);
      }
    }

    /** RTMP_GetNextMediaPacket: reads until media comes that is newer than a pause, or the
        connection ends. */
    method GetNextMediaPacket() returns (media: nat, packet: InPacket)
      requires Valid()
      modifies this`log, this`pausing, this`mediaStamp, this`serverBW, rtmp, rtmp.socket, rtmp.buf, rtmp.calls,
               rtmp.calls.vals
      ensures Valid() && old(log) <= log
      ensures rtmp.calls.vals == old(rtmp.calls.vals) || fresh(rtmp.calls.vals)
      ensures media > 0 ==> rtmp.playing && pausing != 3 && packet.IsReady()
    {
      hide Consistent, Delivered, Named, RecvState.Valid, Rtmp.Pending;
      media, packet := 0, InPacket(0, 0, false, 0, 0, 0, 0, None);
      while media == 0 && rtmp.socket.open && rtmp.numInvokes + 3 <= MAX_INT
        invariant Valid() && old(log) <= log && packet.Valid()
        invariant rtmp.calls.vals == old(rtmp.calls.vals) || fresh(rtmp.calls.vals)
        invariant media > 0 ==> pausing != 3 && packet.IsReady()
        decreases if rtmp.socket.open then |rtmp.Pending()| + 1 else 0
      {
        var ok;
        ok, packet := ReadNext(packet);
        if !ok {
          break;
        }
        if packet.IsReady() {
          media, packet := Deliver(packet);
        }
      }
      if media > 0 {
        rtmp.playing := true;
      }
    }

    /** RTMP_ReadPacket, with the session's invariant. */
    method ReadNext(cur: InPacket) returns (ok: bool, p: InPacket)
      requires Valid() && cur.Valid() && rtmp.socket.open
      modifies this`log, rtmp, rtmp.socket, rtmp.buf, rtmp.calls, rtmp.calls.vals
      ensures Valid() && (ok ==> rtmp.AckBound()) && old(log) <= log && p.Valid()
      ensures rtmp.calls.vals == old(rtmp.calls.vals) || fresh(rtmp.calls.vals)
      ensures ok && rtmp.socket.open ==> old(rtmp.socket.open) && |rtmp.Pending()| < old(|rtmp.Pending()|)
      ensures rtmp.numInvokes <= old(rtmp.numInvokes)
    {
      hide Consistent, Delivered, Named, RecvState.Valid;
      ghost var before, used := Now(), 0;
      ok, p, used := rtmp.ReadPacket(cur);
      if rtmp.socket.open {
        DeliveredStill(before, rtmp.out, rtmp.socket.outgoing);
      } else {
        AfterClosed(log, old(rtmp.calls.Contents()), old(rtmp.numInvokes));
        DeliveredClosed(before, rtmp.socket.outgoing);
        NamedNext(log, Closed, link.playpath);
        log := log + [Closed];
      }
    }
  }

  /** A session from RTMP_Init over RTMP_Connect and RTMP_ConnectStream to any number of media
      packets, as the application runs one: whatever the peer sends, every publish or play was
      set up in order, and the packets of the history stand on the wire one behind the other. */
  method RunSession(socket: Socket, http: bool, link: Link, clientSig: seq<Byte>,
                    commandObject: seq<Byte>, auth: seq<Byte>, extras: seq<Byte>, wanted: nat)
    returns (c: Client, got: seq<InPacket>)
    requires |clientSig| == 1536
    modifies socket
    ensures fresh(c) && c.Valid() && c.rtmp.socket == socket
    ensures AllSetUp(c.log) && OnWire(c.log, socket.outgoing)
    ensures forall i :: 0 <= i < |c.log| && IsStart(c.log[i]) ==>
              ReadsPath(c.log[i].packet.body, c.log[i].call.name, link.playpath)
    ensures |got| <= wanted && forall i :: 0 <= i < |got| ==> got[i].IsReady()
  {
    hide Consistent, Delivered, Named, RecvState.Valid, SetUp, OnWire;
    c := new Client(socket, http, link);
    got := [];
    var ok := c.Connect(clientSig, commandObject, auth, extras);
    if ok {
      var playing := c.ConnectStream();
      if playing {
        got := ReadMedia(c, wanted);
      }
    }
    HistoryInOrder(c.log, c.rtmp.calls.Contents(), c.rtmp.numInvokes);
    OrderSetsUp(c.log);
    HistoryOnWire(c.Now());
    HistoryNamed(c.log, link.playpath);
  }

  method ReadMedia(c: Client, wanted: nat) returns (got: seq<InPacket>)
    requires c.Valid()
    modifies c, c.rtmp, c.rtmp.socket, c.rtmp.buf, c.rtmp.calls, c.rtmp.calls.vals
    ensures c.Valid() && old(c.log) <= c.log
    ensures |got| <= wanted && forall i :: 0 <= i < |got| ==> got[i].IsReady()
  {
    hide Consistent, Delivered, Named, RecvState.Valid;
    got := [];
    while |got| < wanted
      invariant c.Valid() && old(c.log) <= c.log
      invariant c.rtmp.calls.vals == old(c.rtmp.calls.vals) || fresh(c.rtmp.calls.vals)
      invariant |got| <= wanted && forall i :: 0 <= i < |got| ==> got[i].IsReady()
    {
      var media, packet := c.GetNextMediaPacket();
      if media == 0 {
        break;
      }
      got := got + [packet];
    }
  }

  /** What the plain handshake has done: version 3 and the client's bytes have gone out, and behind them,
      wherever, the server's bytes as they came in behind its version. */
  ghost predicate Shaken(clientSig: seq<Byte>, before: seq<Byte>, stream: seq<Byte>, sent: seq<Byte>) {
    |stream| >= 1537 && before + ([3] + clientSig) <= sent &&
    exists k: nat :: |before| + 1 + |clientSig| <= k && IsAt(sent, k, stream[1..1537])
  }

  predicate IsAt(s: seq<Byte>, k: nat, part: seq<Byte>) {
    k + |part| <= |s| && s[k..k + |part|] == part
  }

  lemma ShakenStill(clientSig: seq<Byte>, before: seq<Byte>, stream: seq<Byte>, sent: seq<Byte>, more: seq<Byte>)
    requires Shaken(clientSig, before, stream, sent) && sent <= more
    ensures Shaken(clientSig, before, stream, more)
  {
    var k: nat :| |before| + 1 + |clientSig| <= k && IsAt(sent, k, stream[1..1537]);
    assert IsAt(more, k, stream[1..1537]);
  }

  lemma HandsAreShaken(clientSig: seq<Byte>, before: seq<Byte>, stream: seq<Byte>, sent: seq<Byte>,
                       serverSig: seq<Byte>, sofar: seq<Byte>, echoed: seq<Byte>, all: seq<Byte>)
    requires sent == before + ([3] + clientSig) && sent <= sofar && echoed == sofar + serverSig && echoed <= all
    requires |stream| >= 1537 && stream[1..1537] == serverSig
    ensures Shaken(clientSig, before, stream, all)
  {
    assert all[|sofar|..|sofar| + 1536] == echoed[|sofar|..|sofar| + 1536] == serverSig;
    assert IsAt(all, |sofar|, serverSig);
  }

  lemma HistoryNamed(log: seq<Event>, path: seq<Byte>)
    requires Named(log, path)
    ensures forall i :: 0 <= i < |log| && IsStart(log[i]) ==> ReadsPath(log[i].packet.body, log[i].call.name, path)
  {
    hide NamesPath, ReadsPath;
    forall i | 0 <= i < |log| && IsStart(log[i]) ensures ReadsPath(log[i].packet.body, log[i].call.name, path) {
      PathIsRead(log[i], path);
    }
  }

  lemma HistoryOnWire(m: Moment)
    requires Delivered(m)
    ensures OnWire(m.log, m.sent)
  {
  }

  lemma HistoryInOrder(log: seq<Event>, w: seq<Call>, n: nat)
    requires Consistent(log, w, n)
    ensures InOrder(log)
  {
  }

  /** The transaction id of an invoke: the next number, or one fixed by the sender. */
  datatype Txn = Next | Fixed(number: Number)

  lemma ConnectNames()
    ensures Ordinary(Text("secureTokenResponse")) && Ordinary(Text("releaseStream")) && Ordinary(Text("FCPublish")) &&
            Ordinary(Text("FCSubscribe"))
  {
    OrdinaryName(Text("secureTokenResponse"));
    OrdinaryName(Text("releaseStream"));
    OrdinaryName(Text("FCPublish"));
    OrdinaryName(Text("FCSubscribe"));
  }

  lemma ReplyNames()
    ensures Ordinary(CHECK_BW) && Ordinary(Text("pong")) && Ordinary(Text("_result"))
  {
    OrdinaryName(CHECK_BW);
    OrdinaryName(Text("pong"));
    OrdinaryName(Text("_result"));
  }

  lemma DifferentNames()
    ensures CONNECT != CREATE_STREAM && CONNECT != PLAY && CONNECT != PUBLISH
    ensures CREATE_STREAM != PLAY && CREATE_STREAM != PUBLISH && PLAY != PUBLISH
  {
    assert |CONNECT| == 7 == |PUBLISH| && CONNECT[0] == 'c' as int && PUBLISH[0] == 'p' as int;
  }

  const ON_STATUS := Text("onStatus")
  const PLAY_START := Text("NetStream.Play.Start")
  const PUBLISH_START := Text("NetStream.Publish.Start")
  const PAUSE_NOTIFY := Text("NetStream.Pause.Notify")

  predicate StreamFailed(code: seq<Byte>) {
    code == Text("NetStream.Failed") || code == Text("NetStream.Play.Failed") ||
    code == Text("NetStream.Play.StreamNotFound") || code == Text("NetConnection.Connect.InvalidApp")
  }

  predicate StreamEnded(code: seq<Byte>) {
    code == Text("NetStream.Play.Complete") || code == Text("NetStream.Play.Stop") ||
    code == Text("NetStream.Play.UnpublishNotify")
  }

  /** A pause notice ends the pause that is on its way. */
  predicate Resumes(code: seq<Byte>, pausing: int) {
    code == PAUSE_NOTIFY && (pausing == 1 || pausing == 2)
  }

  /** All other codes, and a pause notice outside a pause. */
  predicate NoEffect(code: seq<Byte>, pausing: int) {
    !StreamFailed(code) && !StreamEnded(code) && code != PLAY_START && code != PUBLISH_START && !Resumes(code, pausing)
  }

  /** The codes tell each other apart by length or by one of two characters. */
  lemma DifferentCodes(code: seq<Byte>)
    ensures StreamFailed(code) || StreamEnded(code) ==>
      code != PLAY_START && code != PUBLISH_START && code != PAUSE_NOTIFY
    ensures StreamFailed(code) ==> !StreamEnded(code)
    ensures PLAY_START != PUBLISH_START && PLAY_START != PAUSE_NOTIFY && PUBLISH_START != PAUSE_NOTIFY
  {
    assert |PLAY_START| == 20 && |PUBLISH_START| == 23 && |PAUSE_NOTIFY| == 22;
    assert Text("NetStream.Play.Complete")[11] == 'l' as int && PUBLISH_START[11] == 'u' as int;
  }

  /** The name of an invoke, if it is a string, and its transaction id, if it is a number. */
  function NameOf(props: seq<Prop>): Option<seq<Byte>> {
    if |props| > 0 && props[0].value.Str? then Some(props[0].value.s) else None
  }

  function IdOf(props: seq<Prop>): Option<int> {
    if |props| > 1 && props[1].value.Num? then Some(IntOfNumber(props[1].value.bits)) else None
  }

  function BodyOf(p: InPacket): seq<Byte> {
    if p.got.None? then [] else p.got.value
  }

  /** m_mediaStamp after a packet outside a pause. */
  function StampTaken(p: InPacket, before: U32): U32 {
    if p.packetType == 0x08 || p.packetType == 0x09 then p.timestamp
    else if p.packetType == 0x16 then FlvMetadata.MediaStamp(BodyOf(p), p.timestamp)
    else before
  }

  /** The properties of an invoke; a body that does not begin with a string is refused. */
  function Invoke(body: seq<Byte>): Result<seq<Prop>>
    requires body != []
  {
    if body[0] != STRING then Fail else DecodeProps(body, false, false)
  }

  /** The answer to createStream: name, id, null of any of its three types, and a number. All four are
      read, so that the answer is taken and its number is the stream id. */
  lemma AnswerIsRead(id: Number, marker: Byte, number: Number)
    requires marker in {5, 6, 13} && !LooksLikeEnd(Num(id)) && !LooksLikeEnd(Num(number))
    ensures var body := Concat([StringBytes(RESULT), [NUMBER] + id, [marker], [NUMBER] + number]);
            body != [] &&
            Invoke(body) == Ok(Unnamed([Str(RESULT), Num(id), Null, Num(number)]), |body|) &&
            NameOf(Invoke(body).value) == Some(RESULT) && IdOf(Invoke(body).value) == Some(IntOfNumber(id))
  {
    hide DecodeProps, IntOfNumber, LooksLikeEnd, Text, Be16;
    var parts := [StringBytes(RESULT), [NUMBER] + id, [marker], [NUMBER] + number];
    var vs := [Str(RESULT), Num(id), Null, Num(number)];
    assert Encodes(parts[0], vs[0]) && Encodes(parts[1], vs[1]) && Encodes(parts[2], vs[2]) && Encodes(parts[3], vs[3]);
    OnlyNumbers(vs[0]);
    OnlyNumbers(vs[2]);
    ValuesDecode(parts, vs);
    assert Concat(parts)[0] == STRING;
  }

  /** A status message: name, id, null and an object with a string under "code". The code is read. */
  lemma StatusIsRead(id: Number, ps: seq<Prop>, j: nat, room: int)
    requires !LooksLikeEnd(Num(id)) && PlainProps(ps) && room > |FullValue(Obj(ps))|
    requires j < |ps| && ps[j].name == Text("code") && ps[j].value.Str?
    requires forall k :: 0 <= k < j ==> ps[k].name != Text("code")
    ensures var body := StringBytes(ON_STATUS) + ([NUMBER] + id + ([NULL] + FullValue(Obj(ps))));
            Invoke(body).Ok? && NameOf(Invoke(body).value) == Some(ON_STATUS) &&
            CodeOf(Invoke(body).value) == Some(ps[j].value.s)
  {
    hide DecodeProp, DecodeProps, FullValue, PlainProps, LooksLikeEnd, Text, Be16, FitObject, StringBytes, CodeFrom;
    var b, last := FullValue(Obj(ps)), Prop([], Obj(ps));
    WholeObjectFits(ps, room);
    RoundTrip(ps, room, []);
    assert b + [] == b;
    FullObject(ps);
    ObjectAlone(b, last);
    FirstCode(ps, 0, j);
    StatusName();
    var s2 := [NULL] + b;
    var s1 := [NUMBER] + id + s2;
    InFront([NULL], Null, b, [last]);
    InFront([NUMBER] + id, Num(id), s2, [Prop([], Null)] + [last]);
    InFront(StringBytes(ON_STATUS), Str(ON_STATUS), s1, [Prop([], Num(id))] + ([Prop([], Null)] + [last]));
    StartsWithString(s1);
  }

  lemma StatusName()
    ensures Encodes(StringBytes(ON_STATUS), Str(ON_STATUS)) && !LooksLikeEnd(Str(ON_STATUS)) && !LooksLikeEnd(Null)
    ensures Encodes([NULL], Null)
  {
  }

  lemma StartsWithString(rest: seq<Byte>)
    ensures (StringBytes(ON_STATUS) + rest)[0] == STRING
  {
  }

  lemma ObjectAlone(b: seq<Byte>, p: Prop)
    requires DecodeProp(b, false) == Ok(p, |b|) && |b| > 0 && b[0] == OBJECT
    ensures DecodeProps(b, false, false) == Ok([p], |b|)
  {
    hide DecodeProp;
    assert b[|b|..] == [] && [p] + [] == [p];
    assert DecodeProps([], false, false) == Ok([], 0);
  }

  lemma InFront(b: seq<Byte>, v: Value, rest: seq<Byte>, ps: seq<Prop>)
    requires !v.Obj? && Encodes(b, v) && !LooksLikeEnd(v) && DecodeProps(rest, false, false) == Ok(ps, |rest|)
    ensures DecodeProps(b + rest, false, false) == Ok([Prop([], v)] + ps, |b + rest|)
  {
    hide DecodeProp, DecodeProps, Encodes, LooksLikeEnd, AtMarker;
    DropPrefix(b, rest);
    ValueExactly(b + rest, v, |b|);
    MarkerInFront(b, v, rest);
    NextValue(b + rest, Prop([], v), |b|, rest, ps, |rest|);
  }

  /** What the codes say: the first four close the connection, the next three end the stream, a seek
      notice does neither. */
  lemma CodesSay()
    ensures StreamFailed(Text("NetStream.Failed")) && StreamFailed(Text("NetStream.Play.Failed"))
    ensures StreamFailed(Text("NetStream.Play.StreamNotFound"))
    ensures StreamFailed(Text("NetConnection.Connect.InvalidApp"))
    ensures StreamEnded(Text("NetStream.Play.Complete")) && StreamEnded(Text("NetStream.Play.Stop"))
    ensures StreamEnded(Text("NetStream.Play.UnpublishNotify"))
    ensures forall pausing :: NoEffect(Text("NetStream.Seek.Notify"), pausing)
    ensures NoEffect(PAUSE_NOTIFY, 0) && !NoEffect(PAUSE_NOTIFY, 1)
  {
    DifferentCodes(Text("NetStream.Seek.Notify"));
    DifferentCodes(PAUSE_NOTIFY);
    assert |Text("NetStream.Seek.Notify")| == 21;
    assert Text("NetStream.Seek.Notify")[10] == 'S' as int && Text("NetStream.Play.Failed")[10] == 'P' as int;
  }

  lemma ResultIsNoStatus()
    ensures RESULT != ON_STATUS
  {
    assert |RESULT| == 7 && |ON_STATUS| == 8;
  }

  /** The invokes OnOther reacts to. */
  predicate Handled(name: seq<Byte>) {
    name == Text("onBWDone") || name == Text("onFCUnsubscribe") || name == Text("ping") || name == Text("_onbwcheck") ||
    name == Text("_onbwdone") || name == Text("close") || name == Text("playlist_ready")
  }

  /** m_pausing after a control message. */
  function NextPausing(pausing: int, body: seq<Byte>, bufferHack: bool): int {
    if |body| < 6 then pausing
    else if Dec16(body) == 1 && pausing == 1 then 2
    else if Dec16(body) == 31 && bufferHack && (pausing == 0 || pausing == 2) then pausing + 1
    else pausing
  }

  /** A full cycle of the buffer option, whatever stream the messages name: an empty buffer pauses, the
      end of the stream is noted, the next empty buffer resumes. Without the option nothing is sent.
      A ping is answered in any state. */
  lemma PauseCycle(id: U32, pausing: int, hack: bool)
    ensures var empty, end, ping := Be16(31) + Be32(id), Be16(1) + Be32(id), Be16(6) + Be32(id);
            NextPausing(0, empty, true) == 1 && CtrlOuts(0, empty, true) == [PauseOut(true)] &&
            NextPausing(1, end, true) == 2 && CtrlOuts(1, end, true) == [] &&
            NextPausing(2, empty, true) == 3 && CtrlOuts(2, empty, true) == [PauseOut(false)] &&
            NextPausing(pausing, empty, false) == pausing && CtrlOuts(pausing, empty, false) == [] &&
            NextPausing(pausing, ping, hack) == pausing &&
            CtrlOuts(pausing, ping, hack) == [Notice(1, 4, [0, 7] + Be32(id))]
  {
    hide Be32, Dec32;
    var ping := Be16(6) + Be32(id);
    assert ping[2..] == Be32(id) + [];
    Dec32Be32(id, []);
    assert Dec16(Be16(31) + Be32(id)) == 31 && Dec16(Be16(1) + Be32(id)) == 1 && Dec16(ping) == 6;
    assert Be16(7) == [0, 7];
  }

  /** No two of these names have the same length. */
  lemma OtherNames()
    ensures |Text("onBWDone")| == 8 && |Text("onFCUnsubscribe")| == 15 && |Text("ping")| == 4
    ensures |Text("_onbwcheck")| == 10
    ensures |Text("_onbwdone")| == 9 && |Text("close")| == 5 && |Text("playlist_ready")| == 14
  {
  }

  /** The string that an onStatus invoke has under "code", if it has a string there. */
  function CodeOf(props: seq<Prop>): Option<seq<Byte>> {
    if 3 < |props| && props[3].value.Obj? then CodeFrom(props[3].value.props, 0) else None
  }

  function CodeFrom(props: seq<Prop>, i: nat): Option<seq<Byte>>
    decreases |props| - i
  {
    if i >= |props| then Some([])
    else if props[i].name == Text("code") then (if props[i].value.Str? then Some(props[i].value.s) else None)
    else CodeFrom(props, i + 1)
  }

  lemma {:induction false} FirstCode(props: seq<Prop>, i: nat, j: nat)
    requires i <= j < |props| && props[j].name == Text("code") && forall k :: i <= k < j ==>
      props[k].name != Text("code")
    ensures CodeFrom(props, i) == if props[j].value.Str? then Some(props[j].value.s) else None
    decreases j - i
  {
    hide Text;
    if i < j {
      FirstCode(props, i + 1, j);
    }
  }

  lemma {:induction false} NoCode(props: seq<Prop>, i: nat)
    requires forall k :: i <= k < |props| ==> props[k].name != Text("code")
    ensures CodeFrom(props, i) == Some([])
    decreases |props| - i
  {
    hide Text;
    if i < |props| {
      NoCode(props, i + 1);
    }
  }

  lemma MayCreate(log: seq<Event>)
    requires exists j: nat :: WasMatched(log, j, CONNECT)
    ensures MaySend(log, CREATE_STREAM, 0)
  {
    assert CREATE_STREAM[0] == 'c' as int && PUBLISH[0] == 'p' as int && PLAY[0] == 'p' as int;
  }

  lemma MayStart(log: seq<Event>, id: int)
    requires exists j: nat :: GaveStream(log, j, id)
    ensures MaySend(log, PUBLISH, id) && MaySend(log, PLAY, id)
  {
    assert CREATE_STREAM[0] == 'c' as int && PUBLISH[0] == 'p' as int && PLAY[0] == 'p' as int;
  }

  lemma MoreInvokes(log: seq<Event>, w: seq<Call>, n: nat, m: nat)
    requires Consistent(log, w, n) && n <= m
    ensures Consistent(log, w, m)
  {
    hide Waiting, InOrder;
  }

  lemma InvokeIsReadable(q: Packet, name: seq<Byte>, number: Number)
    requires ShortName(name) && q.channel < 64 && CallHeader(name, number) <= q.body
    ensures CallReadable(q, DEFAULT_CHUNK) && HasCall(q.body) && CallOf(q.body) == Call(name, IntOfNumber(number))
  {
    hide CallHeader;
    var rest := q.body[|CallHeader(name, number)|..];
    assert q.body == CallHeader(name, number) + rest;
    CallReadBack(name, number, rest);
  }

  lemma Queued(w: seq<Call>, q: Packet, c: Call, queue: bool)
    requires CallReadable(q, DEFAULT_CHUNK) && CallOf(q.body) == c && q.packetType == INVOKE
    ensures CallLeft(q, DEFAULT_CHUNK) && w + QueuedCall(q, queue, DEFAULT_CHUNK) == if queue then w + [c] else w
  {
    hide CallOf, CallReadable;
    ReadableIsLeft(q, DEFAULT_CHUNK);
  }

  lemma AfterTaken(m: Moment, w: seq<Call>, n: nat, i: nat, e: Event, path: seq<Byte>)
    requires Consistent(m.log, w, n) && Delivered(m) && Named(m.log, path)
    requires i < |w| && (e.Matched? || e.Erased?) && e.call == w[i] && forall k :: 0 <= k < i ==> w[k] != w[i]
    ensures Consistent(m.log + [e], Without(w, i), n) && Delivered(m.(log := m.log + [e])) && Named(m.log + [e], path)
  {
    hide Consistent, Delivered, Named;
    if e.Matched? {
      AfterMatched(m.log, w, n, i, e.number);
    } else {
      AfterErased(m.log, w, n, i);
    }
    DeliveredMatch(m, e);
    NamedNext(m.log, e, path);
  }

  lemma TellsQueued(w: seq<Call>, q: Packet, c: Call, id: int, queue: bool, head: Head, specs: seq<ArgSpec>,
                    path: seq<Byte>)
    requires Tells(q, c, id, head, specs, path)
    ensures CallLeft(q, DEFAULT_CHUNK) && w + QueuedCall(q, queue, DEFAULT_CHUNK) == if queue then w + [c] else w
  {
    hide CallReadable, CallOf, CallLeft, QueuedCall, Says, HasPath;
    Queued(w, q, c, queue);
  }

  predicate IsStartName(name: seq<Byte>) { name == PUBLISH || name == PLAY }

  /** A packet for an invoke: what is logged and queued of it is what it says, and publish and play name
      the path. */
  ghost predicate Tells(q: Packet, c: Call, id: int, head: Head, specs: seq<ArgSpec>, path: seq<Byte>) {
    CallReadable(q, DEFAULT_CHUNK) && Carries(q, c, id) && HasHead(q, head) && Says(q.body, c.name, specs) &&
    (IsStartName(c.name) ==> HasPath(specs, path))
  }

  lemma AfterCall(before: Moment, w: seq<Call>, n: nat, c: Call, id: int, queue: bool, q: Packet, m: nat,
                  head: Head, specs: seq<ArgSpec>, path: seq<Byte>)
    requires Consistent(before.log, w, n) && Delivered(before) && Named(before.log, path)
    requires MaySend(before.log, c.name, id) && n <= m
    requires Tells(q, c, id, head, specs, path) && q.headerType <= 3 && q.channel <= 65599
    requires queue ==> c.txn == 0 || n < c.txn <= m
    ensures var after := Transmitted(before, q).(log := before.log + [Sent(c, id, queue, q)]);
            Consistent(after.log, if queue then w + [c] else w, m) && Delivered(after) && Named(after.log, path) &&
            SendsAll(before, after, [Out(c.name, id, queue, head, specs)])
  {
    hide Consistent, Delivered, Named, MaySend, Carries, Transmitted, SendsAll, Says, HasHead;
    var e := Sent(c, id, queue, q);
    NamedNext(before.log, e, path);
    AfterSent(before.log, w, n, c, id, queue, q, m);
    DeliveredNext(before, e);
    assert IsSent(e, Out(c.name, id, queue, head, specs));
    SendsOne(before, e, Out(c.name, id, queue, head, specs));
  }

  /** The id that is queued is zero or the number of this invoke. */
  lemma QueuedId(id: Txn, number: Number, n: nat, m: nat)
    requires if id.Next? then m == n + 1 <= MAX_INT && number == NumberOfInt(m) else m == n && number == id.number
    ensures id.Next? ==> IntOfNumber(number) == m
    ensures number == NumberOfInt(0) ==> IntOfNumber(number) == 0
  {
    hide NumberOfInt, IntOfNumber;
    if id.Next? {
      IntRoundTrip(m);
    }
    IntRoundTrip(0);
  }

  /** What is known of the arguments of an invoke, its number included. */
  function SpecsOf(id: Txn, args: seq<Arg>): (specs: seq<ArgSpec>)
    ensures |specs| == 1 + |args| && specs[1..] == Knowns(args)
  {
    if id.Next? then Numbered(args) else Knowns([Scalar(Num(id.number))] + args)
  }

  function ReplyOut(name: seq<Byte>, number: Number, args: seq<Arg>, timestamp: U32): Out {
    Out(name, 0, false, Head(MEDIUM, 3, timestamp), Knowns([Scalar(Num(number))] + args))
  }

  lemma SpecsHold(id: Txn, number: Number, args: seq<Arg>)
    requires if id.Next? then exists n: nat :: n <= MAX_INT && number == NumberOfInt(n) else number == id.number
    ensures Is(Scalar(Num(number)), SpecsOf(id, args)[0])
  {
    hide NumberOfInt;
    if id.Next? {
      var n: nat :| n <= MAX_INT && number == NumberOfInt(n);
      IntIsNoEnd(n);
    }
  }

  lemma InvokeSays(body: seq<Byte>, name: seq<Byte>, number: Number, args: seq<Arg>, specs: seq<ArgSpec>)
    requires AllSane(args) && body == CallHeader(name, number) + ArgsBytes(args)
    requires |specs| == 1 + |args| && Is(Scalar(Num(number)), specs[0]) && specs[1..] == Knowns(args)
    ensures Says(body, name, specs)
  {
    hide StringBytes;
    var first := Scalar(Num(number));
    var all := [first] + args;
    assert all[1..] == args && ArgsBytes(all) == ArgBytes(first) + ArgsBytes(args);
    Assoc(StringBytes(name), ArgBytes(first), ArgsBytes(args));
    forall i | 0 <= i < |all| ensures Is(all[i], specs[i]) {
      if i > 0 { assert specs[i] == specs[1..][i - 1]; }
    }
    assert AllSane(all) && AllAre(all, specs);
  }

  lemma PlayHasPath(link: Link, last: seq<Arg>)
    requires AllAre(last, LengthSpec(link))
    ensures var args := [Scalar(Null), Scalar(Str(link.playpath)), Scalar(Num(StartOf(link)))];
            HasPath(SpecsOf(Next, args + last), link.playpath)
  {
    hide LooksLikeEnd, NumberOfInt, StartOf;
    var length := link.stopTime - link.seekTime;
    StartIsNoEnd(link);
    OnlyNumbers(Null);
    OnlyNumbers(Str(link.playpath));
    IntIsNoEnd(if 0 <= length <= MAX_INT then length else 0);
    assert last != [] ==> Is(last[0], IntSpec(length));
  }

  /** The length argument of play may be known less exactly. */
  lemma LengthOnly(before: Moment, after: Moment, link: Link, id: int, last: seq<Arg>)
    requires AllAre(last, LengthSpec(link))
    requires var args := [Scalar(Null), Scalar(Str(link.playpath)), Scalar(Num(StartOf(link)))];
             SendsAll(before, after, [Out(PLAY, id, true, Head(LARGE, 8, 0), Numbered(args + last))])
    ensures SendsAll(before, after, [PlayOut(link, id)])
  {
    hide SendsAll, StartOf;
    var args := [Scalar(Null), Scalar(Str(link.playpath)), Scalar(Num(StartOf(link)))];
    var o := Out(PLAY, id, true, Head(LARGE, 8, 0), Numbered(args + last));
    Weaker(before, after, o, PlayOut(link, id).args);
  }

  function ConnectOut(secret: bool, commandObject: seq<Byte>, auth: seq<Byte>, extras: seq<Byte>): Out {
    var credentials := if auth == [] then [] else [Scalar(Bool(secret)), Scalar(Str(auth))];
    Out(CONNECT, 0, true, Head(LARGE, 3, 0), Numbered([Raw(commandObject)] + credentials + [Raw(extras)]))
  }

  /** The body of connect, part by part: name, number, command object, credentials if there are any, and
      the extra arguments. */
  lemma ConnectSays(e: Event, secret: bool, commandObject: seq<Byte>, auth: seq<Byte>, extras: seq<Byte>)
    returns (number: Number)
    requires IsSent(e, ConnectOut(secret, commandObject, auth, extras))
    ensures var credentials := if auth == [] then [] else [[1, if secret then 1 else 0], StringBytes(auth)];
            e.packet.body ==
              StringBytes(Text("connect")) + Concat([[0] + number, commandObject] + credentials + [extras])
  {
    hide StringBytes, Text, Carries, Concat, ArgsBytes;
    var o := ConnectOut(secret, commandObject, auth, extras);
    PacketIsInvoke(e, o);
    var args: seq<Arg> :|
      AllSane(args) && AllAre(args, o.args) && e.packet.body == StringBytes(CONNECT) + ArgsBytes(args);
    number := args[0].v.bits;
    var credentials := if auth == [] then [] else [[1, if secret then 1 else 0], StringBytes(auth)];
    var parts := [[0] + number, commandObject] + credentials + [extras];
    forall i | 0 <= i < |args| ensures parts[i] == ArgBytes(args[i]) {
      assert Is(args[i], o.args[i]);
    }
    ConcatIs(args, parts);
  }

  /** Builds an invoke body in a buffer of `room` bytes behind the header room; None when an
      argument does not fit. */
  method EncodeInvoke(name: seq<Byte>, number: Number, args: seq<Arg>, room: nat)
    returns (mem: array<Byte>, size: Option<nat>)
    requires ShortName(name) && 256 <= room <= 4096
    ensures fresh(mem)
    ensures size.Some? ==> HEADROOM + size.value <= mem.Length && AllSane(args)
    ensures size.Some? ==>
              mem[HEADROOM..HEADROOM + size.value] == CallHeader(name, number) + ArgsBytes(args)
  {
    hide StringBytes, FitScalar, ArgsBytes, CallHeader;
    mem := new Byte[room];
    var cursor := PutCall(mem, name, number);
    ghost var start := cursor;
    var i := 0;
    NoArgs(args);
    while i < |args|
      invariant i <= |args| && start <= cursor <= room && AllSane(args[..i])
      invariant mem[HEADROOM..start] == CallHeader(name, number)
      invariant mem[start..cursor] == ArgsBytes(args[..i])
    {
      ghost var before := mem[..];
      var more := PutArg(args[i], mem, cursor);
      if more.None? {
        return mem, None;
      }
      SameBytes(before, mem[..], HEADROOM, start);
      SameBytes(before, mem[..], start, cursor);
      Split(mem[..], start, cursor, more.value);
      OneMore(args, i);
      cursor := more.value;
      i := i + 1;
    }
    assert args[..i] == args;
    Split(mem[..], HEADROOM, start, cursor);
    return mem, Some(cursor - HEADROOM);
  }

  lemma NoArgs(args: seq<Arg>)
    ensures args[..0] == [] && AllSane(args[..0]) && ArgsBytes(args[..0]) == []
  {
  }

  lemma OneMore(args: seq<Arg>, i: nat)
    requires i < |args| && AllSane(args[..i]) && Sane(args[i])
    ensures AllSane(args[..i + 1]) && ArgsBytes(args[..i + 1]) == ArgsBytes(args[..i]) + ArgBytes(args[i])
  {
    hide ArgsBytes, ArgBytes, Sane;
    var some := args[..i + 1];
    assert some[..i] == args[..i] && some[..i + 1] == some;
    forall k | 0 <= k < |some| ensures Sane(some[k]) {
      if k < i { assert some[k] == args[..i][k]; }
    }
    ArgsBytesNext(some, i);
  }

  /** Name and number, at the front of the body. */
  method PutCall(mem: array<Byte>, name: seq<Byte>, number: Number) returns (cursor: nat)
    requires ShortName(name) && mem.Length >= 256
    modifies mem
    ensures HEADROOM <= cursor <= mem.Length && mem[HEADROOM..cursor] == CallHeader(name, number)
  {
    hide StringBytes, FitScalar;
    var enc := EncodeString(mem, HEADROOM, mem.Length, name);
    ShortStringLength(name);
    var next := EncodeScalar(Num(number), mem, enc.value, mem.Length);
    FitNumber(number, mem.Length - enc.value);
    cursor := next.value;
    Split(mem[..], HEADROOM, enc.value, cursor);
  }

  /** One argument, if it fits. */
  method PutArg(arg: Arg, mem: array<Byte>, cursor: nat) returns (next: Option<nat>)
    requires cursor <= mem.Length <= 4096
    modifies mem
    ensures next.Some? ==> cursor <= next.value <= mem.Length && Sane(arg) && mem[cursor..next.value] == ArgBytes(arg)
    ensures forall k :: 0 <= k < cursor ==> mem[k] == old(mem[k])
  {
    hide StringBytes, FitScalar;
    next := None;
    match arg {
      case Raw(bytes) =>
        if cursor + |bytes| < mem.Length {
          var end := Emit(mem, cursor, cursor, bytes);
          next := Some(end);
        }
      case Scalar(v) =>
        if !v.Obj? {
          next := EncodeScalar(v, mem, cursor, mem.Length);
          FitIsSane(v, mem.Length - cursor);
        }
    }
  }

  lemma FitIsSane(v: Value, room: nat)
    requires !v.Obj? && room <= 4096
    ensures FitScalar(v, room).Some? ==> Encodable(v) && FitScalar(v, room).value == ScalarBytes(v)
  {
    hide StringBytes;
  }

  lemma ShortStringLength(name: seq<Byte>)
    requires ShortName(name)
    ensures |StringBytes(name)| == 3 + |name|
  {
  }

  lemma FitNumber(number: Number, room: int)
    requires room >= 9
    ensures FitScalar(Num(number), room) == Some([NUMBER] + number)
  {
  }
}
