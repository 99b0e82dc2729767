/** The invokes and control messages of a client, with their arguments, and what a receiver
    decodes them to. */
module Invokes {
  import opened Bytes
  import opened Numbers
  import opened Amf0
  import opened AmfGrammar
  import opened ChunkFormat
  import opened InvokeArgs
  import opened SessionLog

  /** An AVal, whose length is an int. */
  type Path = s: seq<Byte> | |s| < 0x8000_0000 witness []
  type Millis = x: int | -0x8000_0000 <= x < 0x8000_0000

  /** Options of the link that the session looks at. */
  datatype Link = Link(write: bool, live: bool, playlist: bool, token: bool, auth: bool, bufferHack: bool,
                       playpath: Path, subscribepath: Path, seekTime: Millis, stopTime: Millis)

  const PAUSE := Text("pause")
  const RESULT := Text("_result")
  const BUFFER_MS := 30000

  // ---- Publishing and playing ----

  /** The invokes that name a stream: it is their only argument. */
  function PathOut(name: seq<Byte>, path: Path, queued: bool): Out {
    Out(name, 0, queued, Head(MEDIUM, 3, 0), Numbered([Scalar(Null), Scalar(Str(path))]))
  }

  function PublishOut(link: Link, id: int): Out {
    Out(PUBLISH, id, true, Head(LARGE, 4, 0),
        Numbered([Scalar(Null), Scalar(Str(link.playpath)), Scalar(Str(Text("live")))]))
  }

  /** -1000.0, which asks for a live stream. */
  const LIVE_START: Number := [0xc0, 0x8f, 0x40, 0, 0, 0, 0, 0]

  lemma LiveStartIs()
    ensures IntOfNumber(LIVE_START) == -1000
  {
    hide Pow2;
    var hi := Dec32(LIVE_START);
    assert hi == 0xc08f_4000 && Dec64(LIVE_START) == 0xc08f_4000_0000_0000;
    Pow2Constants();
    Pow2Adds(21, 31);
    assert Pow2(43) * Pow2(9) == Pow2(52) by { Pow2Adds(43, 9); }
    Pow2OfNine();
  }

  lemma Pow2OfNine()
    ensures Pow2(9) == 512
  {
  }

  function StartOf(link: Link): Number {
    if link.live then LIVE_START else if link.seekTime > 0 then NumberOfInt(link.seekTime) else NumberOfInt(0)
  }

  /** The double of an int; that of a negative one is left open. */
  function IntSpec(n: int): ArgSpec {
    if 0 <= n <= MAX_INT then Known(Scalar(Num(NumberOfInt(n)))) else AnInt
  }

  /** The length to play goes with it only if there is a stop time. */
  function LengthSpec(link: Link): seq<ArgSpec> {
    if link.stopTime == 0 then [] else [IntSpec(link.stopTime - link.seekTime)]
  }

  function PlayOut(link: Link, id: int): Out {
    Out(PLAY, id, true, Head(LARGE, 8, 0),
        Numbered([Scalar(Null), Scalar(Str(link.playpath)), Scalar(Num(StartOf(link)))]) + LengthSpec(link))
  }

  /** An ECMA array that holds the play path under "0". */
  function PlaylistArgs(link: Link): seq<Arg> {
    [Scalar(Null), Raw([ECMA_ARRAY, 0, 0, 0, OBJECT]), Raw(Be16(1) + Text("0")), Scalar(Str(link.playpath)),
     Raw(END_MARKER)]
  }

  function PlaylistOut(link: Link, id: int): Out {
    Out(SET_PLAYLIST, id, true, Head(LARGE, 8, 0), Knowns([Scalar(Num(NumberOfInt(0)))] + PlaylistArgs(link)))
  }

  function PauseOut(pause: bool): Out {
    Out(PAUSE, 0, true, Head(MEDIUM, 8, 0), [AnInt, Known(Scalar(Null)), Known(Scalar(Bool(pause))), AnInt])
  }

  // ---- What follows an answer ----

  function TokenOuts(answered: bool): seq<Out> {
    if answered then
      [Out(Text("secureTokenResponse"), 0, false, Head(MEDIUM, 3, 0),
           [Known(Scalar(Num(NumberOfInt(0)))), Known(Scalar(Null)), AnyText])]
    else []
  }

  /** A control message: type 3 announces a buffer time, type 7 answers a ping. */
  function Control(body: seq<Byte>): Out { Notice(MEDIUM, 0x04, body) }

  function BufferTime(id: int, ms: nat): seq<Byte> { Be16(3) + Be32(id) + Be32(ms) }

  /** What announces a stream to be published, or the window and buffer time of a player. */
  function AnnounceOuts(link: Link, serverBW: U32): seq<Out> {
    if link.write then
      [PathOut(Text("releaseStream"), link.playpath, false), PathOut(Text("FCPublish"), link.playpath, false)]
    else [Notice(LARGE, 0x05, Be32(serverBW)), Control(BufferTime(0, 300))]
  }

  function CreateOut(): Out {
    Out(CREATE_STREAM, 0, true, Head(MEDIUM, 3, 0), Numbered([Scalar(Null)]))
  }

  function CreateOuts(link: Link): seq<Out> {
    [CreateOut()] +
    if link.write then []
    else if link.subscribepath != [] then [PathOut(Text("FCSubscribe"), link.subscribepath, true)]
    else if link.live then [PathOut(Text("FCSubscribe"), link.playpath, true)]
    else []
  }

  function PlayOuts(link: Link, id: int): seq<Out> {
    [PlayOut(link, id), Control(BufferTime(id, BUFFER_MS))]
  }

  /** What follows the answer to connect, behind the answer to a secure token. */
  function ConnectOuts(link: Link, serverBW: U32): seq<Out> {
    AnnounceOuts(link, serverBW) + CreateOuts(link)
  }

  /** What follows the answer to createStream. */
  function StreamOuts(link: Link, id: int): seq<Out> {
    if link.write then [PublishOut(link, id)]
    else (if link.playlist then [PlaylistOut(link, id)] else []) + PlayOuts(link, id)
  }

  // ---- Answers to the server ----

  function CheckOut(): Out {
    Out(CHECK_BW, 0, false, Head(LARGE, 3, 0), Numbered([Scalar(Null)]))
  }

  function PongOut(txn: int, counter: nat): Out {
    Out(Text("pong"), 0, false, Head(MEDIUM, 3, Wrap32(0x16 * counter)), [IntSpec(txn), Known(Scalar(Null))])
  }

  function CheckResultOut(txn: int, counter: nat): Out {
    Out(RESULT, 0, false, Head(MEDIUM, 3, Wrap32(0x16 * counter)),
        [IntSpec(txn), Known(Scalar(Null)), IntSpec(counter)])
  }

  /** What a control message is answered with: a ping with its own time, and a buffer that is
      empty or full, if the option is set, by pausing or resuming. */
  function CtrlOuts(pausing: int, body: seq<Byte>, bufferHack: bool): seq<Out> {
    if |body| < 6 then []
    else if Dec16(body) == 6 then [Control(Be16(7) + Be32(Dec32(body[2..])))]
    else if Dec16(body) == 31 && bufferHack && pausing == 0 then [PauseOut(true)]
    else if Dec16(body) == 31 && bufferHack && pausing == 2 then [PauseOut(false)]
    else []
  }

  // ---- The path in a history ----

  predicate HasPath(specs: seq<ArgSpec>, path: seq<Byte>) {
    |specs| >= 3 && specs[1] == Known(Scalar(Null)) && specs[2] == Known(Scalar(Str(path))) && Readable(specs)
  }

  /** Every publish or play of the history is one of this path. */
  ghost predicate Named(log: seq<Event>, path: seq<Byte>) {
    forall i :: 0 <= i < |log| && IsStart(log[i]) ==> NamesPath(log[i], path)
  }

  ghost predicate NamesPath(e: Event, path: seq<Byte>)
    requires e.Sent?
  {
    exists specs: seq<ArgSpec> :: HasPath(specs, path) && Says(e.packet.body, e.call.name, specs)
  }

  lemma NamedNext(log: seq<Event>, e: Event, path: seq<Byte>)
    requires Named(log, path) && (IsStart(e) ==> NamesPath(e, path))
    ensures Named(log + [e], path)
  {
    hide NamesPath, IsStart;
    StartIsSent(e);
    var next := log + [e];
    forall i | 0 <= i < |next| && IsStart(next[i]) ensures next[i].Sent? && NamesPath(next[i], path) {
      StartIsSent(next[i]);
    }
  }

  /** A receiver decodes the body to name, number, null, this path and perhaps more. */
  ghost predicate ReadsPath(body: seq<Byte>, name: seq<Byte>, path: seq<Byte>) {
    exists vs: seq<Value> ::
      |vs| >= 4 && vs[0] == Str(name) && vs[2] == Null && vs[3] == Str(path) &&
      DecodeProps(body, false, false) == Ok(Unnamed(vs), |body|)
  }

  lemma PathIsRead(e: Event, path: seq<Byte>)
    requires IsStart(e) && NamesPath(e, path)
    ensures ReadsPath(e.packet.body, e.call.name, path)
  {
    hide Says, DecodeProps, Readable;
    var specs: seq<ArgSpec> :| HasPath(specs, path) && Says(e.packet.body, e.call.name, specs);
    var vs := InvokeDecodes(e.packet.body, e.call.name, specs);
    assert IsValue(vs[1 + 1], specs[1]) && IsValue(vs[2 + 1], specs[2]);
  }

  lemma StartIsSent(e: Event)
    ensures IsStart(e) ==> e.Sent?
  {
  }

  // ---- What a receiver reads ----

  /** The values a body decodes to, to the last byte: name, number and arguments. */
  ghost predicate Reads(body: seq<Byte>, name: string, args: seq<Value>) {
    exists number: Number ::
      DecodeProps(body, false, false) == Ok(Unnamed([Str(Text(name)), Num(number)] + args), |body|)
  }

  /** The name a call is logged and queued under is the one its receiver reads, and so are the
      arguments, if they are values. */
  lemma ArgsAreRead(e: Event, o: Out, name: string, args: seq<Value>)
    requires o.Out? && IsSent(e, o) && o.name == Text(name) && |name| < 0x1_0000
    requires |o.args| == 1 + |args| && (o.args[0].AnInt? || (o.args[0].Known? && IntNumber(o.args[0].arg)))
    requires forall i :: 0 <= i < |args| ==>
               Encodable(args[i]) && !LooksLikeEnd(args[i]) && o.args[i + 1] == Known(Scalar(args[i]))
    ensures e.packet.packetType == 0x14 && Reads(e.packet.body, name, args)
  {
    hide Says, Carries, DecodeProps, Encodable, LooksLikeEnd, IntNumber;
    if o.args[0].Known? { IntIsRead(o.args[0].arg); }
    PacketIsInvoke(e, o);
    forall i | 0 <= i < |o.args|
      ensures o.args[i].Known? ==>
        o.args[i].arg.Scalar? && Encodable(o.args[i].arg.v) && !LooksLikeEnd(o.args[i].arg.v)
    {
      if i > 0 { assert o.args[i - 1 + 1] == Known(Scalar(args[i - 1])); }
    }
    var vs := InvokeDecodes(e.packet.body, o.name, o.args);
    assert IsValue(vs[1], o.args[0]);
    assert vs == [Str(Text(name)), Num(vs[1].bits)] + args by {
      forall i | 0 <= i < |args| ensures vs[i + 2] == args[i] {
        assert IsValue(vs[i + 1 + 1], o.args[i + 1]);
      }
    }
  }

  predicate IntNumber(a: Arg) {
    a.Scalar? && a.v.Num? && !LooksLikeEnd(a.v)
  }

  lemma IntIsRead(a: Arg)
    requires IntNumber(a)
    ensures a.Scalar? && Encodable(a.v) && !LooksLikeEnd(a.v) && a.v.Num?
  {
  }

  lemma PacketIsInvoke(e: Event, o: Out)
    requires o.Out? && IsSent(e, o)
    ensures e.packet.packetType == 0x14 && Says(e.packet.body, o.name, o.args)
  {
    hide Says;
  }

  /** The argument that tells a live stream from others is no end marker either. */
  lemma StartIsNoEnd(link: Link)
    ensures !LooksLikeEnd(Num(StartOf(link)))
  {
    hide NumberOfInt;
    IntIsNoEnd(if link.seekTime > 0 then link.seekTime else 0);
  }

  /** The answer to createStream makes a publisher send one packet, which its receiver reads as
      publish of the play path, live, on the stream of the answer. */
  lemma PublisherSays(link: Link, id: int, before: Moment, after: Moment)
    requires link.write && SendsAll(before, after, StreamOuts(link, id))
    ensures |after.log| == |before.log| + 1
    ensures var e := after.log[|before.log|];
            e.Sent? && e.queued && e.packet.streamId == Wrap32(id) && e.packet.headerType == LARGE &&
            Reads(e.packet.body, "publish", [Null, Str(link.playpath), Str(Text("live"))])
  {
    hide AllTransmitted, IsSent, Reads, Says;
    var e := after.log[|before.log| + 0];
    assert IsSent(e, StreamOuts(link, id)[0]);
    OutIs(e, PublishOut(link, id));
    ArgsAreRead(e, PublishOut(link, id), "publish", [Null, Str(link.playpath), Str(Text("live"))]);
  }

  lemma OutIs(e: Event, o: Out)
    requires o.Out? && IsSent(e, o)
    ensures e.Sent? && e.queued == o.queued && e.call.name == o.name
    ensures e.packet.headerType == o.head.headerType && e.packet.channel == o.head.channel
    ensures e.packet.timestamp == o.head.timestamp && e.packet.streamId == Wrap32(o.streamId)
  {
    hide Says;
  }

  /** A player sends play of the play path, from the start the options give, without a stop time to
      the end; behind a playlist, if it has one. */
  lemma PlayerSays(link: Link, id: int, before: Moment, after: Moment)
    requires !link.write && link.stopTime == 0 && SendsAll(before, after, StreamOuts(link, id))
    ensures var k := |before.log| + if link.playlist then 1 else 0;
            |after.log| == k + 2 && after.log[k].Sent? && after.log[k].packet.streamId == Wrap32(id) &&
            Reads(after.log[k].packet.body, "play", [Null, Str(link.playpath), Num(StartOf(link))])
    ensures link.live ==> IntOfNumber(StartOf(link)) == -1000
    ensures !link.live ==> IntOfNumber(StartOf(link)) == if link.seekTime > 0 then link.seekTime else 0
  {
    hide AllTransmitted, IsSent, Reads, Says, IntOfNumber, NumberOfInt;
    var i := if link.playlist then 1 else 0;
    var e := after.log[|before.log| + i];
    assert IsSent(e, StreamOuts(link, id)[i]);
    OutIs(e, PlayOut(link, id));
    StartIsNoEnd(link);
    ArgsAreRead(e, PlayOut(link, id), "play", [Null, Str(link.playpath), Num(StartOf(link))]);
    LiveStartIs();
    IntRoundTrip(if link.seekTime > 0 then link.seekTime else 0);
  }

  /** Behind the answer to connect a publisher asks to release and publish its path and to create a
      stream, in this order. */
  lemma PublisherAnnounces(link: Link, serverBW: U32, before: Moment, after: Moment)
    requires link.write && SendsAll(before, after, ConnectOuts(link, serverBW))
    ensures |after.log| == |before.log| + 3
    ensures var e := after.log[|before.log|..];
            (forall i :: 0 <= i < 3 ==> e[i].Sent?) &&
            Reads(e[0].packet.body, "releaseStream", [Null, Str(link.playpath)]) &&
            Reads(e[1].packet.body, "FCPublish", [Null, Str(link.playpath)]) &&
            Reads(e[2].packet.body, "createStream", [Null])
  {
    hide AllTransmitted, IsSent, Reads, Says, Text;
    var outs, n := ConnectOuts(link, serverBW), |before.log|;
    assert IsSent(after.log[n + 0], outs[0]) && IsSent(after.log[n + 1], outs[1]) && IsSent(after.log[n + 2], outs[2]);
    ArgsAreRead(after.log[n], outs[0], "releaseStream", [Null, Str(link.playpath)]);
    ArgsAreRead(after.log[n + 1], outs[1], "FCPublish", [Null, Str(link.playpath)]);
    ArgsAreRead(after.log[n + 2], outs[2], "createStream", [Null]);
    OutIs(after.log[n], outs[0]);
    OutIs(after.log[n + 1], outs[1]);
    OutIs(after.log[n + 2], outs[2]);
  }

  /** A player subscribes under its own path, or, if the stream is live, under the play path. */
  lemma PlayerSubscribes(link: Link, before: Moment, after: Moment)
    requires !link.write && (link.subscribepath != [] || link.live) && SendsAll(before, after, CreateOuts(link))
    ensures |after.log| == |before.log| + 2 && after.log[|before.log| + 1].Sent?
    ensures Reads(after.log[|before.log| + 1].packet.body, "FCSubscribe",
                  [Null, Str(if link.subscribepath != [] then link.subscribepath else link.playpath)])
  {
    hide AllTransmitted, IsSent, Reads, Says, Text;
    var path := if link.subscribepath != [] then link.subscribepath else link.playpath;
    var e := after.log[|before.log| + 1];
    assert IsSent(e, CreateOuts(link)[1]);
    OutIs(e, PathOut(Text("FCSubscribe"), path, true));
    ArgsAreRead(e, PathOut(Text("FCSubscribe"), path, true), "FCSubscribe", [Null, Str(path)]);
  }

  /** A pause message is read with the flag it was sent with, and a time. */
  lemma PauseSays(e: Event, pause: bool)
    requires IsSent(e, PauseOut(pause))
    ensures exists time: Number :: Reads(e.packet.body, "pause", [Null, Bool(pause), Num(time)])
  {
    hide Says, Carries, DecodeProps;
    var o := PauseOut(pause);
    PacketIsInvoke(e, o);
    var vs := InvokeDecodes(e.packet.body, o.name, o.args);
    assert IsValue(vs[1], o.args[0]) && IsValue(vs[2], o.args[1]) && IsValue(vs[3], o.args[2]) &&
           IsValue(vs[4], o.args[3]);
    var args := [Null, Bool(pause), Num(vs[4].bits)];
    assert vs == [Str(Text("pause")), Num(vs[1].bits)] + args;
    assert Reads(e.packet.body, "pause", args);
  }

  /** The answers to ping and _onbwcheck come back with the id they were asked with, as does the number
      of checks so far, and later by 22 ms for each of these. */
  lemma EchoSays(e: Event, txn: nat, counter: nat, check: bool)
    requires txn <= MAX_INT && counter <= MAX_INT
    requires IsSent(e, if check then CheckResultOut(txn, counter) else PongOut(txn, counter))
    ensures e.packet.timestamp == 22 * counter % 0x1_0000_0000
    ensures var vs := [Str(Text(if check then "_result" else "pong")), Num(NumberOfInt(txn)), Null] +
                      if check then [Num(NumberOfInt(counter))] else [];
            DecodeProps(e.packet.body, false, false) == Ok(Unnamed(vs), |e.packet.body|)
  {
    hide Says, Carries, DecodeProps, NumberOfInt, LooksLikeEnd;
    var o := if check then CheckResultOut(txn, counter) else PongOut(txn, counter);
    PacketIsInvoke(e, o);
    OutIs(e, o);
    IntIsNoEnd(txn);
    IntIsNoEnd(counter);
    OnlyNumbers(Null);
    var vs := InvokeDecodes(e.packet.body, o.name, o.args);
    assert IsValue(vs[1], o.args[0]) && IsValue(vs[2], o.args[1]) && (check ==> IsValue(vs[3], o.args[2]));
    assert vs == [Str(Text(if check then "_result" else "pong")), Num(NumberOfInt(txn)), Null] +
                 if check then [Num(NumberOfInt(counter))] else [];
  }

  /** The answer to a secure token carries id 0 and a string. */
  lemma TokenSays(e: Event)
    requires IsSent(e, TokenOuts(true)[0])
    ensures exists token: seq<Byte> ::
              DecodeProps(e.packet.body, false, false) ==
                Ok(Unnamed([Str(Text("secureTokenResponse")), Num([0, 0, 0, 0, 0, 0, 0, 0]), Null, Str(token)]),
                   |e.packet.body|)
  {
    hide Says, Carries, DecodeProps, LooksLikeEnd;
    var o := TokenOuts(true)[0];
    PacketIsInvoke(e, o);
    IntIsNoEnd(0);
    OnlyNumbers(Null);
    var vs := InvokeDecodes(e.packet.body, o.name, o.args);
    assert IsValue(vs[1], o.args[0]) && IsValue(vs[2], o.args[1]) && IsValue(vs[3], o.args[2]);
    assert vs == [Str(Text("secureTokenResponse")), Num([0, 0, 0, 0, 0, 0, 0, 0]), Null, Str(vs[3].s)];
  }

  /** Id 0, null, and an array of which the header is followed by the play path under "0". */
  function PlaylistParts(path: Path): seq<seq<Byte>> {
    [[0, 0, 0, 0, 0, 0, 0, 0, 0], [5], [8, 0, 0, 0, 3], [0, 1, 0x30], StringBytes(path), [0, 0, 9]]
  }

  lemma PlaylistSays(e: Event, link: Link, id: int)
    requires IsSent(e, PlaylistOut(link, id))
    ensures e.packet.body == StringBytes(Text("set_playlist")) + Concat(PlaylistParts(link.playpath))
  {
    hide StringBytes, Carries, Concat, ArgsBytes;
    var o := PlaylistOut(link, id);
    PacketIsInvoke(e, o);
    var args: seq<Arg> :|
      AllSane(args) && AllAre(args, o.args) && e.packet.body == StringBytes(SET_PLAYLIST) + ArgsBytes(args);
    var parts := PlaylistParts(link.playpath);
    assert Be16(1) + Text("0") == [0, 1, 0x30];
    forall i | 0 <= i < |args| ensures parts[i] == ArgBytes(args[i]) {
      assert Is(args[i], o.args[i]);
    }
    ConcatIs(args, parts);
  }

  /** A player announces its window and a buffer of 300 ms, later one of 30 s for its stream. */
  lemma PlayerAnnounces(link: Link, serverBW: U32, id: nat)
    requires !link.write && id < 0x1_0000_0000
    ensures var outs := AnnounceOuts(link, serverBW);
            |outs| == 2 && outs[0].Notice? && outs[0].packetType == 5 && Dec32(outs[0].body + []) == serverBW &&
            outs[1] == Notice(1, 4, [0, 3] + [0, 0, 0, 0] + [0, 0, 1, 44])
    ensures PlayOuts(link, id)[1] == Notice(1, 4, [0, 3] + Be32(id) + [0, 0, 117, 48])
  {
    Dec32Be32(serverBW, []);
    assert Be16(3) == [0, 3] && Be32(0) == [0, 0, 0, 0] && Be32(300) == [0, 0, 1, 44] && Be32(30000) == [0, 0, 117, 48];
  }
}
