/** The history of a session: invokes sent, answers matched to them, table entries dropped.
    What the call table holds and in which order a stream is set up are facts about it. */
module SessionLog {
  import opened Bytes
  import opened CallTable
  import opened ChunkFormat
  import opened Engine
  import opened Amf0
  import opened InvokeArgs

  const CONNECT := Text("connect")
  const CREATE_STREAM := Text("createStream")
  const PUBLISH := Text("publish")
  const PLAY := Text("play")
  const SET_PLAYLIST := Text("set_playlist")
  const CHECK_BW := Text("_checkbw")

  /** Names whose sending is restricted by the protocol order. */
  predicate Ordinary(name: seq<Byte>) {
    name != CREATE_STREAM && name != PUBLISH && name != PLAY
  }

  /** Two names differ when their lengths or some characters do. */
  lemma OrdinaryName(name: seq<Byte>)
    requires |name| == 12 ==> name[0] != 'c' as int
    requires |name| == 7 ==> name[0] != 'p' as int
    requires |name| == 4 ==> name[1] != 'l' as int
    ensures Ordinary(name)
  {
    assert CREATE_STREAM[0] == 'c' as int && PUBLISH[0] == 'p' as int && PLAY[1] == 'l' as int;
  }

  datatype Event =
    | Sent(call: Call, streamId: int, queued: bool, packet: Packet)  // an invoke left through RTMP_SendPacket
    | Noticed(packet: Packet)                        // another packet left
    | Matched(call: Call, number: int)               // a _result removed its call; number is its 4th value
    | Erased(call: Call)                             // another answer removed a call by name
    | Closed                                         // RTMP_Close

  function RemoveFirst(w: seq<Call>, c: Call): seq<Call> {
    if w == [] then [] else if w[0] == c then w[1..] else [w[0]] + RemoveFirst(w[1..], c)
  }

  /** The calls a history leaves unanswered, in the order they were sent. */
  function Waiting(log: seq<Event>): seq<Call> {
    if log == [] then []
    else
      var w := Waiting(log[..|log| - 1]);
      match log[|log| - 1]
      case Sent(c, _, queued, _) => if queued then w + [c] else w
      case Noticed(_) => w
      case Matched(c, _) => RemoveFirst(w, c)
      case Erased(c) => RemoveFirst(w, c)
      case Closed => []
  }

  /** Nonzero transaction ids grow strictly and stay within the number of invokes made. */
  ghost predicate Increasing(w: seq<Call>, n: nat) {
    (forall i :: 0 <= i < |w| ==> 0 <= w[i].txn <= n) &&
    forall i, j :: 0 <= i < j < |w| && w[i].txn != 0 && w[j].txn != 0 ==> w[i].txn < w[j].txn
  }

  // ---- Protocol order ----

  ghost predicate WasSent(log: seq<Event>, i: nat, c: Call) {
    i < |log| && log[i].Sent? && log[i].call == c && log[i].queued
  }

  ghost predicate WasMatched(log: seq<Event>, i: nat, name: seq<Byte>) {
    i < |log| && log[i].Matched? && log[i].call.name == name
  }

  ghost predicate GaveStream(log: seq<Event>, i: nat, id: int) {
    WasMatched(log, i, CREATE_STREAM) && log[i].number == id
  }

  /** The packet is an invoke of this call on this stream. */
  predicate Carries(q: Packet, c: Call, streamId: int) {
    q.packetType == INVOKE && HasCall(q.body) && CallOf(q.body) == c && q.streamId == Wrap32(streamId)
  }

  ghost predicate EventInOrder(log: seq<Event>, i: nat)
    requires i < |log|
  {
    match log[i]
    case Matched(c, _) => exists j: nat :: j < i && WasSent(log, j, c)
    case Noticed(q) => q.packetType != INVOKE
    case Sent(c, id, _, q) =>
      Carries(q, c, id) &&
      (c.name == CREATE_STREAM ==> exists j: nat :: j < i && WasMatched(log, j, CONNECT)) &&
      (c.name == PUBLISH || c.name == PLAY ==> exists j: nat :: j < i && GaveStream(log, j, id))
    case _ => true
  }

  ghost predicate InOrder(log: seq<Event>) {
    forall i: nat :: i < |log| ==> EventInOrder(log, i)
  }

  lemma {:induction false} RemoveFirstIs(w: seq<Call>, i: nat)
    requires i < |w| && forall k :: 0 <= k < i ==> w[k] != w[i]
    ensures RemoveFirst(w, w[i]) == Without(w, i)
  {
    if i > 0 {
      RemoveFirstIs(w[1..], i - 1);
    }
  }

  lemma {:induction false} RemoveFirstKeeps(w: seq<Call>, c: Call, d: Call)
    requires d in RemoveFirst(w, c)
    ensures d in w
  {
    if w != [] && w[0] != c && d != w[0] {
      RemoveFirstKeeps(w[1..], c, d);
    }
  }

  /** Every waiting call was sent and queued. */
  lemma {:induction false} WaitingWasSent(log: seq<Event>, c: Call)
    requires c in Waiting(log)
    ensures exists j: nat :: WasSent(log, j, c)
  {
    var n := |log| - 1;
    var before := log[..n];
    if log[n].Sent? && log[n].queued && log[n].call == c {
      assert WasSent(log, n, c);
    } else {
      if log[n].Matched? || log[n].Erased? {
        RemoveFirstKeeps(Waiting(before), log[n].call, c);
      }
      WaitingWasSent(before, c);
      var j: nat :| WasSent(before, j, c);
      assert WasSent(log, j, c);
    }
  }

  lemma EarlierOrderStays(log: seq<Event>, e: Event)
    requires InOrder(log)
    requires EventInOrder(log + [e], |log|)
    ensures InOrder(log + [e])
  {
    var next := log + [e];
    forall i: nat | i < |log| ensures EventInOrder(next, i) {
      assert EventInOrder(log, i);
      match log[i] {
        case Matched(c, _) =>
          var j: nat :| j < i && WasSent(log, j, c);
          assert WasSent(next, j, c);
        case Sent(c, id, _, _) =>
          if c.name == CREATE_STREAM {
            var j: nat :| j < i && WasMatched(log, j, CONNECT);
            assert WasMatched(next, j, CONNECT);
          }
          if c.name == PUBLISH || c.name == PLAY {
            var j: nat :| j < i && GaveStream(log, j, id);
            assert GaveStream(next, j, id);
          }
        case _ =>
      }
    }
  }

  // ---- The invariant and what keeps it ----

  ghost predicate Consistent(log: seq<Event>, w: seq<Call>, n: nat) {
    w == Waiting(log) && Increasing(w, n) && InOrder(log)
  }

  lemma WaitingOfNext(log: seq<Event>, e: Event)
    ensures (log + [e])[..|log|] == log && (log + [e])[|log|] == e
  {
  }

  /** The order in which a name may be sent. */
  ghost predicate MaySend(log: seq<Event>, name: seq<Byte>, id: int) {
    (name == CREATE_STREAM ==> exists j: nat :: WasMatched(log, j, CONNECT)) &&
    (name == PUBLISH || name == PLAY ==> exists j: nat :: GaveStream(log, j, id))
  }

  lemma MaySendLater(log: seq<Event>, later: seq<Event>, name: seq<Byte>, id: int)
    requires MaySend(log, name, id) && log <= later
    ensures MaySend(later, name, id)
  {
    if name == CREATE_STREAM {
      var j: nat :| WasMatched(log, j, CONNECT);
      assert WasMatched(later, j, CONNECT);
    }
    if name == PUBLISH || name == PLAY {
      var j: nat :| GaveStream(log, j, id);
      assert GaveStream(later, j, id);
    }
  }

  lemma AfterSent(log: seq<Event>, w: seq<Call>, n: nat, c: Call, id: int, queued: bool, q: Packet, m: nat)
    requires Consistent(log, w, n) && MaySend(log, c.name, id) && Carries(q, c, id) && n <= m
    requires queued ==> c.txn == 0 || n < c.txn <= m
    ensures Consistent(log + [Sent(c, id, queued, q)], if queued then w + [c] else w, m)
  {
    hide InOrder, Carries;
    var e := Sent(c, id, queued, q);
    WaitingOfNext(log, e);
    var next := log + [e];
    if c.name == CREATE_STREAM {
      var j: nat :| WasMatched(log, j, CONNECT);
      assert WasMatched(next, j, CONNECT);
    }
    if c.name == PUBLISH || c.name == PLAY {
      var j: nat :| GaveStream(log, j, id);
      assert GaveStream(next, j, id);
    }
    EarlierOrderStays(log, e);
  }

  lemma AfterNotice(log: seq<Event>, w: seq<Call>, n: nat, q: Packet)
    requires Consistent(log, w, n) && q.packetType != INVOKE
    ensures Consistent(log + [Noticed(q)], w, n)
  {
    hide InOrder;
    WaitingOfNext(log, Noticed(q));
    EarlierOrderStays(log, Noticed(q));
  }

  lemma {:induction false} IncreasingWithout(w: seq<Call>, n: nat, i: nat)
    requires Increasing(w, n) && i < |w|
    ensures Increasing(Without(w, i), n)
  {
    var v := Without(w, i);
    forall a, b | 0 <= a < b < |v| && v[a].txn != 0 && v[b].txn != 0 ensures v[a].txn < v[b].txn {
      assert v[a] == w[if a < i then a else a + 1] && v[b] == w[if b < i then b else b + 1];
    }
  }

  lemma AfterMatched(log: seq<Event>, w: seq<Call>, n: nat, i: nat, number: int)
    requires Consistent(log, w, n) && i < |w| && forall k :: 0 <= k < i ==> w[k] != w[i]
    ensures Consistent(log + [Matched(w[i], number)], Without(w, i), n)
  {
    var e := Matched(w[i], number);
    WaitingOfNext(log, e);
    RemoveFirstIs(w, i);
    IncreasingWithout(w, n, i);
    WaitingWasSent(log, w[i]);
    var j: nat :| WasSent(log, j, w[i]);
    assert WasSent(log + [e], j, w[i]);
    EarlierOrderStays(log, e);
  }

  lemma AfterErased(log: seq<Event>, w: seq<Call>, n: nat, i: nat)
    requires Consistent(log, w, n) && i < |w| && forall k :: 0 <= k < i ==> w[k] != w[i]
    ensures Consistent(log + [Erased(w[i])], Without(w, i), n)
  {
    WaitingOfNext(log, Erased(w[i]));
    RemoveFirstIs(w, i);
    IncreasingWithout(w, n, i);
    EarlierOrderStays(log, Erased(w[i]));
  }

  lemma AfterClosed(log: seq<Event>, w: seq<Call>, n: nat)
    requires Consistent(log, w, n)
    ensures Consistent(log + [Closed], [], 0)
  {
    WaitingOfNext(log, Closed);
    EarlierOrderStays(log, Closed);
  }

  // ---- What an operation adds to the history and puts on the wire ----

  /** The part of a packet's header that its sender chooses. */
  datatype Head = Head(headerType: nat, channel: nat, timestamp: U32)

  /** What an operation sends: an invoke with its arguments, or another packet on channel 2. */
  datatype Out =
    | Out(name: seq<Byte>, streamId: int, queued: bool, head: Head, args: seq<ArgSpec>)
    | Notice(headerType: nat, packetType: Byte, body: seq<Byte>)

  predicate HasHead(q: Packet, h: Head) {
    q.headerType == h.headerType && q.channel == h.channel && q.timestamp == h.timestamp
  }

  ghost predicate IsSent(e: Event, o: Out) {
    match o
    case Out(name, id, queued, head, args) =>
      e.Sent? && e.call.name == name && e.streamId == id && e.queued == queued && HasHead(e.packet, head) &&
      Carries(e.packet, e.call, id) && Says(e.packet.body, name, args)
    case Notice(headerType, packetType, body) =>
      e.Noticed? && e.packet == Packet(headerType, packetType, 2, 0, 0, body)
  }

  /** The history, what is kept of the last packet of every channel, and the bytes sent. */
  datatype Moment = Moment(log: seq<Event>, out: map<nat, OutRecord>, sent: seq<Byte>)

  /** The chunks of a packet go out, with a header compressed against its channel's last one. */
  function Transmitted(m: Moment, q: Packet): Moment {
    var prev := if q.channel in m.out then Some(m.out[q.channel]) else None;
    var bytes := if q.headerType <= 3 && q.channel <= 65599 then Emission(prev, q, DEFAULT_CHUNK) else [];
    m.(out := m.out[q.channel := RecordOf(q)], sent := m.sent + bytes)
  }

  function Stepped(m: Moment, e: Event): Moment {
    if e.Sent? || e.Noticed? then Transmitted(m, e.packet) else m
  }

  function AllTransmitted(m: Moment, events: seq<Event>): Moment
    decreases |events|
  {
    if events == [] then m else AllTransmitted(Stepped(m, events[0]), events[1..])
  }

  /** From one moment to another, exactly these packets have been sent: the history has grown by
      them, and the wire has got the bytes RTMP_SendPacket emits for them, and nothing else. */
  ghost predicate SendsAll(before: Moment, after: Moment, outs: seq<Out>) {
    |after.log| == |before.log| + |outs| && before.log <= after.log &&
    (forall i :: 0 <= i < |outs| ==> IsSent(after.log[|before.log| + i], outs[i])) &&
    after == AllTransmitted(before, after.log[|before.log|..]).(log := after.log)
  }

  lemma SendsNothing(m: Moment)
    ensures SendsAll(m, m, [])
  {
  }

  lemma SendsOne(m: Moment, e: Event, o: Out)
    requires IsSent(e, o)
    ensures SendsAll(m, Transmitted(m, e.packet).(log := m.log + [e]), [o])
  {
    hide Transmitted, Carries;
    assert (m.log + [e])[|m.log|..] == [e] && [e][1..] == [];
    assert AllTransmitted(m, [e]) == Transmitted(m, e.packet);
  }

  /** What is transmitted does not depend on the history. */
  lemma {:induction false} LogAside(m: Moment, events: seq<Event>, log: seq<Event>)
    ensures AllTransmitted(m.(log := log), events) == AllTransmitted(m, events).(log := log)
    decreases |events|
  {
    hide Emission;
    if events != [] {
      LogAside(Stepped(m, events[0]), events[1..], log);
      assert Stepped(m.(log := log), events[0]) == Stepped(m, events[0]).(log := log);
    }
  }

  lemma {:induction false} TransmittedInTurn(m: Moment, xs: seq<Event>, ys: seq<Event>)
    ensures AllTransmitted(AllTransmitted(m, xs), ys) == AllTransmitted(m, xs + ys)
    decreases |xs|
  {
    hide Stepped;
    if xs == [] {
      assert [] + ys == ys;
    } else {
      TransmittedInTurn(Stepped(m, xs[0]), xs[1..], ys);
      assert (xs + ys)[1..] == xs[1..] + ys;
    }
  }

  lemma SendsMore(a: Moment, b: Moment, c: Moment, xs: seq<Out>, ys: seq<Out>)
    requires SendsAll(a, b, xs) && SendsAll(b, c, ys)
    ensures SendsAll(a, c, xs + ys)
  {
    hide AllTransmitted, IsSent;
    forall i | 0 <= i < |xs + ys| ensures IsSent(c.log[|a.log| + i], (xs + ys)[i]) {
      if i < |xs| {
        assert IsSent(b.log[|a.log| + i], xs[i]);
      } else {
        assert IsSent(c.log[|b.log| + (i - |xs|)], ys[i - |xs|]);
      }
    }
    var first, second := b.log[|a.log|..], c.log[|b.log|..];
    assert c.log[|a.log|..] == first + second;
    TransmittedInTurn(a, first, second);
    LogAside(AllTransmitted(a, first), second, b.log);
  }

  lemma SendsBoth(a: Moment, b: Moment, c: Moment, x: Out, y: Out)
    requires SendsAll(a, b, [x]) && SendsAll(b, c, [y])
    ensures SendsAll(a, c, [x, y]) && SendsAll(a, c, [x] + [y])
  {
    hide SendsAll;
    SendsMore(a, b, c, [x], [y]);
    assert [x] + [y] == [x, y];
  }

  /** Less may be said of the arguments. */
  lemma Weaker(before: Moment, after: Moment, o: Out, args: seq<ArgSpec>)
    requires o.Out? && SendsAll(before, after, [o]) && |args| == |o.args|
    requires forall i :: 0 <= i < |args| ==> args[i] == o.args[i] || (o.args[i].Known? && Is(o.args[i].arg, args[i]))
    ensures SendsAll(before, after, [o.(args := args)])
  {
    hide AllTransmitted, Carries, Says;
    var e := after.log[|before.log| + 0];
    assert IsSent(e, [o][0]);
    WeakerSays(e.packet.body, o.name, o.args, args);
    assert IsSent(e, o.(args := args));
  }

  lemma WeakerSays(body: seq<Byte>, name: seq<Byte>, strong: seq<ArgSpec>, weak: seq<ArgSpec>)
    requires Says(body, name, strong) && |weak| == |strong|
    requires forall i :: 0 <= i < |weak| ==> weak[i] == strong[i] || (strong[i].Known? && Is(strong[i].arg, weak[i]))
    ensures Says(body, name, weak)
  {
    hide ArgsBytes, StringBytes;
    var args: seq<Arg> :|
      AllSane(args) && AllAre(args, strong) && body == StringBytes(name) + ArgsBytes(args);
    assert AllAre(args, weak);
  }

  lemma SentLast(before: Moment, after: Moment, o: Out)
    requires SendsAll(before, after, [o])
    ensures |after.log| == |before.log| + 1 && IsSent(after.log[|before.log|], o)
    ensures before.sent <= after.sent
  {
    hide IsSent, AllTransmitted;
    assert IsSent(after.log[|before.log| + 0], [o][0]);
    OnlyMore(before, after.log[|before.log|..]);
  }

  lemma {:induction false} OnlyMore(m: Moment, events: seq<Event>)
    ensures m.sent <= AllTransmitted(m, events).sent
    decreases |events|
  {
    hide Emission;
    if events != [] {
      OnlyMore(Stepped(m, events[0]), events[1..]);
    }
  }

  /** A _result with a nonzero id concerns at most one waiting call. */
  lemma OneCallPerId(w: seq<Call>, n: nat, i: nat, j: nat)
    requires Increasing(w, n) && i < |w| && j < |w| && w[i].txn == w[j].txn != 0
    ensures i == j
  {
  }

  /** The set-up of a stream over a whole history: publish or play is preceded by the match of a
      createStream call that gave its stream id, that call by the match of a connect call,
      and each match by the sending of its own call. The packet carries that stream id. */
  lemma StreamSetUp(log: seq<Event>, i: nat) returns (connect: nat, connected: nat, create: nat, created: nat)
    requires InOrder(log) && i < |log| && IsStart(log[i])
    ensures SetUp(log, i, connect, connected, create, created)
  {
    hide Carries;
    assert EventInOrder(log, i);
    created :| created < i && GaveStream(log, created, log[i].streamId);
    assert EventInOrder(log, created);
    create :| create < created && WasSent(log, create, log[created].call);
    assert EventInOrder(log, create);
    connected :| connected < create && WasMatched(log, connected, CONNECT);
    assert EventInOrder(log, connected);
    connect :| connect < connected && WasSent(log, connect, log[connected].call);
    assert EventInOrder(log, connect);
  }

  predicate IsStart(e: Event) {
    e.Sent? && (e.call.name == PUBLISH || e.call.name == PLAY)
  }

  /** connect sent, connect answered, createStream sent, createStream answered, in this order
      before event i, whose packet goes out on the stream of that answer. */
  ghost predicate SetUp(log: seq<Event>, i: nat, connect: nat, connected: nat, create: nat, created: nat) {
    connect < connected < create < created < i < |log| &&
    log[connect].Sent? && log[connect].queued &&
      Carries(log[connect].packet, log[connect].call, log[connect].streamId) &&
    log[connect].call.name == CONNECT &&
    log[connected].Matched? && log[connected].call == log[connect].call &&
    log[create].Sent? && log[create].queued && Carries(log[create].packet, log[create].call, log[create].streamId) &&
    log[create].call.name == CREATE_STREAM &&
    log[created].Matched? && log[created].call == log[create].call &&
    log[i].Sent? && Carries(log[i].packet, log[i].call, log[created].number)
  }

  /** Every publish or play of the history was set up. */
  ghost predicate AllSetUp(log: seq<Event>) {
    forall i :: 0 <= i < |log| && IsStart(log[i]) ==>
      exists connect: nat, connected: nat, create: nat, created: nat ::
        SetUp(log, i, connect, connected, create, created)
  }

  lemma OrderSetsUp(log: seq<Event>)
    requires InOrder(log)
    ensures AllSetUp(log)
  {
    forall i | 0 <= i < |log| && IsStart(log[i])
      ensures exists connect: nat, connected: nat, create: nat, created: nat ::
                SetUp(log, i, connect, connected, create, created)
    {
      var connect, connected, create, created := StreamSetUp(log, i);
    }
  }
}
