/** Where the packets of a history stand on the wire. Between them go the bytes of the handshake,
    acknowledgements, which share channel 2, and what a failed send has got rid of. */
module SessionWire {
  import opened Bytes
  import opened ChunkFormat
  import opened Engine
  import opened SessionLog

  const CONTROL_CHANNEL := 2

  /** What is kept of the last packet that the history has on a channel. */
  function LastOn(log: seq<Event>, c: nat): Option<OutRecord> {
    if log == [] then None
    else
      var e, before := log[|log| - 1], log[..|log| - 1];
      if e.Closed? then None
      else if IsPacket(e) && e.packet.channel == c then Some(RecordOf(e.packet))
      else LastOn(before, c)
  }

  predicate IsPacket(e: Event) { e.Sent? || e.Noticed? }

  function KeptOf(out: map<nat, OutRecord>, c: nat): Option<OutRecord> {
    if c in out then Some(out[c]) else None
  }

  /** The chunks of a packet stand at offset k, with their header compressed against prev. */
  ghost predicate StandsAt(bytes: seq<Byte>, k: nat, q: Packet, prev: Option<OutRecord>) {
    q.headerType <= 3 && q.channel <= 65599 &&
    var e := Emission(prev, q, DEFAULT_CHUNK);
    k + |e| <= |bytes| && bytes[k..k + |e|] == e
  }

  /** Every packet of the history stands whole in the bytes sent, behind those before it, its header
      compressed against the packet before it on its channel. On the control channel that may
      also be an acknowledgement. */
  ghost predicate OnWire(log: seq<Event>, bytes: seq<Byte>) {
    log == [] ||
    var e, before := log[|log| - 1], log[..|log| - 1];
    if IsPacket(e) then
      exists k: nat, prev: Option<OutRecord> ::
        StandsAt(bytes, k, e.packet, prev) && OnWire(before, bytes[..k]) &&
        (e.packet.channel != CONTROL_CHANNEL ==> prev == LastOn(before, e.packet.channel))
    else OnWire(before, bytes)
  }

  ghost predicate Delivered(m: Moment) {
    OnWire(m.log, m.sent) && forall c: nat :: c != CONTROL_CHANNEL ==> KeptOf(m.out, c) == LastOn(m.log, c)
  }

  lemma {:induction false} OnMore(log: seq<Event>, bytes: seq<Byte>, more: seq<Byte>)
    requires OnWire(log, bytes) && bytes <= more
    ensures OnWire(log, more)
    decreases |log|
  {
    hide Emission, LastOn;
    if log != [] {
      var e, before := log[|log| - 1], log[..|log| - 1];
      if IsPacket(e) {
        var k: nat, prev: Option<OutRecord> :|
          StandsAt(bytes, k, e.packet, prev) && OnWire(before, bytes[..k]) &&
          (e.packet.channel != CONTROL_CHANNEL ==> prev == LastOn(before, e.packet.channel));
        StillStands(bytes, more, k, e.packet, prev);
        assert more[..k] == bytes[..k];
      } else {
        OnMore(before, bytes, more);
      }
    }
  }

  lemma StillStands(bytes: seq<Byte>, more: seq<Byte>, k: nat, q: Packet, prev: Option<OutRecord>)
    requires StandsAt(bytes, k, q, prev) && bytes <= more
    ensures StandsAt(more, k, q, prev)
  {
    hide Emission;
    var n := |Emission(prev, q, DEFAULT_CHUNK)|;
    SameBytes(bytes, more, k, k + n);
  }

  /** Bytes that belong to no packet of the history, and acknowledgements, change nothing. */
  lemma DeliveredStill(m: Moment, out: map<nat, OutRecord>, sent: seq<Byte>)
    requires Delivered(m) && m.sent <= sent && out - {CONTROL_CHANNEL} == m.out - {CONTROL_CHANNEL}
    ensures Delivered(Moment(m.log, out, sent))
  {
    hide OnWire, LastOn;
    OnMore(m.log, m.sent, sent);
    forall c: nat | c != CONTROL_CHANNEL ensures KeptOf(out, c) == KeptOf(m.out, c) {
      assert c in out <==> c in out - {CONTROL_CHANNEL};
      assert c in m.out <==> c in m.out - {CONTROL_CHANNEL};
      if c in out { assert (out - {CONTROL_CHANNEL})[c] == (m.out - {CONTROL_CHANNEL})[c]; }
    }
  }

  lemma DeliveredNext(m: Moment, e: Event)
    requires Delivered(m) && IsPacket(e) && e.packet.headerType <= 3 && e.packet.channel <= 65599
    ensures Delivered(Transmitted(m, e.packet).(log := m.log + [e]))
  {
    hide Emission;
    var q, log, prev := e.packet, m.log + [e], KeptOf(m.out, e.packet.channel);
    var bytes := m.sent + Emission(prev, q, DEFAULT_CHUNK);
    WaitingOfNext(m.log, e);
    DropPrefix(m.sent, Emission(prev, q, DEFAULT_CHUNK));
    assert bytes[..|m.sent|] == m.sent && StandsAt(bytes, |m.sent|, q, prev);
    var out := m.out[q.channel := RecordOf(q)];
    forall c: nat | c != CONTROL_CHANNEL ensures KeptOf(out, c) == LastOn(log, c) {
      assert KeptOf(m.out, c) == LastOn(m.log, c);
    }
    assert Transmitted(m, q).(log := log) == Moment(log, out, bytes);
  }

  lemma DeliveredMatch(m: Moment, e: Event)
    requires Delivered(m) && (e.Matched? || e.Erased?)
    ensures Delivered(m.(log := m.log + [e]))
  {
    WaitingOfNext(m.log, e);
  }

  lemma DeliveredClosed(m: Moment, sent: seq<Byte>)
    requires Delivered(m) && m.sent <= sent
    ensures Delivered(Moment(m.log + [Closed], map[], sent))
  {
    WaitingOfNext(m.log, Closed);
    OnMore(m.log, m.sent, sent);
  }

  /** For any two packets of the history: both stand on the wire, the later one behind the end
      of the earlier one. */
  lemma {:induction false} InTurn(log: seq<Event>, bytes: seq<Byte>, i: nat, j: nat)
    returns (k: nat, prev: Option<OutRecord>, l: nat, last: Option<OutRecord>)
    requires OnWire(log, bytes) && i < j < |log| && IsPacket(log[i]) && IsPacket(log[j])
    ensures StandsAt(bytes, k, log[i].packet, prev) && StandsAt(bytes, l, log[j].packet, last)
    ensures k + |Emission(prev, log[i].packet, DEFAULT_CHUNK)| <= l
    ensures log[j].packet.channel != CONTROL_CHANNEL ==> last == LastOn(log[..j], log[j].packet.channel)
    decreases |log|
  {
    hide Emission, LastOn;
    var e, before := log[|log| - 1], log[..|log| - 1];
    if j < |log| - 1 {
      var shorter := bytes;
      if IsPacket(e) {
        var n: nat, p: Option<OutRecord> :| StandsAt(bytes, n, e.packet, p) && OnWire(before, bytes[..n]);
        shorter := bytes[..n];
      }
      k, prev, l, last := InTurn(before, shorter, i, j);
      StillStands(shorter, bytes, k, log[i].packet, prev);
      StillStands(shorter, bytes, l, log[j].packet, last);
      assert before[..j] == log[..j];
    } else {
      l, last :| StandsAt(bytes, l, e.packet, last) && OnWire(before, bytes[..l]) &&
        (e.packet.channel != CONTROL_CHANNEL ==> last == LastOn(before, e.packet.channel));
      k, prev := Stands(before, bytes[..l], i);
      StillStands(bytes[..l], bytes, k, log[i].packet, prev);
    }
  }

  lemma {:induction false} Stands(log: seq<Event>, bytes: seq<Byte>, i: nat) returns (k: nat, prev: Option<OutRecord>)
    requires OnWire(log, bytes) && i < |log| && IsPacket(log[i])
    ensures StandsAt(bytes, k, log[i].packet, prev)
    ensures log[i].packet.channel != CONTROL_CHANNEL ==> prev == LastOn(log[..i], log[i].packet.channel)
    decreases |log|
  {
    hide Emission, LastOn;
    var e, before := log[|log| - 1], log[..|log| - 1];
    if IsPacket(e) {
      k, prev :| StandsAt(bytes, k, e.packet, prev) && OnWire(before, bytes[..k]) &&
        (e.packet.channel != CONTROL_CHANNEL ==> prev == LastOn(before, e.packet.channel));
      if i < |log| - 1 {
        var end := k;
        k, prev := Stands(before, bytes[..end], i);
        StillStands(bytes[..end], bytes, k, log[i].packet, prev);
        assert before[..i] == log[..i];
      }
    } else {
      k, prev := Stands(before, bytes, i);
      assert before[..i] == log[..i];
    }
  }
}
