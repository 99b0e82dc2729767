/** When the receiver's rebuilt timestamps are the sender's. They are for LARGE, MEDIUM and
    SMALL headers, extended or not. A MINIMUM header that starts a message makes the receiver
    add the last field sent again, so it is right exactly when that field is the difference. */
module ChunkTimestamps {
  import opened Bytes
  import opened ChunkFormat
  import opened ChunkReceive
  import opened ChunkRoundTrip

  /** The receiver's clock stands at the timestamp last sent. */
  predicate InSync(track: Track) {
    track.prev.Some? ==> track.clock == track.prev.value.timestamp
  }

  /** The guard: no MINIMUM header, or the last timestamp field is still the right one. */
  predicate FieldStands(track: Track, p: Packet) {
    Compress(track.prev, p) == MINIMUM ==> track.field == Delta(track.prev, p)
  }

  lemma WrapShift(a: U32, b: U32, c: U32)
    ensures Wrap32(c + b) == a <==> c == Wrap32(a - b)
  {
    if a >= b {
      assert Wrap32(a - b) == a - b;
    } else {
      assert Wrap32(a - b) == a - b + 0x1_0000_0000;
    }
    if c + b >= 0x1_0000_0000 {
      assert Wrap32(c + b) == c + b - 0x1_0000_0000;
    }
  }

  /** One message: the receiver's timestamp is the sender's exactly when the guard holds. */
  lemma TimestampExact(track: Track, p: Packet, c: nat)
    requires Sendable(track, p, c) && InSync(track)
    ensures ReceivedTime(track, p) == p.timestamp <==> FieldStands(track, p)
    ensures FieldStands(track, p) <==> InSync(After(track, p))
  {
    if p.headerType != LARGE {
      WrapShift(p.timestamp, track.prev.value.timestamp, FieldFor(track, p));
    }
  }

  /** The header RTMP_SendPacket compresses to MINIMUM by itself has difference zero, so there
      the guard says that the last field sent on the channel was zero. */
  lemma CompressedMinimum(track: Track, p: Packet)
    requires p.headerType < MINIMUM && Compress(track.prev, p) == MINIMUM
    ensures FieldStands(track, p) <==> track.field == 0
  {
    assert Delta(track.prev, p) == 0;
  }

  predicate AllFieldsStand(track: Track, todo: seq<Packet>)
    decreases |todo|
  {
    todo == [] || (FieldStands(track, todo[0]) && AllFieldsStand(After(track, todo[0]), todo[1..]))
  }

  predicate SameTimes(ms: seq<Message>, ps: seq<Packet>) {
    |ms| == |ps| && forall i :: 0 <= i < |ps| ==> ms[i].timestamp == ps[i].timestamp
  }

  /** A whole channel: every delivered timestamp is the one sent exactly when every MINIMUM
      header that starts a message repeats a field that is still right. */
  lemma {:induction false} TimestampsOverARun(track: Track, todo: seq<Packet>, c: nat)
    requires AllSendable(track, todo, c) && InSync(track)
    ensures SameTimes(Expected(track, todo), todo) <==> AllFieldsStand(track, todo)
    decreases |todo|
  {
    if todo != [] {
      var p := todo[0];
      TimestampExact(track, p, c);
      var rest := Expected(After(track, p), todo[1..]);
      var all := Expected(track, todo);
      assert all == [Delivered(track, p)] + rest;
      if FieldStands(track, p) {
        TimestampsOverARun(After(track, p), todo[1..], c);
        if SameTimes(rest, todo[1..]) {
          assert forall i :: 0 < i < |todo| ==> all[i] == rest[i - 1] && todo[i] == todo[1..][i - 1];
        }
        if SameTimes(all, todo) {
          assert forall i :: 0 <= i < |rest| ==> rest[i] == all[i + 1] && todo[1..][i] == todo[i + 1];
        }
      } else {
        assert all[0].timestamp != todo[0].timestamp;
      }
    }
  }

  /** The discrepancy is real: two equal packets at time 1000, the second one offered with a
      MEDIUM header, arrive with timestamps 1000 and 2000. */
  lemma RepeatedTimestampDoubles(body: seq<Byte>, clock: U32)
    requires |body| < 0x100_0000
    ensures var p := Packet(LARGE, 9, 4, 1000, 1, body);
            var q := p.(headerType := MEDIUM);
            AllSendable(Fresh(clock), [p, q], 4) && !AllFieldsStand(Fresh(clock), [p, q]) &&
            Expected(Fresh(clock), [p, q]) == [Message(4, 9, 1, 1000, body), Message(4, 9, 1, 2000, body)]
  {
    var p := Packet(LARGE, 9, 4, 1000, 1, body);
    var q := p.(headerType := MEDIUM);
    var track := After(Fresh(clock), p);
    assert Compress(track.prev, q) == MINIMUM;
    assert [p, q][1..] == [q];
    assert [q][1..] == [];
    assert AllSendable(After(track, q), [], 4);
    assert Expected(track, [q]) == [Delivered(track, q)] + Expected(After(track, q), []);
  }
}
