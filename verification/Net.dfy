/** The peer as the socket calls see it, and packets in memory. */
module Net {
  import opened Bytes
  import opened ChunkFormat

  datatype RecvResult = Got(n: nat) | Interrupted | WouldBlock | Failed

  /** A connected socket: the bytes still to arrive and the bytes sent. Every call may move any
      number of bytes up to what is asked for; EINTR happens finitely often. */
  class Socket {
    var open: bool
    var incoming: seq<Byte>
    var outgoing: seq<Byte>
    var interrupts: nat

    constructor (stream: seq<Byte>, interrupts: nat)
      ensures open && incoming == stream && outgoing == []
    {
      open, incoming, outgoing, this.interrupts := true, stream, [], interrupts;
    }

    method Recv(dst: array<Byte>, at: nat, len: nat) returns (res: RecvResult)
      requires at + len <= dst.Length
      modifies this`incoming, this`interrupts, dst
      ensures res.Got? ==> res.n <= len && old(incoming) == dst[at..at + res.n] + incoming
      ensures !res.Got? ==> incoming == old(incoming)
      ensures forall k :: 0 <= k < dst.Length && (k < at || !res.Got?) ==> dst[k] == old(dst[k])
      ensures if res.Interrupted? then interrupts < old(interrupts) else interrupts == old(interrupts)
      ensures !open ==> res.Failed?
    {
      if !open { return Failed; }
      if * { return Failed; }
      if * { return WouldBlock; }
      if * {
        if interrupts > 0 {
          interrupts := interrupts - 1;
          return Interrupted;
        }
      }
      var n: nat :| n <= len && n <= |incoming|;
      Put(dst, at, incoming[..n]);
      incoming := incoming[n..];
      return Got(n);
    }

    method Send(bytes: seq<Byte>) returns (res: RecvResult)
      modifies this`outgoing, this`interrupts
      ensures !res.WouldBlock?
      ensures res.Got? ==> res.n <= |bytes| && outgoing == old(outgoing) + bytes[..res.n]
      ensures !res.Got? ==> outgoing == old(outgoing)
      ensures if res.Interrupted? then interrupts < old(interrupts) else interrupts == old(interrupts)
      ensures !open ==> res.Failed?
    {
      if !open { return Failed; }
      if * { return Failed; }
      if * {
        if interrupts > 0 {
          interrupts := interrupts - 1;
          return Interrupted;
        }
      }
      var n: nat :| n <= |bytes|;
      outgoing := outgoing + bytes[..n];
      return Got(n);
    }
  }

  const HEADROOM := 18  // RTMP_MAX_HEADER_SIZE

  /** An RTMPPacket to be sent. The body lies in `mem` behind the header room that
      RTMPPacket_Alloc and the senders reserve; mem is null for a NULL body. */
  class OutPacket {
    var headerType: nat
    var packetType: Byte
    var channel: nat
    var timestamp: U32
    var streamId: U32
    var bodySize: nat
    var mem: array?<Byte>

    constructor (headerType: nat, packetType: Byte, channel: nat, timestamp: U32, streamId: U32,
                 bodySize: nat, mem: array?<Byte>)
      requires channel <= 65599
      requires if mem == null then bodySize == 0 else HEADROOM + bodySize <= mem.Length
      ensures Valid() && this.mem == mem
      ensures this.headerType == headerType && this.packetType == packetType && this.channel == channel
      ensures this.timestamp == timestamp && this.streamId == streamId && this.bodySize == bodySize
    {
      this.headerType, this.packetType, this.channel := headerType, packetType, channel;
      this.timestamp, this.streamId, this.bodySize, this.mem := timestamp, streamId, bodySize, mem;
    }

    ghost predicate Valid()
      reads this
    {
      channel <= 65599 && if mem == null then bodySize == 0 else HEADROOM + bodySize <= mem.Length
    }

    ghost function Footprint(): set<object>
      reads this
    {
      if mem == null then {this} else {this, mem}
    }

    ghost function Value(): Packet
      requires Valid()
      reads this, Footprint()
    {
      Packet(headerType, packetType, channel, timestamp, streamId,
             if mem == null then [] else mem[HEADROOM..HEADROOM + bodySize])
    }
  }

  /** A control packet on channel 2, whose body lies behind the header room of a local buffer. */
  method ControlPacket(headerType: nat, packetType: Byte, payload: seq<Byte>) returns (p: OutPacket)
    requires HEADROOM + |payload| <= 256
    ensures fresh(p) && p.mem != null && fresh(p.mem) && p.Valid()
    ensures p.Value() == Packet(headerType, packetType, 2, 0, 0, payload)
    ensures p.headerType == headerType && p.packetType == packetType
  {
    var mem := new Byte[256];
    Put(mem, HEADROOM, payload);
    p := new OutPacket(headerType, packetType, 2, 0, 0, |payload|, mem);
  }

  /** memcpy of a value into a buffer. */
  method Put(a: array<Byte>, at: nat, s: seq<Byte>)
    requires at + |s| <= a.Length
    modifies a
    ensures a[at..at + |s|] == s
    ensures forall k :: 0 <= k < a.Length && !(at <= k < at + |s|) ==> a[k] == old(a[k])
  {
    var i := 0;
    while i < |s|
      invariant i <= |s| && a[at..at + i] == s[..i]
      invariant forall k :: 0 <= k < a.Length && !(at <= k < at + i) ==> a[k] == old(a[k])
    {
      a[at + i] := s[i];
      i := i + 1;
    }
  }

  /** Writes behind what has been written since `start` and moves the cursor. */
  method Emit(a: array<Byte>, start: nat, cursor: nat, s: seq<Byte>) returns (next: nat)
    requires start <= cursor && cursor + |s| <= a.Length
    modifies a
    ensures next == cursor + |s|
    ensures a[start..next] == old(a[start..cursor]) + s
    ensures forall k :: 0 <= k < a.Length && !(cursor <= k < next) ==> a[k] == old(a[k])
  {
    Put(a, cursor, s);
    next := cursor + |s|;
    assert a[start..next] == a[start..cursor] + a[cursor..next];
  }
}
