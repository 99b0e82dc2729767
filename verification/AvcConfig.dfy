/** The H.264 sender of RtmpLive.cpp: SPS and PPS are cut out of the encoder's first buffer and
    sent as an AVC decoder configuration record (ISO/IEC 14496-15, section 5.2.4.1) in front of
    every key frame. */
module AvcConfig {
  import opened Bytes
  import opened ChunkFormat
  import ChunkRoundTrip
  import opened Net

  const VIDEO_TYPE: Byte := 9
  const VIDEO_CHANNEL := 4
  const START_CODE: seq<Byte> := [0, 0, 0, 1]
  const SPS: Byte := 0x67
  const PPS: Byte := 0x68
  const KEY_FRAME: Byte := 0x65

  // ---- Cutting the buffer ----

  /** 00 00 00 01 68 at position i. */
  predicate PpsAt(data: seq<Byte>, i: nat) {
    i + 4 < |data| && data[i] == 0 && data[i + 1] == 0 && data[i + 2] == 0 && data[i + 3] == 1 && data[i + 4] == PPS
  }

  predicate HasPps(data: seq<Byte>) {
    exists i: nat :: i < |data| && PpsAt(data, i)
  }

  /** The position of the first PPS, from i on. */
  function FirstPps(data: seq<Byte>, i: nat): (p: Option<nat>)
    ensures p.Some? ==> i <= p.value && PpsAt(data, p.value)
    decreases |data| - i
  {
    if i >= |data| then None else if PpsAt(data, i) then Some(i) else FirstPps(data, i + 1)
  }

  function Stream(sps: seq<Byte>, pps: seq<Byte>): seq<Byte> {
    START_CODE + sps + START_CODE + pps
  }

  lemma {:induction false} FirstPpsIs(data: seq<Byte>, i: nat, p: nat)
    requires i <= p && PpsAt(data, p) && forall k :: i <= k < p ==> !PpsAt(data, k)
    ensures FirstPps(data, i) == Some(p)
    decreases p - i
  {
    if i < p {
      FirstPpsIs(data, i + 1, p);
    }
  }

  /** No occurrence before the second start code but inside the SPS. */
  lemma OnlyInside(sps: seq<Byte>, pps: seq<Byte>, k: nat)
    requires |sps| > 0 && sps[0] == SPS && |pps| > 0 && k < 4 + |sps|
    ensures PpsAt(Stream(sps, pps), k) <==> k >= 4 && PpsAt(sps, k - 4)
  {
    var s := Stream(sps, pps);
    assert s[4] == SPS && s[0] == 0 && s[3] == 1;
    assert s[4 + |sps|] == 0 && s[4 + |sps| + 1] == 0 && s[4 + |sps| + 2] == 0 && s[4 + |sps| + 3] == 1;
    if k >= 4 {
      assert forall j :: k <= j < 4 + |sps| ==> s[j] == sps[j - 4];
    }
  }

  /** The cut recovers SPS and PPS exactly when no PPS begins inside the SPS. */
  lemma CutExactly(sps: seq<Byte>, pps: seq<Byte>)
    requires |sps| > 0 && sps[0] == SPS && |pps| > 0 && pps[0] == PPS
    ensures FirstPps(Stream(sps, pps), 0).Some?
    ensures var i := FirstPps(Stream(sps, pps), 0).value;
            4 <= i && i + 4 <= |Stream(sps, pps)| &&
            (Stream(sps, pps)[4..i] == sps && Stream(sps, pps)[i + 4..] == pps <==> !HasPps(sps))
  {
    hide PpsAt;
    var s, p := Stream(sps, pps), 4 + |sps|;
    Parts(sps, pps);
    forall k: nat | k < p ensures PpsAt(s, k) <==> k >= 4 && PpsAt(sps, k - 4) {
      OnlyInside(sps, pps, k);
    }
    if HasPps(sps) {
      var k: nat :| PpsAt(sps, k);
      PpsFits(sps, k);
      assert PpsAt(s, k + 4);
      EarlierFound(s, 0, k + 4);
      var i := FirstPps(s, 0).value;
      PpsFits(s, i);
      assert |s[4..i]| != |sps|;
    } else {
      FirstPpsIs(s, 0, p);
    }
  }

  /** Such an SPS: one byte of it is kept, the rest goes into the PPS. */
  lemma PpsInsideSps()
    ensures var sps: seq<Byte>, pps: seq<Byte> := [SPS, 0, 0, 0, 1, PPS], [PPS];
            HasPps(sps) && FirstPps(Stream(sps, pps), 0) == Some(5) && Stream(sps, pps)[4..5] == [SPS]
  {
    var sps: seq<Byte>, pps: seq<Byte> := [SPS, 0, 0, 0, 1, PPS], [PPS];
    assert PpsAt(sps, 1);
    FirstPpsIs(Stream(sps, pps), 0, 5);
  }

  lemma PpsFits(s: seq<Byte>, k: nat)
    requires PpsAt(s, k)
    ensures k + 4 < |s|
  {
  }

  lemma Parts(sps: seq<Byte>, pps: seq<Byte>)
    requires |pps| > 0 && pps[0] == PPS
    ensures var s, p := Stream(sps, pps), 4 + |sps|;
            PpsAt(s, p) && s[4..p] == sps && s[p + 4..] == pps
  {
  }

  lemma {:induction false} EarlierFound(data: seq<Byte>, i: nat, k: nat)
    requires i <= k && PpsAt(data, k)
    ensures FirstPps(data, i).Some? && FirstPps(data, i).value <= k
    decreases k - i
  {
    if i < k && !PpsAt(data, i) {
      EarlierFound(data, i + 1, k);
    }
  }

  // ---- The configuration record ----

  function ConfigBody(sps: seq<Byte>, pps: seq<Byte>): (s: seq<Byte>)
    requires |sps| >= 4
    ensures |s| == |sps| + |pps| + 16
  {
    [0x17, 0, 0, 0, 0] + [1, sps[1], sps[2], sps[3], 0xff, 0xe1] + Be16(|sps|) + sps + [1] + Be16(|pps|) + pps
  }

  /** What a decoder reads in the record. */
  datatype Config = Config(profile: Byte, compatibility: Byte, level: Byte, lengthSize: nat,
                           spsList: seq<seq<Byte>>, ppsList: seq<seq<Byte>>)

  /** n parameter sets, each behind its 16-bit length. */
  function ParseSets(n: nat, s: seq<Byte>): Option<(seq<seq<Byte>>, seq<Byte>)> {
    if n == 0 then Some(([], s))
    else if |s| < 2 || |s| < 2 + Dec16(s) then None
    else
      match ParseSets(n - 1, s[2 + Dec16(s)..])
      case None => None
      case Some((sets, rest)) => Some(([s[2..2 + Dec16(s)]] + sets, rest))
  }

  /** The record behind the five bytes of an FLV video header for an AVC sequence header. */
  function ParseConfig(body: seq<Byte>): Option<Config> {
    if |body| < 11 || body[..5] != [0x17, 0, 0, 0, 0] || body[5] != 1 then None
    else
      match ParseSets(body[10] % 32, body[11..])
      case None => None
      case Some((spsList, rest)) =>
        if rest == [] then None
        else
          match ParseSets(rest[0], rest[1..])
          case None => None
          case Some((ppsList, end)) =>
            if end != [] then None
            else Some(Config(body[6], body[7], body[8], body[9] % 4 + 1, spsList, ppsList))
  }

  lemma OneSet(x: seq<Byte>, r: seq<Byte>)
    requires |x| < 0x1_0000
    ensures ParseSets(1, Be16(|x|) + x + r) == Some(([x], r))
  {
    hide Be16, Dec16;
    var s := Be16(|x|) + x + r;
    assert s == Be16(|x|) + (x + r);
    Dec16Be16(|x|, x + r);
    assert s[2..2 + |x|] == x && s[2 + |x|..] == r;
    assert ParseSets(0, r) == Some(([], r));
    assert [x] + [] == [x];
  }

  /** The built record is read back as one SPS and one PPS, the profile bytes of the SPS and
      four-byte lengths. */
  lemma ConfigRoundTrip(sps: seq<Byte>, pps: seq<Byte>)
    requires 4 <= |sps| < 0x1_0000 && |pps| < 0x1_0000
    ensures ParseConfig(ConfigBody(sps, pps)) == Some(Config(sps[1], sps[2], sps[3], 4, [sps], [pps]))
  {
    hide ParseSets, Be16;
    var tail := [1] + Be16(|pps|) + pps;
    var body := ConfigBody(sps, pps);
    assert body[11..] == Be16(|sps|) + sps + tail;
    OneSet(sps, tail);
    assert tail[1..] == Be16(|pps|) + pps + [];
    OneSet(pps, []);
  }

  /** From the encoder's buffer to the decoder: the record built from the cut parts is read
      back as the SPS and the PPS that were in the buffer. */
  lemma BufferToDecoder(sps: seq<Byte>, pps: seq<Byte>)
    requires 4 <= |sps| < 0x8000 && sps[0] == SPS && 0 < |pps| < 0x8000 && pps[0] == PPS && !HasPps(sps)
    ensures FirstPps(Stream(sps, pps), 0) == Some(4 + |sps|)
    ensures ParseConfig(ConfigBody(Stream(sps, pps)[4..4 + |sps|], Stream(sps, pps)[8 + |sps|..])) ==
            Some(Config(sps[1], sps[2], sps[3], 4, [sps], [pps]))
  {
    hide FirstPps, Stream, ParseConfig, ConfigBody, HasPps;
    CutExactly(sps, pps);
    ConfigRoundTrip(sps, pps);
  }

  // ---- The sender ----

  predicate IsConfig(p: Packet) {
    |p.body| >= 2 && p.packetType == VIDEO_TYPE && p.body[0] == 0x17 && p.body[1] == 0
  }

  predicate IsKeyFrame(p: Packet) {
    |p.body| >= 2 && p.packetType == VIDEO_TYPE && p.body[0] == 0x17 && p.body[1] == 1
  }

  /** Every key frame directly behind a configuration record. */
  predicate KeyFramesConfigured(sent: seq<Packet>) {
    forall i :: 0 <= i < |sent| && IsKeyFrame(sent[i]) ==> i > 0 && IsConfig(sent[i - 1])
  }

  function FrameBody(nal: seq<Byte>): (s: seq<Byte>)
    requires |nal| > 0
  {
    [if nal[0] == KEY_FRAME then 0x17 else 0x27, 1, 0, 0, 0] + Be32(|nal|) + nal
  }

  /** What a decoder reads in the body of an AVC frame: whether it is a key frame, the composition
      time, and its NAL units, each behind a length of four bytes. */
  datatype Frame = Frame(key: bool, composition: nat, units: seq<seq<Byte>>)

  function ParseUnits(s: seq<Byte>): Option<seq<seq<Byte>>> {
    if s == [] then Some([])
    else if |s| < 4 || |s| < 4 + Dec32(s) then None
    else
      match ParseUnits(s[4 + Dec32(s)..])
      case None => None
      case Some(units) => Some([s[4..4 + Dec32(s)]] + units)
  }

  function ParseFrame(body: seq<Byte>): Option<Frame> {
    if |body| < 5 || body[0] % 16 != 7 || body[0] / 16 !in {1, 2} || body[1] != 1 then None
    else
      match ParseUnits(body[5..])
      case None => None
      case Some(units) => Some(Frame(body[0] / 16 == 1, Dec24(body[2..]), units))
  }

  /** A frame is read as its one NAL unit, shown without delay, and as a key frame if that is an IDR
      slice (type 5 of section 7.4.1 of ISO/IEC 14496-10, as the encoder marks it). */
  lemma FrameRoundTrip(nal: seq<Byte>)
    requires 0 < |nal| < 0x1_0000_0000
    ensures ParseFrame(FrameBody(nal)) == Some(Frame(nal[0] == 0x65, 0, [nal]))
  {
    hide Be32, Dec32, ParseUnits;
    var s := Be32(|nal|) + nal;
    assert FrameBody(nal)[5..] == s;
    Dec32Be32(|nal|, nal);
    OneUnit(s, nal);
  }

  lemma OneUnit(s: seq<Byte>, nal: seq<Byte>)
    requires |s| == 4 + |nal| && Dec32(s) == |nal| && s[4..] == nal
    ensures ParseUnits(s) == Some([nal])
  {
    hide Dec32;
    assert s[4 + |nal|..] == [] && s[4..4 + |nal|] == nal && [nal] + [] == [nal];
    assert ParseUnits([]) == Some([]);
  }

  function ConfigPacket(sps: seq<Byte>, pps: seq<Byte>, streamId: U32): Packet
    requires |sps| >= 4
  {
    Packet(LARGE, VIDEO_TYPE, VIDEO_CHANNEL, 0, streamId, ConfigBody(sps, pps))
  }

  function FramePacket(nal: seq<Byte>, time: int, streamId: U32): Packet
    requires |nal| > 0
  {
    Packet(LARGE, VIDEO_TYPE, VIDEO_CHANNEL, Wrap32(time), streamId, FrameBody(nal))
  }

  /** A receiver can take every packet of the sender, whatever went before on its channel. */
  lemma VideoIsSendable(track: ChunkRoundTrip.Track, sps: seq<Byte>, pps: seq<Byte>, nal: seq<Byte>, time: int, id: U32)
    requires |sps| >= 4 && |sps| + |pps| + 16 < 0x100_0000 && 0 < |nal| < 0x100_0000 - 9
    ensures ChunkRoundTrip.Sendable(track, ConfigPacket(sps, pps, id), 4) && ConfigPacket(sps, pps, id).packetType == 9
    ensures ChunkRoundTrip.Sendable(track, FramePacket(nal, time, id), 4) && FramePacket(nal, time, id).packetType == 9
  {
  }

  class RtmpLive {
    const streamId: U32
    var sps: Option<seq<Byte>>
    var pps: Option<seq<Byte>>
    ghost var sent: seq<Packet>  // what has been handed to RTMP_SendPacket

    ghost predicate Valid()
      reads this
    {
      sps.Some? == pps.Some? && (sps.Some? ==> |sps.value| < 0x8000 && |pps.value| < 0x8000) &&
        KeyFramesConfigured(sent)
    }

    constructor (streamId: U32)
      ensures Valid() && sps == None && sent == [] && this.streamId == streamId
    {
      this.streamId, sps, pps, sent := streamId, None, None, [];
    }

    /** saveSPSAndPPS: lengths have to fit into 16 bits with a sign. */
    method SaveSpsAndPps(data: seq<Byte>)
      requires |data| > 4 && data[4] == SPS
      requires var i := FirstPps(data, 0); i.Some? ==> i.value < 0x8004 && |data| - i.value < 0x8004
      modifies this`sps, this`pps
      ensures FirstPps(data, 0).None? ==> sps == old(sps) && pps == old(pps)
      ensures var i := FirstPps(data, 0);
              i.Some? ==>
                5 <= i.value <= |data| - 4 && sps == Some(data[4..i.value]) && pps == Some(data[i.value + 4..])
    {
      hide FirstPps;
      var i := 0;
      PpsStep(data, 0);
      while i < |data|
        invariant 0 <= i <= |data| && FirstPps(data, 0) == FirstPps(data, i)
        invariant sps == old(sps) && pps == old(pps)
      {
        PpsStep(data, i);
        if i + 4 < |data| {
          if data[i] == 0 && data[i + 1] == 0 && data[i + 2] == 0 && data[i + 3] == 1 && data[i + 4] == PPS {
            var spsLength := i - 4;
            var ppsLength := |data| - 8 - spsLength;
            sps := Some(data[4..4 + spsLength]);
            pps := Some(data[spsLength + 8..spsLength + 8 + ppsLength]);
            assert data[i + 4..|data|] == data[i + 4..];
            break;
          }
        }
        i := i + 1;
        PpsStep(data, i);
      }
    }

    /** createSPSPPSPacket: the body is filled exactly. */
    method CreateConfig() returns (p: Packet)
      requires Valid() && sps.Some? && |sps.value| >= 4
      ensures p == ConfigPacket(sps.value, pps.value, streamId)
    {
      hide KeyFramesConfigured, Be16;
      var s, t := sps.value, pps.value;
      var body := new Byte[|s| + |t| + 16];
      var i := Emit(body, 0, 0, [0x17, 0, 0, 0, 0]);
      i := Emit(body, 0, i, [1, s[1], s[2], s[3], 0xff, 0xe1]);
      i := Emit(body, 0, i, Be16(|s|));
      i := Emit(body, 0, i, s);
      i := Emit(body, 0, i, [1]);
      i := Emit(body, 0, i, Be16(|t|));
      i := Emit(body, 0, i, t);
      assert i == body.Length && body[0..i] == body[..];
      p := Packet(LARGE, VIDEO_TYPE, VIDEO_CHANNEL, 0, streamId, body[..]);
    }

    /** createFramePacket: the start code gives way to a four-byte length. */
    method CreateFrame(data: seq<Byte>, time: int) returns (p: Packet)
      requires |data| > 4
      ensures p == FramePacket(data[4..], time, streamId)
    {
      hide Be32;
      var nal := data[4..];
      var body := new Byte[|nal| + 9];
      var i := Emit(body, 0, 0, [if nal[0] == KEY_FRAME then 0x17 else 0x27, 1, 0, 0, 0]);
      i := Emit(body, 0, i, Be32(|nal|));
      i := Emit(body, 0, i, nal);
      assert i == body.Length && body[0..i] == body[..];
      p := Packet(LARGE, VIDEO_TYPE, VIDEO_CHANNEL, Wrap32(time), streamId, body[..]);
    }

    /** sendVideoEncodeData. A key frame before any SPS is beyond what the code can take. */
    method SendVideo(data: seq<Byte>, time: int)
      requires Valid() && |data| > 4
      requires data[4] == KEY_FRAME ==> sps.Some? && |sps.value| >= 4
      requires data[4] == SPS ==> var i := FirstPps(data, 0); i.Some? ==> i.value < 0x8004 && |data| - i.value < 0x8004
      modifies this
      ensures Valid() && (old(sps).Some? ==> sps == old(sps) && pps == old(pps))
      ensures data[4] == SPS ==> sent == old(sent)
      ensures data[4] == SPS && old(sps).None? && FirstPps(data, 0).Some? ==>
              4 <= FirstPps(data, 0).value <= |data| - 4 &&
              sps == Some(data[4..FirstPps(data, 0).value]) && pps == Some(data[FirstPps(data, 0).value + 4..])
      ensures data[4] == KEY_FRAME ==>
              sent == old(sent) + [ConfigPacket(sps.value, pps.value, streamId), FramePacket(data[4..], time, streamId)]
      ensures data[4] != SPS && data[4] != KEY_FRAME ==> sent == old(sent) + [FramePacket(data[4..], time, streamId)]
    {
      hide Be32, Be16, FirstPps;
      if data[4] == SPS {
        if sps.None? || pps.None? {
          SaveSpsAndPps(data);
        }
        return;
      }
      if data[4] == KEY_FRAME {
        var config := CreateConfig();
        sent := sent + [config];
      }
      var frame := CreateFrame(data, time);
      sent := sent + [frame];
    }
  }

  lemma PpsStep(data: seq<Byte>, i: nat)
    ensures FirstPps(data, i) == if i >= |data| then None else if PpsAt(data, i) then Some(i) else FirstPps(data, i + 1)
  {
  }
}
