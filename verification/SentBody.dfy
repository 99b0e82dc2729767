/** What the chunk loop of RTMP_SendPacket leaves of a body: every header but the first is written
    over the end of the chunk before it. */
module SentBody {
  import opened Bytes
  import opened ChunkFormat

  /** The body when the header of the chunk from `next` on has been written in front of it. */
  function Overwritten(cur: seq<Byte>, next: nat, channel: nat): (r: seq<Byte>)
    requires next <= |cur| && channel <= 65599
    ensures |r| == |cur|
  {
    var h := BasicHeader(MINIMUM, channel);
    if next == |cur| then cur
    else if |h| <= next then cur[..next - |h|] + h + cur[next..]
    else h[|h| - next..] + cur[next..]
  }

  /** The body at the end, when it is now `cur` and has been sent up to `sent`. */
  function Worn(cur: seq<Byte>, sent: nat, channel: nat, cs: nat): (r: seq<Byte>)
    requires channel <= 65599 && cs > 0 && sent <= |cur|
    ensures |r| == |cur|
    decreases |cur| - sent
  {
    if sent == |cur| then cur
    else
      var next := sent + Min(cs, |cur| - sent);
      Worn(Overwritten(cur, next, channel), next, channel, cs)
  }

  /** How much of a body is certainly left: all of a single chunk, otherwise the first chunk less
      the room of a header. */
  function Kept(size: nat, channel: nat, cs: nat): (n: nat)
    ensures n <= size
  {
    if size <= cs then size else if cs <= ChannelBytes(channel) then 0 else cs - 1 - ChannelBytes(channel)
  }

  lemma {:induction false} WornKeeps(cur: seq<Byte>, sent: nat, channel: nat, cs: nat)
    requires channel <= 65599 && cs > 0 && sent <= |cur| && (sent == 0 || sent >= Min(cs, |cur|))
    ensures var k := Kept(|cur|, channel, cs); Worn(cur, sent, channel, cs)[..k] == cur[..k]
    decreases |cur| - sent
  {
    hide BasicHeader;
    if sent < |cur| {
      var next := sent + Min(cs, |cur| - sent);
      WornKeeps(Overwritten(cur, next, channel), next, channel, cs);
    }
  }

  /** With two chunks and a channel below 64 one byte is lost: the last one of the first chunk. */
  lemma TwoChunks(body: seq<Byte>, channel: nat, cs: nat)
    requires channel < 64 && 0 < cs < |body| <= 2 * cs
    ensures Worn(body, 0, channel, cs) == body[cs - 1 := MINIMUM * 64 + channel]
  {
    var cut := Overwritten(body, cs, channel);
    assert cut == body[cs - 1 := MINIMUM * 64 + channel];
    assert Worn(body, 0, channel, cs) == Worn(cut, cs, channel, cs);
    assert Worn(cut, cs, channel, cs) == Worn(Overwritten(cut, |body|, channel), |body|, channel, cs) == cut;
  }
}
