/** The loop of Read_1_Packet that re-times an aggregate in the buffer it has been copied to. */
module FlvAggregate {
  import opened Bytes
  import opened FlvTags
  import opened Net

  /** Writes the moved timestamp of the tag at pos over the copied one, unless nothing moves. */
  method MoveStamp(body: seq<Byte>, a: array<Byte>, at: nat, pos: nat, delta: U32) returns (stamp: U32)
    requires pos + TAG_HEADER <= |body| && at + |body| <= a.Length
    requires a[at + pos..at + pos + TAG_HEADER] == body[pos..pos + TAG_HEADER]
    modifies a
    ensures stamp == Wrap32(StampOf(body[pos..][4..]) + delta)
    ensures a[at + pos..at + pos + TAG_HEADER] == MovedHeader(body[pos..], delta)
    ensures forall k :: 0 <= k < a.Length && !(at + pos + 4 <= k < at + pos + 8) ==> a[k] == old(a[k])
  {
    hide StampBytes;
    var s := body[pos..];
    ghost var was := a[..];
    SubDrop(body, pos, 0, TAG_HEADER);
    stamp := StampOf(s[4..]);
    StampKept(s);
    if delta != 0 {
      stamp := Wrap32(stamp + delta);
      Put(a, at + pos + 4, StampBytes(stamp));
    } else {
      SubSlice(was, at + pos, at + pos + TAG_HEADER, 4, 8);
      SubTake(s, TAG_HEADER, 4, 8);
    }
    HeaderMoved(was, a[..], at + pos, s, StampBytes(stamp));
  }

  lemma HeaderMoved(was: seq<Byte>, now: seq<Byte>, p: nat, s: seq<Byte>, stamp: seq<Byte>)
    requires p + TAG_HEADER <= |was| == |now| && TAG_HEADER <= |s| && was[p..p + TAG_HEADER] == s[..TAG_HEADER]
    requires |stamp| == 4 && now[p + 4..p + 8] == stamp
    requires forall k :: 0 <= k < |was| && !(p + 4 <= k < p + 8) ==> now[k] == was[k]
    ensures now[p..p + TAG_HEADER] == s[..4] + stamp + s[8..11]
  {
    forall k | 0 <= k < TAG_HEADER ensures now[p + k] == (s[..4] + stamp + s[8..11])[k] {
      assert was[p + k] == was[p..p + TAG_HEADER][k] == s[..TAG_HEADER][k];
      if 4 <= k < 8 {
        assert now[p + k] == now[p + 4..p + 8][k - 4];
      }
    }
  }

  /** Moving by nothing changes nothing. */
  lemma StampKept(s: seq<Byte>)
    requires |s| >= TAG_HEADER
    ensures StampBytes(StampOf(s[4..])) == s[4..8]
  {
    hide StampBytes;
    SameStamp(s);
    StampBytesOf(s[4..8]);
  }

  lemma SameStamp(s: seq<Byte>)
    requires |s| >= TAG_HEADER
    ensures StampOf(s[4..8]) == StampOf(s[4..])
  {
  }

  /** One turn of the loop: the tag at pos, re-timed where it lies. */
  method PutRetimed(body: seq<Byte>, delta: U32, a: array<Byte>, at: nat, pos: nat, ghost rest: seq<Byte>,
      ghost first: seq<Byte>)
    returns (stamp: U32, appended: bool)
    requires pos + TAG_HEADER < |body| && at + |body| + 4 <= a.Length
    requires rest == body[pos..] && first == FirstRetimed(rest, delta)
    requires a[at + pos..at + |body|] == rest
    modifies a
    ensures stamp == Wrap32(StampOf(rest[4..]) + delta)
    ensures a[at + pos..at + pos + |first|] == first
    ensures var n := TAG_HEADER + DataSize(rest); appended == (n <= |rest| < n + 4)
    ensures forall k :: 0 <= k < a.Length && !(at + pos <= k < at + pos + |first|) ==> a[k] == old(a[k])
  {
    hide DataSize, StampOf, Be32, Dec32, MovedHeader, FirstRetimed;
    ghost var was := a[..];
    FirstIs(rest, delta);
    stamp, appended := RetimeInPlace(body, delta, a, at, pos, was);
    Placed(was, a[..], at + pos, rest, delta);
  }

  /** The two writes: the timestamp, and the trailing size of a tag that is all there. */
  method RetimeInPlace(body: seq<Byte>, delta: U32, a: array<Byte>, at: nat, pos: nat, ghost was: seq<Byte>)
    returns (stamp: U32, appended: bool)
    requires pos + TAG_HEADER < |body| && at + |body| + 4 <= a.Length && was == a[..]
    requires was[at + pos..at + |body|] == body[pos..]
    modifies a
    ensures stamp == Wrap32(StampOf(body[pos..][4..]) + delta)
    ensures var n := TAG_HEADER + DataSize(body[pos..]);
            var p := at + pos;
            appended == (pos + n <= |body| < pos + n + 4) &&
            a[p..p + TAG_HEADER] == MovedHeader(body[pos..], delta) &&
            (pos + n <= |body| ==> a[p + n..p + n + 4] == Be32(n)) &&
            forall k :: 0 <= k < a.Length && !(p <= k < p + TAG_HEADER) ==>
              (pos + n > |body| || !(p + n <= k < p + n + 4)) ==> a[k] == was[k]
  {
    hide DataSize, StampOf, Be32, Dec32, MovedHeader;
    var n := TAG_HEADER + DataSize(body[pos..]);
    SubDrop(body, pos, 0, TAG_HEADER);
    SubSlice(was, at + pos, at + |body|, 0, TAG_HEADER);
    stamp := MoveStamp(body, a, at, pos, delta);
    ghost var mid := a[..];
    if pos + n > |body| {
      appended := false;
    } else {
      appended := PutTrailer(body, a, at, pos, n, was);
    }
    SameBytes(mid, a[..], at + pos, at + pos + TAG_HEADER);
  }

  lemma Placed(was: seq<Byte>, now: seq<Byte>, from: nat, rest: seq<Byte>, delta: U32)
    requires TAG_HEADER <= |rest| && from + |rest| + 4 <= |was| == |now| && was[from..from + |rest|] == rest
    requires now[from..from + TAG_HEADER] == MovedHeader(rest, delta)
    requires var n := TAG_HEADER + DataSize(rest);
             (forall k :: from + TAG_HEADER <= k < from + Min(n, |rest|) ==> now[k] == was[k]) &&
             (n <= |rest| ==> now[from + n..from + n + 4] == Be32(n))
    ensures var first := FirstRetimed(rest, delta); from + |first| <= |now| && now[from..from + |first|] == first
  {
    hide DataSize, Be32, MovedHeader, FirstRetimed;
    var n, moved := TAG_HEADER + DataSize(rest), MovedHeader(rest, delta);
    var end := Min(n, |rest|);
    FirstIs(rest, delta);
    Unmoved(was, now, from, TAG_HEADER, end, rest);
    Joined(now, from, from + TAG_HEADER, from + end, moved, rest[TAG_HEADER..end]);
    if n <= |rest| {
      Joined(now, from, from + n, from + n + 4, moved + rest[TAG_HEADER..n], Be32(n));
    }
  }

  lemma Joined(s: seq<Byte>, lo: nat, mid: nat, hi: nat, x: seq<Byte>, y: seq<Byte>)
    requires lo <= mid <= hi <= |s| && s[lo..mid] == x && s[mid..hi] == y
    ensures s[lo..hi] == x + y
  {
    Split(s, lo, mid, hi);
  }

  lemma FirstIs(s: seq<Byte>, delta: U32)
    requires |s| >= TAG_HEADER
    ensures var n := TAG_HEADER + DataSize(s);
            FirstRetimed(s, delta) ==
            if n > |s| then MovedHeader(s, delta) + s[TAG_HEADER..|s|]
            else MovedHeader(s, delta) + s[TAG_HEADER..n] + Be32(n)
  {
    assert s[TAG_HEADER..] == s[TAG_HEADER..|s|];
  }

  /** Appends the trailing size, or puts it right unless it is. */
  method PutTrailer(body: seq<Byte>, a: array<Byte>, at: nat, pos: nat, n: nat,
      ghost was: seq<Byte>) returns (appended: bool)
    requires pos + n <= |body| && at + |body| + 4 <= a.Length && n < 0x1_0000_0000
    requires |was| == a.Length && was[at + pos..at + |body|] == body[pos..]
    requires forall k :: at + pos + n <= k < a.Length ==> a[k] == was[k]
    modifies a
    ensures appended == (pos + n + 4 > |body|)
    ensures a[at + pos + n..at + pos + n + 4] == Be32(n) && a[at + pos..at + pos + n] == old(a[at + pos..at + pos + n])
    ensures forall k :: 0 <= k < a.Length && !(at + pos + n <= k < at + pos + n + 4) ==> a[k] == old(a[k])
  {
    hide Be32, Dec32;
    appended := pos + n + 4 > |body|;
    if appended || Dec32(body[pos + n..]) != n {
      Put(a, at + pos + n, Be32(n));
    } else {
      Unmoved(was, a[..], at + pos, n, n + 4, body[pos..]);
      SameTrailer(body, pos, n);
    }
  }

  /** The trailing size that is already right. */
  lemma SameTrailer(body: seq<Byte>, pos: nat, n: nat)
    requires pos + n + 4 <= |body| && Dec32(body[pos + n..]) == n
    ensures body[pos..][n..n + 4] == Be32(n)
  {
    hide Be32;
    SubDrop(body, pos, n, n + 4);
    assert Dec32(body[pos + n..]) == Dec32(body[pos + n..pos + n + 4]);
    Be32Dec32(body[pos + n..pos + n + 4]);
  }

  lemma Unmoved(was: seq<Byte>, now: seq<Byte>, from: nat, lo: nat, hi: nat, rest: seq<Byte>)
    requires lo <= hi <= |rest| && from + |rest| <= |was| == |now|
    requires was[from..from + |rest|] == rest
    requires forall k :: from + lo <= k < from + hi ==> now[k] == was[k]
    ensures now[from + lo..from + hi] == rest[lo..hi]
  {
    SubSlice(was, from, from + |rest|, lo, hi);
  }

  /** What the loop has achieved when it stands at pos. */
  ghost predicate Copied(body: seq<Byte>, delta: U32, buf: seq<Byte>, at: nat, pos: nat) {
    pos <= |body| + 4 && at + |body| + 4 <= |buf| &&
    buf[at..at + pos] + Retimed(Rest(body, pos), delta) == Retimed(body, delta) &&
    (pos <= |body| ==> buf[at + pos..at + |body|] == Rest(body, pos))
  }

  ghost predicate Tallied(body: seq<Byte>, delta: U32, before: U32, pos: nat, size: nat, stamp: U32, audio: bool,
      video: bool) {
    var rest := Rest(body, pos);
    (if size == |body| then Unfinished(rest) == Unfinished(body)
     else size == |body| + 4 && Unfinished(body) && rest == []) &&
    LastStamp(rest, delta, stamp) == LastStamp(body, delta, before) &&
    (audio || HasKind(rest, AUDIO) <==> HasKind(body, AUDIO)) &&
    (video || HasKind(rest, VIDEO) <==> HasKind(body, VIDEO))
  }

  function Rest(body: seq<Byte>, pos: nat): seq<Byte> {
    if pos <= |body| then body[pos..] else []
  }

  /** Where the loop goes on after the tag at pos: nowhere if that claims too much. */
  function NextPos(body: seq<Byte>, pos: nat): nat
    requires pos + TAG_HEADER <= |body|
  {
    var n := TAG_HEADER + DataSize(body[pos..]);
    if pos + n > |body| then |body| else pos + n + 4
  }

  lemma CopiedOn(body: seq<Byte>, delta: U32, was: seq<Byte>, now: seq<Byte>, at: nat, pos: nat)
    requires pos + TAG_HEADER < |body| && |was| == |now| && Copied(body, delta, was, at, pos)
    requires var first := FirstRetimed(body[pos..], delta);
             at + pos + |first| <= |now| && now[at + pos..at + pos + |first|] == first &&
             forall k :: 0 <= k < |was| && !(at + pos <= k < at + pos + |first|) ==> now[k] == was[k]
    ensures Copied(body, delta, now, at, NextPos(body, pos))
  {
    hide FirstRetimed, DataSize, Retimed, NextPos, Rest;
    var first, next := FirstRetimed(body[pos..], delta), NextPos(body, pos);
    RetimedOn(body, delta, pos);
    SameBytes(was, now, at, at + pos);
    FrontGrows(now, at, pos, next, was[at..at + pos], first, Retimed(Rest(body, next), delta));
    RestStays(body, was, now, at, pos, next);
  }

  /** What is copied grows by the first of the remaining tags. */
  lemma FrontGrows(now: seq<Byte>, at: nat, pos: nat, next: nat, front: seq<Byte>, first: seq<Byte>, rest: seq<Byte>)
    requires pos <= next == pos + |first| && at + next <= |now|
    requires now[at..at + pos] == front && now[at + pos..at + next] == first
    ensures now[at..at + next] + rest == front + (first + rest)
  {
    Joined(now, at, at + pos, at + next, front, first);
    Assoc(front, first, rest);
  }

  /** The bytes behind the next position have not been touched. */
  lemma RestStays(body: seq<Byte>, was: seq<Byte>, now: seq<Byte>, at: nat, pos: nat, next: nat)
    requires pos <= next && pos <= |body| && at + |body| <= |was| == |now|
    requires was[at + pos..at + |body|] == Rest(body, pos)
    requires forall k :: at + next <= k < |was| ==> now[k] == was[k]
    ensures next <= |body| ==> now[at + next..at + |body|] == Rest(body, next)
  {
    if next <= |body| {
      Unmoved(was, now, at + pos, next - pos, |body| - pos, body[pos..]);
      SubDrop(body, pos, next - pos, |body| - pos);
    }
  }

  /** The first tag and those from the next position on. */
  lemma RetimedOn(body: seq<Byte>, delta: U32, pos: nat)
    requires pos + TAG_HEADER < |body|
    ensures var next := NextPos(body, pos);
            pos <= next <= |body| + 4 &&
            |FirstRetimed(body[pos..], delta)| == next - pos &&
            Retimed(Rest(body, pos), delta) == FirstRetimed(body[pos..], delta) + Retimed(Rest(body, next), delta)
  {
    hide DataSize, MovedHeader;
    RestOfRest(body, pos, NextPos(body, pos));
  }

  lemma RestOfRest(body: seq<Byte>, pos: nat, next: nat)
    requires pos <= next && pos <= |body|
    ensures Rest(body, next) == if next - pos <= |body[pos..]| then body[pos..][next - pos..] else []
  {
  }

  lemma TalliedOn(body: seq<Byte>, delta: U32, before: U32, pos: nat, size: nat, stamp: U32, audio: bool, video: bool)
    requires pos + TAG_HEADER < |body| && Tallied(body, delta, before, pos, size, stamp, audio, video)
    ensures var n := TAG_HEADER + DataSize(body[pos..]);
            Tallied(body, delta, before, NextPos(body, pos),
              size + (if pos + n <= |body| < pos + n + 4 then 4 else 0), Wrap32(StampOf(body[pos..][4..]) + delta),
              audio || body[pos] == AUDIO, video || body[pos] == VIDEO)
  {
    hide DataSize, StampOf;
    RestOfRest(body, pos, NextPos(body, pos));
  }

  /** The copy of an aggregate into the output buffer and the loop over its tags. */
  method PutAggregate(body: seq<Byte>, delta: U32, before: U32, a: array<Byte>, at: nat)
    returns (size: nat, stamp: U32, audio: bool, video: bool)
    requires at + |body| + 4 <= a.Length
    modifies a
    ensures size == |body| + if Unfinished(body) then 4 else 0
    ensures at + |Retimed(body, delta)| <= a.Length && a[at..at + |Retimed(body, delta)|] == Retimed(body, delta)
    ensures stamp == LastStamp(body, delta, before)
    ensures audio == HasKind(body, AUDIO) && video == HasKind(body, VIDEO)
    ensures forall k :: 0 <= k < a.Length && !(at <= k < at + |body| + 4) ==> a[k] == old(a[k])
  {
    hide Copied, Tallied, FirstRetimed, StampOf, DataSize, Retimed, Unfinished, LastStamp, HasKind;
    Put(a, at, body);
    size, stamp, audio, video := |body|, before, false, false;
    var pos := 0;
    LoopStarts(body, delta, before, a[..], at);
    while pos + TAG_HEADER < |body|
      invariant Copied(body, delta, a[..], at, pos)
      invariant Tallied(body, delta, before, pos, size, stamp, audio, video)
      invariant forall k :: 0 <= k < a.Length && !(at <= k < at + |body| + 4) ==> a[k] == old(a[k])
    {
      var n := TAG_HEADER + DataSize(body[pos..]);
      ghost var was := a[..];
      ghost var first := FirstRetimed(body[pos..], delta);
      TalliedOn(body, delta, before, pos, size, stamp, audio, video);
      CopiedIs(body, delta, was, at, pos);
      var appended;
      stamp, appended := PutRetimed(body, delta, a, at, pos, body[pos..], first);
      audio := audio || body[pos] == AUDIO;
      video := video || body[pos] == VIDEO;
      CopiedOn(body, delta, was, a[..], at, pos);
      if pos + n > |body| {
        pos := |body|;
        break;
      }
      if appended {
        size := size + 4;
      }
      pos := pos + n + 4;
    }
    LoopEnds(body, delta, before, a[..], at, pos, size, stamp, audio, video);
  }

  lemma CopiedIs(body: seq<Byte>, delta: U32, buf: seq<Byte>, at: nat, pos: nat)
    requires Copied(body, delta, buf, at, pos) && pos <= |body|
    ensures buf[at + pos..at + |body|] == body[pos..]
  {
  }

  lemma LoopStarts(body: seq<Byte>, delta: U32, before: U32, buf: seq<Byte>, at: nat)
    requires at + |body| + 4 <= |buf| && buf[at..at + |body|] == body
    ensures Copied(body, delta, buf, at, 0) && Tallied(body, delta, before, 0, |body|, before, false, false)
  {
    assert Rest(body, 0) == body;
  }

  lemma LoopEnds(body: seq<Byte>, delta: U32, before: U32, buf: seq<Byte>, at: nat, pos: nat, size: nat, stamp: U32,
      audio: bool, video: bool)
    requires Copied(body, delta, buf, at, pos) && Tallied(body, delta, before, pos, size, stamp, audio, video)
    requires pos + TAG_HEADER >= |body|
    ensures size == |body| + if Unfinished(body) then 4 else 0
    ensures at + |Retimed(body, delta)| <= |buf| && buf[at..at + |Retimed(body, delta)|] == Retimed(body, delta)
    ensures stamp == LastStamp(body, delta, before)
    ensures audio == HasKind(body, AUDIO) && video == HasKind(body, VIDEO)
  {
    hide Copied, Tallied, Retimed, Unfinished, LastStamp, HasKind;
    CopyEnds(body, delta, buf, at, pos);
    TallyEnds(body, delta, before, pos, size, stamp, audio, video);
  }

  lemma CopyEnds(body: seq<Byte>, delta: U32, buf: seq<Byte>, at: nat, pos: nat)
    requires Copied(body, delta, buf, at, pos) && pos + TAG_HEADER >= |body|
    ensures at + |Retimed(body, delta)| <= |buf| && buf[at..at + |Retimed(body, delta)|] == Retimed(body, delta)
  {
    hide FirstRetimed, DataSize, Retimed;
    var rest := Rest(body, pos);
    LastBytes(rest, delta);
    if pos <= |body| {
      Joined(buf, at, at + pos, at + |body|, buf[at..at + pos], rest);
    } else {
      assert buf[at..at + pos] + [] == buf[at..at + pos];
    }
  }

  lemma LastBytes(s: seq<Byte>, delta: U32)
    requires |s| <= TAG_HEADER
    ensures Retimed(s, delta) == s
  {
  }

  lemma TallyEnds(body: seq<Byte>, delta: U32, before: U32, pos: nat, size: nat, stamp: U32, audio: bool, video: bool)
    requires Tallied(body, delta, before, pos, size, stamp, audio, video) && pos + TAG_HEADER >= |body|
    ensures size == |body| + if Unfinished(body) then 4 else 0
    ensures stamp == LastStamp(body, delta, before)
    ensures audio == HasKind(body, AUDIO) && video == HasKind(body, VIDEO)
  {
    hide DataSize;
  }

  /** A tag around the body of an audio, video or metadata packet. */
  method PutTag(t: Tag, a: array<Byte>, at: nat)
    requires at + |TagBytes(t)| <= a.Length
    modifies a
    ensures a[at..at + |TagBytes(t)|] == TagBytes(t)
    ensures forall k :: 0 <= k < a.Length && !(at <= k < at + |TagBytes(t)|) ==> a[k] == old(a[k])
  {
    hide HeaderBytes, Be32;
    var cursor := PutHeader(t, a, at);
    cursor := Emit(a, at, cursor, t.data);
    cursor := Emit(a, at, cursor, Be32(|t.data| + TAG_HEADER));
  }

  method PutHeader(t: Tag, a: array<Byte>, at: nat) returns (cursor: nat)
    requires at + TAG_HEADER <= a.Length
    modifies a
    ensures cursor == at + TAG_HEADER && a[at..cursor] == HeaderBytes(t)
    ensures forall k :: 0 <= k < a.Length && !(at <= k < cursor) ==> a[k] == old(a[k])
  {
    hide Be24;
    a[at] := t.kind;
    cursor := Emit(a, at, at + 1, Be24(|t.data|));
    cursor := Emit(a, at, cursor, Be24(t.timestamp));
    a[cursor] := t.timestamp / 0x100_0000;
    cursor := Emit(a, at, cursor + 1, Be24(t.streamId));
  }
}
