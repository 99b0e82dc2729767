/** FLV tags: the bytes of a tag, and the re-timing of an aggregate (type 0x16), which is a
    body made of tags, as Read_1_Packet performs it. */
module FlvTags {
  import opened Bytes

  const AUDIO := 0x08
  const VIDEO := 0x09
  const METADATA := 0x12
  const AGGREGATE := 0x16
  const TAG_HEADER := 11

  type U24 = x: int | 0 <= x < 0x100_0000

  datatype Tag = Tag(kind: Byte, timestamp: U32, streamId: U24, data: seq<Byte>) {
    predicate Fits() { |data| < 0x100_0000 }

    function Shift(delta: U32): (t: Tag)
      ensures t.kind == kind && t.data == data && t.streamId == streamId
    {
      this.(timestamp := Wrap32(timestamp + delta))
    }
  }

  /** The low 24 bits first, then the high 8. */
  function StampBytes(t: U32): (s: seq<Byte>)
    ensures |s| == 4
  {
    Be24(t) + [t / 0x100_0000]
  }

  function StampOf(s: seq<Byte>): U32
    requires |s| >= 4
  {
    Dec24(s) + s[3] as int * 0x100_0000
  }

  function HeaderBytes(t: Tag): (s: seq<Byte>)
    ensures |s| == TAG_HEADER
  {
    [t.kind] + Be24(|t.data|) + StampBytes(t.timestamp) + Be24(t.streamId)
  }

  /** A tag, with the size that trails it. */
  function TagBytes(t: Tag): (s: seq<Byte>)
    ensures |s| == TAG_HEADER + |t.data| + 4
  {
    HeaderBytes(t) + t.data + Be32(|t.data| + TAG_HEADER)
  }

  function TagsBytes(tags: seq<Tag>): seq<Byte> {
    if tags == [] then [] else TagBytes(tags[0]) + TagsBytes(tags[1..])
  }

  function Shifted(tags: seq<Tag>, delta: U32): (r: seq<Tag>)
    ensures |r| == |tags|
  {
    seq(|tags|, i requires 0 <= i < |tags| => tags[i].Shift(delta))
  }

  lemma StampRoundTrip(t: U32, r: seq<Byte>)
    ensures StampOf(StampBytes(t) + r) == t
  {
    ThreeDigits(t);
    assert t == t % 0x100_0000 + t / 0x100_0000 * 0x100_0000;
  }

  lemma StampBytesOf(s: seq<Byte>)
    requires |s| == 4
    ensures StampBytes(StampOf(s)) == s
  {
    Be24Dec24(s[..3]);
    var v := Dec24(s);
    assert StampOf(s) / 0x100_0000 == s[3];
    Be24Low(v, s[3]);
  }

  lemma Be24Low(v: U24, high: Byte)
    ensures Be24(v + high as int * 0x100_0000) == Be24(v)
  {
    var w := v + high as int * 0x100_0000;
    SameDigit(v, high as int * 0x1_0000);
    SameDigit(v / 0x100, high as int * 0x100);
    SameDigit(v / 0x1_0000, high);
    Digits(v);
    Digits(w);
  }

  lemma SameDigit(v: int, k: int)
    ensures (v + k * 0x100) % 0x100 == v % 0x100 && (v + k * 0x100) / 0x100 == v / 0x100 + k
  {
  }

  /** Everything a reader takes from a tag header. */
  lemma HeaderFields(t: Tag, r: seq<Byte>)
    requires t.Fits()
    ensures var s := HeaderBytes(t) + r;
            s[0] == t.kind && Dec24(s[1..]) == |t.data| && StampOf(s[4..]) == t.timestamp
    ensures (HeaderBytes(t) + r)[..4] == [t.kind] + Be24(|t.data|)
    ensures (HeaderBytes(t) + r)[8..11] == Be24(t.streamId)
  {
    hide Be24, Dec24, StampOf, StampBytes;
    var s := HeaderBytes(t) + r;
    assert s[1..] == Be24(|t.data|) + (StampBytes(t.timestamp) + Be24(t.streamId) + r);
    Dec24Be24(|t.data|, StampBytes(t.timestamp) + Be24(t.streamId) + r);
    assert s[4..] == StampBytes(t.timestamp) + (Be24(t.streamId) + r);
    StampRoundTrip(t.timestamp, Be24(t.streamId) + r);
  }

  // ---- Re-timing an aggregate ----

  function DataSize(s: seq<Byte>): U24
    requires |s| >= TAG_HEADER
  {
    Dec24(s[1..])
  }

  /** A tag header with its timestamp moved by delta. */
  function MovedHeader(s: seq<Byte>, delta: U32): (r: seq<Byte>)
    requires |s| >= TAG_HEADER
    ensures |r| == TAG_HEADER
  {
    s[..4] + StampBytes(Wrap32(StampOf(s[4..]) + delta)) + s[8..11]
  }

  /** The first tag of the aggregate s with its timestamp moved by delta and its trailing size
      put right, whatever was there. A tag that claims more data than there are bytes gets
      neither data nor a trailing size. */
  function FirstRetimed(s: seq<Byte>, delta: U32): (r: seq<Byte>)
    requires |s| >= TAG_HEADER
    ensures |r| == if TAG_HEADER + DataSize(s) > |s| then |s| else TAG_HEADER + DataSize(s) + 4
  {
    var n := TAG_HEADER + DataSize(s);
    if n > |s| then MovedHeader(s, delta) + s[TAG_HEADER..]
    else MovedHeader(s, delta) + s[TAG_HEADER..n] + Be32(n)
  }

  /** The aggregate s with its tags re-timed. The loop stops at a tag that claims too much, and
      leaves fewer than 12 bytes at the end as they are. */
  function Retimed(s: seq<Byte>, delta: U32): seq<Byte>
    decreases |s|
  {
    if |s| <= TAG_HEADER then s
    else
      var next := TAG_HEADER + DataSize(s) + 4;
      if next > |s| then FirstRetimed(s, delta)
      else FirstRetimed(s, delta) + Retimed(s[next..], delta)
  }

  /** The loop appends the last tag's trailing size. */
  predicate Unfinished(s: seq<Byte>)
    decreases |s|
  {
    |s| > TAG_HEADER &&
    var n := TAG_HEADER + DataSize(s);
    n <= |s| && (n + 4 > |s| || Unfinished(s[n + 4..]))
  }

  /** The last tag's trailing size is there or missing as a whole. If only some of its bytes
      are there, the loop counts bytes it has not written. */
  predicate WholeTrailer(s: seq<Byte>)
    decreases |s|
  {
    |s| > TAG_HEADER ==>
      var n := TAG_HEADER + DataSize(s);
      n >= |s| || (n + 4 <= |s| && WholeTrailer(s[n + 4..]))
  }

  /** The timestamp the loop ends with: that of the last tag it visited, moved. */
  function LastStamp(s: seq<Byte>, delta: U32, before: U32): U32
    decreases |s|
  {
    if |s| <= TAG_HEADER then before
    else
      var n := TAG_HEADER + DataSize(s);
      var stamp := Wrap32(StampOf(s[4..]) + delta);
      if n + 4 > |s| then stamp else LastStamp(s[n + 4..], delta, stamp)
  }

  /** Some visited tag has this kind. */
  predicate HasKind(s: seq<Byte>, kind: Byte)
    decreases |s|
  {
    |s| > TAG_HEADER &&
    (s[0] == kind ||
    var n := TAG_HEADER + DataSize(s);
    n + 4 <= |s| && HasKind(s[n + 4..], kind))
  }

  /** The loop's own count, four bytes more if it appends a trailing size, is that of the bytes it
      has written exactly when the last trailing size is whole or wholly missing. */
  lemma {:induction false} RetimedLength(s: seq<Byte>, delta: U32)
    ensures |s| <= |Retimed(s, delta)| + 3 && |Retimed(s, delta)| <= |s| + 4
    ensures WholeTrailer(s) <==> |Retimed(s, delta)| == |s| + if Unfinished(s) then 4 else 0
    ensures |s| > 0 ==> |Retimed(s, delta)| > 0
    decreases |s|
  {
    hide MovedHeader, Be32, DataSize;
    if |s| > TAG_HEADER {
      var n := TAG_HEADER + DataSize(s);
      if n + 4 <= |s| {
        RetimedLength(s[n + 4..], delta);
      }
    }
  }

  /** One byte of a trailing size, where the loop counts 17 bytes and writes 16. */
  lemma PartOfATrailer(delta: U32)
    ensures var s := HeaderBytes(Tag(AUDIO, 0, 0, [7])) + [7] + [0];
            |s| == 13 && Unfinished(s) && |Retimed(s, delta)| == 16
  {
    hide MovedHeader, Be32;
    var t := Tag(AUDIO, 0, 0, [7]);
    HeaderFields(t, [7, 0]);
    assert HeaderBytes(t) + [7] + [0] == HeaderBytes(t) + [7, 0];
  }

  /** An aggregate body: complete tags, each with four bytes of trailing size whatever they
      say; the last one's may be missing. */
  function AggregateBytes(tags: seq<Tag>, trailers: seq<seq<Byte>>): seq<Byte>
    requires |tags| == |trailers|
  {
    if tags == [] then []
    else HeaderBytes(tags[0]) + tags[0].data + trailers[0] + AggregateBytes(tags[1..], trailers[1..])
  }

  predicate Trailed(tags: seq<Tag>, trailers: seq<seq<Byte>>) {
    |tags| == |trailers| &&
    (forall i :: 0 <= i < |tags| ==> tags[i].Fits()) &&
    (forall i :: 0 <= i < |tags| ==> |trailers[i]| == 4 || (i == |tags| - 1 && trailers[i] == []))
  }

  /** Only an empty last tag without its trailing size is overlooked. */
  predicate AllVisited(tags: seq<Tag>, trailers: seq<seq<Byte>>)
    requires Trailed(tags, trailers)
  {
    tags != [] ==> tags[|tags| - 1].data != [] || trailers[|tags| - 1] != []
  }

  lemma FirstOfAggregate(t: Tag, trailer: seq<Byte>, rest: seq<Byte>, delta: U32)
    requires t.Fits() && (|trailer| == 4 || (trailer == [] && rest == []))
    ensures var s := HeaderBytes(t) + t.data + trailer + rest;
            var n := TAG_HEADER + |t.data|;
            DataSize(s) == |t.data| && MovedHeader(s, delta) == HeaderBytes(t.Shift(delta)) &&
            s[TAG_HEADER..n] == t.data && s[n + |trailer|..] == rest && |s| == n + |trailer| + |rest|
  {
    hide Be24, Dec24, StampOf, StampBytes, HeaderBytes;
    var h := HeaderBytes(t);
    var s := h + t.data + trailer + rest;
    assert s == h + (t.data + trailer + rest);
    HeaderFields(t, t.data + trailer + rest);
    ShiftedHeader(t, delta);
    DropPrefix(h + t.data + trailer, rest);
    Assoc(h + t.data, trailer, rest);
    Middle(h, t.data, trailer + rest);
  }

  lemma ShiftedHeader(t: Tag, delta: U32)
    ensures HeaderBytes(t.Shift(delta)) ==
            [t.kind] + Be24(|t.data|) + StampBytes(Wrap32(t.timestamp + delta)) + Be24(t.streamId)
  {
  }

  /** The tags come out with the same kinds, stream ids and data, every timestamp moved by
      the same amount mod 2^32, and every trailing size that of its data plus 11, exactly
      when the loop visits them all. */
  lemma {:induction false} AggregateRetimed(tags: seq<Tag>, trailers: seq<seq<Byte>>, delta: U32)
    requires Trailed(tags, trailers)
    ensures AllVisited(tags, trailers) <==>
      Retimed(AggregateBytes(tags, trailers), delta) == TagsBytes(Shifted(tags, delta))
    ensures WholeTrailer(AggregateBytes(tags, trailers))
    decreases |tags|
  {
    hide DataSize, MovedHeader, HeaderBytes, Be32, Tag.Shift;
    if tags != [] {
      var t, trailer := tags[0], trailers[0];
      var rest := AggregateBytes(tags[1..], trailers[1..]);
      var s := HeaderBytes(t) + t.data + trailer + rest;
      assert s == AggregateBytes(tags, trailers);
      var moved := Shifted(tags, delta);
      assert moved[0] == t.Shift(delta) && moved[1..] == Shifted(tags[1..], delta);
      FirstOfAggregate(t, trailer, rest, delta);
      if |trailer| == 4 {
        AggregateRetimed(tags[1..], trailers[1..], delta);
        FirstTagRetimed(t, trailer, rest, delta);
        SameTail(TagBytes(t.Shift(delta)), Retimed(rest, delta), TagsBytes(moved[1..]));
      } else {
        assert tags[1..] == [] && moved[1..] == [];
        assert TagsBytes(moved) == TagBytes(moved[0]);
      }
    }
  }

  /** A tag that is cut off inside its data keeps what there is of it, is given no trailing size, and is
      moved all the same. */
  lemma CutOffTag(t: Tag, k: nat, delta: U32)
    requires t.Fits() && 0 < k < |t.data|
    ensures Retimed(HeaderBytes(t) + t.data[..k], delta) == HeaderBytes(t.Shift(delta)) + t.data[..k]
  {
    hide HeaderBytes, StampBytes, StampOf, Be24, Dec24;
    var s := HeaderBytes(t) + t.data[..k];
    HeaderFields(t, t.data[..k]);
    ShiftedHeader(t, delta);
    DropPrefix(HeaderBytes(t), t.data[..k]);
  }

  /** What the loop notes of an aggregate whose tags it visits all: the kinds that some tag has, and
      the time of the last tag. */
  lemma {:induction false} AggregateSeen(tags: seq<Tag>, trailers: seq<seq<Byte>>, delta: U32, before: U32, kind: Byte)
    requires Trailed(tags, trailers) && AllVisited(tags, trailers)
    ensures var s := AggregateBytes(tags, trailers);
            (HasKind(s, kind) <==> SomeTag(tags, kind)) &&
            LastStamp(s, delta, before) ==
              if tags == [] then before else Wrap32(tags[|tags| - 1].timestamp + delta)
    decreases |tags|
  {
    hide HeaderBytes, HasKind, LastStamp, SomeTag, AllVisited, AggregateBytes;
    KindFirstOrLater(tags, kind);
    if tags == [] {
      NothingSeen(delta, before, kind);
    } else {
      var t, trailer := tags[0], trailers[0];
      FirstAndRest(tags, trailers);
      FirstTagSeen(t, trailer, AggregateBytes(tags[1..], trailers[1..]), delta, before, kind);
      if |trailer| == 4 {
        AggregateSeen(tags[1..], trailers[1..], delta, Wrap32(t.timestamp + delta), kind);
      } else {
        KindFirstOrLater(tags[1..], kind);
      }
    }
  }

  lemma FirstAndRest(tags: seq<Tag>, trailers: seq<seq<Byte>>)
    requires Trailed(tags, trailers) && AllVisited(tags, trailers) && tags != []
    ensures tags[0].Fits() && Trailed(tags[1..], trailers[1..]) && AllVisited(tags[1..], trailers[1..])
    ensures var rest := AggregateBytes(tags[1..], trailers[1..]);
            AggregateBytes(tags, trailers) == HeaderBytes(tags[0]) + tags[0].data + trailers[0] + rest &&
            (|trailers[0]| == 4 ||
             (trailers[0] == [] && tags[1..] == [] && rest == [] && tags[0].data != []))
  {
    hide HeaderBytes;
  }

  lemma NothingSeen(delta: U32, before: U32, kind: Byte)
    ensures !HasKind([], kind) && LastStamp([], delta, before) == before && AggregateBytes([], []) == []
  {
  }

  lemma FirstTagSeen(t: Tag, trailer: seq<Byte>, rest: seq<Byte>, delta: U32, before: U32, kind: Byte)
    requires t.Fits() && (|trailer| == 4 || (trailer == [] && rest == [] && t.data != []))
    ensures var s := HeaderBytes(t) + t.data + trailer + rest;
            var stamp := Wrap32(t.timestamp + delta);
            (HasKind(s, kind) <==> t.kind == kind || (|trailer| == 4 && HasKind(rest, kind))) &&
            LastStamp(s, delta, before) == if |trailer| == 4 then LastStamp(rest, delta, stamp) else stamp
  {
    hide DataSize, HeaderBytes, StampOf;
    FirstOfAggregate(t, trailer, rest, delta);
    assert HeaderBytes(t) + t.data + trailer + rest == HeaderBytes(t) + (t.data + trailer + rest);
    HeaderFields(t, t.data + trailer + rest);
  }

  predicate SomeTag(tags: seq<Tag>, kind: Byte) {
    exists i :: 0 <= i < |tags| && tags[i].kind == kind
  }

  lemma KindFirstOrLater(tags: seq<Tag>, kind: Byte)
    ensures SomeTag(tags, kind) <==> tags != [] && (tags[0].kind == kind || SomeTag(tags[1..], kind))
  {
    if SomeTag(tags, kind) {
      var i :| 0 <= i < |tags| && tags[i].kind == kind;
      assert i > 0 ==> tags[i] == tags[1..][i - 1];
    }
    if tags != [] && SomeTag(tags[1..], kind) {
      var i :| 0 <= i < |tags[1..]| && tags[1..][i].kind == kind;
      assert tags[1..][i] == tags[i + 1];
    }
  }

  /** Tags can be read backwards: from the end of any number of them the trailing size leads to where
      the last one begins. */
  lemma TrailersLeadBack(tags: seq<Tag>)
    requires tags != [] && tags[|tags| - 1].Fits()
    ensures var s, front := TagsBytes(tags), TagsBytes(tags[..|tags| - 1]);
            s == front + TagBytes(tags[|tags| - 1]) && 4 <= |s| && Dec32(s[|s| - 4..]) == |s| - |front| - 4
  {
    hide HeaderBytes, Be32, Dec32, TagsBytes;
    var t, front := tags[|tags| - 1], TagsBytes(tags[..|tags| - 1]);
    var body, trailer := HeaderBytes(t) + t.data, Be32(|t.data| + TAG_HEADER);
    TagsBytesLast(tags);
    Assoc(front, body, trailer);
    DropPrefix(front + body, trailer);
    Dec32Be32(|t.data| + TAG_HEADER, []);
    assert trailer + [] == trailer;
  }

  lemma {:induction false} TagsBytesLast(tags: seq<Tag>)
    requires tags != []
    ensures TagsBytes(tags) == TagsBytes(tags[..|tags| - 1]) + TagBytes(tags[|tags| - 1])
    decreases |tags|
  {
    hide TagBytes;
    var n, t := |tags| - 1, tags[0];
    if n == 0 {
      assert tags[1..] == [] && tags[..0] == [];
      assert TagsBytes(tags) == TagBytes(t) + TagsBytes([]) && TagsBytes([]) == [];
    } else {
      TagsBytesLast(tags[1..]);
      assert tags[..n][1..] == tags[1..][..n - 1] && tags[..n][0] == t && tags[1..][n - 1] == tags[n];
      Assoc(TagBytes(t), TagsBytes(tags[1..][..n - 1]), TagBytes(tags[n]));
    }
  }

  /** An empty tag at the end without its trailing size stays as it is, at any delta. */
  lemma EmptyLastTag(delta: U32)
    ensures var tags, trailers: seq<seq<Byte>> := [Tag(AUDIO, 5, 0, [])], [[]];
            Trailed(tags, trailers) && !AllVisited(tags, trailers) &&
            Retimed(AggregateBytes(tags, trailers), delta) == HeaderBytes(tags[0]) != TagsBytes(Shifted(tags, delta))
  {
    hide HeaderBytes;
    var tags, trailers: seq<seq<Byte>> := [Tag(AUDIO, 5, 0, [])], [[]];
    assert tags[1..] == [] && trailers[1..] == [];
    assert AggregateBytes([], []) == [];
    assert AggregateBytes(tags, trailers) == HeaderBytes(tags[0]);
    AggregateRetimed(tags, trailers, delta);
  }

  lemma FirstTagRetimed(t: Tag, trailer: seq<Byte>, rest: seq<Byte>, delta: U32)
    requires t.Fits() && |trailer| == 4
    ensures var s := HeaderBytes(t) + t.data + trailer + rest;
            Retimed(s, delta) == TagBytes(t.Shift(delta)) + Retimed(rest, delta) &&
            (WholeTrailer(s) <==> WholeTrailer(rest))
  {
    hide DataSize, MovedHeader, HeaderBytes, Be32, Tag.Shift;
    FirstOfAggregate(t, trailer, rest, delta);
  }

  lemma SameTail<T>(a: seq<T>, b: seq<T>, c: seq<T>)
    ensures a + b == a + c <==> b == c
  {
    if a + b == a + c {
      DropPrefix(a, b);
      DropPrefix(a, c);
    }
  }
}
