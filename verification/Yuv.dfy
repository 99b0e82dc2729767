/** Clockwise rotation by 90 degrees of a YUV 4:2:0 frame (YUVUtil.java). */
module Yuv {
  import opened Bytes
  import opened Arith

  const NV12 := 1
  const YUV420P := 3

  /** Where the element at position k of a rotated w by h plane (h columns, w rows) comes from. */
  function Source(k: nat, w: nat, h: nat): (s: nat)
    requires h > 0 && k < w * h
    ensures s < w * h
  {
    var i, j := k / h, k % h;
    Bounds(k, w, h);
    MulMono(h - 1 - j, h - 1, w);
    Distrib(h, 1, w);
    i + w * (h - 1 - j)
  }

  /** A plane of h rows of w elements, rotated. */
  function Rotated<T>(s: seq<T>, w: nat, h: nat): (r: seq<T>)
    requires |s| == w * h
    ensures |r| == |s|
  {
    seq(w * h, k requires 0 <= k < w * h => NonZero(k, w, h); s[Source(k, w, h)])
  }

  lemma NonZero(k: nat, w: nat, h: nat)
    requires k < w * h
    ensures h > 0 && w > 0
  {
  }

  lemma MulMono(a: nat, b: nat, c: nat)
    requires a <= b
    ensures c * a <= c * b && a * c <= b * c
  {
  }

  lemma Bounds(k: nat, w: nat, h: nat)
    requires h > 0 && k < w * h
    ensures 0 <= k / h < w && 0 <= k % h < h
  {
    Euclid(k, h);
    if k / h >= w {
      MulMono(w, k / h, h);
    }
  }

  lemma Row(i: nat, j: nat, w: nat, h: nat)
    requires i < w && j < h
    ensures i * h + j < w * h && (i * h + j) / h == i && (i * h + j) % h == j
  {
    MulMono(i + 1, w, h);
    Distrib(i, 1, h);
    DivUnique(i * h + j, h, i, j);
  }

  /** Row i, column j of the rotated plane is row h - 1 - j, column i of the original. */
  lemma RotatedAt<T>(s: seq<T>, w: nat, h: nat, i: nat, j: nat)
    requires |s| == w * h && i < w && j < h
    ensures 0 <= i * h + j < w * h && 0 <= (h - 1 - j) * w + i < w * h
    ensures Rotated(s, w, h)[i * h + j] == s[(h - 1 - j) * w + i]
  {
    hide Source;
    Row(i, j, w, h);
    Row(h - 1 - j, i, h, w);
    SourceAt(i, j, w, h);
  }

  lemma SourceAt(i: nat, j: nat, w: nat, h: nat)
    requires i < w && j < h && i * h + j < w * h
    ensures Source(i * h + j, w, h) == (h - 1 - j) * w + i
  {
    Row(i, j, w, h);
    Commute(w, h - 1 - j);
  }

  lemma Commute(a: int, b: int)
    ensures a * b == b * a
  {
  }

  /** Every element of the plane arrives at exactly one place. */
  lemma EachOnce<T>(s: seq<T>, w: nat, h: nat, p: nat)
    requires |s| == w * h && p < w * h
    ensures exists k :: 0 <= k < w * h && SourceIs(k, w, h, p) && Rotated(s, w, h)[k] == s[p]
    ensures forall k, l :: 0 <= k < w * h && 0 <= l < w * h && SourceIs(k, w, h, p) && SourceIs(l, w, h, p) ==> k == l
  {
    NonZero(p, w, h);
    var r, c := p / w, p % w;
    Bounds(p, h, w);
    Euclid(p, w);
    var k := c * h + (h - 1 - r);
    RotatedAt(s, w, h, c, h - 1 - r);
    Row(c, h - 1 - r, w, h);
    assert SourceIs(k, w, h, p);
    forall l | 0 <= l < w * h && SourceIs(l, w, h, p) ensures l == k {
      OnlySource(l, w, h, p);
    }
  }

  predicate SourceIs(k: int, w: nat, h: nat, p: nat) {
    0 <= k < w * h && h > 0 && Source(k, w, h) == p
  }

  lemma OnlySource(l: nat, w: nat, h: nat, p: nat)
    requires SourceIs(l, w, h, p)
    ensures w > 0 && l == p % w * h + (h - 1 - p / w)
  {
    NonZero(l, w, h);
    Bounds(l, w, h);
    Euclid(l, h);
    DivUnique(p, w, h - 1 - l % h, l / h);
  }

  /** Two rotations turn a plane upside down. */
  lemma TwiceAt<T>(s: seq<T>, w: nat, h: nat, k: nat)
    requires |s| == w * h && k < w * h
    ensures w * h == h * w && Rotated(Rotated(s, w, h), h, w)[k] == s[w * h - 1 - k]
  {
    NonZero(k, w, h);
    var i, j := k / w, k % w;
    Bounds(k, h, w);
    Euclid(k, w);
    RotatedAt(Rotated(s, w, h), h, w, i, j);
    RotatedAt(s, w, h, w - 1 - j, i);
    Distrib(h - 1, i, w);
    Distrib(h, 1, w);
  }

  /** Four rotations, with the sizes swapped each time, are none. */
  lemma FourTimes<T>(s: seq<T>, w: nat, h: nat)
    requires |s| == w * h
    ensures w * h == h * w && Rotated(Rotated(Rotated(Rotated(s, w, h), h, w), w, h), h, w) == s
  {
    hide Rotated, Source;
    var t := Rotated(Rotated(s, w, h), h, w);
    var u := Rotated(Rotated(t, w, h), h, w);
    forall k | 0 <= k < w * h ensures u[k] == s[k] {
      TwiceAt(t, w, h, k);
      TwiceAt(s, w, h, w * h - 1 - k);
    }
  }

  // ---- Frames ----

  /** Sizes of a 4:2:0 frame are even. */
  predicate EvenSizes(w: nat, h: nat) { w % 2 == 0 && h % 2 == 0 }

  lemma Quarter(w: nat, h: nat)
    requires EvenSizes(w, h)
    ensures w * h == 4 * ((w / 2) * (h / 2)) && w * h * 3 / 2 == w * h + 2 * ((w / 2) * (h / 2))
  {
    var x, y := w / 2, h / 2;
    assert w * h == (2 * x) * (2 * y) == 4 * (x * y);
  }

  function Pairs<T>(s: seq<T>): (r: seq<(T, T)>)
    requires |s| % 2 == 0
    ensures |r| == |s| / 2
  {
    seq(|s| / 2, k requires 0 <= k < |s| / 2 => (s[2 * k], s[2 * k + 1]))
  }

  function Interleaved<T>(p: seq<(T, T)>): (s: seq<T>)
    ensures |s| == 2 * |p|
  {
    seq(2 * |p|, k requires 0 <= k < 2 * |p| => if k % 2 == 0 then p[k / 2].0 else p[k / 2].1)
  }

  function Firsts<T>(p: seq<(T, T)>): (s: seq<T>)
    ensures |s| == |p|
  {
    seq(|p|, k requires 0 <= k < |p| => p[k].0)
  }

  function Seconds<T>(p: seq<(T, T)>): (s: seq<T>)
    ensures |s| == |p|
  {
    seq(|p|, k requires 0 <= k < |p| => p[k].1)
  }

  predicate Frame<T>(s: seq<T>, w: nat, h: nat) {
    EvenSizes(w, h) && |s| == w * h + 2 * ((w / 2) * (h / 2))
  }

  /** A frame with interleaved chroma, rotated: luma, and chroma pairs as they are. */
  function RotatedNv12<T>(s: seq<T>, w: nat, h: nat): (r: seq<T>)
    requires Frame(s, w, h)
    ensures |r| == |s|
  {
    Rotated(s[..w * h], w, h) + Interleaved(Rotated(Pairs(s[w * h..]), w / 2, h / 2))
  }

  /** A planar frame, rotated: each plane for itself. */
  function RotatedPlanar<T>(s: seq<T>, w: nat, h: nat): (r: seq<T>)
    requires Frame(s, w, h)
    ensures |r| == |s|
  {
    var n, q := w * h, (w / 2) * (h / 2);
    Rotated(s[..n], w, h) + Rotated(s[n..n + q], w / 2, h / 2) + Rotated(s[n + q..], w / 2, h / 2)
  }

  /** From interleaved to planar chroma. */
  function Deinterleaved<T>(s: seq<T>, w: nat, h: nat): (r: seq<T>)
    requires Frame(s, w, h)
    ensures |r| == |s|
  {
    s[..w * h] + Firsts(Pairs(s[w * h..])) + Seconds(Pairs(s[w * h..]))
  }

  lemma PairsInterleaved<T>(p: seq<(T, T)>)
    ensures Pairs(Interleaved(p)) == p
  {
  }

  lemma InterleavedPairs<T>(s: seq<T>)
    requires |s| % 2 == 0
    ensures Interleaved(Pairs(s)) == s
  {
  }

  lemma RotatedParts<T>(p: seq<(T, T)>, w: nat, h: nat)
    requires |p| == w * h
    ensures Firsts(Rotated(p, w, h)) == Rotated(Firsts(p), w, h)
    ensures Seconds(Rotated(p, w, h)) == Rotated(Seconds(p), w, h)
  {
    forall k | 0 <= k < w * h ensures Rotated(p, w, h)[k].0 == Rotated(Firsts(p), w, h)[k] &&
      Rotated(p, w, h)[k].1 == Rotated(Seconds(p), w, h)[k] {
      NonZero(k, w, h);
    }
  }

  /** Rotating an NV12 frame and separating its chroma planes is the same as separating them
      and rotating the planar frame. */
  lemma RotationCommutes<T>(s: seq<T>, w: nat, h: nat)
    requires Frame(s, w, h)
    ensures w * h == h * w && Frame(RotatedNv12(s, w, h), h, w)
    ensures Deinterleaved(RotatedNv12(s, w, h), h, w) == RotatedPlanar(Deinterleaved(s, w, h), w, h)
  {
    hide Rotated, Pairs, Interleaved, Firsts, Seconds;
    var n, q := w * h, (w / 2) * (h / 2);
    var y, p := s[..n], Pairs(s[n..]);
    Commute(w, h);
    Commute(w / 2, h / 2);
    var r := Rotated(p, w / 2, h / 2);
    PairsInterleaved(r);
    RotatedParts(p, w / 2, h / 2);
    DropPrefix(Rotated(y, w, h), Interleaved(r));
    Planes(y, Firsts(p), Seconds(p));
  }

  lemma Planes<T>(y: seq<T>, u: seq<T>, v: seq<T>)
    ensures (y + u + v)[..|y|] == y && (y + u + v)[|y|..|y| + |u|] == u && (y + u + v)[|y| + |u|..] == v
  {
  }

  lemma Nv12Parts<T>(s: seq<T>, w: nat, h: nat)
    requires Frame(s, w, h)
    ensures w * h == h * w && w * h <= |s| && Frame(RotatedNv12(s, w, h), h, w)
    ensures var r := RotatedNv12(s, w, h);
            r[..w * h] == Rotated(s[..w * h], w, h) && |s[w * h..]| % 2 == 0 == |r[w * h..]| % 2 &&
            |Pairs(s[w * h..])| == (w / 2) * (h / 2) &&
            Pairs(r[w * h..]) == Rotated(Pairs(s[w * h..]), w / 2, h / 2)
  {
    hide Rotated, Pairs, Interleaved;
    Commute(w, h);
    Commute(w / 2, h / 2);
    var y, r := Rotated(s[..w * h], w, h), Rotated(Pairs(s[w * h..]), w / 2, h / 2);
    DropPrefix(y, Interleaved(r));
    PairsInterleaved(r);
  }

  /** Where the chroma bytes of a rotated frame come from: pair by pair like the elements of a plane of
      half the size, the first of a pair (c = 0) to the first and the second to the second ... */
  lemma Nv12At<T>(s: seq<T>, w: nat, h: nat, i: nat, j: nat, c: nat)
    requires Frame(s, w, h) && i < w / 2 && j < h / 2 && c < 2
    ensures var k, from := i * (h / 2) + j, (h / 2 - 1 - j) * (w / 2) + i;
            0 <= w * h + 2 * k + c < |s| && 0 <= w * h + 2 * from + c < |s| &&
            RotatedNv12(s, w, h)[w * h + 2 * k + c] == s[w * h + 2 * from + c]
  {
    hide Rotated, Pairs, RotatedNv12;
    Nv12Parts(s, w, h);
    assert |s| == w * h + 2 * ((w / 2) * (h / 2));
    RotatedAt(Pairs(s[w * h..]), w / 2, h / 2, i, j);
    InPair(s, RotatedNv12(s, w, h), w * h, (w / 2) * (h / 2), i * (h / 2) + j, (h / 2 - 1 - j) * (w / 2) + i, c);
  }

  lemma InPair<T>(s: seq<T>, r: seq<T>, n: nat, q: nat, k: nat, from: nat, c: nat)
    requires |s| == |r| == n + 2 * q && k < q && from < q && c < 2 && Pairs(r[n..])[k] == Pairs(s[n..])[from]
    ensures r[n + 2 * k + c] == s[n + 2 * from + c]
  {
    assert r[n..][2 * k + c] == s[n..][2 * from + c];
  }

  lemma SameNv12<T>(s: seq<T>, t: seq<T>, n: nat)
    requires n <= |s| == |t| && s[..n] == t[..n] && (|s| - n) % 2 == 0 && Pairs(s[n..]) == Pairs(t[n..])
    ensures s == t
  {
    hide Pairs, Interleaved;
    InterleavedPairs(s[n..]);
    InterleavedPairs(t[n..]);
    assert s == s[..n] + s[n..];
    assert t == t[..n] + t[n..];
  }

  /** Four rotations of a frame are none, with interleaved chroma ... */
  lemma Nv12FourTimes<T>(s: seq<T>, w: nat, h: nat)
    requires Frame(s, w, h)
    ensures Frame(RotatedNv12(s, w, h), h, w) && Frame(RotatedNv12(RotatedNv12(s, w, h), h, w), w, h) &&
            Frame(RotatedNv12(RotatedNv12(RotatedNv12(s, w, h), h, w), w, h), h, w)
    ensures RotatedNv12(RotatedNv12(RotatedNv12(RotatedNv12(s, w, h), h, w), w, h), h, w) == s
  {
    hide Rotated, Pairs, RotatedNv12, Frame;
    Nv12Parts(s, w, h);
    var s1 := RotatedNv12(s, w, h);
    Nv12Parts(s1, h, w);
    var s2 := RotatedNv12(s1, h, w);
    Nv12Parts(s2, w, h);
    var s3 := RotatedNv12(s2, w, h);
    Nv12Parts(s3, h, w);
    FourTimes(s[..w * h], w, h);
    FourTimes(Pairs(s[w * h..]), w / 2, h / 2);
    SameNv12(RotatedNv12(s3, h, w), s, w * h);
  }

  lemma PlanarParts<T>(s: seq<T>, w: nat, h: nat)
    requires Frame(s, w, h)
    ensures w * h == h * w && (w / 2) * (h / 2) == (h / 2) * (w / 2) && Frame(RotatedPlanar(s, w, h), h, w)
    ensures var r, n, q := RotatedPlanar(s, w, h), w * h, (w / 2) * (h / 2);
            n + q <= |s| && |s| - n - q == q && r[..n] == Rotated(s[..n], w, h) &&
            r[n..n + q] == Rotated(s[n..n + q], w / 2, h / 2) && r[n + q..] == Rotated(s[n + q..], w / 2, h / 2)
  {
    hide Rotated;
    Commute(w, h);
    Commute(w / 2, h / 2);
    var n, q := w * h, (w / 2) * (h / 2);
    Planes(Rotated(s[..n], w, h), Rotated(s[n..n + q], w / 2, h / 2), Rotated(s[n + q..], w / 2, h / 2));
  }

  /** ... and in a planar frame plane by plane. */
  lemma PlanarAt<T>(s: seq<T>, w: nat, h: nat, i: nat, j: nat)
    requires Frame(s, w, h) && i < w / 2 && j < h / 2
    ensures var k, from := i * (h / 2) + j, (h / 2 - 1 - j) * (w / 2) + i;
            var u, v := w * h, w * h + (w / 2) * (h / 2);
            0 <= u + k < v && 0 <= u + from < v && 0 <= v + k < |s| && 0 <= v + from < |s| &&
            RotatedPlanar(s, w, h)[u + k] == s[u + from] && RotatedPlanar(s, w, h)[v + k] == s[v + from]
  {
    hide Rotated, RotatedPlanar;
    var n, q := w * h, (w / 2) * (h / 2);
    PlanarParts(s, w, h);
    RotatedAt(s[n..n + q], w / 2, h / 2, i, j);
    RotatedAt(s[n + q..], w / 2, h / 2, i, j);
    InPlane(s, RotatedPlanar(s, w, h), n, q, i * (h / 2) + j, (h / 2 - 1 - j) * (w / 2) + i);
  }

  lemma InPlane<T>(s: seq<T>, r: seq<T>, n: nat, q: nat, k: nat, from: nat)
    requires |s| == |r| == n + q + q && k < q && from < q
    requires r[n..n + q][k] == s[n..n + q][from] && r[n + q..][k] == s[n + q..][from]
    ensures r[n + k] == s[n + from] && r[n + q + k] == s[n + q + from]
  {
  }

  lemma SamePlanar<T>(s: seq<T>, t: seq<T>, n: nat, q: nat)
    requires n + q <= |s| == |t| && s[..n] == t[..n] && s[n..n + q] == t[n..n + q] && s[n + q..] == t[n + q..]
    ensures s == t
  {
    assert s == s[..n] + s[n..n + q] + s[n + q..];
    assert t == t[..n] + t[n..n + q] + t[n + q..];
  }

  /** ... and planar. */
  lemma PlanarFourTimes<T>(s: seq<T>, w: nat, h: nat)
    requires Frame(s, w, h)
    ensures Frame(RotatedPlanar(s, w, h), h, w) && Frame(RotatedPlanar(RotatedPlanar(s, w, h), h, w), w, h) &&
            Frame(RotatedPlanar(RotatedPlanar(RotatedPlanar(s, w, h), h, w), w, h), h, w)
    ensures RotatedPlanar(RotatedPlanar(RotatedPlanar(RotatedPlanar(s, w, h), h, w), w, h), h, w) == s
  {
    hide Rotated, RotatedPlanar, Frame;
    PlanarParts(s, w, h);
    var n, q := w * h, (w / 2) * (h / 2);
    var s1 := RotatedPlanar(s, w, h);
    PlanarParts(s1, h, w);
    var s2 := RotatedPlanar(s1, h, w);
    PlanarParts(s2, w, h);
    var s3 := RotatedPlanar(s2, w, h);
    PlanarParts(s3, h, w);
    FourTimes(s[..n], w, h);
    FourTimes(s[n..n + q], w / 2, h / 2);
    FourTimes(s[n + q..], w / 2, h / 2);
    SamePlanar(RotatedPlanar(s3, h, w), s, n, q);
  }

  // ---- The loops ----

  /** YUV420BytesClockwise90Rotate. Other layouts keep the zero chroma of a new array. */
  method Rotate(bytes: array<Byte>, width: nat, height: nat, layout: int) returns (temp: array<Byte>)
    requires EvenSizes(width, height) && bytes.Length >= width * height * 3 / 2
    ensures fresh(temp) && temp.Length == width * height * 3 / 2 && Frame(bytes[..temp.Length], width, height)
    ensures layout == NV12 ==> temp[..] == RotatedNv12(bytes[..temp.Length], width, height)
    ensures layout == YUV420P ==> temp[..] == RotatedPlanar(bytes[..temp.Length], width, height)
    ensures layout != NV12 && layout != YUV420P ==>
            temp[..] == Rotated(bytes[..width * height], width, height) + seq(2 * ((width / 2) * (height / 2)), _ => 0)
  {
    hide Rotated, Pairs, Interleaved, RotatedNv12, RotatedPlanar;
    Quarter(width, height);
    temp := new Byte[width * height * 3 / 2](_ => 0);
    var index := RotateLuma(bytes, width, height, temp);
    ghost var y := temp[..index];
    ghost var q := (width / 2) * (height / 2);
    if layout == NV12 {
      RotatePairs(bytes, width, height, temp, index);
      assert temp[..index] == y;
      Nv12Built(bytes[..], temp[..], width, height);
    } else if layout == YUV420P {
      RotatePlanes(bytes, width, height, temp, index);
      assert temp[..index] == y;
      PlanarBuilt(bytes[..], temp[..], width, height);
    } else {
      assert temp[index..] == seq(2 * q, _ => 0);
      Joined(temp[..], index, y);
    }
  }

  lemma Nv12Built(s: seq<Byte>, t: seq<Byte>, w: nat, h: nat)
    requires |t| <= |s| && Frame(s[..|t|], w, h)
    requires var n := w * h;
             t[..n] == Rotated(s[..n], w, h) && t[n..] == Interleaved(Rotated(Pairs(s[n..|t|]), w / 2, h / 2))
    ensures t == RotatedNv12(s[..|t|], w, h)
  {
    hide Rotated, Pairs, Interleaved;
    SubDropTake(s, w * h, |t|);
    Joined(t, w * h, t[..w * h]);
  }

  lemma PlanarBuilt(s: seq<Byte>, t: seq<Byte>, w: nat, h: nat)
    requires |t| <= |s| && Frame(s[..|t|], w, h)
    requires var n, q := w * h, (w / 2) * (h / 2);
             t[..n] == Rotated(s[..n], w, h) && t[n..n + q] == Rotated(s[n..n + q], w / 2, h / 2) &&
             t[n + q..] == Rotated(s[n + q..|t|], w / 2, h / 2)
    ensures t == RotatedPlanar(s[..|t|], w, h)
  {
    hide Rotated;
    var n, q := w * h, (w / 2) * (h / 2);
    SubDropTake(s, n, |t|);
    SubTake(s, |t|, n, n + q);
    SubDropTake(s, n + q, |t|);
    Planes(t[..n], t[n..n + q], t[n + q..]);
    SamePlanar(t, t[..n] + t[n..n + q] + t[n + q..], n, q);
  }

  lemma SubDropTake<T>(s: seq<T>, i: nat, n: nat)
    requires i <= n <= |s|
    ensures s[..n][i..] == s[i..n] && s[..n][..i] == s[..i]
  {
  }

  lemma Joined(t: seq<Byte>, n: nat, y: seq<Byte>)
    requires n <= |t| && t[..n] == y
    ensures t == y + t[n..]
  {
  }

  /** The source of row i, column j of a rotated plane. */
  function Cell(i: nat, j: nat, w: nat, h: nat): int { i + w * (h - j - 1) }

  /** The position of row i in it. */
  function RowStart(i: nat, h: nat): nat { i * h }

  lemma CellOf<T>(s: seq<T>, w: nat, h: nat, i: nat, j: nat, base: nat)
    requires |s| == w * h && i < w && j < h && base == RowStart(i, h)
    ensures base + h <= |s| && 0 <= Cell(i, j, w, h) < |s|
    ensures Rotated(s, w, h)[base + j] == s[Cell(i, j, w, h)]
  {
    hide Rotated;
    RotatedAt(s, w, h, i, j);
    Row(i, h - 1, w, h);
    Commute(w, h - 1 - j);
  }

  /** The planar loop writes the source position the other way round. */
  lemma SameCell(i: nat, j: nat, w: nat, h: nat)
    ensures w * (h - 1) + i - j * w == Cell(i, j, w, h)
  {
    Commute(w, h - 1 - j);
    Commute(j, w);
    Distrib(h - 1, j, w);
    Commute(w, h - 1);
  }

  lemma Rows(i: nat, w: nat, h: nat)
    ensures RowStart(0, h) == 0 && RowStart(i + 1, h) == RowStart(i, h) + h && RowStart(w, h) == w * h
    ensures i < w ==> RowStart(i, h) + h <= w * h
  {
    Distrib(i, 1, h);
    if i < w { MulMono(i + 1, w, h); }
  }

  method RotateLuma(bytes: array<Byte>, width: nat, height: nat, temp: array<Byte>) returns (index: nat)
    requires bytes != temp && width * height <= bytes.Length && width * height <= temp.Length
    modifies temp
    ensures index == width * height
    ensures temp[..index] == Rotated(bytes[..index], width, height)
    ensures forall k :: index <= k < temp.Length ==> temp[k] == old(temp[k])
  {
    hide Rotated, Cell, RowStart;
    ghost var n := width * height;
    ghost var out := Rotated(bytes[..n], width, height);
    index := 0;
    Rows(0, width, height);
    for i := 0 to width
      invariant index == RowStart(i, height) && index <= n
      invariant forall k :: 0 <= k < index ==> temp[k] == out[k]
      invariant forall k :: n <= k < temp.Length ==> temp[k] == old(temp[k])
    {
      Rows(i, width, height);
      index := LumaRow(bytes, width, height, temp, i, index, n, out);
    }
  }

  method LumaRow(bytes: array<Byte>, width: nat, height: nat, temp: array<Byte>, i: nat, start: nat, ghost n: nat,
      ghost out: seq<Byte>)
    returns (index: nat)
    requires bytes != temp && n == width * height <= bytes.Length && n <= temp.Length
    requires i < width && start == RowStart(i, height) && start + height <= n
    requires out == Rotated(bytes[..n], width, height)
    modifies temp
    ensures index == start + height
    ensures forall k :: start <= k < index ==> temp[k] == out[k]
    ensures forall k :: 0 <= k < temp.Length && !(start <= k < index) ==> temp[k] == old(temp[k])
  {
    hide Rotated, Cell, RowStart;
    ghost var y := bytes[..n];
    index := start;
    for j := 0 to height
      invariant index == start + j
      invariant forall k :: start <= k < index ==> temp[k] == out[k]
      invariant forall k :: 0 <= k < temp.Length && !(start <= k < index) ==> temp[k] == old(temp[k])
    {
      CellOf(y, width, height, i, j, start);
      temp[index] := bytes[Cell(i, j, width, height)];
      index := index + 1;
    }
  }

  ghost predicate PairAt<T>(t: seq<T>, start: nat, k: nat, p: (T, T)) {
    start + 2 * k + 1 < |t| && t[start + 2 * k] == p.0 && t[start + 2 * k + 1] == p.1
  }

  lemma PairOf<T>(s: seq<T>, start: nat, k: nat)
    requires start <= |s| && (|s| - start) % 2 == 0 && start + 2 * k + 1 < |s|
    ensures Pairs(s[start..])[k] == (s[k * 2 + start], s[k * 2 + start + 1])
  {
  }

  lemma PairKept<T>(was: seq<T>, now: seq<T>, start: nat, k: nat, p: (T, T))
    requires |was| == |now| && PairAt(was, start, k, p)
    requires now[start + 2 * k] == was[start + 2 * k] && now[start + 2 * k + 1] == was[start + 2 * k + 1]
    ensures PairAt(now, start, k, p)
  {
  }

  lemma PairsDone<T>(t: seq<T>, start: nat, out: seq<(T, T)>)
    requires |t| == start + 2 * |out| && forall k :: 0 <= k < |out| ==> PairAt(t, start, k, out[k])
    ensures t[start..] == Interleaved(out)
  {
    forall i | 0 <= i < 2 * |out| ensures t[start + i] == Interleaved(out)[i] {
      assert PairAt(t, start, i / 2, out[i / 2]);
    }
  }

  method RotatePairs(bytes: array<Byte>, width: nat, height: nat, temp: array<Byte>, start: nat)
    requires bytes != temp && temp.Length <= bytes.Length && Frame(bytes[..temp.Length], width, height)
    requires start == width * height
    modifies temp
    ensures temp[start..] == Interleaved(Rotated(Pairs(bytes[start..temp.Length]), width / 2, height / 2))
    ensures forall k :: 0 <= k < start ==> temp[k] == old(temp[k])
  {
    hide Rotated, Pairs, Interleaved, Cell, RowStart, PairAt;
    var uvHeight, uvWidth, index := height / 2, width / 2, start;
    ghost var p := Pairs(bytes[start..temp.Length]);
    ghost var out := Rotated(p, uvWidth, uvHeight);
    Rows(0, uvWidth, uvHeight);
    for i := 0 to uvWidth
      invariant RowStart(i, uvHeight) <= |p| && index == start + 2 * RowStart(i, uvHeight)
      invariant forall k :: 0 <= k < RowStart(i, uvHeight) ==> PairAt(temp[..], start, k, out[k])
      invariant forall k :: 0 <= k < start ==> temp[k] == old(temp[k])
    {
      Rows(i, uvWidth, uvHeight);
      index := PairRow(bytes, uvWidth, uvHeight, temp, i, start, index, RowStart(i, uvHeight), p, out);
    }
    PairsDone(temp[..], start, out);
  }

  method PairRow(bytes: array<Byte>, uvWidth: nat, uvHeight: nat, temp: array<Byte>, i: nat, ySize: nat, first: nat,
                 ghost base: nat, ghost p: seq<(Byte, Byte)>, ghost out: seq<(Byte, Byte)>)
    returns (index: nat)
    requires bytes != temp && temp.Length == ySize + 2 * |p| <= bytes.Length && |p| == uvWidth * uvHeight
    requires p == Pairs(bytes[ySize..temp.Length])
    requires i < uvWidth && base == RowStart(i, uvHeight) && base + uvHeight <= |p|
    requires out == Rotated(p, uvWidth, uvHeight)
    requires first == ySize + 2 * base && forall k :: 0 <= k < base ==> PairAt(temp[..], ySize, k, out[k])
    modifies temp
    ensures index == ySize + 2 * (base + uvHeight)
    ensures forall k :: 0 <= k < base + uvHeight ==> PairAt(temp[..], ySize, k, out[k])
    ensures forall k :: 0 <= k < ySize ==> temp[k] == old(temp[k])
  {
    hide Rotated, Pairs, Interleaved, Cell, RowStart, PairAt;
    index := first;
    for j := 0 to uvHeight
      invariant index == ySize + 2 * (base + j)
      invariant forall k :: 0 <= k < base + j ==> PairAt(temp[..], ySize, k, out[k])
      invariant forall k :: 0 <= k < ySize ==> temp[k] == old(temp[k])
    {
      CellOf(p, uvWidth, uvHeight, i, j, base);
      var uvStartIndex := Cell(i, j, uvWidth, uvHeight) * 2 + ySize;
      PairOf(bytes[..temp.Length], ySize, Cell(i, j, uvWidth, uvHeight));
      index := CopyPair(bytes, uvStartIndex, temp, index, ySize, base + j, out);
    }
  }

  method CopyPair(bytes: array<Byte>, from: nat, temp: array<Byte>, at: nat, ghost ySize: nat, ghost count: nat,
      ghost out: seq<(Byte, Byte)>)
    returns (index: nat)
    requires bytes != temp && from + 1 < bytes.Length && at + 1 < temp.Length && count < |out|
    requires at == ySize + 2 * count && out[count] == (bytes[from], bytes[from + 1])
    requires forall k :: 0 <= k < count ==> PairAt(temp[..], ySize, k, out[k])
    modifies temp
    ensures index == at + 2
    ensures forall k :: 0 <= k < count + 1 ==> PairAt(temp[..], ySize, k, out[k])
    ensures forall k :: 0 <= k < at ==> temp[k] == old(temp[k])
  {
    ghost var was := temp[..];
    index := at;
    temp[index] := bytes[from];
    index := index + 1;
    temp[index] := bytes[from + 1];
    index := index + 1;
    forall k | 0 <= k < count ensures PairAt(temp[..], ySize, k, out[k]) {
      PairKept(was, temp[..], ySize, k, out[k]);
    }
  }

  method RotatePlanes(bytes: array<Byte>, width: nat, height: nat, temp: array<Byte>, start: nat)
    requires bytes != temp && temp.Length <= bytes.Length && Frame(bytes[..temp.Length], width, height)
    requires start == width * height
    modifies temp
    ensures var q := (width / 2) * (height / 2);
            temp[start..start + q] == Rotated(bytes[start..start + q], width / 2, height / 2) &&
            temp[start + q..] == Rotated(bytes[start + q..temp.Length], width / 2, height / 2)
    ensures forall k :: 0 <= k < start ==> temp[k] == old(temp[k])
  {
    hide Rotated, Cell, RowStart;
    Quarter(width, height);
    var uvCount, w, h, index := start / 4, width / 2, height / 2, start;
    var index1 := start + uvCount;
    ghost var u, v := bytes[start..start + uvCount], bytes[start + uvCount..temp.Length];
    ghost var outU, outV := Rotated(u, w, h), Rotated(v, w, h);
    Rows(0, w, h);
    for i := 0 to w
      invariant index == start + RowStart(i, h) && index1 == index + uvCount && index <= start + uvCount
      invariant forall k :: 0 <= k < RowStart(i, h) ==>
        temp[start + k] == outU[k] && temp[start + uvCount + k] == outV[k]
      invariant forall k :: 0 <= k < start ==> temp[k] == old(temp[k])
    {
      Rows(i, w, h);
      index, index1 := PlanesRow(bytes, w, h, temp, i, start, uvCount, index, index1, RowStart(i, h), u, v);
    }
  }

  method PlanesRow(bytes: array<Byte>, w: nat, h: nat, temp: array<Byte>, i: nat, ySize: nat, uvCount: nat,
                   first: nat, first1: nat, ghost base: nat, ghost u: seq<Byte>, ghost v: seq<Byte>)
    returns (index: nat, index1: nat)
    requires bytes != temp && temp.Length == ySize + 2 * uvCount <= bytes.Length && uvCount == w * h
    requires u == bytes[ySize..ySize + uvCount] && v == bytes[ySize + uvCount..temp.Length]
    requires i < w && base == RowStart(i, h) && base + h <= uvCount && first == ySize + base
    requires first1 == first + uvCount
    modifies temp
    ensures index == first + h && index1 == first1 + h
    ensures forall k :: base <= k < base + h ==>
      temp[ySize + k] == Rotated(u, w, h)[k] && temp[ySize + uvCount + k] == Rotated(v, w, h)[k]
    ensures forall k :: 0 <= k < temp.Length && !(first <= k < index) && !(first1 <= k < index1) ==>
      temp[k] == old(temp[k])
  {
    hide Rotated, Cell, RowStart;
    ghost var outU, outV := Rotated(u, w, h), Rotated(v, w, h);
    index, index1 := first, first1;
    for k := 0 to h
      invariant index == first + k && index1 == first1 + k
      invariant forall l :: base <= l < base + k ==> temp[ySize + l] == outU[l] && temp[ySize + uvCount + l] == outV[l]
      invariant forall l :: 0 <= l < temp.Length && !(first <= l < index) && !(first1 <= l < index1) ==>
        temp[l] == old(temp[l])
    {
      CellOf(u, w, h, i, k, base);
      CellOf(v, w, h, i, k, base);
      var uvPosition := w * (h - 1) + i - k * w;
      SameCell(i, k, w, h);
      temp[index] := bytes[ySize + uvPosition];
      index := index + 1;
      temp[index1] := bytes[ySize + uvCount + uvPosition];
      index1 := index1 + 1;
    }
  }
}
