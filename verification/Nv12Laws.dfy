/** Letterboxing to exactly the rotated size is a plain rotation, and two opposite ones restore the picture. */
module Nv12Laws {
  import opened Wire
  import opened Nv12Model
  import opened Nv12

  /** A plane whose rectangle is the whole destination, of the rotated source's size. */
  ghost predicate Exact(p: Plane, rotation: int) {
    && p.ox == 0 && p.oy == 0
    && p.w == p.dw == RotatedW(p.sw, p.sh, rotation)
    && p.h == p.dh == RotatedH(p.sw, p.sh, rotation)
  }

  lemma FitsExactly(w: int, h: int)
    requires w > 0 && h > 0 && w % 2 == 0
    ensures FitSize(w, h, w, h) == (w, h)
  {
    DivAtMost(w, h * w, h);
    DivAtMost(w + 1, h * w, h);
    assert (w + 1) * h == w * h + h && w * h == h * w;
  }

  /** With a destination of the rotated source's size nothing is black and nothing is scaled. */
  lemma ExactFit(s: View, d: View, rotation: int)
    requires ValidNv12(s) && ValidNv12(d) && Quarter(rotation)
    requires d.width == RotatedW(s.width, s.height, rotation) && d.height == RotatedH(s.width, s.height, rotation)
    ensures Fit(s, d, rotation) == Some(Rect(d.width, d.height, 0, 0))
    ensures Exact(PlaneOf(s, d, Rect(d.width, d.height, 0, 0), 1), rotation)
    ensures Exact(PlaneOf(s, d, Rect(d.width, d.height, 0, 0), 2), rotation)
  {
    hide FitSize, PlaneFits;
    FitsExactly(d.width, d.height);
  }

  lemma ExactSource(p: Plane, rotation: int, stride: nat, Y: int, x: int, c: int)
    requires Exact(p, rotation) && p.w > 0 && p.h > 0
    ensures SourceIndex(p, rotation, stride, Y, x, c)
            == At(SourceY(rotation, x, Y, p.sw, p.sh), SourceX(rotation, x, Y, p.sw, p.sh) * p.unit + c, stride)
  {
    hide At, Nearest;
    NearestSame(x, p.w);
    NearestSame(Y, p.h);
  }

  /** Each byte of an exact plane is the rotated source's. */
  lemma CellShows(before: seq<Byte>, after: seq<Byte>, stride: nat, p: Plane, black: Byte, src: seq<Byte>,
                  rotation: int, ss: nat,
                  Y: int, x: int, c: int)
    requires PlaneOk(p, rotation, src, ss, |before|, stride) && Exact(p, rotation)
    requires Letterboxed(before, after, stride, p, black, Copied(src, p, rotation, ss))
    requires 0 <= Y < p.h && 0 <= x < p.w && 0 <= c < p.unit
    ensures 0 <= x * p.unit + c < p.dw * p.unit && 0 <= At(Y, x * p.unit + c, stride) < |after|
    ensures var sx, sy := SourceX(rotation, x, Y, p.sw, p.sh), SourceY(rotation, x, Y, p.sw, p.sh);
            && 0 <= sx < p.sw && 0 <= sy < p.sh
            && 0 <= At(sy, sx * p.unit + c, ss) < |src|
            && after[At(Y, x * p.unit + c, stride)] == src[At(sy, sx * p.unit + c, ss)]
  {
    hide At, Color, PlaneFits, SourceIndex, SourceX, SourceY;
    var X := x * p.unit + c;
    ByteOfSample(x, c, p.unit, p.w);
    VisibleInPlane(|before|, stride, p.dw * p.unit, p.dh, Y, X);
    ColumnsFit(p, x, c, |before|, stride);
    CopiedIs(p, rotation, src, ss, Y, x, c);
    ExactSource(p, rotation, ss, Y, x, c);
    SourceInside(rotation, x, Y, p.sw, p.sh);
    assert after[At(Y, X, stride)] == Shown(before, stride, p, black, Copied(src, p, rotation, ss), Y, X);
  }

  // ---------------------------------------------------------------- scaling

  lemma QuotientIs(v: int, d: int, k: int)
    requires d > 0
    ensures v / d == k <==> k * d <= v < (k + 1) * d
  {
    DivAtMost(k, v, d);
    DivAtMost(k + 1, v, d);
  }

  lemma EvenBelow(a: nat, b: nat, c: nat)
    requires c > 0
    ensures var e := EvenQuotient(a, b, c); e * c <= a * b < (e + 2) * c
  {
    var q := a * b / c;
    QuotientIs(a * b, c, q);
    var e := Even(q);
    Ordered(e, q, c);
    Ordered(q + 1, e + 2, c);
  }

  lemma Ordered(a: int, b: int, c: int)
    requires a <= b && c > 0
    ensures a * c <= b * c
  {
  }

  /** The fitted size has the picture's aspect ratio, but for what makes its other side even: it spans the
      destination one way, and the other way it is the largest even size that is not too long for it. */
  lemma FitKeepsAspect(rw: int, rh: int, dw: int, dh: int)
    requires rw > 0 && rh > 0 && dw >= 0 && dh >= 0
    ensures var size := FitSize(rw, rh, dw, dh);
            || (size.0 == dw && size.1 * rw <= size.0 * rh < (size.1 + 2) * rw)
            || (size.1 == dh && size.0 * rh <= size.1 * rw < (size.0 + 2) * rh)
  {
    EvenBelow(dw, rh, rw);
    EvenBelow(dh, rw, rh);
  }

  /** No scale at which the picture fits the destination makes either side longer by two or more. */
  lemma FitIsLargest(rw: int, rh: int, dw: int, dh: int, scale: real)
    requires rw > 0 && rh > 0 && dw >= 0 && dh >= 0
    requires 0.0 < scale && scale * rw as real <= dw as real && scale * rh as real <= dh as real
    ensures var size := FitSize(rw, rh, dw, dh);
            scale * rw as real < size.0 as real + 2.0 && scale * rh as real < size.1 as real + 2.0
  {
    EvenBelow(dw, rh, rw);
    EvenBelow(dh, rw, rh);
    if rw * dh > rh * dw {
      SideBelow(scale, rw, rh, dw, FitSize(rw, rh, dw, dh).1);
    } else {
      SideBelow(scale, rh, rw, dh, FitSize(rw, rh, dw, dh).0);
    }
  }

  /** A scale that fits one side fits the other into the quotient. */
  lemma SideBelow(scale: real, a: int, b: int, room: int, e: int)
    requires a > 0 && b > 0 && 0.0 < scale && scale * a as real <= room as real && room * b < (e + 2) * a
    ensures scale * b as real < e as real + 2.0
  {
    ProductReal(room, b);
    ProductReal(e + 2, a);
    Cross(scale, a as real, b as real, room as real, e as real + 2.0, room * b, (e + 2) * a);
  }

  lemma Cross(scale: real, x: real, y: real, r: real, k: real, ry: int, kx: int)
    requires x > 0.0 && y > 0.0 && scale * x <= r && r * y == ry as real && k * x == kx as real && ry < kx
    ensures scale * y < k
  {
    OrderedReal(scale * x, r, y);
    Swapped(scale, x, y);
    if scale * y >= k {
      OrderedReal(k, scale * y, x);
      assert false;
    }
  }

  lemma ProductReal(a: int, b: int)
    ensures a as real * b as real == (a * b) as real
  {
  }

  lemma Swapped(a: real, b: real, c: real)
    ensures a * b * c == a * c * b
  {
  }

  lemma OrderedReal(a: real, b: real, c: real)
    requires a <= b && c > 0.0
    ensures a * c <= b * c
  {
  }

  /** A cell shows the sample whose share of the picture holds the cell's start. */
  lemma NearestIs(x: int, size: int, w: int, k: int)
    requires w > 0
    ensures Nearest(x, size, w) == k <==> k * w <= x * size < (k + 1) * w
  {
    QuotientIs(x * size, w, k);
  }

  /** Every byte of the rectangle, whatever the scale: it is that of the rotated source sample (kx, ky) in whose
      share of the picture its cell starts. */
  lemma CellShowsNearest(before: seq<Byte>, after: seq<Byte>, stride: nat, p: Plane, black: Byte, src: seq<Byte>,
                         rotation: int, ss: nat, y: int, x: int, c: int, ky: int, kx: int)
    requires PlaneOk(p, rotation, src, ss, |before|, stride)
    requires Letterboxed(before, after, stride, p, black, Copied(src, p, rotation, ss))
    requires 0 <= y < p.h && 0 <= x < p.w && 0 <= c < p.unit
    requires kx * p.w <= x * RotatedW(p.sw, p.sh, rotation) < (kx + 1) * p.w
    requires ky * p.h <= y * RotatedH(p.sw, p.sh, rotation) < (ky + 1) * p.h
    ensures var X, Y := (p.ox + x) * p.unit + c, p.oy + y;
            var sx, sy := SourceX(rotation, kx, ky, p.sw, p.sh), SourceY(rotation, kx, ky, p.sw, p.sh);
            && 0 <= At(Y, X, stride) < |after| && 0 <= At(sy, sx * p.unit + c, ss) < |src|
            && after[At(Y, X, stride)] == src[At(sy, sx * p.unit + c, ss)]
  {
    hide At, Color, PlaneFits, SourceIndex, SourceX, SourceY, Nearest;
    var X, Y := (p.ox + x) * p.unit + c, p.oy + y;
    NearestIs(x, RotatedW(p.sw, p.sh, rotation), p.w, kx);
    NearestIs(y, RotatedH(p.sw, p.sh, rotation), p.h, ky);
    ColumnsFit(p, x, c, |before|, stride);
    VisibleInPlane(|before|, stride, p.dw * p.unit, p.dh, Y, X);
    CopiedIs(p, rotation, src, ss, Y, p.ox + x, c);
    SourceIs(p, rotation, ss, x, y, c, SourceX(rotation, kx, ky, p.sw, p.sh), SourceY(rotation, kx, ky, p.sw, p.sh));
    assert after[At(Y, X, stride)] == Shown(before, stride, p, black, Copied(src, p, rotation, ss), Y, X);
  }

  /** A plane `m` times the source's shows each sample m by m times. */
  lemma EnlargedShows(x: int, size: int, m: int)
    requires size > 0 && m > 0
    ensures Nearest(x, size, m * size) == x / m
  {
    var k := x / m;
    QuotientIs(x, m, k);
    NearestIs(x, size, m * size, k);
    Ordered(k * m, x, size);
    Ordered(x + 1, (k + 1) * m, size);
    Regroup(k, m, size);
    Regroup(k + 1, m, size);
  }

  lemma Regroup(k: int, m: int, size: int)
    ensures k * m * size == k * (m * size)
  {
  }

  /** Rotating by r into a picture of exactly the rotated size, then back by 360 - r, restores every visible byte. */
  lemma PlaneRestored(src: seq<Byte>, ss: nat, mid0: seq<Byte>, mid: seq<Byte>, ms: nat, out0: seq<Byte>,
                      out: seq<Byte>, os: nat,
                      p: Plane, q: Plane, rotation: int, black: Byte, y: int, x: int, c: int)
    requires Quarter(rotation) && Exact(p, rotation) && Exact(q, Back(rotation))
    requires q.unit == p.unit && q.sw == p.dw && q.sh == p.dh && q.dw == p.sw && q.dh == p.sh
    requires PlaneOk(p, rotation, src, ss, |mid0|, ms) && PlaneOk(q, Back(rotation), mid, ms, |out0|, os)
    requires Letterboxed(mid0, mid, ms, p, black, Copied(src, p, rotation, ss))
    requires Letterboxed(out0, out, os, q, black, Copied(mid, q, Back(rotation), ms))
    requires 0 <= y < p.sh && 0 <= x < p.sw && 0 <= c < p.unit
    ensures 0 <= At(y, x * p.unit + c, os) < |out| && 0 <= At(y, x * p.unit + c, ss) < |src|
    ensures out[At(y, x * p.unit + c, os)] == src[At(y, x * p.unit + c, ss)]
  {
    hide At, Letterboxed, SourceX, SourceY, PlaneFits;
    TurnsBack(rotation, x, y, p.sw, p.sh);
    var mx, my := SourceX(Back(rotation), x, y, q.sw, q.sh), SourceY(Back(rotation), x, y, q.sw, q.sh);
    CellShows(out0, out, os, q, black, mid, Back(rotation), ms, y, x, c);
    CellShows(mid0, mid, ms, p, black, src, rotation, ss, my, mx, c);
  }

  /** A whole destination plane of an exact letterbox. */
  function WholePlane(s: View, d: View, unit: int): Plane
    requires unit > 0
  {
    PlaneOf(s, d, Rect(d.width, d.height, 0, 0), unit)
  }

  /** The same for whole pictures: luma and chroma, whatever the strides and whatever the
      targets held before. With these sizes the rectangle is the whole destination (ExactFit), so the premises are
      what the two copies leave. */
  lemma RotationRestores(s: View, m: View, t: View, rotation: int, luma: seq<Byte>, chroma: seq<Byte>,
                         mLuma0: seq<Byte>, mChroma0: seq<Byte>, mLuma: seq<Byte>, mChroma: seq<Byte>,
                         tLuma0: seq<Byte>, tChroma0: seq<Byte>, tLuma: seq<Byte>, tChroma: seq<Byte>)
    requires ValidNv12(s) && ValidNv12(m) && ValidNv12(t) && Quarter(rotation)
    requires m.width == RotatedW(s.width, s.height, rotation) && m.height == RotatedH(s.width, s.height, rotation)
    requires t.width == s.width && t.height == s.height
    requires |luma| == s.luma && |chroma| == s.chroma && |mLuma0| == m.luma && |mChroma0| == m.chroma
    requires |tLuma0| == t.luma && |tChroma0| == t.chroma
    requires Letterboxed(mLuma0, mLuma, m.strideY, WholePlane(s, m, 1), BLACK_LUMA,
             Copied(luma, WholePlane(s, m, 1), rotation, s.strideY))
    requires Letterboxed(mChroma0, mChroma, m.strideUV, WholePlane(s, m, 2), BLACK_CHROMA,
                         Copied(chroma, WholePlane(s, m, 2), rotation, s.strideUV))
    requires Letterboxed(tLuma0, tLuma, t.strideY, WholePlane(m, t, 1), BLACK_LUMA,
                         Copied(mLuma, WholePlane(m, t, 1), Back(rotation), m.strideY))
    requires Letterboxed(tChroma0, tChroma, t.strideUV, WholePlane(m, t, 2), BLACK_CHROMA,
                         Copied(mChroma, WholePlane(m, t, 2), Back(rotation), m.strideUV))
    ensures forall y, x :: 0 <= y < s.height && 0 <= x < s.width ==> SameByte(tLuma, t.strideY, luma, s.strideY, y, x)
    ensures forall y, x, c :: 0 <= y < s.height / 2 && 0 <= x < s.width / 2 && 0 <= c < 2 ==>
              SameByte(tChroma, t.strideUV, chroma, s.strideUV, y, Pair(x, c))
  {
    hide At, Letterboxed, Fit, PlaneFits, FitSize, PlaneOk, Exact;
    SameLength(mLuma0, mLuma, m.strideY, WholePlane(s, m, 1), BLACK_LUMA,
      Copied(luma, WholePlane(s, m, 1), rotation, s.strideY));
    SameLength(mChroma0, mChroma, m.strideUV, WholePlane(s, m, 2), BLACK_CHROMA,
      Copied(chroma, WholePlane(s, m, 2), rotation, s.strideUV));
    TurnsBack(rotation, 0, 0, s.width, s.height);
    ExactFit(s, m, rotation);
    ExactFit(m, t, Back(rotation));
    PlanesOk(s, m, rotation, luma, chroma);
    PlanesOk(m, t, Back(rotation), mLuma, mChroma);
    forall y, x | 0 <= y < s.height && 0 <= x < s.width ensures SameByte(tLuma, t.strideY, luma, s.strideY, y, x) {
      PlaneRestored(luma, s.strideY, mLuma0, mLuma, m.strideY, tLuma0, tLuma, t.strideY, WholePlane(s, m, 1),
        WholePlane(m, t, 1),
                    rotation, BLACK_LUMA, y, x, 0);
    }
    forall y, x, c | 0 <= y < s.height / 2 && 0 <= x < s.width / 2 && 0 <= c < 2
      ensures SameByte(tChroma, t.strideUV, chroma, s.strideUV, y, Pair(x, c))
    {
      PlaneRestored(chroma, s.strideUV, mChroma0, mChroma, m.strideUV, tChroma0, tChroma, t.strideUV,
        WholePlane(s, m, 2),
                    WholePlane(m, t, 2), rotation, BLACK_CHROMA, y, x, c);
    }
  }

  lemma SameLength(before: seq<Byte>, after: seq<Byte>, stride: int, p: Plane, black: Byte, paint: Paint)
    requires Letterboxed(before, after, stride, p, black, paint)
    ensures |after| == |before|
  {
  }

  /** Byte `c` of the pair at `x`. */
  function Pair(x: int, c: int): int {
    x * 2 + c
  }

  predicate SameByte(a: seq<Byte>, sa: int, b: seq<Byte>, sb: int, y: int, x: int) {
    0 <= At(y, x, sa) < |a| && 0 <= At(y, x, sb) < |b| && a[At(y, x, sa)] == b[At(y, x, sb)]
  }

  // ---------------------------------------------------------------- direction and border

  /** Where a source sample goes: a rotation turns the picture clockwise by that many degrees. */
  function Turned(rotation: int, sx: int, sy: int, sw: int, sh: int): (int, int) {
    if rotation == 0 then (sx, sy)
    else
      var (x, y) := Turned90(sx, sy, sh);
      if rotation == 90 then (x, y)
      else
        var (x2, y2) := Turned90(x, y, sw);
        if rotation == 180 then (x2, y2) else Turned90(x2, y2, sh)
  }

  /** One quarter turn clockwise of a picture of height `sh`: its top row becomes the right column, its left column
      the top row. */
  function Turned90(sx: int, sy: int, sh: int): (int, int) {
    (sh - 1 - sy, sx)
  }

  /** The sample a rotated picture shows at (rx, ry) is the one that as many clockwise quarter turns bring there. */
  lemma TurnsClockwise(rotation: int, rx: int, ry: int, sw: int, sh: int)
    requires Quarter(rotation)
    ensures Turned(rotation, SourceX(rotation, rx, ry, sw, sh), SourceY(rotation, rx, ry, sw, sh), sw, sh) == (rx, ry)
  {
  }

  /** Outside the rectangle the picture is video-range black, luma 16 and chroma 128, and padding is untouched. */
  lemma BorderIsBlack(before: seq<Byte>, after: seq<Byte>, stride: nat, s: View, d: View, r: Rect, unit: int,
                      src: seq<Byte>, rotation: int, ss: nat, Y: int, X: int)
    requires unit == 1 || unit == 2
    requires var p := PlaneOf(s, d, r, unit);
             Letterboxed(before, after, stride, p, if unit == 1 then BLACK_LUMA else BLACK_CHROMA,
                         Copied(src, p, rotation, ss))
    requires 0 <= X < stride && 0 <= At(Y, X, stride) < |before|
    ensures var p := PlaneOf(s, d, r, unit);
            var visible := 0 <= Y < p.dh && 0 <= X < p.dw * unit;
            && (visible && !Inside(p, Y, X / unit) ==> after[At(Y, X, stride)] == if unit == 1 then 16 else 128)
            && (!visible ==> after[At(Y, X, stride)] == before[At(Y, X, stride)])
  {
    hide At, Color;
    var p := PlaneOf(s, d, r, unit);
    assert after[At(Y, X, stride)]
        == Shown(before, stride, p, if unit == 1 then BLACK_LUMA else BLACK_CHROMA, Copied(src, p, rotation, ss), Y, X);
  }
}
