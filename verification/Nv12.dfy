/** Letterboxing as it runs: row and column loops over the destination planes. */
module Nv12 {
  import opened Wire
  import opened Nv12Model

  /** What a stretch of cells is painted with: one value, or the rotated nearest samples of a source plane. */
  datatype Paint = Solid(v: Byte) | Copied(src: seq<Byte>, p: Plane, rotation: int, stride: int)

  function Color(paint: Paint, Y: int, X: int): Byte {
    match paint
    case Solid(v) => v
    case Copied(src, p, rotation, stride) =>
      if p.unit > 0 && p.w > 0 && p.h > 0 then
        var i := SourceIndex(p, rotation, stride, Y, X / p.unit, X % p.unit);
        if 0 <= i < |src| then src[i] else 0
      else 0
  }

  /** Rows `y0` on and columns `x0..x1`, painted row by row up to cell (y, x). */
  predicate Done(x0: int, x1: int, y0: int, y: int, x: int, Y: int, X: int) {
    x0 <= X < x1 && y0 <= Y && (Y < y || (Y == y && X < x))
  }

  ghost predicate Progress(before: seq<Byte>, now: seq<Byte>, stride: int, x0: int, x1: int, y0: int, y: int, x: int,
                           paint: Paint) {
    && |now| == |before|
    && forall Y, X :: 0 <= X < stride && 0 <= At(Y, X, stride) < |before| ==>
         now[At(Y, X, stride)] == if Done(x0, x1, y0, y, x, Y, X) then Color(paint, Y, X) else before[At(Y, X, stride)]
  }

  lemma ProgressStep(before: seq<Byte>, now: seq<Byte>, stride: int, x0: int, x1: int, y0: int, y: int, x: int,
                     paint: Paint)
    requires Progress(before, now, stride, x0, x1, y0, y, x, paint)
    requires 0 <= x0 <= x < x1 <= stride && y0 <= y && 0 <= At(y, x, stride) < |now|
    ensures Progress(before, now[At(y, x, stride) := Color(paint, y, x)], stride, x0, x1, y0, y, x + 1, paint)
  {
    hide At, Color;
    var i := At(y, x, stride);
    var after := now[i := Color(paint, y, x)];
    forall Y, X | 0 <= X < stride && 0 <= At(Y, X, stride) < |before|
      ensures after[At(Y, X, stride)] == if Done(x0, x1, y0, y, x + 1, Y, X) then Color(paint, Y, X)
              else before[At(Y, X, stride)]
    {
      if At(Y, X, stride) == i { CellsApart(y, x, Y, X, stride); }
    }
  }

  lemma ProgressRow(before: seq<Byte>, now: seq<Byte>, stride: int, x0: int, x1: int, y0: int, y: int, paint: Paint)
    requires Progress(before, now, stride, x0, x1, y0, y, x1, paint)
    ensures Progress(before, now, stride, x0, x1, y0, y + 1, x0, paint)
  {
    hide At, Color;
  }

  lemma ProgressStart(before: seq<Byte>, stride: int, x0: int, x1: int, y0: int, paint: Paint)
    ensures Progress(before, before, stride, x0, x1, y0, y0, x0, paint)
  {
    hide At, Color;
  }

  /** Every row of a plane to one value, its padding left alone. */
  method FillPlane(a: array<Byte>, stride: nat, width: int, rows: int, v: Byte)
    requires PlaneFits(a.Length, stride, width, rows)
    modifies a
    ensures Progress(old(a[..]), a[..], stride, 0, width, 0, rows, 0, Solid(v))
  {
    hide Progress, At, Color;
    PlaneFitsIs(a.Length, stride, width, rows);
    ghost var before := a[..];
    ProgressStart(before, stride, 0, width, 0, Solid(v));
    for y := 0 to rows
      invariant Progress(before, a[..], stride, 0, width, 0, y, 0, Solid(v))
    {
      for x := 0 to width
        invariant Progress(before, a[..], stride, 0, width, 0, y, x, Solid(v))
      {
        VisibleInPlane(a.Length, stride, width, rows, y, x);
        ProgressStep(before, a[..], stride, 0, width, 0, y, x, Solid(v));
        SolidIs(v, y, x);
        a[At(y, x, stride)] := v;
      }
      ProgressRow(before, a[..], stride, 0, width, 0, y, Solid(v));
    }
  }

  lemma SolidIs(v: Byte, Y: int, X: int)
    ensures Color(Solid(v), Y, X) == v
  {
  }

  method FillBlack(luma: array<Byte>, chroma: array<Byte>, d: View) returns (ok: bool)
    requires luma != chroma && luma.Length == d.luma && chroma.Length == d.chroma
    modifies luma, chroma
    ensures ok == ValidNv12(d)
    ensures !ok ==> luma[..] == old(luma[..]) && chroma[..] == old(chroma[..])
    ensures ok ==> Progress(old(luma[..]), luma[..], d.strideY, 0, d.width, 0, d.height, 0, Solid(BLACK_LUMA))
    ensures ok ==>
              Progress(old(chroma[..]), chroma[..], d.strideUV, 0, d.width, 0, d.height / 2, 0, Solid(BLACK_CHROMA))
  {
    hide Progress, PlaneFits;
    if !ValidNv12(d) { return false; }
    FillPlane(luma, d.strideY, d.width, d.height, BLACK_LUMA);
    FillPlane(chroma, d.strideUV, d.width, d.height / 2, BLACK_CHROMA);
    return true;
  }

  // ---------------------------------------------------------------- one plane

  /** A plane's numbers make sense: the rectangle lies in the destination and the source fits its bytes. */
  ghost predicate PlaneOk(p: Plane, rotation: int, src: seq<Byte>, stride: nat, length: nat, dstStride: nat) {
    && p.unit > 0 && Quarter(rotation) && p.sw > 0 && p.sh > 0 && p.w > 0 && p.h > 0 && p.ox >= 0 && p.oy >= 0
    && p.ox + p.w <= p.dw && p.oy + p.h <= p.dh
    && PlaneFits(|src|, stride, p.sw * p.unit, p.sh)
    && PlaneFits(length, dstStride, p.dw * p.unit, p.dh)
  }

  lemma SourceInPlane(p: Plane, rotation: int, src: seq<Byte>, stride: nat, Y: int, X: int, c: int)
    requires p.unit > 0 && Quarter(rotation) && p.sw > 0 && p.sh > 0 && p.w > 0 && p.h > 0
    requires PlaneFits(|src|, stride, p.sw * p.unit, p.sh) && Inside(p, Y, X) && 0 <= c < p.unit
    ensures 0 <= SourceIndex(p, rotation, stride, Y, X, c) < |src|
  {
    hide PlaneFits, Nearest, At;
    var rx := Nearest(X - p.ox, RotatedW(p.sw, p.sh, rotation), p.w);
    var ry := Nearest(Y - p.oy, RotatedH(p.sw, p.sh, rotation), p.h);
    NearestInside(X - p.ox, RotatedW(p.sw, p.sh, rotation), p.w);
    NearestInside(Y - p.oy, RotatedH(p.sw, p.sh, rotation), p.h);
    SourceInside(rotation, rx, ry, p.sw, p.sh);
    var sx, sy := SourceX(rotation, rx, ry, p.sw, p.sh), SourceY(rotation, rx, ry, p.sw, p.sh);
    ByteOfSample(sx, c, p.unit, p.sw);
    VisibleInPlane(|src|, stride, p.sw * p.unit, p.sh, sy, sx * p.unit + c);
  }

  lemma ByteOfSample(x: int, c: int, unit: int, w: int)
    requires 0 <= x < w && 0 <= c < unit
    ensures 0 <= x * unit + c < w * unit && (x * unit + c) / unit == x && (x * unit + c) % unit == c
  {
    assert x * unit <= (w - 1) * unit == w * unit - unit;
    DivAtMost(x, x * unit + c, unit);
    DivAtMost(x + 1, x * unit + c, unit);
    assert (x + 1) * unit == x * unit + unit;
    assert x * unit + c == unit * ((x * unit + c) / unit) + (x * unit + c) % unit;
  }

  lemma CopiedIs(p: Plane, rotation: int, src: seq<Byte>, stride: nat, Y: int, X: int, c: int)
    requires p.unit > 0 && Quarter(rotation) && p.sw > 0 && p.sh > 0 && p.w > 0 && p.h > 0 && p.ox >= 0
    requires PlaneFits(|src|, stride, p.sw * p.unit, p.sh) && Inside(p, Y, X) && 0 <= c < p.unit
    ensures 0 <= SourceIndex(p, rotation, stride, Y, X, c) < |src|
    ensures Color(Copied(src, p, rotation, stride), Y, X * p.unit + c) == src[SourceIndex(p, rotation, stride, Y, X, c)]
  {
    hide SourceIndex, PlaneFits;
    SourceInPlane(p, rotation, src, stride, Y, X, c);
    ByteOfSample(X, c, p.unit, X + 1);
  }

  /** The copying loops of one plane. */
  method CopyPlane(dst: array<Byte>, dstStride: nat, src: seq<Byte>, stride: nat, p: Plane, rotation: int)
    requires PlaneOk(p, rotation, src, stride, dst.Length, dstStride)
    modifies dst
    ensures Progress(old(dst[..]), dst[..], dstStride, p.ox * p.unit, (p.ox + p.w) * p.unit, p.oy, p.oy + p.h,
            p.ox * p.unit,
                     Copied(src, p, rotation, stride))
  {
    hide Progress, Color, PlaneFits;
    ghost var before := dst[..];
    ghost var paint := Copied(src, p, rotation, stride);
    ProgressStart(before, dstStride, p.ox * p.unit, (p.ox + p.w) * p.unit, p.oy, paint);
    for y := 0 to p.h
      invariant Progress(before, dst[..], dstStride, p.ox * p.unit, (p.ox + p.w) * p.unit, p.oy, p.oy + y,
                p.ox * p.unit, paint)
    {
      for x := 0 to p.w
        invariant Progress(before, dst[..], dstStride, p.ox * p.unit, (p.ox + p.w) * p.unit, p.oy, p.oy + y,
                  (p.ox + x) * p.unit, paint)
      {
        CopySample(dst, dstStride, src, stride, p, rotation, x, y, before);
      }
      ProgressRow(before, dst[..], dstStride, p.ox * p.unit, (p.ox + p.w) * p.unit, p.oy, p.oy + y, paint);
    }
  }

  /** The bytes of one sample. */
  method CopySample(dst: array<Byte>, dstStride: nat, src: seq<Byte>, stride: nat, p: Plane, rotation: int, x: nat,
                    y: nat,
                    ghost before: seq<Byte>)
    requires PlaneOk(p, rotation, src, stride, dst.Length, dstStride) && x < p.w && y < p.h
    requires Progress(before, dst[..], dstStride, p.ox * p.unit, (p.ox + p.w) * p.unit, p.oy, p.oy + y,
             (p.ox + x) * p.unit,
                      Copied(src, p, rotation, stride))
    modifies dst
    ensures Progress(before, dst[..], dstStride, p.ox * p.unit, (p.ox + p.w) * p.unit, p.oy, p.oy + y,
            (p.ox + x + 1) * p.unit,
                     Copied(src, p, rotation, stride))
  {
    hide Progress, Color, PlaneFits, At, Nearest, SourceIndex;
    ghost var paint := Copied(src, p, rotation, stride);
    ghost var left, right := p.ox * p.unit, (p.ox + p.w) * p.unit;
    var row, column := p.oy + y, (p.ox + x) * p.unit;
    var rx := Nearest(x, RotatedW(p.sw, p.sh, rotation), p.w);
    var ry := Nearest(y, RotatedH(p.sw, p.sh, rotation), p.h);
    var sx, sy := rx, ry;
    if rotation == 90 { sx, sy := ry, p.sh - 1 - rx; }
    else if rotation == 180 { sx, sy := p.sw - 1 - rx, p.sh - 1 - ry; }
    else if rotation == 270 { sx, sy := p.sw - 1 - ry, rx; }
    for c := 0 to p.unit
      invariant Progress(before, dst[..], dstStride, left, right, p.oy, row, column + c, paint)
    {
      SourceIs(p, rotation, stride, x, y, c, sx, sy);
      CopiedIs(p, rotation, src, stride, row, p.ox + x, c);
      ColumnsFit(p, x, c, dst.Length, dstStride);
      VisibleInPlane(dst.Length, dstStride, p.dw * p.unit, p.dh, row, column + c);
      ProgressStep(before, dst[..], dstStride, left, right, p.oy, row, column + c, paint);
      var from := At(sy, sx * p.unit + c, stride);
      dst[At(row, column + c, dstStride)] := src[from];
    }
    NextColumn(p.ox + x, p.unit);
  }

  lemma NextColumn(x: int, unit: int)
    ensures x * unit + unit == (x + 1) * unit
  {
  }

  lemma SourceIs(p: Plane, rotation: int, stride: nat, x: nat, y: nat, c: int, sx: int, sy: int)
    requires p.w > 0 && p.h > 0
    requires sx == SourceX(rotation, Nearest(x, RotatedW(p.sw, p.sh, rotation), p.w),
             Nearest(y, RotatedH(p.sw, p.sh, rotation), p.h), p.sw, p.sh)
    requires sy == SourceY(rotation, Nearest(x, RotatedW(p.sw, p.sh, rotation), p.w),
             Nearest(y, RotatedH(p.sw, p.sh, rotation), p.h), p.sw, p.sh)
    ensures SourceIndex(p, rotation, stride, p.oy + y, p.ox + x, c) == At(sy, sx * p.unit + c, stride)
  {
    hide Nearest, At;
  }

  lemma ColumnsFit(p: Plane, x: int, c: int, length: nat, stride: nat)
    requires p.unit > 0 && 0 <= x < p.w && 0 <= c < p.unit && p.ox >= 0 && p.ox + p.w <= p.dw
    requires PlaneFits(length, stride, p.dw * p.unit, p.dh)
    ensures 0 <= p.ox * p.unit <= (p.ox + x) * p.unit + c < (p.ox + p.w) * p.unit <= p.dw * p.unit <= stride
  {
    PlaneFitsIs(length, stride, p.dw * p.unit, p.dh);
    ByteOfSample(p.ox + x, c, p.unit, p.ox + p.w);
    assert (p.ox + p.w) * p.unit <= p.dw * p.unit;
    assert p.ox * p.unit <= (p.ox + x) * p.unit;
  }

  // ---------------------------------------------------------------- the whole picture

  /** A finished plane, byte by byte: the padding is as before, the rectangle shows the source, the rest is black. */
  ghost predicate Letterboxed(before: seq<Byte>, after: seq<Byte>, stride: int, p: Plane, black: Byte, paint: Paint) {
    && |after| == |before|
    && forall Y, X :: 0 <= X < stride && 0 <= At(Y, X, stride) < |before| ==>
         after[At(Y, X, stride)] == Shown(before, stride, p, black, paint, Y, X)
  }

  function Shown(before: seq<Byte>, stride: int, p: Plane, black: Byte, paint: Paint, Y: int, X: int): Byte
    requires 0 <= At(Y, X, stride) < |before|
  {
    if !(0 <= Y < p.dh && 0 <= X < p.dw * p.unit) then before[At(Y, X, stride)]
    else if p.oy <= Y < p.oy + p.h && p.ox * p.unit <= X < (p.ox + p.w) * p.unit then Color(paint, Y, X)
    else black
  }

  lemma BothLayers(before: seq<Byte>, filled: seq<Byte>, after: seq<Byte>, stride: nat, p: Plane, black: Byte,
                   paint: Paint)
    requires p.unit > 0 && p.w > 0 && p.h > 0 && p.ox >= 0 && p.oy >= 0 && p.ox + p.w <= p.dw && p.oy + p.h <= p.dh
    requires Progress(before, filled, stride, 0, p.dw * p.unit, 0, p.dh, 0, Solid(black))
    requires Progress(filled, after, stride, p.ox * p.unit, (p.ox + p.w) * p.unit, p.oy, p.oy + p.h, p.ox * p.unit,
             paint)
    ensures Letterboxed(before, after, stride, p, black, paint)
  {
    hide At, Color;
    assert 0 <= p.ox * p.unit && (p.ox + p.w) * p.unit <= p.dw * p.unit;
    forall Y, X | 0 <= X < stride && 0 <= At(Y, X, stride) < |before|
      ensures after[At(Y, X, stride)] == Shown(before, stride, p, black, paint, Y, X)
    {
      SolidIs(black, Y, X);
    }
  }

  lemma PlanesOk(s: View, d: View, rotation: int, luma: seq<Byte>, chroma: seq<Byte>)
    requires ValidNv12(s) && ValidNv12(d) && Quarter(rotation) && Fit(s, d, rotation).Some?
    requires |luma| == s.luma && |chroma| == s.chroma
    ensures PlaneOk(PlaneOf(s, d, Fit(s, d, rotation).value, 1), rotation, luma, s.strideY, d.luma, d.strideY)
    ensures PlaneOk(PlaneOf(s, d, Fit(s, d, rotation).value, 2), rotation, chroma, s.strideUV, d.chroma, d.strideUV)
  {
    hide PlaneFits, FitSize, Fit;
    RectIs(s, d, rotation);
  }

  method Letterbox(srcLuma: seq<Byte>, srcChroma: seq<Byte>, s: View, luma: array<Byte>, chroma: array<Byte>, d: View,
                   rotation: int)
    returns (ok: bool)
    requires |srcLuma| == s.luma && |srcChroma| == s.chroma
    requires luma != chroma && luma.Length == d.luma && chroma.Length == d.chroma
    modifies luma, chroma
    ensures ok <==> ValidNv12(s) && ValidNv12(d) && Quarter(rotation) && Fit(s, d, rotation).Some?
    ensures !ok ==> luma[..] == old(luma[..]) && chroma[..] == old(chroma[..])
    ensures ok ==> var p := PlaneOf(s, d, Fit(s, d, rotation).value, 1);
                   Letterboxed(old(luma[..]), luma[..], d.strideY, p, BLACK_LUMA,
                     Copied(srcLuma, p, rotation, s.strideY))
    ensures ok ==> var p := PlaneOf(s, d, Fit(s, d, rotation).value, 2);
                   Letterboxed(old(chroma[..]), chroma[..], d.strideUV, p, BLACK_CHROMA,
                     Copied(srcChroma, p, rotation, s.strideUV))
  {
    hide Progress, Letterboxed, Fit, PlaneFits, PlaneOk;
    if !ValidNv12(s) || !ValidNv12(d) || !Quarter(rotation) { return false; }
    var fit := Fit(s, d, rotation);
    if fit.None? { return false; }
    PlanesOk(s, d, rotation, srcLuma, srcChroma);
    RectIs(s, d, rotation);
    ghost var luma0, chroma0 := luma[..], chroma[..];
    var black := FillBlack(luma, chroma, d);
    ghost var luma1, chroma1 := luma[..], chroma[..];
    var p, q := PlaneOf(s, d, fit.value, 1), PlaneOf(s, d, fit.value, 2);
    CopyPlane(luma, d.strideY, srcLuma, s.strideY, p, rotation);
    CopyPlane(chroma, d.strideUV, srcChroma, s.strideUV, q, rotation);
    BothLayers(luma0, luma1, luma[..], d.strideY, p, BLACK_LUMA, Copied(srcLuma, p, rotation, s.strideY));
    BothLayers(chroma0, chroma1, chroma[..], d.strideUV, q, BLACK_CHROMA, Copied(srcChroma, q, rotation, s.strideUV));
    return true;
  }
}
