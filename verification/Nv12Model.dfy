/** NV12 planes and the letterboxed, rotated copy: which source sample each visible destination byte shows. */
module Nv12Model {
  import opened Wire

  const BLACK_LUMA: Byte := 16
  const BLACK_CHROMA: Byte := 128

  /** Byte `x` of row `y`. */
  function At(y: int, x: int, stride: int): int {
    y * stride + x
  }

  predicate PlaneFits(bytes: nat, stride: nat, width: int, rows: int) {
    if width <= 0 || rows <= 0 || stride < width || bytes < width then false
    else rows - 1 <= (bytes - width) / stride
  }

  /** A view: how long its two planes are, their strides, and the picture size. */
  datatype View = View(luma: nat, chroma: nat, strideY: nat, strideUV: nat, width: int, height: int)

  predicate ValidNv12(v: View) {
    && v.width > 0 && v.height > 0 && v.width <= 8192 && v.height <= 8192
    && v.width % 2 == 0 && v.height % 2 == 0
    && PlaneFits(v.luma, v.strideY, v.width, v.height)
    && PlaneFits(v.chroma, v.strideUV, v.width, v.height / 2)
  }

  predicate Quarter(rotation: int) {
    rotation == 0 || rotation == 90 || rotation == 180 || rotation == 270
  }

  function Even(v: nat): (e: nat)
    ensures e % 2 == 0 && v - 1 <= e <= v
  {
    v - v % 2
  }

  /** The fitted rectangle. */
  datatype Rect = Rect(fw: int, fh: int, ox: int, oy: int)

  function RotatedW(sw: int, sh: int, rotation: int): int {
    if rotation % 180 != 0 then sh else sw
  }

  function RotatedH(sw: int, sh: int, rotation: int): int {
    if rotation % 180 != 0 then sw else sh
  }

  function FitSize(rw: int, rh: int, dw: int, dh: int): (int, int)
    requires rw > 0 && rh > 0 && dw >= 0 && dh >= 0
  {
    if rw * dh > rh * dw then (dw, EvenQuotient(dw, rh, rw)) else (EvenQuotient(dh, rw, rh), dh)
  }

  function EvenQuotient(a: nat, b: nat, c: nat): nat
    requires c > 0
  {
    QuotientNat(a, b, c);
    Even(a * b / c)
  }

  lemma QuotientNat(a: nat, b: nat, c: nat)
    requires c > 0
    ensures a * b / c >= 0
  {
    assert a * b >= 0;
  }

  function Fit(s: View, d: View, rotation: int): Option<Rect>
    requires ValidNv12(s) && ValidNv12(d)
  {
    hide FitSize, PlaneFits;
    var rw, rh := RotatedW(s.width, s.height, rotation), RotatedH(s.width, s.height, rotation);
    FitSizeFits(rw, rh, d.width, d.height);
    var size := FitSize(rw, rh, d.width, d.height);
    if size.0 < 2 || size.1 < 2 then None
    else Some(Rect(size.0, size.1, Even((d.width - size.0) / 2), Even((d.height - size.1) / 2)))
  }

  /** Where a sample of the rotated picture comes from. */
  function SourceX(rotation: int, rx: int, ry: int, sw: int, sh: int): int {
    if rotation == 90 then ry else if rotation == 180 then sw - 1 - rx else if rotation == 270 then sw - 1 - ry else rx
  }

  function SourceY(rotation: int, rx: int, ry: int, sw: int, sh: int): int {
    if rotation == 90 then sh - 1 - rx else if rotation == 180 then sh - 1 - ry else if rotation == 270 then rx else ry
  }

  /** The nearest sample of a rotated row or column of `size`, for position `x` of `w`. */
  function Nearest(x: int, size: int, w: int): int
    requires w > 0
  {
    x * size / w
  }

  /** One plane of a picture: luma has one byte a sample, chroma two bytes for each two by two. */
  datatype Plane = Plane(unit: int, sw: int, sh: int, dw: int, dh: int, w: int, h: int, ox: int, oy: int)

  function PlaneOf(s: View, d: View, r: Rect, unit: int): Plane
    requires unit > 0
  {
    Plane(unit, s.width / unit, s.height / unit, d.width / unit, d.height / unit, r.fw / unit, r.fh / unit,
      r.ox / unit, r.oy / unit)
  }

  predicate Inside(p: Plane, Y: int, X: int) {
    p.oy <= Y < p.oy + p.h && p.ox <= X < p.ox + p.w
  }

  /** The index of the source byte shown in destination cell (Y, X), component `c`. */
  function SourceIndex(p: Plane, rotation: int, stride: int, Y: int, X: int, c: int): int
    requires p.w > 0 && p.h > 0
  {
    var rx := Nearest(X - p.ox, RotatedW(p.sw, p.sh, rotation), p.w);
    var ry := Nearest(Y - p.oy, RotatedH(p.sw, p.sh, rotation), p.h);
    At(SourceY(rotation, rx, ry, p.sw, p.sh), SourceX(rotation, rx, ry, p.sw, p.sh) * p.unit + c, stride)
  }

  // ---------------------------------------------------------------- what fits

  lemma DivAtMost(k: int, v: int, d: int)
    requires d > 0
    ensures k <= v / d <==> k * d <= v
  {
    assert v == d * (v / d) + v % d;
    assert k <= v / d ==> k * d <= (v / d) * d;
    assert k >= v / d + 1 ==> k * d >= (v / d + 1) * d;
  }

  /** The check is exactly that the last byte of the last row lies in the plane. */
  lemma PlaneFitsIs(bytes: nat, stride: nat, width: int, rows: int)
    ensures PlaneFits(bytes, stride, width, rows)
            <==> width > 0 && rows > 0 && stride >= width && At(rows - 1, width, stride) <= bytes
  {
    if width > 0 && rows > 0 && stride >= width {
      DivAtMost(rows - 1, bytes - width, stride);
      assert (rows - 1) * stride >= 0;
    }
  }

  lemma RowsBelow(y: int, rows: int, stride: int)
    requires 0 <= y < rows && stride >= 0
    ensures 0 <= y * stride <= (rows - 1) * stride
  {
  }

  /** All visible bytes of a plane that fits lie in it. */
  lemma VisibleInPlane(bytes: nat, stride: nat, width: int, rows: int, y: int, x: int)
    requires PlaneFits(bytes, stride, width, rows) && 0 <= y < rows && 0 <= x < width
    ensures 0 <= At(y, x, stride) < bytes
  {
    PlaneFitsIs(bytes, stride, width, rows);
    RowsBelow(y, rows, stride);
  }

  /** Two cells of a plane are the same byte only if they are the same cell. */
  lemma CellsApart(y: int, x: int, y2: int, x2: int, stride: int)
    requires 0 <= x < stride && 0 <= x2 < stride && At(y, x, stride) == At(y2, x2, stride)
    ensures y == y2 && x == x2
  {
    assert (y - y2) * stride == x2 - x;
    assert y - y2 >= 1 ==> (y - y2) * stride >= stride;
    assert y - y2 <= -1 ==> (y - y2) * stride <= -stride;
  }

  // ---------------------------------------------------------------- the rectangle

  lemma QuotientAtMost(v: int, c: int, k: int)
    requires c > 0 && v <= k * c
    ensures v / c <= k
  {
    DivAtMost(k + 1, v, c);
    assert (k + 1) * c == k * c + c;
  }

  lemma FitSizeFits(rw: int, rh: int, dw: int, dh: int)
    requires rw > 0 && rh > 0 && dw >= 0 && dh >= 0 && dw % 2 == 0 && dh % 2 == 0
    ensures var size := FitSize(rw, rh, dw, dh);
            && 0 <= size.0 <= dw && 0 <= size.1 <= dh && size.0 % 2 == 0 && size.1 % 2 == 0
            && (size.0 == dw || size.1 == dh)
  {
    if rw * dh > rh * dw {
      QuotientAtMost(dw * rh, rw, dh);
    } else {
      QuotientAtMost(dh * rw, rh, dw);
    }
  }

  /** The rectangle is even, inside the destination, touches two opposite edges, and is centred to even offsets. */
  lemma RectIs(s: View, d: View, rotation: int)
    requires ValidNv12(s) && ValidNv12(d)
    ensures var size := FitSize(RotatedW(s.width, s.height, rotation), RotatedH(s.width, s.height, rotation), d.width,
            d.height);
            && (Fit(s, d, rotation).Some? <==> size.0 >= 2 && size.1 >= 2)
            && (Fit(s, d, rotation).Some? ==>
                  var r := Fit(s, d, rotation).value;
                  && 2 <= r.fw <= d.width && 2 <= r.fh <= d.height && r.fw % 2 == 0 && r.fh % 2 == 0
                  && 0 <= r.ox && r.ox % 2 == 0 && r.ox + r.fw <= d.width && d.width - (r.ox + r.fw) - r.ox <= 3
                  && 0 <= r.oy && r.oy % 2 == 0 && r.oy + r.fh <= d.height && d.height - (r.oy + r.fh) - r.oy <= 3
                  && (r.fw == d.width || r.fh == d.height))
  {
    hide FitSize, PlaneFits;
    FitSizeFits(RotatedW(s.width, s.height, rotation), RotatedH(s.width, s.height, rotation), d.width, d.height);
  }

  // ---------------------------------------------------------------- samples

  lemma ProductBelow(x: int, size: int, w: int)
    requires 0 <= x < w && size > 0
    ensures 0 <= x * size < size * w
  {
    assert (w - x) * size > 0;
  }

  lemma NearestInside(x: int, size: int, w: int)
    requires w > 0 && 0 <= x < w && size > 0
    ensures 0 <= Nearest(x, size, w) < size
  {
    ProductBelow(x, size, w);
    DivAtMost(0, x * size, w);
    DivAtMost(size, x * size, w);
  }

  lemma NearestSame(x: int, w: int)
    requires w > 0
    ensures Nearest(x, w, w) == x
  {
    DivAtMost(x, x * w, w);
    DivAtMost(x + 1, x * w, w);
    assert (x + 1) * w == x * w + w;
  }

  lemma SourceInside(rotation: int, rx: int, ry: int, sw: int, sh: int)
    requires Quarter(rotation) && 0 <= rx < RotatedW(sw, sh, rotation) && 0 <= ry < RotatedH(sw, sh, rotation)
    ensures 0 <= SourceX(rotation, rx, ry, sw, sh) < sw && 0 <= SourceY(rotation, rx, ry, sw, sh) < sh
  {
  }

  function Back(rotation: int): int {
    (360 - rotation) % 360
  }

  /** A quarter turn and its opposite, on samples. */
  lemma TurnsBack(rotation: int, x: int, y: int, sw: int, sh: int)
    requires Quarter(rotation)
    ensures Quarter(Back(rotation)) && Back(rotation) % 180 == rotation % 180
    ensures var rw, rh := RotatedW(sw, sh, rotation), RotatedH(sw, sh, rotation);
            var mx, my := SourceX(Back(rotation), x, y, rw, rh), SourceY(Back(rotation), x, y, rw, rh);
            SourceX(rotation, mx, my, sw, sh) == x && SourceY(rotation, mx, my, sw, sh) == y
  {
  }
}
