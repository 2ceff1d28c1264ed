/** Image, crop and band geometry of jpeg.c: parse_frame, sink_geometry, emit_rows and box_avg's bounds. */
module FrameGeometry {
  import opened Bits

  const MAX_DIM: nat := 4096

  /** One component of the frame and scan headers. */
  datatype Component = Component(id: nat, h: nat, v: nat, tq: nat, td: nat, ta: nat)

  function HMax(comps: seq<Component>): (m: nat)
    ensures m >= 1 && forall i :: 0 <= i < |comps| ==> comps[i].h <= m
  {
    if comps == [] then 1
    else
      var c, m := comps[|comps| - 1], HMax(comps[..|comps| - 1]);
      if c.h > m then c.h else m
  }

  function VMax(comps: seq<Component>): (m: nat)
    ensures m >= 1 && forall i :: 0 <= i < |comps| ==> comps[i].v <= m
  {
    if comps == [] then 1
    else
      var c, m := comps[|comps| - 1], VMax(comps[..|comps| - 1]);
      if c.v > m then c.v else m
  }

  function CeilDiv(a: nat, b: nat): nat
    requires b > 0
  {
    (a + b - 1) / b
  }

  datatype Frame = Frame(comps: seq<Component>, width: nat, height: nat) {
    /** What parse_frame accepts. */
    predicate Valid() {
      (|comps| == 1 || |comps| == 3) &&
      (forall i :: 0 <= i < |comps| ==> 1 <= comps[i].h <= 4 && 1 <= comps[i].v <= 4) &&
      (|comps| == 1 ==> comps[0].h == 1 && comps[0].v == 1) &&
      1 <= width <= MAX_DIM && 1 <= height <= MAX_DIM
    }

    function McusX(): nat { CeilDiv(width, 8 * HMax(comps)) }
    function McusY(): nat { CeilDiv(height, 8 * VMax(comps)) }
    function BandH(): (h: nat) ensures h >= 8 { 8 * VMax(comps) }

    /** Width and height of component i's plane: one band. */
    function Stride(i: nat): nat
      requires i < |comps|
    {
      8 * (McusX() * comps[i].h)
    }

    function PlaneRows(i: nat): nat
      requires i < |comps|
    {
      8 * comps[i].v
    }
  }

  /** A crop at 1/div: columns x0..x1 and rows y0..y1 of the source. */
  datatype View = View(div: nat, x0: nat, y0: nat, x1: nat, y1: nat) {
    predicate Valid(f: Frame) {
      (div == 1 || div == 2 || div == 4 || div == 8) &&
      x0 % div == 0 && y0 % div == 0 && x0 < x1 <= f.width && y0 < y1 <= f.height
    }

    function OutW(): nat
      requires div > 0 && x0 <= x1
    {
      CeilDiv(x1 - x0, div)
    }

    function OutH(): nat
      requires div > 0 && y0 <= y1
    {
      CeilDiv(y1 - y0, div)
    }

    /** First source row of output row oy, and the row past its last. */
    function Sy0(oy: nat): nat { y0 + oy * div }
    function Sy1(oy: nat): nat { Min(Sy0(oy) + div, y1) }
    function Sx0(ox: nat): nat { x0 + ox * div }
    function Sx1(ox: nat): nat { Min(Sx0(ox) + div, x1) }
  }

  predicate InSpan(x: int, lo: int, hi: int) {
    lo <= x < hi
  }

  /** The crop rectangle holds a pixel of the image. */
  predicate Intersects(f: Frame, cx: int, cy: int, cw: int, ch: int) {
    cx < f.width && cx + cw > 0 && cy < f.height && cy + ch > 0
  }

  datatype GeometryError = BadScale | OutsideImage

  datatype Geometry = Crop(view: View) | Refused(error: GeometryError)

  function Clamp(x: int, hi: nat): nat {
    if x < 0 then 0 else if x > hi then hi else x
  }

  /** sink_geometry: the crop clipped to the image, its origin moved out to multiples of div. */
  function SinkGeometry(f: Frame, div: int, cx: int, cy: int, cw: int, ch: int): (r: Geometry)
    requires f.Valid()
    ensures r.Crop? ==> r.view.Valid(f) && r.view.div == div
    ensures r.Crop? && cw > 0 && ch > 0 ==>
      (forall x :: InSpan(x, 0, f.width) && InSpan(x, cx, cx + cw) ==> InSpan(x, r.view.x0, r.view.x1)) &&
      (forall y :: InSpan(y, 0, f.height) && InSpan(y, cy, cy + ch) ==> InSpan(y, r.view.y0, r.view.y1)) &&
      r.view.x1 <= cx + cw && r.view.y1 <= cy + ch && cx - r.view.x0 < div && cy - r.view.y0 < div
    ensures r.Crop? && !(cw > 0 && ch > 0) ==> r.view == View(div, 0, 0, f.width, f.height)
    ensures r == Refused(BadScale) <==> div !in {1, 2, 4, 8}
    ensures r == Refused(OutsideImage) <==>
      div in {1, 2, 4, 8} && cw > 0 && ch > 0 && !Intersects(f, cx, cy, cw, ch)
  {
    if div != 1 && div != 2 && div != 4 && div != 8 then Refused(BadScale)
    else if cw > 0 && ch > 0 then
      var x0, y0 := Clamp(cx, f.width), Clamp(cy, f.height);
      var x1, y1 := Min(cx + cw, f.width), Min(cy + ch, f.height);
      if x1 <= x0 || y1 <= y0 then Refused(OutsideImage)
      else
        RoundsDown(x0, div);
        RoundsDown(y0, div);
        Crop(View(div, x0 - x0 % div, y0 - y0 % div, x1, y1))
    else Crop(View(div, 0, 0, f.width, f.height))
  }

  lemma RoundsDown(x: nat, div: nat)
    requires div == 1 || div == 2 || div == 4 || div == 8
    ensures (x - x % div) % div == 0
  {
  }

  // --- which band an output row comes from ------------------------------------------

  lemma CeilDivBound(a: nat, b: nat, k: nat)
    requires b > 0
    ensures CeilDiv(a, b) <= k <==> a <= k * b
  {
    var q, r := (a + b - 1) / b, (a + b - 1) % b;
    assert a + b - 1 == q * b + r;
    MulDistrib(q, k, b);
    MulDistrib(k, q, b);
    if q <= k {
      assert (k - q) * b >= 0;
    } else {
      MulGrows(q - k, b);
    }
  }

  /** The rectangle of an output row or column is not empty. */
  lemma BoxNonEmpty(v: View, f: Frame, ox: nat, oy: nat)
    requires v.Valid(f) && ox < v.OutW() && oy < v.OutH()
    ensures v.Sx0(ox) < v.Sx1(ox) <= v.x1 && v.Sy0(oy) < v.Sy1(oy) <= v.y1
  {
    CeilDivBound(v.x1 - v.x0, v.div, ox);
    CeilDivBound(v.y1 - v.y0, v.div, oy);
  }

  /** The boxes of the output's columns and rows part the crop's: each source column and row is in the box
      of exactly one. */
  lemma BoxesPart(v: View, f: Frame, x: nat, y: nat)
    requires v.Valid(f) && v.x0 <= x < v.x1 && v.y0 <= y < v.y1
    ensures (x - v.x0) / v.div < v.OutW() && (y - v.y0) / v.div < v.OutH()
    ensures forall ox: nat :: v.Sx0(ox) <= x < v.Sx1(ox) <==> ox == (x - v.x0) / v.div
    ensures forall oy: nat :: v.Sy0(oy) <= y < v.Sy1(oy) <==> oy == (y - v.y0) / v.div
  {
    hide CeilDiv, Min;
    OneBox(v.x0, v.x1, v.div, x);
    OneBox(v.y0, v.y1, v.div, y);
  }

  /** Of the spans of d from lo on, cut at hi, x is in the one with its quotient. */
  lemma OneBox(lo: nat, hi: nat, d: nat, x: nat)
    requires (d == 1 || d == 2 || d == 4 || d == 8) && lo <= x < hi
    ensures (x - lo) / d < CeilDiv(hi - lo, d)
    ensures forall k: nat :: lo + k * d <= x < Min(lo + k * d + d, hi) <==> k == (x - lo) / d
  {
  }

  /** The band holding the first source row of output row oy. */
  function BandOf(f: Frame, v: View, oy: nat): nat {
    Quotient(v.Sy0(oy), f.BandH())
  }

  /** A multiple of d that lies below another multiple leaves room for d more. */
  lemma MultipleGap(x: nat, y: nat, d: nat)
    requires d == 1 || d == 2 || d == 4 || d == 8
    requires x % d == 0 && y % d == 0 && x < y
    ensures x + d <= y
  {
  }

  lemma MultipleSum(x: nat, k: nat, d: nat)
    requires d == 1 || d == 2 || d == 4 || d == 8
    requires x % d == 0
    ensures (x + k * d) % d == 0
  {
  }

  lemma MultipleOf8(k: nat, d: nat)
    requires d == 1 || d == 2 || d == 4 || d == 8
    ensures (8 * k) % d == 0
  {
    var q := if d == 8 then k else if d == 4 then 2 * k else if d == 2 then 4 * k else 8 * k;
    DivModUnique(8 * k, d, q, 0);
  }

  /** A box of d rows starting at a multiple of d stays inside one band of 8 * vm rows. */
  lemma BandArith(y: nat, d: nat, vm: nat)
    requires d == 1 || d == 2 || d == 4 || d == 8
    requires vm > 0 && y % d == 0
    ensures var b := 8 * vm; var m := y / b; m * b <= y && y + d <= (m + 1) * b && (m + 1) * b == m * b + b
  {
    var b := 8 * vm;
    var m := y / b;
    assert y == m * b + y % b;
    var next := (m + 1) * b;
    assert next == m * b + b;
    assert next == 8 * ((m + 1) * vm) by { MulTwice4(m + 1, vm); }
    MultipleOf8((m + 1) * vm, d);
    MultipleGap(y, next, d);
  }

  lemma MulTwice4(k: nat, vm: nat)
    ensures k * (8 * vm) == 8 * (k * vm)
  {
  }

  /** All the source rows of an output row lie in one band of the image. */
  lemma {:induction false} RowInBand(f: Frame, v: View, oy: nat)
    requires f.Valid() && v.Valid(f) && oy < v.OutH()
    ensures var m := BandOf(f, v, oy);
            m < f.McusY() && m * f.BandH() <= v.Sy0(oy) && v.Sy1(oy) <= Min(m * f.BandH() + f.BandH(), f.height)
  {
    hide HMax, VMax;
    BoxNonEmpty(v, f, 0, oy) by { CeilDivBound(v.x1 - v.x0, v.div, 0); }
    MultipleSum(v.y0, oy, v.div);
    var sy0 := v.Sy0(oy);
    hide View.Sy0, CeilDiv;
    BandArith(sy0, v.div, VMax(f.comps));
    CeilDivBound(f.height, f.BandH(), BandOf(f, v, oy));
  }

  // --- what box_avg reads -------------------------------------------------------------

  function Cx0(f: Frame, i: nat, sx0: nat): nat
    requires i < |f.comps|
  {
    sx0 * f.comps[i].h / HMax(f.comps)
  }

  function Cx1(f: Frame, i: nat, sx1: nat): nat
    requires i < |f.comps|
  {
    CeilDiv(sx1 * f.comps[i].h, HMax(f.comps))
  }

  function Cy0(f: Frame, i: nat, dy0: nat): nat
    requires i < |f.comps|
  {
    dy0 * f.comps[i].v / VMax(f.comps)
  }

  function Cy1(f: Frame, i: nat, dy1: nat): nat
    requires i < |f.comps|
  {
    CeilDiv(dy1 * f.comps[i].v, VMax(f.comps))
  }

  lemma FloorBelowCeil(a: nat, b: nat, m: nat)
    requires m > 0 && a < b
    ensures a / m < CeilDiv(b, m)
  {
    CeilDivBound(b, m, a / m);
    assert a == (a / m) * m + a % m;
    CeilDivBound(b, m, CeilDiv(b, m));
  }

  lemma ScaleBound(x: nat, n: nat, m: nat, s: nat)
    requires x <= n * m
    ensures x * s <= n * s * m
  {
    assert (n * m - x) * s >= 0;
    assert (n * m - x) * s == n * m * s - x * s;
    assert n * m * s == n * s * m;
  }

  /** A span [lo, hi) of at most n * m source positions maps to a nonempty span inside n * s samples. */
  lemma ScaledSpan(lo: nat, hi: nat, n: nat, m: nat, s: nat)
    requires m > 0 && s > 0 && lo < hi <= n * m
    ensures lo * s / m < CeilDiv(hi * s, m) <= n * s
  {
    ScaleBound(hi, n, m, s);
    CeilDivBound(hi * s, m, n * s);
    MulGrows(hi - lo, s);
    MulDistrib(hi, lo, s);
    FloorBelowCeil(lo * s, hi * s, m);
  }

  lemma StrideArith(n: nat, hm: nat, h: nat)
    ensures n * (8 * hm) == (8 * n) * hm && 8 * n * h == 8 * (n * h)
  {
  }

  /** Every sample box_avg reads lies in the band's plane, and the box is not empty. */
  lemma {:induction false} BoxInPlane(f: Frame, v: View, i: nat, ox: nat, oy: nat)
    requires f.Valid() && v.Valid(f) && i < |f.comps| && ox < v.OutW() && oy < v.OutH()
    ensures var y0 := BandOf(f, v, oy) * f.BandH();
            y0 <= v.Sy0(oy) &&
            Cx0(f, i, v.Sx0(ox)) < Cx1(f, i, v.Sx1(ox)) <= f.Stride(i) &&
            Cy0(f, i, v.Sy0(oy) - y0) < Cy1(f, i, v.Sy1(oy) - y0) <= f.PlaneRows(i)
  {
    hide HMax, VMax;
    var hm, vm := HMax(f.comps), VMax(f.comps);
    BoxNonEmpty(v, f, ox, oy);
    RowInBand(f, v, oy);
    CeilDivBound(f.width, 8 * hm, f.McusX());
    StrideArith(f.McusX(), hm, f.comps[i].h);
    hide View.Sx0, View.Sy0, CeilDiv, BandOf;
    ScaledSpan(v.Sx0(ox), v.Sx1(ox), 8 * f.McusX(), hm, f.comps[i].h);
    var y0 := BandOf(f, v, oy) * f.BandH();
    ScaledSpan(v.Sy0(oy) - y0, v.Sy1(oy) - y0, 8, vm, f.comps[i].v);
  }
}
