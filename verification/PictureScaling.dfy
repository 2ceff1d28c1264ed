/** What jpeg_scale makes of a picture: each output sample is the mean of the picture's samples that its box
    meets, whatever the sampling factors and wherever the bands end; the file it writes is one of a picture. */
module PictureScaling {
  import opened Bits
  import opened Huffman
  import opened BlockCodec
  import opened BlockCoding
  import opened FrameGeometry
  import opened Planes
  import opened ScanSpec
  import opened StripSpec
  import opened JpegScaling
  import opened PlaneCover
  import opened Transcoding
  import opened Pictures

  // --- the samples of a picture -----------------------------------------------------------------------

  /** Sample (x, y) of component c, whose quantiser is q. */
  ghost function PictureSample(q: seq<nat>, tr: Transforms, flat: bool, pic: Picture, c: nat, x: nat, y: nat): byte
    requires |q| == 64 && Sound(tr)
  {
    tr.idct(Natural(pic(c, x / 8, y / 8), q), flat)[8 * (y % 8) + x % 8]
  }

  function QuantiserOf(hdr: Header, c: nat): (q: seq<nat>)
    requires hdr.Valid() && c < |hdr.frame.comps|
    ensures |q| == 64
  {
    hdr.qt[hdr.frame.comps[c].tq]
  }

  lemma BelowMcus(f: Frame, c: nat, x: nat)
    requires f.Valid() && c < |f.comps| && x < f.Stride(c)
    ensures var mx := Quotient(x, 8 * f.comps[c].h);
            mx < f.McusX() && 8 * (mx * f.comps[c].h) <= x < 8 * ((mx + 1) * f.comps[c].h)
  {
    hide Frame.McusX;
    var h := f.comps[c].h;
    var mx := x / (8 * h);
    assert x == mx * (8 * h) + x % (8 * h);
    assert mx * (8 * h) == 8 * (mx * h) && (mx + 1) * h == mx * h + h;
    if mx >= f.McusX() {
      MulDistrib(mx, f.McusX(), h);
      MulNonNeg(mx - f.McusX(), h);
    }
  }

  lemma McuInside(my: nat, mx: nat, across: nat, down: nat)
    requires my < down && mx < across
    ensures my * across + mx < across * down && (my * across + mx) % across == mx && (my * across + mx) / across == my
  {
    DivModUnique(my * across + mx, across, my, mx);
    RowInside(my, down, across);
    MulCommutes(across, down);
  }

  lemma DownBy(y: nat, k: nat)
    ensures (8 * k + y) / 8 == k + y / 8 && (8 * k + y) % 8 == y % 8
  {
  }

  /** The block of a place, within its MCU. */
  lemma LocalPlace(f: Frame, mx: nat, c: nat, x: nat, y: nat)
    requires f.Valid() && InColumn(f, mx, c, x, y)
    ensures var l := LocalBlock(f, mx, c, x, y);
            l < f.comps[c].h * f.comps[c].v &&
            mx * f.comps[c].h + l % f.comps[c].h == x / 8 && l / f.comps[c].h == y / 8
  {
    hide BlockX, BlockY;
    LocalIsHere(f, mx, c, x, y);
    var h := f.comps[c].h;
    LocalFits(x, mx * h);
    EighthBelow(x, (mx + 1) * h);
    assert (mx + 1) * h == mx * h + h;
    DivModUnique(LocalBlock(f, mx, c, x, y), h, y / 8, x / 8 - mx * h);
  }

  /** MCU m is decoded to the picture's blocks. */
  ghost predicate McuIs(hdr: Header, sc: Scan, pic: Picture, m: nat)
    requires hdr.Valid() && |sc.preds| == 3
  {
    McuAt(hdr, sc, m).Run? && McuAt(hdr, sc, m).blocks == Blocks(McuNo(hdr.frame, pic, m))
  }

  /** The scan is one of the picture. */
  ghost predicate Decodes(hdr: Header, sc: Scan, pic: Picture) {
    hdr.Valid() && |sc.preds| == 3 && ScanAt(hdr, sc, McuCount(hdr.frame)).Run? &&
    forall m: nat :: m < McuCount(hdr.frame) ==> McuIs(hdr, sc, pic, m)
  }

  ghost predicate HasBlock(r: Run, n: nat, b: Block) {
    r.Run? && n < |r.blocks| && r.blocks[n] == b
  }

  /** Block l of component c in MCU (mx, my). */
  function BlockOf(f: Frame, pic: Picture, mx: nat, my: nat, c: nat, l: nat): Block
    requires c < |f.comps| && f.comps[c].h > 0
  {
    pic(c, mx * f.comps[c].h + l % f.comps[c].h, my * f.comps[c].v + l / f.comps[c].h)
  }

  lemma BandBlock(hdr: Header, sc: Scan, pic: Picture, my: nat, mx: nat, c: nat, l: nat)
    requires hdr.Valid() && |sc.preds| == 3 && Decodes(hdr, sc, pic) && my < hdr.frame.McusY() && mx < hdr.frame.McusX()
    requires c < |hdr.frame.comps| && l < hdr.frame.comps[c].h * hdr.frame.comps[c].v
    ensures HasBlock(McuAt(hdr, sc, my * hdr.frame.McusX() + mx), FirstUnit(hdr.frame.comps, c) + l,
                     BlockOf(hdr.frame, pic, mx, my, c, l))
  {
    hide McuAt, ScanAt, Units, Frame.McusX, Frame.McusY, McuOf, FirstUnit, Comps, Table.Valid;
    McuInside(my, mx, hdr.frame.McusX(), hdr.frame.McusY());
    assert McuIs(hdr, sc, pic, my * hdr.frame.McusX() + mx);
    McuBlockAt(hdr.frame, pic, mx, my, |hdr.frame.comps|, c, l);
  }

  /** The samples of a decoded band are the picture's. */
  lemma BandIsPicture(hdr: Header, tr: Transforms, flat: bool, sc: Scan, pic: Picture, my: nat, c: nat, x: nat, y: nat)
    requires Decodes(hdr, sc, pic) && Sound(tr)
    requires my < hdr.frame.McusY() && c < |hdr.frame.comps| && x < hdr.frame.Stride(c) && y < hdr.frame.PlaneRows(c)
    ensures BandSamples(hdr, tr, flat, sc, my)(c, x, y)
         == PictureSample(QuantiserOf(hdr, c), tr, flat, pic, c, x, 8 * (my * hdr.frame.comps[c].v) + y)
  {
    hide McuAt, ScanAt, Natural, Units, LocalBlock, Frame.McusX, Frame.McusY, FirstUnit, Table.Valid, McuIs;
    var f := hdr.frame;
    BelowMcus(f, c, x);
    var mx := Quotient(x, 8 * f.comps[c].h);
    LocalPlace(f, mx, c, x, y);
    BandBlock(hdr, sc, pic, my, mx, c, LocalBlock(f, mx, c, x, y));
    DownBy(y, my * f.comps[c].v);
  }

  // --- the mean of a box ------------------------------------------------------------------------------

  type Grid = (nat, nat) -> byte

  function RowTotal(g: Grid, x0: nat, x1: nat, y: nat): nat {
    if x0 >= x1 then 0 else RowTotal(g, x0, x1 - 1, y) + g(x1 - 1, y)
  }

  /** The sum over columns x0..x1 of rows y0..y1. */
  function BoxTotal(g: Grid, x0: nat, x1: nat, y0: nat, y1: nat): nat {
    if y0 >= y1 then 0 else BoxTotal(g, x0, x1, y0, y1 - 1) + RowTotal(g, x0, x1, y1 - 1)
  }

  /** m is the mean of n numbers with this sum, a half rounded up. */
  predicate IsMean(m: nat, total: nat, n: int) {
    2 * (m * n) <= 2 * total + n < 2 * (m * n) + 2 * n
  }

  lemma {:induction false} RowSumIs(p: seq<byte>, at: nat, x0: nat, x1: nat, g: Grid, y: nat)
    requires x0 <= x1 && at + x1 <= |p| && forall x :: x0 <= x < x1 ==> p[at + x] == g(x, y)
    ensures RowSum(p, at + x0, at + x1) == RowTotal(g, x0, x1, y)
    decreases x1
  {
    if x0 < x1 {
      RowSumIs(p, at, x0, x1 - 1, g, y);
    }
  }

  lemma {:induction false} BoxSumIs(p: seq<byte>, stride: nat, rows: nat, x0: nat, x1: nat, y0: nat, y1: nat, g: Grid, off: nat)
    requires Shaped(p, stride, rows) && x0 <= x1 <= stride && y0 <= y1 <= rows
    requires forall x, y :: x0 <= x < x1 && y0 <= y < y1 ==> At(p, stride, rows, x, y) == g(x, off + y)
    ensures BoxSum(p, stride, rows, x0, x1, y0, y1) == BoxTotal(g, x0, x1, off + y0, off + y1)
    decreases y1
  {
    if y0 < y1 {
      BoxSumIs(p, stride, rows, x0, x1, y0, y1 - 1, g, off);
      RowInside(y1 - 1, rows, stride);
      PlaneRow(p, stride, rows, x0, x1, y1 - 1, g, off + y1 - 1);
    }
  }

  lemma PlaneRow(p: seq<byte>, stride: nat, rows: nat, x0: nat, x1: nat, y: nat, g: Grid, gy: nat)
    requires Shaped(p, stride, rows) && x0 <= x1 <= stride && y < rows
    requires forall x :: x0 <= x < x1 ==> At(p, stride, rows, x, y) == g(x, gy)
    ensures y * stride + stride <= |p| && RowSum(p, y * stride + x0, y * stride + x1) == RowTotal(g, x0, x1, gy)
  {
    RowInside(y, rows, stride);
    var at := y * stride;
    forall x | x0 <= x < x1
      ensures p[at + x] == g(x, gy)
    {
      assert At(p, stride, rows, x, y) == p[at + x];
    }
    RowSumIs(p, at, x0, x1, g, gy);
  }

  lemma MeanIs(total: nat, n: nat)
    requires n > 0
    ensures IsMean((total + n / 2) / n, total, n)
  {
    var q := (total + n / 2) / n;
    assert total + n / 2 == q * n + (total + n / 2) % n;
  }

  // --- the samples a box meets ------------------------------------------------------------------------

  /** Columns or rows lo to hi, of a component with `part` samples to `whole` of them. */
  datatype Span = Span(lo: nat, hi: nat, part: nat, whole: nat) {
    /** Sample x meets it. */
    predicate Meets(x: nat) {
      x * whole < hi * part && lo * part < (x + 1) * whole
    }

    /** Samples a to b are those that meet it. */
    ghost predicate Covers(a: nat, b: nat) {
      a < b && forall x: nat :: a <= x < b <==> Meets(x)
    }

    lemma MeetsIff(x: nat)
      requires whole > 0
      ensures lo * part / whole <= x < CeilDiv(hi * part, whole) <==> Meets(x)
    {
      CeilDivBound(hi * part, whole, x);
      FloorBound(lo * part, whole, x);
    }

    lemma SpanCovers()
      requires whole > 0 && part > 0 && lo < hi
      ensures Covers(lo * part / whole, CeilDiv(hi * part, whole))
    {
      hide CeilDiv;
      MulGrows(hi - lo, part);
      MulDistrib(hi, lo, part);
      FloorBelowCeil(lo * part, hi * part, whole);
      forall x: nat
        ensures lo * part / whole <= x < CeilDiv(hi * part, whole) <==> Meets(x)
      {
        MeetsIff(x);
      }
    }
  }

  lemma FloorBound(a: nat, b: nat, x: nat)
    requires b > 0
    ensures a / b <= x <==> a < (x + 1) * b
  {
    var q := a / b;
    assert a == q * b + a % b;
    assert (x + 1) * b == x * b + b;
    MulDistrib(x, q, b);
    MulDistrib(q, x, b);
    if q <= x {
      MulNonNeg(x - q, b);
    } else {
      MulGrows(q - x, b);
    }
  }

  /** Of bands of 8 * whole rows, each with 8 * part rows of samples: a span counted from the top of band k. */
  lemma SpanInBand(lo: nat, hi: nat, part: nat, whole: nat, k: nat)
    requires whole > 0 && k * (8 * whole) <= lo && k * (8 * whole) <= hi
    ensures lo * part / whole == 8 * (k * part) + (lo - k * (8 * whole)) * part / whole
    ensures CeilDiv(hi * part, whole) == 8 * (k * part) + CeilDiv((hi - k * (8 * whole)) * part, whole)
  {
    BandTop(lo, part, whole, k);
    BandTop(hi, part, whole, k);
    Shifted((lo - k * (8 * whole)) * part, 8 * (k * part), whole);
    Shifted((hi - k * (8 * whole)) * part + whole - 1, 8 * (k * part), whole);
  }

  lemma BandTop(y: nat, part: nat, whole: nat, k: nat)
    requires k * (8 * whole) <= y
    ensures (y - k * (8 * whole)) * part >= 0 && y * part == 8 * (k * part) * whole + (y - k * (8 * whole)) * part
  {
    var d := y - k * (8 * whole);
    MulNonNeg(d, part);
    assert y * part == (k * (8 * whole)) * part + d * part;
    assert (k * (8 * whole)) * part == 8 * (k * part) * whole;
  }

  lemma Shifted(a: nat, q: nat, n: nat)
    requires n > 0
    ensures (q * n + a) / n == q + a / n
  {
    assert a == a / n * n + a % n;
    assert (q + a / n) * n == q * n + a / n * n;
    DivModUnique(q * n + a, n, q + a / n, a % n);
  }

  // --- output rows ------------------------------------------------------------------------------------

  ghost function PictureGrid(q: seq<nat>, tr: Transforms, flat: bool, pic: Picture, c: nat): Grid
    requires |q| == 64 && Sound(tr)
  {
    (x: nat, y: nat) => PictureSample(q, tr, flat, pic, c, x, y)
  }

  /** b is the mean of the samples that meet both spans. */
  ghost predicate IsBoxMean(g: Grid, b: byte, across: Span, down: Span) {
    exists x0: nat, x1: nat, y0: nat, y1: nat ::
      across.Covers(x0, x1) && down.Covers(y0, y1) && IsMean(b, BoxTotal(g, x0, x1, y0, y1), (x1 - x0) * (y1 - y0))
  }

  function ColumnSpan(f: Frame, v: View, c: nat, ox: nat): Span
    requires c < |f.comps|
  {
    Span(v.x0 + ox * v.div, Min(v.x0 + ox * v.div + v.div, v.x1), f.comps[c].h, HMax(f.comps))
  }

  function RowSpan(f: Frame, v: View, c: nat, k: nat): Span
    requires c < |f.comps|
  {
    Span(v.y0 + k * v.div, Min(v.y0 + k * v.div + v.div, v.y1), f.comps[c].v, VMax(f.comps))
  }

  /** Sample ox of output row k is the mean of the samples of the picture's component that meet its box, or
      neutral where there is no such component. */
  ghost predicate Averages(hdr: Header, tr: Transforms, v: View, pic: Picture, k: nat, c: nat, ox: nat, b: byte)
    requires hdr.Valid() && Sound(tr)
  {
    if c < |hdr.frame.comps| then
      IsBoxMean(PictureGrid(QuantiserOf(hdr, c), tr, v.div == 8, pic, c), b, ColumnSpan(hdr.frame, v, c, ox), RowSpan(hdr.frame, v, c, k))
    else b == 128
  }

  /** The mean of a box of a band's plane. */
  lemma BoxMeans(p: seq<byte>, stride: nat, rows: nat, x0: nat, x1: nat, y0: nat, y1: nat, g: Grid, off: nat, across: Span, down: Span)
    requires Shaped(p, stride, rows) && x0 < x1 <= stride && y0 < y1 <= rows
    requires forall x, y :: x0 <= x < x1 && y0 <= y < y1 ==> At(p, stride, rows, x, y) == g(x, off + y)
    requires across.Covers(x0, x1) && down.Covers(off + y0, off + y1)
    ensures IsBoxMean(g, BoxAvg(p, stride, rows, x0, x1, y0, y1), across, down)
  {
    hide At, Span.Covers, IsMean, BoxSum, BoxTotal;
    BoxSumIs(p, stride, rows, x0, x1, y0, y1, g, off);
    MulGrows(y1 - y0, x1 - x0);
    MeanIs(BoxTotal(g, x0, x1, off + y0, off + y1), (x1 - x0) * (y1 - y0));
  }

  /** The samples of an output row's box are the picture's. */
  lemma PlaneIsPicture(hdr: Header, tr: Transforms, flat: bool, sc: Scan, pic: Picture, planes: seq<seq<byte>>, my: nat, c: nat)
    requires Decodes(hdr, sc, pic) && Sound(tr) && my < hdr.frame.McusY() && c < |hdr.frame.comps|
    requires PlanesShaped(hdr.frame, planes) && BandHolds(hdr.frame, planes, BandSamples(hdr, tr, flat, sc, my))
    ensures var f := hdr.frame;
            forall x: nat, y: nat :: x < f.Stride(c) && y < f.PlaneRows(c) ==>
              At(planes[c], f.Stride(c), f.PlaneRows(c), x, y)
              == PictureGrid(QuantiserOf(hdr, c), tr, flat, pic, c)(x, 8 * (my * f.comps[c].v) + y)
  {
    hide HMax, VMax, CeilDiv, McuIs, ScanAt, Frame.McusX, Frame.McusY, At, Table.Valid, PictureSample, BandSamples;
    var f := hdr.frame;
    forall x: nat, y: nat | x < f.Stride(c) && y < f.PlaneRows(c)
      ensures At(planes[c], f.Stride(c), f.PlaneRows(c), x, y) == PictureGrid(QuantiserOf(hdr, c), tr, flat, pic, c)(x, 8 * (my * f.comps[c].v) + y)
    {
      assert Shows(f, planes, BandSamples(hdr, tr, flat, sc, my), c, x, y);
      BandIsPicture(hdr, tr, flat, sc, pic, my, c, x, y);
    }
  }

  /** The places in a band of the samples that meet an output row's box. */
  lemma BoxCovers(f: Frame, v: View, c: nat, k: nat, ox: nat)
    requires f.Valid() && v.Valid(f) && c < |f.comps| && k < v.OutH() && ox < v.OutW()
    ensures var my := BandOf(f, v, k);
            var top, off := my * f.BandH(), 8 * (my * f.comps[c].v);
            top <= v.Sy0(k) <= v.Sy1(k) &&
            ColumnSpan(f, v, c, ox).Covers(Cx0(f, c, v.Sx0(ox)), Cx1(f, c, v.Sx1(ox))) &&
            RowSpan(f, v, c, k).Covers(off + Cy0(f, c, v.Sy0(k) - top), off + Cy1(f, c, v.Sy1(k) - top))
  {
    hide HMax, VMax, CeilDiv, BandOf, Span.Covers;
    BoxNonEmpty(v, f, ox, k);
    RowInBand(f, v, k);
    ColumnSpan(f, v, c, ox).SpanCovers();
    RowSpan(f, v, c, k).SpanCovers();
    SpanInBand(v.Sy0(k), v.Sy1(k), f.comps[c].v, VMax(f.comps), BandOf(f, v, k));
  }

  /** The output samples taken from a band that shows the picture are the picture's means. */
  lemma SampleAverages(hdr: Header, tr: Transforms, v: View, sc: Scan, pic: Picture, planes: seq<seq<byte>>, k: nat, c: nat, ox: nat)
    requires Decodes(hdr, sc, pic) && Sound(tr) && v.Valid(hdr.frame) && k < v.OutH() && ox < v.OutW()
    requires PlanesShaped(hdr.frame, planes)
    requires BandHolds(hdr.frame, planes, BandSamples(hdr, tr, v.div == 8, sc, BandOf(hdr.frame, v, k)))
    ensures Averages(hdr, tr, v, pic, k, c, ox, Sample(hdr.frame, v, planes, k, c, ox))
  {
    hide HMax, VMax, CeilDiv, McuIs, ScanAt, Frame.McusX, Frame.McusY, BandOf, Span.Covers, BoxAvg, At, Table.Valid,
         PictureGrid, BandSamples, View.Sx0, View.Sy0, View.Sx1, View.Sy1, IsBoxMean, BandHolds, ColumnSpan, RowSpan, Cx0, Cx1, Cy0, Cy1;
    var f := hdr.frame;
    if c < |f.comps| {
      var my := BandOf(f, v, k);
      BoxInPlane(f, v, c, ox, k);
      RowInBand(f, v, k);
      BoxCovers(f, v, c, k, ox);
      PlaneIsPicture(hdr, tr, v.div == 8, sc, pic, planes, my, c);
      var top := my * f.BandH();
      BoxMeans(planes[c], f.Stride(c), f.PlaneRows(c), Cx0(f, c, v.Sx0(ox)), Cx1(f, c, v.Sx1(ox)),
               Cy0(f, c, v.Sy0(k) - top), Cy1(f, c, v.Sy1(k) - top), PictureGrid(QuantiserOf(hdr, c), tr, v.div == 8, pic, c),
               8 * (my * f.comps[c].v), ColumnSpan(f, v, c, ox), RowSpan(f, v, c, k));
    }
  }

  /** The bands an output image needs are among the picture's. */
  lemma RowsDecode(hdr: Header, sc: Scan, pic: Picture, v: View)
    requires hdr.Valid() && |sc.preds| == 3 && Decodes(hdr, sc, pic) && v.Valid(hdr.frame)
    ensures ScanAt(hdr, sc, NeededMcus(hdr.frame, v)).Run?
  {
    hide HMax, VMax, CeilDiv, McuIs, ScanAt, Frame.McusX, Frame.McusY, BandOf;
    var f := hdr.frame;
    CeilDivBound(v.y1 - v.y0, v.div, 0);
    RowInBand(f, v, v.OutH() - 1);
    MulMono(LastBand(f, v) + 1, f.McusY(), f.McusX());
    MulCommutes(f.McusX(), f.McusY());
    if ScanAt(hdr, sc, NeededMcus(f, v)).Bad? {
      BadStaysBad(hdr, sc, NeededMcus(f, v), McuCount(f));
    }
  }

  /** Every sample of the image a scan of the picture makes is the mean of those of the picture that meet its
      box. */
  lemma RowAverages(hdr: Header, tr: Transforms, v: View, sc: Scan, pic: Picture, k: nat, c: nat, ox: nat)
    requires hdr.Valid() && |sc.preds| == 3 && Decodes(hdr, sc, pic) && Sound(tr) && v.Valid(hdr.frame)
    requires k < v.OutH() && ox < v.OutW() && c < 3
    ensures Averages(hdr, tr, v, pic, k, c, ox, ImageRows(hdr, tr, v, sc)[k][c][ox])
  {
    hide HMax, VMax, CeilDiv, McuIs, ScanAt, Frame.McusX, Frame.McusY, BandOf, BandHolds, StoreBand, Averages, Sample, Needed, NeededMcus,
         PlanesShaped, Table.Valid, View.Valid;
    var my := BandOf(hdr.frame, v, k);
    RowsDecode(hdr, sc, pic, v);
    RowsBandNeeded(hdr.frame, v, k);
    RowsBandDecodes(hdr, v, sc, k);
    BandFilled(hdr, tr, v.div == 8, sc, my, PlanesAfter(hdr, tr, v, sc, my, Blank(hdr.frame)));
    SampleAverages(hdr, tr, v, sc, pic, RowPlanes(hdr, tr, v, sc, Blank(hdr.frame), k), k, c, ox);
  }
}
