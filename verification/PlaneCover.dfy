/** A decoded band fills its planes completely, each sample from the block that holds its place: nothing an
    earlier band, or the allocator, left in them is ever averaged into an output row. */
module PlaneCover {
  import opened Bits
  import opened BlockCodec
  import opened BlockCoding
  import opened FrameGeometry
  import opened Planes
  import opened ScanSpec

  /** The block of its component, within MCU column mx, that holds a sample. */
  function LocalBlock(f: Frame, mx: nat, c: nat, x: nat, y: nat): nat
    requires c < |f.comps| && 8 * (mx * f.comps[c].h) <= x
  {
    LocalFits(x, mx * f.comps[c].h);
    var bx: nat := x / 8 - mx * f.comps[c].h;
    y / 8 * f.comps[c].h + bx
  }

  lemma LocalFits(x: nat, k: nat)
    requires 8 * k <= x
    ensures k <= x / 8
  {
  }

  lemma EighthBelow(x: nat, k: nat)
    requires x < 8 * k
    ensures x / 8 < k
  {
  }

  lemma LocalIsHere(f: Frame, mx: nat, c: nat, x: nat, y: nat)
    requires f.Valid() && c < |f.comps| && 8 * (mx * f.comps[c].h) <= x < 8 * ((mx + 1) * f.comps[c].h) && y < f.PlaneRows(c)
    ensures var l := LocalBlock(f, mx, c, x, y);
            l < f.comps[c].h * f.comps[c].v &&
            BlockX(f, mx, c, l) <= x < BlockX(f, mx, c, l) + 8 && BlockY(f, c, l) <= y < BlockY(f, c, l) + 8
  {
    var h, v := f.comps[c].h, f.comps[c].v;
    LocalFits(x, mx * h);
    EighthBelow(x, (mx + 1) * h);
    assert (mx + 1) * h == mx * h + h;
    EighthBelow(y, v);
    var bx, r := x / 8 - mx * h, y / 8;
    DivModUnique(r * h + bx, h, r, bx);
    RowInside(r, v, h);
    MulCommutes(v, h);
  }

  /** A sample's columns lie in the first mx MCUs, or its block is among the first n of MCU mx. */
  ghost predicate Covered(f: Frame, mx: nat, n: nat, c: nat, x: nat, y: nat)
    requires c < |f.comps|
  {
    x < 8 * (mx * f.comps[c].h) ||
    (x < 8 * ((mx + 1) * f.comps[c].h) && FirstUnit(f.comps, c) + LocalBlock(f, mx, c, x, y) < n)
  }

  /** The sample a plane's place gets from an MCU's blocks. */
  ghost function Pixel(hdr: Header, tr: Transforms, flat: bool, blocks: seq<Block>, mx: nat, c: nat, x: nat, y: nat): byte
    requires hdr.Valid() && Sound(tr) && |blocks| == |Units(hdr.frame.comps)| && InColumn(hdr.frame, mx, c, x, y)
  {
    InUnits(hdr.frame, mx, c, x, y);
    var b := blocks[FirstUnit(hdr.frame.comps, c) + LocalBlock(hdr.frame, mx, c, x, y)];
    tr.idct(Natural(b, hdr.qt[hdr.frame.comps[c].tq]), flat)[8 * (y % 8) + x % 8]
  }

  /** The place is one of component c's in MCU column mx. */
  predicate InColumn(f: Frame, mx: nat, c: nat, x: nat, y: nat) {
    c < |f.comps| && 8 * (mx * f.comps[c].h) <= x < 8 * ((mx + 1) * f.comps[c].h) && y < f.PlaneRows(c)
  }

  /** A sample for every place. */
  type Samples = (nat, nat, nat) -> byte

  /** The samples of MCU column mx are those of its blocks. */
  ghost predicate FromBlocks(hdr: Header, tr: Transforms, flat: bool, want: Samples, mx: nat, blocks: seq<Block>)
    requires hdr.Valid() && Sound(tr)
  {
    |blocks| == |Units(hdr.frame.comps)| &&
    forall c: nat, x: nat, y: nat :: InColumn(hdr.frame, mx, c, x, y) ==> want(c, x, y) == Pixel(hdr, tr, flat, blocks, mx, c, x, y)
  }

  ghost predicate Shows(f: Frame, p: seq<seq<byte>>, want: Samples, c: nat, x: nat, y: nat)
    requires PlanesShaped(f, p) && c < |f.comps| && x < f.Stride(c) && y < f.PlaneRows(c)
  {
    At(p[c], f.Stride(c), f.PlaneRows(c), x, y) == want(c, x, y)
  }

  ghost predicate ShowsTo(f: Frame, p: seq<seq<byte>>, want: Samples, mx: nat, n: nat)
    requires PlanesShaped(f, p)
  {
    forall c, x, y :: 0 <= c < |f.comps| && 0 <= x < f.Stride(c) && 0 <= y < f.PlaneRows(c) && Covered(f, mx, n, c, x, y) ==>
      Shows(f, p, want, c, x, y)
  }

  /** A place of the block that is stored gets the block's sample. */
  lemma PlaceIs(f: Frame, mx: nat, c: nat, l: nat, x: nat, y: nat)
    requires c < |f.comps| && f.comps[c].h > 0
    requires BlockX(f, mx, c, l) <= x < BlockX(f, mx, c, l) + 8 && BlockY(f, c, l) <= y < BlockY(f, c, l) + 8
    ensures x - BlockX(f, mx, c, l) == x % 8 && y - BlockY(f, c, l) == y % 8
  {
    DivModUnique(x, 8, mx * f.comps[c].h + l % f.comps[c].h, x - BlockX(f, mx, c, l));
    DivModUnique(y, 8, l / f.comps[c].h, y - BlockY(f, c, l));
  }

  /** Storing the next block shows its samples and leaves the others. */
  lemma StoreShows(f: Frame, p: seq<seq<byte>>, want: Samples, mx: nat, n: nat, i: nat, l: nat, s: seq<byte>, p': seq<seq<byte>>)
    requires f.Valid() && PlanesShaped(f, p) && ShowsTo(f, p, want, mx, n) && mx < f.McusX()
    requires n < |Units(f.comps)| && i == Units(f.comps)[n] && i < |f.comps| && n == FirstUnit(f.comps, i) + l
    requires l < f.comps[i].h * f.comps[i].v && |s| == 64
    requires BlockX(f, mx, i, l) + 8 <= f.Stride(i) && BlockY(f, i, l) + 8 <= f.PlaneRows(i)
    requires p' == p[i := Store(p[i], f.Stride(i), f.PlaneRows(i), BlockX(f, mx, i, l), BlockY(f, i, l), s, 8)]
    requires PlanesShaped(f, p')
    requires forall x, y :: InBlock(f, mx, i, l, x, y) ==> want(i, x, y) == s[8 * (y % 8) + x % 8]
    ensures ShowsTo(f, p', want, mx, n + 1)
  {
    hide HMax, VMax, CeilDiv, Store, At, Units, FirstUnit, BlockX, BlockY, LocalBlock, Frame.McusX;
    forall c, x, y | 0 <= c < |f.comps| && 0 <= x < f.Stride(c) && 0 <= y < f.PlaneRows(c) && Covered(f, mx, n + 1, c, x, y)
      ensures Shows(f, p', want, c, x, y)
    {
      if c == i {
        StoreAt(p[i], f.Stride(i), f.PlaneRows(i), BlockX(f, mx, i, l), BlockY(f, i, l), s, 8, x, y);
        if !Covered(f, mx, n, c, x, y) {
          LocalIsHere(f, mx, c, x, y);
        } else {
          assert Shows(f, p, want, c, x, y);
        }
        if InBlock(f, mx, i, l, x, y) {
          PlaceIs(f, mx, i, l, x, y);
        }
      } else {
        if !Covered(f, mx, n, c, x, y) {
          LocalIsHere(f, mx, c, x, y);
          UnitsSplit(f.comps, c);
          assert false;
        }
        assert Shows(f, p, want, c, x, y);
      }
    }
  }

  /** The place is in block l of component c. */
  predicate InBlock(f: Frame, mx: nat, c: nat, l: nat, x: nat, y: nat) {
    c < |f.comps| && f.comps[c].h > 0 &&
    BlockX(f, mx, c, l) <= x < BlockX(f, mx, c, l) + 8 && BlockY(f, c, l) <= y < BlockY(f, c, l) + 8
  }

  /** The places of block l have it as theirs. */
  lemma BlockIsLocal(f: Frame, mx: nat, c: nat, l: nat, x: nat, y: nat)
    requires f.Valid() && c < |f.comps| && l < f.comps[c].h * f.comps[c].v && InBlock(f, mx, c, l, x, y)
    ensures InColumn(f, mx, c, x, y) && LocalBlock(f, mx, c, x, y) == l
  {
    var h, v := f.comps[c].h, f.comps[c].v;
    var r, bx := l / h, l % h;
    DivModUnique(x, 8, mx * h + bx, x - BlockX(f, mx, c, l));
    DivModUnique(y, 8, r, y - BlockY(f, c, l));
    QuotientBelow(l, h, v);
    assert (mx + 1) * h == mx * h + h;
    assert l == r * h + bx;
  }

  lemma BlockSamples(hdr: Header, tr: Transforms, flat: bool, want: Samples, mx: nat, blocks: seq<Block>, c: nat, l: nat)
    requires hdr.Valid() && Sound(tr) && FromBlocks(hdr, tr, flat, want, mx, blocks)
    requires c < |hdr.frame.comps| && l < hdr.frame.comps[c].h * hdr.frame.comps[c].v
    requires FirstUnit(hdr.frame.comps, c) + l < |blocks|
    ensures var s := tr.idct(Natural(blocks[FirstUnit(hdr.frame.comps, c) + l], hdr.qt[hdr.frame.comps[c].tq]), flat);
            forall x, y :: InBlock(hdr.frame, mx, c, l, x, y) ==> want(c, x, y) == s[8 * (y % 8) + x % 8]
  {
    hide Units, FirstUnit, InBlock, LocalBlock, Natural, HMax, VMax;
    forall x, y | InBlock(hdr.frame, mx, c, l, x, y)
      ensures InColumn(hdr.frame, mx, c, x, y) && want(c, x, y) == Pixel(hdr, tr, flat, blocks, mx, c, x, y)
      ensures LocalBlock(hdr.frame, mx, c, x, y) == l
    {
      BlockIsLocal(hdr.frame, mx, c, l, x, y);
    }
  }

  lemma {:induction false} UnitsShow(hdr: Header, tr: Transforms, flat: bool, mx: nat, p: seq<seq<byte>>, want: Samples,
                                     blocks: seq<Block>, n: nat)
    requires hdr.Valid() && Sound(tr) && PlanesShaped(hdr.frame, p)
    requires mx < hdr.frame.McusX() && n <= |blocks| && n <= |Units(hdr.frame.comps)|
    requires ShowsTo(hdr.frame, p, want, mx, 0) && FromBlocks(hdr, tr, flat, want, mx, blocks)
    ensures ShowsTo(hdr.frame, StoreUnits(hdr, tr, flat, mx, p, blocks, n), want, mx, n)
  {
    hide HMax, VMax, CeilDiv, Store, Units, FirstUnit, BlockX, BlockY, ShowsTo, Natural, FromBlocks, InBlock, Frame.McusX;
    if n > 0 {
      UnitsShow(hdr, tr, flat, mx, p, want, blocks, n - 1);
      var f := hdr.frame;
      var c := Units(f.comps)[n - 1];
      UnitLocal(f.comps, n - 1);
      var l := n - 1 - FirstUnit(f.comps, c);
      BlockFits(f, mx, c, l);
      BlockSamples(hdr, tr, flat, want, mx, blocks, c, l);
      StoreShows(f, StoreUnits(hdr, tr, flat, mx, p, blocks, n - 1), want, mx, n - 1, c, l,
                 tr.idct(Natural(blocks[n - 1], hdr.qt[f.comps[c].tq]), flat), StoreUnits(hdr, tr, flat, mx, p, blocks, n));
    }
  }

  /** All of MCU mx covered is the first mx + 1 MCUs covered. */
  lemma NextColumn(f: Frame, p: seq<seq<byte>>, want: Samples, mx: nat)
    requires f.Valid() && PlanesShaped(f, p) && ShowsTo(f, p, want, mx, |Units(f.comps)|)
    ensures ShowsTo(f, p, want, mx + 1, 0)
  {
    hide HMax, VMax, CeilDiv, At, Units, FirstUnit, LocalBlock, Shows, Frame.Stride, Frame.PlaneRows;
    forall c, x, y | 0 <= c < |f.comps| && 0 <= x < f.Stride(c) && 0 <= y < f.PlaneRows(c) && Covered(f, mx + 1, 0, c, x, y)
      ensures Shows(f, p, want, c, x, y)
    {
      if x >= 8 * (mx * f.comps[c].h) {
        InUnits(f, mx, c, x, y);
      }
      assert Covered(f, mx, |Units(f.comps)|, c, x, y);
    }
  }

  lemma InUnits(f: Frame, mx: nat, c: nat, x: nat, y: nat)
    requires f.Valid() && c < |f.comps| && 8 * (mx * f.comps[c].h) <= x < 8 * ((mx + 1) * f.comps[c].h) && y < f.PlaneRows(c)
    ensures FirstUnit(f.comps, c) + LocalBlock(f, mx, c, x, y) < |Units(f.comps)|
  {
    hide Units, FirstUnit, LocalBlock, BlockX, BlockY;
    LocalIsHere(f, mx, c, x, y);
    UnitsSplit(f.comps, c);
  }

  lemma ScanRuns(hdr: Header, sc: Scan, m: nat)
    requires hdr.Valid() && |sc.preds| == 3 && ScanAt(hdr, sc, m + 1).Run?
    ensures McuAt(hdr, sc, m).Run? && ScanAt(hdr, sc, m).Run?
  {
    hide HMax, VMax, DecodeUnits, BeforeMcu, Units;
  }

  /** The samples of a decoded band. */
  ghost function BandSamples(hdr: Header, tr: Transforms, flat: bool, sc: Scan, my: nat): Samples
    requires hdr.Valid() && Sound(tr) && |sc.preds| == 3
  {
    (c: nat, x: nat, y: nat) =>
      var f := hdr.frame;
      if c < |f.comps| && f.comps[c].h > 0 then
        var mx := Quotient(x, 8 * f.comps[c].h);
        var r := McuAt(hdr, sc, my * f.McusX() + mx);
        if r.Run? && InColumn(f, mx, c, x, y) then Pixel(hdr, tr, flat, r.blocks, mx, c, x, y) else 0
      else 0
  }

  lemma ColumnOf(f: Frame, mx: nat, c: nat, x: nat, y: nat)
    requires InColumn(f, mx, c, x, y)
    ensures f.comps[c].h > 0 && Quotient(x, 8 * f.comps[c].h) == mx
  {
    var h := f.comps[c].h;
    assert (mx + 1) * h == mx * h + h;
    assert mx * (8 * h) == 8 * (mx * h);
    DivModUnique(x, 8 * h, mx, x - 8 * (mx * h));
  }

  lemma SamplesFrom(hdr: Header, tr: Transforms, flat: bool, sc: Scan, my: nat, mx: nat)
    requires hdr.Valid() && Sound(tr) && |sc.preds| == 3 && McuAt(hdr, sc, my * hdr.frame.McusX() + mx).Run?
    ensures FromBlocks(hdr, tr, flat, BandSamples(hdr, tr, flat, sc, my), mx, McuAt(hdr, sc, my * hdr.frame.McusX() + mx).blocks)
  {
    hide HMax, VMax, McuAt, Units, Pixel, Frame.McusX, Frame.PlaneRows, Header.Valid;
    forall c: nat, x: nat, y: nat | InColumn(hdr.frame, mx, c, x, y)
      ensures c < |hdr.frame.comps| && hdr.frame.comps[c].h > 0 && Quotient(x, 8 * hdr.frame.comps[c].h) == mx
    {
      ColumnOf(hdr.frame, mx, c, x, y);
    }
  }

  lemma {:induction false} BandShowsTo(hdr: Header, tr: Transforms, flat: bool, sc: Scan, my: nat, mx: nat, p: seq<seq<byte>>)
    requires hdr.Valid() && Sound(tr) && |sc.preds| == 3 && PlanesShaped(hdr.frame, p) && mx <= hdr.frame.McusX()
    requires ScanAt(hdr, sc, my * hdr.frame.McusX() + mx).Run?
    ensures ShowsTo(hdr.frame, StoreBand(hdr, tr, flat, sc, my, mx, p), BandSamples(hdr, tr, flat, sc, my), mx, 0)
  {
    hide HMax, VMax, CeilDiv, StoreUnits, ShowsTo, McuAt, ScanAt, Units, Frame.McusX, BandSamples, FromBlocks;
    var want := BandSamples(hdr, tr, flat, sc, my);
    if mx == 0 {
      NothingCovered(hdr.frame, p, want);
    } else {
      ScanRuns(hdr, sc, my * hdr.frame.McusX() + (mx - 1));
      BandShowsTo(hdr, tr, flat, sc, my, mx - 1, p);
      SamplesFrom(hdr, tr, flat, sc, my, mx - 1);
      var m := McuAt(hdr, sc, my * hdr.frame.McusX() + (mx - 1));
      UnitsShow(hdr, tr, flat, mx - 1, StoreBand(hdr, tr, flat, sc, my, mx - 1, p), want, m.blocks, |m.blocks|);
      NextColumn(hdr.frame, StoreBand(hdr, tr, flat, sc, my, mx, p), want, mx - 1);
    }
  }

  lemma NothingCovered(f: Frame, p: seq<seq<byte>>, want: Samples)
    requires PlanesShaped(f, p) && f.Valid()
    ensures ShowsTo(f, p, want, 0, 0)
  {
    hide HMax, VMax, CeilDiv, At, Frame.Stride, Frame.PlaneRows;
  }

  /** The planes hold these samples. */
  ghost predicate BandHolds(f: Frame, p: seq<seq<byte>>, want: Samples)
    requires PlanesShaped(f, p)
  {
    forall c, x, y :: 0 <= c < |f.comps| && 0 <= x < f.Stride(c) && 0 <= y < f.PlaneRows(c) ==> Shows(f, p, want, c, x, y)
  }

  /** A decoded band's planes hold the samples of its blocks, and none that they held before. */
  lemma BandFilled(hdr: Header, tr: Transforms, flat: bool, sc: Scan, my: nat, p: seq<seq<byte>>)
    requires hdr.Valid() && Sound(tr) && |sc.preds| == 3 && PlanesShaped(hdr.frame, p)
    requires ScanAt(hdr, sc, my * hdr.frame.McusX() + hdr.frame.McusX()).Run?
    ensures BandHolds(hdr.frame, StoreBand(hdr, tr, flat, sc, my, hdr.frame.McusX(), p), BandSamples(hdr, tr, flat, sc, my))
  {
    hide HMax, VMax, CeilDiv, StoreBand, McuAt, ScanAt, Frame.McusX, BandSamples, Shows, Units, FirstUnit, LocalBlock;
    var f := hdr.frame;
    BandShowsTo(hdr, tr, flat, sc, my, f.McusX(), p);
    forall c, x, y | 0 <= c < |f.comps| && 0 <= x < f.Stride(c) && 0 <= y < f.PlaneRows(c)
      ensures Shows(f, StoreBand(hdr, tr, flat, sc, my, f.McusX(), p), BandSamples(hdr, tr, flat, sc, my), c, x, y)
    {
      assert Covered(f, f.McusX(), 0, c, x, y);
    }
  }

  /** Planes that hold the same samples are equal. */
  lemma PlanesEqual(f: Frame, p: seq<seq<byte>>, q: seq<seq<byte>>, want: Samples)
    requires f.Valid() && PlanesShaped(f, p) && PlanesShaped(f, q) && BandHolds(f, p, want) && BandHolds(f, q, want)
    ensures p == q
  {
    hide HMax, VMax, CeilDiv, BandHolds;
    forall c | 0 <= c < |f.comps|
      ensures p[c] == q[c]
    {
      PlaneEqual(f, p, q, want, c);
    }
  }

  lemma PlaneEqual(f: Frame, p: seq<seq<byte>>, q: seq<seq<byte>>, want: Samples, c: nat)
    requires f.Valid() && PlanesShaped(f, p) && PlanesShaped(f, q) && BandHolds(f, p, want) && BandHolds(f, q, want) && c < |f.comps|
    ensures p[c] == q[c]
  {
    hide HMax, VMax, CeilDiv, Frame.McusX;
    var stride, rows := f.Stride(c), f.PlaneRows(c);
    forall j | 0 <= j < |p[c]|
      ensures p[c][j] == q[c][j]
    {
      Coordinates(j, stride, rows);
      assert Shows(f, p, want, c, j % stride, j / stride) && Shows(f, q, want, c, j % stride, j / stride);
    }
  }

  lemma Coordinates(j: nat, stride: nat, rows: nat)
    requires j < rows * stride
    ensures stride > 0 && 0 <= j % stride < stride && 0 <= j / stride < rows && j / stride * stride + j % stride == j
  {
    MulCommutes(rows, stride);
    assert stride > 0;
    QuotientBelow(j, stride, rows);
  }

  /** The planes of a decoded band do not depend on what they held before. */
  lemma {:induction false} BandIndependent(hdr: Header, tr: Transforms, flat: bool, sc: Scan, my: nat, p: seq<seq<byte>>, q: seq<seq<byte>>)
    requires hdr.Valid() && Sound(tr) && |sc.preds| == 3 && PlanesShaped(hdr.frame, p) && PlanesShaped(hdr.frame, q)
    requires ScanAt(hdr, sc, my * hdr.frame.McusX() + hdr.frame.McusX()).Run?
    ensures StoreBand(hdr, tr, flat, sc, my, hdr.frame.McusX(), p) == StoreBand(hdr, tr, flat, sc, my, hdr.frame.McusX(), q)
  {
    hide HMax, VMax, CeilDiv, StoreBand, BandHolds, McuAt, ScanAt, Frame.McusX, BandSamples;
    BandFilled(hdr, tr, flat, sc, my, p);
    BandFilled(hdr, tr, flat, sc, my, q);
    PlanesEqual(hdr.frame, StoreBand(hdr, tr, flat, sc, my, hdr.frame.McusX(), p),
                StoreBand(hdr, tr, flat, sc, my, hdr.frame.McusX(), q), BandSamples(hdr, tr, flat, sc, my));
  }
}
