/** dec_run and jpeg_scale: the whole transcoder, with the output in its own buffer or below the
    input in the same one. */
module JpegScaling {
  import opened Bits
  import opened BitReading
  import opened BitWriting
  import opened FrameGeometry
  import opened ScanSpec
  import opened StripSpec
  import opened McuDecoding
  import opened RowSinks

  /** The planes output row k is averaged from: those after its band. */
  ghost function RowPlanes(hdr: Header, tr: Transforms, v: View, sc: Scan, p0: seq<seq<byte>>, k: nat): (r: seq<seq<byte>>)
    requires hdr.Valid() && Sound(tr) && |sc.preds| == 3 && PlanesShaped(hdr.frame, p0)
    ensures PlanesShaped(hdr.frame, r)
  {
    PlanesAfter(hdr, tr, v, sc, BandOf(hdr.frame, v, k) + 1, p0)
  }

  /** The output rows a scan makes. */
  ghost predicate AreRows(hdr: Header, tr: Transforms, v: View, sc: Scan, p0: seq<seq<byte>>, rows: seq<Row>)
    requires hdr.Valid() && Sound(tr) && |sc.preds| == 3 && PlanesShaped(hdr.frame, p0) && v.Valid(hdr.frame)
  {
    |rows| <= v.OutH() &&
    forall k :: 0 <= k < |rows| ==> IsRow(hdr.frame, v, RowPlanes(hdr, tr, v, sc, p0, k), k, rows[k])
  }

  /** The band of the last output row. */
  function LastBand(f: Frame, v: View): nat
    requires f.Valid() && v.Valid(f)
  {
    CeilDivBound(v.y1 - v.y0, v.div, 0);
    BandOf(f, v, v.OutH() - 1)
  }

  /** The MCUs that have to be decoded: those of the bands up to the last output row's. */
  function NeededMcus(f: Frame, v: View): nat
    requires f.Valid() && v.Valid(f)
  {
    (LastBand(f, v) + 1) * f.McusX()
  }

  /** What a decoder that began at sc has left to read after m MCUs. */
  function LeftAt(hdr: Header, sc: Scan, m: nat): nat
    requires hdr.Valid() && |sc.preds| == 3
  {
    match ScanAt(hdr, sc, m)
    case Bad => 0
    case Run(s, _) => Unread(s.rest, s.tail, s.last)
  }

  /** The same when each of the first n output rows is emitted: after the row's band. */
  function RowTimes(hdr: Header, v: View, sc: Scan, n: nat): (at: seq<nat>)
    requires hdr.Valid() && |sc.preds| == 3
    ensures |at| == n
  {
    seq(n, k requires 0 <= k < n => LeftAt(hdr, sc, (BandOf(hdr.frame, v, k) + 1) * hdr.frame.McusX()))
  }

  lemma TimesMore(hdr: Header, v: View, sc: Scan, n: nat, n': nat, my: nat, left: nat)
    requires hdr.Valid() && |sc.preds| == 3 && n <= n'
    requires forall k :: n <= k < n' ==> BandOf(hdr.frame, v, k) == my
    requires LeftAt(hdr, sc, (my + 1) * hdr.frame.McusX()) == left
    ensures Until(RowTimes(hdr, v, sc, n), n', left) == RowTimes(hdr, v, sc, n')
  {
    hide BandOf, LeftAt, Frame.McusX;
  }

  /** What the sink's encoder sees left is what the scan leaves. */
  lemma LeftIs(d: Decoder, s: RowSink, sc: Scan, m: nat)
    requires d.Valid() && Linked(d, s) && Reached(d, sc, m)
    ensures s.e.Left() == LeftAt(d.hdr, sc, m)
  {
    hide ScanAt, Unread, Lead, Buffered, RowSink.Valid;
    d.rd.LeftToRead();
  }

  /** A decoder feeding a sink whose encoder may write over the decoder's consumed input. */
  ghost predicate Linked(d: Decoder, s: RowSink) {
    s.f == d.hdr.frame && s.tr == d.tr && s.e.src == d.rd &&
    (forall i :: 0 <= i < |d.planes| ==> d.planes[i] !in s.strip && d.planes[i] != s.e.out)
  }

  ghost predicate BandStored(hdr: Header, tr: Transforms, v: View, sc: Scan, my: nat, p: seq<seq<byte>>, q: seq<seq<byte>>)
    requires hdr.Valid() && Sound(tr) && |sc.preds| == 3 && PlanesShaped(hdr.frame, p)
  {
    q == StoreBand(hdr, tr, v.div == 8, sc, my, hdr.frame.McusX(), p)
  }

  /** DecodeBand leaves the sink as it was: it changes nothing the sink's encoder has written. */
  method DecodeBandFor(d: Decoder, s: RowSink, my: nat, mcu0: nat, needed: bool, blk: array<int>, ghost sc: Scan)
    returns (ok: bool)
    requires d.Valid() && s.Valid() && Linked(d, s) && mcu0 == my * d.hdr.frame.McusX() && blk.Length == 64
    requires |sc.preds| == 3 && ScanAt(d.hdr, sc, mcu0) == Run(d.Here(), [])
    modifies d`pred, d.rd, blk, d.planes
    ensures PlanesShaped(d.hdr.frame, old(d.PlaneSeqs())) && (ok ==> s.Valid())
    ensures !ok ==> ScanAt(d.hdr, sc, mcu0 + d.hdr.frame.McusX()).Bad?
    ensures ok ==> d.Valid() && ScanAt(d.hdr, sc, mcu0 + d.hdr.frame.McusX()) == Run(d.Here(), [])
    ensures ok && needed ==> BandStored(d.hdr, d.tr, s.v, sc, my, old(d.PlaneSeqs()), d.PlaneSeqs())
    ensures ok && !needed ==> d.PlaneSeqs() == old(d.PlaneSeqs())
  {
    hide Overflows, Buffered, Pending, Holds, ImageUnits, UnitsBits, StoreBand, ScanAt, HMax, VMax, CeilDiv, Codable, RowsOf;
    ok := d.DecodeBand(my, mcu0, needed, s.v.div == 8, blk, sc);
  }

  /** The decoder has decoded the bands before my. */
  ghost predicate DecodedTo(d: Decoder, v: View, mcu0: nat, my: nat, sc: Scan, p0: seq<seq<byte>>)
    requires d.hdr.Valid() && Sound(d.tr)
    reads d, d.rd, d.planes
  {
    |sc.preds| == 3 && PlanesShaped(d.hdr.frame, p0) &&
    ScanAt(d.hdr, sc, mcu0) == Run(d.Here(), []) &&
    d.PlaneSeqs() == PlanesAfter(d.hdr, d.tr, v, sc, my, p0)
  }

  /** The sink has emitted the rows of the bands before my. */
  ghost predicate EmittedTo(s: RowSink, hdr: Header, tr: Transforms, my: nat, sc: Scan, p0: seq<seq<byte>>)
    requires hdr.Valid() && Sound(tr) && |sc.preds| == 3 && PlanesShaped(hdr.frame, p0) && s.v.Valid(hdr.frame)
    reads s
  {
    s.UpTo(my) && AreRows(hdr, tr, s.v, sc, p0, s.rows)
  }

  /** Each row was emitted after its band. */
  ghost predicate InTime(s: RowSink, hdr: Header, sc: Scan)
    reads s, s.e
  {
    hdr.Valid() && |sc.preds| == 3 && Sound(s.tr) && s.cs.Valid() && s.v.div > 0 && s.v.x0 <= s.v.x1 &&
    s.Timed(RowTimes(hdr, s.v, sc, |s.rows|), LeftAt(hdr, sc, 0))
  }

  /** The decoder is where m MCUs of the scan leave it. */
  ghost predicate Reached(d: Decoder, sc: Scan, m: nat)
    reads d, d.rd
  {
    d.hdr.Valid() && |sc.preds| == 3 && ScanAt(d.hdr, sc, m) == Run(d.Here(), [])
  }

  ghost predicate Working(d: Decoder, s: RowSink)
    reads d, d.rd, d.rd.data, d.dc, d.ac, d.planes, s, s.e, s.e.src, s.e.out, s.e.src.data, s.strip
  {
    d.Valid() && s.Valid() && Linked(d, s) && s.stripRows < 8
  }

  /** The rows of band my join those before them. */
  lemma MoreRows(hdr: Header, tr: Transforms, v: View, sc: Scan, p0: seq<seq<byte>>, before: seq<Row>, rows: seq<Row>,
                 my: nat, s: RowSink)
    requires hdr.Valid() && Sound(tr) && |sc.preds| == 3 && PlanesShaped(hdr.frame, p0) && v.Valid(hdr.frame)
    requires AreRows(hdr, tr, v, sc, p0, before) && |before| <= |rows| && rows[..|before|] == before
    requires s.f == hdr.frame && s.v == v && s.rows == rows
    requires s.RowsFrom(|before|, my, PlanesAfter(hdr, tr, v, sc, my + 1, p0))
    ensures AreRows(hdr, tr, v, sc, p0, rows)
  {
    hide IsRow, PlanesAfter, HMax, VMax, BandOf, CeilDiv, Sound;
    forall k | 0 <= k < |rows|
      ensures IsRow(hdr.frame, v, RowPlanes(hdr, tr, v, sc, p0, k), k, rows[k])
    {
      if k < |before| {
        assert rows[k] == rows[..|before|][k];
      }
    }
  }

  /** What the sink has written has left the decoder's data alone. */
  lemma ReaderStands(s: RowSink)
    requires s.Valid()
    ensures s.e.src.Valid()
  {
    hide Buffered, Pending, Holds, ImageUnits, UnitsBits, Codable;
  }

  /** The rows band my completes. */
  method EmitBand(d: Decoder, s: RowSink, my: nat, m: nat, needed: bool, ghost sc: Scan, ghost p0: seq<seq<byte>>)
    requires Working(d, s) && m == (my + 1) * d.hdr.frame.McusX() && DecodedTo(d, s.v, m, my + 1, sc, p0)
    requires EmittedTo(s, d.hdr, d.tr, my, sc, p0) && InTime(s, d.hdr, sc) && needed == Needed(d.hdr.frame, s.v, my)
    modifies s, s.e`pos, s.e`overflow, s.e`written, s.e`marks, s.e`bits, s.e`nbits, s.e`sent, s.e.out, s.strip
    ensures Working(d, s) && DecodedTo(d, s.v, m, my + 1, sc, p0)
    ensures EmittedTo(s, d.hdr, d.tr, my + 1, sc, p0) && InTime(s, d.hdr, sc)
  {
    hide BitWriter.Valid, BitWriter.BitState, BitReader.Valid, Holds, ImageUnits, UnitsBits, HMax, VMax, CeilDiv, Codable, IsRow,
         View.Sy0, PlanesAfter, Needed, Sound, RowPlanes, RowTimes, LeftAt, RowSink.Timed, Frame.McusX, Coders.Valid, ScanAt;
    if needed {
      ghost var before, at := s.rows, RowTimes(d.hdr, s.v, sc, |s.rows|);
      LeftIs(d, s, sc, m);
      s.EmitRows(my, d.planes, d.PlaneSeqs(), at, LeftAt(d.hdr, sc, 0));
      ReaderStands(s);
      TimesMore(d.hdr, s.v, sc, |before|, |s.rows|, my, s.e.Left());
      MoreRows(d.hdr, d.tr, s.v, sc, p0, before, s.rows, my, s);
    } else {
      s.NothingThere(my);
    }
  }

  /** One turn of dec_run's loop: a band decoded, and the rows it completes emitted. */
  method RunBand(d: Decoder, s: RowSink, my: nat, mcu0: nat, blk: array<int>, ghost sc: Scan, ghost p0: seq<seq<byte>>)
    returns (ok: bool)
    requires Working(d, s) && blk.Length == 64 && mcu0 == my * d.hdr.frame.McusX()
    requires DecodedTo(d, s.v, mcu0, my, sc, p0) && EmittedTo(s, d.hdr, d.tr, my, sc, p0) && InTime(s, d.hdr, sc)
    modifies d`pred, d.rd, blk, d.planes, s, s.e`pos, s.e`overflow, s.e`written, s.e`marks, s.e`bits, s.e`nbits, s.e`sent, s.e.out, s.strip
    ensures ok ==> Working(d, s)
    ensures ok ==> DecodedTo(d, s.v, mcu0 + d.hdr.frame.McusX(), my + 1, sc, p0)
    ensures ok ==> EmittedTo(s, d.hdr, d.tr, my + 1, sc, p0) && InTime(s, d.hdr, sc)
    ensures !ok ==> ScanAt(d.hdr, sc, mcu0 + d.hdr.frame.McusX()).Bad?
  {
    hide BitWriter.Marked, Buffered, Pending, Holds, ImageUnits, UnitsBits, ScanAt, HMax, VMax, CeilDiv, Codable, RowsOf, IsRow, View.Sy0,
         StoreBand, Sound, RowPlanes, AreRows, InTime;
    var f := d.hdr.frame;
    var bandY0 := my * f.BandH();
    var bandY1 := if bandY0 + f.BandH() < f.height then bandY0 + f.BandH() else f.height;
    var needed := bandY1 > s.v.y0 && bandY0 < s.v.y1;
    ok := DecodeBandFor(d, s, my, mcu0, needed, blk, sc);
    if ok {
      NextBand(my, d.hdr.frame.McusX());
      EmitBand(d, s, my, mcu0 + d.hdr.frame.McusX(), needed, sc, p0);
    }
  }

  lemma NextBand(my: nat, n: nat)
    ensures (my + 1) * n == my * n + n
  {
  }

  /** dec_run: bands until every output row is out. It succeeds exactly if all the MCUs needed decode. */
  method DecRun(d: Decoder, s: RowSink, ghost sc: Scan, ghost p0: seq<seq<byte>>) returns (ok: bool)
    requires Working(d, s) && s.rows == [] && d.Here() == sc && d.PlaneSeqs() == p0
    requires s.Timed([], s.e.Left())
    modifies d`pred, d.rd, d.planes, s, s.e`pos, s.e`overflow, s.e`written, s.e`marks, s.e`bits, s.e`nbits, s.e`sent, s.e.out, s.strip
    ensures PlanesShaped(d.hdr.frame, p0)
    ensures ok == ScanAt(d.hdr, sc, NeededMcus(d.hdr.frame, s.v)).Run?
    ensures ok ==> Reached(d, sc, NeededMcus(d.hdr.frame, s.v)) && InTime(s, d.hdr, sc)
    ensures ok ==> Working(d, s) && |s.rows| == s.v.OutH() && AreRows(d.hdr, d.tr, s.v, sc, p0, s.rows)
  {
    hide Decoder.Valid, RowSink.Valid, ScanAt, HMax, VMax, CeilDiv, Sound, Frame.McusX, Frame.McusY, BandOf, DecodedTo, EmittedTo,
         NeededMcus, AreRows, PlanesShaped, InTime, LastBand, Header.Valid, Frame.Valid;
    WorkingIs(d, s);
    d.ShapedNow();
    var blk := new int[64];
    var my, mcu := 0, 0;
    StartRun(d, s, sc, p0);
    while my < d.hdr.frame.McusY() && s.oy < s.v.OutH()
      invariant Working(d, s) && |sc.preds| == 3 && mcu == my * d.hdr.frame.McusX()
      invariant DecodedTo(d, s.v, mcu, my, sc, p0) && EmittedTo(s, d.hdr, d.tr, my, sc, p0) && InTime(s, d.hdr, sc)
      invariant my <= LastBand(d.hdr.frame, s.v) + 1
    {
      NextBand(my, d.hdr.frame.McusX());
      BandIsNeeded(s, d.hdr, d.tr, my, sc, p0);
      ok := RunBand(d, s, my, mcu, blk, sc, p0);
      if !ok {
        BadStaysBad(d.hdr, sc, mcu + d.hdr.frame.McusX(), NeededMcus(d.hdr.frame, s.v));
        return;
      }
      my := my + 1;
      mcu := mcu + d.hdr.frame.McusX();
    }
    RunDone(d, s, my, mcu, sc, p0);
    ok := true;
  }

  lemma WorkingIs(d: Decoder, s: RowSink)
    requires Working(d, s)
    ensures d.hdr.Valid() && d.hdr.frame.Valid() && Sound(d.tr) && d.PlanesReady() && s.v.Valid(d.hdr.frame)
    ensures s.f == d.hdr.frame && Sound(s.tr)
  {
    hide Buffered, Pending, Holds, ImageUnits, UnitsBits, HMax, VMax, CeilDiv, Codable, Sound;
  }

  lemma StartRun(d: Decoder, s: RowSink, sc: Scan, p0: seq<seq<byte>>)
    requires Working(d, s) && s.rows == [] && d.Here() == sc && d.PlaneSeqs() == p0 && PlanesShaped(d.hdr.frame, p0)
    requires s.Timed([], s.e.Left())
    ensures |sc.preds| == 3
    ensures DecodedTo(d, s.v, 0, 0, sc, p0) && EmittedTo(s, d.hdr, d.tr, 0, sc, p0) && InTime(s, d.hdr, sc)
  {
    hide BitWriter.Valid, BitWriter.BitState, BitReader.Valid, Holds, ImageUnits, UnitsBits, HMax, VMax, CeilDiv, Codable, StoreBand,
         Sound, LeftAt, MarksOf;
    assert Reached(d, sc, 0);
    LeftIs(d, s, sc, 0);
    assert RowTimes(d.hdr, s.v, sc, 0) == [];
  }

  /** While rows are missing, the next band's MCUs are among those needed. */
  lemma BandIsNeeded(s: RowSink, hdr: Header, tr: Transforms, my: nat, sc: Scan, p0: seq<seq<byte>>)
    requires hdr.Valid() && s.v.Valid(hdr.frame) && |sc.preds| == 3 && s.f == hdr.frame && Sound(tr)
    requires PlanesShaped(hdr.frame, p0) && EmittedTo(s, hdr, tr, my, sc, p0) && s.oy < s.v.OutH()
    ensures my * hdr.frame.McusX() + hdr.frame.McusX() <= NeededMcus(hdr.frame, s.v)
    ensures my <= LastBand(hdr.frame, s.v)
  {
    hide HMax, VMax, CeilDiv, ScanAt, Frame.McusX, BandOf, AreRows, Sound;
    BandsMono(hdr.frame, s.v, s.oy, s.v.OutH() - 1);
    MulMono(my + 1, BandOf(hdr.frame, s.v, s.v.OutH() - 1) + 1, hdr.frame.McusX());
    NextBand(my, hdr.frame.McusX());
  }

  lemma RunDone(d: Decoder, s: RowSink, my: nat, mcu: nat, sc: Scan, p0: seq<seq<byte>>)
    requires Working(d, s) && |sc.preds| == 3 && PlanesShaped(d.hdr.frame, p0) && mcu == my * d.hdr.frame.McusX()
    requires DecodedTo(d, s.v, mcu, my, sc, p0) && EmittedTo(s, d.hdr, d.tr, my, sc, p0)
    requires my >= d.hdr.frame.McusY() || s.oy >= s.v.OutH()
    requires my <= LastBand(d.hdr.frame, s.v) + 1
    ensures |s.rows| == s.v.OutH() && AreRows(d.hdr, d.tr, s.v, sc, p0, s.rows)
    ensures Reached(d, sc, NeededMcus(d.hdr.frame, s.v))
  {
    hide HMax, VMax, CeilDiv, ScanAt, Frame.McusX, BandOf, IsRow, Buffered, Pending, Holds, ImageUnits, UnitsBits, Codable,
         PlanesAfter, Sound;
    var f := d.hdr.frame;
    if s.oy < s.v.OutH() {
      RowInBand(f, s.v, s.oy);
    }
    CeilDivBound(s.v.y1 - s.v.y0, s.v.div, 0);
    assert my == LastBand(f, s.v) + 1;
  }

  lemma MulMono(a: nat, b: nat, n: nat)
    requires a <= b
    ensures a * n <= b * n
  {
    MulDistrib(b, a, n);
    MulNonNeg(b - a, n);
  }

  lemma {:induction false} BandsMono(f: Frame, v: View, j: nat, k: nat)
    requires v.div > 0 && j <= k
    ensures BandOf(f, v, j) <= BandOf(f, v, k)
    decreases k - j
  {
    if j < k {
      BandsMono(f, v, j, k - 1);
      RowSink.BandMono(f, v, k - 1);
    }
  }
}
