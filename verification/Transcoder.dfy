/** jpeg_scale: a whole file in, a whole file out, in its own buffer or below the input in one. */
module Transcoding {
  import opened Bits
  import opened Huffman
  import opened ByteStuffing
  import opened BitReading
  import opened BitWriting
  import opened FrameGeometry
  import opened Planes
  import opened ScanSpec
  import opened StripSpec
  import opened StandardTables
  import opened FrameHeader
  import opened HeaderWriting
  import opened McuDecoding
  import opened RowSinks
  import opened JpegScaling
  import opened PlaneCover

  // --- the image a file holds -----------------------------------------------------------

  function Blank(f: Frame): (p: seq<seq<byte>>)
    ensures PlanesShaped(f, p)
  {
    seq(|f.comps|, i requires 0 <= i < |f.comps| => BlankPlane(f.PlaneRows(i) * f.Stride(i)))
  }

  function BlankPlane(n: nat): (p: seq<byte>)
    ensures |p| == n
  {
    seq(n, _ => 0)
  }

  /** An output row's band overlaps the crop. */
  lemma RowsBandNeeded(f: Frame, v: View, k: nat)
    requires f.Valid() && v.Valid(f) && k < v.OutH()
    ensures Needed(f, v, BandOf(f, v, k))
  {
    hide HMax, VMax, BandOf;
    RowInBand(f, v, k);
    BoxNonEmpty(v, f, 0, k) by { CeilDivBound(v.x1 - v.x0, v.div, 0); }
    hide CeilDiv;
    MulNonNeg(k, v.div);
  }

  /** The MCUs of an output row's band are among those needed. */
  lemma RowsBandDecodes(hdr: Header, v: View, sc: Scan, k: nat)
    requires hdr.Valid() && v.Valid(hdr.frame) && |sc.preds| == 3 && k < v.OutH()
    requires ScanAt(hdr, sc, NeededMcus(hdr.frame, v)).Run?
    ensures ScanAt(hdr, sc, BandOf(hdr.frame, v, k) * hdr.frame.McusX() + hdr.frame.McusX()).Run?
  {
    hide HMax, VMax, BandOf, ScanAt, CeilDiv, Frame.McusX;
    var f := hdr.frame;
    var m := BandOf(f, v, k);
    BandsMono(f, v, k, v.OutH() - 1);
    MulMono(m + 1, BandOf(f, v, v.OutH() - 1) + 1, f.McusX());
    NextBand(m, f.McusX());
    if ScanAt(hdr, sc, m * f.McusX() + f.McusX()).Bad? {
      BadStaysBad(hdr, sc, m * f.McusX() + f.McusX(), NeededMcus(f, v));
    }
  }

  /** What the planes held before the first band never reaches an output row. */
  lemma {:induction false} RowPlanesIndependent(hdr: Header, tr: Transforms, v: View, sc: Scan,
                                                p: seq<seq<byte>>, q: seq<seq<byte>>, k: nat)
    requires hdr.Valid() && Sound(tr) && v.Valid(hdr.frame) && |sc.preds| == 3 && k < v.OutH()
    requires PlanesShaped(hdr.frame, p) && PlanesShaped(hdr.frame, q)
    requires ScanAt(hdr, sc, NeededMcus(hdr.frame, v)).Run?
    ensures RowPlanes(hdr, tr, v, sc, p, k) == RowPlanes(hdr, tr, v, sc, q, k)
  {
    hide HMax, VMax, BandOf, ScanAt, CeilDiv, StoreBand, Needed, NeededMcus, Sound, PlanesShaped, Frame.McusX;
    var m := BandOf(hdr.frame, v, k);
    RowsBandNeeded(hdr.frame, v, k);
    RowsBandDecodes(hdr, v, sc, k);
    BandIndependent(hdr, tr, v.div == 8, sc, m, PlanesAfter(hdr, tr, v, sc, m, p), PlanesAfter(hdr, tr, v, sc, m, q));
  }

  function SampleRow(f: Frame, v: View, planes: seq<seq<byte>>, k: nat, c: nat): (r: seq<byte>)
    requires f.Valid() && v.Valid(f) && k < v.OutH() && |planes| == |f.comps|
    requires forall i :: 0 <= i < |planes| ==> Shaped(planes[i], f.Stride(i), f.PlaneRows(i))
    ensures |r| == v.OutW() && forall x :: 0 <= x < |r| ==> r[x] == Sample(f, v, planes, k, c, x)
  {
    seq(v.OutW(), x requires 0 <= x < v.OutW() => Sample(f, v, planes, k, c, x))
  }

  ghost function ImageRow(hdr: Header, tr: Transforms, v: View, sc: Scan, k: nat): (r: Row)
    requires hdr.Valid() && Sound(tr) && v.Valid(hdr.frame) && |sc.preds| == 3 && k < v.OutH()
    ensures forall c :: 0 <= c < 3 ==> |r[c]| == v.OutW()
  {
    var p := RowPlanes(hdr, tr, v, sc, Blank(hdr.frame), k);
    [SampleRow(hdr.frame, v, p, k, 0), SampleRow(hdr.frame, v, p, k, 1), SampleRow(hdr.frame, v, p, k, 2)]
  }

  /** The scaled and cropped image: OutH rows of three components. */
  ghost function ImageRows(hdr: Header, tr: Transforms, v: View, sc: Scan): (rows: seq<Row>)
    requires hdr.Valid() && Sound(tr) && v.Valid(hdr.frame) && |sc.preds| == 3
    ensures |rows| == v.OutH() && RowsOf(rows, v.OutW())
  {
    CeilDivBound(v.x1 - v.x0, v.div, 0);
    seq(v.OutH(), k requires 0 <= k < v.OutH() => ImageRow(hdr, tr, v, sc, k))
  }

  lemma RowIsImageRow(hdr: Header, tr: Transforms, v: View, sc: Scan, p0: seq<seq<byte>>, row: Row, k: nat)
    requires hdr.Valid() && Sound(tr) && v.Valid(hdr.frame) && |sc.preds| == 3 && k < v.OutH()
    requires PlanesShaped(hdr.frame, p0) && ScanAt(hdr, sc, NeededMcus(hdr.frame, v)).Run?
    requires IsRow(hdr.frame, v, RowPlanes(hdr, tr, v, sc, p0, k), k, row)
    ensures row == ImageRow(hdr, tr, v, sc, k)
  {
    hide HMax, VMax, BandOf, ScanAt, CeilDiv, NeededMcus, Sound, RowPlanes, Sample, SampleRow;
    RowPlanesIndependent(hdr, tr, v, sc, p0, Blank(hdr.frame), k);
    var want := ImageRow(hdr, tr, v, sc, k);
    forall c | 0 <= c < 3
      ensures row[c] == want[c]
    {
      assert forall x :: 0 <= x < v.OutW() ==> row[c][x] == want[c][x];
    }
  }

  /** The rows dec_run emits are the image's, whatever the planes held at first. */
  lemma RowsAreImage(hdr: Header, tr: Transforms, v: View, sc: Scan, p0: seq<seq<byte>>, rows: seq<Row>)
    requires hdr.Valid() && Sound(tr) && v.Valid(hdr.frame) && |sc.preds| == 3 && PlanesShaped(hdr.frame, p0)
    requires ScanAt(hdr, sc, NeededMcus(hdr.frame, v)).Run?
    requires AreRows(hdr, tr, v, sc, p0, rows) && |rows| == v.OutH()
    ensures rows == ImageRows(hdr, tr, v, sc)
  {
    hide HMax, VMax, BandOf, ScanAt, CeilDiv, NeededMcus, Sound, RowPlanes, IsRow, ImageRow;
    forall k | 0 <= k < |rows|
      ensures rows[k] == ImageRow(hdr, tr, v, sc, k)
    {
      RowIsImageRow(hdr, tr, v, sc, p0, rows[k], k);
    }
  }

  function Ones(n: nat): (s: seq<bool>)
    ensures |s| == n
  {
    seq(n, _ => true)
  }

  /** The entropy-coded bits of the output: the image's blocks, then ones to fill the last byte. */
  ghost function ScanBits(tr: Transforms, cs: Coders, rows: seq<Row>, w: nat): seq<bool>
    requires Sound(tr) && cs.Valid() && RowsOf(rows, w)
  {
    UnitsBits(cs, ImageUnits(tr, rows, w)) + Ones(7)
  }

  /** The output file. */
  ghost function FileOf(tr: Transforms, cs: Coders, q0: seq<byte>, q1: seq<byte>, rows: seq<Row>, w: nat): seq<byte>
    requires Sound(tr) && cs.Valid() && RowsOf(rows, w) && StoredTables(cs) && Quantisers(q0, q1)
    requires w < 0x1_0000 && |rows| < 0x1_0000
  {
    HeaderBytes(w, |rows|, q0, q1, cs) + Whole(ScanBits(tr, cs, rows, w)) + [0xFF, 0xD9]
  }

  /** What the decoder has left to read when each byte of the file is put. */
  ghost function FileMarks(hdr: Header, tr: Transforms, cs: Coders, v: View, sc: Scan, rows: seq<Row>, head: nat, n: nat): seq<nat>
    requires hdr.Valid() && v.Valid(hdr.frame) && |sc.preds| == 3 && Sound(tr) && cs.Valid() && RowsOf(rows, v.OutW())
  {
    Until(MarksOf(tr, cs, rows, v.OutW(), head, LeftAt(hdr, sc, 0), RowTimes(hdr, v, sc, |rows|)), n,
          LeftAt(hdr, sc, NeededMcus(hdr.frame, v)))
  }

  /** What a call asks for: the scale, the crop, the quantisers. */
  datatype Options = Options(div: int, cx: int, cy: int, cw: int, ch: int, q0: seq<byte>, q1: seq<byte>)

  datatype Outcome = BadHeader | BadGeometry(error: GeometryError) | BadData | TooSmall | Done(length: nat, w: nat, h: nat)

  /** The outcome that does not depend on the output buffer, with the output file, and for each of its
      bytes how much of the input is still to be read when it is put. */
  datatype Answer = Fails(outcome: Outcome) | Makes(file: seq<byte>, marks: seq<nat>, w: nat, h: nat)

  function ScanOf(rest: seq<byte>): Scan {
    Scan(BytesBits(Unstuff(rest)), Tail(rest), [0, 0, 0], 0)
  }

  /** Before the first read all of the data is left. */
  lemma AllLeft(hdr: Header, rest: seq<byte>)
    requires hdr.Valid()
    ensures LeftAt(hdr, ScanOf(rest), 0) == |rest|
  {
    hide Unstuff, Tail, Stuff, Pack, BytesBits, Header.Valid;
    var s := BytesBits(Unstuff(rest));
    PackBytesBits(Unstuff(rest));
    StuffUnstuff(rest);
    assert s[|s| - 8 * (|s| / 8)..] == s;
  }

  lemma FitsHeader(rows: seq<Row>, f: Frame, v: View)
    requires f.Valid() && v.Valid(f) && |rows| == v.OutH()
    ensures v.OutW() < 0x1_0000 && |rows| < 0x1_0000
  {
    hide HMax, VMax, CeilDiv;
    OutputSize(f, v);
  }

  /** What a scan makes under a view. */
  ghost function AnswerOf(hdr: Header, sc: Scan, v: View, o: Options, tr: Transforms, cs: Coders): Answer
    requires hdr.Valid() && |sc.preds| == 3 && v.Valid(hdr.frame)
    requires Sound(tr) && Writable(cs) && Quantisers(o.q0, o.q1)
  {
    hide HMax, VMax, CeilDiv, Frame.Valid, Quantisers, Sound, ScanAt, NeededMcus, RowsOf, StoredTables, Coders.Valid;
    if ScanAt(hdr, sc, NeededMcus(hdr.frame, v)).Bad? then Fails(BadData)
    else
      var rows := ImageRows(hdr, tr, v, sc);
      FitsHeader(rows, hdr.frame, v);
      var file := FileOf(tr, cs, o.q0, o.q1, rows, v.OutW());
      var head := |HeaderBytes(v.OutW(), |rows|, o.q0, o.q1, cs)|;
      Makes(file, FileMarks(hdr, tr, cs, v, sc, rows, head, |file|), v.OutW(), v.OutH())
  }

  /** The headers and the geometry are accepted. */
  ghost predicate Prepared(st: State, v: View, o: Options, tr: Transforms, cs: Coders) {
    st.Valid() && st.comps != [] && st.Header().Valid() && v.Valid(st.Header().frame) &&
    Sound(tr) && Writable(cs) && Quantisers(o.q0, o.q1)
  }

  /** What the rest of a file makes past its headers. */
  ghost function RestAnswer(rest: seq<byte>, st: State, v: View, o: Options, tr: Transforms, cs: Coders): Answer
    requires Prepared(st, v, o, tr, cs)
  {
    hide HMax, VMax, CeilDiv, Frame.Valid, Writable, Quantisers, Sound, State.Valid;
    AnswerOf(st.Header(), ScanOf(rest), v, o, tr, cs)
  }

  ghost function Expected(d: seq<byte>, o: Options, tr: Transforms, cs: Coders): Answer
    requires Sound(tr) && Standard(cs) && Quantisers(o.q0, o.q1)
  {
    hide HMax, VMax, CeilDiv, Frame.Valid, Standard, Writable, Quantisers, Sound, State.Valid, SinkGeometry, ParseHeaders;
    StandardStored(cs);
    match ParseHeaders(d)
    case Rejected => Fails(BadHeader)
    case Accepted(st, rest) =>
      HeaderValid(st);
      match SinkGeometry(st.Header().frame, o.div, o.cx, o.cy, o.cw, o.ch)
      case Refused(e) => Fails(BadGeometry(e))
      case Crop(v) => RestAnswer(rest, st, v, o, tr, cs)
  }

  /** Where the entropy-coded data starts, in a file at this place. */
  function ScanStart(d: seq<byte>, at: nat): (p: nat)
    ensures p <= at + |d|
  {
    match ParseHeaders(d)
    case Rejected => at
    case Accepted(_, rest) => if |rest| <= |d| then at + |d| - |rest| else at
  }

  lemma HeaderValid(st: State)
    requires st.Valid() && st.comps != []
    ensures st.Header().Valid()
  {
    hide FirstIndex, HMax, VMax;
  }

  lemma OutputSize(f: Frame, v: View)
    requires f.Valid() && v.Valid(f)
    ensures 1 <= v.OutW() <= MAX_DIM && 1 <= v.OutH() <= MAX_DIM
  {
    hide HMax, VMax;
    SizeArith(v.x1 - v.x0, v.div);
    SizeArith(v.y1 - v.y0, v.div);
  }

  lemma SizeArith(n: nat, d: nat)
    requires d == 1 || d == 2 || d == 4 || d == 8
    requires 1 <= n
    ensures 1 <= CeilDiv(n, d) <= n
  {
  }

  // --- jpeg_scale ---------------------------------------------------------------------------

  /** Four tables: huff_build for each that the file holds. */
  method BuildTables(ts: seq<Table>, present: seq<bool>) returns (hs: seq<Huff>)
    requires |ts| == |present| == 4
    requires forall i :: 0 <= i < 4 ==> ts[i].Valid() && |ts[i].vals| == 256 && Total(ts[i].counts) <= 256
    requires forall i :: 0 <= i < 4 && !present[i] ==> ts[i] == Absent()
    ensures |hs| == 4 && forall i :: 0 <= i < 4 ==> fresh(hs[i]) && hs[i].Ready() && hs[i].table == ts[i]
  {
    hide FirstIndex, Huff.Finds, Absent;
    hs := [];
    for k := 0 to 4
      invariant |hs| == k && forall i :: 0 <= i < k ==> fresh(hs[i]) && hs[i].Ready() && hs[i].table == ts[i]
    {
      var h := new Huff();
      if present[k] {
        h.bits := [0] + ts[k].counts;
        h.vals := ts[k].vals;
        assert h.bits[1..] == ts[k].counts;
        h.Build();
      }
      hs := hs + [h];
    }
  }

  method NewPlanes(f: Frame) returns (planes: seq<array<byte>>)
    requires f.Valid()
    ensures |planes| == |f.comps| && forall i :: 0 <= i < |planes| ==> fresh(planes[i])
    ensures forall i :: 0 <= i < |planes| ==> planes[i].Length == f.PlaneRows(i) * f.Stride(i)
    ensures forall i, j :: 0 <= i < j < |planes| ==> planes[i] != planes[j]
  {
    hide HMax, VMax, CeilDiv, Frame.Stride, Frame.PlaneRows;
    planes := [];
    for k := 0 to |f.comps|
      invariant |planes| == k && forall i :: 0 <= i < k ==> fresh(planes[i])
      invariant forall i :: 0 <= i < k ==> planes[i].Length == f.PlaneRows(i) * f.Stride(i)
      invariant forall i, j :: 0 <= i < j < k ==> planes[i] != planes[j]
    {
      PlaneSize(f.PlaneRows(k), f.Stride(k));
      var p := new byte[f.PlaneRows(k) * f.Stride(k)];
      planes := planes + [p];
    }
  }

  lemma PlaneSize(rows: nat, stride: nat)
    ensures rows * stride >= 0
  {
  }

  /** dec_open: a decoder at the entropy-coded data. */
  method OpenDecoder(data: array<byte>, p: nat, end: nat, st: State, tr: Transforms) returns (d: Decoder)
    requires p <= end <= data.Length && st.Valid() && st.comps != [] && Sound(tr)
    ensures d.Valid() && fresh(d) && fresh(d.rd) && forall i :: 0 <= i < |d.planes| ==> fresh(d.planes[i])
    ensures d.hdr == st.Header() && d.tr == tr && d.rd.data == data && d.rd.p == p && d.rd.end == end
    ensures d.Here() == ScanOf(data[p..end])
  {
    hide Buffered, BytesBits, Unstuff, Tail, HMax, VMax, CeilDiv, FirstIndex, Sound, Huff.Finds;
    HeaderValid(st);
    var rd := new BitReader(data, p, end);
    var dc := BuildTables(st.dc, st.dcPresent);
    var ac := BuildTables(st.ac, st.acPresent);
    var planes := NewPlanes(st.Header().frame);
    d := new Decoder(rd, st.Header(), dc, ac, planes, tr);
  }

  /** The encoder, with its header written. */
  method OpenEncoder(rd: BitReader, out: array<byte>, base: nat, cap: nat, guarded: bool, w: nat, h: nat,
                     q0: seq<byte>, q1: seq<byte>, cs: Coders) returns (e: BitWriter)
    requires rd.Valid() && Writable(cs) && Quantisers(q0, q1) && base + cap <= out.Length
    requires guarded ==> out == rd.data
    requires out != rd.data || guarded || base + cap <= rd.p || rd.end <= base
    requires w < 0x1_0000 && h < 0x1_0000
    modifies out
    ensures fresh(e) && e.Valid() && e.BitState() && e.sent == [] && e.src == rd
    ensures e.head == HeaderBytes(w, h, q0, q1, cs)
    ensures e.out == out && e.base == base && e.cap == cap && (guarded <==> e.guard != null) && e.since == rd.p
    ensures e.Grew([]) && e.written == e.head
  {
    hide Buffered, Pending, FirstIndex, HeaderBytes, Overflows;
    e := new BitWriter(out, base, cap, guarded, rd);
    EncHeader(e, w, h, q0, q1, cs);
    assert [] + HeaderBytes(w, h, q0, q1, cs) == HeaderBytes(w, h, q0, q1, cs);
    e.StartSegment();
  }

  /** Eight rows of three components. */
  method NewStrip(stride: nat) returns (strip: seq<array<byte>>)
    ensures |strip| == 3 && forall c :: 0 <= c < 3 ==> fresh(strip[c]) && strip[c].Length == 8 * stride
    ensures strip[0] != strip[1] && strip[0] != strip[2] && strip[1] != strip[2]
  {
    var y, cb, cr := new byte[8 * stride], new byte[8 * stride], new byte[8 * stride];
    strip := [y, cb, cr];
  }

  /** A sink for the view's rows in front of the encoder. */
  method OpenSink(d: Decoder, e: BitWriter, v: View, cs: Coders) returns (s: RowSink)
    requires d.Valid() && v.Valid(d.hdr.frame) && cs.Valid() && e.Valid() && e.BitState() && e.sent == [] && e.src == d.rd
    requires e.Grew([]) && e.written == e.head
    requires forall i :: 0 <= i < |d.planes| ==> d.planes[i] != e.out
    ensures fresh(s) && Working(d, s) && s.rows == [] && s.e == e
    ensures forall c :: 0 <= c < |s.strip| ==> fresh(s.strip[c])
    ensures s.v == v && s.cs == cs && s.Timed([], e.Left())
  {
    hide Buffered, Pending, HMax, VMax, FirstIndex, Sound, CeilDiv, Holds, ImageUnits, UnitsBits, RowSink.Valid, Huff.Ready,
         BitReader.Valid, BitWriter.Valid, Coders.Valid, Frame.Valid, Table.Valid, BlocksAcross;
    var stride := 8 * BlocksAcross(v.OutW());
    var strip := NewStrip(stride);
    s := new RowSink(d.hdr.frame, v, d.tr, cs, e, strip, stride);
    StartSink(s);
    FirstMarks(s, e.Left());
  }

  lemma FirstMarks(s: RowSink, left: nat)
    requires s.Shape() && s.e.Valid() && s.rows == [] && s.e.written == s.e.head && s.e.Grew([]) && s.e.Left() == left
    ensures s.Timed([], left)
  {
    hide Buffered, HMax, VMax, Sound, CeilDiv, Overflows;
    OutputSize(s.f, s.v);
    LaterIs([], s.e.marks, left);
  }

  lemma StartSink(s: RowSink)
    requires s.Shape() && s.e.Valid() && s.e.BitState() && s.e.sent == []
    requires s.oy == 0 && s.stripRows == 0 && s.pred == [0, 0, 0] && s.rows == [] && s.units == []
    ensures s.Valid()
  {
    hide Buffered, Pending, HMax, VMax, Sound, CeilDiv, Holds;
    OutputSize(s.f, s.v);
    s.NothingHeld();
  }

  lemma SevenOnes()
    ensures BitsOf(0x7F, 7) == Ones(7)
  {
    assert BitsOf(0x7F, 7) == [true, true, true, true, true, true, true] by {
      assert BitsOf(1, 1) == [true] && BitsOf(3, 2) == [true, true] && BitsOf(7, 3) == [true, true, true];
      assert BitsOf(15, 4) == [true, true, true, true] && BitsOf(31, 5) == [true, true, true, true, true];
    }
  }

  /** The last strip, the padding and the end marker. */
  method Finish(s: RowSink)
    requires s.Valid() && s.stripRows < 8
    modifies s, s.e`pos, s.e`overflow, s.e`written, s.e`marks, s.e`bits, s.e`nbits, s.e`sent, s.e.out
    ensures s.e.Valid() && s.rows == old(s.rows)
    ensures RowsOf(s.rows, s.v.OutW()) && Sound(s.tr) && s.cs.Valid()
    ensures s.e.written == s.e.head + Whole(ScanBits(s.tr, s.cs, s.rows, s.v.OutW())) + [0xFF, 0xD9]
    ensures s.e.Grew(old(s.e.marks))
  {
    hide Buffered, HMax, VMax, Sound, CeilDiv, Holds, ImageUnits, UnitsBits, Codable, BitsOf, Whole, Ones,
         BitWriter.Valid, Coders.Valid, Frame.Valid;
    assert s.rows[..|s.rows|] == s.rows;
    if s.stripRows > 0 {
      s.FlushStrip();
    }
    assert s.units == ImageUnits(s.tr, s.rows, s.v.OutW());
    SevenOnes();
    s.e.PutBits(0x7F, 7);
    s.e.PutU16(0xFFD9);
  }

  /** The file s has made is in the output buffer, unless it did not fit. */
  ghost predicate FileWritten(e: BitWriter, file: seq<byte>, marks: seq<nat>)
    reads e, e.out, e.src
  {
    e.written == file && e.marks == marks && e.Marked() && e.src.p <= e.src.end && e.pos <= e.cap && e.base + e.cap <= e.out.Length &&
    (!e.overflow ==> e.pos == |file| && e.out[e.base..e.base + |file|] == file)
  }

  /** jpeg_scale past the headers: decode, scale, encode. */
  method Transcode(d: Decoder, s: RowSink, v: View, ghost sc: Scan, ghost q0: seq<byte>, ghost q1: seq<byte>)
    returns (ok: bool)
    requires Working(d, s) && s.rows == [] && d.Here() == sc && s.v == v && s.Timed([], s.e.Left())
    requires Quantisers(q0, q1) && v.OutW() < 0x1_0000 && v.OutH() < 0x1_0000 && StoredTables(s.cs)
    requires s.e.head == HeaderBytes(v.OutW(), v.OutH(), q0, q1, s.cs)
    modifies d`pred, d.rd, d.planes, s, s.e`pos, s.e`overflow, s.e`written, s.e`marks, s.e`bits, s.e`nbits, s.e`sent, s.e.out, s.strip
    ensures ok == ScanAt(d.hdr, sc, NeededMcus(d.hdr.frame, v)).Run?
    ensures |sc.preds| == 3 && Sound(d.tr) && d.hdr.Valid() && s.cs.Valid()
    ensures ok ==>
      var rows := ImageRows(d.hdr, d.tr, v, sc);
      var file := FileOf(d.tr, s.cs, q0, q1, rows, v.OutW());
      FileWritten(s.e, file, FileMarks(d.hdr, d.tr, s.cs, v, sc, rows, |s.e.head|, |file|))
  {
    hide Buffered, Pending, HMax, VMax, Sound, CeilDiv, Holds, ImageUnits, UnitsBits, Codable, ScanAt, NeededMcus, Whole,
         HeaderBytes, ImageRow, IsRow, AreRows, StoredTables, ScanBits, PlanesShaped, RowPlanes, MarksOf, Later, Overflows,
         BitReader.Valid, BitWriter.BitState, Coders.Valid, Frame.Valid, RowTimes, LeftAt;
    ghost var p0 := d.PlaneSeqs();
    ok := DecRun(d, s, sc, p0);
    if ok {
      RowsAreImage(d.hdr, d.tr, v, sc, p0, s.rows);
      LeftIs(d, s, sc, NeededMcus(d.hdr.frame, s.v));
      ghost var before := s.e.marks;
      Finish(s);
      LaterIs(before, s.e.marks, s.e.Left());
    }
  }

  /** Decoder, encoder and sink, ready for the first band. */
  method OpenBoth(inBuf: array<byte>, p: nat, end: nat, st: State, v: View, outBuf: array<byte>, outStart: nat,
                  outCap: nat, guarded: bool, o: Options, cs: Coders, tr: Transforms) returns (d: Decoder, s: RowSink)
    requires p <= end <= inBuf.Length && outStart + outCap <= outBuf.Length
    requires st.Valid() && st.comps != [] && v.Valid(st.Header().frame)
    requires Sound(tr) && Writable(cs) && Quantisers(o.q0, o.q1)
    requires guarded ==> outBuf == inBuf
    requires outBuf != inBuf || guarded || outStart + outCap <= p || end <= outStart
    requires v.OutW() < 0x1_0000 && v.OutH() < 0x1_0000
    modifies outBuf
    ensures fresh(d) && fresh(d.rd) && (forall i :: 0 <= i < |d.planes| ==> fresh(d.planes[i]))
    ensures fresh(s) && fresh(s.e) && (forall c :: 0 <= c < |s.strip| ==> fresh(s.strip[c]))
    ensures Working(d, s) && s.rows == [] && s.v == v && s.cs == cs && s.Timed([], s.e.Left())
    ensures d.hdr == st.Header() && d.tr == tr && d.Here() == ScanOf(old(inBuf[p..end]))
    ensures s.e.head == HeaderBytes(v.OutW(), v.OutH(), o.q0, o.q1, cs)
    ensures s.e.out == outBuf && s.e.base == outStart && s.e.cap == outCap && (guarded <==> s.e.guard != null)
    ensures s.e.since == p && d.rd.end == end
  {
    hide BitWriter.Marked, Buffered, Pending, HMax, VMax, Sound, CeilDiv, Holds, HeaderBytes, PlanesShaped, State.Valid, Frame.Valid,
         FirstIndex, BytesBits, Unstuff, Tail, RowSink.Valid, Huff.Ready, Table.Valid, StoredTables, Dht;
    HeaderValid(st);
    d := OpenDecoder(inBuf, p, end, st, tr);
    var e := OpenEncoder(d.rd, outBuf, outStart, outCap, guarded, v.OutW(), v.OutH(), o.q0, o.q1, cs);
    s := OpenSink(d, e, v, cs);
  }

  /** jpeg_scale once the headers and the geometry are accepted. */
  method ScaleScan(inBuf: array<byte>, p: nat, end: nat, st: State, v: View, outBuf: array<byte>, outStart: nat,
                   outCap: nat, guarded: bool, o: Options, cs: Coders, tr: Transforms)
    returns (r: Outcome)
    requires p <= end <= inBuf.Length && outStart + outCap <= outBuf.Length
    requires Prepared(st, v, o, tr, cs)
    requires guarded ==> outBuf == inBuf
    requires outBuf != inBuf || guarded || outStart + outCap <= p || end <= outStart
    modifies outBuf
    ensures match RestAnswer(old(inBuf[p..end]), st, v, o, tr, cs)
            case Fails(e) => r == e
            case Makes(file, marks, w, h) => Delivered(r, file, w, h, outBuf, outStart, outCap, guarded, marks, p, end)
  {
    hide Buffered, Pending, HMax, VMax, Sound, CeilDiv, Holds, ImageUnits, UnitsBits, Codable, ScanAt, NeededMcus, Whole,
         HeaderBytes, ImageRow, IsRow, AreRows, ScanBits, PlanesShaped, RowPlanes, State.Valid, FirstIndex, BytesBits,
         Unstuff, Tail, FileOf, Frame.Valid, Table.Valid, StoredTables, Dht, RowSink.Coded, RowSink.Gathered, RowSink.InStep, Huff.Ready, BitReader.Valid, BitWriter.Valid,
         FileMarks, Overflows, Decoder.Valid, RowSink.Valid, RowSink.Timed;
    ghost var sc := ScanOf(inBuf[p..end]);
    ghost var rows := ImageRows(st.Header(), tr, v, sc);
    FitsHeader(rows, st.Header().frame, v);
    var d, s := OpenBoth(inBuf, p, end, st, v, outBuf, outStart, outCap, guarded, o, cs, tr);
    var ok := Transcode(d, s, v, sc, o.q0, o.q1);
    r := if !ok then BadData else if s.e.overflow then TooSmall else Done(s.e.pos, v.OutW(), v.OutH());
  }

  /** The call succeeded with exactly this file in the output region, or reports that it is too
      small: exactly when some byte is put too late, given how much of the input, which ends at `to`,
      is left then. That is never more than what follows the headers, from `from` on. */
  ghost predicate Delivered(r: Outcome, file: seq<byte>, w: nat, h: nat, outBuf: array<byte>, outStart: nat, outCap: nat,
                            guarded: bool, marks: seq<nat>, from: nat, to: nat)
    reads outBuf
  {
    outStart + outCap <= outBuf.Length && |marks| == |file| && (forall k :: 0 <= k < |marks| ==> from + marks[k] <= to) &&
    (r == TooSmall <==> Overflows(marks, outStart, outCap, guarded, to)) &&
    (r != TooSmall ==>
      r == Done(|file|, w, h) && |file| <= outCap && outBuf[outStart..outStart + |file|] == file)
  }

  /** In a region of its own a file is too long exactly if it exceeds the capacity. In place, one
      that ends below the entropy-coded data is delivered, and one that would end past the input is not. */
  lemma WhenTooSmall(r: Outcome, file: seq<byte>, w: nat, h: nat, outBuf: array<byte>, outStart: nat, outCap: nat,
                     guarded: bool, marks: seq<nat>, from: nat, to: nat)
    requires Delivered(r, file, w, h, outBuf, outStart, outCap, guarded, marks, from, to)
    ensures |file| > outCap ==> r == TooSmall
    ensures |file| <= outCap && (!guarded || outStart + |file| <= from) ==> r == Done(|file|, w, h)
    ensures guarded && file != [] && outStart + |file| > to ==> r == TooSmall
  {
    if |file| > outCap { assert TooLate(marks, outStart, outCap, guarded, to, outCap); }
    if guarded && file != [] && outStart + |file| > to {
      assert TooLate(marks, outStart, outCap, guarded, to, |file| - 1);
    }
  }

  /** jpeg_scale. The output may go below the input in the same buffer: the result is then the
      same file, or TooSmall when a byte's place has not been read yet, which the input decides. */
  method JpegScale(inBuf: array<byte>, inStart: nat, inLen: nat, outBuf: array<byte>, outStart: nat, outCap: nat,
                   o: Options, cs: Coders, tr: Transforms) returns (r: Outcome)
    requires inStart + inLen <= inBuf.Length && outStart + outCap <= outBuf.Length
    requires outBuf == inBuf ==> outStart < inStart || outStart >= inStart + inLen
    requires Sound(tr) && Standard(cs) && Quantisers(o.q0, o.q1)
    modifies outBuf
    ensures match Expected(old(inBuf[inStart..inStart + inLen]), o, tr, cs)
            case Fails(e) => r == e
            case Makes(file, marks, w, h) =>
              Delivered(r, file, w, h, outBuf, outStart, outCap,
                        outBuf == inBuf && outStart < inStart && outStart + outCap > inStart,
                        marks, ScanStart(old(inBuf[inStart..inStart + inLen]), inStart), inStart + inLen)
  {
    hide ParseHeaders, HMax, VMax, State.Valid, SinkGeometry, RestAnswer, Sound, Standard, Writable, Delivered, ScanOf;
    StandardStored(cs);
    var guarded := outBuf == inBuf && outStart < inStart && outStart + outCap > inStart;
    var end := inStart + inLen;
    var d := inBuf[inStart..end];
    match ParseHeaders(d) {
      case Rejected => return BadHeader;
      case Accepted(st, rest) =>
        HeadersRest(d);
        HeaderValid(st);
        assert inBuf[end - |rest|..end] == rest;
        match SinkGeometry(st.Header().frame, o.div, o.cx, o.cy, o.cw, o.ch) {
          case Refused(e) => return BadGeometry(e);
          case Crop(v) =>
            r := ScaleScan(inBuf, end - |rest|, end, st, v, outBuf, outStart, outCap, guarded, o, cs, tr);
        }
    }
  }
}
