/** The file jpeg_scale writes is the text of a picture too: its blocks are those of the scaled samples, in
    their places. */
module OutputPictures {
  import opened Bits
  import opened ByteStuffing
  import opened Huffman
  import opened BlockCodec
  import opened FrameGeometry
  import opened ScanSpec
  import opened StripSpec
  import opened StandardTables
  import opened FrameHeader
  import opened HeaderWriting
  import opened JpegScaling
  import opened Transcoding
  import opened OutputDecoding
  import opened Pictures
  import opened PictureScaling

  // --- the picture of an image ------------------------------------------------------------------------

  /** An image's sample (x, y), the last row and column repeated past its edges. */
  function Edged(rows: seq<Row>, w: nat, c: nat, x: nat, y: nat): byte {
    var r, col := if y < |rows| then y else |rows| - 1, if x < w then x else w - 1;
    if c < 3 && 0 <= r < |rows| && 0 <= col < |rows[r][c]| then rows[r][c][col] else 0
  }

  /** The samples of block (bc, br). */
  function Square(rows: seq<Row>, w: nat, c: nat, bc: nat, br: nat): (s: seq<byte>)
    ensures |s| == 64
  {
    seq(64, i requires 0 <= i < 64 => Edged(rows, w, c, 8 * bc + i % 8, 8 * br + i / 8))
  }

  /** The image's coefficients; the components but the first are chroma. */
  ghost function ImagePicture(tr: Transforms, rows: seq<Row>, w: nat): Picture {
    (c: nat, bc: nat, br: nat) => tr.fdct(Square(rows, w, c, bc, br), c != 0)
  }

  /** Three unsampled components. */
  function OutputFrame(w: nat, h: nat): Frame {
    Frame([Component(1, 1, 1, 0, 0, 0), Component(2, 1, 1, 1, 1, 1), Component(3, 1, 1, 1, 1, 1)], w, h)
  }

  lemma FrameIs(w: nat, h: nat)
    requires 1 <= w <= MAX_DIM && 1 <= h <= MAX_DIM
    ensures var f := OutputFrame(w, h);
            f.Valid() && f.McusX() == BlocksAcross(w) && f.McusY() == (h + 7) / 8 && Units(f.comps) == [0, 1, 2]
  {
    var f := OutputFrame(w, h);
    Unsampled(f.comps);
    OneEach(f.comps, 3);
    assert f.comps[..3] == f.comps;
  }

  // --- its blocks -------------------------------------------------------------------------------------

  /** An MCU of the output frame has a block of each component. */
  lemma McuIsThree(pic: Picture, w: nat, h: nat, mx: nat, my: nat)
    ensures McuOf(OutputFrame(w, h), pic, mx, my, 3) == [Unit(0, pic(0, mx, my)), Unit(1, pic(1, mx, my)), Unit(2, pic(2, mx, my))]
  {
    hide Down;
    var f := OutputFrame(w, h);
    OneDown(pic, 0, mx, my);
    OneDown(pic, 1, mx, my);
    OneDown(pic, 2, mx, my);
    assert McuOf(f, pic, mx, my, 0) == [];
    assert McuOf(f, pic, mx, my, 1) == [Unit(0, pic(0, mx, my))];
    assert McuOf(f, pic, mx, my, 2) == [Unit(0, pic(0, mx, my)), Unit(1, pic(1, mx, my))];
  }

  lemma OneDown(pic: Picture, c: nat, mx: nat, my: nat)
    ensures Down(pic, c, mx * 1, 1, my * 1, 1) == [Unit(c, pic(c, mx, my))]
  {
    assert Down(pic, c, mx, 1, my, 0) == [];
    assert Across(pic, c, mx, 1, my) == [Unit(c, pic(c, mx, my))];
  }

  /** Block j of the picture in the order of the scan. */
  function BlockNo(pic: Picture, across: nat, j: nat): Unit
    requires across > 0
  {
    Unit(j % 3, pic(j % 3, j / 3 % across, j / 3 / across))
  }

  lemma {:induction false} IntervalBlocks(pic: Picture, w: nat, h: nat, m: nat, e: nat, j: nat)
    requires 1 <= w <= MAX_DIM && 1 <= h <= MAX_DIM && m <= e
    ensures |Interval(OutputFrame(w, h), pic, m, e)| == 3 * (e - m)
    ensures j < 3 * (e - m) ==> Interval(OutputFrame(w, h), pic, m, e)[j] == BlockNo(pic, BlocksAcross(w), 3 * m + j)
    decreases e - m
  {
    hide McuOf, Frame.McusX, Frame.McusY, Frame.Valid, Units, HMax, VMax;
    if m < e {
      if j < 3 { ThirdsOf(j, m); }
      FrameIs(w, h);
      var across := BlocksAcross(w);
      McuIsThree(pic, w, h, m % across, m / across);
      IntervalBlocks(pic, w, h, m + 1, e, if j >= 3 then j - 3 else 0);
      assert 3 * (m + 1) + (j - 3) == 3 * m + j;
    }
  }

  /** A strip's block of the image from row 8 * br on. */
  lemma StripIsSquare(rows: seq<Row>, w: nat, g: nat, c: nat, bc: nat, br: nat)
    requires RowsOf(rows, w) && g == 8 * br < |rows| && c < 3 && |rows| <= g + 8
    ensures StripBlock(rows[g..], w, c, bc) == Square(rows, w, c, bc, br)
  {
    forall i | 0 <= i < 64
      ensures StripBlock(rows[g..], w, c, bc)[i] == Square(rows, w, c, bc, br)[i]
    {
      var y := Min(i / 8, |rows| - g - 1);
      assert rows[g..][y] == rows[g + y];
    }
  }

  /** The blocks of complete strips do not depend on later rows. */
  lemma SquareOfPrefix(rows: seq<Row>, w: nat, g: nat, c: nat, bc: nat, br: nat)
    requires RowsOf(rows, w) && g <= |rows| && 8 * br + 8 <= g && c < 3
    ensures Square(rows[..g], w, c, bc, br) == Square(rows, w, c, bc, br)
  {
  }

  lemma {:induction false} StripUnitAt(tr: Transforms, rows: seq<Row>, w: nat, n: nat, k: nat)
    requires Sound(tr) && RowsOf(rows, w) && rows != [] && k < n
    ensures StripUnits(tr, rows, w, n)[k] == Unit(k % 3, tr.fdct(StripBlock(rows, w, k % 3, k / 3), k % 3 != 0))
  {
    if k < n - 1 {
      StripUnitAt(tr, rows, w, n - 1, k);
    }
  }

  lemma ThirdsOf(k: nat, q: nat)
    ensures (3 * q + k) % 3 == k % 3 && (3 * q + k) / 3 == q + k / 3
  {
  }

  lemma LastStripIs(n: nat)
    requires n > 0
    ensures LastStrip(n) == 8 * (LastStrip(n) / 8) && LastStrip(n) < n <= LastStrip(n) + 8
    ensures (LastStrip(n) + 7) / 8 == LastStrip(n) / 8
  {
  }

  /** Block k of the last strip, after those of br complete ones. */
  lemma LastStripUnit(tr: Transforms, rows: seq<Row>, w: nat, br: nat, k: nat)
    requires Sound(tr) && RowsOf(rows, w) && 8 * br < |rows| <= 8 * br + 8 && k < 3 * BlocksAcross(w)
    ensures StripUnits(tr, rows[8 * br..], w, 3 * BlocksAcross(w))[k]
         == BlockNo(ImagePicture(tr, rows, w), BlocksAcross(w), 3 * (BlocksAcross(w) * br) + k)
  {
    hide StripUnits, Square, StripBlock, Sound;
    var n := BlocksAcross(w);
    ThirdsOf(k, n * br);
    assert br * n == n * br;
    DivModUnique(n * br + k / 3, n, br, k / 3);
    StripUnitAt(tr, rows[8 * br..], w, 3 * n, k);
    StripIsSquare(rows, w, 8 * br, k % 3, k / 3, br);
  }

  lemma ThirdBelow(j: nat, n: int)
    requires j < 3 * n
    ensures j / 3 < n
  {
  }

  /** Block j of the strips before is the whole image's. */
  lemma EarlierUnit(tr: Transforms, rows: seq<Row>, w: nat, br: nat, j: nat)
    requires Sound(tr) && RowsOf(rows, w) && 8 * br <= |rows| && BlocksAcross(w) > 0 && j < 3 * (BlocksAcross(w) * br)
    ensures BlockNo(ImagePicture(tr, rows[..8 * br], w), BlocksAcross(w), j) == BlockNo(ImagePicture(tr, rows, w), BlocksAcross(w), j)
  {
    hide Square, Sound, BlocksAcross, RowsOf;
    var n, m := BlocksAcross(w), j / 3;
    ThirdBelow(j, n * br);
    QuotientBelow(m, n, br);
    SquareOfPrefix(rows, w, 8 * br, j % 3, m % n, m / n);
  }

  /** Block j of an image is its picture's. */
  lemma {:induction false} ImageUnitAt(tr: Transforms, rows: seq<Row>, w: nat, j: nat)
    requires Sound(tr) && RowsOf(rows, w) && j < |ImageUnits(tr, rows, w)|
    ensures BlocksAcross(w) > 0 && ImageUnits(tr, rows, w)[j] == BlockNo(ImagePicture(tr, rows, w), BlocksAcross(w), j)
  {
    hide StripUnits, Square, StripBlock, Sound, BlockNo, ImagePicture, LastStrip;
    LastStripIs(|rows|);
    var br := LastStrip(|rows|) / 8;
    var before := |ImageUnits(tr, rows[..8 * br], w)|;
    ImageUnitsCount(tr, rows[..8 * br], w);
    if j < before {
      ImageUnitAt(tr, rows[..8 * br], w, j);
      EarlierUnit(tr, rows, w, br, j);
    } else {
      LastStripUnit(tr, rows, w, br, j - before);
    }
  }

  // --- its text ---------------------------------------------------------------------------------------

  /** The tables of the output's components. */
  function Books(cs: Coders): seq<Coder> {
    [cs.luma, cs.chroma, cs.chroma]
  }

  lemma UnitCodable(cs: Coders, u: Unit, preds: seq<int>)
    requires cs.Valid() && cs.Good() && u.c < 3 && InRange(u.zz) && |preds| == 3 && -1024 <= preds[u.c] <= 1023
    ensures CanCode(Books(cs), u, preds)
    ensures UnitBits(Books(cs), u, preds) == EncodeBlock(cs.Of(u.c).dc, cs.Of(u.c).ac, u.zz, preds[u.c])
  {
    hide DcPair, AcPair, Paired, BlockHas, InRange, EncodeBlock;
    PairsHave(cs.Of(u.c).dcT, cs.Of(u.c).dc, cs.Of(u.c).acT, cs.Of(u.c).ac, u.zz, preds[u.c]);
  }

  /** The encoder's bits are those of its tables, from predictors of nought. */
  ghost predicate BitsAgree(cs: Coders, units: seq<Unit>)
    requires cs.Valid() && Codable(units)
  {
    After([0, 0, 0], units) == Preds(units) &&
    Coded(Books(cs), [0, 0, 0], units) && CodedBits(Books(cs), [0, 0, 0], units) == UnitsBits(cs, units)
  }

  lemma BitsAgreeMore(cs: Coders, before: seq<Unit>, u: Unit, units: seq<Unit>)
    requires cs.Valid() && cs.Good() && Codable(units) && units == before + [u] && Codable(before) && BitsAgree(cs, before)
    ensures BitsAgree(cs, units)
  {
    assert units != [] && units[..|units| - 1] == before;
    LastUnit(cs, units);
    CompsPrefix(units);
    PredsAt(before, u.c);
    hide Coders.Good, Coders.Valid, UnitsBits, Coded, CodedBits, After, CanCode, UnitBits, EncodeBlock, InRange, Pred, Preds, Codable, Books;
    UnitCodable(cs, u, Preds(before));
    OneMore(Books(cs), [0, 0, 0], before, u, units);
    JustOne(Preds(before), u);
  }

  lemma NoneAgree(cs: Coders)
    requires cs.Valid()
    ensures Codable([]) && BitsAgree(cs, [])
  {
    hide Coders.Valid, UnitsBits, Coded, CodedBits, After;
    NoneCoded(Books(cs), [0, 0, 0]);
    NoBits(cs);
    NoPreds();
  }

  lemma {:induction false} SameBits(cs: Coders, units: seq<Unit>)
    requires cs.Valid() && cs.Good() && Codable(units)
    ensures BitsAgree(cs, units)
    decreases |units|
  {
    hide Coders.Good, Coders.Valid, BitsAgree, InRange;
    if units == [] {
      NoneAgree(cs);
    } else {
      SameBits(cs, units[..|units| - 1]);
      BitsAgreeMore(cs, units[..|units| - 1], units[|units| - 1], units);
    }
  }

  lemma JustOne(preds: seq<int>, u: Unit)
    requires |preds| == 3 && u.c < 3
    ensures After(preds, [u]) == preds[u.c := u.zz[0]]
  {
    assert [u][..0] == [];
  }

  /** The picture of an image, with the encoder's tables and no restarts. */
  ghost function OutputCoding(tr: Transforms, cs: Coders, rows: seq<Row>, w: nat): Coding {
    Coding(OutputFrame(w, |rows|), 0, Books(cs), ImagePicture(tr, rows, w))
  }

  lemma OutputBlocks(tr: Transforms, rows: seq<Row>, w: nat)
    requires Sound(tr) && RowsOf(rows, w) && 1 <= w <= MAX_DIM && 1 <= |rows| <= MAX_DIM
    ensures var f := OutputFrame(w, |rows|);
            Interval(f, ImagePicture(tr, rows, w), 0, McuCount(f)) == ImageUnits(tr, rows, w)
  {
    hide ImageUnits, ImagePicture, Interval, Frame.McusX, Frame.McusY, BlockNo, Sound;
    var f, pic, units := OutputFrame(w, |rows|), ImagePicture(tr, rows, w), ImageUnits(tr, rows, w);
    FrameIs(w, |rows|);
    ImageUnitsCount(tr, rows, w);
    MulGrows(BlocksAcross(w), (|rows| + 7) / 8);
    IntervalBlocks(pic, w, |rows|, 0, McuCount(f), 0);
    forall j | 0 <= j < |units|
      ensures Interval(f, pic, 0, McuCount(f))[j] == units[j]
    {
      IntervalBlocks(pic, w, |rows|, 0, McuCount(f), j);
      ImageUnitAt(tr, rows, w, j);
    }
  }

  /** The file is the encoder's header, the scan of the picture, and the end marker; the decoder that reads the
      header fits the picture. */
  lemma FileIsText(tr: Transforms, cs: Coders, q0: seq<byte>, q1: seq<byte>, rows: seq<Row>, w: nat)
    requires Sound(tr) && StoredTables(cs) && cs.Valid() && cs.Good() && Quantisers(q0, q1) && RowsOf(rows, w)
    requires 1 <= w <= MAX_DIM && 1 <= |rows| <= MAX_DIM
    ensures var k := OutputCoding(tr, cs, rows, w);
            k.Valid() && Fits(OutputState(w, |rows|, q0, q1, cs).Header(), k) &&
            FileOf(tr, cs, q0, q1, rows, w) == HeaderBytes(w, |rows|, q0, q1, cs) + ScanText(k, [0xFF, 0xD9], 0)
  {
    hide Coders.Good, Coders.Valid, StoredTables, InRange, UnitsBits, ImageUnits, ImagePicture, Interval, Coded, CodedBits, HeaderBytes,
         Whole, Ones, Frame.McusX, Frame.McusY, Frame.Valid, Sound;
    var k, units, tail := OutputCoding(tr, cs, rows, w), ImageUnits(tr, rows, w), [0xFF, 0xD9];
    FrameIs(w, |rows|);
    OutputBlocks(tr, rows, w);
    assert Codable(units);
    SameBits(cs, units);
    OutputFits(w, |rows|, q0, q1, cs);
    assert k.From(0) == units;
    assert Starts(0, 0);
    ConcatAssoc(HeaderBytes(w, |rows|, q0, q1, cs), Whole(ScanBits(tr, cs, rows, w)), tail);
  }

  lemma OutputFits(w: nat, h: nat, q0: seq<byte>, q1: seq<byte>, cs: Coders)
    requires 1 <= w <= MAX_DIM && 1 <= h <= MAX_DIM && Quantisers(q0, q1) && StoredTables(cs)
    ensures var hdr := OutputState(w, h, q0, q1, cs).Header();
            hdr.Valid() && hdr.frame == OutputFrame(w, h) && hdr.restart == 0 && Carries(hdr, Books(cs))
  {
    hide FirstIndex;
  }

  // --- from picture to picture ------------------------------------------------------------------------

  /** The file of these rows, as text. */
  ghost function RowsText(o: Options, tr: Transforms, cs: Coders, rows: seq<Row>, w: nat): seq<byte>
    requires Sound(tr) && StoredTables(cs) && cs.Valid() && cs.Good() && Quantisers(o.q0, o.q1) && RowsOf(rows, w)
    requires 1 <= w <= MAX_DIM && 1 <= |rows| <= MAX_DIM
  {
    FileIsText(tr, cs, o.q0, o.q1, rows, w);
    HeaderBytes(w, |rows|, o.q0, o.q1, cs) + ScanText(OutputCoding(tr, cs, rows, w), [0xFF, 0xD9], 0)
  }

  /** The rows are the picture scaled and cropped: each sample is the mean of those that its box meets. */
  ghost predicate Scaled(hdr: Header, tr: Transforms, v: View, pic: Picture, rows: seq<Row>)
    requires hdr.Valid() && Sound(tr) && v.div > 0 && v.x0 <= v.x1 && v.y0 <= v.y1
  {
    |rows| == v.OutH() && RowsOf(rows, v.OutW()) &&
    forall y, c, x :: 0 <= y < v.OutH() && 0 <= c < 3 && 0 <= x < v.OutW() ==>
      Averages(hdr, tr, v, pic, y, c, x, rows[y][c][x])
  }

  /** The rows of what a scan of the picture makes. */
  lemma RowsScaled(hdr: Header, tr: Transforms, v: View, sc: Scan, pic: Picture)
    requires hdr.Valid() && |sc.preds| == 3 && Decodes(hdr, sc, pic) && Sound(tr) && v.Valid(hdr.frame)
    ensures Scaled(hdr, tr, v, pic, ImageRows(hdr, tr, v, sc))
  {
    hide HMax, VMax, CeilDiv, Decodes, Averages, ImageRow, Sound, Header.Valid, Frame.Valid;
    var rows := ImageRows(hdr, tr, v, sc);
    forall y, c, x | 0 <= y < v.OutH() && 0 <= c < 3 && 0 <= x < v.OutW()
      ensures Averages(hdr, tr, v, pic, y, c, x, rows[y][c][x])
    {
      RowAverages(hdr, tr, v, sc, pic, y, c, x);
    }
  }

  /** The answer is the text of a scaled picture. */
  ghost predicate IsScaledText(a: Answer, hdr: Header, o: Options, tr: Transforms, cs: Coders, v: View, pic: Picture) {
    hdr.Valid() && Sound(tr) && Writable(cs) && cs.Good() && Quantisers(o.q0, o.q1) && v.Valid(hdr.frame) &&
    a.Makes? && a.w == v.OutW() && a.h == v.OutH() && 1 <= a.w <= MAX_DIM && 1 <= a.h <= MAX_DIM &&
    exists rows :: Scaled(hdr, tr, v, pic, rows) && a.file == RowsText(o, tr, cs, rows, v.OutW())
  }

  lemma ScanDecodesPicture(hdr: Header, k: Coding, tail: seq<byte>)
    requires Fits(hdr, k) && AtMarker(tail)
    ensures |ScanOf(ScanText(k, tail, 0)).preds| == 3 && Decodes(hdr, ScanOf(ScanText(k, tail, 0)), k.pic)
  {
    hide Header.Valid, Coding.Valid, Frame.McusX, Frame.McusY, Carries, McuNo, McuAt, ScanAt, ScanText, Unstuff, Tail, BytesBits;
    ScanReads(hdr, k, tail);
  }

  lemma AnswerIsScaled(hdr: Header, k: Coding, tail: seq<byte>, v: View, o: Options, tr: Transforms, cs: Coders)
    requires Fits(hdr, k) && AtMarker(tail) && v.Valid(hdr.frame)
    requires Sound(tr) && Writable(cs) && cs.Good() && Quantisers(o.q0, o.q1)
    ensures IsScaledText(AnswerOf(hdr, ScanOf(ScanText(k, tail, 0)), v, o, tr, cs), hdr, o, tr, cs, v, k.pic)
  {
    hide HMax, VMax, CeilDiv, Scaled, ScanText, ScanOf, McuAt, ScanAt, NeededMcus, Coders.Valid, Coders.Good, StoredTables, Sound, FileOf, ImageRow,
         Frame.Valid, Table.Valid, Carries, HeaderBytes, OutputCoding, FileMarks, Decodes;
    var sc := ScanOf(ScanText(k, tail, 0));
    ScanDecodesPicture(hdr, k, tail);
    RowsDecode(hdr, sc, k.pic, v);
    RowsScaled(hdr, tr, v, sc, k.pic);
    OutputSize(hdr.frame, v);
    FileIsText(tr, cs, o.q0, o.q1, ImageRows(hdr, tr, v, sc), v.OutW());
  }

  /** A file with headers for this picture, its scan, and more. */
  ghost predicate IsText(d: seq<byte>, st: State, k: Coding, tail: seq<byte>) {
    k.Valid() && AtMarker(tail) && ParseHeaders(d) == Parsed.Accepted(st, ScanText(k, tail, 0)) && Fits(st.Header(), k)
  }

  /** jpeg_scale on any text of any picture, with whatever sampling factors, tables and restart interval its
      headers have: the file it makes is the text of the picture whose samples are the means of those that meet
      their boxes. */
  lemma ScalesPictures(d: seq<byte>, st: State, k: Coding, tail: seq<byte>, v: View, o: Options, tr: Transforms, cs: Coders)
    requires Sound(tr) && Standard(cs) && Quantisers(o.q0, o.q1) && IsText(d, st, k, tail)
    requires SinkGeometry(k.f, o.div, o.cx, o.cy, o.cw, o.ch) == Crop(v)
    ensures IsScaledText(Expected(d, o, tr, cs), st.Header(), o, tr, cs, v, k.pic)
  {
    hide HMax, VMax, CeilDiv, IsScaledText, AnswerOf, ScanText, ScanOf, Coders.Valid, Coders.Good, StoredTables, Sound, Frame.Valid, Carries,
         ParseHeaders, SinkGeometry, State.Valid, Coding.Valid;
    StandardStored(cs);
    HeadersRest(d);
    HeaderValid(st);
    AnswerIsScaled(st.Header(), k, tail, v, o, tr, cs);
  }
}
