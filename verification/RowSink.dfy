/** The sink of jpeg.c: output rows averaged from the planes, gathered in strips and encoded. */
module RowSinks {
  import opened Bits
  import opened ByteStuffing
  import opened BitReading
  import opened BitWriting
  import opened BlockCodec
  import opened BlockCoding
  import opened FrameGeometry
  import opened Planes
  import opened ScanSpec
  import opened StripSpec

  /** A strip component's samples: row y of `rows` stands at y * stride. */
  ghost predicate Holds(a: seq<byte>, stride: nat, rows: seq<Row>, c: nat, w: nat)
    requires c < 3
  {
    |a| == 8 * stride && |rows| <= 8 && w <= stride &&
    forall y :: 0 <= y < |rows| ==> RowAt(a, stride, y, w, rows[y][c])
  }

  ghost predicate RowAt(a: seq<byte>, stride: nat, y: nat, w: nat, row: seq<byte>) {
    y * stride + w <= |a| && a[y * stride..y * stride + w] == row
  }

  /** One more row written below the others. */
  lemma HoldsMore(a: seq<byte>, b: seq<byte>, stride: nat, rows: seq<Row>, c: nat, w: nat, row: Row)
    requires c < 3 && Holds(a, stride, rows, c, w) && |rows| < 8 && |b| == |a| && |row[c]| == w
    requires |rows| * stride + w <= |a|
    requires b == a[..|rows| * stride] + row[c] + a[|rows| * stride + w..]
    ensures Holds(b, stride, rows + [row], c, w)
  {
    forall y | 0 <= y < |rows| + 1
      ensures RowAt(b, stride, y, w, (rows + [row])[y][c])
    {
      if y < |rows| {
        RowInside(y, |rows|, stride);
        assert RowAt(a, stride, y, w, rows[y][c]);
        assert b[y * stride..y * stride + w] == a[y * stride..y * stride + w];
      }
    }
  }

  lemma HeldSample(a: seq<byte>, stride: nat, rows: seq<Row>, c: nat, w: nat, y: nat, x: nat)
    requires c < 3 && Holds(a, stride, rows, c, w) && y < |rows| && x < w && |rows[y][c]| == w
    ensures y * stride + x < |a| && a[y * stride + x] == rows[y][c][x]
  {
    assert RowAt(a, stride, y, w, rows[y][c]);
    assert a[y * stride..y * stride + w][x] == a[y * stride + x];
  }

  /** The sample at column sx of row y, the last row and column repeated. */
  method StripPixel(strip: array<byte>, stride: nat, stripRows: nat, w: nat, bx: nat, x: nat, y: nat,
                    ghost rows: seq<Row>, ghost c: nat) returns (b: byte)
    requires c < 3 && RowsOf(rows, w) && rows != [] && |rows| == stripRows
    requires Holds(strip[..], stride, rows, c, w)
    ensures b == StripSample(rows, w, c, bx, x, y)
  {
    hide Holds;
    var sx := bx * 8 + x;
    var row := if y < stripRows then y else stripRows - 1;
    var col := if sx < w then sx else w - 1;
    HeldSample(strip[..], stride, rows, c, w, row, col);
    b := strip[row * stride + col];
  }

  /** The 64 samples encode_strip gathers for a block. */
  method GatherBlock(strip: array<byte>, stride: nat, stripRows: nat, w: nat, bx: nat, ghost rows: seq<Row>, ghost c: nat)
    returns (s: seq<byte>)
    requires c < 3 && RowsOf(rows, w) && rows != [] && |rows| == stripRows
    requires Holds(strip[..], stride, rows, c, w)
    ensures s == StripBlock(rows, w, c, bx)
  {
    hide Holds, StripSample;
    ghost var want := StripBlock(rows, w, c, bx);
    var blk := new byte[64];
    for y := 0 to 8
      invariant blk[..8 * y] == want[..8 * y]
    {
      for x := 0 to 8
        invariant blk[..8 * y + x] == want[..8 * y + x]
      {
        DivModUnique(8 * y + x, 8, y, x);
        var b := StripPixel(strip, stride, stripRows, w, bx, x, y, rows, c);
        assert want[8 * y + x] == b;
        blk[8 * y + x] := b;
      }
    }
    s := blk[..];
  }

  // --- when the bytes are put --------------------------------------------------------------------

  /** Marks of x added until there are n. */
  function Until(marks: seq<nat>, n: nat, x: nat): (r: seq<nat>)
    ensures |r| == if n <= |marks| then |marks| else n
  {
    if n <= |marks| then marks else marks + seq(n - |marks|, _ => x)
  }

  lemma LaterIs(before: seq<nat>, marks: seq<nat>, x: nat)
    requires Later(before, marks, x)
    ensures marks == Until(before, |marks|, x)
  {
  }

  lemma UntilNext(at: seq<nat>, n: nat, x: nat)
    requires |at| <= n
    ensures Until(at, n + 1, x) == Until(at, n, x) + [x]
  {
  }

  /** The bytes put once these rows are emitted: the head and the full strips' whole bytes. */
  ghost function BytesPut(tr: Transforms, cs: Coders, rows: seq<Row>, w: nat, head: nat): nat
    requires Sound(tr) && cs.Valid() && RowsOf(rows, w)
  {
    head + |Whole(UnitsBits(cs, ImageUnits(tr, rows[..|rows| - |rows| % 8], w)))|
  }

  /** What the decoder has left to read when each of those bytes is put, if it is `first` for the head
      and at[k] when row k is emitted. */
  ghost function MarksOf(tr: Transforms, cs: Coders, rows: seq<Row>, w: nat, head: nat, first: nat, at: seq<nat>): seq<nat>
    requires Sound(tr) && cs.Valid() && RowsOf(rows, w) && |at| == |rows|
  {
    if rows == [] then Until([], head, first)
    else
      var n := |rows| - 1;
      Until(MarksOf(tr, cs, rows[..n], w, head, first, at[..n]), BytesPut(tr, cs, rows, w, head), at[n])
  }

  lemma MarksMore(tr: Transforms, cs: Coders, rows: seq<Row>, row: Row, w: nat, head: nat, first: nat, at: seq<nat>,
                  marks: seq<nat>, x: nat)
    requires Sound(tr) && cs.Valid() && RowsOf(rows, w) && RowsOf(rows + [row], w) && |at| == |rows|
    requires Later(MarksOf(tr, cs, rows, w, head, first, at), marks, x)
    requires |marks| == BytesPut(tr, cs, rows + [row], w, head)
    ensures marks == MarksOf(tr, cs, rows + [row], w, head, first, at + [x])
  {
    hide Sound, BytesPut;
    assert (rows + [row])[..|rows|] == rows && (at + [x])[..|at|] == at;
    LaterIs(MarksOf(tr, cs, rows, w, head, first, at), marks, x);
  }

  class RowSink {
    const f: Frame
    const v: View
    const tr: Transforms
    const cs: Coders
    const e: BitWriter
    const strip: seq<array<byte>>   // 8 rows of strip_stride samples: Y Cb Cr
    const stride: nat
    var oy: nat
    var stripRows: nat
    var pred: seq<int>

    ghost var rows: seq<Row>        // every row emitted so far
    ghost var units: seq<Unit>      // every block encoded so far

    ghost predicate Shape()
      reads this
    {
      f.Valid() && v.Valid(f) && Sound(tr) && cs.Valid() && |strip| == 3 && stride == 8 * BlocksAcross(v.OutW()) &&
      (forall c :: 0 <= c < 3 ==> strip[c].Length == 8 * stride && strip[c] != e.out) &&
      strip[0] != strip[1] && strip[0] != strip[2] && strip[1] != strip[2] &&
      strip[0] != e.src.data && strip[1] != e.src.data && strip[2] != e.src.data
    }

    /** The bits sent are those of the blocks encoded. */
    ghost predicate Coded()
      reads this, e, e.src, e.out, e.src.data
    {
      e.Valid() && e.BitState() && cs.Valid() && Codable(units) &&
      e.sent == UnitsBits(cs, units) && pred == Preds(units)
    }

    /** The rows not encoded yet are in the strip. */
    ghost predicate Gathered()
      reads this, strip
    {
      |strip| == 3 && v.div > 0 && v.x0 <= v.x1 &&
      oy == |rows| && stripRows <= |rows| && stripRows <= 8 && (|rows| - stripRows) % 8 == 0 &&
      RowsOf(rows, v.OutW()) &&
      forall c :: 0 <= c < 3 ==> Holds(strip[c][..], stride, rows[|rows| - stripRows..], c, v.OutW())
    }

    /** The blocks encoded are those of the full strips so far. */
    ghost predicate InStep()
      requires Sound(tr) && v.div > 0 && v.x0 <= v.x1 && RowsOf(rows, v.OutW()) && stripRows <= |rows|
      reads this
    {
      units == ImageUnits(tr, rows[..|rows| - stripRows], v.OutW())
    }

    ghost predicate Valid()
      reads this, e, e.src, e.out, e.src.data, strip
    {
      Shape() && Coded() && Gathered() && InStep()
    }

    constructor (f: Frame, v: View, tr: Transforms, cs: Coders, e: BitWriter, strip: seq<array<byte>>, stride: nat)
      ensures this.f == f && this.v == v && this.tr == tr && this.cs == cs && this.e == e && this.strip == strip
      ensures this.stride == stride && oy == 0 && stripRows == 0 && pred == [0, 0, 0] && rows == [] && units == []
    {
      this.f, this.v, this.tr, this.cs, this.e, this.strip, this.stride := f, v, tr, cs, e, strip, stride;
      oy, stripRows, pred, rows, units := 0, 0, [0, 0, 0], [], [];
    }

    /** encode_block of one gathered block. */
    method EncodeUnit(c: nat, s: seq<byte>)
      requires Coded() && Sound(tr) && c < 3
      modifies this`pred, this`units, e`pos, e`overflow, e`written, e`marks, e`bits, e`nbits, e`sent, e.out
      ensures Coded() && units == old(units) + [Unit(c, tr.fdct(s, c != 0))]
      ensures e.Grew(old(e.marks))
    {
      hide Buffered, Pending, EncodeBlock, InRange, UnitsBits;
      var zz := tr.fdct(s, c != 0);
      AppendUnit(cs, units, Unit(c, zz));
      var coder := if c == 0 then cs.luma else cs.chroma;
      EncodeZz(e, coder.dc, coder.ac, zz, pred[c]);
      pred := pred[c := zz[0]];
      units := units + [Unit(c, zz)];
    }

    static lemma AppendUnit(cs: Coders, units: seq<Unit>, u: Unit)
      requires cs.Valid() && Codable(units) && u.c < 3 && InRange(u.zz)
      ensures Codable(units + [u]) && -1024 <= Preds(units)[u.c] <= 1023
      ensures UnitsBits(cs, units + [u]) == UnitsBits(cs, units)
                + EncodeBlock(cs.Of(u.c).dc, cs.Of(u.c).ac, u.zz, Preds(units)[u.c])
      ensures Preds(units + [u]) == Preds(units)[u.c := u.zz[0]]
    {
      hide EncodeBlock, InRange;
      var all := units + [u];
      assert all[..|all| - 1] == units;
      PredInRange(units, u.c);
    }

    /** The unencoded rows r are in the strip, and blocks can be coded. */
    ghost predicate Ready(r: seq<Row>)
      reads this, e, e.src, e.out, e.src.data, strip
    {
      Shape() && Coded() && RowsOf(r, v.OutW()) && r != [] && |r| == stripRows &&
      forall c :: 0 <= c < 3 ==> Holds(strip[c][..], stride, r, c, v.OutW())
    }

    /** Component c's block of column bx. */
    method EncodeNth(bx: nat, c: nat, ghost r: seq<Row>, ghost u0: seq<Unit>)
      requires Ready(r) && c < 3 && units == u0 + StripUnits(tr, r, v.OutW(), 3 * bx + c)
      modifies this`pred, this`units, e`pos, e`overflow, e`written, e`marks, e`bits, e`nbits, e`sent, e.out
      ensures Ready(r) && units == u0 + StripUnits(tr, r, v.OutW(), 3 * bx + c + 1)
      ensures e.Grew(old(e.marks))
    {
      hide Buffered, Pending, EncodeBlock, InRange, UnitsBits, ImageUnits, Codable, StripBlock, Holds, StripUnits,
           HMax, VMax, CeilDiv, Frame.Valid, BitWriter.Valid, BitWriter.BitState, Coders.Valid, Sound, RowsOf;
      assert Holds(strip[c][..], stride, r, c, v.OutW());
      var s := GatherBlock(strip[c], stride, stripRows, v.OutW(), bx, r, c);
      NextUnit(tr, r, v.OutW(), bx, c);
      ConcatAssoc(u0, StripUnits(tr, r, v.OutW(), 3 * bx + c), [Unit(c, tr.fdct(s, c != 0))]);
      EncodeUnit(c, s);
    }

    /** Y, Cb and Cr of block column bx. */
    method EncodeColumn(bx: nat, ghost r: seq<Row>, ghost u0: seq<Unit>)
      requires Ready(r) && units == u0 + StripUnits(tr, r, v.OutW(), 3 * bx)
      modifies this`pred, this`units, e`pos, e`overflow, e`written, e`marks, e`bits, e`nbits, e`sent, e.out
      ensures Ready(r) && units == u0 + StripUnits(tr, r, v.OutW(), 3 * (bx + 1))
      ensures e.Grew(old(e.marks))
    {
      hide StripUnits, Coded, Holds, HMax, VMax, CeilDiv, StripBlock;
      for c := 0 to 3
        invariant Ready(r) && e.Grew(old(e.marks))
        invariant units == u0 + StripUnits(tr, r, v.OutW(), 3 * bx + c)
      {
        EncodeNth(bx, c, r, u0);
      }
    }

    /** The blocks of the rows waiting in the strip. */
    ghost function StripCode(): seq<Unit>
      requires Shape() && Gathered() && stripRows > 0
      reads this, strip
    {
      StripUnits(tr, rows[|rows| - stripRows..], v.OutW(), 3 * BlocksAcross(v.OutW()))
    }

    /** encode_strip: every block column in turn; the strip is then empty. */
    method EncodeStrip()
      requires Valid() && stripRows > 0
      modifies this`pred, this`units, this`stripRows, e`pos, e`overflow, e`written, e`marks, e`bits, e`nbits, e`sent, e.out
      ensures Shape() && Coded() && stripRows == 0 && e.Grew(old(e.marks))
      ensures units == old(units) + old(StripCode())
    {
      hide Buffered, Pending, EncodeBlock, InRange, UnitsBits, ImageUnits, Codable, StripBlock, Holds, BitWriter.Valid,
           BitWriter.BitState, Coders.Valid, Frame.Valid;
      ghost var u0, r := units, rows[|rows| - stripRows..];
      for bx := 0 to stride / 8
        invariant Ready(r) && stripRows == old(stripRows) && e.Grew(old(e.marks))
        invariant units == u0 + StripUnits(tr, r, v.OutW(), 3 * bx)
      {
        EncodeColumn(bx, r, u0);
      }
      stripRows := 0;
    }

    static lemma NextUnit(tr: Transforms, rows: seq<Row>, w: nat, bx: nat, c: nat)
      requires Sound(tr) && RowsOf(rows, w) && rows != [] && c < 3
      ensures StripUnits(tr, rows, w, 3 * bx + c + 1)
           == StripUnits(tr, rows, w, 3 * bx + c) + [Unit(c, tr.fdct(StripBlock(rows, w, c, bx), c != 0))]
    {
      var k := 3 * bx + c;
      assert k % 3 == c && k / 3 == bx;
    }

    /** The encoder's state once the strip is encoded: as many blocks as the rows make. */
    lemma StripDone(before: seq<Unit>, w: nat, n: nat)
      requires Sound(tr) && RowsOf(rows, w) && 0 < n <= 8 && n <= |rows| && (|rows| - n) % 8 == 0
      requires before == ImageUnits(tr, rows[..|rows| - n], w)
      ensures RowsOf(rows[|rows| - n..], w)
      ensures ImageUnits(tr, rows, w) == before + StripUnits(tr, rows[|rows| - n..], w, 3 * BlocksAcross(w))
    {
      hide StripUnits, StripBlock, InRange, BlocksAcross, Sound;
      assert LastStrip(|rows|) == |rows| - n by { hide ImageUnits, RowsOf; }
    }

    // --- emit_rows ----------------------------------------------------------------------

    /** One sample of an output row: box_avg, or neutral chroma for grayscale input. */
    method RowSample(c: nat, ox: nat, bandY0: nat, sy0: nat, sy1: nat, planes: seq<array<byte>>, ghost ps: seq<seq<byte>>)
      returns (b: byte)
      requires f.Valid() && v.Valid(f) && oy < v.OutH() && ox < v.OutW() && PlanesShaped(f, ps)
      requires |planes| == |f.comps| && forall i :: 0 <= i < |planes| ==> planes[i][..] == ps[i]
      requires bandY0 == BandOf(f, v, oy) * f.BandH() && sy0 == v.Sy0(oy) && sy1 == v.Sy1(oy)
      ensures b == Sample(f, v, ps, oy, c, ox)
    {
      hide HMax, VMax, CeilDiv, BandOf, BoxAvg, Cx0, Cx1, Cy0, Cy1, View.Sx0, View.Sx1, View.Sy0, View.Sy1;
      if c >= |f.comps| {
        return 128;
      }
      BoxInPlane(f, v, c, ox, oy);
      BoxNonEmpty(v, f, ox, oy);
      assert Shaped(ps[c], f.Stride(c), f.PlaneRows(c));
      assert planes[c][..] == ps[c];
      b := AverageBox(planes[c], f.Stride(c), f.PlaneRows(c), Cx0(f, c, v.Sx0(ox)), Cx1(f, c, v.Sx1(ox)),
                      Cy0(f, c, sy0 - bandY0), Cy1(f, c, sy1 - bandY0));
    }

    /** Component c's samples of output row oy into the strip, below the rows it holds. */
    method FillRow(c: nat, at: nat, bandY0: nat, sy0: nat, sy1: nat, planes: seq<array<byte>>, ghost ps: seq<seq<byte>>)
      returns (ghost samples: seq<byte>)
      requires f.Valid() && v.Valid(f) && c < |strip| && oy < v.OutH() && PlanesShaped(f, ps)
      requires |planes| == |f.comps| && forall i :: 0 <= i < |planes| ==> planes[i][..] == ps[i]
      requires forall i :: 0 <= i < |planes| ==> planes[i] != strip[c]
      requires bandY0 == BandOf(f, v, oy) * f.BandH() && sy0 == v.Sy0(oy) && sy1 == v.Sy1(oy)
      requires at + v.OutW() <= strip[c].Length
      modifies strip[c]
      ensures |samples| == v.OutW()
      ensures forall ox :: 0 <= ox < v.OutW() ==> samples[ox] == Sample(f, v, ps, oy, c, ox)
      ensures strip[c][..] == old(strip[c][..at]) + samples + old(strip[c][at + v.OutW()..])
    {
      hide HMax, VMax, CeilDiv, BandOf, Sample, View.OutH, Frame.Stride, Frame.PlaneRows, Frame.BandH, View.Sy0, View.Sy1;
      ghost var before := strip[c][..];
      samples := [];
      for ox := 0 to v.OutW()
        invariant |samples| == ox && forall k :: 0 <= k < ox ==> samples[k] == Sample(f, v, ps, oy, c, k)
        invariant strip[c][..] == before[..at] + samples + before[at + ox..]
        invariant forall i :: 0 <= i < |planes| ==> planes[i][..] == ps[i]
      {
        var b := RowSample(c, ox, bandY0, sy0, sy1, planes, ps);
        strip[c][at + ox] := b;
        samples := samples + [b];
      }
    }

    /** The planes hold the samples ps, apart from the strip. */
    ghost predicate Source(planes: seq<array<byte>>, ps: seq<seq<byte>>)
      requires f.Valid()
      reads this, planes
    {
      PlanesShaped(f, ps) && |planes| == |f.comps| &&
      (forall i :: 0 <= i < |planes| ==> planes[i][..] == ps[i]) &&
      (forall i :: 0 <= i < |planes| ==> planes[i] !in strip) &&
      (forall i :: 0 <= i < |planes| ==> planes[i] != e.out)
    }

    /** The three components of output row oy into the strip. */
    method FillRows(at: nat, bandY0: nat, planes: seq<array<byte>>, ghost ps: seq<seq<byte>>) returns (ghost row: Row)
      requires Shape() && oy < v.OutH() && Source(planes, ps) && at + v.OutW() <= 8 * stride
      requires bandY0 == BandOf(f, v, oy) * f.BandH()
      modifies strip
      ensures IsRow(f, v, ps, oy, row) && Source(planes, ps)
      ensures forall c :: 0 <= c < 3 ==>
        strip[c][..] == old(strip[c][..at]) + row[c] + old(strip[c][at + v.OutW()..])
    {
      hide HMax, VMax, CeilDiv, BandOf, Sample, Frame.Stride, Frame.PlaneRows, Sound;
      var sy0 := v.Sy0(oy);
      var sy1 := if sy0 + v.div < v.y1 then sy0 + v.div else v.y1;
      ghost var y := FillRow(0, at, bandY0, sy0, sy1, planes, ps);
      ghost var cb := FillRow(1, at, bandY0, sy0, sy1, planes, ps);
      ghost var cr := FillRow(2, at, bandY0, sy0, sy1, planes, ps);
      row := [y, cb, cr];
    }

    ghost predicate AllHold(r: seq<Row>)
      requires |strip| == 3 && v.div > 0 && v.x0 <= v.x1
      reads strip
    {
      forall c :: 0 <= c < 3 ==> Holds(strip[c][..], stride, r, c, v.OutW())
    }

    /** Output row oy below the rows the strip holds. */
    method AppendRow(bandY0: nat, planes: seq<array<byte>>, ghost ps: seq<seq<byte>>, ghost r: seq<Row>) returns (ghost row: Row)
      requires Shape() && oy < v.OutH() && Source(planes, ps) && AllHold(r) && |r| == stripRows < 8
      requires bandY0 == BandOf(f, v, oy) * f.BandH()
      modifies strip
      ensures IsRow(f, v, ps, oy, row) && Source(planes, ps) && AllHold(r + [row])
    {
      hide HMax, VMax, CeilDiv, BandOf, Sample, Frame.Stride, Frame.PlaneRows, Holds, Sound;
      RowInside(stripRows, 8, stride);
      ghost var s0 := [strip[0][..], strip[1][..], strip[2][..]];
      row := FillRows(stripRows * stride, bandY0, planes, ps);
      forall c | 0 <= c < 3
        ensures Holds(strip[c][..], stride, r + [row], c, v.OutW())
      {
        HoldsSize(s0[c], stride, r, c, v.OutW());
        HoldsMore(s0[c], strip[c][..], stride, r, c, v.OutW(), row);
      }
    }

    /** One more row in the strip, not encoded yet. */
    method GatherRow(bandY0: nat, planes: seq<array<byte>>, ghost ps: seq<seq<byte>>)
      requires Valid() && stripRows < 8 && oy < v.OutH() && Source(planes, ps)
      requires bandY0 == BandOf(f, v, oy) * f.BandH()
      modifies this`oy, this`stripRows, this`rows, strip
      ensures Valid() && stripRows == old(stripRows) + 1 && oy == old(oy) + 1 && Source(planes, ps)
      ensures |rows| == |old(rows)| + 1 && rows[..|old(rows)|] == old(rows)
      ensures IsRow(f, v, ps, old(oy), rows[|old(rows)|])
    {
      hide HMax, VMax, CeilDiv, BandOf, Sample, Frame.Stride, Frame.PlaneRows, ImageUnits, UnitsBits, Codable,
           Buffered, Pending, Holds, Sound, PlanesShaped, BitWriter.Valid, BitWriter.BitState, Coders.Valid, Frame.Valid, BlocksAcross;
      ghost var r := rows[|rows| - stripRows..];
      ghost var row := AppendRow(bandY0, planes, ps, r);
      ghost var all := rows + [row];
      assert all[|all| - (stripRows + 1)..] == r + [row];
      assert all[..|all| - (stripRows + 1)] == rows[..|rows| - stripRows];
      rows := all;
      oy := oy + 1;
      stripRows := stripRows + 1;
    }

    static lemma HoldsSize(a: seq<byte>, stride: nat, rows: seq<Row>, c: nat, w: nat)
      requires c < 3 && Holds(a, stride, rows, c, w)
      ensures |a| == 8 * stride && |rows| <= 8 && w <= stride
    {
    }

    /** An empty strip holds no rows. */
    lemma NothingHeld()
      requires Shape()
      ensures forall c :: 0 <= c < 3 ==> Holds(strip[c][..], stride, [], c, v.OutW())
    {
      hide HMax, VMax, CeilDiv, Sound;
    }

    /** One output row: averaged, gathered, and the strip encoded when it is full. */
    method EmitRow(bandY0: nat, planes: seq<array<byte>>, ghost ps: seq<seq<byte>>)
      requires Valid() && stripRows < 8 && oy < v.OutH() && Source(planes, ps)
      requires bandY0 == BandOf(f, v, oy) * f.BandH()
      modifies this, e`pos, e`overflow, e`written, e`marks, e`bits, e`nbits, e`sent, e.out, strip
      ensures Valid() && stripRows < 8 && oy == old(oy) + 1 && Source(planes, ps)
      ensures e.Grew(old(e.marks))
      ensures |rows| == |old(rows)| + 1 && rows[..|old(rows)|] == old(rows)
      ensures IsRow(f, v, ps, old(oy), rows[|old(rows)|])
    {
      hide HMax, VMax, CeilDiv, BandOf, Sample, Frame.Stride, Frame.PlaneRows, ImageUnits, UnitsBits, Codable,
           Buffered, Pending, Holds, StripUnits, IsRow, PlanesShaped, BitWriter.Valid, BitWriter.BitState, Coders.Valid,
           Frame.Valid;
      GatherRow(bandY0, planes, ps);
      if stripRows == 8 {
        FlushStrip();
      }
    }

    /** The same, with the time its bytes are put. */
    method EmitTimed(bandY0: nat, planes: seq<array<byte>>, ghost ps: seq<seq<byte>>, ghost at: seq<nat>, ghost first: nat)
      requires Valid() && stripRows < 8 && oy < v.OutH() && Source(planes, ps) && Timed(at, first)
      requires bandY0 == BandOf(f, v, oy) * f.BandH()
      modifies this, e`pos, e`overflow, e`written, e`marks, e`bits, e`nbits, e`sent, e.out, strip
      ensures Valid() && stripRows < 8 && oy == old(oy) + 1 && Source(planes, ps) && Timed(at + [e.Left()], first)
      ensures |rows| == |old(rows)| + 1 && rows[..|old(rows)|] == old(rows)
      ensures IsRow(f, v, ps, old(oy), rows[|old(rows)|])
    {
      hide HMax, VMax, CeilDiv, BandOf, IsRow, PlanesShaped, Coded, InStep, Gathered, MarksOf, RowsOf, Frame.BandH;
      ghost var r, m := rows, e.marks;
      EmitRow(bandY0, planes, ps);
      TimedMore(m, r, at, first);
    }

    /** The strip, full or partial, is encoded. */
    method FlushStrip()
      requires Valid() && 0 < stripRows
      modifies this`pred, this`units, this`stripRows, e`pos, e`overflow, e`written, e`marks, e`bits, e`nbits, e`sent, e.out
      ensures Shape() && Coded() && stripRows == 0 && e.Grew(old(e.marks))
      ensures units == ImageUnits(tr, rows, v.OutW())
      ensures |rows| % 8 == 0 ==> Valid()
    {
      hide HMax, VMax, CeilDiv, ImageUnits, UnitsBits, Codable, Buffered, Pending, Holds, StripUnits, Sound;
      ghost var before, n := units, stripRows;
      EncodeStrip();
      StripDone(before, v.OutW(), n);
      assert rows[..|rows|] == rows && rows[|rows|..] == [];
      NothingHeld();
    }

    /** Row k was emitted when the decoder had at[k] bytes left, the head written when it had `first`. */
    ghost predicate Timed(at: seq<nat>, first: nat)
      requires Sound(tr) && cs.Valid() && v.div > 0 && v.x0 <= v.x1
      reads this, e
    {
      RowsOf(rows, v.OutW()) && |at| == |rows| &&
      e.marks == MarksOf(tr, cs, rows, v.OutW(), |e.head|, first, at)
    }

    lemma BytesSoFar()
      requires Valid() && stripRows < 8
      ensures |e.marks| == BytesPut(tr, cs, rows, v.OutW(), |e.head|)
    {
      hide Buffered, HMax, VMax, CeilDiv, Holds, ImageUnits, UnitsBits, Codable, Whole, BitReader.Valid, Overflows, Preds, Frame.Valid;
      assert stripRows == |rows| % 8;
      assert |e.written| == |e.head| + |Whole(e.sent)|;
    }

    /** One more row emitted, and the bytes put since. */
    lemma TimedMore(before: seq<nat>, r: seq<Row>, at: seq<nat>, first: nat)
      requires Valid() && stripRows < 8 && |rows| == |r| + 1 && rows[..|r|] == r && RowsOf(r, v.OutW()) && |at| == |r|
      requires before == MarksOf(tr, cs, r, v.OutW(), |e.head|, first, at) && e.Grew(before)
      ensures Timed(at + [e.Left()], first)
    {
      hide Coded, InStep, Sound, Coders.Valid, Frame.Valid, CeilDiv, Holds, BytesPut, MarksOf, Later;
      BytesSoFar();
      assert r + [rows[|r|]] == rows;
      MarksMore(tr, cs, r, rows[|r|], v.OutW(), |e.head|, first, at, e.marks, e.Left());
    }

    /** The rows emitted are those whose source rows begin in the first b bands. */
    ghost predicate UpTo(b: nat)
      requires v.div > 0 && v.y0 <= v.y1
      reads this
    {
      (forall k :: 0 <= k < oy ==> BandOf(f, v, k) < b) && (oy < v.OutH() ==> b <= BandOf(f, v, oy))
    }

    /** Rows k of the output so far, each from the planes of its band. */
    ghost predicate RowsFrom(n: nat, m: nat, ps: seq<seq<byte>>)
      requires f.Valid() && v.Valid(f) && PlanesShaped(f, ps)
      reads this
    {
      n <= |rows| <= v.OutH() && oy == |rows| &&
      forall k :: n <= k < |rows| ==> BandOf(f, v, k) == m && IsRow(f, v, ps, k, rows[k])
    }

    /** emit_rows: every output row whose source rows lie in band m. */
    method EmitRows(m: nat, planes: seq<array<byte>>, ghost ps: seq<seq<byte>>, ghost at: seq<nat>, ghost first: nat)
      requires Valid() && stripRows < 8 && |rows| <= v.OutH() && Source(planes, ps) && UpTo(m) && Timed(at, first)
      modifies this, e`pos, e`overflow, e`written, e`marks, e`bits, e`nbits, e`sent, e.out, strip
      ensures Valid() && stripRows < 8 && Source(planes, ps) && UpTo(m + 1)
      ensures Timed(Until(at, |rows|, e.Left()), first)
      ensures |old(rows)| <= |rows| && rows[..|old(rows)|] == old(rows) && RowsFrom(|old(rows)|, m, ps)
    {
      hide HMax, VMax, CeilDiv, BandOf, Coded, InStep, IsRow, Holds, View.Sy0, Frame.BandH, PlanesShaped, MarksOf, BitWriter.Left;
      var bandY0 := m * f.BandH();
      var bandY1 := if bandY0 + f.BandH() < f.height then bandY0 + f.BandH() else f.height;
      ghost var r0, left := rows, e.Left();
      while oy < v.OutH()
        invariant Valid() && stripRows < 8 && Source(planes, ps)
        invariant e.Left() == left && |at| <= |rows| && Timed(Until(at, |rows|, left), first)
        invariant |r0| <= |rows| && rows[..|r0|] == r0 && RowsFrom(|r0|, m, ps)
        invariant forall k :: 0 <= k < oy ==> BandOf(f, v, k) < m + 1
        invariant oy < v.OutH() ==> m <= BandOf(f, v, oy)
      {
        BandEnds(f, v, oy, m);
        if v.Sy0(oy) >= bandY1 {
          return;
        }
        BandMono(f, v, oy);
        ghost var r1 := rows;
        EmitTimed(bandY0, planes, ps, Until(at, |r1|, left), first);
        UntilNext(at, |r1|, left);
        assert rows[..|r0|] == r1[..|r0|];
        forall k | |r0| <= k < |rows|
          ensures BandOf(f, v, k) == m && IsRow(f, v, ps, k, rows[k])
        {
          if k < |r1| { assert rows[k] == rows[..|r1|][k] == r1[k]; }
        }
      }
    }

    static lemma BandMono(f: Frame, v: View, oy: nat)
      requires v.div > 0
      ensures BandOf(f, v, oy) <= BandOf(f, v, oy + 1)
    {
      hide VMax;
      BandStep(v.y0, oy, v.div, f.BandH());
    }

    static lemma BandStep(y0: nat, oy: nat, div: nat, b: nat)
      requires b > 0
      ensures Quotient(y0 + oy * div, b) <= Quotient(y0 + (oy + 1) * div, b)
    {
      assert (oy + 1) * div == oy * div + div;
      QuotientMono(y0 + oy * div, y0 + (oy + 1) * div, b);
    }

    static lemma QuotientMono(x: nat, y: nat, b: nat)
      requires b > 0 && x <= y
      ensures Quotient(x, b) <= Quotient(y, b)
    {
      QuotientAtLeast(y, Quotient(x, b), b);
    }

    static lemma QuotientAtLeast(y: nat, q: nat, b: nat)
      requires b > 0
      ensures Quotient(y, b) >= q <==> y >= q * b
    {
      var p, r := y / b, y % b;
      assert y == p * b + r;
      MulDistrib(q, p, b);
      MulDistrib(p, q, b);
      if p < q {
        MulGrows(q - p, b);
      } else {
        MulNonNeg(p - q, b);
      }
    }

    /** An output row begins before the end of band m exactly if its band is at most m. */
    static lemma BandEnds(f: Frame, v: View, oy: nat, m: nat)
      requires f.Valid() && v.Valid(f) && oy < v.OutH()
      ensures v.Sy0(oy) >= Min(m * f.BandH() + f.BandH(), f.height) <==> BandOf(f, v, oy) >= m + 1
    {
      hide VMax, HMax, CeilDiv;
      var b := f.BandH();
      BoxNonEmpty(v, f, 0, oy) by { CeilDivBound(v.x1 - v.x0, v.div, 0); }
      QuotientAtLeast(v.Sy0(oy), m + 1, b);
      assert (m + 1) * b == m * b + b;
    }

    /** No output row lies in a band that is not needed. */
    lemma NothingThere(m: nat)
      requires f.Valid() && v.Valid(f) && UpTo(m) && !Needed(f, v, m)
      ensures UpTo(m + 1)
    {
      hide VMax, HMax;
      if oy < v.OutH() {
        var b := f.BandH();
        BandEnds(f, v, oy, m);
        QuotientAtLeast(v.Sy0(oy), m, b);
        BoxNonEmpty(v, f, 0, oy) by { CeilDivBound(v.x1 - v.x0, v.div, 0); }
        MulNonNeg(oy, v.div);
      }
    }
  }
}
