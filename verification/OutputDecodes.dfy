/** The file jpeg_scale writes is one its own decoder reads: headers, MCU count, every coefficient. */
module OutputDecoding {
  import opened Bits
  import opened Huffman
  import opened ByteStuffing
  import opened BlockCodec
  import opened FrameGeometry
  import opened ScanSpec
  import opened StripSpec
  import opened FrameHeader
  import opened Transcoding

  /** The bits from block k on, then the padding. */
  ghost function From(cs: Coders, units: seq<Unit>, pad: seq<bool>, k: nat): seq<bool>
    requires cs.Valid() && Codable(units) && k <= |units|
    decreases |units| - k
  {
    if k == |units| then pad
    else
      PredInRange(units[..k], units[k].c);
      EncodeBlock(cs.Of(units[k].c).dc, cs.Of(units[k].c).ac, units[k].zz, Pred(units[..k], units[k].c))
        + From(cs, units, pad, k + 1)
  }

  /** The decoder has block k next. */
  ghost predicate Stands(r: Run, cs: Coders, units: seq<Unit>, pad: seq<bool>, tail: seq<byte>, k: nat, bs: seq<Block>)
    requires cs.Valid() && Codable(units) && k <= |units|
  {
    Leaves(r, From(cs, units, pad, k), tail, Preds(units[..k]), bs)
  }

  lemma {:induction false} FromStart(cs: Coders, units: seq<Unit>, pad: seq<bool>, k: nat)
    requires cs.Valid() && Codable(units) && k <= |units|
    ensures UnitsBits(cs, units[..k]) + From(cs, units, pad, k) == UnitsBits(cs, units) + pad
    decreases |units| - k
  {
    hide EncodeBlock, Pred, InRange;
    if k == |units| {
      assert units[..k] == units;
    } else {
      var next := units[..k + 1];
      assert next[..k] == units[..k];
      LastUnit(cs, next);
      var code := EncodeBlock(cs.Of(units[k].c).dc, cs.Of(units[k].c).ac, units[k].zz, Pred(units[..k], units[k].c));
      FromStart(cs, units, pad, k + 1);
      ConcatAssoc(UnitsBits(cs, units[..k]), code, From(cs, units, pad, k + 1));
    }
  }

  /** The blocks go Y, Cb, Cr in turn. */
  ghost predicate Interleaved(units: seq<Unit>) {
    |units| % 3 == 0 && forall k :: 0 <= k < |units| ==> units[k].c == k % 3 && InRange(units[k].zz)
  }

  /** A decoder with three unsampled components and no restart interval. */
  ghost predicate Plain(hdr: Header, cs: Coders) {
    OutputTables(hdr, cs) && hdr.restart == 0 && Units(hdr.frame.comps) == [0, 1, 2]
  }

  lemma NextBlock(hdr: Header, cs: Coders, sc: Scan, of: seq<nat>, units: seq<Unit>, pad: seq<bool>, tail: seq<byte>,
                  bs: seq<Block>, k: nat, more: seq<nat>)
    requires OutputTables(hdr, cs) && cs.Valid() && cs.Good() && |sc.preds| == 3 && Codable(units) && k < |units|
    requires (forall j :: 0 <= j < |of| ==> of[j] < 3) && (forall j :: 0 <= j < |more| ==> more[j] < 3)
    requires more == of + [units[k].c]
    requires Stands(DecodeUnits(hdr, sc, of), cs, units, pad, tail, k, bs)
    ensures Stands(DecodeUnits(hdr, sc, more), cs, units, pad, tail, k + 1, bs + [units[k].zz])
  {
    hide EncodeBlock, DecodeBlock, Coders.Good, Coders.Valid, InRange, DecodeUnits, Pred;
    var u := units[k];
    var next := units[..k + 1];
    assert next[..k] == units[..k];
    CompsPrefix(next);
    PredInRange(units[..k], u.c);
    PredsAt(units[..k], u.c);
    OneMoreUnit(hdr, cs, sc, of, u, tail, Preds(units[..k]), bs, From(cs, units, pad, k + 1));
  }

  /** An MCU of three unsampled components. */
  function Three(hdr: Header, sc: Scan): (r: Run)
    requires hdr.Valid() && |hdr.frame.comps| >= 3 && |sc.preds| == 3
  {
    DecodeUnits(hdr, sc, [0, 1, 2])
  }

  lemma NoUnits(hdr: Header, sc: Scan)
    requires hdr.Valid() && |sc.preds| == 3
    ensures DecodeUnits(hdr, sc, []) == Run(sc, [])
  {
  }

  lemma McuDecodes(hdr: Header, cs: Coders, units: seq<Unit>, pad: seq<bool>, tail: seq<byte>, k: nat, sc: Scan)
    requires OutputTables(hdr, cs) && cs.Valid() && cs.Good() && Codable(units) && k + 3 <= |units|
    requires units[k].c == 0 && units[k + 1].c == 1 && units[k + 2].c == 2
    requires Stands(Run(sc, []), cs, units, pad, tail, k, [])
    ensures Stands(Three(hdr, sc), cs, units, pad, tail, k + 3, [units[k].zz, units[k + 1].zz, units[k + 2].zz])
  {
    hide Coders.Good, Coders.Valid, InRange, DecodeUnits, From, Codable;
    var b0, b1, b2 := units[k].zz, units[k + 1].zz, units[k + 2].zz;
    assert hdr.Valid();
    NoUnits(hdr, sc);
    NextBlock(hdr, cs, sc, [], units, pad, tail, [], k, [0]);
    assert [] + [b0] == [b0] && [b0] + [b1] == [b0, b1];
    NextBlock(hdr, cs, sc, [0], units, pad, tail, [b0], k + 1, [0, 1]);
    NextBlock(hdr, cs, sc, [0, 1], units, pad, tail, [b0, b1], k + 2, [0, 1, 2]);
    assert [b0, b1] + [b2] == [b0, b1, b2];
  }

  /** MCU m's three blocks, as the decoder returns them. */
  function McuBlocks(units: seq<Unit>, m: nat): seq<Block>
    requires 3 * m + 3 <= |units|
  {
    [units[3 * m].zz, units[3 * m + 1].zz, units[3 * m + 2].zz]
  }

  lemma NoPreds()
    ensures Preds([]) == [0, 0, 0]
  {
  }

  lemma ScanGoesOn(hdr: Header, sc: Scan, m: nat, at: Scan)
    requires hdr.Valid() && |sc.preds| == 3 && hdr.restart == 0 && Units(hdr.frame.comps) == [0, 1, 2]
    requires ScanAt(hdr, sc, m) == Run(at, [])
    ensures |hdr.frame.comps| >= 3 && |at.preds| == 3
    ensures McuAt(hdr, sc, m) == Three(hdr, at)
  {
    hide DecodeUnits, Units, Header.Valid;
    assert Units(hdr.frame.comps)[2] == 2;
  }

  /** The scan of these blocks. */
  ghost function ScanOn(cs: Coders, units: seq<Unit>, pad: seq<bool>, tail: seq<byte>): (sc: Scan)
    requires cs.Valid() && Codable(units)
    ensures |sc.preds| == 3
  {
    Scan(From(cs, units, pad, 0), tail, [0, 0, 0], 0)
  }

  lemma {:induction false} ScanReaches(hdr: Header, cs: Coders, units: seq<Unit>, pad: seq<bool>, tail: seq<byte>, m: nat)
    requires Plain(hdr, cs) && cs.Valid() && cs.Good() && Interleaved(units) && Codable(units) && 3 * m <= |units|
    ensures Stands(ScanAt(hdr, ScanOn(cs, units, pad, tail), m), cs, units, pad, tail, 3 * m, [])
  {
    hide Coders.Good, Coders.Valid, InRange, DecodeUnits, From, Codable, Units, McuAt;
    var sc := ScanOn(cs, units, pad, tail);
    if m == 0 {
      assert units[..0] == [];
      NoPreds();
    } else {
      var k := 3 * (m - 1);
      ScanReaches(hdr, cs, units, pad, tail, m - 1);
      var at := ScanAt(hdr, sc, m - 1).scan;
      ScanGoesOn(hdr, sc, m - 1, at);
      McuDecodes(hdr, cs, units, pad, tail, k, at);
    }
  }

  /** Every MCU of a scan of coded blocks decodes to its blocks, and the padding is all that is left. */
  lemma {:induction false} ScanDecodes(hdr: Header, cs: Coders, units: seq<Unit>, pad: seq<bool>, tail: seq<byte>)
    requires Plain(hdr, cs) && cs.Valid() && cs.Good() && Interleaved(units) && Codable(units)
    ensures var sc := Scan(UnitsBits(cs, units) + pad, tail, [0, 0, 0], 0);
            Leaves(ScanAt(hdr, sc, |units| / 3), pad, tail, Preds(units), []) &&
            forall m :: 0 <= m < |units| / 3 ==>
              McuAt(hdr, sc, m).Run? && McuAt(hdr, sc, m).blocks == McuBlocks(units, m)
  {
    hide Coders.Good, Coders.Valid, InRange, DecodeUnits, Preds, Codable, Units, ScanAt, McuAt, UnitsBits, EncodeBlock;
    FromStart(cs, units, pad, 0);
    NoBits(cs);
    assert units[..0] == [];
    assert [] + From(cs, units, pad, 0) == From(cs, units, pad, 0);
    var sc := ScanOn(cs, units, pad, tail);
    var n := |units| / 3;
    ScanReaches(hdr, cs, units, pad, tail, n);
    assert 3 * n == |units| && units[..3 * n] == units;
    forall m | 0 <= m < n
      ensures McuAt(hdr, sc, m).Run? && McuAt(hdr, sc, m).blocks == McuBlocks(units, m)
    {
      McuIs(hdr, cs, units, pad, tail, m);
    }
  }

  lemma McuIs(hdr: Header, cs: Coders, units: seq<Unit>, pad: seq<bool>, tail: seq<byte>, m: nat)
    requires Plain(hdr, cs) && cs.Valid() && cs.Good() && Interleaved(units) && Codable(units) && 3 * m + 3 <= |units|
    ensures var r := McuAt(hdr, ScanOn(cs, units, pad, tail), m); r.Run? && r.blocks == McuBlocks(units, m)
  {
    hide Coders.Good, Coders.Valid, InRange, DecodeUnits, Preds, Codable, Units, ScanAt, McuAt, From;
    var sc := ScanOn(cs, units, pad, tail);
    ScanReaches(hdr, cs, units, pad, tail, m);
    var at := ScanAt(hdr, sc, m).scan;
    ScanGoesOn(hdr, sc, m, at);
    McuDecodes(hdr, cs, units, pad, tail, 3 * m, at);
  }

  lemma NoBits(cs: Coders)
    requires cs.Valid()
    ensures Codable([]) && UnitsBits(cs, []) == []
  {
  }

  // --- the file ---------------------------------------------------------------------------

  function PadCount(n: nat): (k: nat)
    ensures k < 8 && (n + k) % 8 == 0
  {
    7 - (n + 7) % 8
  }

  /** Reading the entropy-coded segment back: the blocks' bits and at most seven ones. */
  lemma SegmentReads(s: seq<bool>, tail: seq<byte>)
    requires AtMarker(tail)
    ensures ScanOf(Whole(s + Ones(7)) + tail) == Scan(s + Ones(PadCount(|s|)), tail, [0, 0, 0], 0)
  {
    hide Pack, BytesBits, Unstuff, Tail, Stuff;
    var all := s + Ones(7);
    var whole := all[..|all| - |all| % 8];
    UnstuffStuff(Pack(whole), tail);
    BytesBitsPack(whole);
    assert whole == s + Ones(PadCount(|s|));
  }

  lemma OutputIsPlain(w: nat, h: nat, q0: seq<byte>, q1: seq<byte>, cs: Coders)
    requires 1 <= w <= MAX_DIM && 1 <= h <= MAX_DIM && Quantisers(q0, q1) && StoredTables(cs)
    ensures Plain(OutputState(w, h, q0, q1, cs).Header(), cs)
    ensures OutputState(w, h, q0, q1, cs).Header().frame.McusX() == BlocksAcross(w)
    ensures OutputState(w, h, q0, q1, cs).Header().frame.McusY() == (h + 7) / 8
  {
    hide FirstIndex;
    var f := OutputState(w, h, q0, q1, cs).Header().frame;
    Unsampled(f.comps);
    OneEach(f.comps, 3);
    assert f.comps[..3] == f.comps;
  }

  lemma {:induction false} OneEach(comps: seq<Component>, n: nat)
    requires n <= |comps| && forall i :: 0 <= i < |comps| ==> comps[i].h == 1 && comps[i].v == 1
    ensures Units(comps[..n]) == seq(n, i => i)
  {
    if n > 0 {
      OneEach(comps, n - 1);
      assert comps[..n][..n - 1] == comps[..n - 1];
      assert seq(comps[n - 1].h * comps[n - 1].v, _ => n - 1) == [n - 1];
    }
  }

  lemma {:induction false} Unsampled(comps: seq<Component>)
    requires forall i :: 0 <= i < |comps| ==> comps[i].h == 1 && comps[i].v == 1
    ensures HMax(comps) == 1 && VMax(comps) == 1
  {
    if comps != [] { Unsampled(comps[..|comps| - 1]); }
  }

  /** The scan has an MCU for every three blocks, decodes each to those blocks, and ends with these bits
      and the end marker. */
  ghost predicate ReadsBack(hdr: Header, sc: Scan, units: seq<Unit>, left: seq<bool>)
    requires hdr.Valid() && |sc.preds| == 3
  {
    |units| == 3 * (hdr.frame.McusX() * hdr.frame.McusY()) &&
    (forall m :: 0 <= m < |units| / 3 ==> McuAt(hdr, sc, m).Run? && McuAt(hdr, sc, m).blocks == McuBlocks(units, m)) &&
    Leaves(ScanAt(hdr, sc, |units| / 3), left, [0xFF, 0xD9], Preds(units), [])
  }

  /** The decoder accepts this file, recovers this state from its headers and exactly these blocks
      from its scan, and is left with `pad` one bits before the end marker. */
  ghost predicate DecodesTo(file: seq<byte>, st: State, units: seq<Unit>, pad: nat) {
    match ParseHeaders(file)
    case Rejected => false
    case Accepted(got, rest) =>
      got == st && st.Header().Valid() &&
      ReadsBack(st.Header(), ScanOf(rest), units, Ones(pad))
  }

  /** The bits that fill the last byte of the image's scan. */
  ghost function Padding(tr: Transforms, cs: Coders, rows: seq<Row>, w: nat): (n: nat)
    requires Sound(tr) && cs.Valid() && RowsOf(rows, w)
    ensures n < 8
  {
    PadCount(|UnitsBits(cs, ImageUnits(tr, rows, w))|)
  }

  /** The decoder accepts the encoder's file, finds its size, quantisers and tables, and in each of
      the mcus_x * mcus_y MCUs the header implies exactly the blocks that were encoded; nothing but
      the padding is left before the end marker. */
  lemma {:induction false} OutputDecodes(tr: Transforms, cs: Coders, q0: seq<byte>, q1: seq<byte>, rows: seq<Row>, w: nat)
    requires Sound(tr) && StoredTables(cs) && cs.Valid() && cs.Good() && Quantisers(q0, q1) && RowsOf(rows, w)
    requires 1 <= w <= MAX_DIM && 1 <= |rows| <= MAX_DIM
    ensures DecodesTo(FileOf(tr, cs, q0, q1, rows, w), OutputState(w, |rows|, q0, q1, cs), ImageUnits(tr, rows, w),
                      Padding(tr, cs, rows, w))
  {
    hide Coders.Good, InRange, DecodeUnits, Preds, Units, ScanAt, McuAt, UnitsBits, EncodeBlock, HMax, VMax,
         ParseHeaders, HeaderBytes, Whole, Ones, PadCount, OutputState, CeilDiv, FirstIndex, ImageUnits,
         Stored, BytesBits, Unstuff, Tail, Pack, Stuff;
    var units := ImageUnits(tr, rows, w);
    var tail: seq<byte> := [0xFF, 0xD9];
    HeaderRoundTrip(w, |rows|, q0, q1, cs, Whole(ScanBits(tr, cs, rows, w)) + tail);
    ConcatAssoc(HeaderBytes(w, |rows|, q0, q1, cs), Whole(ScanBits(tr, cs, rows, w)), tail);
    OutputIsPlain(w, |rows|, q0, q1, cs);
    ImageUnitsCount(tr, rows, w);
    SegmentReads(UnitsBits(cs, units), tail);
    var hdr := OutputState(w, |rows|, q0, q1, cs).Header();
    ScanDecodes(hdr, cs, units, Ones(PadCount(|UnitsBits(cs, units)|)), tail);
  }
}
