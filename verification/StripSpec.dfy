/** The encoder's scan: rows grouped into strips of eight, strips into MCUs of three blocks. */
module StripSpec {
  import opened Bits
  import opened Huffman
  import opened BlockCodec
  import opened ScanSpec

  /** A coded block and its component. */
  datatype Unit = Unit(c: nat, zz: Block)

  /** An output row: the samples of the three components. */
  type Row = r: seq<seq<byte>> | |r| == 3 witness [[], [], []]

  ghost predicate RowsOf(rows: seq<Row>, w: nat) {
    w > 0 && forall y, c :: 0 <= y < |rows| && 0 <= c < 3 ==> |rows[y][c]| == w
  }

  /** Columns of blocks in a strip of w samples. */
  function BlocksAcross(w: nat): nat {
    (w + 7) / 8
  }

  /** Sample (x, y) of block column bx: the last row and the last column are repeated. */
  function StripSample(rows: seq<Row>, w: nat, c: nat, bx: nat, x: nat, y: nat): byte
    requires w > 0 && rows != [] && c < 3
    requires forall k, d :: 0 <= k < |rows| && 0 <= d < 3 ==> |rows[k][d]| == w
  {
    rows[Min(y, |rows| - 1)][c][Min(bx * 8 + x, w - 1)]
  }

  function StripBlock(rows: seq<Row>, w: nat, c: nat, bx: nat): (s: seq<byte>)
    requires w > 0 && rows != [] && c < 3
    requires forall k, d :: 0 <= k < |rows| && 0 <= d < 3 ==> |rows[k][d]| == w
    ensures |s| == 64
    ensures forall i :: 0 <= i < 64 ==> s[i] == StripSample(rows, w, c, bx, i % 8, i / 8)
  {
    seq(64, i requires 0 <= i < 64 => StripSample(rows, w, c, bx, i % 8, i / 8))
  }

  /** The first n blocks of a strip: Y, Cb, Cr of each block column in turn. */
  ghost function StripUnits(tr: Transforms, rows: seq<Row>, w: nat, n: nat): (u: seq<Unit>)
    requires Sound(tr) && RowsOf(rows, w) && rows != []
    ensures |u| == n
    ensures forall k :: 0 <= k < n ==> u[k].c == k % 3 && InRange(u[k].zz)
  {
    if n == 0 then []
    else
      var k := n - 1;
      StripUnits(tr, rows, w, k) + [Unit(k % 3, tr.fdct(StripBlock(rows, w, k % 3, k / 3), k % 3 != 0))]
  }

  /** Rows before the last strip, which may be partial. */
  function LastStrip(n: nat): nat
    requires n > 0
  {
    (n - 1) / 8 * 8
  }

  /** All blocks of an image of these rows. */
  ghost function ImageUnits(tr: Transforms, rows: seq<Row>, w: nat): (u: seq<Unit>)
    requires Sound(tr) && RowsOf(rows, w)
    ensures |u| % 3 == 0
    ensures forall k :: 0 <= k < |u| ==> u[k].c == k % 3 && InRange(u[k].zz)
  {
    if rows == [] then []
    else
      var g := LastStrip(|rows|);
      ImageUnits(tr, rows[..g], w) + StripUnits(tr, rows[g..], w, 3 * BlocksAcross(w))
  }

  /** An image has three blocks for every 8x8 square of samples, the partial ones included. */
  lemma {:induction false} ImageUnitsCount(tr: Transforms, rows: seq<Row>, w: nat)
    requires Sound(tr) && RowsOf(rows, w)
    ensures |ImageUnits(tr, rows, w)| == 3 * (BlocksAcross(w) * ((|rows| + 7) / 8))
  {
    if rows != [] {
      var g := LastStrip(|rows|);
      ImageUnitsCount(tr, rows[..g], w);
      StripCount(BlocksAcross(w), |rows|);
    }
  }

  lemma StripCount(n: nat, rows: nat)
    requires rows > 0
    ensures n * ((LastStrip(rows) + 7) / 8) + n == n * ((rows + 7) / 8)
  {
    assert (LastStrip(rows) + 7) / 8 + 1 == (rows + 7) / 8;
    Succ(n, (LastStrip(rows) + 7) / 8);
  }

  lemma Succ(n: nat, k: nat)
    ensures n * k + n == n * (k + 1)
  {
  }

  // --- the bits of a block sequence ------------------------------------------------------

  /** The encoder's DC predictor of component c after these blocks. */
  function Pred(units: seq<Unit>, c: nat): int {
    if units == [] then 0
    else
      var u := units[|units| - 1];
      if u.c == c then u.zz[0] else Pred(units[..|units| - 1], c)
  }

  ghost predicate Codable(units: seq<Unit>) {
    forall k :: 0 <= k < |units| ==> units[k].c < 3 && InRange(units[k].zz)
  }

  lemma {:induction false} PredInRange(units: seq<Unit>, c: nat)
    requires Codable(units)
    ensures -1024 <= Pred(units, c) <= 1023
  {
    if units != [] { PredInRange(units[..|units| - 1], c); }
  }

  /** The tables of a component, as the decoder has them, and the code books made from them. */
  datatype Coder = Coder(dcT: Table, dc: CodeBook, acT: Table, ac: CodeBook)

  datatype Coders = Coders(luma: Coder, chroma: Coder) {
    function Of(c: nat): Coder {
      if c == 0 then luma else chroma
    }

    predicate Valid() {
      luma.dc.Valid() && luma.ac.Valid() && chroma.dc.Valid() && chroma.ac.Valid()
    }

    ghost predicate Good() {
      DcPair(luma.dcT, luma.dc) && AcPair(luma.acT, luma.ac) &&
      DcPair(chroma.dcT, chroma.dc) && AcPair(chroma.acT, chroma.ac)
    }
  }

  ghost function UnitsBits(cs: Coders, units: seq<Unit>): seq<bool>
    requires cs.Valid() && Codable(units)
  {
    if units == [] then []
    else
      var before, u := units[..|units| - 1], units[|units| - 1];
      PredInRange(before, u.c);
      UnitsBits(cs, before) + EncodeBlock(cs.Of(u.c).dc, cs.Of(u.c).ac, u.zz, Pred(before, u.c))
  }

  // --- decoding them again ------------------------------------------------------------------

  /** A decoder that finds these tables for the three components. */
  ghost predicate OutputTables(hdr: Header, cs: Coders) {
    hdr.Valid() && |hdr.frame.comps| == 3 &&
    forall c :: 0 <= c < 3 ==>
      hdr.dc[hdr.frame.comps[c].td] == cs.Of(c).dcT && hdr.ac[hdr.frame.comps[c].ta] == cs.Of(c).acT
  }

  function Comps(units: seq<Unit>): (cs: seq<nat>)
    ensures |cs| == |units| && forall k :: 0 <= k < |cs| ==> cs[k] == units[k].c
  {
    seq(|units|, k requires 0 <= k < |units| => units[k].c)
  }

  function Blocks(units: seq<Unit>): (bs: seq<Block>)
    ensures |bs| == |units|
  {
    seq(|units|, k requires 0 <= k < |units| => units[k].zz)
  }

  function Preds(units: seq<Unit>): (ps: seq<int>)
    ensures |ps| == 3
  {
    [Pred(units, 0), Pred(units, 1), Pred(units, 2)]
  }

  /** One more block of the sequence. */
  lemma DecodeOneMore(hdr: Header, sc: Scan, of: seq<nat>, c: nat, s: seq<bool>, tail: seq<byte>, preds: seq<int>,
                      bs: seq<Block>, zz: Block, rest: seq<bool>)
    requires hdr.Valid() && |sc.preds| == 3 && |preds| == 3 && c < |hdr.frame.comps|
    requires forall k :: 0 <= k < |of| ==> of[k] < |hdr.frame.comps|
    requires Leaves(DecodeUnits(hdr, sc, of), s, tail, preds, bs)
    requires DecodeBlock(hdr.dc[hdr.frame.comps[c].td], hdr.ac[hdr.frame.comps[c].ta], s, preds[c]) == Ok(zz, rest)
    ensures Leaves(DecodeUnits(hdr, sc, of + [c]), rest, tail, preds[c := zz[0]], bs + [zz])
  {
    hide DecodeBlock, LastRead;
    assert (of + [c])[..|of|] == of;
  }

  lemma CompsPrefix(units: seq<Unit>)
    requires units != []
    ensures var n := |units| - 1;
            Comps(units) == Comps(units[..n]) + [units[n].c] &&
            Blocks(units) == Blocks(units[..n]) + [units[n].zz] &&
            (units[n].c < 3 ==> Preds(units) == Preds(units[..n])[units[n].c := units[n].zz[0]])
  {
  }

  lemma BlockOfUnit(hdr: Header, cs: Coders, u: Unit, pred: int, rest: seq<bool>)
    requires OutputTables(hdr, cs) && cs.Valid() && cs.Good() && u.c < 3 && InRange(u.zz) && -1024 <= pred <= 1023
    ensures var comp := hdr.frame.comps[u.c];
            DecodeBlock(hdr.dc[comp.td], hdr.ac[comp.ta],
                        EncodeBlock(cs.Of(u.c).dc, cs.Of(u.c).ac, u.zz, pred) + rest, pred) == Ok(u.zz, rest)
  {
    hide EncodeBlock, DecodeBlock, DcPair, AcPair, Paired, BlockHas, InRange;
    var comp := hdr.frame.comps[u.c];
    PairsHave(hdr.dc[comp.td], cs.Of(u.c).dc, hdr.ac[comp.ta], cs.Of(u.c).ac, u.zz, pred);
    BlockRoundTrip(hdr.dc[comp.td], cs.Of(u.c).dc, hdr.ac[comp.ta], cs.Of(u.c).ac, u.zz, pred, rest);
  }

  lemma OneMoreUnit(hdr: Header, cs: Coders, sc: Scan, of: seq<nat>, u: Unit, tail: seq<byte>, preds: seq<int>,
                    bs: seq<Block>, rest: seq<bool>)
    requires OutputTables(hdr, cs) && cs.Valid() && cs.Good() && |sc.preds| == 3 && |preds| == 3
    requires u.c < 3 && InRange(u.zz) && -1024 <= preds[u.c] <= 1023
    requires forall k :: 0 <= k < |of| ==> of[k] < 3
    requires Leaves(DecodeUnits(hdr, sc, of),
                    EncodeBlock(cs.Of(u.c).dc, cs.Of(u.c).ac, u.zz, preds[u.c]) + rest, tail, preds, bs)
    ensures Leaves(DecodeUnits(hdr, sc, of + [u.c]), rest, tail, preds[u.c := u.zz[0]], bs + [u.zz])
  {
    hide EncodeBlock, DecodeBlock, Coders.Good, InRange, DecodeUnits;
    BlockOfUnit(hdr, cs, u, preds[u.c], rest);
    DecodeOneMore(hdr, sc, of, u.c, EncodeBlock(cs.Of(u.c).dc, cs.Of(u.c).ac, u.zz, preds[u.c]) + rest, tail,
                  preds, bs, u.zz, rest);
  }

  lemma LastUnit(cs: Coders, units: seq<Unit>)
    requires cs.Valid() && Codable(units) && units != []
    ensures var before, u := units[..|units| - 1], units[|units| - 1];
            u.c < 3 && InRange(u.zz) && Codable(before) && -1024 <= Pred(before, u.c) <= 1023 &&
            UnitsBits(cs, units) ==
            UnitsBits(cs, before) + EncodeBlock(cs.Of(u.c).dc, cs.Of(u.c).ac, u.zz, Pred(before, u.c))
  {
    PredInRange(units[..|units| - 1], units[|units| - 1].c);
  }

  /** Decoding the bits of a block sequence gives back every block and predictor. */
  lemma {:induction false} UnitsRoundTrip(hdr: Header, cs: Coders, units: seq<Unit>, rest: seq<bool>, tail: seq<byte>)
    requires OutputTables(hdr, cs) && cs.Valid() && cs.Good() && Codable(units)
    ensures Leaves(DecodeUnits(hdr, Scan(UnitsBits(cs, units) + rest, tail, [0, 0, 0], 0), Comps(units)),
                   rest, tail, Preds(units), Blocks(units))
    decreases |units|
  {
    if units == [] {
      assert UnitsBits(cs, units) + rest == rest;
    } else {
      LastUnit(cs, units);
      CompsPrefix(units);
      hide EncodeBlock, DecodeBlock, Coders.Good, Coders.Valid, InRange, DecodeUnits, UnitsBits, Codable, OutputTables,
           Comps, Blocks, Preds, Pred;
      var before, u := units[..|units| - 1], units[|units| - 1];
      var p := Pred(before, u.c);
      var code := EncodeBlock(cs.Of(u.c).dc, cs.Of(u.c).ac, u.zz, p);
      ConcatAssoc(UnitsBits(cs, before), code, rest);
      UnitsRoundTrip(hdr, cs, before, code + rest, tail);
      PredsAt(before, u.c);
      OneMoreUnit(hdr, cs, Scan(UnitsBits(cs, units) + rest, tail, [0, 0, 0], 0), Comps(before), u, tail,
                  Preds(before), Blocks(before), rest);
    }
  }

  lemma PredsAt(units: seq<Unit>, c: nat)
    requires c < 3
    ensures Preds(units)[c] == Pred(units, c)
  {
  }
}
