/** The decoder's scan: MCUs of blocks, with restart intervals, and the planes they fill. */
module ScanSpec {
  import opened Bits
  import opened Huffman
  import opened ByteStuffing
  import opened BitReading
  import opened BlockCodec
  import opened BlockCoding
  import opened FrameGeometry
  import opened Planes

  /** The parsed headers. Huffman tables not in the file are Absent; qt is in zigzag order. */
  datatype Header = Header(frame: Frame, restart: nat, qt: seq<seq<nat>>, dc: seq<Table>, ac: seq<Table>) {
    predicate Valid() {
      frame.Valid() && |qt| == 4 && |dc| == 4 && |ac| == 4 &&
      (forall i :: 0 <= i < 4 ==> |qt[i]| == 64) &&
      (forall i :: 0 <= i < 4 ==> dc[i].Valid()) &&
      (forall i :: 0 <= i < 4 ==> ac[i].Valid()) &&
      (forall i :: 0 <= i < |frame.comps| ==> frame.comps[i].tq < 4 && frame.comps[i].td < 4 && frame.comps[i].ta < 4)
    }
  }

  /** The transforms taken as given: natural-order coefficients to samples (the flag asks for the
      block's mean only), and samples to quantised coefficients (luma or chroma). */
  datatype Transforms = Transforms(idct: (seq<int>, bool) -> seq<byte>, fdct: (seq<byte>, bool) -> Block)

  ghost predicate Sound(tr: Transforms) {
    (forall c, flat :: |tr.idct(c, flat)| == 64) &&
    (forall s, chroma :: InRange(tr.fdct(s, chroma)))
  }

  lemma SoundExists() returns (tr: Transforms)
    ensures Sound(tr)
  {
    var samples: seq<byte>, zz: Block := seq(64, _ => 0), seq(64, _ => 0);
    tr := Transforms((c, flat) => samples, (s, chroma) => zz);
    assert InRange(zz);
  }

  /** Where a decoder stands between blocks: the segment's remaining bits, the data after it, the DC
      predictors, and how many bits it read last. */
  datatype Scan = Scan(rest: seq<bool>, tail: seq<byte>, preds: seq<int>, last: nat)

  datatype Run = Run(scan: Scan, blocks: seq<Block>) | Bad

  /** The decoder is past these blocks and has this before it. */
  predicate Leaves(r: Run, rest: seq<bool>, tail: seq<byte>, preds: seq<int>, bs: seq<Block>) {
    r.Run? && r.scan.rest == rest && r.scan.tail == tail && r.scan.preds == preds && r.blocks == bs
  }

  /** The component of each block of an MCU, in decoding order. */
  function Units(comps: seq<Component>): (u: seq<nat>)
    ensures forall n :: 0 <= n < |u| ==> u[n] < |comps|
  {
    if comps == [] then []
    else
      var i := |comps| - 1;
      Units(comps[..i]) + seq(comps[i].h * comps[i].v, _ => i)
  }

  /** Blocks of the components before component i. */
  function FirstUnit(comps: seq<Component>, i: nat): nat
    requires i <= |comps|
  {
    |Units(comps[..i])|
  }

  function DecodeUnits(hdr: Header, sc: Scan, cs: seq<nat>): (r: Run)
    requires hdr.Valid() && |sc.preds| == 3
    requires forall n :: 0 <= n < |cs| ==> cs[n] < |hdr.frame.comps|
    ensures r.Run? ==> |r.blocks| == |cs| && |r.scan.preds| == 3
  {
    if cs == [] then Run(sc, [])
    else
      var n := |cs| - 1;
      match DecodeUnits(hdr, sc, cs[..n])
      case Bad => Bad
      case Run(s, bs) =>
        var c := hdr.frame.comps[cs[n]];
        match DecodeBlock(hdr.dc[c.td], hdr.ac[c.ta], s.rest, s.preds[cs[n]])
        case Corrupt => Bad
        case Ok(zz, r) =>
          var last := LastRead(hdr.dc[c.td], hdr.ac[c.ta], s.rest, s.preds[cs[n]]);
          Run(Scan(r, s.tail, s.preds[cs[n] := zz[0]], last), bs + [zz])
  }

  /** A restart marker comes before every hdr.restart-th MCU but the first. */
  predicate RestartDue(hdr: Header, m: nat) {
    hdr.restart > 0 && m > 0 && m % hdr.restart == 0
  }

  function BeforeMcu(hdr: Header, sc: Scan, m: nat): (r: Run)
    requires |sc.preds| == 3
    ensures r.Run? ==> |r.scan.preds| == 3
  {
    if !RestartDue(hdr, m) then Run(sc, [])
    else if AfterRst(sc.tail) == [] then Bad
    else Run(Scan(BytesBits(Unstuff(AfterRst(sc.tail)[0])), Tail(AfterRst(sc.tail)[0]), [0, 0, 0], 0), [])
  }

  /** MCU m, counted from the start of the scan. */
  function McuAt(hdr: Header, sc: Scan, m: nat): (r: Run)
    requires hdr.Valid() && |sc.preds| == 3
    ensures r.Run? ==> |r.blocks| == |Units(hdr.frame.comps)| && |r.scan.preds| == 3
    decreases m, 1
  {
    match ScanAt(hdr, sc, m)
    case Bad => Bad
    case Run(s, _) =>
      match BeforeMcu(hdr, s, m)
      case Bad => Bad
      case Run(s', _) => DecodeUnits(hdr, s', Units(hdr.frame.comps))
  }

  /** The decoder after m MCUs. */
  function ScanAt(hdr: Header, sc: Scan, m: nat): (r: Run)
    requires hdr.Valid() && |sc.preds| == 3
    ensures r.Run? ==> |r.scan.preds| == 3
    decreases m, 0
  {
    if m == 0 then Run(sc, [])
    else match McuAt(hdr, sc, m - 1)
      case Bad => Bad
      case Run(s, _) => Run(s, [])
  }

  lemma {:induction false} BadStaysBad(hdr: Header, sc: Scan, m: nat, n: nat)
    requires hdr.Valid() && |sc.preds| == 3 && m <= n && ScanAt(hdr, sc, m).Bad?
    ensures ScanAt(hdr, sc, n).Bad?
  {
    hide DecodeUnits, Units, BeforeMcu, Header.Valid;
    if m < n { BadStaysBad(hdr, sc, m, n - 1); }
  }

  lemma {:induction false} UnitsBad(hdr: Header, sc: Scan, cs: seq<nat>, n: nat)
    requires hdr.Valid() && |sc.preds| == 3 && n <= |cs|
    requires forall k :: 0 <= k < |cs| ==> cs[k] < |hdr.frame.comps|
    requires DecodeUnits(hdr, sc, cs[..n]).Bad?
    ensures DecodeUnits(hdr, sc, cs).Bad?
    decreases |cs|
  {
    if n < |cs| {
      var cs' := cs[..|cs| - 1];
      assert cs'[..n] == cs[..n];
      UnitsBad(hdr, sc, cs', n);
    } else {
      assert cs[..n] == cs;
    }
  }

  lemma {:induction false} UnitsSplit(comps: seq<Component>, i: nat)
    requires i < |comps|
    ensures FirstUnit(comps, i + 1) == FirstUnit(comps, i) + comps[i].h * comps[i].v <= |Units(comps)|
    ensures forall n :: FirstUnit(comps, i) <= n < FirstUnit(comps, i + 1) ==> Units(comps)[n] == i
    decreases |comps|
  {
    var k := |comps| - 1;
    assert comps[..k + 1] == comps;
    assert comps[..i + 1][..i] == comps[..i];
    if i < k {
      UnitsSplit(comps[..k], i);
      assert comps[..k][..i] == comps[..i] && comps[..k][..i + 1] == comps[..i + 1];
    }
  }

  // --- planes ----------------------------------------------------------------------------

  ghost predicate PlanesShaped(f: Frame, planes: seq<seq<byte>>) {
    |planes| == |f.comps| &&
    forall i :: 0 <= i < |planes| ==> Shaped(planes[i], f.Stride(i), f.PlaneRows(i))
  }

  /** The block's place in its plane: column and row of its top left sample. */
  function BlockX(f: Frame, mx: nat, c: nat, l: nat): nat
    requires c < |f.comps| && f.comps[c].h > 0
  {
    (mx * f.comps[c].h + l % f.comps[c].h) * 8
  }

  function BlockY(f: Frame, c: nat, l: nat): nat
    requires c < |f.comps| && f.comps[c].h > 0
  {
    l / f.comps[c].h * 8
  }

  /** Block l of component c in MCU column mx fits its plane. */
  lemma BlockFits(f: Frame, mx: nat, c: nat, l: nat)
    requires f.Valid() && c < |f.comps| && mx < f.McusX() && l < f.comps[c].h * f.comps[c].v
    ensures BlockX(f, mx, c, l) + 8 <= f.Stride(c) && BlockY(f, c, l) + 8 <= f.PlaneRows(c)
  {
    hide Frame.McusX, CeilDiv, HMax;
    var h, v := f.comps[c].h, f.comps[c].v;
    FitsArith(mx, f.McusX(), h, l % h);
    QuotientBelow(l, h, v);
  }

  lemma FitsArith(mx: nat, n: nat, h: nat, r: nat)
    requires mx < n && r < h
    ensures mx * h + r + 1 <= n * h
  {
    MulGrows(n - mx, h);
    MulDistrib(n, mx, h);
  }

  lemma QuotientBelow(l: nat, h: nat, v: nat)
    requires h > 0 && l < h * v
    ensures l / h < v
  {
    assert l == (l / h) * h + l % h;
    MulDistrib(l / h, v, h);
    if l / h >= v {
      MulNonNeg(l / h - v, h);
    }
  }

  lemma MulNonNeg(a: nat, b: nat)
    ensures a * b >= 0
  {
  }

  /** The planes once the first n blocks of MCU column mx are stored. */
  ghost function StoreUnits(hdr: Header, tr: Transforms, flat: bool, mx: nat, planes: seq<seq<byte>>,
                            blocks: seq<Block>, n: nat): (r: seq<seq<byte>>)
    requires hdr.Valid() && Sound(tr) && PlanesShaped(hdr.frame, planes) && mx < hdr.frame.McusX()
    requires n <= |blocks| && n <= |Units(hdr.frame.comps)|
    ensures PlanesShaped(hdr.frame, r)
  {
    if n == 0 then planes
    else
      var f := hdr.frame;
      var p := StoreUnits(hdr, tr, flat, mx, planes, blocks, n - 1);
      var c := Units(f.comps)[n - 1];
      UnitLocal(f.comps, n - 1);
      var l := n - 1 - FirstUnit(f.comps, c);
      BlockFits(f, mx, c, l);
      p[c := Store(p[c], f.Stride(c), f.PlaneRows(c), BlockX(f, mx, c, l), BlockY(f, c, l),
                   tr.idct(Natural(blocks[n - 1], hdr.qt[f.comps[c].tq]), flat), 8)]
  }

  lemma {:induction false} UnitLocal(comps: seq<Component>, n: nat)
    requires n < |Units(comps)|
    ensures var c := Units(comps)[n];
            c < |comps| && FirstUnit(comps, c) <= n < FirstUnit(comps, c) + comps[c].h * comps[c].v
    decreases |comps|
  {
    var k := |comps| - 1;
    var c := Units(comps)[n];
    if n < |Units(comps[..k])| {
      UnitLocal(comps[..k], n);
      assert comps[..k][..c] == comps[..c];
    }
  }

  /** A band is decoded to samples only if it overlaps the crop's rows. */
  predicate Needed(f: Frame, v: View, my: nat) {
    Min(my * f.BandH() + f.BandH(), f.height) > v.y0 && my * f.BandH() < v.y1
  }

  /** The planes once the first mx MCUs of band my are stored. */
  ghost function StoreBand(hdr: Header, tr: Transforms, flat: bool, sc: Scan, my: nat, mx: nat,
                           planes: seq<seq<byte>>): (r: seq<seq<byte>>)
    requires hdr.Valid() && Sound(tr) && |sc.preds| == 3 && PlanesShaped(hdr.frame, planes)
    requires mx <= hdr.frame.McusX()
    ensures PlanesShaped(hdr.frame, r)
  {
    if mx == 0 then planes
    else
      var p := StoreBand(hdr, tr, flat, sc, my, mx - 1, planes);
      match McuAt(hdr, sc, my * hdr.frame.McusX() + mx - 1)
      case Bad => p
      case Run(_, blocks) => StoreUnits(hdr, tr, flat, mx - 1, p, blocks, |blocks|)
  }

  /** The planes after the first my bands. */
  ghost function PlanesAfter(hdr: Header, tr: Transforms, v: View, sc: Scan, my: nat,
                             planes: seq<seq<byte>>): (r: seq<seq<byte>>)
    requires hdr.Valid() && Sound(tr) && |sc.preds| == 3 && PlanesShaped(hdr.frame, planes)
    ensures PlanesShaped(hdr.frame, r)
  {
    if my == 0 then planes
    else
      var p := PlanesAfter(hdr, tr, v, sc, my - 1, planes);
      if Needed(hdr.frame, v, my - 1) then
        StoreBand(hdr, tr, v.div == 8, sc, my - 1, hdr.frame.McusX(), p)
      else p
  }

  // --- output rows ----------------------------------------------------------------------

  /** Sample ox of component c in output row oy, from the planes of its band. */
  function Sample(f: Frame, v: View, planes: seq<seq<byte>>, oy: nat, c: nat, ox: nat): byte
    requires f.Valid() && v.Valid(f) && oy < v.OutH() && ox < v.OutW()
    requires |planes| == |f.comps|
    requires forall i :: 0 <= i < |planes| ==> Shaped(planes[i], f.Stride(i), f.PlaneRows(i))
  {
    if c < |f.comps| then
      BoxInPlane(f, v, c, ox, oy);
      var y0 := BandOf(f, v, oy) * f.BandH();
      BoxAvg(planes[c], f.Stride(c), f.PlaneRows(c), Cx0(f, c, v.Sx0(ox)), Cx1(f, c, v.Sx1(ox)),
             Cy0(f, c, v.Sy0(oy) - y0), Cy1(f, c, v.Sy1(oy) - y0))
    else 128 // grayscale input: neutral chroma
  }

  /** One output row: three components of OutW samples. */
  ghost predicate IsRow(f: Frame, v: View, planes: seq<seq<byte>>, oy: nat, row: seq<seq<byte>>)
    requires f.Valid() && v.Valid(f) && oy < v.OutH() && PlanesShaped(f, planes)
  {
    |row| == 3 &&
    (forall c :: 0 <= c < 3 ==> |row[c]| == v.OutW()) &&
    forall c, ox :: 0 <= c < 3 && 0 <= ox < v.OutW() ==> row[c][ox] == Sample(f, v, planes, oy, c, ox)
  }
}
