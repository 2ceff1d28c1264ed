/** The decoder of jpeg.c: MCUs into the band's planes. */
module McuDecoding {
  import opened Bits
  import opened Huffman
  import opened ByteStuffing
  import opened BitReading
  import opened BlockCodec
  import opened BlockCoding
  import opened FrameGeometry
  import opened Planes
  import opened ScanSpec

  lemma StorePrefix(hdr: Header, tr: Transforms, flat: bool, mx: nat, planes: seq<seq<byte>>, blocks: seq<Block>, b: Block, n: nat)
    requires hdr.Valid() && Sound(tr) && PlanesShaped(hdr.frame, planes) && mx < hdr.frame.McusX()
    requires n <= |blocks| && n <= |Units(hdr.frame.comps)|
    ensures StoreUnits(hdr, tr, flat, mx, planes, blocks + [b], n) == StoreUnits(hdr, tr, flat, mx, planes, blocks, n)
  {
    if n > 0 {
      StorePrefix(hdr, tr, flat, mx, planes, blocks, b, n - 1);
    }
  }

  class Decoder {
    const rd: BitReader
    const hdr: Header
    const dc: seq<Huff>
    const ac: seq<Huff>
    const planes: seq<array<byte>>
    const tr: Transforms
    var pred: seq<int>

    ghost predicate TableReady(i: nat)
      requires hdr.Valid() && |dc| == 4 && |ac| == 4 && i < |hdr.frame.comps|
      reads dc, ac
    {
      var c := hdr.frame.comps[i];
      dc[c.td].Ready() && dc[c.td].table == hdr.dc[c.td] &&
      ac[c.ta].Ready() && ac[c.ta].table == hdr.ac[c.ta]
    }

    ghost predicate PlanesReady()
      requires hdr.Valid()
    {
      |planes| == |hdr.frame.comps| &&
      (forall i :: 0 <= i < |planes| ==> planes[i].Length == hdr.frame.PlaneRows(i) * hdr.frame.Stride(i)) &&
      (forall i :: 0 <= i < |planes| ==> planes[i] != rd.data) &&
      (forall i, j :: 0 <= i < j < |planes| ==> planes[i] != planes[j])
    }

    ghost predicate Valid()
      reads this, rd, rd.data, dc, ac
    {
      hdr.Valid() && Sound(tr) && rd.Valid() && |pred| == 3 && |dc| == 4 && |ac| == 4 &&
      (forall i :: 0 <= i < |hdr.frame.comps| ==> TableReady(i)) &&
      PlanesReady()
    }

    ghost function Here(): (sc: Scan)
      reads this, rd
    {
      Scan(rd.rest, rd.tail, pred, rd.last)
    }

    ghost function PlaneSeqs(): (p: seq<seq<byte>>)
      reads planes
      ensures |p| == |planes| && forall i :: 0 <= i < |planes| ==> p[i] == planes[i][..]
    {
      seq(|planes|, i requires 0 <= i < |planes| reads planes => planes[i][..])
    }

    constructor (rd: BitReader, hdr: Header, dc: seq<Huff>, ac: seq<Huff>, planes: seq<array<byte>>, tr: Transforms)
      ensures this.rd == rd && this.hdr == hdr && this.dc == dc && this.ac == ac && this.planes == planes && this.tr == tr
      ensures pred == [0, 0, 0]
    {
      this.rd, this.hdr, this.dc, this.ac, this.planes, this.tr := rd, hdr, dc, ac, planes, tr;
      pred := [0, 0, 0];
    }

    /** The MCU's first n blocks are decoded. */
    ghost predicate Decoded(sc: Scan, blocks: seq<Block>, n: nat)
      reads this, rd, rd.data, dc, ac
    {
      Valid() && |sc.preds| == 3 && n <= |Units(hdr.frame.comps)| && |blocks| == n &&
      DecodeUnits(hdr, sc, Units(hdr.frame.comps)[..n]) == Run(Here(), blocks)
    }

    /** They are stored, if needed. */
    ghost predicate Stored(blocks: seq<Block>, n: nat, needed: bool, flat: bool, mx: nat, p0: seq<seq<byte>>)
      requires hdr.Valid() && Sound(tr)
      reads planes
    {
      mx < hdr.frame.McusX() && PlanesShaped(hdr.frame, p0) && n <= |Units(hdr.frame.comps)| && n <= |blocks| &&
      PlaneSeqs() == if needed then StoreUnits(hdr, tr, flat, mx, p0, blocks, n) else p0
    }

    /** decode_block for the n-th block of the MCU, of component i. */
    method DecodeNext(i: nat, blk: array?<int>, ghost sc: Scan, ghost blocks: seq<Block>, ghost n: nat)
      returns (ok: bool, ghost zz: Block)
      requires Decoded(sc, blocks, n) && n < |Units(hdr.frame.comps)|
      requires i < |hdr.frame.comps| && Units(hdr.frame.comps)[n] == i
      requires blk != null ==> blk.Length == 64
      modifies this`pred, rd, if blk == null then {} else {blk}
      ensures rd.p >= old(rd.p) && rd.Valid() && Valid()
      ensures ok ==> Decoded(sc, blocks + [zz], n + 1)
      ensures ok && blk != null ==> blk[..] == Natural(zz, hdr.qt[hdr.frame.comps[i].tq])
      ensures !ok ==> DecodeUnits(hdr, sc, Units(hdr.frame.comps)).Bad?
    {
      hide DecodeBlock, LastRead, BitReader.Valid, Units, Natural, HMax, VMax;
      var c := hdr.frame.comps[i];
      assert TableReady(i);
      ghost var here := Here();
      ghost var cs := Units(hdr.frame.comps)[..n + 1];
      assert cs[..n] == Units(hdr.frame.comps)[..n];
      var p;
      ok, p := DecodeInto(rd, dc[c.td], ac[c.ta], pred[i], hdr.qt[c.tq], blk);
      if !ok {
        UnitsBad(hdr, sc, Units(hdr.frame.comps), n + 1);
        zz := Start(0);
        return;
      }
      zz := DecodeBlock(hdr.dc[c.td], hdr.ac[c.ta], here.rest, here.preds[i]).value;
      pred := pred[i := p];
    }

    /** idct_store for block l of component i, the n-th of the MCU. */
    method StoreNext(i: nat, l: nat, mx: nat, flat: bool, blk: array<int>,
                     ghost blocks: seq<Block>, ghost zz: Block, ghost n: nat, ghost p0: seq<seq<byte>>)
      requires hdr.Valid() && Sound(tr) && PlanesReady() && |blocks| == n && Stored(blocks, n, true, flat, mx, p0)
      requires n < |Units(hdr.frame.comps)|
      requires i < |hdr.frame.comps| && Units(hdr.frame.comps)[n] == i && l + FirstUnit(hdr.frame.comps, i) == n
      requires l < hdr.frame.comps[i].h * hdr.frame.comps[i].v && blk.Length == 64
      requires blk[..] == Natural(zz, hdr.qt[hdr.frame.comps[i].tq])
      modifies planes
      ensures Stored(blocks + [zz], n + 1, true, flat, mx, p0)
    {
      hide Units, Natural, Store, FirstUnit, HMax, VMax;
      ghost var before := PlaneSeqs();
      BlockFits(hdr.frame, mx, i, l);
      StorePrefix(hdr, tr, flat, mx, p0, blocks, zz, n);
      assert (blocks + [zz])[n] == zz;
      StoreBlock(planes[i], hdr.frame.Stride(i), hdr.frame.PlaneRows(i), BlockX(hdr.frame, mx, i, l),
                 BlockY(hdr.frame, i, l), tr.idct(blk[..], flat));
      assert PlaneSeqs() == before[i := planes[i][..]];
    }

    /** Block l of component i, the n-th of the MCU. */
    method DecodeBlockAt(i: nat, l: nat, mx: nat, needed: bool, flat: bool, blk: array<int>,
                         ghost sc: Scan, ghost blocks: seq<Block>, ghost n: nat, ghost p0: seq<seq<byte>>)
      returns (ok: bool, ghost blocks': seq<Block>)
      requires Decoded(sc, blocks, n) && Stored(blocks, n, needed, flat, mx, p0) && blk.Length == 64
      requires n < |Units(hdr.frame.comps)| && i < |hdr.frame.comps| && Units(hdr.frame.comps)[n] == i
      requires l + FirstUnit(hdr.frame.comps, i) == n < FirstUnit(hdr.frame.comps, i + 1)
      modifies this`pred, rd, blk, planes
      ensures rd.p >= old(rd.p) && Valid()
      ensures ok ==> Decoded(sc, blocks', n + 1) && Stored(blocks', n + 1, needed, flat, mx, p0)
      ensures !ok ==> DecodeUnits(hdr, sc, Units(hdr.frame.comps)).Bad?
    {
      hide DecodeUnits, Units, Natural, StoreUnits, Buffered, FirstUnit, HMax, VMax;
      ghost var zz;
      ok, zz := DecodeNext(i, if needed then blk else null, sc, blocks, n);
      blocks' := blocks + [zz];
      if ok && needed {
        UnitsSplit(hdr.frame.comps, i);
        StoreNext(i, l, mx, flat, blk, blocks, zz, n, p0);
      }
    }

    /** A row of component i's blocks: h of them, from block l on. */
    method DecodeRow(i: nat, l: nat, mx: nat, needed: bool, flat: bool, blk: array<int>,
                     ghost sc: Scan, ghost before: seq<Block>, ghost p0: seq<seq<byte>>)
      returns (ok: bool, ghost blocks: seq<Block>)
      requires i < |hdr.frame.comps| && blk.Length == 64
      requires FirstUnit(hdr.frame.comps, i) + l + hdr.frame.comps[i].h <= FirstUnit(hdr.frame.comps, i + 1)
      requires Decoded(sc, before, FirstUnit(hdr.frame.comps, i) + l)
      requires Stored(before, FirstUnit(hdr.frame.comps, i) + l, needed, flat, mx, p0)
      modifies this`pred, rd, blk, planes
      ensures rd.p >= old(rd.p) && Valid()
      ensures ok ==> Decoded(sc, blocks, FirstUnit(hdr.frame.comps, i) + l + hdr.frame.comps[i].h)
      ensures ok ==> Stored(blocks, FirstUnit(hdr.frame.comps, i) + l + hdr.frame.comps[i].h, needed, flat, mx, p0)
      ensures !ok ==> DecodeUnits(hdr, sc, Units(hdr.frame.comps)).Bad?
    {
      hide DecodeUnits, Units, FirstUnit, Stored, StoreUnits, HMax, VMax, Buffered;
      UnitsOf(hdr.frame.comps, i);
      ghost var first := FirstUnit(hdr.frame.comps, i);
      blocks := before;
      for hx := 0 to hdr.frame.comps[i].h
        invariant Valid() && rd.p >= old(rd.p)
        invariant Decoded(sc, blocks, first + l + hx) && Stored(blocks, first + l + hx, needed, flat, mx, p0)
      {
        ok, blocks := DecodeBlockAt(i, l + hx, mx, needed, flat, blk, sc, blocks, first + l + hx, p0);
        if !ok {
          return;
        }
      }
      ok := true;
    }

    /** All of component i's blocks in the MCU. */
    method DecodeComponent(i: nat, mx: nat, needed: bool, flat: bool, blk: array<int>,
                           ghost sc: Scan, ghost before: seq<Block>, ghost p0: seq<seq<byte>>)
      returns (ok: bool, ghost blocks: seq<Block>)
      requires i < |hdr.frame.comps| && blk.Length == 64 && Decoded(sc, before, FirstUnit(hdr.frame.comps, i))
      requires Stored(before, FirstUnit(hdr.frame.comps, i), needed, flat, mx, p0)
      modifies this`pred, rd, blk, planes
      ensures rd.p >= old(rd.p) && Valid()
      ensures ok ==> Decoded(sc, blocks, FirstUnit(hdr.frame.comps, i + 1))
      ensures ok ==> Stored(blocks, FirstUnit(hdr.frame.comps, i + 1), needed, flat, mx, p0)
      ensures |sc.preds| == 3 && (!ok ==> DecodeUnits(hdr, sc, Units(hdr.frame.comps)).Bad?)
    {
      hide DecodeUnits, Units, FirstUnit, Stored, StoreUnits, HMax, VMax, Buffered;
      var h, v := hdr.frame.comps[i].h, hdr.frame.comps[i].v;
      UnitsSplit(hdr.frame.comps, i);
      MulCommutes(v, h);
      ghost var first := FirstUnit(hdr.frame.comps, i);
      blocks := before;
      for vy := 0 to v
        invariant Valid() && rd.p >= old(rd.p)
        invariant Decoded(sc, blocks, first + vy * h) && Stored(blocks, first + vy * h, needed, flat, mx, p0)
      {
        BlockRow(vy, v, h);
        ok, blocks := DecodeRow(i, vy * h, mx, needed, flat, blk, sc, blocks, p0);
        if !ok {
          return;
        }
      }
      ok := true;
    }

    static lemma UnitsOf(comps: seq<Component>, i: nat)
      requires i < |comps|
      ensures FirstUnit(comps, i + 1) <= |Units(comps)|
      ensures forall n :: FirstUnit(comps, i) <= n < FirstUnit(comps, i + 1) ==> Units(comps)[n] == i
    {
      UnitsSplit(comps, i);
    }

    static lemma BlockRow(vy: nat, v: nat, h: nat)
      requires vy < v
      ensures vy * h + h <= h * v && (vy + 1) * h == vy * h + h
    {
      MulGrows(v - vy, h);
      MulDistrib(v, vy, h);
    }

    /** One MCU: every component's blocks in order. */
    method DecodeMcu(mx: nat, needed: bool, flat: bool, blk: array<int>) returns (ok: bool, ghost blocks: seq<Block>)
      requires Valid() && mx < hdr.frame.McusX() && blk.Length == 64
      modifies this`pred, rd, blk, planes
      ensures rd.p >= old(rd.p) && Valid()
      ensures match DecodeUnits(hdr, old(Here()), Units(hdr.frame.comps))
              case Bad => !ok
              case Run(s, bs) => ok && Here() == s && blocks == bs
      ensures PlanesShaped(hdr.frame, old(PlaneSeqs()))
      ensures ok ==> |blocks| == |Units(hdr.frame.comps)|
      ensures ok && needed ==> PlaneSeqs() == StoreUnits(hdr, tr, flat, mx, old(PlaneSeqs()), blocks, |blocks|)
      ensures ok && !needed ==> PlaneSeqs() == old(PlaneSeqs())
    {
      hide DecodeBlock, StoreUnits, Buffered, HMax, VMax;
      ghost var sc, p0 := Here(), PlaneSeqs();
      blocks := [];
      ok := true;
      assert Units(hdr.frame.comps)[..0] == [] && hdr.frame.comps[..0] == [];
      StoreNone(hdr, tr, flat, mx, p0);
      for i := 0 to |hdr.frame.comps|
        invariant Decoded(sc, blocks, FirstUnit(hdr.frame.comps, i))
        invariant Stored(blocks, FirstUnit(hdr.frame.comps, i), needed, flat, mx, p0)
        invariant rd.p >= old(rd.p)
      {
        ok, blocks := DecodeComponent(i, mx, needed, flat, blk, sc, blocks, p0);
        if !ok {
          return;
        }
      }
      assert hdr.frame.comps[..|hdr.frame.comps|] == hdr.frame.comps;
      assert Units(hdr.frame.comps)[..|Units(hdr.frame.comps)|] == Units(hdr.frame.comps);
      ok := true;
    }

    static lemma StoreNone(hdr: Header, tr: Transforms, flat: bool, mx: nat, p0: seq<seq<byte>>)
      requires hdr.Valid() && Sound(tr) && PlanesShaped(hdr.frame, p0) && mx < hdr.frame.McusX()
      ensures StoreUnits(hdr, tr, flat, mx, p0, [], 0) == p0
    {
    }

    /** The restart marker due before MCU m, if any. */
    method RestartIfDue(m: nat) returns (ok: bool)
      requires Valid()
      modifies this`pred, rd
      ensures rd.p >= old(rd.p)
      ensures match BeforeMcu(hdr, old(Here()), m)
              case Bad => !ok
              case Run(s, _) => ok && Valid() && Here() == s
    {
      hide Buffered, HMax, VMax, AfterRst, BytesBits, Unstuff, Tail;
      ok := true;
      if hdr.restart > 0 && m > 0 && m % hdr.restart == 0 {
        ok := rd.Restart();
        pred := [0, 0, 0];
      }
    }

    /** MCU m of the scan that began at sc, in column mx of its band. */
    method McuStep(m: nat, mx: nat, needed: bool, flat: bool, blk: array<int>, ghost sc: Scan)
      returns (ok: bool, ghost blocks: seq<Block>)
      requires Valid() && mx < hdr.frame.McusX() && blk.Length == 64
      requires |sc.preds| == 3 && ScanAt(hdr, sc, m) == Run(Here(), [])
      modifies this`pred, rd, blk, planes
      ensures rd.p >= old(rd.p) && PlanesShaped(hdr.frame, old(PlaneSeqs()))
      ensures match McuAt(hdr, sc, m)
              case Bad => !ok
              case Run(s, bs) => ok && Valid() && Here() == s && blocks == bs
      ensures ok && needed ==> |blocks| == |Units(hdr.frame.comps)|
      ensures ok && needed ==> PlaneSeqs() == StoreUnits(hdr, tr, flat, mx, old(PlaneSeqs()), blocks, |blocks|)
      ensures ok && !needed ==> PlaneSeqs() == old(PlaneSeqs())
    {
      hide DecodeUnits, Units, StoreUnits, Buffered, HMax, VMax, BeforeMcu;
      ShapedNow();
      ok := RestartIfDue(m);
      blocks := [];
      if ok {
        ok, blocks := DecodeMcu(mx, needed, flat, blk);
      }
    }

    lemma ShapedNow()
      requires hdr.Valid() && PlanesReady()
      ensures PlanesShaped(hdr.frame, PlaneSeqs())
    {
      hide HMax, VMax, CeilDiv;
    }

    /** The MCUs of band my, which begin at MCU mcu0 of the scan. */
    method DecodeBand(my: nat, mcu0: nat, needed: bool, flat: bool, blk: array<int>, ghost sc: Scan) returns (ok: bool)
      requires Valid() && mcu0 == my * hdr.frame.McusX() && blk.Length == 64
      requires |sc.preds| == 3 && ScanAt(hdr, sc, mcu0) == Run(Here(), [])
      modifies this`pred, rd, blk, planes
      ensures rd.p >= old(rd.p) && PlanesShaped(hdr.frame, old(PlaneSeqs()))
      ensures !ok ==> ScanAt(hdr, sc, mcu0 + hdr.frame.McusX()).Bad?
      ensures ok ==> Valid() && ScanAt(hdr, sc, mcu0 + hdr.frame.McusX()) == Run(Here(), [])
      ensures ok && needed ==>
        PlaneSeqs() == StoreBand(hdr, tr, flat, sc, my, hdr.frame.McusX(), old(PlaneSeqs()))
      ensures ok && !needed ==> PlaneSeqs() == old(PlaneSeqs())
    {
      hide DecodeUnits, Units, StoreUnits, BitReader.Valid, Huff.Ready, HMax, VMax, McuAt, CeilDiv;
      ghost var p0 := PlaneSeqs();
      ShapedNow();
      for mx := 0 to hdr.frame.McusX()
        invariant Valid() && rd.p >= old(rd.p) && ScanAt(hdr, sc, mcu0 + mx) == Run(Here(), [])
        invariant needed ==> PlaneSeqs() == StoreBand(hdr, tr, flat, sc, my, mx, p0)
        invariant !needed ==> PlaneSeqs() == p0
      {
        ghost var bs;
        ok, bs := McuStep(mcu0 + mx, mx, needed, flat, blk, sc);
        if !ok {
          assert ScanAt(hdr, sc, mcu0 + mx + 1).Bad?;
          BadStaysBad(hdr, sc, mcu0 + mx + 1, mcu0 + hdr.frame.McusX());
          return;
        }
      }
      ok := true;
    }
  }
}
