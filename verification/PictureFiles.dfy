/** Every picture has a file: a header for its frame, restart interval and tables, and its scan. */
module PictureFiles {
  import opened Bits
  import opened Huffman
  import opened ByteStuffing
  import opened BlockCodec
  import opened FrameGeometry
  import opened ScanSpec
  import opened StripSpec
  import opened FrameHeader
  import opened HeaderForms
  import opened StandardTables
  import opened Transcoding
  import opened Pictures
  import opened PictureScaling
  import opened OutputPictures

  // --- tables that code alike -------------------------------------------------------------------------

  /** The same codes for the same symbols. */
  predicate Alike(t: Table, t': Table) {
    t.Valid() && t'.Valid() && t.counts == t'.counts && forall i :: 0 <= i < Total(t.counts) ==> t.vals[i] == t'.vals[i]
  }

  lemma AlikePaired(t: Table, t': Table, book: CodeBook)
    requires Alike(t, t') && Paired(t, book)
    ensures Paired(t', book)
  {
    hide Kraft, Total;
  }

  lemma AlikeHas(t: Table, t': Table, sym: byte)
    requires Alike(t, t') && Has(t, sym)
    ensures Has(t', sym)
  {
    hide Total;
    var k :| 0 <= k < Total(t.counts) && t.vals[k] == sym;
    assert t'.vals[k] == sym;
  }

  lemma {:induction false} AlikeAc(t: Table, t': Table, zz: Block, k: nat, run: nat)
    requires Alike(t, t') && 1 <= k <= 64 && AcHas(t, zz, k, run)
    ensures AcHas(t', zz, k, run)
    decreases 64 - k
  {
    hide Alike, Has, Category;
    AlikeValid(t, t');
    if k == 64 {
      if run > 0 { AlikeHas(t, t', 0); }
    } else {
      AlikeAc(t, t', zz, k + 1, if zz[k] == 0 then run + 1 else 0);
      if zz[k] != 0 {
        if run >= 16 { AlikeHas(t, t', 0xF0); }
        AlikeHas(t, t', 16 * (run % 16) + Category(Abs(zz[k])));
      }
    }
  }

  lemma AlikeValid(t: Table, t': Table)
    requires Alike(t, t')
    ensures t.Valid() && t'.Valid()
  {
  }

  /** The same code books, with tables that code alike. */
  ghost predicate Stored(a: Coder, b: Coder) {
    Alike(a.dcT, b.dcT) && Alike(a.acT, b.acT) && a.dc == b.dc && a.ac == b.ac
  }

  ghost predicate AllStored(a: seq<Coder>, b: seq<Coder>) {
    |a| == |b| && forall c :: 0 <= c < |a| ==> Stored(a[c], b[c])
  }

  lemma StoredCodes(a: seq<Coder>, b: seq<Coder>, u: Unit, preds: seq<int>)
    requires AllStored(a, b) && CanCode(a, u, preds)
    ensures CanCode(b, u, preds) && UnitBits(b, u, preds) == UnitBits(a, u, preds)
  {
    hide Alike, Has, AcHas, Category, Paired, InRange, EncodeBlock;
    var x, y := a[u.c], b[u.c];
    assert Stored(x, y);
    AlikeValid(x.dcT, y.dcT);
    AlikeValid(x.acT, y.acT);
    AlikePaired(x.dcT, y.dcT, x.dc);
    AlikePaired(x.acT, y.acT, x.ac);
    AlikeHas(x.dcT, y.dcT, Category(Abs(u.zz[0] - preds[u.c])));
    AlikeAc(x.acT, y.acT, u.zz, 1, 0);
  }

  lemma {:induction false} StoredBits(a: seq<Coder>, b: seq<Coder>, preds: seq<int>, units: seq<Unit>)
    requires AllStored(a, b) && |preds| == 3 && Coded(a, preds, units)
    ensures Coded(b, preds, units) && CodedBits(b, preds, units) == CodedBits(a, preds, units)
    decreases |units|
  {
    hide CanCode, UnitBits, AllStored, After;
    if units != [] {
      StoredBits(a, b, preds, units[..|units| - 1]);
      StoredCodes(a, b, units[|units| - 1], After(preds, units[..|units| - 1]));
    }
  }

  lemma StoredCoding(k: Coding, k': Coding)
    requires k.Valid() && k' == k.(coders := k'.coders) && AllStored(k.coders, k'.coders)
    ensures k'.Valid()
  {
    hide Coded, Coding.From, Starts, Frame.Valid, AllStored;
    forall s: nat | s < McuCount(k.f) && Starts(k.restart, s)
      ensures Coded(k'.coders, [0, 0, 0], k'.From(s))
    {
      SameFrom(k, k', s);
      StoredBits(k.coders, k'.coders, [0, 0, 0], k.From(s));
    }
  }

  lemma SameFrom(k: Coding, k': Coding, s: nat)
    requires k' == k.(coders := k'.coders)
    ensures k'.From(s) == k.From(s)
  {
  }

  lemma {:induction false} StoredText(k: Coding, k': Coding, tail: seq<byte>, s: nat)
    requires k.Valid() && k'.Valid() && k' == k.(coders := k'.coders) && AllStored(k.coders, k'.coders)
    requires s < McuCount(k.f) && Starts(k.restart, s)
    ensures ScanText(k', tail, s) == ScanText(k, tail, s)
    decreases McuCount(k.f) - s
  {
    hide Coded, CodedBits, Coding.From, Coding.Valid, AllStored, Whole;
    var e := EndOf(k.restart, s, McuCount(k.f));
    EndFollows(k, s);
    CodedFrom(k, s);
    SameFrom(k, k', s);
    StoredBits(k.coders, k'.coders, [0, 0, 0], k.From(s));
    if e < McuCount(k.f) {
      StoredText(k, k', tail, e);
    }
  }

  lemma CodedFrom(k: Coding, s: nat)
    requires k.Valid() && s < McuCount(k.f) && Starts(k.restart, s)
    ensures Coded(k.coders, [0, 0, 0], k.From(s))
  {
  }

  // --- the file of a picture --------------------------------------------------------------------------

  /** The tables as a parser stores them. */
  ghost function StoredCoders(st: State, k: Coding): seq<Coder>
    requires k.f.Valid() && st.Header().Valid() && st.Header().frame == k.f && |k.coders| == |k.f.comps|
  {
    var hdr := st.Header();
    seq(|k.coders|, c requires 0 <= c < |k.coders| =>
      Coder(hdr.dc[k.f.comps[c].td], k.coders[c].dc, hdr.ac[k.f.comps[c].ta], k.coders[c].ac))
  }

  /** A header for the picture, its scan, and more. */
  ghost function PictureFile(h: Header, k: Coding, tail: seq<byte>): seq<byte>
    requires FieldsFit(h) && k.Valid()
  {
    EveryHeader(h, []);
    HeaderText(ItemsFor(h), 0, PicksFor(h.frame.comps)) + ScanText(k, tail, 0)
  }

  lemma TablesAlike(h: Header, st: State, k: Coding)
    requires FieldsFit(h) && Fits(h, k) && st.Header().Valid() && SameHeader(st.Header(), h)
    ensures AllStored(k.coders, StoredCoders(st, k))
  {
    hide Total, Frame.Valid, Coding.Valid;
    forall c | 0 <= c < |k.coders|
      ensures Stored(k.coders[c], StoredCoders(st, k)[c])
    {
      var comp := h.frame.comps[c];
      IsAlike(h, false, comp.td, st.Header().dc[comp.td]);
      IsAlike(h, true, comp.ta, st.Header().ac[comp.ta]);
    }
  }

  lemma IsAlike(h: Header, ac: bool, i: nat, t: Table)
    requires FieldsFit(h) && i < 4 && t.Valid() && IsTable(t, CodeFor(h, ac, i))
    ensures Alike(if ac then h.ac[i] else h.dc[i], t)
  {
    hide Total, Frame.Valid;
    var own := if ac then h.ac[i] else h.dc[i];
    forall n | 0 <= n < Total(own.counts)
      ensures own.vals[n] == t.vals[n]
    {
      assert own.vals[..Total(own.counts)][n] == t.vals[..Total(own.counts)][n];
    }
  }

  lemma FileAccepted(h: Header, k: Coding, tail: seq<byte>) returns (st: State)
    requires FieldsFit(h) && k.Valid()
    ensures ParseHeaders(PictureFile(h, k, tail)) == Parsed.Accepted(st, ScanText(k, tail, 0))
    ensures st.Header().Valid() && SameHeader(st.Header(), h)
    ensures st.Header().frame == h.frame && st.Header().restart == h.restart
  {
    hide HeaderText, ItemsFor, PicksFor, ParseHeaders, SameHeader, State.Valid, Frame.Valid, ScanText, Coded;
    EveryHeader(h, ScanText(k, tail, 0));
    var d := PictureFile(h, k, tail);
    st := ParseHeaders(d).st;
    HeadersRest(d);
    HeaderValid(st);
    SameFrame(st.Header(), h);
  }

  /** The parser finds the header and the scan in the picture's file. */
  lemma FileReads(h: Header, k: Coding, tail: seq<byte>) returns (st: State, k': Coding)
    requires FieldsFit(h) && Fits(h, k) && AtMarker(tail)
    ensures IsText(PictureFile(h, k, tail), st, k', tail) && k' == k.(coders := k'.coders) && SameHeader(st.Header(), h)
  {
    hide ParseHeaders, SameHeader, Carries, StoredCoders, State.Valid, Frame.Valid, Coding.From, Coded, ScanText, PictureFile, FieldsFit,
         Table.Valid, AllStored;
    st := FileAccepted(h, k, tail);
    FitsValid(h, k);
    k' := k.(coders := StoredCoders(st, k));
    TablesAlike(h, st, k);
    StoredCoding(k, k');
    StoredText(k, k', tail, 0);
    StoredFits(st, k);
  }

  lemma FitsValid(h: Header, k: Coding)
    requires Fits(h, k)
    ensures k.f.Valid() && |k.coders| == |k.f.comps|
  {
  }

  lemma SameFrame(a: Header, h: Header)
    requires FieldsFit(h) && SameHeader(a, h)
    ensures a.frame == h.frame && a.restart == h.restart
  {
  }

  lemma StoredFits(st: State, k: Coding)
    requires k.f.Valid() && st.Header().Valid() && st.Header().frame == k.f && |k.coders| == |k.f.comps|
    ensures Carries(st.Header(), StoredCoders(st, k))
  {
    hide Frame.Valid;
  }

  /** jpeg_scale on the file of any picture makes the text of the picture whose samples are the means of those
      that meet their boxes. */
  lemma PictureScaled(h: Header, k: Coding, tail: seq<byte>, v: View, o: Options, tr: Transforms, cs: Coders)
    requires FieldsFit(h) && Fits(h, k) && AtMarker(tail)
    requires Sound(tr) && Standard(cs) && |o.q0| == |o.q1| == 64 && SinkGeometry(k.f, o.div, o.cx, o.cy, o.cw, o.ch) == Crop(v)
    ensures IsScaledText(Expected(PictureFile(h, k, tail), o, tr, cs), h, o, tr, cs, v, k.pic)
  {
    hide PictureFile, Expected, IsText, SinkGeometry, Frame.Valid, Carries, Sound, Standard;
    var st, k' := FileReads(h, k, tail);
    ScalesPictures(PictureFile(h, k, tail), st, k', tail, v, o, tr, cs);
    SameScaled(Expected(PictureFile(h, k, tail), o, tr, cs), st.Header(), h, o, tr, cs, v, k.pic);
  }

  /** The tables do not matter to the samples. */
  lemma SameScaled(a: Answer, hdr: Header, h: Header, o: Options, tr: Transforms, cs: Coders, v: View, pic: Picture)
    requires FieldsFit(h) && SameHeader(hdr, h) && IsScaledText(a, hdr, o, tr, cs, v, pic)
    ensures IsScaledText(a, h, o, tr, cs, v, pic)
  {
    hide Averages, Sound, Frame.Valid, Table.Valid, RowsText, SameHeader;
    SameFrame(hdr, h);
    var rows :| Scaled(hdr, tr, v, pic, rows) && a.file == RowsText(o, tr, cs, rows, v.OutW());
    forall y, c, x | 0 <= y < v.OutH() && 0 <= c < 3 && 0 <= x < v.OutW()
      ensures Averages(h, tr, v, pic, y, c, x, rows[y][c][x])
    {
      SameAverages(hdr, h, tr, v, pic, y, c, x, rows[y][c][x]);
    }
  }

  lemma SameAverages(hdr: Header, h: Header, tr: Transforms, v: View, pic: Picture, y: nat, c: nat, x: nat, b: byte)
    requires FieldsFit(h) && SameHeader(hdr, h) && hdr.Valid() && Sound(tr) && Averages(hdr, tr, v, pic, y, c, x, b)
    ensures Averages(h, tr, v, pic, y, c, x, b)
  {
    hide IsBoxMean, Frame.Valid, Table.Valid, Sound;
    if c < |h.frame.comps| {
      assert hdr.qt[h.frame.comps[c].tq] == h.qt[h.frame.comps[c].tq];
    }
  }
}
