/** enc_header of jpeg.c, byte by byte. */
module HeaderWriting {
  import opened Bits
  import opened Huffman
  import opened BitReading
  import opened BitWriting
  import opened StripSpec
  import opened StandardTables
  import opened FrameHeader

  /** The tables are stored as in a decoder, and the segment that defines them has the length enc_header
      gives it. */
  ghost predicate Writable(cs: Coders) {
    cs.Valid() && StoredTables(cs) && |Dht(cs)| == 4 * 17 + 12 + 12 + 162 + 162
  }

  lemma StandardStored(cs: Coders)
    requires Standard(cs)
    ensures Writable(cs)
    ensures Total(cs.luma.dcT.counts) == 12 && Total(cs.luma.acT.counts) == 162
    ensures Total(cs.chroma.dcT.counts) == 12 && Total(cs.chroma.acT.counts) == 162
  {
    hide AcLumVal, AcChromVal, FirstIndex, Kraft, Coders.Good;
    DcLumCounts();
    DcChromCounts();
    AcLumCounts();
    AcChromCounts();
  }

  method PutDqt(e: BitWriter, q0: seq<byte>, q1: seq<byte>)
    requires e.Valid() && Quantisers(q0, q1)
    modifies e`pos, e`overflow, e`written, e`marks, e.out
    ensures e.Valid() && e.written == old(e.written) + Segment(0xDB, Dqt(q0, q1)) && e.Grew(old(e.marks))
  {
    hide BitWriter.Valid, BitWriter.HasRoom;
    ghost var w := e.written;
    e.PutU16(0xFFDB);
    e.PutU16(2 + 2 * 65);
    e.PutByte(0);
    e.PutBytes(q0);
    e.PutByte(1);
    e.PutBytes(q1);
    assert e.written == w + ([0xFF, 0xDB] + [0, 132] + ([0] + q0 + ([1] + q1)));
  }

  method PutSof(e: BitWriter, w: nat, h: nat)
    requires e.Valid() && w < 0x1_0000 && h < 0x1_0000
    modifies e`pos, e`overflow, e`written, e`marks, e.out
    ensures e.Valid() && e.written == old(e.written) + Segment(0xC0, Sof(w, h)) && e.Grew(old(e.marks))
  {
    hide BitWriter.Valid, BitWriter.HasRoom;
    ghost var before := e.written;
    e.PutU16(0xFFC0);
    e.PutU16(17);
    e.PutByte(8);
    e.PutU16(h);
    e.PutU16(w);
    e.PutBytes([3, 1, 0x11, 0, 2, 0x11, 1, 3, 0x11, 1]);
    assert e.written == before + ([0xFF, 0xC0] + [0, 17] + ([8] + U16(h) + U16(w) + [3, 1, 0x11, 0, 2, 0x11, 1, 3, 0x11, 1]));
  }

  /** The number of symbols the counts announce. */
  method CountSymbols(counts: seq<byte>) returns (n: nat)
    requires |counts| == 16
    ensures n == Total(counts)
  {
    hide FirstIndex;
    IndexStep(counts, 0);
    n := 0;
    for i := 0 to 16
      invariant n == FirstIndex(counts, i + 1)
    {
      IndexStep(counts, i);
      n := n + counts[i];
    }
  }

  /** put_dht: the class and slot, the counts, and as many symbols as they say. */
  method PutDht(e: BitWriter, id: byte, t: Table)
    requires e.Valid() && t.Valid()
    modifies e`pos, e`overflow, e`written, e`marks, e.out
    ensures e.Valid() && e.written == old(e.written) + Dht1(id, t) && e.Grew(old(e.marks))
  {
    hide Buffered, FirstIndex, BitWriter.Marked, BitWriter.HasRoom;
    ghost var w := e.written;
    var n := CountSymbols(t.counts);
    e.PutByte(id);
    e.PutBytes(t.counts);
    e.PutBytes(t.vals[..n]);
    assert e.written == w + ([id] + t.counts + t.vals[..n]);
  }

  lemma IndexStep(counts: seq<byte>, i: nat)
    requires |counts| == 16 && i < 16
    ensures FirstIndex(counts, 1) == 0
    ensures FirstIndex(counts, i + 2) == FirstIndex(counts, i + 1) + counts[i]
  {
  }

  method PutTables(e: BitWriter, cs: Coders)
    requires e.Valid() && StoredTables(cs) && |Dht(cs)| == 4 * 17 + 12 + 12 + 162 + 162
    modifies e`pos, e`overflow, e`written, e`marks, e.out
    ensures e.Valid() && e.written == old(e.written) + Segment(0xC4, Dht(cs)) && e.Grew(old(e.marks))
  {
    hide Buffered, Dht1, FirstIndex, BitWriter.Marked, BitWriter.HasRoom;
    ghost var w := e.written;
    e.PutU16(0xFFC4);
    e.PutU16(2 + 4 * 17 + 12 + 12 + 162 + 162);
    PutDht(e, 0x00, cs.luma.dcT);
    PutDht(e, 0x10, cs.luma.acT);
    PutDht(e, 0x01, cs.chroma.dcT);
    PutDht(e, 0x11, cs.chroma.acT);
    assert U16(418) == [1, 162];
    assert e.written == w + ([0xFF, 0xC4] + U16(418) + Dht(cs));
  }

  /** enc_header. */
  method EncHeader(e: BitWriter, w: nat, h: nat, q0: seq<byte>, q1: seq<byte>, cs: Coders)
    requires e.Valid() && w < 0x1_0000 && h < 0x1_0000 && Quantisers(q0, q1) && Writable(cs)
    modifies e`pos, e`overflow, e`written, e`marks, e.out
    ensures e.Valid() && e.written == old(e.written) + HeaderBytes(w, h, q0, q1, cs) && e.Grew(old(e.marks))
  {
    hide BitWriter.Marked, BitWriter.HasRoom, Buffered, Dht, FirstIndex, Dqt, Sof, Sos, Jfif, Segment;
    ghost var before := e.written;
    ghost var s2, s3, s4 := Segment(0xDB, Dqt(q0, q1)), Segment(0xC0, Sof(w, h)), Segment(0xC4, Dht(cs));
    FixedParts();
    e.PutBytes([0xFF, 0xD8, 0xFF, 0xE0, 0x00, 0x10, 0x4A, 0x46, 0x49, 0x46, 0x00,
                0x01, 0x01, 0x00, 0x00, 0x01, 0x00, 0x01, 0x00, 0x00]);
    PutDqt(e, q0, q1);
    PutSof(e, w, h);
    PutTables(e, cs);
    e.PutBytes([0xFF, 0xDA, 0x00, 0x0C, 3, 1, 0x00, 2, 0x11, 3, 0x11, 0, 63, 0]);
    Regroup(before, [0xFF, 0xD8], Segment(0xE0, Jfif()), s2, s3, s4, Segment(0xDA, Sos()));
  }

  lemma FixedParts()
    ensures [0xFF, 0xD8] + Segment(0xE0, Jfif())
         == [0xFF, 0xD8, 0xFF, 0xE0, 0x00, 0x10, 0x4A, 0x46, 0x49, 0x46, 0x00,
             0x01, 0x01, 0x00, 0x00, 0x01, 0x00, 0x01, 0x00, 0x00]
    ensures Segment(0xDA, Sos()) == [0xFF, 0xDA, 0x00, 0x0C, 3, 1, 0x00, 2, 0x11, 3, 0x11, 0, 63, 0]
  {
  }

  lemma Regroup<T>(w: seq<T>, a: seq<T>, b: seq<T>, c: seq<T>, d: seq<T>, e: seq<T>, f: seq<T>)
    ensures w + (a + b) + c + d + e + f == w + (a + (b + (c + (d + (e + f)))))
  {
    assert w + (a + b) + c + d + e + f == w + (a + b) + c + d + (e + f);
    assert w + (a + b) + c + d + (e + f) == w + (a + b) + c + (d + (e + f));
    assert w + (a + b) + c + (d + (e + f)) == w + (a + b) + (c + (d + (e + f)));
    assert w + (a + b) + (c + (d + (e + f))) == w + (a + (b + (c + (d + (e + f)))));
  }
}
