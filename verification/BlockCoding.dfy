/** decode_block, put_value and encode_block of jpeg.c, over the bit reader and the bit writer. */
module BlockCoding {
  import opened Bits
  import opened Huffman
  import opened BitReading
  import opened BitWriting
  import opened BlockCodec
  import opened Zigzag

  /** The dequantised coefficients in natural order; q is in zigzag order, as stored in DQT. */
  function Natural(zz: Block, q: seq<nat>): (n: seq<int>)
    requires |q| == 64
    ensures |n| == 64
    ensures forall k :: 0 <= k < 64 ==> Zig(k) < 64 && n[Zig(k)] == zz[k] * q[k]
  {
    assert forall k :: 0 <= k < 64 ==> Zig(k) < 64 && Unzig(Zig(k)) == k by {
      forall k | 0 <= k < 64 ensures Zig(k) < 64 && Unzig(Zig(k)) == k { ZigInverts(k); }
    }
    hide Zig, Unzig;
    seq(64, i requires 0 <= i < 64 => var k := Unzig(i); if k < 64 then zz[k] * q[k] else 0)
  }

  /** Natural order is onto: writing coefficient k touches only its own place. */
  lemma NaturalUpdate(zz: Block, q: seq<nat>, k: nat, v: int)
    requires |q| == 64 && k < 64
    ensures Zig(k) < 64
    ensures Natural(zz[k := v], q) == Natural(zz, q)[Zig(k) := v * q[k]]
  {
    ZigInverts(k);
    var a, b := Natural(zz[k := v], q), Natural(zz, q);
    forall i | 0 <= i < 64 && i != Zig(k)
      ensures a[i] == b[i]
    {
      UnzigInverts(i);
      assert Unzig(i) != k;
      NaturalAt(zz[k := v], q, Unzig(i));
      NaturalAt(zz, q, Unzig(i));
    }
    NaturalAt(zz[k := v], q, k);
  }

  lemma NaturalAt(zz: Block, q: seq<nat>, k: nat)
    requires |q| == 64 && k < 64
    ensures Zig(k) < 64 && Natural(zz, q)[Zig(k)] == zz[k] * q[k]
  {
  }

  lemma NaturalStart(dc: int, q: seq<nat>)
    requires |q| == 64
    ensures Natural(Start(dc), q) == [dc * q[0]] + seq(63, _ => 0)
  {
    var n := Natural(Start(dc), q);
    assert Zig(0) == 0;
    NaturalAt(Start(dc), q, 0);
    forall i | 0 < i < 64
      ensures n[i] == 0
    {
      UnzigInverts(i);
      ZigInverts(0);
      NaturalAt(Start(dc), q, Unzig(i));
    }
  }

  lemma DropNone(s: seq<bool>)
    ensures Drop(s, 0) == s
  {
  }

  /** The DC part of decode_block: the new predictor. */
  method DecodeDcInto(d: BitReader, dc: Huff, pred: int) returns (ok: bool, pred': int)
    requires d.Valid() && dc.Ready()
    modifies d
    ensures d.Valid() && d.p >= old(d.p) && d.tail == old(d.tail)
    ensures match DecodeDc(dc.table, old(d.rest), pred)
            case Corrupt => !ok
            case Ok(v, r) => ok && pred' == v && d.rest == r && d.last == LastDc(dc.table, old(d.rest))
  {
    hide Decode, ValueOf, Pow2, BitReader.Valid, Huff.Finds, Take, Drop;
    pred' := pred;
    var t := d.HuffDecode(dc);
    if t < 0 || t > 11 {
      return false, pred;
    }
    DropNone(d.rest);
    if t > 0 {
      var v := d.GetBits(t);
      pred' := pred + Extend(v, t);
    }
    ok := true;
  }

  /** decode_block: ok says whether the data was valid; blk, if any, gets the dequantised block. */
  method DecodeInto(d: BitReader, dc: Huff, ac: Huff, pred: int, q: seq<nat>, blk: array?<int>)
    returns (ok: bool, pred': int)
    requires d.Valid() && dc.Ready() && ac.Ready() && |q| == 64
    requires blk != null ==> blk.Length == 64
    modifies d, if blk == null then {} else {blk}
    ensures d.Valid() && d.p >= old(d.p) && d.tail == old(d.tail)
    ensures match DecodeBlock(dc.table, ac.table, old(d.rest), pred)
            case Corrupt => !ok
            case Ok(zz, r) => ok && pred' == zz[0] && d.rest == r && (blk != null ==> blk[..] == Natural(zz, q)) &&
                              d.last == LastRead(dc.table, ac.table, old(d.rest), pred)
  {
    hide Decode, DecodeDc, LastDc, ValueOf, Pow2, BitReader.Valid, Natural, Zig, Unzig, Huff.Finds, Take, Drop;
    ghost var want := DecodeBlock(dc.table, ac.table, d.rest, pred);
    ghost var last := LastRead(dc.table, ac.table, d.rest, pred);
    ok, pred' := DecodeDcInto(d, dc, pred);
    if !ok {
      return;
    }
    ghost var zz := Start(pred');
    if blk != null {
      NaturalStart(pred', q);
      forall i | 0 <= i < 64 { blk[i] := 0; }
      blk[0] := pred' * q[0];
    }
    var k := 1;
    while k < 64
      invariant 1 <= k && d.Valid() && d.p >= old(d.p) && d.tail == old(d.tail) && dc.Ready() && ac.Ready()
      invariant |zz| == 64 && zz[0] == pred'
      invariant want == DecodeAc(ac.table, d.rest, k, zz) && last == LastAc(ac.table, d.rest, k, d.last)
      invariant blk != null ==> blk[..] == Natural(zz, q)
      decreases 64 - k
    {
      var rs := d.HuffDecode(ac);
      if rs < 0 {
        return false, pred';
      }
      var r, s := rs / 16, rs % 16;
      if s == 0 {
        if r != 15 {
          break; // EOB
        }
        k := k + 16;
        continue;
      }
      k := k + r;
      if k > 63 {
        return false, pred';
      }
      var bits := d.GetBits(s);
      var v := Extend(bits, s);
      NaturalUpdate(zz, q, k, v);
      if blk != null {
        blk[Zig(k)] := v * q[k];
      }
      zz := zz[k := v];
      k := k + 1;
    }
    ok := true;
  }

  /** The magnitude category: the loop of put_value. */
  method CountBits(v: nat) returns (n: nat)
    ensures n == Category(v)
  {
    var a: nat := v;
    n := 0;
    while a > 0
      invariant n + Category(a) == Category(v)
    {
      n := n + 1;
      a := a / 2;
    }
  }

  /** put_value: a run of zeros and a value, or a DC difference. */
  method PutValue(e: BitWriter, book: CodeBook, run: nat, v: int)
    requires e.Valid() && e.BitState() && book.Valid() && run < 16 && Abs(v) < Pow2(15)
    modifies e`pos, e`overflow, e`written, e`marks, e`bits, e`nbits, e`sent, e.out
    ensures e.Valid() && e.BitState() && e.Grew(old(e.marks))
    ensures e.sent == old(e.sent) + ValueBits(book, run, v)
  {
    hide BitWriter.Valid, BitWriter.BitState, BitWriter.HasRoom, Pow2, Category, CodeWord, BitsOf;
    CategoryBound(Abs(v), 15);
    var n := CountBits(Abs(v));
    assert e.sent + [] == e.sent;
    var sym := 16 * run + n;
    e.PutBits(book.code[sym], book.size[sym]);
    if n > 0 {
      e.PutBits(CodeWord(v), n);
    }
  }

  /** encode_block from the quantised coefficients on. */
  method EncodeZz(e: BitWriter, dc: CodeBook, ac: CodeBook, zz: Block, pred: int)
    requires e.Valid() && e.BitState() && dc.Valid() && ac.Valid()
    requires InRange(zz) && -1024 <= pred <= 1023
    modifies e`pos, e`overflow, e`written, e`marks, e`bits, e`nbits, e`sent, e.out
    ensures e.Valid() && e.BitState() && e.Grew(old(e.marks))
    ensures e.sent == old(e.sent) + EncodeBlock(dc, ac, zz, pred)
  {
    hide BitWriter.Marked, Pow2, Pending, Buffered, ValueBits;
    Pow2Small();
    PutValue(e, dc, 0, zz[0] - pred);
    ghost var head := e.sent;
    var run, k := 0, 1;
    assert head + EncodeAc(ac, zz, 1, 0) == e.sent + EncodeAc(ac, zz, k, run);
    while k < 64
      invariant 1 <= k <= 64 && 0 <= run && e.Valid() && e.BitState() && e.Grew(old(e.marks))
      invariant head + EncodeAc(ac, zz, 1, 0) == e.sent + EncodeAc(ac, zz, k, run)
    {
      if zz[k] == 0 {
        run := run + 1;
      } else {
        ghost var s0, z := e.sent, Zrls(ac, run / 16);
        ghost var v, more := ValueBits(ac, run % 16, zz[k]), EncodeAc(ac, zz, k + 1, 0);
        run := PutZrls(e, ac, run);
        PutValue(e, ac, run, zz[k]);
        ConcatAssoc(s0, z, v);
        ConcatAssoc(s0, z + v, more);
        run := 0;
      }
      k := k + 1;
    }
    if run > 0 {
      e.PutBits(ac.code[0], ac.size[0]);
    }
    assert head + EncodeAc(ac, zz, 1, 0) == e.sent;
  }

  /** The loop that sends runs of sixteen zeros. */
  method PutZrls(e: BitWriter, ac: CodeBook, run0: nat) returns (run: nat)
    requires e.Valid() && e.BitState() && ac.Valid()
    modifies e`pos, e`overflow, e`written, e`marks, e`bits, e`nbits, e`sent, e.out
    ensures e.Valid() && e.BitState() && e.Grew(old(e.marks))
    ensures run == run0 % 16 && e.sent == old(e.sent) + Zrls(ac, run0 / 16)
  {
    hide BitWriter.Marked, Pow2, Pending, Buffered, BitsOf;
    run := run0;
    while run > 15
      invariant run % 16 == run0 % 16 && e.Valid() && e.BitState() && e.Grew(old(e.marks))
      invariant e.sent + Zrls(ac, run / 16) == old(e.sent) + Zrls(ac, run0 / 16)
    {
      ghost var s0 := e.sent;
      e.PutBits(ac.code[0xF0], ac.size[0xF0]);
      ConcatAssoc(s0, ac.Sym(0xF0), Zrls(ac, run / 16 - 1));
      run := run - 16;
    }
  }
}
