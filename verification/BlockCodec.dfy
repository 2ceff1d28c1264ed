/** One 8x8 block's coefficients as bits: ITU T.81 sections F.1.2 (coding) and F.2.2 (decoding). */
module BlockCodec {
  import opened Bits
  import opened Huffman

  type Block = zz: seq<int> | |zz| == 64 witness seq(64, _ => 0)

  /** EXTEND of F.2.2.1: the value whose magnitude category is n and whose n extra bits are v. */
  function Extend(v: nat, n: nat): int
    requires n > 0
  {
    if v < Pow2(n - 1) then v - Pow2(n) + 1 else v
  }

  /** The magnitude category: the number of bits of a. */
  function Category(a: nat): (n: nat)
    ensures a == 0 <==> n == 0
    ensures a < Pow2(n)
    ensures n > 0 ==> Pow2(n - 1) <= a
  {
    if a == 0 then 0 else 1 + Category(a / 2)
  }

  lemma {:induction false} CategoryBound(a: nat, n: nat)
    requires a < Pow2(n)
    ensures Category(a) <= n
  {
    if a > 0 { CategoryBound(a / 2, n - 1); }
  }

  function Abs(v: int): nat {
    if v < 0 then -v else v
  }

  /** v as the 32-bit code word the encoder sends the low bits of. */
  function CodeWord(v: int): nat {
    if v < 0 then (v - 1) % 0x1_0000_0000 else v
  }

  lemma Wrapped(v: int, n: nat)
    requires v < 0 && n <= 16 && -v < Pow2(n)
    ensures CodeWord(v) % Pow2(n) == v - 1 + Pow2(n)
  {
    hide Pow2;
    var p, q := Pow2(n), Pow2(32 - n);
    Pow2Values();
    Pow2Add(n, 32 - n);
    Pow2Mono(n, 16);
    assert p * q == 0x1_0000_0000;
    DivModUnique(v - 1, 0x1_0000_0000, -1, v - 1 + 0x1_0000_0000);
    WrapArith(v, p, q);
    DivModUnique(v - 1 + 0x1_0000_0000, p, q - 1, v - 1 + p);
  }

  lemma WrapArith(v: int, p: nat, q: nat)
    requires p * q == 0x1_0000_0000
    ensures v - 1 + 0x1_0000_0000 == (q - 1) * p + (v - 1 + p)
  {
  }

  /** The extra bits of a nonzero value give it back. */
  lemma {:induction false} ExtendInverts(v: int)
    requires v != 0 && Abs(v) < Pow2(16)
    ensures var n := Category(Abs(v)); 0 < n <= 16 && Extend(ValueOf(BitsOf(CodeWord(v), n)), n) == v
  {
    hide BitsOf, ValueOf;
    var n := Category(Abs(v));
    CategoryBound(Abs(v), 16);
    ValueOfBitsOf(CodeWord(v), n);
    assert Pow2(n) == 2 * Pow2(n - 1);
    hide Pow2, Category;
    if v < 0 {
      Wrapped(v, n);
    } else {
      DivModUnique(v, Pow2(n), 0, v);
    }
  }

  // --- decoding ------------------------------------------------------------------------

  /** The AC coefficients from zigzag position k on, zz holding the ones before and zeros. */
  function DecodeAc(t: Table, s: seq<bool>, k: nat, zz: Block): (r: Decoded<Block>)
    requires t.Valid()
    decreases 64 - k
  {
    if k >= 64 then Ok(zz, s)
    else match Decode(t, s)
      case Corrupt => Corrupt
      case Ok(rs, r) =>
        var run, size := rs / 16, rs % 16;
        if size == 0 then
          if run != 15 then Ok(zz, r) // end of block
          else DecodeAc(t, r, k + 16, zz)
        else if k + run > 63 then Corrupt
        else DecodeAc(t, Drop(r, size), k + run + 1, zz[k + run := Extend(ValueOf(Take(r, size)), size)])
  }

  /** The DC coefficient, given the component's predictor. */
  function DecodeDc(t: Table, s: seq<bool>, pred: int): (r: Decoded<int>)
    requires t.Valid()
  {
    match Decode(t, s)
    case Corrupt => Corrupt
    case Ok(n, r) =>
      if n > 11 then Corrupt
      else Ok(pred + (if n == 0 then 0 else Extend(ValueOf(Take(r, n)), n)), Drop(r, n))
  }

  function Start(dc: int): Block {
    [dc] + seq(63, _ => 0)
  }

  function DecodeBlock(dc: Table, ac: Table, s: seq<bool>, pred: int): (r: Decoded<Block>)
    requires dc.Valid() && ac.Valid()
  {
    match DecodeDc(dc, s, pred)
    case Corrupt => Corrupt
    case Ok(v, r) => DecodeAc(ac, r, 1, Start(v))
  }

  /** How many bits were last read when a block is decoded: those of a value, or the last one of a code. */
  function LastAc(t: Table, s: seq<bool>, k: nat, last: nat): (n: nat)
    requires t.Valid()
    decreases 64 - k
  {
    if k >= 64 then last
    else match Decode(t, s)
      case Corrupt => last
      case Ok(rs, r) =>
        if rs % 16 == 0 then if rs / 16 != 15 then 1 else LastAc(t, r, k + 16, 1)
        else if k + rs / 16 > 63 then last
        else LastAc(t, Drop(r, rs % 16), k + rs / 16 + 1, rs % 16)
  }

  function LastDc(t: Table, s: seq<bool>): (n: nat)
    requires t.Valid()
  {
    match Decode(t, s)
    case Corrupt => 0
    case Ok(n, _) => if n == 0 then 1 else n
  }

  function LastRead(dc: Table, ac: Table, s: seq<bool>, pred: int): (n: nat)
    requires dc.Valid() && ac.Valid()
  {
    match DecodeDc(dc, s, pred)
    case Corrupt => 0
    case Ok(_, r) => LastAc(ac, r, 1, LastDc(dc, s))
  }

  // --- encoding ------------------------------------------------------------------------

  /** A run of zeros, then the value v. */
  function ValueBits(book: CodeBook, run: nat, v: int): seq<bool>
    requires book.Valid() && run < 16 && Abs(v) < Pow2(15)
  {
    CategoryBound(Abs(v), 15);
    var n := Category(Abs(v));
    book.Sym(16 * run + n) + BitsOf(CodeWord(v), n)
  }

  /** n times the symbol for sixteen zeros. */
  function Zrls(book: CodeBook, n: nat): seq<bool>
    requires book.Valid()
  {
    if n == 0 then [] else book.Sym(0xF0) + Zrls(book, n - 1)
  }

  ghost predicate SmallAc(zz: Block) {
    forall k :: 1 <= k < 64 ==> -1023 <= zz[k] <= 1023
  }

  /** What quantisation delivers: DC of an 8-bit block, AC clamped to the baseline categories. */
  ghost predicate InRange(zz: Block) {
    -1024 <= zz[0] <= 1023 && SmallAc(zz)
  }

  lemma Pow2Small()
    ensures Pow2(10) == 1024 && Pow2(11) == 2048 && Pow2(15) == 32768 && Pow2(16) == 65536
  {
    assert Pow2(5) == 32;
    Pow2Add(5, 5);
    Pow2Add(5, 10);
  }

  /** Coefficients k.., `run` zeros pending before k. */
  ghost function EncodeAc(book: CodeBook, zz: Block, k: nat, run: nat): seq<bool>
    requires book.Valid() && SmallAc(zz) && 1 <= k <= 64
    decreases 64 - k
  {
    if k == 64 then (if run > 0 then book.Sym(0) else [])
    else if zz[k] == 0 then EncodeAc(book, zz, k + 1, run + 1)
    else
      Pow2Small();
      Zrls(book, run / 16) + ValueBits(book, run % 16, zz[k]) + EncodeAc(book, zz, k + 1, 0)
  }

  ghost function EncodeBlock(dc: CodeBook, ac: CodeBook, zz: Block, pred: int): seq<bool>
    requires dc.Valid() && ac.Valid() && InRange(zz) && -1024 <= pred <= 1023
  {
    Pow2Small();
    ValueBits(dc, 0, zz[0] - pred) + EncodeAc(ac, zz, 1, 0)
  }

  // --- the round trip -------------------------------------------------------------------

  ghost predicate Has(t: Table, sym: byte)
    requires t.Valid()
  {
    exists k :: 0 <= k < Total(t.counts) && t.vals[k] == sym
  }

  /** A table and the code book made from it, with every symbol baseline DC coding can need. */
  ghost predicate DcPair(t: Table, book: CodeBook) {
    t.Valid() && Kraft(t.counts) && book.Encodes(t) && forall n: byte :: n <= 11 ==> Has(t, n)
  }

  /** The same for AC: end of block, sixteen zeros, and every run with categories 1 to 10. */
  ghost predicate AcPair(t: Table, book: CodeBook) {
    t.Valid() && Kraft(t.counts) && book.Encodes(t) && Has(t, 0) && Has(t, 0xF0) &&
    forall s: byte :: 1 <= s % 16 <= 10 ==> Has(t, s)
  }

  /** A table with prefix codes, and the code book made from it. */
  ghost predicate Paired(t: Table, book: CodeBook) {
    t.Valid() && Kraft(t.counts) && book.Encodes(t)
  }

  /** The table has the symbol of a run of zeros and the value v. */
  ghost predicate HasValue(t: Table, run: nat, v: int)
    requires t.Valid()
  {
    var sym := 16 * run + Category(Abs(v));
    sym < 256 && Has(t, sym)
  }

  /** The table has every symbol needed for coefficients k.., `run` zeros pending before k. */
  ghost predicate AcHas(t: Table, zz: Block, k: nat, run: nat)
    requires t.Valid() && 1 <= k <= 64
    decreases 64 - k
  {
    if k == 64 then run > 0 ==> Has(t, 0)
    else if zz[k] == 0 then AcHas(t, zz, k + 1, run + 1)
    else (run >= 16 ==> Has(t, 0xF0)) && HasValue(t, run % 16, zz[k]) && AcHas(t, zz, k + 1, 0)
  }

  /** The tables have every symbol the block needs. */
  ghost predicate BlockHas(dc: Table, ac: Table, zz: Block, pred: int)
    requires dc.Valid() && ac.Valid()
  {
    HasValue(dc, 0, zz[0] - pred) && AcHas(ac, zz, 1, 0)
  }

  lemma {:induction false} AllAcHave(t: Table, book: CodeBook, zz: Block, k: nat, run: nat)
    requires AcPair(t, book) && SmallAc(zz) && 1 <= k <= 64
    ensures AcHas(t, zz, k, run)
    decreases 64 - k
  {
    hide Kraft, Total, Has, Category, CodeBook.Encodes, Table.Valid;
    if k < 64 {
      AllAcHave(t, book, zz, k + 1, if zz[k] == 0 then run + 1 else 0);
      if zz[k] != 0 {
        Pow2Small();
        CategoryBound(Abs(zz[k]), 10);
        CategoryPositive(Abs(zz[k]));
        var sym: byte := 16 * (run % 16) + Category(Abs(zz[k]));
        assert sym % 16 == Category(Abs(zz[k]));
      }
    }
  }

  lemma CategoryPositive(a: nat)
    requires a > 0
    ensures Category(a) > 0
  {
  }

  /** Tables with all the symbols have those of any block. */
  lemma PairsHave(dc: Table, dcB: CodeBook, ac: Table, acB: CodeBook, zz: Block, pred: int)
    requires DcPair(dc, dcB) && AcPair(ac, acB) && InRange(zz) && -1024 <= pred <= 1023
    ensures Paired(dc, dcB) && Paired(ac, acB) && BlockHas(dc, ac, zz, pred)
  {
    hide Kraft, Total, Has, Category, CodeBook.Encodes, Table.Valid;
    Pow2Small();
    CategoryBound(Abs(zz[0] - pred), 11);
    AllAcHave(ac, acB, zz, 1, 0);
  }

  lemma SymbolDecodes(t: Table, book: CodeBook, sym: byte, rest: seq<bool>)
    requires t.Valid() && Kraft(t.counts) && book.Encodes(t) && Has(t, sym)
    ensures Decode(t, book.Sym(sym) + rest) == Ok(sym, rest)
  {
    var k :| 0 <= k < Total(t.counts) && t.vals[k] == sym;
    SymbolRoundTrip(t, book, k, rest);
  }

  lemma {:induction false} ZrlsDecode(t: Table, book: CodeBook, n: nat, s: seq<bool>, k: nat, zz: Block)
    requires Paired(t, book) && (n > 0 ==> Has(t, 0xF0)) && k + 16 * n < 64
    ensures DecodeAc(t, Zrls(book, n) + s, k, zz) == DecodeAc(t, s, k + 16 * n, zz)
  {
    hide Decode, Kraft, Total;
    if n == 0 {
      assert Zrls(book, 0) + s == s;
    } else {
      var z := book.Sym(0xF0);
      ConcatAssoc(z, Zrls(book, n - 1), s);
      SymbolDecodes(t, book, 0xF0, Zrls(book, n - 1) + s);
      ZrlsDecode(t, book, n - 1, s, k + 16, zz);
    }
  }

  /** One nonzero coefficient v after `run` < 16 zeros. */
  lemma {:induction false} ValueDecodes(t: Table, book: CodeBook, run: nat, v: int, s: seq<bool>, k: nat, zz: Block)
    requires Paired(t, book) && HasValue(t, run, v) && run < 16 && v != 0 && -1023 <= v <= 1023 && k + run < 64 && Abs(v) < Pow2(15)
    ensures DecodeAc(t, ValueBits(book, run, v) + s, k, zz) == DecodeAc(t, s, k + run + 1, zz[k + run := v])
  {
    hide Decode, Kraft, Total, Pow2, ValueOf, BitsOf, Extend, CodeWord, Category, Take, Drop;
    Pow2Small();
    var n := Category(Abs(v));
    CategoryBound(Abs(v), 10);
    ExtendInverts(v);
    var sym: byte, extra := 16 * run + n, BitsOf(CodeWord(v), n);
    assert sym / 16 == run && sym % 16 == n;
    ConcatAssoc(book.Sym(sym), extra, s);
    SymbolDecodes(t, book, sym, extra + s);
    TakeDropPrefix(extra + s, extra, s);
  }

  /** A nonzero coefficient at k after any run of zeros. */
  lemma {:induction false} RunDecodes(t: Table, book: CodeBook, run: nat, v: int, s: seq<bool>, k: nat, zz: Block)
    requires Paired(t, book) && HasValue(t, run % 16, v) && (run >= 16 ==> Has(t, 0xF0))
    requires v != 0 && -1023 <= v <= 1023 && run < k < 64 && Abs(v) < Pow2(15)
    ensures DecodeAc(t, Zrls(book, run / 16) + ValueBits(book, run % 16, v) + s, k - run, zz)
         == DecodeAc(t, s, k + 1, zz[k := v])
  {
    hide Decode, Kraft, Total, Zrls, ValueBits, DecodeAc, Pow2;
    ConcatAssoc(Zrls(book, run / 16), ValueBits(book, run % 16, v), s);
    ZrlsDecode(t, book, run / 16, ValueBits(book, run % 16, v) + s, k - run, zz);
    ValueDecodes(t, book, run % 16, v, s, k - run + 16 * (run / 16), zz);
  }

  lemma {:induction false} AcRoundTrip(t: Table, book: CodeBook, zz: Block, k: nat, run: nat, rest: seq<bool>, sofar: Block)
    requires Paired(t, book) && SmallAc(zz) && 1 <= k <= 64 && run < k && AcHas(t, zz, k, run)
    requires forall j :: k - run <= j < k ==> zz[j] == 0
    requires sofar == zz[..k] + seq(64 - k, _ => 0)
    ensures DecodeAc(t, EncodeAc(book, zz, k, run) + rest, k - run, sofar) == Ok(zz, rest)
    decreases 64 - k
  {
    hide Decode, Kraft, Total, Zrls, ValueBits, Has, HasValue, Category;
    if k == 64 {
      assert sofar == zz;
      if run > 0 {
        SymbolDecodes(t, book, 0, rest);
      } else {
        assert [] + rest == rest;
      }
    } else if zz[k] == 0 {
      assert sofar == zz[..k + 1] + seq(64 - (k + 1), _ => 0);
      AcRoundTrip(t, book, zz, k + 1, run + 1, rest, sofar);
    } else {
      Pow2Small();
      var more := EncodeAc(book, zz, k + 1, 0);
      RunDecodes(t, book, run, zz[k], more + rest, k, sofar);
      ConcatAssoc(Zrls(book, run / 16) + ValueBits(book, run % 16, zz[k]), more, rest);
      var next := sofar[k := zz[k]];
      assert next == zz[..k + 1] + seq(64 - (k + 1), _ => 0);
      AcRoundTrip(t, book, zz, k + 1, 0, rest, next);
    }
  }

  lemma {:induction false} DcRoundTrip(t: Table, book: CodeBook, v: int, pred: int, rest: seq<bool>)
    requires Paired(t, book) && HasValue(t, 0, v - pred) && -2047 <= v - pred <= 2047 && Abs(v - pred) < Pow2(15)
    ensures DecodeDc(t, ValueBits(book, 0, v - pred) + rest, pred) == Ok(v, rest)
  {
    hide Decode, Kraft, Total, ValueOf, Extend, CodeWord;
    Pow2Small();
    var d := v - pred;
    var n := Category(Abs(d));
    CategoryBound(Abs(d), 11);
    var extra := BitsOf(CodeWord(d), n);
    ConcatAssoc(book.Sym(n), extra, rest);
    SymbolDecodes(t, book, n, extra + rest);
    TakeDropPrefix(extra + rest, extra, rest);
    if d != 0 {
      ExtendInverts(d);
    }
  }

  /** Decoding what was encoded gives back the coefficients and consumes exactly their bits. */
  lemma {:induction false} BlockRoundTrip(dcT: Table, dcB: CodeBook, acT: Table, acB: CodeBook, zz: Block, pred: int, rest: seq<bool>)
    requires Paired(dcT, dcB) && Paired(acT, acB) && BlockHas(dcT, acT, zz, pred) && InRange(zz) && -1024 <= pred <= 1023
    ensures DecodeBlock(dcT, acT, EncodeBlock(dcB, acB, zz, pred) + rest, pred) == Ok(zz, rest)
  {
    hide DecodeDc, DecodeAc, ValueBits, EncodeAc, Kraft, Total, Has, HasValue, AcHas, Category;
    Pow2Small();
    var more := EncodeAc(acB, zz, 1, 0);
    ConcatAssoc(ValueBits(dcB, 0, zz[0] - pred), more, rest);
    DcRoundTrip(dcT, dcB, zz[0], pred, more + rest);
    assert Start(zz[0]) == zz[..1] + seq(63, _ => 0);
    AcRoundTrip(acT, acB, zz, 1, 0, rest, Start(zz[0]));
  }
}
