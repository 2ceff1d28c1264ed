/** Canonical Huffman tables: ITU T.81 section C.2 (code generation) and F.2.2.3 (decoding). */
module Huffman {
  import opened Bits

  /** A DHT table: counts[l - 1] symbols have codes of length l, listed in order in vals. */
  datatype Table = Table(counts: seq<byte>, vals: seq<byte>) {
    predicate Valid() {
      |counts| == 16 && Total(counts) <= |vals|
    }
  }

  datatype Decoded<T> = Ok(value: T, rest: seq<bool>) | Corrupt

  /** The smallest code of length l; the numeric value can exceed l bits when the counts are not Kraft. */
  function FirstCode(counts: seq<byte>, l: nat): (c: nat)
    requires |counts| == 16 && 1 <= l <= 17
  {
    if l == 1 then 0 else 2 * (FirstCode(counts, l - 1) + counts[l - 2])
  }

  /** The index in vals of the first symbol of length l. */
  function FirstIndex(counts: seq<byte>, l: nat): (k: nat)
    requires |counts| == 16 && 1 <= l <= 17
  {
    if l == 1 then 0 else FirstIndex(counts, l - 1) + counts[l - 2]
  }

  function Total(counts: seq<byte>): nat
    requires |counts| == 16
  {
    FirstIndex(counts, 17)
  }

  /** Every code fits its length. */
  predicate Kraft(counts: seq<byte>)
    requires |counts| == 16
  {
    FirstCode(counts, 16) + counts[15] <= Pow2(16)
  }

  lemma {:induction false} IndexMono(counts: seq<byte>, l: nat, m: nat)
    requires |counts| == 16 && 1 <= l <= m <= 17
    ensures FirstIndex(counts, l) <= FirstIndex(counts, m)
  {
    if l < m { IndexMono(counts, l, m - 1); }
  }

  /** Codes of a later length start past every extension of an earlier one. */
  lemma {:induction false} CodesGrow(counts: seq<byte>, l: nat, m: nat)
    requires |counts| == 16 && 1 <= l < m <= 17
    ensures FirstCode(counts, m) >= (FirstCode(counts, l) + counts[l - 1]) * Pow2(m - l)
  {
    var x := FirstCode(counts, l) + counts[l - 1];
    if m == l + 1 {
      assert Pow2(1) == 2 * Pow2(0);
    } else {
      CodesGrow(counts, l, m - 1);
      MulTwice(x, Pow2(m - 1 - l));
    }
  }

  lemma KraftAtLength(counts: seq<byte>, l: nat)
    requires |counts| == 16 && 1 <= l <= 16 && Kraft(counts)
    ensures FirstCode(counts, l) + counts[l - 1] <= Pow2(l)
  {
    hide FirstCode, Pow2;
    if l < 16 {
      var x := FirstCode(counts, l) + counts[l - 1];
      CodesGrow(counts, l, 16);
      Pow2Add(l, 16 - l);
      MulCancel(x, Pow2(l), Pow2(16 - l));
    }
  }

  lemma MulCancel(x: int, y: int, m: nat)
    requires m > 0 && x * m <= y * m
    ensures x <= y
  {
    if x > y {
      MulGrows(x - y, m);
      MulDistrib(x, y, m);
    }
  }

  /** The code length of the k-th symbol. */
  function LengthFrom(counts: seq<byte>, k: nat, l: nat): (r: nat)
    requires |counts| == 16 && 1 <= l <= 16
    requires FirstIndex(counts, l) <= k < Total(counts)
    ensures l <= r <= 16
    ensures FirstIndex(counts, r) <= k < FirstIndex(counts, r) + counts[r - 1]
    decreases 16 - l
  {
    if k < FirstIndex(counts, l) + counts[l - 1] then l
    else
      assert l < 16;
      LengthFrom(counts, k, l + 1)
  }

  function LengthOf(counts: seq<byte>, k: nat): (r: nat)
    requires |counts| == 16 && k < Total(counts)
    ensures 1 <= r <= 16
    ensures FirstIndex(counts, r) <= k < FirstIndex(counts, r) + counts[r - 1]
  {
    LengthFrom(counts, k, 1)
  }

  lemma LengthUnique(counts: seq<byte>, k: nat, l: nat)
    requires |counts| == 16 && k < Total(counts) && 1 <= l <= 16
    requires FirstIndex(counts, l) <= k < FirstIndex(counts, l) + counts[l - 1]
    ensures LengthOf(counts, k) == l
  {
    var r := LengthOf(counts, k);
    if r < l { IndexMono(counts, r + 1, l); }
    if l < r { IndexMono(counts, l + 1, r); }
  }

  function CodeOf(counts: seq<byte>, k: nat): nat
    requires |counts| == 16 && k < Total(counts)
  {
    var l := LengthOf(counts, k);
    FirstCode(counts, l) + k - FirstIndex(counts, l)
  }

  /** The bit string of the k-th symbol. */
  function CodeBits(counts: seq<byte>, k: nat): seq<bool>
    requires |counts| == 16 && k < Total(counts)
  {
    BitsOf(CodeOf(counts, k), LengthOf(counts, k))
  }

  lemma CodeFits(counts: seq<byte>, k: nat)
    requires |counts| == 16 && k < Total(counts) && Kraft(counts)
    ensures CodeOf(counts, k) < Pow2(LengthOf(counts, k))
    ensures ValueOf(CodeBits(counts, k)) == CodeOf(counts, k)
  {
    var l := LengthOf(counts, k);
    KraftAtLength(counts, l);
    ValueOfBitsOf(CodeOf(counts, k), l);
    DivModUnique(CodeOf(counts, k), Pow2(l), 0, CodeOf(counts, k));
  }

  /** The symbol index computed for a code in the range of length l stays inside the symbols
      given, whether or not the counts are Kraft. */
  lemma IndexInTable(t: Table, l: nat, code: nat)
    requires t.Valid() && 1 <= l <= 16
    requires FirstCode(t.counts, l) <= code < FirstCode(t.counts, l) + t.counts[l - 1]
    ensures 0 <= FirstIndex(t.counts, l) + code - FirstCode(t.counts, l) < Total(t.counts)
  {
    IndexMono(t.counts, l + 1, 17);
  }

  /** F.2.2.3 from length l on, `code` being the l bits read so far. */
  function DecodeFrom(t: Table, s: seq<bool>, l: nat, code: nat): (r: Decoded<byte>)
    requires t.Valid() && 1 <= l <= 17 && FirstCode(t.counts, l) <= code
    decreases 17 - l
  {
    if l == 17 then Corrupt
    else if code < FirstCode(t.counts, l) + t.counts[l - 1] then
      IndexInTable(t, l, code);
      Ok(t.vals[FirstIndex(t.counts, l) + code - FirstCode(t.counts, l)], s)
    else
      DecodeFrom(t, Drop(s, 1), l + 1, 2 * code + ValueOf(Take(s, 1)))
  }

  lemma DecodeFromStep(t: Table, s: seq<bool>, l: nat, code: nat)
    requires t.Valid() && 1 <= l <= 16 && FirstCode(t.counts, l) <= code
    ensures if code < FirstCode(t.counts, l) + t.counts[l - 1]
            then exists v :: DecodeFrom(t, [], l, code) == Ok(v, []) && DecodeFrom(t, s, l, code) == Ok(v, s)
            else FirstCode(t.counts, l + 1) <= 2 * code + ValueOf(Take(s, 1)) &&
                 DecodeFrom(t, s, l, code) == DecodeFrom(t, Drop(s, 1), l + 1, 2 * code + ValueOf(Take(s, 1)))
  {
    hide FirstIndex, ValueOf, Take, Drop;
    if code < FirstCode(t.counts, l) + t.counts[l - 1] {
      IndexInTable(t, l, code);
      var v := t.vals[FirstIndex(t.counts, l) + code - FirstCode(t.counts, l)];
      assert DecodeFrom(t, [], l, code) == Ok(v, []);
    }
  }

  lemma DecodeEnds(t: Table, s: seq<bool>, code: nat)
    requires t.Valid() && FirstCode(t.counts, 17) <= code
    ensures DecodeFrom(t, s, 17, code).Corrupt?
  {
  }

  lemma DecodeStarts(t: Table, s: seq<bool>)
    requires t.Valid()
    ensures FirstCode(t.counts, 1) <= ValueOf(Take(s, 1))
    ensures Decode(t, s) == DecodeFrom(t, Drop(s, 1), 1, ValueOf(Take(s, 1)))
  {
    hide FirstIndex, ValueOf, Take, Drop;
  }

  /** The symbol at the head of the stream, and the stream after it. */
  function Decode(t: Table, s: seq<bool>): (r: Decoded<byte>)
    requires t.Valid()
  {
    DecodeFrom(t, Drop(s, 1), 1, ValueOf(Take(s, 1)))
  }

  /** The top l bits of a longer code lie past every code of length l. */
  lemma PrefixAbove(counts: seq<byte>, k: nat, l: nat)
    requires |counts| == 16 && Kraft(counts) && k < Total(counts)
    requires 1 <= l < LengthOf(counts, k)
    ensures ValueOf(CodeBits(counts, k)[..l]) >= FirstCode(counts, l) + counts[l - 1]
  {
    hide FirstCode, FirstIndex, Kraft, ValueOf, BitsOf, Pow2;
    var n := LengthOf(counts, k);
    CodeFits(counts, k);
    CodesGrow(counts, l, n);
    ValueOfPrefix(CodeBits(counts, k), l);
    DivAtLeast(CodeOf(counts, k), FirstCode(counts, l) + counts[l - 1], Pow2(n - l));
  }

  /** While reading the code of symbol k, no shorter length claims it. */
  lemma {:induction false} DecodeStep(t: Table, k: nat, s: seq<bool>, rest: seq<bool>, l: nat)
    requires t.Valid() && Kraft(t.counts) && k < Total(t.counts)
    requires s == CodeBits(t.counts, k) + rest
    requires 1 <= l <= LengthOf(t.counts, k)
    ensures FirstCode(t.counts, l) <= ValueOf(Take(s, l))
    ensures DecodeFrom(t, Drop(s, l), l, ValueOf(Take(s, l))) == Ok(t.vals[k], rest)
    decreases LengthOf(t.counts, k) - l
  {
    hide FirstCode, FirstIndex, ValueOf, BitsOf, LengthOf, Kraft, Drop;
    var n := LengthOf(t.counts, k);
    assert Take(s, l) == CodeBits(t.counts, k)[..l];
    if l == n {
      CodeFits(t.counts, k);
      TakeDropPrefix(s, CodeBits(t.counts, k), rest);
    } else {
      PrefixAbove(t.counts, k, l);
      TakeOneMore(s, l);
      DecodeStep(t, k, s, rest, l + 1);
    }
  }

  lemma DivAtLeast(v: nat, x: nat, m: nat)
    requires m > 0 && v >= x * m
    ensures v / m >= x
  {
    assert v == (v / m) * m + v % m;
    MulDistrib(x, v / m, m);
    if v / m < x {
      MulGrows(x - v / m, m);
    }
  }

  /** Decoding inverts the code assignment and consumes exactly the code's bits. */
  lemma {:induction false} DecodeInverts(t: Table, k: nat, rest: seq<bool>)
    requires t.Valid() && Kraft(t.counts) && k < Total(t.counts)
    ensures Decode(t, CodeBits(t.counts, k) + rest) == Ok(t.vals[k], rest)
  {
    var c := CodeBits(t.counts, k);
    DecodeStep(t, k, c + rest, rest, 1);
  }

  /** No code is a prefix of another. */
  lemma {:induction false} PrefixFree(t: Table, i: nat, j: nat)
    requires t.Valid() && Kraft(t.counts) && i < Total(t.counts) && j < Total(t.counts)
    requires CodeBits(t.counts, i) <= CodeBits(t.counts, j)
    ensures i == j
  {
    hide FirstCode, FirstIndex, Kraft, Pow2, LengthOf, Decode, BitsOf, ValueOf;
    var a, b := CodeBits(t.counts, i), CodeBits(t.counts, j);
    var r := b[|a|..];
    assert b == a + r && b == b + [];
    DecodeInverts(t, i, r);
    DecodeInverts(t, j, []);
    assert a == b;
    CodeFits(t.counts, i);
    CodeFits(t.counts, j);
  }

  /** Whatever is decoded, Kraft or not, is a symbol of the table whose code was at the head of the stream. */
  lemma {:induction false} DecodeFromSound(t: Table, s: seq<bool>, l: nat) returns (k: nat)
    requires t.Valid() && 1 <= l <= 17 && FirstCode(t.counts, l) <= ValueOf(Take(s, l))
    requires DecodeFrom(t, Drop(s, l), l, ValueOf(Take(s, l))).Ok?
    ensures k < Total(t.counts)
    ensures Take(s, LengthOf(t.counts, k)) == CodeBits(t.counts, k)
    ensures DecodeFrom(t, Drop(s, l), l, ValueOf(Take(s, l))) == Ok(t.vals[k], Drop(s, LengthOf(t.counts, k)))
    decreases 17 - l
  {
    hide FirstIndex, ValueOf, BitsOf, Take, Drop, LengthOf;
    var code := ValueOf(Take(s, l));
    if code < FirstCode(t.counts, l) + t.counts[l - 1] {
      k := FirstIndex(t.counts, l) + code - FirstCode(t.counts, l);
      IndexInTable(t, l, code);
      LengthUnique(t.counts, k, l);
      BitsOfValueOf(Take(s, l));
    } else {
      TakeOneMore(s, l);
      k := DecodeFromSound(t, s, l + 1);
    }
  }

  lemma {:induction false} DecodeSound(t: Table, s: seq<bool>) returns (k: nat)
    requires t.Valid() && Decode(t, s).Ok?
    ensures k < Total(t.counts)
    ensures Take(s, LengthOf(t.counts, k)) == CodeBits(t.counts, k)
    ensures Decode(t, s) == Ok(t.vals[k], Drop(s, LengthOf(t.counts, k)))
  {
    k := DecodeFromSound(t, s, 1);
  }

  // --- the decoder's lookup arrays -------------------------------------------------

  function Absent(): (t: Table)
    ensures t.Valid() && |t.vals| == 256 && Total(t.counts) <= 256
    ensures t.counts[0] == 1 && (forall i :: 1 <= i < 16 ==> t.counts[i] == 0) && forall i :: 0 <= i < 256 ==> t.vals[i] == 0
  {
    var counts: seq<byte>, zeros: seq<byte> := [1] + seq(15, _ => 0), seq(256, _ => 0);
    OneSymbol(counts, 17);
    Table(counts, zeros)
  }

  lemma {:induction false} OneSymbol(counts: seq<byte>, l: nat)
    requires |counts| == 16 && 1 <= l <= 17 && counts[0] == 1 && forall i :: 1 <= i < 16 ==> counts[i] == 0
    ensures FirstIndex(counts, l) == if l == 1 then 0 else 1
    ensures l > 1 ==> FirstCode(counts, l) > 0
  {
    if l > 1 { OneSymbol(counts, l - 1); }
  }

  class Huff {
    var bits: seq<byte>        // bits[l]: number of codes of length l
    var vals: seq<byte>
    var mincode: seq<int>
    var maxcode: seq<int>
    var valptr: seq<int>
    var present: bool

    ghost var table: Table     // what looking codes up amounts to

    /** All zeros: a lookup finds symbol 0 for a zero bit and nothing else. */
    constructor ()
      ensures |bits| == 17 && |vals| == 256 && |mincode| == 17 && |maxcode| == 17 && |valptr| == 17
      ensures !present && Ready() && table == Absent()
    {
      bits, vals := seq(17, _ => 0), seq(256, _ => 0);
      mincode, maxcode, valptr := seq(17, _ => 0), seq(17, _ => 0), seq(17, _ => 0);
      present, table := false, Absent();
      new;
      forall l | 1 <= l <= 16
        ensures Finds(table.counts, l, mincode[l], maxcode[l], valptr[l])
      {
        OneSymbol(table.counts, l);
      }
    }

    ghost predicate Shaped()
      reads this
    {
      |bits| == 17 && |vals| == 256 && |mincode| == 17 && |maxcode| == 17 && |valptr| == 17 &&
      Total(bits[1..]) <= 256
    }

    /** The entries for codes of length l. */
    static ghost predicate Row(counts: seq<byte>, l: nat, min: int, max: int, ptr: int)
      requires |counts| == 16 && 1 <= l <= 16
    {
      min == FirstCode(counts, l) && ptr == FirstIndex(counts, l) &&
      max == if counts[l - 1] > 0 then min + counts[l - 1] - 1 else -1
    }

    /** With these entries exactly the codes of length l are found. */
    static ghost predicate Finds(counts: seq<byte>, l: nat, min: int, max: int, ptr: int)
      requires |counts| == 16 && 1 <= l <= 16
    {
      Row(counts, l, min, max, ptr) || (counts[l - 1] == 0 && max < FirstCode(counts, l))
    }

    /** Looking a code up in the three arrays is looking it up in the table. */
    ghost predicate Ready()
      reads this
    {
      table.Valid() && |table.vals| == 256 && Total(table.counts) <= 256 && vals == table.vals &&
      |mincode| == 17 && |maxcode| == 17 && |valptr| == 17 &&
      forall l :: 1 <= l <= 16 ==> Finds(table.counts, l, mincode[l], maxcode[l], valptr[l])
    }

    /** Code, of l bits, is found exactly if it is one of that length's, and at its symbol. */
    lemma LooksUp(l: nat, code: nat)
      requires Ready() && 1 <= l <= 16 && FirstCode(table.counts, l) <= code
      ensures code <= maxcode[l] <==> code < FirstCode(table.counts, l) + table.counts[l - 1]
      ensures code <= maxcode[l] ==>
        0 <= valptr[l] + code - mincode[l] < |vals| && DecodeFrom(table, [], l, code) == Ok(vals[valptr[l] + code - mincode[l]], [])
    {
      hide FirstIndex, FirstCode;
      assert Finds(table.counts, l, mincode[l], maxcode[l], valptr[l]);
      if code <= maxcode[l] { IndexInTable(table, l, code); }
    }

    method Build()
      requires Shaped()
      modifies this
      ensures Ready() && present && bits == old(bits) && vals == old(vals) && table == Table(bits[1..], vals)
      ensures forall l :: 1 <= l <= 16 ==> Row(bits[1..], l, mincode[l], maxcode[l], valptr[l])
    {
      hide Finds;
      var code: int, k: int := 0, 0;
      ghost var counts := bits[1..];
      var l := 1;
      while l <= 16
        invariant 1 <= l <= 17 && bits == old(bits) && vals == old(vals)
        invariant |mincode| == 17 && |maxcode| == 17 && |valptr| == 17
        invariant code == FirstCode(counts, l) && k == FirstIndex(counts, l)
        invariant forall m :: 1 <= m < l ==> Row(counts, m, mincode[m], maxcode[m], valptr[m])
      {
        valptr := valptr[l := k];
        mincode := mincode[l := code];
        assert counts[l - 1] == bits[l];
        code := code + bits[l];
        k := k + bits[l];
        maxcode := maxcode[l := if bits[l] > 0 then code - 1 else -1];
        code := 2 * code;
        l := l + 1;
      }
      present, table := true, Table(counts, vals);
      forall m | 1 <= m <= 16
        ensures Finds(counts, m, mincode[m], maxcode[m], valptr[m])
      {
        RowFinds(counts, m, mincode[m], maxcode[m], valptr[m]);
      }
    }

    static lemma RowFinds(counts: seq<byte>, l: nat, min: int, max: int, ptr: int)
      requires |counts| == 16 && 1 <= l <= 16 && Row(counts, l, min, max, ptr)
      ensures Finds(counts, l, min, max, ptr)
    {
    }
  }

  // --- the encoder's code book -------------------------------------------------------

  /** code[sym] and size[sym] for each of the 256 symbols; size 0 for symbols without a code. */
  datatype CodeBook = CodeBook(code: seq<nat>, size: seq<nat>) {
    predicate Valid() {
      |code| == 256 && |size| == 256 && forall i :: 0 <= i < 256 ==> size[i] <= 16
    }

    function Sym(sym: byte): seq<bool>
      requires Valid()
    {
      BitsOf(code[sym], size[sym])
    }

    /** The book holds the codes of table t. */
    ghost predicate Encodes(t: Table)
      requires t.Valid()
    {
      Valid() &&
      forall k :: 0 <= k < Total(t.counts) ==>
        code[t.vals[k]] == CodeOf(t.counts, k) && size[t.vals[k]] == LengthOf(t.counts, k)
    }
  }

  ghost predicate Distinct(t: Table)
    requires t.Valid()
  {
    forall i, j :: 0 <= i < j < Total(t.counts) ==> t.vals[i] != t.vals[j]
  }

  /** The i-th symbol of length l. */
  lemma CodeAt(counts: seq<byte>, l: nat, i: nat)
    requires |counts| == 16 && Kraft(counts) && 1 <= l <= 16 && i < counts[l - 1]
    ensures var k := FirstIndex(counts, l) + i;
            k < Total(counts) && LengthOf(counts, k) == l && CodeOf(counts, k) == FirstCode(counts, l) + i < 0x1_0000
  {
    var k := FirstIndex(counts, l) + i;
    IndexMono(counts, l + 1, 17);
    LengthUnique(counts, k, l);
    CodeFits(counts, k);
    Pow2Mono(l, 16);
    Pow2Values();
  }

  /** The first k symbols have their codes and no other symbol has one. */
  ghost predicate Filled(t: Table, code: seq<nat>, size: seq<nat>, k: nat)
    requires t.Valid() && k <= Total(t.counts)
  {
    |code| == 256 && |size| == 256 &&
    (forall j :: 0 <= j < k ==> code[t.vals[j]] == CodeOf(t.counts, j)) &&
    (forall j :: 0 <= j < k ==> size[t.vals[j]] == LengthOf(t.counts, j)) &&
    (forall s: byte :: s !in t.vals[..k] ==> size[s] == 0) &&
    (forall s: byte :: size[s] <= 16)
  }

  lemma EmptyBook(t: Table, code: seq<nat>, size: seq<nat>)
    requires t.Valid() && |code| == 256 && |size| == 256
    requires forall s: byte :: size[s] == 0
    ensures Filled(t, code, size, 0)
  {
  }

  lemma FullBook(t: Table, code: seq<nat>, size: seq<nat>)
    requires t.Valid() && Filled(t, code, size, Total(t.counts))
    ensures CodeBook(code, size).Encodes(t)
    ensures forall s: byte :: s !in t.vals[..Total(t.counts)] ==> size[s] == 0
  {
  }

  lemma FillStep(t: Table, code: seq<nat>, size: seq<nat>, k: nat)
    requires t.Valid() && k < Total(t.counts) && Distinct(t) && Filled(t, code, size, k)
    ensures Filled(t, code[t.vals[k] := CodeOf(t.counts, k)], size[t.vals[k] := LengthOf(t.counts, k)], k + 1)
  {
    hide FirstCode, FirstIndex, CodeOf;
    assert t.vals[..k + 1] == t.vals[..k] + [t.vals[k]];
  }

  /** huff_codes: two nested loops over lengths and symbols. Codes are stored as 16-bit values. */
  method HuffCodes(t: Table) returns (book: CodeBook)
    requires t.Valid() && Kraft(t.counts) && Distinct(t)
    ensures book.Encodes(t)
    ensures forall s: byte :: s !in t.vals[..Total(t.counts)] ==> book.size[s] == 0
  {
    hide CodeOf, LengthOf, Kraft, Filled, Distinct, Pow2;
    var code: seq<nat>, size: seq<nat> := seq(256, _ => 0), seq(256, _ => 0);
    var k: nat, c: nat := 0, 0;
    EmptyBook(t, code, size);
    var l := 1;
    while l <= 16
      invariant 1 <= l <= 17
      invariant k == FirstIndex(t.counts, l) && c == FirstCode(t.counts, l) && k <= Total(t.counts)
      invariant |code| == 256 && |size| == 256 && Filled(t, code, size, k)
    {
      var i := 0;
      IndexMono(t.counts, l + 1, 17);
      while i < t.counts[l - 1]
        invariant 0 <= i <= t.counts[l - 1]
        invariant k == FirstIndex(t.counts, l) + i && c == FirstCode(t.counts, l) + i && k <= FirstIndex(t.counts, l + 1)
        invariant |code| == 256 && |size| == 256 && Filled(t, code, size, k)
      {
        CodeAt(t.counts, l, i);
        FillStep(t, code, size, k);
        code := code[t.vals[k] := c % 0x1_0000];
        size := size[t.vals[k] := l];
        c := c + 1;
        i, k := i + 1, k + 1;
      }
      c := 2 * c;
      l := l + 1;
    }
    FullBook(t, code, size);
    book := CodeBook(code, size);
  }

  /** What the encoder writes for a symbol of the table, the decoder reads back. */
  lemma {:induction false} SymbolRoundTrip(t: Table, book: CodeBook, k: nat, rest: seq<bool>)
    requires t.Valid() && Kraft(t.counts) && book.Encodes(t) && k < Total(t.counts)
    ensures Decode(t, book.Sym(t.vals[k]) + rest) == Ok(t.vals[k], rest)
  {
    DecodeInverts(t, k, rest);
  }
}
