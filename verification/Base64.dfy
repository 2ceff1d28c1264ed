/** Base64 (RFC 4648 section 4): the encoder and the incremental decoder of base64.c. */
module Base64 {
  import opened Bits
  import opened ByteStuffing
  import opened Wrappers

  const PAD: byte := 0x3D
  const CR: byte := 13
  const LF: byte := 10

  /** The character of a 6-bit value. */
  function EncChar(v: nat): (c: byte)
    requires v < 64
    ensures c != PAD && c != CR && c != LF
  {
    if v < 26 then 65 + v
    else if v < 52 then 97 + v - 26
    else if v < 62 then 48 + v - 52
    else if v == 62 then 43 else 47
  }

  /** b64_val. */
  function Val(c: byte): (v: int)
    ensures -1 <= v < 64
    ensures v >= 0 ==> EncChar(v) == c
  {
    if 65 <= c <= 90 then c - 65
    else if 97 <= c <= 122 then c - 97 + 26
    else if 48 <= c <= 57 then c - 48 + 52
    else if c == 43 then 62
    else if c == 47 then 63
    else -1
  }

  lemma ValInverts(v: nat)
    requires v < 64
    ensures Val(EncChar(v)) == v
  {
  }

  lemma SextetBound(s: seq<bool>)
    requires |s| == 6
    ensures ValueOf(s) < 64
  {
    assert Pow2(6) == 64;
  }

  /** The characters of a bit string, six bits each, the last group filled with zeros. */
  function Sextets(s: seq<bool>): (t: seq<byte>) {
    if s == [] then []
    else if |s| < 6 then
      SextetBound(s + Zeros(6 - |s|));
      [EncChar(ValueOf(s + Zeros(6 - |s|)))]
    else
      SextetBound(s[..6]);
      [EncChar(ValueOf(s[..6]))] + Sextets(s[6..])
  }

  function Unpadded(x: seq<byte>): seq<byte> {
    Sextets(BytesBits(x))
  }

  function PadLen(n: nat): nat {
    if n % 3 == 0 then 0 else 3 - n % 3
  }

  function Pads(n: nat): (p: seq<byte>)
    ensures |p| == n
  {
    seq(n, _ => PAD)
  }

  /** The encoding of a byte string. */
  function Encode(x: seq<byte>): seq<byte> {
    Unpadded(x) + Pads(PadLen(|x|))
  }

  // --- decoding ----------------------------------------------------------------------------

  /** What a text has given so far: the bits of its symbols and the number of '=' after them. */
  datatype Reading = Reading(bits: seq<bool>, pad: nat) | Invalid

  /** Symbols in the last group of four. */
  function Quad(bits: seq<bool>): nat {
    |bits| / 6 % 4
  }

  function ReadChar(r: Reading, c: byte): Reading {
    if r.Invalid? || c == CR || c == LF then r
    else if c == PAD then
      if Quad(r.bits) < 2 || Quad(r.bits) + r.pad >= 4 then Invalid else Reading(r.bits, r.pad + 1)
    else if Val(c) < 0 || r.pad > 0 then Invalid
    else Reading(r.bits + BitsOf(Val(c), 6), 0)
  }

  function Read(s: seq<byte>): (r: Reading)
    ensures r.Reading? ==> |r.bits| % 6 == 0 && (r.pad > 0 ==> Quad(r.bits) >= 2 && Quad(r.bits) + r.pad <= 4)
  {
    if s == [] then Reading([], 0) else ReadChar(Read(s[..|s| - 1]), s[|s| - 1])
  }

  /** The whole bytes of a bit string. */
  function Bytes(bits: seq<bool>): (bs: seq<byte>)
    ensures |bs| == |bits| / 8
  {
    Pack(bits[..|bits| - |bits| % 8])
  }

  function Left(bits: seq<bool>): seq<bool> {
    bits[|bits| - |bits| % 8..]
  }

  /** A text may end here: b64dec_finish. */
  predicate Ends(r: Reading) {
    r.Reading? && Quad(r.bits) != 1 && (r.pad > 0 ==> Quad(r.bits) + r.pad == 4) && ValueOf(Left(r.bits)) == 0
  }

  function Decode(s: seq<byte>): Option<seq<byte>> {
    if Ends(Read(s)) then Some(Bytes(Read(s).bits)) else None
  }

  /** The text without its line breaks. */
  function Clean(s: seq<byte>): seq<byte> {
    if s == [] then []
    else if s[|s| - 1] == CR || s[|s| - 1] == LF then Clean(s[..|s| - 1])
    else Clean(s[..|s| - 1]) + [s[|s| - 1]]
  }

  // --- what exactly is accepted ---------------------------------------------------------------

  lemma {:induction false} SextetsAppend(a: seq<bool>, b: seq<bool>)
    requires |a| % 6 == 0
    ensures Sextets(a + b) == Sextets(a) + Sextets(b)
  {
    hide ValueOf, EncChar;
    if a == [] {
      assert a + b == b;
    } else {
      SextetsAppend(a[6..], b);
      var ab := a + b;
      assert ab[6..] == a[6..] + b && ab[..6] == a[..6];
      SextetBound(a[..6]);
      ConcatAssoc([EncChar(ValueOf(a[..6]))], Sextets(a[6..]), Sextets(b));
    }
  }

  lemma Pow2Six()
    ensures Pow2(6) == 64 && Pow2(12) == 4096 && Pow2(18) == 262144 && Pow2(0) == 1
  {
    assert Pow2(6) == 64;
    Pow2Add(6, 6);
    Pow2Add(12, 6);
  }

  lemma OneSextet(v: nat)
    requires v < 64
    ensures Sextets(BitsOf(v, 6)) == [EncChar(v)]
  {
    hide ValueOf, EncChar, BitsOf, Pow2;
    ValueOfBitsOf(v, 6);
    Pow2Six();
    DivModUnique(v, 64, 0, v);
    var s := BitsOf(v, 6);
    SextetBound(s);
    assert s[..6] == s && s[6..] == [];
  }

  /** Filling the last group with zeros changes no character. */
  lemma {:induction false} SextetsFill(s: seq<bool>, k: nat)
    requires k < 6 && (|s| + k) % 6 == 0
    ensures Sextets(s + Zeros(k)) == Sextets(s)
    decreases |s|
  {
    hide ValueOf, EncChar;
    if |s| < 6 {
      if s == [] {
        assert s + Zeros(k) == [];
      } else {
        var t := s + Zeros(k);
        assert k == (6 - |s|) % 6;
        assert t[..6] == t && t[6..] == [];
      }
    } else {
      SextetsFill(s[6..], k);
      var t := s + Zeros(k);
      assert t[6..] == s[6..] + Zeros(k) && t[..6] == s[..6];
    }
  }

  /** A text read without error is its symbols and its padding, line breaks aside. */
  lemma {:induction false} ReadShape(s: seq<byte>)
    requires Read(s).Reading?
    ensures Clean(s) == Sextets(Read(s).bits) + Pads(Read(s).pad)
  {
    hide BitsOf, Val, EncChar, Sextets;
    if s == [] {
      NoSextets();
    } else {
      ReadShape(s[..|s| - 1]);
      var r, c := Read(s[..|s| - 1]), s[|s| - 1];
      if c == PAD {
        assert Pads(r.pad) + [PAD] == Pads(r.pad + 1);
      } else if c != CR && c != LF {
        OneSextet(Val(c));
        SextetsAppend(r.bits, BitsOf(Val(c), 6));
      }
    }
  }

  lemma NoSextets()
    ensures Sextets([]) == []
  {
  }

  lemma {:induction false} ReadClean(s: seq<byte>)
    ensures Read(Clean(s)) == Read(s)
  {
    hide BitsOf, Val, EncChar;
    if s != [] {
      ReadClean(s[..|s| - 1]);
      var c, t := s[|s| - 1], Clean(s[..|s| - 1]);
      if c != CR && c != LF {
        assert (t + [c])[..|t|] == t;
      }
    }
  }

  lemma ReadMore(t: seq<byte>, c: byte)
    ensures Read(t + [c]) == ReadChar(Read(t), c)
  {
    assert (t + [c])[..|t|] == t;
  }

  /** Reading back the characters of m groups of six bits, the last filled with k zeros. */
  lemma {:induction false} ReadSextets(s: seq<bool>, k: nat, m: nat)
    requires k < 6 && |s| + k == 6 * m
    ensures Read(Sextets(s)) == Reading(s + Zeros(k), 0)
    decreases m
  {
    hide ValueOf, EncChar, BitsOf, Val, Read, Sextets;
    var t := s + Zeros(k);
    if m == 0 {
      assert s == [] && t == [];
      NoSextets();
      ReadNothing();
    } else {
      SextetsFill(s, k);
      var a, b := t[..6 * (m - 1)], t[6 * (m - 1)..];
      assert t == a + b;
      SextetsAppend(a, b);
      SextetBound(b);
      BitsOfValueOf(b);
      OneSextet(ValueOf(b));
      assert a + Zeros(0) == a;
      ReadSextets(a, 0, m - 1);
      ReadMore(Sextets(a), EncChar(ValueOf(b)));
      ValInverts(ValueOf(b));
    }
  }

  lemma ReadNothing()
    ensures Read([]) == Reading([], 0)
  {
  }

  lemma {:induction false} ReadPads(t: seq<byte>, n: nat)
    requires Read(t).Reading? && Read(t).pad == 0 && Quad(Read(t).bits) >= 2 && Quad(Read(t).bits) + n <= 4
    ensures Read(t + Pads(n)) == Reading(Read(t).bits, n)
  {
    hide Read;
    if n == 0 {
      assert t + Pads(0) == t;
    } else {
      ReadPads(t, n - 1);
      ReadMore(t + Pads(n - 1), PAD);
      assert t + Pads(n - 1) + [PAD] == t + Pads(n);
    }
  }

  /** Zero bits that fill the last group of the encoding of n bytes. */
  function FillLen(n: nat): (k: nat)
    ensures k < 6
  {
    if n % 3 == 0 then 0 else if n % 3 == 1 then 4 else 2
  }

  /** Symbols in the encoding of n bytes. */
  function SymbolCount(n: nat): nat {
    4 * (n / 3) + (if n % 3 == 0 then 0 else n % 3 + 1)
  }

  lemma FillArith(n: nat)
    ensures 8 * n + FillLen(n) == 6 * SymbolCount(n)
    ensures SymbolCount(n) % 4 == if n % 3 == 0 then 0 else n % 3 + 1
    ensures (8 * n + FillLen(n)) / 8 == n && (8 * n + FillLen(n)) % 8 == FillLen(n)
  {
    var a, r := n / 3, n % 3;
    assert n == 3 * a + r;
    DivModUnique(SymbolCount(n), 4, a, if r == 0 then 0 else r + 1);
    DivModUnique(8 * n + FillLen(n), 8, n, FillLen(n));
  }

  lemma QuadOf(bits: seq<bool>, m: nat)
    requires |bits| == 6 * m
    ensures Quad(bits) == m % 4
  {
    DivModUnique(|bits|, 6, m, 0);
  }

  /** The bits read from an unpadded or a padded encoding. */
  lemma {:induction false} ReadEncoding(x: seq<byte>)
    ensures Read(Unpadded(x)) == Reading(BytesBits(x) + Zeros(FillLen(|x|)), 0)
    ensures Read(Encode(x)) == Reading(BytesBits(x) + Zeros(FillLen(|x|)), PadLen(|x|))
  {
    hide Read, Sextets, BytesBits, FillLen, PadLen, Quad, SymbolCount;
    var b := BytesBits(x);
    var k := FillLen(|x|);
    FillArith(|x|);
    ReadSextets(b, k, SymbolCount(|x|));
    QuadOf(b + Zeros(k), SymbolCount(|x|));
    PadArith(|x|);
    if PadLen(|x|) > 0 {
      ReadPads(Unpadded(x), PadLen(|x|));
    } else {
      assert Unpadded(x) + Pads(0) == Unpadded(x);
    }
  }

  lemma PadArith(n: nat)
    ensures PadLen(n) > 0 <==> n % 3 != 0
    ensures n % 3 != 0 ==> n % 3 + 1 + PadLen(n) == 4
  {
  }

  lemma WholeAndLeft(a: seq<bool>, b: seq<bool>, n: nat)
    requires |a| == 8 * n && |b| < 8
    ensures Bytes(a + b) == Pack(a) && Left(a + b) == b
  {
    hide Pack;
    DivModUnique(|a + b|, 8, n, |b|);
    assert (a + b)[..8 * n] == a;
  }

  lemma EncodingEnds(x: seq<byte>, p: nat)
    requires p == 0 || p == PadLen(|x|)
    ensures Ends(Reading(BytesBits(x) + Zeros(FillLen(|x|)), p))
    ensures Bytes(BytesBits(x) + Zeros(FillLen(|x|))) == x
  {
    hide BytesBits, ValueOf, Pack, FillLen, PadLen, Quad, SymbolCount, Bytes, Left;
    var k := FillLen(|x|);
    var b := BytesBits(x) + Zeros(k);
    FillArith(|x|);
    QuadOf(b, SymbolCount(|x|));
    PadArith(|x|);
    WholeAndLeft(BytesBits(x), Zeros(k), |x|);
    ValueOfZeros(k);
    PackBytes(x);
  }

  lemma {:induction false} PackBytes(x: seq<byte>)
    ensures Pack(BytesBits(x)) == x
  {
    hide ValueOf, BitsOf, Pow2;
    if x != [] {
      PackBytes(x[1..]);
      var b := BytesBits(x);
      assert b[..8] == BitsOf(x[0], 8) && b[8..] == BytesBits(x[1..]);
      ValueOfBitsOf(x[0], 8);
      Pow2Values();
    }
  }

  lemma ZeroBits(s: seq<bool>)
    requires ValueOf(s) == 0
    ensures s == Zeros(|s|)
  {
    ValueOfZeros(|s|);
    ValueInjective(s, Zeros(|s|));
  }

  /** A text that may end is the encoding of its bytes, padded or not. */
  lemma {:induction false} EndsShape(r: Reading)
    requires r.Reading? && |r.bits| % 6 == 0 && (r.pad > 0 ==> Quad(r.bits) >= 2) && Ends(r)
    ensures var x := Bytes(r.bits);
            Sextets(r.bits) == Unpadded(x) && (r.pad == 0 || r.pad == PadLen(|x|))
  {
    hide ValueOf, Sextets, Pack, BytesBits;
    var b := r.bits;
    var x := Bytes(b);
    var whole := b[..|b| - |b| % 8];
    BytesBitsPack(whole);
    ZeroBits(Left(b));
    assert b == whole + Left(b);
    LeftArith(|b| / 6);
    SextetsFill(whole, |b| % 8);
  }

  lemma LeftArith(m: nat)
    requires m % 4 != 1
    ensures (6 * m) % 8 < 6
    ensures m % 4 >= 2 ==> PadLen(6 * m / 8) == 4 - m % 4
  {
    var a, r := m / 4, m % 4;
    var n := if r == 0 then 0 else if r == 2 then 1 else 2;
    DivModUnique(6 * m, 8, 3 * a + n, 6 * r - 8 * n);
    DivModUnique(3 * a + n, 3, a, n);
  }

  /** The decoder accepts exactly the encodings, with any line breaks, padded or without padding,
      and gives back the bytes that were encoded. */
  lemma {:induction false} DecodeIff(s: seq<byte>, x: seq<byte>)
    ensures Decode(s) == Some(x) <==> Clean(s) == Unpadded(x) || Clean(s) == Encode(x)
  {
    hide ValueOf, Sextets, Pack, BytesBits, Quad, PadLen, FillLen, Clean, Read, Left;
    ReadEncoding(x);
    ReadClean(s);
    EncodingEnds(x, 0);
    EncodingEnds(x, PadLen(|x|));
    if Decode(s) == Some(x) {
      ReadShape(s);
      EndsShape(Read(s));
      assert Sextets(Read(s).bits) + Pads(0) == Sextets(Read(s).bits);
    }
  }

  lemma PadSum(g: nat, n: nat)
    ensures PadLen(3 * g) == 0 && PadLen(3 * g + n) == PadLen(n)
  {
    DivModUnique(3 * g, 3, g, 0);
    DivModUnique(3 * g + n, 3, g + n / 3, n % 3);
  }

  /** Chunks whose size is a multiple of three encode to the encoding of the whole. */
  lemma {:induction false} EncodeChunks(a: seq<byte>, b: seq<byte>)
    requires |a| % 3 == 0
    ensures Encode(a + b) == Encode(a) + Encode(b)
  {
    hide Sextets, BytesBits, PadLen;
    BytesBitsConcat(a, b);
    PadSum(|a| / 3, |b|);
    assert |BytesBits(a)| == 6 * (4 * (|a| / 3));
    SextetsAppend(BytesBits(a), BytesBits(b));
    assert Pads(0) == [];
    assert Unpadded(a) + Pads(0) == Unpadded(a);
    ConcatAssoc(Unpadded(a), Unpadded(b), Pads(PadLen(|b|)));
  }
}
