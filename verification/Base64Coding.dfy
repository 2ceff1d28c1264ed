/** base64.c's loops: b64_encode, the incremental decoder and b64_decode. */
module Base64Coding {
  import opened Bits
  import opened ByteStuffing
  import opened Base64

  // --- encoding ----------------------------------------------------------------------------

  /** Six bits from the middle of a bit string. */
  lemma SixBits(t: seq<bool>, i: nat)
    requires i + 6 <= |t|
    ensures ValueOf(t[i..i + 6]) == ValueOf(t) / Pow2(|t| - i - 6) % 64
  {
    hide ValueOf, Pow2;
    ValueOfPrefix(t, i + 6);
    ValueOfPrefix(t[..i + 6], i);
    assert t[..i + 6][i..] == t[i..i + 6];
    Pow2Six();
  }

  lemma {:induction false} BytesValue(x: seq<byte>, b: byte)
    ensures ValueOf(BytesBits(x + [b])) == 256 * ValueOf(BytesBits(x)) + b
  {
    hide ValueOf, BitsOf;
    BytesBitsConcat(x, [b]);
    assert BytesBits([b]) == BitsOf(b, 8) + BytesBits([]);
    assert BitsOf(b, 8) + BytesBits([]) == BitsOf(b, 8);
    ValueOfConcat(BytesBits(x), BitsOf(b, 8));
    ValueOfBitsOf(b, 8);
    Pow2Values();
  }

  lemma NoBytes()
    ensures ValueOf(BytesBits([])) == 0
  {
  }

  /** Three bytes as a 24-bit value. */
  function Triple(a: byte, b: byte, c: byte): nat {
    (a as int) * 65536 + (b as int) * 256 + c as int
  }

  /** The k-th character of a 24-bit value. */
  function Char(v: nat, k: nat): byte
    requires k < 4
  {
    EncChar(Quotient(v, Pow2(6 * (3 - k))) % 64)
  }

  /** The four characters of a group of four sextets. */
  lemma FourSextets(s: seq<bool>)
    requires |s| == 24
    ensures var v := ValueOf(s); Sextets(s) == [Char(v, 0), Char(v, 1), Char(v, 2), Char(v, 3)]
  {
    hide ValueOf, Pow2, EncChar;
    SixBits(s, 0);
    SixBits(s, 6);
    SixBits(s, 12);
    SixBits(s, 18);
    var s1, s2, s3 := s[6..], s[12..], s[18..];
    assert s1[6..] == s2 && s2[6..] == s3 && s3[6..] == [];
    assert s1[..6] == s[6..12] && s2[..6] == s[12..18] && s3[..6] == s[18..24];
    Sextet(s);
    Sextet(s1);
    Sextet(s2);
    Sextet(s3);
    NoSextets();
  }

  lemma Sextet(s: seq<bool>)
    requires |s| >= 6
    ensures ValueOf(s[..6]) < 64 && Sextets(s) == [EncChar(ValueOf(s[..6]))] + Sextets(s[6..])
  {
    SextetBound(s[..6]);
  }

  /** The last one or two bytes, shifted up to 24 bits: as many characters as their bits touch. */
  lemma TailSextets(s: seq<bool>)
    requires |s| == 8 || |s| == 16
    ensures var v := ValueOf(s) * Pow2(24 - |s|);
            Sextets(s) == if |s| == 8 then [Char(v, 0), Char(v, 1)] else [Char(v, 0), Char(v, 1), Char(v, 2)]
  {
    hide ValueOf, Pow2, Sextets, EncChar;
    var k := if |s| == 8 then 4 else 2;
    var t := s + Zeros(24 - |s|);
    ValueOfConcat(s, Zeros(24 - |s|));
    ValueOfZeros(24 - |s|);
    FourSextets(t);
    SextetsFill(s, k);
    var a, b := s + Zeros(k), Zeros(24 - |s| - k);
    assert t == a + b;
    SextetsAppend(a, b);
    SextetsLength(a);
    SextetsLength(b);
    var n := |a| / 6;
    assert Sextets(a) == Sextets(t)[..n];
  }

  lemma {:induction false} SextetsLength(s: seq<bool>)
    requires |s| % 6 == 0
    ensures |Sextets(s)| == |s| / 6
  {
    if s != [] {
      SextetsLength(s[6..]);
    }
  }

  function EncodedLen(n: nat): nat {
    (n + 2) / 3 * 4
  }

  method PutGroup(out: array<byte>, o: nat, v: nat, n: nat)
    requires n <= 4 && o + n <= out.Length
    modifies out
    ensures out[..o] == old(out[..o]) && out[o..o + n] == [Char(v, 0), Char(v, 1), Char(v, 2), Char(v, 3)][..n]
    ensures out[o + n..] == old(out[o + n..])
  {
    hide Char;
    for k := 0 to n
      invariant out[..o] == old(out[..o]) && out[o..o + k] == [Char(v, 0), Char(v, 1), Char(v, 2), Char(v, 3)][..k]
      invariant out[o + n..] == old(out[o + n..])
    {
      out[o + k] := Char(v, k);
    }
  }

  /** The first n characters of a group, the rest padding. */
  method PutTail(out: array<byte>, o: nat, v: nat, n: nat)
    requires 2 <= n <= 3 && o + 4 <= out.Length
    modifies out
    ensures out[..o] == old(out[..o])
    ensures out[o..o + 4] == [Char(v, 0), Char(v, 1), if n == 2 then PAD else Char(v, 2), PAD]
  {
    hide Char;
    PutGroup(out, o, v, n);
    ghost var g := [Char(v, 0), Char(v, 1), Char(v, 2), Char(v, 3)][..n];
    assert out[o] == out[o..o + n][0] == g[0] && out[o + 1] == out[o..o + n][1] == g[1];
    if n == 2 {
      out[o + 2] := PAD;
    } else {
      assert out[o + 2] == out[o..o + n][2] == g[2];
    }
    out[o + 3] := PAD;
  }

  /** A group of three bytes makes four characters. */
  lemma GroupEncodes(x: seq<byte>)
    requires |x| == 3
    ensures var v := Triple(x[0], x[1], x[2]);
            Unpadded(x) == [Char(v, 0), Char(v, 1), Char(v, 2), Char(v, 3)]
  {
    hide ValueOf, BytesBits, Sextets, Char;
    NoBytes();
    assert [] + [x[0]] == [x[0]] && [x[0]] + [x[1]] == [x[0], x[1]] && [x[0], x[1]] + [x[2]] == x;
    BytesValue([], x[0]);
    BytesValue([x[0]], x[1]);
    BytesValue([x[0], x[1]], x[2]);
    FourSextets(BytesBits(x));
  }

  lemma TailEncodes(x: seq<byte>)
    requires |x| == 1 || |x| == 2
    ensures var v := Triple(x[0], if |x| == 1 then 0 else x[1], 0);
            Encode(x) == [Char(v, 0), Char(v, 1), if |x| == 1 then PAD else Char(v, 2), PAD]
  {
    hide ValueOf, BytesBits, Sextets, Char;
    NoBytes();
    assert [] + [x[0]] == [x[0]];
    BytesValue([], x[0]);
    if |x| == 2 {
      assert [x[0]] + [x[1]] == x;
      BytesValue([x[0]], x[1]);
    } else {
      assert x == [x[0]];
    }
    Pow2Values();
    TailSextets(BytesBits(x));
    assert Pads(PadLen(|x|)) == if |x| == 1 then [PAD, PAD] else [PAD];
  }

  /** b64_encode. */
  method B64Encode(x: seq<byte>, out: array<byte>) returns (o: nat)
    requires out.Length >= EncodedLen(|x|)
    modifies out
    ensures o == EncodedLen(|x|) && out[..o] == Encode(x)
  {
    hide Encode, Char, Triple;
    var i: nat := 0;
    o := 0;
    ghost var groups := 0;
    assert out[..0] == Encode(x[..0]) by { EncodeNothing(); }
    while i + 3 <= |x|
      invariant i == 3 * groups <= |x| && o == 4 * groups && out[..o] == Encode(x[..i])
    {
      var v := Triple(x[i], x[i + 1], x[i + 2]);
      GroupDone(x, i, groups);
      groups := groups + 1;
      ghost var before := out[..o];
      PutGroup(out, o, v, 4);
      assert out[..o + 4] == before + out[o..o + 4];
      o := o + 4;
      i := i + 3;
    }
    assert x[..|x|] == x;
    if i < |x| {
      EncodeRest(x, i, out, o, groups);
      o := o + 4;
    }
  }

  /** The last one or two bytes. */
  method EncodeRest(x: seq<byte>, i: nat, out: array<byte>, o: nat, ghost groups: nat)
    requires i == 3 * groups && i < |x| < i + 3 && o + 4 <= out.Length && out[..o] == Encode(x[..i])
    modifies out
    ensures out[..o + 4] == Encode(x)
  {
    hide Encode, Char, Triple;
    assert x == x[..i] + x[i..];
    EncodeChunks(x[..i], x[i..]);
    TailEncodes(x[i..]);
    ghost var before := out[..o];
    var v := Triple(x[i], if i + 1 == |x| then 0 else x[i + 1], 0);
    PutTail(out, o, v, |x| - i + 1);
    assert out[..o + 4] == before + out[o..o + 4];
  }

  lemma EncodeNothing()
    ensures Encode([]) == []
  {
  }

  lemma GroupDone(x: seq<byte>, i: nat, groups: nat)
    requires i == 3 * groups && i + 3 <= |x|
    ensures var v := Triple(x[i], x[i + 1], x[i + 2]);
            Encode(x[..i + 3]) == Encode(x[..i]) + [Char(v, 0), Char(v, 1), Char(v, 2), Char(v, 3)]
  {
    hide Char, Unpadded;
    var g := x[i..i + 3];
    assert x[..i + 3] == x[..i] + g;
    EncodeChunks(x[..i], g);
    GroupEncodes(g);
    assert Encode(g) == Unpadded(g) by { assert Unpadded(g) + Pads(0) == Unpadded(g); }
  }

  const RAW_CHUNK: nat := 3072
  const ENC_CHUNK: nat := 4096

  lemma EncodedLenIs(g: nat, r: nat)
    requires r < 3
    ensures EncodedLen(3 * g + r) == 4 * g + if r == 0 then 0 else 4
  {
    DivModUnique(3 * g + r + 2, 3, if r == 0 then g else g + 1, if r == 0 then 2 else r - 1);
  }

  /** Whole groups make four characters each. */
  lemma {:induction false} GroupsLength(x: seq<byte>, g: nat)
    requires |x| == 3 * g
    ensures |Encode(x)| == 4 * g
  {
    hide Encode, Char, Triple;
    if g == 0 {
      EncodeNothing();
      assert x == [];
    } else {
      GroupDone(x, |x| - 3, g - 1);
      GroupsLength(x[..|x| - 3], g - 1);
      assert x[..|x|] == x;
    }
  }

  /** The length announced for an encoding is its length. */
  lemma {:induction false} EncodeLength(x: seq<byte>)
    ensures |Encode(x)| == EncodedLen(|x|)
  {
    hide Encode, Char, Triple, EncodedLen;
    var g, r := |x| / 3, |x| % 3;
    EncodedLenIs(g, r);
    GroupsLength(x[..3 * g], g);
    if r == 0 {
      assert x[..3 * g] == x;
    } else {
      assert x == x[..3 * g] + x[3 * g..];
      EncodeChunks(x[..3 * g], x[3 * g..]);
      TailEncodes(x[3 * g..]);
    }
  }

  /** write_base64: the image in chunks of 3072 bytes, each encoded and sent; the connection
      accepts `writes` of them. */
  method WriteBase64(x: seq<byte>, writes: nat) returns (sent: seq<byte>, ok: bool)
    ensures ok <==> |x| <= RAW_CHUNK * writes
    ensures ok ==> sent == Encode(x) && |sent| == EncodedLen(|x|)
    ensures !ok ==> sent == Encode(x[..RAW_CHUNK * writes]) <= Encode(x)
  {
    hide Encode;
    var enc := new byte[ENC_CHUNK];
    var off: nat, k, groups: nat := 0, 0, 0;
    sent := [];
    EncodeNothing();
    while off < |x|
      invariant off <= |x| && k == groups <= writes && sent == Encode(x[..off])
      invariant off == if RAW_CHUNK * groups <= |x| then RAW_CHUNK * groups else |x|
      invariant groups > 0 ==> RAW_CHUNK * (groups - 1) < |x|
    {
      var chunk := if |x| - off > RAW_CHUNK then RAW_CHUNK else |x| - off;
      var n := B64Encode(x[off..off + chunk], enc);
      assert x[..off + chunk] == x[..off] + x[off..off + chunk];
      ThirdOf(groups);
      EncodeChunks(x[..off], x[off..off + chunk]);
      if k == writes {
        ok := false;
        assert x == x[..off] + x[off..];
        EncodeChunks(x[..off], x[off..]);
        return;
      }
      sent := sent + enc[..n];
      k := k + 1;
      off := off + RAW_CHUNK;
      groups := groups + 1;
      if off > |x| {
        off := |x|;
      }
    }
    assert x[..|x|] == x;
    EncodeLength(x);
    ok := true;
  }

  lemma ThirdOf(groups: nat)
    ensures (RAW_CHUNK * groups) % 3 == 0
  {
    DivModUnique(RAW_CHUNK * groups, 3, 1024 * groups, 0);
  }

  // --- decoding ------------------------------------------------------------------------------

  /** The bits below a power of two that divides the modulus survive the wrap-around. */
  lemma WrapKeepsLow(x: nat, n: nat)
    requires n <= 32
    ensures x % 0x1_0000_0000 % Pow2(n) == x % Pow2(n)
  {
    hide Pow2;
    Pow2Values();
    Pow2Add(32 - n, n);
    ModMod(x, Pow2(32 - n), Pow2(n));
  }

  lemma ModMod(x: nat, a: nat, b: nat)
    requires a > 0 && b > 0
    ensures a * b > 0 && x % (a * b) % b == x % b
  {
    MulGrows(a, b);
    var q, r := x / (a * b), x % (a * b);
    var q', r' := r / b, r % b;
    assert x == q * (a * b) + (q' * b + r');
    Factor(q, a, b, q');
    DivModUnique(x, b, q * a + q', r');
  }

  lemma Factor(q: nat, a: nat, b: nat, q': nat)
    ensures q * (a * b) + q' * b == (q * a + q') * b
  {
  }

  lemma PushLow(acc: nat, w: nat, p: nat, v: nat)
    requires p > 0 && v < 64 && acc % p == w
    ensures (acc * 64 + v) % (p * 64) == w * 64 + v
  {
    var q := acc / p;
    assert acc == q * p + w;
    PushFactor(q, p, w, v);
    DivModUnique(acc * 64 + v, p * 64, q, w * 64 + v);
  }

  lemma PushFactor(q: nat, p: nat, w: nat, v: nat)
    ensures (q * p + w) * 64 + v == q * (p * 64) + (w * 64 + v)
  {
  }

  /** Six more bits into the accumulator. */
  lemma PushSymbol(acc: nat, left: seq<bool>, v: nat)
    requires |left| < 8 && v < 64 && acc % Pow2(|left|) == ValueOf(left)
    ensures (acc * 64 + v) % 0x1_0000_0000 % Pow2(|left| + 6) == ValueOf(left + BitsOf(v, 6))
  {
    hide Pow2, ValueOf, BitsOf;
    ValueOfConcat(left, BitsOf(v, 6));
    ValueOfBitsOf(v, 6);
    Pow2Six();
    Pow2Add(|left|, 6);
    PushLow(acc, ValueOf(left), Pow2(|left|), v);
    WrapKeepsLow(acc * 64 + v, |left| + 6);
  }

  /** The byte above the last bits of the accumulator. */
  lemma PopByte(acc: nat, all: seq<bool>)
    requires |all| >= 8 && acc % Pow2(|all|) == ValueOf(all)
    ensures Quotient(acc, Pow2(|all| - 8)) % 256 == ValueOf(all[..8])
    ensures acc % Pow2(|all| - 8) == ValueOf(all[8..])
  {
    hide Pow2, ValueOf;
    var k := |all| - 8;
    Pow2Values();
    Pow2Add(8, k);
    assert all == all[..8] + all[8..];
    ValueOfConcat(all[..8], all[8..]);
    PopArith(acc, Pow2(k), Pow2(|all|), ValueOf(all[..8]), ValueOf(all[8..]));
  }

  lemma PopArith(acc: nat, p: nat, m: nat, h: nat, l: nat)
    requires p > 0 && m == 256 * p && h < 256 && l < p && acc % m == h * p + l
    ensures Quotient(acc, p) % 256 == h && acc % p == l
  {
    var q, t := SplitOff(acc, m);
    PopFactor(q, p, m, h, l);
    DivModUnique(acc, p, q * 256 + h, l);
    DivModUnique(q * 256 + h, 256, q, h);
  }

  lemma SplitOff(x: nat, m: nat) returns (q: nat, t: nat)
    requires m > 0
    ensures t == q * m && x == t + x % m
  {
    q := x / m;
    t := q * m;
  }

  lemma PopFactor(q: nat, p: nat, m: nat, h: nat, l: nat)
    requires m == 256 * p
    ensures q * m + (h * p + l) == (q * 256 + h) * p + l
  {
    assert q * m == (q * 256) * p;
  }

  lemma FrontOf(a: seq<bool>, b: seq<bool>, w: nat, k: nat)
    requires w <= |a| <= w + k <= |a| + |b|
    ensures (a + b)[..w + k] == a[..w] + (a[w..] + b)[..k]
    ensures (a + b)[w + k..] == (a[w..] + b)[k..]
  {
  }

  /** Six more bits give a byte or stay pending. */
  lemma MoreBits(bits: seq<bool>, more: seq<bool>)
    requires |more| == 6
    ensures var all := Left(bits) + more;
            |Left(bits)| == |bits| % 8 &&
            if |all| < 8 then Bytes(bits + more) == Bytes(bits) && Left(bits + more) == all
            else ValueOf(all[..8]) < 256 && Bytes(bits + more) == Bytes(bits) + [ValueOf(all[..8])] && Left(bits + more) == all[8..]
  {
    hide ValueOf, Pack;
    var w := |bits| - |bits| % 8;
    var all := Left(bits) + more;
    var n := |bits + more|;
    if |all| < 8 {
      assert n - n % 8 == w;
      assert (bits + more)[..w] == bits[..w];
    } else {
      assert n - n % 8 == w + 8;
      FrontOf(bits, more, w, 8);
      PackConcat(bits[..w], all[..8]);
      PackOne(all[..8]);
    }
  }

  lemma PackOne(s: seq<bool>)
    requires |s| == 8
    ensures ValueOf(s) < 256 && Pack(s) == [ValueOf(s)]
  {
    Pow2Values();
    assert s[..8] == s && s[8..] == [];
    assert Pack([]) == [];
  }

  class B64Decoder {
    var acc: nat      // 32 bits
    var bits: nat
    var quad: nat
    var pad: nat
    var err: bool

    ghost var text: seq<byte>   // everything fed so far

    /** The accumulator's low bits are those not delivered yet. */
    static ghost predicate Low(acc: nat, bits: nat, left: seq<bool>) {
      bits == |left| && acc % Pow2(bits) == ValueOf(left)
    }

    ghost predicate Holds(r: Reading)
      reads this
    {
      err == r.Invalid? &&
      (r.Reading? ==> Low(acc, bits, Left(r.bits)) && quad == Quad(r.bits) && pad == r.pad)
    }

    ghost predicate Valid()
      reads this
    {
      Holds(Read(text))
    }

    constructor ()
      ensures Valid() && text == [] && !err
    {
      hide Low;
      ReadNothing();
      NoneLow();
      acc, bits, quad, pad, err, text := 0, 0, 0, 0, false, [];
    }

    static lemma NoneLow()
      ensures Low(0, 0, Left([]))
    {
    }

    /** A symbol of the alphabet: maybe a byte is complete. */
    method Symbol(v: nat, ghost r: Reading) returns (has: bool, b: byte)
      requires v < 64 && r.Reading? && r.pad == 0 && |r.bits| % 6 == 0 && Holds(r)
      modifies this`acc, this`bits, this`quad
      ensures Holds(Reading(r.bits + BitsOf(v, 6), 0))
      ensures Bytes(r.bits + BitsOf(v, 6)) == Bytes(r.bits) + (if has then [b] else [])
    {
      hide ValueOf, Pow2, BitsOf, Pack, Left, Bytes;
      MoreBits(r.bits, BitsOf(v, 6));
      PushSymbol(acc, Left(r.bits), v);
      ghost var all := Left(r.bits) + BitsOf(v, 6);
      NextQuad(r.bits, BitsOf(v, 6));
      quad := (quad + 1) % 4;
      acc := (acc * 64 + v) % 0x1_0000_0000;
      bits := bits + 6;
      has, b := false, 0;
      if bits >= 8 {
        PopByte(acc, all);
        bits := bits - 8;
        has, b := true, Quotient(acc, Pow2(bits)) % 256;
      }
    }

    static lemma NextQuad(bits: seq<bool>, more: seq<bool>)
      requires |bits| % 6 == 0 && |more| == 6
      ensures Quad(bits + more) == (Quad(bits) + 1) % 4
    {
    }

    /** One character of the text. */
    method Char(c: byte) returns (has: bool, b: byte)
      requires Valid() && !err
      modifies this
      ensures Valid() && text == old(text) + [c]
      ensures !err ==> Produced(text) == Produced(old(text)) + (if has then [b] else [])
    {
      hide Low, Left, BitsOf, Bytes, Read, EncChar, Val, Quad;
      ReadMore(text, c);
      ghost var r := Read(text);
      text := text + [c];
      has, b := false, 0;
      if c == LF || c == CR {
        return;
      }
      if c == PAD {
        if quad < 2 || quad + pad >= 4 {
          err := true;
        } else {
          pad := pad + 1;
        }
        return;
      }
      var v := Val(c);
      if v < 0 || pad > 0 {
        err := true;
        return;
      }
      has, b := Symbol(v, r);
    }

    /** b64dec_update: -1 on invalid text, else the number of bytes decoded into out. */
    method Update(s: seq<byte>, out: array<byte>) returns (n: int)
      requires Valid() && out.Length >= (|s| / 4 + 1) * 3
      modifies this, out
      ensures Valid() && text == old(text) + s
      ensures if err then n == -1 else 0 <= n <= out.Length && Produced(text) == Produced(old(text)) + out[..n]
    {
      hide Low, Produced, Read, Left, Quad;
      if err {
        InvalidStays(text, s);
        text := text + s;
        return -1;
      }
      ghost var t0 := text;
      var o := 0;
      for i := 0 to |s|
        invariant Valid() && !err && text == t0 + s[..i]
        invariant 0 <= o <= out.Length && Produced(text) == Produced(t0) + out[..o]
      {
        assert s[..i + 1] == s[..i] + [s[i]];
        ConcatAssoc(t0, s[..i], [s[i]]);
        var has, b := Char(s[i]);
        if err {
          assert s == s[..i + 1] + s[i + 1..];
          ConcatAssoc(t0, s[..i + 1], s[i + 1..]);
          InvalidStays(text, s[i + 1..]);
          text := t0 + s;
          return -1;
        }
        BytesFit(t0, s, i + 1);
        if has {
          out[o] := b;
          o := o + 1;
        }
      }
      n := o;
      assert s[..|s|] == s;
    }

    static lemma {:induction false} InvalidStays(t: seq<byte>, s: seq<byte>)
      requires Read(t).Invalid?
      ensures Read(t + s).Invalid?
    {
      if s == [] {
        assert t + s == t;
      } else {
        assert (t + s)[..|t + s| - 1] == t + s[..|s| - 1];
        InvalidStays(t, s[..|s| - 1]);
      }
    }

    static lemma {:induction false} BitsGrow(t: seq<byte>, s: seq<byte>)
      ensures Read(t + s).Reading? ==> Read(t).Reading? && |Read(t).bits| <= |Read(t + s).bits| <= |Read(t).bits| + 6 * |s|
    {
      hide Val, EncChar, BitsOf;
      if s == [] {
        assert t + s == t;
      } else {
        assert (t + s)[..|t + s| - 1] == t + s[..|s| - 1];
        BitsGrow(t, s[..|s| - 1]);
      }
    }

    /** What n characters of a chunk add fits the space the chunk asks for. */
    static lemma BytesFit(t: seq<byte>, s: seq<byte>, n: nat)
      requires n <= |s| && Read(t + s[..n]).Reading?
      ensures |Produced(t + s[..n])| <= |Produced(t)| + (|s| / 4 + 1) * 3
    {
      hide Read, Pack;
      BitsGrow(t, s[..n]);
      var a, b, k := |Read(t).bits| / 6, |Read(t + s[..n]).bits| / 6, |s|;
      assert 6 * b / 8 <= 6 * a / 8 + (k / 4 + 1) * 3;
    }

    /** b64dec_finish. */
    method Finish() returns (ok: bool)
      requires Valid()
      ensures ok == Ends(Read(text))
    {
      hide Read, Left, Quad, Pow2, ValueOf;
      if err || quad == 1 || (pad > 0 && quad + pad != 4) {
        return false;
      }
      ghost var left := Left(Read(text).bits);
      if bits == 0 {
        assert left == Zeros(0);
        ValueOfZeros(0);
      }
      ok := !(bits != 0 && acc % Pow2(bits) != 0);
    }
  }

  /** b64_decode: the text up to the NUL, the bytes and their number, 0 on any error. */
  method B64Decode(s: seq<byte>, out: array<byte>) returns (n: nat)
    requires 0 !in s
    modifies out
    ensures n <= out.Length
    ensures (|s| / 4 + 1) * 3 + 1 > out.Length || Decode(s).None? ==> n == 0
    ensures (|s| / 4 + 1) * 3 + 1 <= out.Length && Decode(s).Some? ==>
      n == |Decode(s).value| && n < out.Length && out[..n] == Decode(s).value && out[n] == 0
  {
    hide Read, Quad, Left, Bytes, B64Decoder.Low;
    n := 0;
    if (|s| / 4 + 1) * 3 + 1 > out.Length {
      return;
    }
    var d := new B64Decoder();
    var k := d.Update(s, out);
    assert [] + s == s && s[..|s|] == s;
    if k < 0 {
      return;
    }
    var ok := d.Finish();
    if !ok {
      return;
    }
    B64Decoder.BytesFit([], s, |s|);
    NothingProduced();
    assert [] + out[..k] == out[..k];
    n := k;
    out[n] := 0;
  }

  /** The bytes decoded from a text so far. */
  function Produced(s: seq<byte>): seq<byte> {
    if Read(s).Reading? then Bytes(Read(s).bits) else []
  }

  lemma NothingProduced()
    ensures Produced([]) == []
  {
    ReadNothing();
  }
}
