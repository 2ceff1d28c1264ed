/** The decoder's side of an entropy-coded segment: fill, getbits, huff_decode and restart of jpeg.c. */
module BitReading {
  import opened Bits
  import opened ByteStuffing
  import Huffman

  /** The data after the next RSTn marker. */
  function AfterRst(d: seq<byte>): (r: seq<seq<byte>>)
    ensures |r| <= 1
  {
    if |d| < 2 then []
    else if d[0] == 0xFF && 0xD0 <= d[1] <= 0xD7 then [d[2..]]
    else AfterRst(d[1..])
  }

  lemma AfterRstStep(d: seq<byte>)
    requires |d| >= 2 && !(d[0] == 0xFF && 0xD0 <= d[1] <= 0xD7)
    ensures AfterRst(d) == AfterRst(d[1..])
  {
  }

  lemma AfterRstStop(d: seq<byte>)
    ensures |d| < 2 ==> AfterRst(d) == []
    ensures |d| >= 2 && d[0] == 0xFF && 0xD0 <= d[1] <= 0xD7 ==> AfterRst(d) == [d[2..]]
  {
  }

  /** Entropy-coded bytes never hold a restart marker: only what follows them matters. */
  lemma {:induction false} AfterRstOfTail(d: seq<byte>)
    ensures AfterRst(d) == AfterRst(Tail(d))
  {
    if d == [] || AtMarker(d) {
    } else if d[0] == 0xFF {
      assert d[1..][1..] == d[2..];
      AfterRstOfTail(d[2..]);
    } else {
      AfterRstOfTail(d[1..]);
    }
  }

  /** The 32-bit buffer holding the bits of buf at its top. */
  function Window(buf: seq<bool>): (w: seq<bool>)
    requires |buf| <= 32
    ensures |w| == 32
  {
    buf + Zeros(32 - |buf|)
  }

  lemma WindowValue(buf: seq<bool>)
    requires |buf| <= 32
    ensures ValueOf(Window(buf)) == ValueOf(buf) * Pow2(32 - |buf|)
  {
    hide ValueOf, Pow2;
    ValueOfConcat(buf, Zeros(32 - |buf|));
    ValueOfZeros(32 - |buf|);
  }

  lemma PushArith(x: nat, b: nat, p: nat)
    ensures (x * 256 + b) * p == x * (256 * p) + b * p
  {
  }

  /** OR-ing a byte in below the buffered bits: the low bits are clear, so it is an addition. */
  lemma PushByte(buf: seq<bool>, b: byte)
    requires |buf| <= 24
    ensures ValueOf(Window(buf + BitsOf(b, 8))) == ValueOf(Window(buf)) + b * Pow2(24 - |buf|)
  {
    hide ValueOf, BitsOf, Pow2, Window;
    WindowValue(buf);
    WindowValue(buf + BitsOf(b, 8));
    ValueOfConcat(buf, BitsOf(b, 8));
    ValueOfBitsOf(b, 8);
    Pow2Values();
    Pow2Add(8, 24 - |buf|);
    PushArith(ValueOf(buf), b, Pow2(24 - |buf|));
  }

  lemma MulReorder(q: nat, p: nat, r: nat, m: nat)
    ensures (q * p + r) * m == q * (p * m) + r * m
  {
  }

  lemma ShiftArith(v: nat, q: nat, p: nat, r: nat, m: nat)
    requires v == q * p + r && r < p && m > 0
    ensures v * m % (p * m) == r * m
  {
    MulGrows(p - r, m);
    MulDistrib(p, r, m);
    MulReorder(q, p, r, m);
    DivModUnique(v * m, p * m, q, r * m);
  }

  /** A 32-bit shift left drops the top n bits. */
  lemma ShiftOut(w: seq<bool>, n: nat)
    requires n <= |w|
    ensures ValueOf(w[n..] + Zeros(n)) == ValueOf(w) * Pow2(n) % Pow2(|w|)
  {
    hide ValueOf, Pow2;
    var q, r := ValueOf(w[..n]), ValueOf(w[n..]);
    var p, m := Pow2(|w| - n), Pow2(n);
    assert w == w[..n] + w[n..];
    ValueOfConcat(w[..n], w[n..]);
    ValueOfConcat(w[n..], Zeros(n));
    ValueOfZeros(n);
    Pow2Add(|w| - n, n);
    ShiftArith(ValueOf(w), q, p, r, m);
  }

  /** Taking n bits off the top of the buffer. */
  lemma PopBits(buf: seq<bool>, n: nat)
    requires n <= |buf| <= 32
    ensures ValueOf(buf[..n]) == ValueOf(Window(buf)) / Pow2(32 - n)
    ensures ValueOf(Window(buf[n..])) == ValueOf(Window(buf)) * Pow2(n) % Pow2(32)
  {
    hide ValueOf, Pow2;
    var w := Window(buf);
    ValueOfPrefix(w, n);
    ShiftOut(w, n);
    assert w[..n] == buf[..n];
    assert Window(buf[n..]) == w[n..] + Zeros(n);
  }

  /** What the buffer state means: `buf` then the bits of the data `d` still to read are the
      segment's undelivered bits `rest` and `pad` zeros; `tail` is the data from the next marker on. */
  ghost predicate Buffered(d: seq<byte>, bits: nat, marker: bool, buf: seq<bool>,
                           rest: seq<bool>, pad: nat, tail: seq<byte>)
  {
    |buf| <= 32 && bits == ValueOf(Window(buf)) &&
    (marker ==> AtMarker(d)) &&
    Tail(d) == tail &&
    buf + BytesBits(Unstuff(d)) == rest + Zeros(pad) &&
    (pad > 0 ==> Unstuff(d) == [])
  }

  /** How full the buffer is after a read of `last` bits; nothing is buffered before the first. */
  predicate Lead(nbits: nat, last: nat) {
    if last == 0 then nbits == 0 else 25 <= nbits + last <= 32
  }

  /** The bytes of the segment still in the data, when `rest` is to be delivered and the last read was
      one of `last` bits: the buffer was filled to more than 24 bits for it. */
  function BytesAhead(rest: seq<bool>, last: nat): (k: nat)
    ensures 8 * k <= |rest|
  {
    if last == 0 then |rest| / 8 else if last > 25 || |rest| + last < 25 then 0 else (|rest| + last - 25) / 8
  }

  /** The data bytes still to be read: the rest of the segment, stuffed, and what follows it. */
  function Unread(rest: seq<bool>, tail: seq<byte>, last: nat): nat {
    |Stuff(Pack(rest[|rest| - 8 * BytesAhead(rest, last)..]))| + |tail|
  }

  lemma UnreadIs(d: seq<byte>, bits: nat, marker: bool, buf: seq<bool>, rest: seq<bool>, pad: nat, tail: seq<byte>, last: nat)
    requires Buffered(d, bits, marker, buf, rest, pad, tail) && Lead(|buf|, last) && last <= 25
    ensures |d| == Unread(rest, tail, last)
  {
    hide ValueOf, Window, AtMarker, Unstuff, Tail, Stuff, Pack, BytesBits;
    var u := Unstuff(d);
    StuffUnstuff(d);
    PackBytesBits(u);
    assert |buf| + 8 * |u| == |rest| + pad;
    assert BytesAhead(rest, last) == |u|;
    var all := rest + Zeros(pad);
    assert BytesBits(u) == all[|buf|..] == all[|all| - 8 * |u|..];
    if pad == 0 {
      assert all == rest;
    } else {
      assert rest[|rest|..] == [] == BytesBits(u);
    }
  }

  lemma StartBuffer(d: seq<byte>)
    ensures Buffered(d, 0, false, [], BytesBits(Unstuff(d)), 0, Tail(d))
  {
    ValueOfZeros(32);
    assert Window([]) == Zeros(32);
    assert [] + BytesBits(Unstuff(d)) == BytesBits(Unstuff(d)) + Zeros(0);
  }

  /** The data after the byte at its head, a stuffed zero skipped. */
  function AfterByte(d: seq<byte>): seq<byte>
    requires d != [] && !AtMarker(d)
  {
    if d[0] == 0xFF then d[2..] else d[1..]
  }

  lemma UnstuffByte(d: seq<byte>)
    requires d != [] && !AtMarker(d)
    ensures BytesBits(Unstuff(d)) == BitsOf(d[0], 8) + BytesBits(Unstuff(AfterByte(d)))
    ensures Tail(d) == Tail(AfterByte(d))
  {
    hide BitsOf;
    var u := Unstuff(AfterByte(d));
    assert Unstuff(d) == [d[0]] + u;
    assert ([d[0]] + u)[1..] == u;
  }

  /** A byte OR-ed into the buffer below its first n bits. */
  function Pushed(bits: nat, b: byte, n: nat): nat
    requires n <= 24
  {
    bits + b * Pow2(24 - n)
  }

  lemma FeedByte(d: seq<byte>, b: byte, bits: nat, buf: seq<bool>, rest: seq<bool>, pad: nat, tail: seq<byte>)
    requires |buf| <= 24 && Buffered(d, bits, false, buf, rest, pad, tail)
    requires d != [] && !AtMarker(d) && d[0] == b
    ensures Buffered(AfterByte(d), Pushed(bits, b, |buf|), false, buf + BitsOf(b, 8), rest, pad, tail)
  {
    hide ValueOf, Pow2, BitsOf, BytesBits, Unstuff, Tail, AfterByte, AtMarker, Window;
    UnstuffByte(d);
    PushByte(buf, b);
    ConcatAssoc(buf, BitsOf(b, 8), BytesBits(Unstuff(AfterByte(d))));
  }

  lemma ZeroByte()
    ensures BitsOf(0, 8) == Zeros(8)
  {
    ValueOfBitsOf(0, 8);
    ValueOfZeros(8);
    ValueInjective(BitsOf(0, 8), Zeros(8));
  }

  lemma FeedZeros(d: seq<byte>, bits: nat, marker: bool, buf: seq<bool>, rest: seq<bool>, pad: nat, tail: seq<byte>)
    requires Buffered(d, bits, marker, buf, rest, pad, tail) && |buf| <= 24
    requires d == [] || AtMarker(d)
    ensures Buffered(d, bits, d != [], buf + Zeros(8), rest, pad + 8, tail)
    ensures marker ==> d != []
  {
    hide ValueOf, Pow2, BitsOf, BytesBits, Tail;
    ZeroByte();
    PushByte(buf, 0);
    assert Unstuff(d) == [];
    assert BytesBits([]) == [] by { assert |BytesBits([])| == 0; }
    assert buf == rest + Zeros(pad);
    assert buf + Zeros(8) + [] == rest + Zeros(pad + 8);
  }

  /** The padding left after n bits are delivered. */
  function PadAfter(rest: seq<bool>, pad: nat, n: nat): nat
    requires n <= |rest| + pad
  {
    if n <= |rest| then pad else pad - (n - |rest|)
  }

  /** The buffer's top n bits, and the buffer shifted past them. */
  function TopBits(bits: nat, n: nat): nat
    requires n <= 32
  {
    hide Pow2;
    bits / Pow2(32 - n)
  }

  function WithoutTop(bits: nat, n: nat): nat {
    bits * Pow2(n) % Pow2(32)
  }

  lemma Deliver(d: seq<byte>, bits: nat, marker: bool, buf: seq<bool>, rest: seq<bool>, pad: nat,
                tail: seq<byte>, n: nat)
    requires Buffered(d, bits, marker, buf, rest, pad, tail) && n <= |buf|
    ensures n <= |rest| + pad
    ensures TopBits(bits, n) == ValueOf(Take(rest, n))
    ensures Buffered(d, WithoutTop(bits, n), marker, buf[n..], Drop(rest, n), PadAfter(rest, pad, n), tail)
  {
    hide ValueOf, Pow2, BytesBits, Unstuff, Tail;
    PopBits(buf, n);
    var all := rest + Zeros(pad);
    var more := BytesBits(Unstuff(d));
    assert |all| == |buf| + |more|;
    assert buf[..n] == (buf + more)[..n] == all[..n] == Take(rest, n);
    assert buf[n..] + more == (buf + more)[n..] == all[n..];
    assert all[n..] == Drop(rest, n) + Zeros(PadAfter(rest, pad, n));
  }

  class BitReader {
    const data: array<byte>
    const end: nat
    var p: nat             // next byte of entropy-coded data
    var bits: nat          // 32-bit buffer, first bit on top
    var nbits: nat
    var marker: bool       // at a marker: zeros from here on

    ghost var buf: seq<bool>   // the buffered bits
    ghost var rest: seq<bool>  // the segment's bits not delivered yet
    ghost var pad: nat         // zeros buffered past the segment's end
    ghost var tail: seq<byte>  // the marker that ends the segment, and all after it
    ghost var last: nat        // the bits of the last read, 0 before the segment's first

    ghost predicate Valid()
      reads this, data
    {
      Holding() && last <= 25 && Lead(nbits, last)
    }

    /** The buffer, at any time. */
    ghost predicate Holding()
      reads this, data
    {
      p <= end <= data.Length && |buf| == nbits &&
      Buffered(data[p..end], bits, marker, buf, rest, pad, tail)
    }

    /** How much of the data is still to be read depends on the bits delivered alone. */
    lemma LeftToRead()
      requires Valid()
      ensures p <= end && end - p == Unread(rest, tail, last)
    {
      hide Buffered, Lead, Unread;
      UnreadIs(data[p..end], bits, marker, buf, rest, pad, tail, last);
    }

    constructor (data: array<byte>, p: nat, end: nat)
      requires p <= end <= data.Length
      ensures Valid() && this.data == data && this.end == end && this.p == p
      ensures rest == BytesBits(Unstuff(data[p..end])) && tail == Tail(data[p..end]) && last == 0
    {
      hide Buffered, BytesBits, Unstuff, Tail;
      this.data, this.end, this.p := data, end, p;
      bits, nbits, marker := 0, 0, false;
      buf, pad, last := [], 0, 0;
      rest, tail := BytesBits(Unstuff(data[p..end])), Tail(data[p..end]);
      StartBuffer(data[p..end]);
    }

    /** One byte into the buffer: the next data byte, or zero at a marker or the end. */
    method FillByte()
      requires Holding() && nbits <= 24
      modifies this
      ensures Holding() && nbits == old(nbits) + 8 && p >= old(p)
      ensures rest == old(rest) && tail == old(tail) && last == old(last)
    {
      hide Buffered, Pow2, BitsOf;
      ghost var d := data[p..end];
      assert marker ==> AtMarker(d) by { MarkerIsAt(d, bits, marker, buf, rest, pad, tail); }
      var b: byte := 0;
      ghost var zero := true;
      if !marker && p < end {
        b := data[p];
        assert b == d[0];
        p := p + 1;
        zero := false;
        if b == 0xFF {
          var next := if p < end then data[p] else 0xD9;
          if next == 0 {
            p := p + 1; // stuffed byte
          } else {
            assert |d| == 1 || d[1] != 0;
            marker := true; // stay on the marker
            p := p - 1;
            b := 0;
            zero := true;
          }
        }
      }
      if zero {
        assert data[p..end] == d;
        FeedZeros(d, bits, old(marker), buf, rest, pad, tail);
        ZeroByte();
        pad := pad + 8;
      } else {
        assert b == d[0] && data[p..end] == AfterByte(d);
        FeedByte(d, b, bits, buf, rest, pad, tail);
      }
      bits := bits + b * Pow2(24 - nbits);
      buf := buf + BitsOf(b, 8);
      nbits := nbits + 8;
    }

    static lemma MarkerIsAt(d: seq<byte>, bits: nat, marker: bool, buf: seq<bool>, rest: seq<bool>, pad: nat, tail: seq<byte>)
      requires Buffered(d, bits, marker, buf, rest, pad, tail)
      ensures marker ==> AtMarker(d)
    {
    }

    static lemma TailIs(d: seq<byte>, bits: nat, marker: bool, buf: seq<bool>, rest: seq<bool>, pad: nat, tail: seq<byte>)
      requires Buffered(d, bits, marker, buf, rest, pad, tail)
      ensures Tail(d) == tail
    {
    }

    method Fill()
      requires Holding() && nbits <= 32
      modifies this
      ensures Holding() && 24 < nbits <= 32 && p >= old(p)
      ensures rest == old(rest) && tail == old(tail) && last == old(last)
    {
      hide Buffered;
      while nbits <= 24
        invariant Holding() && nbits <= 32 && p >= old(p) && rest == old(rest) && tail == old(tail) && last == old(last)
        decreases 32 - nbits
      {
        FillByte();
      }
    }

    static lemma BufferShort(d: seq<byte>, bits: nat, marker: bool, buf: seq<bool>, rest: seq<bool>, pad: nat, tail: seq<byte>)
      requires Buffered(d, bits, marker, buf, rest, pad, tail)
      ensures |buf| <= 32
    {
    }

    method GetBits(n: nat) returns (v: nat)
      requires Valid() && n <= 25
      modifies this
      ensures Valid() && p >= old(p)
      ensures v == ValueOf(Take(old(rest), n))
      ensures rest == Drop(old(rest), n) && tail == old(tail) && last == if n == 0 then old(last) else n
    {
      if n == 0 {
        return 0;
      }
      hide Buffered, ValueOf, Take, Drop;
      BufferShort(data[p..end], bits, marker, buf, rest, pad, tail);
      Fill();
      v := PopTop(n);
    }

    /** The top n bits of a buffer that has as many. */
    method PopTop(n: nat) returns (v: nat)
      requires Holding() && 24 < nbits <= 32 && 0 < n <= 25
      modifies this
      ensures Valid() && p == old(p) && v == ValueOf(Take(old(rest), n))
      ensures rest == Drop(old(rest), n) && tail == old(tail) && last == n
    {
      hide Buffered, ValueOf, Take, Drop, PadAfter, TopBits, WithoutTop;
      ghost var d := data[p..end];
      Deliver(d, bits, marker, buf, rest, pad, tail, n);
      v := TopBits(bits, n);
      bits := WithoutTop(bits, n);
      nbits := nbits - n;
      buf, rest, pad, last := buf[n..], Drop(rest, n), PadAfter(rest, pad, n), n;
      assert data[p..end] == d;
    }

    /** The next symbol of table h, or -1 after 17 bits that start no code. */
    method HuffDecode(h: Huffman.Huff) returns (sym: int)
      requires Valid() && h.Ready()
      modifies this
      ensures Valid() && p >= old(p) && tail == old(tail)
      ensures match Huffman.Decode(h.table, old(rest))
              case Ok(v, r) => sym == v && rest == r && last == 1
              case Corrupt => sym == -1
    {
      hide BitReader.Valid, ValueOf, Huffman.FirstIndex, Huffman.FirstCode, Huffman.DecodeFrom, Huffman.Huff.Finds, Take, Drop;
      Huffman.DecodeStarts(h.table, rest);
      ghost var t := h.table;
      var code: int := GetBits(1);
      var l := 1;
      while l <= 16
        invariant 1 <= l <= 17 && Valid() && p >= old(p) && tail == old(tail) && last == 1 && h.Ready() && h.table == t
        invariant Huffman.FirstCode(t.counts, l) <= code
        invariant Huffman.Decode(t, old(rest)) == Huffman.DecodeFrom(t, rest, l, code)
      {
        h.LooksUp(l, code);
        Huffman.DecodeFromStep(t, rest, l, code);
        if code <= h.maxcode[l] {
          return h.vals[h.valptr[l] + code - h.mincode[l]];
        }
        var b := GetBits(1);
        code := 2 * code + b;
        l := l + 1;
      }
      Huffman.DecodeEnds(t, rest, code);
      return -1;
    }

    /** Skips to just past the next RSTn marker. */
    method Restart() returns (ok: bool)
      requires Valid()
      modifies this
      ensures p >= old(p)
      ensures ok == (AfterRst(old(tail)) != [])
      ensures ok ==> Valid() && last == 0
      ensures ok ==> rest == BytesBits(Unstuff(AfterRst(old(tail))[0])) && tail == Tail(AfterRst(old(tail))[0])
    {
      hide Unstuff, BytesBits, AfterRst, Buffered, Tail, AtMarker, ValueOf, Window;
      TailIs(data[p..end], bits, marker, buf, rest, pad, tail);
      AfterRstOfTail(data[p..end]);
      bits, nbits, marker := 0, 0, false;
      ScanRst();
      AfterRstStop(data[p..end]);
      if p + 1 >= end {
        return false;
      }
      assert data[p..end][2..] == data[p + 2..end];
      p := p + 2;
      buf, pad, last := [], 0, 0;
      rest, tail := BytesBits(Unstuff(data[p..end])), Tail(data[p..end]);
      StartBuffer(data[p..end]);
      return true;
    }

    /** The search loop of Restart. */
    method ScanRst()
      requires p <= end <= data.Length
      modifies this`p
      ensures old(p) <= p <= end
      ensures AfterRst(data[p..end]) == AfterRst(data[old(p)..end])
      ensures p + 1 >= end || (data[p] == 0xFF && 0xD0 <= data[p + 1] <= 0xD7)
    {
      hide AfterRst;
      while p + 1 < end && !(data[p] == 0xFF && 0xD0 <= data[p + 1] <= 0xD7)
        invariant old(p) <= p <= end
        invariant AfterRst(data[p..end]) == AfterRst(data[old(p)..end])
      {
        AfterRstStep(data[p..end]);
        assert data[p..end][1..] == data[p + 1..end];
        p := p + 1;
      }
    }
  }
}
