/** Entropy-coded segments: ITU T.81 section B.1.1.5 (byte stuffing) and F.1.2.3 (bit order). */
module ByteStuffing {
  import opened Bits

  function BytesBits(bs: seq<byte>): (s: seq<bool>)
    ensures |s| == 8 * |bs|
  {
    if bs == [] then [] else BitsOf(bs[0], 8) + BytesBits(bs[1..])
  }

  /** The bytes of a bit string of whole bytes. */
  function Pack(s: seq<bool>): (bs: seq<byte>)
    requires |s| % 8 == 0
    ensures |bs| == |s| / 8
  {
    if s == [] then [] else
      Pow2Values();
      [ValueOf(s[..8])] + Pack(s[8..])
  }

  function StuffByte(b: byte): seq<byte> {
    if b == 0xFF then [0xFF, 0] else [b]
  }

  /** Every 0xFF byte is followed by a zero byte. */
  function Stuff(bs: seq<byte>): seq<byte> {
    if bs == [] then [] else StuffByte(bs[0]) + Stuff(bs[1..])
  }

  /** 0xFF starts a marker unless a zero follows; at the end of the data it is read as one. */
  predicate AtMarker(d: seq<byte>) {
    d != [] && d[0] == 0xFF && (|d| == 1 || d[1] != 0)
  }

  /** The data bytes up to the first marker, stuffing removed. */
  function Unstuff(d: seq<byte>): seq<byte> {
    if d == [] || AtMarker(d) then []
    else if d[0] == 0xFF then [0xFF] + Unstuff(d[2..])
    else [d[0]] + Unstuff(d[1..])
  }

  /** What follows the entropy-coded data: the first marker and everything after it. */
  function Tail(d: seq<byte>): seq<byte> {
    if d == [] || AtMarker(d) then d
    else if d[0] == 0xFF then Tail(d[2..])
    else Tail(d[1..])
  }

  lemma UnstuffStep(b: byte, more: seq<byte>)
    ensures Unstuff(StuffByte(b) + more) == [b] + Unstuff(more)
    ensures Tail(StuffByte(b) + more) == Tail(more)
  {
    var d := StuffByte(b) + more;
    if b == 0xFF {
      assert d[2..] == more;
    } else {
      assert d[1..] == more;
    }
  }

  /** Stuffing is undone up to the marker that follows. */
  lemma {:induction false} UnstuffStuff(bs: seq<byte>, tail: seq<byte>)
    requires tail == [] || AtMarker(tail)
    ensures Unstuff(Stuff(bs) + tail) == bs && Tail(Stuff(bs) + tail) == tail
  {
    if bs == [] {
      assert Stuff(bs) + tail == tail;
    } else {
      hide Unstuff, Tail, StuffByte, AtMarker;
      UnstuffStuff(bs[1..], tail);
      UnstuffStep(bs[0], Stuff(bs[1..]) + tail);
      ConcatAssoc(StuffByte(bs[0]), Stuff(bs[1..]), tail);
    }
  }

  lemma {:induction false} StuffConcat(a: seq<byte>, b: seq<byte>)
    ensures Stuff(a + b) == Stuff(a) + Stuff(b)
  {
    if a == [] {
      assert a + b == b;
    } else {
      hide StuffByte;
      StuffConcat(a[1..], b);
      assert (a + b)[1..] == a[1..] + b;
      ConcatAssoc(StuffByte(a[0]), Stuff(a[1..]), Stuff(b));
    }
  }

  lemma {:induction false} BytesBitsConcat(a: seq<byte>, b: seq<byte>)
    ensures BytesBits(a + b) == BytesBits(a) + BytesBits(b)
  {
    if a == [] {
      assert a + b == b;
    } else {
      BytesBitsConcat(a[1..], b);
      assert (a + b)[1..] == a[1..] + b;
    }
  }

  lemma {:induction false} PackConcat(a: seq<bool>, b: seq<bool>)
    requires |a| % 8 == 0 && |b| % 8 == 0
    ensures Pack(a + b) == Pack(a) + Pack(b)
  {
    if a == [] {
      assert a + b == b;
    } else {
      hide ValueOf, Pow2;
      PackConcat(a[8..], b);
      var ab := a + b;
      assert ab[8..] == a[8..] + b && ab[..8] == a[..8];
      assert Pack(ab) == [ValueOf(a[..8])] + Pack(a[8..] + b);
      ConcatAssoc([ValueOf(a[..8])], Pack(a[8..]), Pack(b));
    }
  }

  lemma {:induction false} BytesBitsPack(s: seq<bool>)
    requires |s| % 8 == 0
    ensures BytesBits(Pack(s)) == s
  {
    if s != [] {
      BitsOfValueOf(s[..8]);
      BytesBitsPack(s[8..]);
      assert s == s[..8] + s[8..];
    }
  }

  lemma {:induction false} PackBytesBits(bs: seq<byte>)
    ensures Pack(BytesBits(bs)) == bs
  {
    hide ValueOf, BitsOf;
    if bs != [] {
      var s := BytesBits(bs);
      assert s[..8] == BitsOf(bs[0], 8) && s[8..] == BytesBits(bs[1..]);
      ValueOfBitsOf(bs[0], 8);
      Pow2Values();
      PackBytesBits(bs[1..]);
      assert [bs[0]] + bs[1..] == bs;
    }
  }

  /** Data is its segment, stuffed, and what follows. */
  lemma {:induction false} StuffUnstuff(d: seq<byte>)
    ensures Stuff(Unstuff(d)) + Tail(d) == d
  {
    if d == [] || AtMarker(d) {
      assert [] + d == d;
    } else if d[0] == 0xFF {
      StuffUnstuff(d[2..]);
      StuffHead(0xFF, Unstuff(d[2..]), Tail(d[2..]));
      assert [0xFF, 0] + d[2..] == d;
    } else {
      StuffUnstuff(d[1..]);
      StuffHead(d[0], Unstuff(d[1..]), Tail(d[1..]));
      assert [d[0]] + d[1..] == d;
    }
  }

  lemma StuffHead(b: byte, more: seq<byte>, tail: seq<byte>)
    ensures Stuff([b] + more) + tail == StuffByte(b) + (Stuff(more) + tail)
  {
    assert ([b] + more)[1..] == more;
  }

  /** The whole bytes of a bit string, packed and stuffed. */
  function Whole(s: seq<bool>): seq<byte> {
    Stuff(Pack(s[..|s| - |s| % 8]))
  }

  /** The bits that do not fill a byte yet. */
  function Partial(s: seq<bool>): (t: seq<bool>)
    ensures |t| == |s| % 8
  {
    s[|s| - |s| % 8..]
  }

  /** A byte's worth of bits moves from the pending ones to the output. */
  lemma {:induction false} WholeByte(s: seq<bool>, i: nat)
    requires i % 8 == 0 && i + 8 <= |s|
    ensures Whole(s[..i + 8]) == Whole(s[..i]) + Stuff([ValueOf(s[i..i + 8])])
  {
    var a, b := s[..i], s[i..i + 8];
    assert s[..i + 8] == a + b;
    PackConcat(a, b);
    assert b[..8] == b && b[8..] == [];
    assert Pack(b) == [ValueOf(b)];
    StuffConcat(Pack(a), Pack(b));
    assert a[..|a| - |a| % 8] == a;
    assert (a + b)[..|a + b| - |a + b| % 8] == a + b;
  }
}
