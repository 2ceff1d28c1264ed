/** Pictures of coded blocks, and their scans as ITU T.81 lays them out: the blocks of an MCU component by
    component (section A.2.3), with restart intervals (section B.2.1). */
module Pictures {
  import opened Bits
  import opened Huffman
  import opened ByteStuffing
  import opened BitReading
  import opened BlockCodec
  import opened FrameGeometry
  import opened ScanSpec
  import opened StripSpec
  import opened Transcoding
  import opened OutputDecoding

  /** The coefficients of a component's block, by its column and row. */
  type Picture = (nat, nat, nat) -> Block

  // --- the order of the blocks ------------------------------------------------------------------------

  /** Blocks x..x + n of row y. */
  function Across(pic: Picture, c: nat, x: nat, n: nat, y: nat): (u: seq<Unit>)
    ensures |u| == n
  {
    seq(n, k requires 0 <= k < n => Unit(c, pic(c, x + k, y)))
  }

  /** The same of n rows from y on, one after the other. */
  function Down(pic: Picture, c: nat, x: nat, h: nat, y: nat, n: nat): seq<Unit> {
    if n == 0 then [] else Down(pic, c, x, h, y, n - 1) + Across(pic, c, x, h, y + n - 1)
  }

  /** The blocks of MCU (mx, my) of the first n components. */
  function McuOf(f: Frame, pic: Picture, mx: nat, my: nat, n: nat): seq<Unit>
    requires n <= |f.comps|
  {
    if n == 0 then []
    else
      var c := f.comps[n - 1];
      McuOf(f, pic, mx, my, n - 1) + Down(pic, n - 1, mx * c.h, c.h, my * c.v, c.v)
  }

  /** MCU m: they go from left to right and from top to bottom. */
  function McuNo(f: Frame, pic: Picture, m: nat): seq<Unit> {
    if f.McusX() == 0 then [] else McuOf(f, pic, m % f.McusX(), m / f.McusX(), |f.comps|)
  }

  /** The blocks of MCUs m to e. */
  function Interval(f: Frame, pic: Picture, m: nat, e: nat): seq<Unit>
    decreases e - m
  {
    if m >= e then [] else McuNo(f, pic, m) + Interval(f, pic, m + 1, e)
  }

  lemma {:induction false} DownCount(pic: Picture, c: nat, x: nat, h: nat, y: nat, n: nat)
    ensures |Down(pic, c, x, h, y, n)| == h * n
  {
    if n > 0 {
      DownCount(pic, c, x, h, y, n - 1);
      assert h * n == h * (n - 1) + h;
    }
  }

  /** Block l of a component's blocks in an MCU. */
  lemma {:induction false} DownAt(pic: Picture, c: nat, x: nat, h: nat, y: nat, n: nat, l: nat)
    requires h > 0 && l < h * n
    ensures |Down(pic, c, x, h, y, n)| == h * n
    ensures Down(pic, c, x, h, y, n)[l] == Unit(c, pic(c, x + l % h, y + l / h))
  {
    DownCount(pic, c, x, h, y, n);
    DownCount(pic, c, x, h, y, n - 1);
    var k := LastRow(h, n, l);
    if k >= 0 {
      assert Across(pic, c, x, h, y + n - 1)[k] == Unit(c, pic(c, x + k, y + n - 1));
    } else {
      DownAt(pic, c, x, h, y, n - 1, l);
    }
  }

  /** The place of l in the last of n rows of h, negative if it is in another. */
  lemma LastRow(h: nat, n: nat, l: nat) returns (k: int)
    requires h > 0 && l < h * n
    ensures n > 0 && l == h * (n - 1) + k && k < h
    ensures k >= 0 ==> l % h == k && l / h == n - 1
    ensures k < 0 ==> l < h * (n - 1)
  {
    k := l - h * (n - 1);
    assert h * n == h * (n - 1) + h;
    if k >= 0 {
      assert (n - 1) * h == h * (n - 1);
      DivModUnique(l, h, n - 1, k);
    }
  }

  /** An MCU's blocks belong to the components in the decoder's order. */
  lemma {:induction false} McuComps(f: Frame, pic: Picture, mx: nat, my: nat, n: nat)
    requires f.Valid() && n <= |f.comps|
    ensures Comps(McuOf(f, pic, mx, my, n)) == Units(f.comps[..n])
  {
    hide Down, Frame.Valid;
    if n > 0 {
      McuComps(f, pic, mx, my, n - 1);
      assert f.comps[..n][..n - 1] == f.comps[..n - 1];
      var c := f.comps[n - 1];
      DownComps(pic, n - 1, mx * c.h, c.h, my * c.v, c.v);
      var before, mine := McuOf(f, pic, mx, my, n - 1), Down(pic, n - 1, mx * c.h, c.h, my * c.v, c.v);
      assert Comps(before + mine) == Comps(before) + Comps(mine);
    }
  }

  lemma DownComps(pic: Picture, c: nat, x: nat, h: nat, y: nat, n: nat)
    ensures h * n >= 0 && Comps(Down(pic, c, x, h, y, n)) == seq(h * n, _ => c)
  {
    hide Down;
    DownCount(pic, c, x, h, y, n);
    forall l | 0 <= l < h * n
      ensures Down(pic, c, x, h, y, n)[l].c == c
    {
      if h > 0 {
        DownAt(pic, c, x, h, y, n, l);
      }
    }
  }

  /** Block l of component c in an MCU is the picture's there. */
  lemma {:induction false} McuBlockAt(f: Frame, pic: Picture, mx: nat, my: nat, n: nat, c: nat, l: nat)
    requires f.Valid() && c < n <= |f.comps| && l < f.comps[c].h * f.comps[c].v
    ensures var u, k := McuOf(f, pic, mx, my, n), FirstUnit(f.comps, c) + l;
            k < |u| && u[k].zz == pic(c, mx * f.comps[c].h + l % f.comps[c].h, my * f.comps[c].v + l / f.comps[c].h)
  {
    hide Down, Units, Comps;
    var before := McuOf(f, pic, mx, my, n - 1);
    if c < n - 1 {
      McuBlockAt(f, pic, mx, my, n - 1, c, l);
    } else {
      var d := f.comps[c];
      McuComps(f, pic, mx, my, c);
      DownAt(pic, c, mx * d.h, d.h, my * d.v, d.v, l);
      assert |before| == FirstUnit(f.comps, c);
    }
  }

  // --- the bits of a sequence of blocks ---------------------------------------------------------------

  /** The DC predictors after these blocks. */
  function After(preds: seq<int>, units: seq<Unit>): (r: seq<int>)
    requires |preds| == 3
    ensures |r| == 3
  {
    if units == [] then preds
    else
      var p, u := After(preds, units[..|units| - 1]), units[|units| - 1];
      if u.c < 3 then p[u.c := u.zz[0]] else p
  }

  /** The component's tables can code the block. */
  ghost predicate CanCode(coders: seq<Coder>, u: Unit, preds: seq<int>) {
    u.c < |coders| && u.c < |preds| && coders[u.c].dc.Valid() && coders[u.c].ac.Valid() &&
    Paired(coders[u.c].dcT, coders[u.c].dc) && Paired(coders[u.c].acT, coders[u.c].ac) &&
    InRange(u.zz) && -1024 <= preds[u.c] <= 1023 && BlockHas(coders[u.c].dcT, coders[u.c].acT, u.zz, preds[u.c])
  }

  ghost predicate Coded(coders: seq<Coder>, preds: seq<int>, units: seq<Unit>)
    requires |preds| == 3
  {
    units == [] ||
    (Coded(coders, preds, units[..|units| - 1]) &&
     CanCode(coders, units[|units| - 1], After(preds, units[..|units| - 1])))
  }

  ghost function UnitBits(coders: seq<Coder>, u: Unit, preds: seq<int>): seq<bool>
    requires CanCode(coders, u, preds)
  {
    EncodeBlock(coders[u.c].dc, coders[u.c].ac, u.zz, preds[u.c])
  }

  ghost function CodedBits(coders: seq<Coder>, preds: seq<int>, units: seq<Unit>): seq<bool>
    requires |preds| == 3 && Coded(coders, preds, units)
  {
    if units == [] then []
    else
      var before, u := units[..|units| - 1], units[|units| - 1];
      CodedBits(coders, preds, before) + UnitBits(coders, u, After(preds, before))
  }

  lemma OneMore(coders: seq<Coder>, preds: seq<int>, before: seq<Unit>, u: Unit, all: seq<Unit>)
    requires |preds| == 3 && all == before + [u]
    ensures After(preds, all) == After(After(preds, before), [u])
    ensures Coded(coders, preds, all) <==> Coded(coders, preds, before) && CanCode(coders, u, After(preds, before))
    ensures Coded(coders, preds, all) ==>
              CodedBits(coders, preds, all) == CodedBits(coders, preds, before) + UnitBits(coders, u, After(preds, before))
  {
    hide CanCode, UnitBits;
    assert all[..|before|] == before;
  }

  lemma {:induction false} CodedConcat(coders: seq<Coder>, preds: seq<int>, a: seq<Unit>, b: seq<Unit>)
    requires |preds| == 3 && Coded(coders, preds, a + b)
    ensures Coded(coders, preds, a) && Coded(coders, After(preds, a), b)
    ensures After(preds, a + b) == After(After(preds, a), b)
    ensures CodedBits(coders, preds, a + b) == CodedBits(coders, preds, a) + CodedBits(coders, After(preds, a), b)
    decreases |b|
  {
    hide CanCode, UnitBits, Coded, CodedBits, After;
    if b == [] {
      assert a + b == a;
      NoneCoded(coders, After(preds, a));
    } else {
      var b', u := b[..|b| - 1], b[|b| - 1];
      var p := After(preds, a);
      assert a + b == (a + b') + [u] && b == b' + [u];
      OneMore(coders, preds, a + b', u, a + b);
      CodedConcat(coders, preds, a, b');
      OneMore(coders, p, b', u, b);
      ConcatAssoc(CodedBits(coders, preds, a), CodedBits(coders, p, b'), UnitBits(coders, u, After(p, b')));
    }
  }

  lemma NoneCoded(coders: seq<Coder>, preds: seq<int>)
    requires |preds| == 3
    ensures Coded(coders, preds, []) && CodedBits(coders, preds, []) == [] && After(preds, []) == preds
  {
  }

  // --- reading them again -----------------------------------------------------------------------------

  /** The decoder has these tables. */
  predicate Carries(hdr: Header, coders: seq<Coder>)
    requires hdr.Valid()
  {
    |coders| == |hdr.frame.comps| &&
    forall c :: 0 <= c < |coders| ==>
      hdr.dc[hdr.frame.comps[c].td] == coders[c].dcT && hdr.ac[hdr.frame.comps[c].ta] == coders[c].acT
  }

  lemma UnitReads(hdr: Header, coders: seq<Coder>, sc: Scan, of: seq<nat>, u: Unit, tail: seq<byte>, preds: seq<int>,
                  bs: seq<Block>, rest: seq<bool>)
    requires hdr.Valid() && Carries(hdr, coders) && |sc.preds| == 3 && |preds| == 3 && CanCode(coders, u, preds)
    requires forall k :: 0 <= k < |of| ==> of[k] < |hdr.frame.comps|
    requires Leaves(DecodeUnits(hdr, sc, of), UnitBits(coders, u, preds) + rest, tail, preds, bs)
    ensures Leaves(DecodeUnits(hdr, sc, of + [u.c]), rest, tail, preds[u.c := u.zz[0]], bs + [u.zz])
  {
    hide EncodeBlock, DecodeBlock, DecodeUnits, Paired, BlockHas, InRange, Frame.Valid, Table.Valid;
    var comp := hdr.frame.comps[u.c];
    BlockRoundTrip(hdr.dc[comp.td], coders[u.c].dc, hdr.ac[comp.ta], coders[u.c].ac, u.zz, preds[u.c], rest);
    DecodeOneMore(hdr, sc, of, u.c, UnitBits(coders, u, preds) + rest, tail, preds, bs, u.zz, rest);
  }

  /** Decoding reads these blocks and leaves `rest`. */
  ghost predicate Reads(hdr: Header, sc: Scan, units: seq<Unit>, rest: seq<bool>) {
    hdr.Valid() && |sc.preds| == 3 && (forall k :: 0 <= k < |units| ==> units[k].c < |hdr.frame.comps|) &&
    Leaves(DecodeUnits(hdr, sc, Comps(units)), rest, sc.tail, After(sc.preds, units), Blocks(units))
  }

  lemma NoneRead(hdr: Header, sc: Scan)
    requires hdr.Valid() && |sc.preds| == 3
    ensures Reads(hdr, sc, [], sc.rest)
  {
    hide DecodeBlock, Header.Valid;
  }

  lemma OneMoreRead(hdr: Header, coders: seq<Coder>, sc: Scan, before: seq<Unit>, u: Unit, units: seq<Unit>, rest: seq<bool>)
    requires hdr.Valid() && Carries(hdr, coders) && |sc.preds| == 3 && units == before + [u]
    requires CanCode(coders, u, After(sc.preds, before))
    requires Reads(hdr, sc, before, UnitBits(coders, u, After(sc.preds, before)) + rest)
    ensures Reads(hdr, sc, units, rest)
  {
    hide CanCode, UnitBits, DecodeUnits, Comps, Blocks, Header.Valid, Carries, After;
    InComps(hdr, coders, u, After(sc.preds, before));
    UnitsMore(sc.preds, before, u, units);
    UnitReads(hdr, coders, sc, Comps(before), u, sc.tail, After(sc.preds, before), Blocks(before), rest);
  }

  lemma UnitsMore(preds: seq<int>, before: seq<Unit>, u: Unit, units: seq<Unit>)
    requires |preds| == 3 && u.c < 3 && units == before + [u]
    ensures Comps(units) == Comps(before) + [u.c] && Blocks(units) == Blocks(before) + [u.zz]
    ensures After(preds, units) == After(preds, before)[u.c := u.zz[0]]
  {
    assert units[..|units| - 1] == before;
  }

  /** Decoding the bits of a block sequence gives back every block, whatever the predictors were. */
  lemma {:induction false} CodedReads(hdr: Header, coders: seq<Coder>, sc: Scan, units: seq<Unit>, rest: seq<bool>)
    requires hdr.Valid() && Carries(hdr, coders) && |sc.preds| == 3 && Coded(coders, sc.preds, units)
    requires sc.rest == CodedBits(coders, sc.preds, units) + rest
    ensures Reads(hdr, sc, units, rest)
    decreases |units|
  {
    hide CanCode, UnitBits, Reads, Header.Valid, Carries, After;
    if units == [] {
      assert sc.rest == rest;
      NoneRead(hdr, sc);
    } else {
      var before, u := units[..|units| - 1], units[|units| - 1];
      var code := UnitBits(coders, u, After(sc.preds, before));
      ConcatAssoc(CodedBits(coders, sc.preds, before), code, rest);
      CodedReads(hdr, coders, sc, before, code + rest);
      OneMoreRead(hdr, coders, sc, before, u, units, rest);
    }
  }

  lemma InComps(hdr: Header, coders: seq<Coder>, u: Unit, preds: seq<int>)
    requires hdr.Valid() && Carries(hdr, coders) && |preds| == 3 && CanCode(coders, u, preds)
    ensures u.c < |hdr.frame.comps| && u.c < 3
  {
    hide Paired, BlockHas, InRange;
  }

  // --- the scan ---------------------------------------------------------------------------------------

  /** A frame's MCUs. */
  function McuCount(f: Frame): (n: nat)
    ensures n == f.McusX() * f.McusY()
    ensures f.Valid() ==> n > 0
  {
    hide Frame.Valid, Frame.McusX, Frame.McusY;
    MulNonNeg(f.McusX(), f.McusY());
    if f.Valid() then
      McusAcross(f);
      MulGrows(f.McusX(), f.McusY());
      f.McusX() * f.McusY()
    else f.McusX() * f.McusY()
  }

  lemma McusAcross(f: Frame)
    requires f.Valid()
    ensures f.McusX() > 0 && f.McusY() > 0
  {
    hide HMax, VMax;
    CeilDivBound(f.width, 8 * HMax(f.comps), 0);
    CeilDivBound(f.height, 8 * VMax(f.comps), 0);
  }

  /** A restart interval starts at MCU s. */
  predicate Starts(restart: nat, s: nat) {
    s == 0 || (restart > 0 && s % restart == 0)
  }

  /** The MCU before which an interval that starts at s ends. */
  function EndOf(restart: nat, s: nat, count: nat): nat {
    if restart == 0 || s + restart > count then count else s + restart
  }

  /** A picture with its restart interval and the tables of its components. */
  datatype Coding = Coding(f: Frame, restart: nat, coders: seq<Coder>, pic: Picture) {
    /** The blocks of the interval that starts at s. */
    function From(s: nat): seq<Unit> {
      Interval(f, pic, s, EndOf(restart, s, McuCount(f)))
    }

    /** The tables can code every block. */
    ghost predicate Valid() {
      f.Valid() && forall s: nat :: s < McuCount(f) && Starts(restart, s) ==> Coded(coders, [0, 0, 0], From(s))
    }

    predicate Stops(e: nat) {
      e == McuCount(f) || (e < McuCount(f) && Starts(restart, e))
    }
  }

  /** The entropy-coded data from the interval on that starts at s: each interval is coded afresh and padded
      with ones, a restart marker goes between two. */
  ghost function ScanText(k: Coding, tail: seq<byte>, s: nat): seq<byte>
    requires k.Valid() && s < McuCount(k.f) && Starts(k.restart, s)
    decreases McuCount(k.f) - s, 0
  {
    EndFollows(k, s);
    Whole(CodedBits(k.coders, [0, 0, 0], k.From(s)) + Ones(7)) + Following(k, tail, EndOf(k.restart, s, McuCount(k.f)))
  }

  ghost function Following(k: Coding, tail: seq<byte>, e: nat): seq<byte>
    requires k.Valid() && k.Stops(e)
    decreases McuCount(k.f) - e, 1
  {
    if e == McuCount(k.f) then tail
    else [0xFF, 0xD0 + (if k.restart == 0 then 0 else (e / k.restart + 7) % 8)] + ScanText(k, tail, e)
  }

  lemma EndFollows(k: Coding, s: nat)
    requires s < McuCount(k.f) && Starts(k.restart, s)
    ensures var e := EndOf(k.restart, s, McuCount(k.f)); s < e <= McuCount(k.f) && k.Stops(e)
  {
    if k.restart > 0 {
      NextStart(s, k.restart);
    }
  }

  lemma NextStart(s: nat, r: nat)
    requires r > 0 && s % r == 0
    ensures (s + r) % r == 0
  {
    assert (s / r + 1) * r == s / r * r + r;
    DivModUnique(s + r, r, s / r + 1, 0);
  }

  /** The start of the interval of MCU m - 1. */
  function StartOf(restart: nat, m: nat): nat {
    if restart == 0 || m == 0 then 0 else Multiple((m - 1) / restart, restart)
  }

  function Multiple(q: nat, r: nat): (n: nat)
    ensures n == q * r
  {
    MulNonNeg(q, r);
    q * r
  }

  /** The interval ends where a restart is due, and the next one starts there. */
  lemma IntervalAt(hdr: Header, m: nat, count: nat)
    requires m < count
    ensures var s := StartOf(hdr.restart, m);
            s < count && Starts(hdr.restart, s) &&
            var e := EndOf(hdr.restart, s, count);
            (RestartDue(hdr, m) ==> e == m && StartOf(hdr.restart, m + 1) == m && Starts(hdr.restart, m)) &&
            (!RestartDue(hdr, m) ==> m < e && StartOf(hdr.restart, m + 1) == s)
  {
    var r := hdr.restart;
    if r > 0 && m > 0 {
      var q, d := (m - 1) / r, (m - 1) % r;
      var s := Multiple(q, r);
      assert m - 1 == s + d;
      DivModUnique(s, r, q, 0);
      assert (q + 1) * r == s + r;
      if d == r - 1 {
        DivModUnique(m, r, q + 1, 0);
      } else {
        DivModUnique(m, r, q, d + 1);
      }
    }
  }

  // --- decoding it ------------------------------------------------------------------------------------

  predicate Padded(rest: seq<bool>, bits: seq<bool>, n: nat) {
    n < 8 && rest == bits + Ones(n)
  }

  /** The decoder has MCU m next, in an interval that ends before MCU e. */
  ghost predicate Standing(k: Coding, tail: seq<byte>, sc: Scan, m: nat, e: nat)
    requires k.Valid()
  {
    |sc.preds| == 3 && m <= e && k.Stops(e) && sc.tail == Following(k, tail, e) &&
    Coded(k.coders, sc.preds, Interval(k.f, k.pic, m, e)) &&
    exists n :: Padded(sc.rest, CodedBits(k.coders, sc.preds, Interval(k.f, k.pic, m, e)), n)
  }

  /** A decoder for this picture. */
  ghost predicate Fits(hdr: Header, k: Coding) {
    hdr.Valid() && k.Valid() && hdr.frame == k.f && hdr.restart == k.restart && Carries(hdr, k.coders)
  }

  lemma McuReads(hdr: Header, k: Coding, tail: seq<byte>, sc: Scan, m: nat, e: nat)
    requires Fits(hdr, k) && m < e && Standing(k, tail, sc, m, e)
    ensures var r := DecodeUnits(hdr, sc, Units(k.f.comps));
            r.Run? && r.blocks == Blocks(McuNo(k.f, k.pic, m)) && Standing(k, tail, r.scan, m + 1, e)
  {
    hide Coded, CodedBits, After, Frame.McusX, Frame.McusY, Following, DecodeUnits, Carries, Ones, McuNo, Units, Frame.Valid, Table.Valid;
    var now, more := McuNo(k.f, k.pic, m), Interval(k.f, k.pic, m + 1, e);
    CodedConcat(k.coders, sc.preds, now, more);
    var bits := CodedBits(k.coders, After(sc.preds, now), more);
    var n :| Padded(sc.rest, CodedBits(k.coders, sc.preds, Interval(k.f, k.pic, m, e)), n);
    ConcatAssoc(CodedBits(k.coders, sc.preds, now), bits, Ones(n));
    CodedReads(hdr, k.coders, sc, now, bits + Ones(n));
    McuUnits(k, m);
    assert Padded(bits + Ones(n), bits, n);
  }

  lemma McuUnits(k: Coding, m: nat)
    requires k.f.Valid()
    ensures Comps(McuNo(k.f, k.pic, m)) == Units(k.f.comps)
  {
    hide Units, Comps, McuOf, Frame.McusX;
    assert k.f.comps[..|k.f.comps|] == k.f.comps;
    McusAcross(k.f);
    McuComps(k.f, k.pic, m % k.f.McusX(), m / k.f.McusX(), |k.f.comps|);
  }

  /** An interval is found at its start. */
  lemma IntervalStands(k: Coding, tail: seq<byte>, s: nat)
    requires k.Valid() && s < McuCount(k.f) && Starts(k.restart, s) && AtMarker(tail)
    ensures Standing(k, tail, ScanOf(ScanText(k, tail, s)), s, EndOf(k.restart, s, McuCount(k.f)))
  {
    hide Coded, CodedBits, Frame.Valid, Frame.McusX, Frame.McusY, BytesBits, Unstuff, Tail, Whole, Ones, Interval, PadCount;
    EndFollows(k, s);
    var e := EndOf(k.restart, s, McuCount(k.f));
    var bits := CodedBits(k.coders, [0, 0, 0], k.From(s));
    SegmentReads(bits, Following(k, tail, e));
    assert Padded(bits + Ones(PadCount(|bits|)), bits, PadCount(|bits|));
  }

  /** Where a restart is due, the next interval is found behind the marker. */
  lemma RestartStands(hdr: Header, k: Coding, tail: seq<byte>, sc: Scan, m: nat)
    requires Fits(hdr, k) && m < McuCount(k.f) && Starts(k.restart, m) && Standing(k, tail, sc, m, m)
    requires RestartDue(hdr, m) && AtMarker(tail)
    ensures BeforeMcu(hdr, sc, m).Run?
    ensures Standing(k, tail, BeforeMcu(hdr, sc, m).scan, m, EndOf(k.restart, m, McuCount(k.f)))
  {
    hide Coded, CodedBits, Header.Valid, Coding.Valid, Frame.McusX, Frame.McusY, BytesBits, Unstuff, Tail, Carries, Interval, ScanText, AfterRst;
    AfterRstStop(sc.tail);
    assert sc.tail[2..] == ScanText(k, tail, m);
    IntervalStands(k, tail, m);
  }

  /** A decoder at the start of the scan. */
  ghost function Begun(k: Coding, tail: seq<byte>): (sc: Scan)
    requires k.Valid()
    ensures |sc.preds| == 3
  {
    ScanOf(ScanText(k, tail, 0))
  }

  /** From one MCU to the next. */
  lemma ScanSteps(hdr: Header, k: Coding, tail: seq<byte>, m: nat)
    requires Fits(hdr, k) && m < McuCount(k.f) && AtMarker(tail)
    requires var r := ScanAt(hdr, Begun(k, tail), m);
             r.Run? && Standing(k, tail, r.scan, m, EndOf(k.restart, StartOf(k.restart, m), McuCount(k.f)))
    ensures var r := McuAt(hdr, Begun(k, tail), m);
            r.Run? && r.blocks == Blocks(McuNo(k.f, k.pic, m)) &&
            Standing(k, tail, r.scan, m + 1, EndOf(k.restart, StartOf(k.restart, m + 1), McuCount(k.f)))
  {
    hide Header.Valid, Coding.Valid, Frame.McusX, Frame.McusY, Carries, Interval, DecodeUnits, Standing, Units, Starts, StartOf, EndOf,
         ScanOf, McuNo;
    IntervalAt(hdr, m, McuCount(k.f));
    var sc := ScanAt(hdr, Begun(k, tail), m).scan;
    if RestartDue(hdr, m) {
      RestartStands(hdr, k, tail, sc, m);
      EndFollows(k, m);
      McuReads(hdr, k, tail, BeforeMcu(hdr, sc, m).scan, m, EndOf(k.restart, m, McuCount(k.f)));
    } else {
      McuReads(hdr, k, tail, sc, m, EndOf(k.restart, StartOf(k.restart, m), McuCount(k.f)));
    }
  }

  lemma {:induction false} ScanStands(hdr: Header, k: Coding, tail: seq<byte>, m: nat)
    requires Fits(hdr, k) && m <= McuCount(k.f) && AtMarker(tail)
    ensures var r := ScanAt(hdr, Begun(k, tail), m);
            r.Run? && Standing(k, tail, r.scan, m, EndOf(k.restart, StartOf(k.restart, m), McuCount(k.f)))
  {
    hide Header.Valid, Frame.Valid, Frame.McusX, Frame.McusY, Carries, Interval, DecodeUnits, Standing, Units, EndOf, ScanOf, McuNo, McuAt;
    if m == 0 {
      IntervalStands(k, tail, 0);
    } else {
      ScanStands(hdr, k, tail, m - 1);
      ScanSteps(hdr, k, tail, m - 1);
    }
  }

  /** Every MCU of the scan is decoded to the picture's blocks, and then comes what follows the scan. */
  lemma ScanReads(hdr: Header, k: Coding, tail: seq<byte>)
    requires Fits(hdr, k) && AtMarker(tail)
    ensures forall m :: 0 <= m < McuCount(k.f) ==>
              McuAt(hdr, Begun(k, tail), m).Run? && McuAt(hdr, Begun(k, tail), m).blocks == Blocks(McuNo(k.f, k.pic, m))
    ensures var r := ScanAt(hdr, Begun(k, tail), McuCount(k.f));
            r.Run? && r.scan.tail == tail && exists n :: n < 8 && r.scan.rest == Ones(n)
  {
    hide Header.Valid, Coding.Valid, Frame.McusX, Frame.McusY, Carries, DecodeUnits, Units, ScanOf, McuNo, McuAt, ScanAt, Ones, Starts;
    var count := McuCount(k.f);
    forall m | 0 <= m < count
      ensures McuAt(hdr, Begun(k, tail), m).Run? && McuAt(hdr, Begun(k, tail), m).blocks == Blocks(McuNo(k.f, k.pic, m))
    {
      ScanStands(hdr, k, tail, m);
      ScanSteps(hdr, k, tail, m);
    }
    ScanStands(hdr, k, tail, count);
    var sc := ScanAt(hdr, Begun(k, tail), count).scan;
    var n :| Padded(sc.rest, CodedBits(k.coders, sc.preds, Interval(k.f, k.pic, count, EndOf(k.restart, StartOf(k.restart, count), count))), n);
    assert [] + Ones(n) == Ones(n);
  }
}
