/** The headers of a JPEG file: parse_headers and enc_header of jpeg.c (ITU T.81 sections B.1 and B.2). */
module FrameHeader {
  import opened Bits
  import opened Huffman
  import opened FrameGeometry
  import opened ScanSpec
  import opened StripSpec

  /** What the parser has gathered; a table is present once its segment was read. */
  datatype State = State(
    qt: seq<seq<nat>>, qtPresent: seq<bool>,
    dc: seq<Table>, dcPresent: seq<bool>, ac: seq<Table>, acPresent: seq<bool>,
    comps: seq<Component>, width: nat, height: nat, restart: nat)
  {
    predicate Valid() {
      |qt| == 4 && |qtPresent| == 4 && |dc| == 4 && |dcPresent| == 4 && |ac| == 4 && |acPresent| == 4 &&
      (forall i :: 0 <= i < 4 ==> |qt[i]| == 64) &&
      (forall i :: 0 <= i < 4 ==> dc[i].Valid() && |dc[i].vals| == 256 && Total(dc[i].counts) <= 256) &&
      (forall i :: 0 <= i < 4 ==> ac[i].Valid() && |ac[i].vals| == 256 && Total(ac[i].counts) <= 256) &&
      (forall i :: 0 <= i < 4 && !dcPresent[i] ==> dc[i] == Absent()) &&
      (forall i :: 0 <= i < 4 && !acPresent[i] ==> ac[i] == Absent()) &&
      (comps != [] ==> Frame(comps, width, height).Valid()) &&
      (forall i :: 0 <= i < |comps| ==> comps[i].tq < 4 && comps[i].td < 4 && comps[i].ta < 4)
    }

    function Header(): Header {
      ScanSpec.Header(Frame(comps, width, height), restart, qt, dc, ac)
    }
  }

  datatype Parsed = Accepted(st: State, rest: seq<byte>) | Rejected

  function Start(): (st: State)
    ensures st.Valid()
  {
    var none := [false, false, false, false];
    var q: seq<nat> := seq(64, _ => 0);
    var t := Absent();
    State([q, q, q, q], none, [t, t, t, t], none, [t, t, t, t], none, [], 0, 0, 0)
  }

  function U16(v: nat): seq<byte>
    requires v < 0x1_0000
  {
    [v / 256, v % 256]
  }

  /** The 64 entries of a quantiser, 8 bits each or (wide) 16. */
  function Entries(seg: seq<byte>, wide: bool): (q: seq<nat>)
    requires |seg| >= if wide then 129 else 65
    ensures |q| == 64
  {
    seq(64, i requires 0 <= i < 64 => if wide then Be16(seg, 1 + 2 * i) else seg[1 + i])
  }

  /** DQT: any number of tables, 8 or 16 bits an entry. */
  function ParseDqt(st: State, seg: seq<byte>): (r: Parsed)
    requires st.Valid()
    ensures r.Accepted? ==> r.st.Valid()
    decreases |seg|
  {
    if seg == [] then Accepted(st, [])
    else
      var pq, tq := seg[0] / 16, seg[0] % 16;
      var size := if pq > 0 then 128 else 64;
      if tq > 3 || pq > 1 || |seg| - 1 < size then Rejected
      else
        ParseDqt(st.(qt := st.qt[tq := Entries(seg, pq > 0)], qtPresent := st.qtPresent[tq := true]), seg[1 + size..])
  }

  /** The symbols replace the first ones of the 256-entry array. */
  function Overlay(was: seq<byte>, vals: seq<byte>): (v: seq<byte>)
    requires |vals| <= |was|
    ensures |v| == |was|
  {
    vals + was[|vals|..]
  }

  /** DHT: any number of tables. */
  function ParseDht(st: State, seg: seq<byte>): (r: Parsed)
    requires st.Valid()
    ensures r.Accepted? ==> r.st.Valid()
    decreases |seg|
  {
    if seg == [] then Accepted(st, [])
    else if |seg| < 17 then Rejected
    else
      var tc, th := seg[0] / 16, seg[0] % 16;
      if tc > 1 || th > 3 then Rejected
      else
        var counts := seg[1..17];
        var n := Total(counts);
        if n > 256 || |seg| - 17 < n then Rejected
        else
          var t := Table(counts, Overlay((if tc > 0 then st.ac[th] else st.dc[th]).vals, seg[17..17 + n]));
          ParseDht(if tc > 0 then st.(ac := st.ac[th := t], acPresent := st.acPresent[th := true])
                   else st.(dc := st.dc[th := t], dcPresent := st.dcPresent[th := true]),
                   seg[17 + n..])
  }

  function ParseComps(seg: seq<byte>, n: nat): (cs: seq<Component>)
    requires |seg| == 6 + 3 * n
    ensures |cs| == n
  {
    seq(n, i requires 0 <= i < n =>
      Component(seg[6 + 3 * i], seg[7 + 3 * i] / 16, seg[7 + 3 * i] % 16, seg[8 + 3 * i], 0, 0))
  }

  /** parse_frame. A single component is not interleaved, whatever factors it declares. */
  function ParseFrame(st: State, seg: seq<byte>): (r: Parsed)
    requires st.Valid()
    ensures r.Accepted? ==> r.st.Valid()
  {
    if |seg| < 6 || seg[0] != 8 then Rejected
    else
      var height, width, n := Be16(seg, 1), Be16(seg, 3), seg[5];
      if n != 1 && n != 3 then Rejected
      else if |seg| != 6 + 3 * n then Rejected
      else if width == 0 || height == 0 || width > MAX_DIM || height > MAX_DIM then Rejected
      else
        var cs := ParseComps(seg, n);
        if !forall i :: 0 <= i < n ==> 1 <= cs[i].h <= 4 && 1 <= cs[i].v <= 4 && cs[i].tq <= 3 then Rejected
        else
          var cs' := if n == 1 then [cs[0].(h := 1, v := 1)] else cs;
          Accepted(st.(comps := cs', width := width, height := height), [])
  }

  /** The last component with this id, as the loop without a break finds it. */
  function FindComp(comps: seq<Component>, id: nat): (j: int)
    ensures -1 <= j < |comps|
    ensures j >= 0 ==> comps[j].id == id
  {
    if comps == [] then -1
    else if comps[|comps| - 1].id == id then |comps| - 1
    else FindComp(comps[..|comps| - 1], id)
  }

  /** The component entries of a scan header from entry i on. */
  function ParseScanComps(st: State, seg: seq<byte>, i: nat): (r: Parsed)
    requires st.Valid() && st.comps != [] && |seg| == 4 + 2 * |st.comps| && i <= |st.comps|
    ensures r.Accepted? ==> r.st.Valid() && |r.st.comps| == |st.comps|
    decreases |st.comps| - i
  {
    if i == |st.comps| then Accepted(st, [])
    else
      var j := FindComp(st.comps, seg[1 + 2 * i]);
      var td, ta := seg[2 + 2 * i] / 16, seg[2 + 2 * i] % 16;
      if j < 0 || td > 3 || ta > 3 then Rejected
      else if !st.dcPresent[td] || !st.acPresent[ta] || !st.qtPresent[st.comps[j].tq] then Rejected
      else ParseScanComps(st.(comps := st.comps[j := st.comps[j].(td := td, ta := ta)]), seg, i + 1)
  }

  function ParseScan(st: State, seg: seq<byte>): (r: Parsed)
    requires st.Valid()
    ensures r.Accepted? ==> r.st.Valid() && r.st.comps != []
  {
    if st.comps == [] || seg == [] || seg[0] != |st.comps| || |seg| != 4 + 2 * seg[0] then Rejected
    else match ParseScanComps(st, seg, 0)
      case Rejected => Rejected
      case Accepted(st', _) =>
        var n := |st.comps|;
        if seg[1 + 2 * n] != 0 || seg[2 + 2 * n] != 63 || seg[3 + 2 * n] != 0 then Rejected
        else Accepted(st', [])
  }

  predicate Standalone(m: byte) {
    m == 0xD8 || m == 0x01 || 0xD0 <= m <= 0xD7
  }

  predicate Unsupported(m: byte) {
    m == 0xC2 || m == 0xC3 || 0xC5 <= m <= 0xC7 || 0xC9 <= m <= 0xCB || 0xCD <= m <= 0xCF
  }

  /** A marker segment other than SOS. */
  function ParseSegment(st: State, m: byte, seg: seq<byte>): (r: Parsed)
    requires st.Valid()
    ensures r.Accepted? ==> r.st.Valid()
  {
    if m == 0xDB then ParseDqt(st, seg)
    else if m == 0xC4 then ParseDht(st, seg)
    else if m == 0xDD then (if |seg| != 2 then Rejected else Accepted(st.(restart := Be16(seg, 0)), []))
    else if m == 0xC0 || m == 0xC1 then ParseFrame(st, seg)
    else if Unsupported(m) then Rejected
    else Accepted(st, []) // APPn, COM, ...
  }

  /** The marker loop. */
  function ParseMarkers(st: State, d: seq<byte>): (r: Parsed)
    requires st.Valid()
    ensures r.Accepted? ==> r.st.Valid() && r.st.comps != []
    decreases |d|
  {
    if d == [] || d[0] != 0xFF then Rejected
    else ParseMarker(st, SkipFill(d))
  }

  /** 0xFF fill bytes before a marker code. */
  function SkipFill(d: seq<byte>): (r: seq<byte>)
    ensures |r| <= |d|
    ensures d != [] && d[0] == 0xFF ==> |r| < |d|
  {
    if d != [] && d[0] == 0xFF then SkipFill(d[1..]) else d
  }

  function ParseMarker(st: State, d: seq<byte>): (r: Parsed)
    requires st.Valid()
    ensures r.Accepted? ==> r.st.Valid() && r.st.comps != []
    decreases |d|
  {
    if d == [] then Rejected
    else
      var m, p := d[0], d[1..];
      if Standalone(m) then ParseMarkers(st, p)
      else if m == 0xD9 || |p| < 2 then Rejected
      else
        var len := Be16(p, 0);
        if len < 2 || |p| < len then Rejected
        else if m == 0xDA then
          match ParseScan(st, p[2..len])
          case Rejected => Rejected
          case Accepted(st', _) => Accepted(st', p[len..])
        else match ParseSegment(st, m, p[2..len])
          case Rejected => Rejected
          case Accepted(st', _) => ParseMarkers(st', p[len..])
  }

  /** parse_headers: the tables and frame, and the entropy-coded data that follows. */
  function ParseHeaders(d: seq<byte>): (r: Parsed)
    ensures r.Accepted? ==> r.st.Valid() && r.st.comps != []
  {
    if |d| < 2 || d[0] != 0xFF || d[1] != 0xD8 then Rejected
    else ParseMarkers(Start(), d[2..])
  }

  // --- where the entropy-coded data begins -------------------------------------------------

  predicate IsSuffix(r: seq<byte>, d: seq<byte>) {
    |r| <= |d| && r == d[|d| - |r|..]
  }

  lemma SuffixOfDrop(r: seq<byte>, d: seq<byte>, k: nat)
    requires k <= |d| && IsSuffix(r, d[k..])
    ensures IsSuffix(r, d)
  {
  }

  lemma {:induction false} FillSuffix(r: seq<byte>, d: seq<byte>)
    requires IsSuffix(r, SkipFill(d))
    ensures IsSuffix(r, d)
  {
    if d != [] && d[0] == 0xFF {
      FillSuffix(r, d[1..]);
      SuffixOfDrop(r, d, 1);
    }
  }

  lemma {:induction false} MarkersRest(st: State, d: seq<byte>)
    requires st.Valid() && ParseMarkers(st, d).Accepted?
    ensures IsSuffix(ParseMarkers(st, d).rest, d)
    decreases |d|
  {
    hide State.Valid, ParseScan, ParseSegment;
    var m := SkipFill(d);
    var p := m[1..];
    if Standalone(m[0]) {
      MarkersRest(st, p);
    } else {
      var len := Be16(p, 0);
      if m[0] != 0xDA {
        MarkersRest(ParseSegment(st, m[0], p[2..len]).st, p[len..]);
      }
      SuffixOfDrop(ParseMarkers(st, d).rest, p, len);
    }
    SuffixOfDrop(ParseMarkers(st, d).rest, m, 1);
    FillSuffix(ParseMarkers(st, d).rest, d);
  }

  /** parse_headers leaves the parser at a place in its input. */
  lemma HeadersRest(d: seq<byte>)
    requires ParseHeaders(d).Accepted?
    ensures IsSuffix(ParseHeaders(d).rest, d)
  {
    hide ParseMarkers;
    MarkersRest(Start(), d[2..]);
    SuffixOfDrop(ParseHeaders(d).rest, d, 2);
  }

  // --- the encoder's header ---------------------------------------------------------------

  function Segment(m: byte, p: seq<byte>): seq<byte>
    requires |p| + 2 < 0x1_0000
  {
    [0xFF, m] + U16(|p| + 2) + p
  }

  function Jfif(): (d: seq<byte>)
    ensures |d| == 14
  {
    [0x4A, 0x46, 0x49, 0x46, 0, 1, 1, 0, 0, 1, 0, 1, 0, 0]
  }

  function Dqt(q0: seq<byte>, q1: seq<byte>): (d: seq<byte>)
    ensures |d| == |q0| + |q1| + 2
  {
    [0] + q0 + ([1] + q1)
  }

  function Sof(w: nat, h: nat): (d: seq<byte>)
    requires w < 0x1_0000 && h < 0x1_0000
    ensures |d| == 15
  {
    [8] + U16(h) + U16(w) + [3, 1, 0x11, 0, 2, 0x11, 1, 3, 0x11, 1]
  }

  function Dht1(id: byte, t: Table): (d: seq<byte>)
    requires t.Valid()
    ensures |d| == 17 + Total(t.counts)
  {
    [id] + t.counts + t.vals[..Total(t.counts)]
  }

  function Dht(cs: Coders): (d: seq<byte>)
    requires cs.luma.dcT.Valid() && cs.luma.acT.Valid() && cs.chroma.dcT.Valid() && cs.chroma.acT.Valid()
    ensures |d| == 68 + Total(cs.luma.dcT.counts) + Total(cs.luma.acT.counts)
                      + Total(cs.chroma.dcT.counts) + Total(cs.chroma.acT.counts)
  {
    Dht1(0x00, cs.luma.dcT) + (Dht1(0x10, cs.luma.acT) + (Dht1(0x01, cs.chroma.dcT) + Dht1(0x11, cs.chroma.acT)))
  }

  function Sos(): (d: seq<byte>)
    ensures |d| == 10
  {
    [3, 1, 0x00, 2, 0x11, 3, 0x11, 0, 63, 0]
  }

  /** A code book's table as a decoder stores it: 256 entries, zero past the symbols. */
  ghost predicate Stored(t: Table) {
    t.Valid() && |t.vals| == 256 && Total(t.counts) <= 256 &&
    forall i :: Total(t.counts) <= i < 256 ==> t.vals[i] == 0
  }

  ghost predicate StoredTables(cs: Coders) {
    Stored(cs.luma.dcT) && Stored(cs.luma.acT) && Stored(cs.chroma.dcT) && Stored(cs.chroma.acT)
  }

  ghost predicate Quantisers(q0: seq<byte>, q1: seq<byte>) {
    |q0| == 64 && |q1| == 64
  }

  ghost function HeaderBytes(w: nat, h: nat, q0: seq<byte>, q1: seq<byte>, cs: Coders): seq<byte>
    requires w < 0x1_0000 && h < 0x1_0000 && Quantisers(q0, q1) && StoredTables(cs)
  {
    [0xFF, 0xD8] + (Segment(0xE0, Jfif()) + (Segment(0xDB, Dqt(q0, q1)) + (Segment(0xC0, Sof(w, h)) +
      (Segment(0xC4, Dht(cs)) + Segment(0xDA, Sos())))))
  }

  /** The parser's state after the encoder's header: three unsampled components, luma with the
      first quantiser and tables and chroma with the second. */
  function OutputState(w: nat, h: nat, q0: seq<nat>, q1: seq<nat>, cs: Coders): State {
    var st := Start();
    st.(qt := [q0, q1] + st.qt[2..], qtPresent := [true, true, false, false],
        dc := [cs.luma.dcT, cs.chroma.dcT] + st.dc[2..], dcPresent := [true, true, false, false],
        ac := [cs.luma.acT, cs.chroma.acT] + st.ac[2..], acPresent := [true, true, false, false],
        comps := [Component(1, 1, 1, 0, 0, 0), Component(2, 1, 1, 1, 1, 1), Component(3, 1, 1, 1, 1, 1)],
        width := w, height := h)
  }

  /** Where the marker loop finds a segment's payload and what follows it. */
  lemma SegmentAt(m: byte, p: seq<byte>, rest: seq<byte>)
    requires |p| + 2 < 0x1_0000 && m != 0xFF
    ensures var d := Segment(m, p) + rest;
            |d| > 2 && d[0] == 0xFF && SkipFill(d) == d[1..] && d[1] == m &&
            var e := d[1..][1..];
            |e| >= |p| + 2 && Be16(e, 0) == |p| + 2 && e[2..|p| + 2] == p && e[|p| + 2..] == rest
  {
    var d := Segment(m, p) + rest;
    var e := U16(|p| + 2) + p + rest;
    assert d == [0xFF, m] + e;
    assert d[1..] == [m] + e;
    assert SkipFill([m] + e) == [m] + e;
    assert ([m] + e)[1..] == e;
    assert e[2..|p| + 2] == p && e[|p| + 2..] == rest;
  }

  /** The marker loop passes a segment to its handler and goes on after it. */
  lemma MarkerStep(st: State, m: byte, p: seq<byte>, rest: seq<byte>, st': State)
    requires st.Valid() && |p| + 2 < 0x1_0000 && m != 0xFF && !Standalone(m) && m != 0xD9 && m != 0xDA
    requires ParseSegment(st, m, p).Accepted? && ParseSegment(st, m, p).st == st'
    ensures st'.Valid() && ParseMarkers(st, Segment(m, p) + rest) == ParseMarkers(st', rest)
  {
    hide ParseScan, ParseSegment, State.Valid, SkipFill, Segment;
    SegmentAt(m, p, rest);
  }

  lemma ScanStep(st: State, p: seq<byte>, rest: seq<byte>, st': State)
    requires st.Valid() && |p| + 2 < 0x1_0000
    requires ParseScan(st, p).Accepted? && ParseScan(st, p).st == st'
    ensures ParseMarkers(st, Segment(0xDA, p) + rest) == Parsed.Accepted(st', rest)
  {
    hide ParseScan, ParseSegment, State.Valid, SkipFill, Segment;
    SegmentAt(0xDA, p, rest);
  }

  lemma DqtStep(st: State, tq: nat, q: seq<byte>, rest: seq<byte>)
    requires st.Valid() && tq < 4 && |q| == 64
    ensures ParseDqt(st, [tq] + q + rest)
         == ParseDqt(st.(qt := st.qt[tq := q], qtPresent := st.qtPresent[tq := true]), rest)
  {
    hide State.Valid, Entries, ParseDqt;
    DqtEntries(tq, q, rest);
    QuantiserValid(st, tq, q);
    DqtRead(st, tq, [tq] + q + rest);
  }

  lemma DqtRead(st: State, tq: nat, seg: seq<byte>)
    requires st.Valid() && tq < 4 && |seg| >= 65 && seg[0] == tq
    requires st.(qt := st.qt[tq := Entries(seg, false)], qtPresent := st.qtPresent[tq := true]).Valid()
    ensures ParseDqt(st, seg)
         == ParseDqt(st.(qt := st.qt[tq := Entries(seg, false)], qtPresent := st.qtPresent[tq := true]), seg[65..])
  {
    hide State.Valid, Entries;
  }

  lemma DqtEntries(tq: nat, q: seq<byte>, rest: seq<byte>)
    requires |q| == 64 && tq < 4
    ensures var seg := [tq] + q + rest;
            |seg| == 65 + |rest| && seg[0] == tq && seg[65..] == rest && Entries(seg, false) == q
  {
  }

  lemma QuantiserValid(st: State, tq: nat, q: seq<nat>)
    requires st.Valid() && tq < 4 && |q| == 64
    ensures st.(qt := st.qt[tq := q], qtPresent := st.qtPresent[tq := true]).Valid()
  {
    hide FirstIndex, Frame.Valid;
  }

  function WithTable(st: State, tc: nat, th: nat, t: Table): State
    requires st.Valid() && th < 4
  {
    if tc > 0 then st.(ac := st.ac[th := t], acPresent := st.acPresent[th := true])
    else st.(dc := st.dc[th := t], dcPresent := st.dcPresent[th := true])
  }

  lemma WithTableValid(st: State, tc: nat, th: nat, t: Table)
    requires st.Valid() && th < 4 && Stored(t)
    ensures WithTable(st, tc, th, t).Valid()
  {
    hide FirstIndex, Frame.Valid;
  }

  lemma DhtStep(st: State, tc: nat, th: nat, t: Table, rest: seq<byte>)
    requires st.Valid() && tc < 2 && th < 4 && Stored(t)
    requires (if tc > 0 then st.ac[th] else st.dc[th]).vals == seq(256, _ => 0)
    ensures WithTable(st, tc, th, t).Valid()
    ensures ParseDht(st, Dht1(16 * tc + th, t) + rest) == ParseDht(WithTable(st, tc, th, t), rest)
  {
    hide FirstIndex, Frame.Valid, Dht1, Total;
    WithTableValid(st, tc, th, t);
    Dht1Parts(16 * tc + th, t, rest);
    DivModUnique(16 * tc + th, 16, tc, th);
    assert Table(t.counts, t.vals) == t;
  }

  lemma Dht1Parts(id: byte, t: Table, rest: seq<byte>)
    requires Stored(t)
    ensures var seg, n := Dht1(id, t) + rest, Total(t.counts);
            n <= 256 && |seg| >= 17 + n && seg[0] == id && seg[1..17] == t.counts && seg[17 + n..] == rest &&
            Overlay(seq(256, _ => 0), seg[17..17 + n]) == t.vals
  {
    hide FirstIndex, Total;
    var n := Total(t.counts);
    var seg := Dht1(id, t) + rest;
    assert seg[1..17] == t.counts;
    assert seg[17..17 + n] == t.vals[..n];
    assert seg[17 + n..] == rest;
    var zeros: seq<byte> := seq(256, _ => 0);
    assert Overlay(zeros, t.vals[..n]) == t.vals;
  }

  lemma DqtParses(st: State, q0: seq<byte>, q1: seq<byte>)
    requires st.Valid() && Quantisers(q0, q1)
    ensures ParseDqt(st, Dqt(q0, q1)) ==
      Parsed.Accepted(st.(qt := st.qt[0 := q0][1 := q1], qtPresent := st.qtPresent[0 := true][1 := true]), [])
  {
    hide Entries, FirstIndex;
    DqtStep(st, 0, q0, [1] + q1);
    assert [1] + q1 == [1] + q1 + [];
    DqtStep(st.(qt := st.qt[0 := q0], qtPresent := st.qtPresent[0 := true]), 1, q1, []);
  }

  lemma FourEach(st: State)
    requires st.Valid()
    ensures |st.dc| == |st.ac| == |st.dcPresent| == |st.acPresent| == |st.qt| == |st.qtPresent| == 4
  {
  }

  /** With the four tables of a Dht segment. */
  function WithTables(st: State, cs: Coders): State
    requires st.Valid()
  {
    st.(dc := st.dc[0 := cs.luma.dcT][1 := cs.chroma.dcT], dcPresent := st.dcPresent[0 := true][1 := true],
        ac := st.ac[0 := cs.luma.acT][1 := cs.chroma.acT], acPresent := st.acPresent[0 := true][1 := true])
  }

  lemma DhtParses(st: State, cs: Coders)
    requires st.Valid() && StoredTables(cs)
    requires st.dc[0].vals == st.dc[1].vals == st.ac[0].vals == st.ac[1].vals == seq(256, _ => 0)
    ensures ParseDht(st, Dht(cs)) == Parsed.Accepted(WithTables(st, cs), [])
  {
    hide Dht1, FirstIndex, State.Valid, Table.Valid, Total, ParseDht, Stored;
    FourEach(st);
    var a, b, c, d := cs.luma.dcT, cs.luma.acT, cs.chroma.dcT, cs.chroma.acT;
    StoredValid(a);
    StoredValid(b);
    StoredValid(c);
    StoredValid(d);
    DhtStep(st, 0, 0, a, Dht1(0x10, b) + (Dht1(0x01, c) + Dht1(0x11, d)));
    var st1 := WithTable(st, 0, 0, a);
    DhtStep(st1, 1, 0, b, Dht1(0x01, c) + Dht1(0x11, d));
    var st2 := WithTable(st1, 1, 0, b);
    DhtStep(st2, 0, 1, c, Dht1(0x11, d));
    var st3 := WithTable(st2, 0, 1, c);
    assert Dht1(0x11, d) + [] == Dht1(0x11, d);
    DhtStep(st3, 1, 1, d, []);
    DhtDone(WithTable(st3, 1, 1, d));
  }

  lemma StoredValid(t: Table)
    requires Stored(t)
    ensures t.Valid()
  {
  }

  lemma DhtDone(st: State)
    requires st.Valid()
    ensures ParseDht(st, []) == Parsed.Accepted(st, [])
  {
  }

  lemma SofParses(st: State, w: nat, h: nat)
    requires st.Valid() && 1 <= w <= MAX_DIM && 1 <= h <= MAX_DIM
    ensures ParseFrame(st, Sof(w, h)) == Parsed.Accepted(st.(
      comps := [Component(1, 1, 1, 0, 0, 0), Component(2, 1, 1, 1, 0, 0), Component(3, 1, 1, 1, 0, 0)],
      width := w, height := h), [])
  {
    hide State.Valid, ParseComps, Sof, Be16;
    SofFields(w, h);
    var comps := [Component(1, 1, 1, 0, 0, 0), Component(2, 1, 1, 1, 0, 0), Component(3, 1, 1, 1, 0, 0)];
    assert ParseComps(Sof(w, h), 3) == comps;
    assert forall i :: 0 <= i < 3 ==> 1 <= comps[i].h <= 4 && 1 <= comps[i].v <= 4 && comps[i].tq <= 3;
  }

  lemma SofFields(w: nat, h: nat)
    requires 1 <= w <= MAX_DIM && 1 <= h <= MAX_DIM
    ensures var seg := Sof(w, h);
            |seg| == 15 && seg[0] == 8 && Be16(seg, 1) == h && Be16(seg, 3) == w && seg[5] == 3 &&
            ParseComps(seg, 3) == [Component(1, 1, 1, 0, 0, 0), Component(2, 1, 1, 1, 0, 0), Component(3, 1, 1, 1, 0, 0)]
  {
    var seg := Sof(w, h);
    assert seg[6..] == [1, 0x11, 0, 2, 0x11, 1, 3, 0x11, 1];
    assert seg[6] == 1 && seg[7] == 0x11 && seg[8] == 0;
    assert seg[9] == 2 && seg[10] == 0x11 && seg[11] == 1;
    assert seg[12] == 3 && seg[13] == 0x11 && seg[14] == 1;
    var cs := ParseComps(seg, 3);
    assert cs[0] == Component(1, 1, 1, 0, 0, 0) && cs[1] == Component(2, 1, 1, 1, 0, 0) && cs[2] == Component(3, 1, 1, 1, 0, 0);
  }

  lemma ScanCompStep(st: State, seg: seq<byte>, i: nat, td: nat, ta: nat)
    requires st.Valid() && |seg| == 4 + 2 * |st.comps| && i < |st.comps| && td < 4 && ta < 4
    requires FindComp(st.comps, seg[1 + 2 * i]) == i && seg[2 + 2 * i] / 16 == td && seg[2 + 2 * i] % 16 == ta
    requires st.dcPresent[td] && st.acPresent[ta] && st.qtPresent[st.comps[i].tq]
    ensures var st' := st.(comps := st.comps[i := st.comps[i].(td := td, ta := ta)]);
            st'.Valid() && ParseScanComps(st, seg, i) == ParseScanComps(st', seg, i + 1)
  {
    hide FirstIndex, FindComp, Table.Valid, Total;
    var comps := st.comps[i := st.comps[i].(td := td, ta := ta)];
    assert Frame(comps, st.width, st.height).Valid();
  }

  lemma {:induction false} FoundComp(comps: seq<Component>, j: nat)
    requires j < |comps| && forall a, b :: 0 <= a < b < |comps| ==> comps[a].id != comps[b].id
    ensures FindComp(comps, comps[j].id) == j
  {
    if j < |comps| - 1 {
      FoundComp(comps[..|comps| - 1], j);
    }
  }

  lemma SosParses(st: State)
    requires st.Valid() && st.qtPresent[0] && st.qtPresent[1] && st.dcPresent[0] && st.dcPresent[1]
    requires st.acPresent[0] && st.acPresent[1]
    requires st.comps == [Component(1, 1, 1, 0, 0, 0), Component(2, 1, 1, 1, 0, 0), Component(3, 1, 1, 1, 0, 0)]
    ensures ParseScan(st, Sos()) == Parsed.Accepted(st.(
      comps := [Component(1, 1, 1, 0, 0, 0), Component(2, 1, 1, 1, 1, 1), Component(3, 1, 1, 1, 1, 1)]), [])
  {
    hide FirstIndex, ParseScanComps, FindComp, Table.Valid, Total, Absent;
    var c1, c2, c3 := Component(1, 1, 1, 0, 0, 0), Component(2, 1, 1, 1, 1, 1), Component(3, 1, 1, 1, 1, 1);
    var c3' := Component(3, 1, 1, 1, 0, 0);
    var seg := Sos();
    FoundComp(st.comps, 0);
    FoundComp(st.comps, 1);
    ScanCompStep(st, seg, 0, 0, 0);
    assert st.comps[0 := c1] == st.comps;
    ScanCompStep(st, seg, 1, 1, 1);
    var st1 := st.(comps := [c1, c2, c3']);
    assert st.comps[1 := c2] == st1.comps;
    LastCompParses(st1);
  }

  lemma LastCompParses(st: State)
    requires st.Valid() && st.qtPresent[1] && st.dcPresent[1] && st.acPresent[1] && |st.comps| == 3
    requires st.comps[0].id == 1 && st.comps[1].id == 2 && st.comps[2] == Component(3, 1, 1, 1, 0, 0)
    ensures ParseScanComps(st, Sos(), 2) == Parsed.Accepted(st.(comps := st.comps[2 := Component(3, 1, 1, 1, 1, 1)]), [])
  {
    hide FirstIndex, ParseScanComps, FindComp, Table.Valid, Total, Absent;
    FoundComp(st.comps, 2);
    ScanCompStep(st, Sos(), 2, 1, 1);
    ScanCompsDone(st.(comps := st.comps[2 := Component(3, 1, 1, 1, 1, 1)]), Sos());
  }

  lemma ScanCompsDone(st: State, seg: seq<byte>)
    requires st.Valid() && st.comps != [] && |seg| == 4 + 2 * |st.comps|
    ensures ParseScanComps(st, seg, |st.comps|) == Parsed.Accepted(st, [])
  {
    hide FirstIndex;
  }

  /** parse_headers accepts what enc_header writes, and recovers the size, the quantisers, the
      tables and the scan's components; the entropy-coded data follows. */
  lemma {:induction false} HeaderRoundTrip(w: nat, h: nat, q0: seq<byte>, q1: seq<byte>, cs: Coders, rest: seq<byte>)
    requires 1 <= w <= MAX_DIM && 1 <= h <= MAX_DIM && Quantisers(q0, q1) && StoredTables(cs)
    ensures ParseHeaders(HeaderBytes(w, h, q0, q1, cs) + rest) == Parsed.Accepted(OutputState(w, h, q0, q1, cs), rest)
  {
    hide ParseMarkers, Segment, Dqt, Dht, Sof, Sos, Start, FirstIndex, ParseScan, ParseSegment;
    var s1, s2, s3, s4, s5 := Segment(0xE0, Jfif()), Segment(0xDB, Dqt(q0, q1)), Segment(0xC0, Sof(w, h)),
                              Segment(0xC4, Dht(cs)), Segment(0xDA, Sos());
    var d := HeaderBytes(w, h, q0, q1, cs) + rest;
    assert d[2..] == s1 + (s2 + (s3 + (s4 + (s5 + rest))));
    MarkersParse(w, h, q0, q1, cs, rest);
  }

  lemma MarkersParse(w: nat, h: nat, q0: seq<byte>, q1: seq<byte>, cs: Coders, rest: seq<byte>)
    requires 1 <= w <= MAX_DIM && 1 <= h <= MAX_DIM && Quantisers(q0, q1) && StoredTables(cs)
    ensures ParseMarkers(Start(), Segment(0xE0, Jfif()) + (Segment(0xDB, Dqt(q0, q1)) + (Segment(0xC0, Sof(w, h)) +
              (Segment(0xC4, Dht(cs)) + (Segment(0xDA, Sos()) + rest)))))
         == Parsed.Accepted(OutputState(w, h, q0, q1, cs), rest)
  {
    hide ParseMarkers, Segment, Dqt, Dht, Sof, Sos, FirstIndex, ParseScan, ParseDqt, ParseDht, ParseFrame;
    var r4 := Segment(0xDA, Sos()) + rest;
    var r3 := Segment(0xC4, Dht(cs)) + r4;
    var r2 := Segment(0xC0, Sof(w, h)) + r3;
    var r1 := Segment(0xDB, Dqt(q0, q1)) + r2;
    var st0 := Start();
    MarkerStep(st0, 0xE0, Jfif(), r1, st0);
    DqtParses(st0, q0, q1);
    var st1 := st0.(qt := st0.qt[0 := q0][1 := q1], qtPresent := st0.qtPresent[0 := true][1 := true]);
    MarkerStep(st0, 0xDB, Dqt(q0, q1), r2, st1);
    SofParses(st1, w, h);
    var st2 := ParseFrame(st1, Sof(w, h)).st;
    MarkerStep(st1, 0xC0, Sof(w, h), r3, st2);
    TablesParse(st2, cs, rest);
  }

  /** The same from the Huffman tables on. */
  lemma TablesParse(st: State, cs: Coders, rest: seq<byte>)
    requires st.Valid() && StoredTables(cs) && st.qtPresent[0] && st.qtPresent[1]
    requires st.dc[0].vals == st.dc[1].vals == st.ac[0].vals == st.ac[1].vals == seq(256, _ => 0)
    requires st.comps == [Component(1, 1, 1, 0, 0, 0), Component(2, 1, 1, 1, 0, 0), Component(3, 1, 1, 1, 0, 0)]
    ensures ParseMarkers(st, Segment(0xC4, Dht(cs)) + (Segment(0xDA, Sos()) + rest)) ==
            Parsed.Accepted(WithTables(st, cs).(comps :=
              [Component(1, 1, 1, 0, 0, 0), Component(2, 1, 1, 1, 1, 1), Component(3, 1, 1, 1, 1, 1)]), rest)
  {
    hide ParseMarkers, Segment, Dht, Sos, FirstIndex, ParseScan, ParseDht;
    DhtParses(st, cs);
    var st' := ParseDht(st, Dht(cs)).st;
    MarkerStep(st, 0xC4, Dht(cs), Segment(0xDA, Sos()) + rest, st');
    SosParses(st');
    ScanStep(st', Sos(), rest, ParseScan(st', Sos()).st);
  }
}
