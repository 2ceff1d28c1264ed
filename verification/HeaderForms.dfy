/** Every header a JPEG file can have, written after ITU T.81 section B.2: the parser accepts exactly
    these, and finds in them what was last defined. */
module HeaderForms {
  import opened Bits
  import opened Wrappers
  import opened Huffman
  import opened FrameGeometry
  import opened ScanSpec
  import opened FrameHeader

  // --- the segments -----------------------------------------------------------------------------------

  /** A quantiser of section B.2.4.1: 64 entries of one byte, or of two. */
  datatype Quantiser = Quantiser(id: nat, wide: bool, q: seq<nat>) {
    predicate Valid() {
      id < 4 && |q| == 64 && forall k :: 0 <= k < 64 ==> q[k] < if wide then 0x1_0000 else 256
    }
  }

  /** A Huffman table of section B.2.4.2. */
  datatype Code = Code(ac: bool, id: nat, counts: seq<byte>, vals: seq<byte>) {
    predicate Valid() {
      id < 4 && |counts| == 16 && |vals| == Total(counts) <= 256
    }
  }

  /** A component of a frame, section B.2.2. */
  datatype Part = Part(id: byte, h: nat, v: nat, tq: nat) {
    predicate Valid() {
      1 <= h <= 4 && 1 <= v <= 4 && tq < 4
    }
  }

  /** What stands between two markers: a marker without a payload, or a segment. */
  datatype Body = Alone(m: byte) | Quantisers(qs: seq<Quantiser>) | Codes(hs: seq<Code>) | Restart(n: nat)
                | Sof(m: byte, w: nat, h: nat, parts: seq<Part>) | Other(m: byte, payload: seq<byte>)
  {
    predicate Valid() {
      match this
      case Alone(m) => m == 0xD8 || m == 0x01 || 0xD0 <= m <= 0xD7
      case Quantisers(qs) => AllQuantisers(qs) && |QuantiserBytes(qs)| < 0xFFFE
      case Codes(hs) => AllCodes(hs) && |CodeBytes(hs)| < 0xFFFE
      case Restart(n) => n < 0x1_0000
      case Sof(m, w, h, parts) =>
        (m == 0xC0 || m == 0xC1) && 1 <= w <= 4096 && 1 <= h <= 4096 && (|parts| == 1 || |parts| == 3) && AllParts(parts)
      case Other(m, payload) =>
        m < 0xFF && m != 0xD8 && m != 0x01 && !(0xC0 <= m <= 0xC7) && !(0xC9 <= m <= 0xCB) && !(0xCD <= m <= 0xD7) && m != 0xD9 && m != 0xDA &&
        m != 0xDB && m != 0xDD && |payload| < 0xFFFE
    }
  }

  predicate AllQuantisers(qs: seq<Quantiser>) {
    forall k :: 0 <= k < |qs| ==> qs[k].Valid()
  }

  predicate AllCodes(hs: seq<Code>) {
    forall k :: 0 <= k < |hs| ==> hs[k].Valid()
  }

  predicate AllParts(parts: seq<Part>) {
    forall k :: 0 <= k < |parts| ==> parts[k].Valid()
  }

  function QuantiserByte(d: Quantiser, k: nat): byte
    requires d.Valid() && k < if d.wide then 129 else 65
  {
    if k == 0 then (if d.wide then 16 else 0) + d.id
    else if !d.wide then d.q[k - 1]
    else if k % 2 == 1 then d.q[(k - 1) / 2] / 256
    else d.q[(k - 1) / 2] % 256
  }

  function OneQuantiser(d: Quantiser): (b: seq<byte>)
    requires d.Valid()
    ensures |b| == if d.wide then 129 else 65
  {
    seq(if d.wide then 129 else 65, k requires 0 <= k < (if d.wide then 129 else 65) => QuantiserByte(d, k))
  }

  function QuantiserBytes(qs: seq<Quantiser>): seq<byte>
    requires AllQuantisers(qs)
  {
    if qs == [] then [] else OneQuantiser(qs[0]) + QuantiserBytes(qs[1..])
  }

  function OneCode(d: Code): (b: seq<byte>)
    requires d.Valid()
    ensures |b| == 17 + |d.vals|
  {
    [(if d.ac then 16 else 0) + d.id] + d.counts + d.vals
  }

  function CodeBytes(hs: seq<Code>): seq<byte>
    requires AllCodes(hs)
  {
    if hs == [] then [] else OneCode(hs[0]) + CodeBytes(hs[1..])
  }

  function PartBytes(parts: seq<Part>): (b: seq<byte>)
    requires AllParts(parts)
    ensures |b| == 3 * |parts|
  {
    if parts == [] then [] else [parts[0].id, 16 * parts[0].h + parts[0].v, parts[0].tq] + PartBytes(parts[1..])
  }

  // --- what they define ----------------------------------------------------------------------------------

  /** The quantiser these define under this number: a later definition replaces an earlier one. */
  function QuantiserIn(qs: seq<Quantiser>, i: nat): Option<seq<nat>> {
    if qs == [] then None
    else match QuantiserIn(qs[1..], i)
      case Some(q) => Some(q)
      case None => if qs[0].id == i then Some(qs[0].q) else None
  }

  function CodeIn(hs: seq<Code>, ac: bool, i: nat): Option<Code> {
    if hs == [] then None
    else match CodeIn(hs[1..], ac, i)
      case Some(h) => Some(h)
      case None => if hs[0].id == i && hs[0].ac == ac then Some(hs[0]) else None
  }

  // --- quantisers ----------------------------------------------------------------------------------------

  lemma QuantiserRead(d: Quantiser, rest: seq<byte>)
    requires d.Valid()
    ensures var seg := OneQuantiser(d) + rest;
            |seg| == (if d.wide then 129 else 65) + |rest| && seg[0] / 16 == (if d.wide then 1 else 0) && seg[0] % 16 == d.id &&
            Entries(seg, d.wide) == d.q && seg[if d.wide then 129 else 65..] == rest
  {
    var b := OneQuantiser(d);
    var seg := b + rest;
    DivModUnique(b[0], 16, if d.wide then 1 else 0, d.id);
    forall k | 0 <= k < 64
      ensures Entries(seg, d.wide)[k] == d.q[k]
    {
      if d.wide {
        WideEntry(d, k);
        assert seg[1 + 2 * k] == b[1 + 2 * k] && seg[2 + 2 * k] == b[2 + 2 * k];
      } else {
        assert seg[1 + k] == b[1 + k];
      }
    }
  }

  lemma WideEntry(d: Quantiser, k: nat)
    requires d.Valid() && d.wide && k < 64
    ensures QuantiserByte(d, 1 + 2 * k) * 256 + QuantiserByte(d, 2 + 2 * k) == d.q[k]
  {
  }

  /** A place that was so is now so, with this put there, if anything. */
  predicate Put<T(==)>(def: Option<T>, was: T, had: bool, now: T, has: bool) {
    if def.Some? then has && now == def.value else has == had && now == was
  }

  function LastOf<T>(first: Option<T>, second: Option<T>): Option<T> {
    if second.Some? then second else first
  }

  /** st' is st with these quantisers. */
  predicate HasQuantisers(st: State, qs: seq<Quantiser>, st': State) {
    st'.Valid() && st' == st.(qt := st'.qt, qtPresent := st'.qtPresent) &&
    |st.qt| == |st.qtPresent| == |st'.qt| == |st'.qtPresent| == 4 &&
    forall i :: 0 <= i < 4 ==> Put(QuantiserIn(qs, i), st.qt[i], st.qtPresent[i], st'.qt[i], st'.qtPresent[i])
  }

  lemma {:induction false} QuantisersRead(st: State, qs: seq<Quantiser>) returns (st': State)
    requires st.Valid() && AllQuantisers(qs)
    ensures ParseDqt(st, QuantiserBytes(qs)) == Accepted(st', []) && HasQuantisers(st, qs, st')
    decreases |qs|
  {
    hide State.Valid, Entries, OneQuantiser;
    FourEach(st);
    st' := st;
    if qs != [] {
      var d := qs[0];
      assert d.Valid();
      var st1 := st.(qt := st.qt[d.id := d.q], qtPresent := st.qtPresent[d.id := true]);
      QuantiserValid(st, d.id, d.q);
      QuantiserRead(d, QuantiserBytes(qs[1..]));
      st' := QuantisersRead(st1, qs[1..]);
    }
  }

  /** Whatever DQT segment is accepted is made of quantisers. */
  lemma {:induction false} QuantisersThere(st: State, seg: seq<byte>) returns (qs: seq<Quantiser>)
    requires st.Valid() && ParseDqt(st, seg).Accepted?
    ensures AllQuantisers(qs) && QuantiserBytes(qs) == seg
    decreases |seg|
  {
    hide State.Valid, OneQuantiser;
    FourEach(st);
    if seg == [] {
      qs := [];
    } else {
      var wide := seg[0] / 16 > 0;
      var size := if wide then 129 else 65;
      var d := Quantiser(seg[0] % 16, wide, Entries(seg, wide));
      QuantiserThere(d, seg);
      QuantiserValid(st, d.id, d.q);
      var more := QuantisersThere(st.(qt := st.qt[d.id := d.q], qtPresent := st.qtPresent[d.id := true]), seg[size..]);
      qs := [d] + more;
      assert qs[1..] == more;
      assert seg == seg[..size] + seg[size..];
    }
  }

  lemma QuantiserThere(d: Quantiser, seg: seq<byte>)
    requires d.id < 4 && |seg| >= (if d.wide then 129 else 65) && d.q == Entries(seg, d.wide)
    requires seg[0] == (if d.wide then 16 else 0) + d.id
    ensures d.Valid() && OneQuantiser(d) == seg[..if d.wide then 129 else 65]
  {
    hide Entries;
    forall k | 0 <= k < 64
      ensures d.q[k] < if d.wide then 0x1_0000 else 256
    {
      EntryIs(d, seg, k);
    }
    hide QuantiserByte;
    forall k | 0 <= k < |OneQuantiser(d)|
      ensures QuantiserByte(d, k) == seg[k]
    {
      if k > 0 { EntryIs(d, seg, if d.wide then (k - 1) / 2 else k - 1); }
      ByteIs(d, seg, k);
    }
  }

  lemma EntryIs(d: Quantiser, seg: seq<byte>, k: nat)
    requires |seg| >= (if d.wide then 129 else 65) && d.q == Entries(seg, d.wide) && k < 64
    ensures |d.q| == 64 && d.q[k] == if d.wide then Be16(seg, 1 + 2 * k) else seg[1 + k]
  {
  }

  lemma ByteIs(d: Quantiser, seg: seq<byte>, k: nat)
    requires d.Valid() && |seg| >= (if d.wide then 129 else 65) && k < if d.wide then 129 else 65
    requires seg[0] == (if d.wide then 16 else 0) + d.id
    requires k > 0 && d.wide ==> d.q[(k - 1) / 2] == Be16(seg, 1 + 2 * ((k - 1) / 2))
    requires k > 0 && !d.wide ==> d.q[k - 1] == seg[k]
    ensures QuantiserByte(d, k) == seg[k]
  {
    if k > 0 && d.wide {
      var j := (k - 1) / 2;
      DivModUnique(d.q[j], 256, seg[1 + 2 * j], seg[2 + 2 * j]);
    }
  }

  // --- Huffman tables --------------------------------------------------------------------------------------

  /** The place's table is this one, if any: its counts and the symbols it has. */
  predicate PutCode(def: Option<Code>, was: Table, had: bool, now: Table, has: bool) {
    if def.Some? then has && now.counts == def.value.counts && |now.vals| >= |def.value.vals| &&
                      now.vals[..|def.value.vals|] == def.value.vals
    else has == had && now == was
  }

  predicate HasCodes(st: State, hs: seq<Code>, st': State) {
    st'.Valid() && st' == st.(dc := st'.dc, dcPresent := st'.dcPresent, ac := st'.ac, acPresent := st'.acPresent) &&
    |st.dc| == |st.ac| == |st.dcPresent| == |st.acPresent| == 4 &&
    |st'.dc| == |st'.ac| == |st'.dcPresent| == |st'.acPresent| == 4 &&
    forall i :: 0 <= i < 4 ==>
      PutCode(CodeIn(hs, false, i), st.dc[i], st.dcPresent[i], st'.dc[i], st'.dcPresent[i]) &&
      PutCode(CodeIn(hs, true, i), st.ac[i], st.acPresent[i], st'.ac[i], st'.acPresent[i])
  }

  function TableOf(st: State, d: Code): Table
    requires st.Valid() && d.id < 4
  {
    if d.ac then st.ac[d.id] else st.dc[d.id]
  }

  /** The table once d is defined. */
  function Defined(st: State, d: Code): (t: Table)
    requires st.Valid() && d.Valid()
    ensures t.Valid() && |t.vals| == 256 && Total(t.counts) <= 256 && t.counts == d.counts && t.vals[..|d.vals|] == d.vals
  {
    hide FirstIndex;
    Table(d.counts, Overlay(TableOf(st, d).vals, d.vals))
  }

  function WithCode(st: State, d: Code): (st': State)
    requires st.Valid() && d.Valid()
    ensures st'.Valid()
  {
    hide FirstIndex, Frame.Valid;
    WithTable(st, if d.ac then 1 else 0, d.id, Defined(st, d))
  }

  lemma WithCodeIs(st: State, d: Code)
    requires st.Valid() && d.Valid()
    ensures HasCodes(st, [d], WithCode(st, d))
  {
    hide FirstIndex, Frame.Valid, Table.Valid, Defined;
    OnlyCode(d);
    var st', t := WithCode(st, d), Defined(st, d);
    assert t.counts == d.counts && t.vals[..|d.vals|] == d.vals && |t.vals| == 256 by { DefinedIs(st, d); }
    if d.ac {
      assert st'.ac == st.ac[d.id := t] && st'.dc == st.dc;
    } else {
      assert st'.dc == st.dc[d.id := t] && st'.ac == st.ac;
    }
  }

  lemma OnlyCode(d: Code)
    ensures forall ac, i :: CodeIn([d], ac, i) == if d.id == i && d.ac == ac then Some(d) else None
  {
    assert [d][1..] == [];
  }

  lemma DefinedIs(st: State, d: Code)
    requires st.Valid() && d.Valid()
    ensures var t := Defined(st, d); t.counts == d.counts && t.vals[..|d.vals|] == d.vals && |t.vals| == 256
  {
  }

  lemma CodeRead(d: Code, rest: seq<byte>)
    requires d.Valid()
    ensures var seg := OneCode(d) + rest;
            |seg| == 17 + |d.vals| + |rest| && seg[0] / 16 == (if d.ac then 1 else 0) && seg[0] % 16 == d.id &&
            seg[1..17] == d.counts && seg[17..17 + |d.vals|] == d.vals && seg[17 + |d.vals|..] == rest
  {
    hide FirstIndex;
    var b := OneCode(d);
    DivModUnique(b[0], 16, if d.ac then 1 else 0, d.id);
  }

  lemma CodeStep(st: State, d: Code, rest: seq<byte>)
    requires st.Valid() && d.Valid()
    ensures ParseDht(st, OneCode(d) + rest) == ParseDht(WithCode(st, d), rest)
  {
    hide FirstIndex, State.Valid, OneCode, Total;
    CodeRead(d, rest);
  }

  lemma {:induction false} CodesRead(st: State, hs: seq<Code>) returns (st': State)
    requires st.Valid() && AllCodes(hs)
    ensures ParseDht(st, CodeBytes(hs)) == Accepted(st', []) && HasCodes(st, hs, st')
    decreases |hs|
  {
    hide State.Valid, OneCode, WithCode, ParseDht, Code.Valid;
    FourEach(st);
    if hs == [] {
      st' := st;
      DhtDone(st);
    } else {
      assert hs[0].Valid();
      CodeStep(st, hs[0], CodeBytes(hs[1..]));
      WithCodeIs(st, hs[0]);
      assert CodeIn([hs[0]][1..], false, 0) == None;
      st' := CodesRead(WithCode(st, hs[0]), hs[1..]);
      CodesJoin(st, hs, WithCode(st, hs[0]), st');
    }
  }

  lemma CodesJoin(st: State, hs: seq<Code>, mid: State, st': State)
    requires hs != [] && HasCodes(st, [hs[0]], mid) && HasCodes(mid, hs[1..], st')
    ensures HasCodes(st, hs, st')
  {
    hide State.Valid;
    forall i, ac | 0 <= i < 4
      ensures CodeIn(hs, ac, i) == LastOf(CodeIn([hs[0]], ac, i), CodeIn(hs[1..], ac, i))
    {
      assert [hs[0]][1..] == [];
    }
  }

  /** Whatever DHT segment is accepted is made of tables. */
  lemma {:induction false} CodesThere(st: State, seg: seq<byte>) returns (hs: seq<Code>)
    requires st.Valid() && ParseDht(st, seg).Accepted?
    ensures AllCodes(hs) && CodeBytes(hs) == seg
    decreases |seg|
  {
    hide State.Valid, OneCode, WithCode, FirstIndex, Total, ParseDht;
    if seg == [] {
      hs := [];
    } else {
      CodeShape(st, seg);
      var n := Total(seg[1..17]);
      var d := Code(seg[0] / 16 > 0, seg[0] % 16, seg[1..17], seg[17..17 + n]);
      CodeThere(d, seg);
      CodeStep(st, d, seg[17 + n..]);
      assert seg == seg[..17 + n] + seg[17 + n..];
      var more := CodesThere(WithCode(st, d), seg[17 + n..]);
      hs := [d] + more;
      assert hs[1..] == more;
    }
  }

  lemma CodeShape(st: State, seg: seq<byte>)
    requires st.Valid() && seg != [] && ParseDht(st, seg).Accepted?
    ensures |seg| >= 17 && seg[0] / 16 <= 1 && seg[0] % 16 <= 3 && Total(seg[1..17]) <= 256 && 17 + Total(seg[1..17]) <= |seg|
  {
    hide State.Valid, FirstIndex;
  }

  lemma CodeThere(d: Code, seg: seq<byte>)
    requires d.Valid() && |seg| >= 17 + |d.vals|
    requires seg[0] == (if d.ac then 16 else 0) + d.id && seg[1..17] == d.counts && seg[17..17 + |d.vals|] == d.vals
    ensures OneCode(d) == seg[..17 + |d.vals|]
  {
    hide FirstIndex;
  }

  // --- frames -----------------------------------------------------------------------------------------------

  /** The components of a frame; a single one is not interleaved, whatever factors it declares. */
  function Comps(parts: seq<Part>): (cs: seq<Component>)
    requires |parts| == 1 || |parts| == 3
    ensures |cs| == |parts|
  {
    if |parts| == 1 then [Component(parts[0].id, 1, 1, parts[0].tq, 0, 0)]
    else seq(3, i requires 0 <= i < 3 => Component(parts[i].id, parts[i].h, parts[i].v, parts[i].tq, 0, 0))
  }

  function SofBytes(w: nat, h: nat, parts: seq<Part>): (b: seq<byte>)
    requires w <= 4096 && h <= 4096 && |parts| < 256 && AllParts(parts)
    ensures |b| == 6 + 3 * |parts|
  {
    [8, h / 256, h % 256, w / 256, w % 256, |parts|] + PartBytes(parts)
  }

  lemma {:induction false} PartAt(parts: seq<Part>, i: nat)
    requires AllParts(parts) && i < |parts|
    ensures var b := PartBytes(parts);
            b[3 * i] == parts[i].id && b[3 * i + 1] == 16 * parts[i].h + parts[i].v && b[3 * i + 2] == parts[i].tq
  {
    if i > 0 {
      PartAt(parts[1..], i - 1);
      assert PartBytes(parts)[3..] == PartBytes(parts[1..]);
    }
  }

  lemma FrameParts(w: nat, h: nat, parts: seq<Part>, i: nat)
    requires 1 <= w <= 4096 && 1 <= h <= 4096 && |parts| < 256 && AllParts(parts) && i < |parts|
    ensures ParseComps(SofBytes(w, h, parts), |parts|)[i] == Component(parts[i].id, parts[i].h, parts[i].v, parts[i].tq, 0, 0)
  {
    var seg, b := SofBytes(w, h, parts), PartBytes(parts);
    PartAt(parts, i);
    assert seg[6 + 3 * i] == b[3 * i] && seg[7 + 3 * i] == b[3 * i + 1] && seg[8 + 3 * i] == b[3 * i + 2];
    DivModUnique(seg[7 + 3 * i], 16, parts[i].h, parts[i].v);
  }

  lemma FrameRead(st: State, w: nat, h: nat, parts: seq<Part>)
    requires st.Valid() && 1 <= w <= 4096 && 1 <= h <= 4096 && (|parts| == 1 || |parts| == 3) && AllParts(parts)
    ensures ParseFrame(st, SofBytes(w, h, parts)) == Accepted(st.(comps := Comps(parts), width := w, height := h), [])
  {
    hide State.Valid, PartBytes, ParseComps;
    var seg := SofBytes(w, h, parts);
    DivModUnique(w, 256, w / 256, w % 256);
    assert Be16(seg, 1) == h && Be16(seg, 3) == w;
    var cs := ParseComps(seg, |parts|);
    forall i | 0 <= i < |parts|
      ensures cs[i] == Component(parts[i].id, parts[i].h, parts[i].v, parts[i].tq, 0, 0) && parts[i].Valid()
    {
      FrameParts(w, h, parts, i);
    }
    assert (if |parts| == 1 then [cs[0].(h := 1, v := 1)] else cs) == Comps(parts);
  }

  /** Whatever frame header is accepted is one. */
  lemma FrameThere(st: State, seg: seq<byte>) returns (w: nat, h: nat, parts: seq<Part>)
    requires st.Valid() && ParseFrame(st, seg).Accepted?
    ensures 1 <= w <= 4096 && 1 <= h <= 4096 && (|parts| == 1 || |parts| == 3) && AllParts(parts)
    ensures SofBytes(w, h, parts) == seg
  {
    hide State.Valid, ParseFrame, PartBytes;
    FrameShape(st, seg);
    w, h := Be16(seg, 3), Be16(seg, 1);
    var n := seg[5];
    var cs := ParseComps(seg, n);
    parts := seq(n, i requires 0 <= i < n => Part(seg[6 + 3 * i], cs[i].h, cs[i].v, cs[i].tq));
    forall i | 0 <= i < n
      ensures parts[i].Valid() && IsPart(seg[6..], i, parts[i])
    {
      assert 1 <= cs[i].h <= 4 && 1 <= cs[i].v <= 4 && cs[i].tq <= 3;
    }
    PartsThere(parts, seg[6..]);
    DivModUnique(w, 256, seg[3], seg[4]);
    DivModUnique(h, 256, seg[1], seg[2]);
    assert seg == seg[..6] + seg[6..];
  }

  lemma FrameShape(st: State, seg: seq<byte>)
    requires st.Valid() && ParseFrame(st, seg).Accepted?
    ensures |seg| >= 6 && seg[0] == 8 && (seg[5] == 1 || seg[5] == 3) && |seg| == 6 + 3 * seg[5]
    ensures 1 <= Be16(seg, 1) <= 4096 && 1 <= Be16(seg, 3) <= 4096
    ensures var cs := ParseComps(seg, seg[5]);
            forall i :: 0 <= i < seg[5] ==> 1 <= cs[i].h <= 4 && 1 <= cs[i].v <= 4 && cs[i].tq <= 3
  {
    hide State.Valid, ParseComps, Be16;
  }

  predicate IsPart(b: seq<byte>, i: nat, p: Part) {
    3 * i + 2 < |b| && b[3 * i] == p.id && b[3 * i + 1] == 16 * p.h + p.v && b[3 * i + 2] == p.tq
  }

  lemma {:induction false} PartsThere(parts: seq<Part>, b: seq<byte>)
    requires AllParts(parts) && |b| == 3 * |parts| && forall i :: 0 <= i < |parts| ==> IsPart(b, i, parts[i])
    ensures PartBytes(parts) == b
  {
    if parts != [] {
      forall i | 0 <= i < |parts| - 1
        ensures IsPart(b[3..], i, parts[1..][i])
      {
        assert IsPart(b, i + 1, parts[i + 1]);
      }
      PartsThere(parts[1..], b[3..]);
      assert IsPart(b, 0, parts[0]);
      assert b == b[..3] + b[3..];
    }
  }

  // --- scan headers ------------------------------------------------------------------------------------------

  /** A scan's component and the numbers of its tables, section B.2.3. */
  datatype Pick = Pick(id: byte, td: nat, ta: nat)

  predicate AllPicks(picks: seq<Pick>) {
    |picks| < 256 && forall k :: 0 <= k < |picks| ==> picks[k].td < 4 && picks[k].ta < 4
  }

  function ScanBytes(picks: seq<Pick>): (b: seq<byte>)
    requires AllPicks(picks)
    ensures |b| == 4 + 2 * |picks|
  {
    [|picks|] + PickBytes(picks) + [0, 63, 0]
  }

  function PickBytes(picks: seq<Pick>): (b: seq<byte>)
    requires forall k :: 0 <= k < |picks| ==> picks[k].td < 4 && picks[k].ta < 4
    ensures |b| == 2 * |picks|
  {
    if picks == [] then [] else [picks[0].id, 16 * picks[0].td + picks[0].ta] + PickBytes(picks[1..])
  }

  lemma {:induction false} PickAt(picks: seq<Pick>, i: nat)
    requires AllPicks(picks) && i < |picks|
    ensures PickBytes(picks)[2 * i] == picks[i].id && PickBytes(picks)[2 * i + 1] == 16 * picks[i].td + picks[i].ta
  {
    if i > 0 {
      PickAt(picks[1..], i - 1);
      assert PickBytes(picks)[2..] == PickBytes(picks[1..]);
    }
  }

  /** Component j is the last one with this identifier. */
  predicate Named(comps: seq<Component>, id: nat, j: nat) {
    j < |comps| && comps[j].id == id && forall k :: j < k < |comps| ==> comps[k].id != id
  }

  lemma {:induction false} FindIs(comps: seq<Component>, id: nat)
    ensures forall j :: Named(comps, id, j) <==> FindComp(comps, id) == j
  {
    if comps != [] {
      var n := |comps| - 1;
      FindIs(comps[..n], id);
      forall j: nat
        ensures Named(comps, id, j) <==> FindComp(comps, id) == j
      {
        if comps[n].id != id {
          assert Named(comps, id, j) <==> Named(comps[..n], id, j);
        } else {
          assert Named(comps, id, n);
        }
      }
    }
  }

  /** The tables of a component: those of the last entry that names it. */
  function PickOf(comps: seq<Component>, picks: seq<Pick>, j: nat): Option<Pick> {
    if picks == [] then None
    else match PickOf(comps, picks[1..], j)
      case Some(p) => Some(p)
      case None => if Named(comps, picks[0].id, j) then Some(picks[0]) else None
  }

  function Picked(comps: seq<Component>, picks: seq<Pick>): (cs: seq<Component>)
    ensures |cs| == |comps|
  {
    seq(|comps|, j requires 0 <= j < |comps| => match PickOf(comps, picks, j)
      case Some(p) => comps[j].(td := p.td, ta := p.ta)
      case None => comps[j])
  }

  /** Each entry names a component, and its tables and quantiser are defined. */
  predicate PicksOk(st: State, picks: seq<Pick>)
    requires st.Valid()
  {
    forall k :: 0 <= k < |picks| ==> PickOk(st, picks[k])
  }

  predicate PickOk(st: State, p: Pick)
    requires st.Valid()
  {
    p.td < 4 && p.ta < 4 && st.dcPresent[p.td] && st.acPresent[p.ta] &&
    exists j :: 0 <= j < |st.comps| && Named(st.comps, p.id, j) && st.qtPresent[st.comps[j].tq]
  }

  function WithPick(st: State, p: Pick, j: nat): State
    requires j < |st.comps|
  {
    st.(comps := st.comps[j := st.comps[j].(td := p.td, ta := p.ta)])
  }

  lemma WithPickIs(st: State, p: Pick, j: nat)
    requires st.Valid() && j < |st.comps| && p.td < 4 && p.ta < 4
    ensures WithPick(st, p, j).Valid()
    ensures forall id, k :: Named(WithPick(st, p, j).comps, id, k) <==> Named(st.comps, id, k)
    ensures forall q :: PickOk(WithPick(st, p, j), q) <==> PickOk(st, q)
  {
    hide FirstIndex, Table.Valid, Total;
    var cs, cs' := st.comps, WithPick(st, p, j).comps;
    assert Frame(cs', st.width, st.height).Valid();
    assert forall k :: 0 <= k < |cs| ==> cs'[k].id == cs[k].id && cs'[k].tq == cs[k].tq;
    forall id, k: nat
      ensures Named(cs', id, k) <==> Named(cs, id, k)
    {
    }
  }

  lemma {:induction false} PickOfSame(a: seq<Component>, b: seq<Component>, picks: seq<Pick>, k: nat)
    requires forall id, j :: Named(a, id, j) <==> Named(b, id, j)
    ensures PickOf(a, picks, k) == PickOf(b, picks, k)
  {
    if picks != [] { PickOfSame(a, b, picks[1..], k); }
  }

  /** The entries after this one, on the components with this one's tables. */
  lemma PickedStep(comps: seq<Component>, picks: seq<Pick>, j: nat)
    requires picks != [] && Named(comps, picks[0].id, j)
    ensures var c := comps[j := comps[j].(td := picks[0].td, ta := picks[0].ta)];
            Picked(c, picks[1..]) == Picked(comps, picks)
  {
    var c := comps[j := comps[j].(td := picks[0].td, ta := picks[0].ta)];
    assert forall k :: 0 <= k < |c| ==> c[k].id == comps[k].id;
    forall id, k: nat
      ensures Named(c, id, k) <==> Named(comps, id, k)
    {
    }
    forall k | 0 <= k < |comps|
      ensures Picked(c, picks[1..])[k] == Picked(comps, picks)[k]
    {
      PickOfSame(c, comps, picks[1..], k);
      assert k != j ==> !Named(comps, picks[0].id, k);
    }
  }

  /** The bytes of entry i, in a scan header. */
  predicate EntryAt(seg: seq<byte>, i: nat, p: Pick) {
    2 * i + 2 < |seg| && seg[1 + 2 * i] == p.id && seg[2 + 2 * i] / 16 == p.td && seg[2 + 2 * i] % 16 == p.ta
  }

  lemma PickRead(st: State, seg: seq<byte>, i: nat, p: Pick)
    requires st.Valid() && st.comps != [] && |seg| == 4 + 2 * |st.comps| && i < |st.comps| && EntryAt(seg, i, p)
    ensures ParseScanComps(st, seg, i).Accepted? ==> PickOk(st, p)
    ensures PickOk(st, p) ==>
      var j := FindComp(st.comps, p.id);
      j >= 0 && Named(st.comps, p.id, j) && p.td < 4 && p.ta < 4 && WithPick(st, p, j).Valid() &&
      ParseScanComps(st, seg, i) == ParseScanComps(WithPick(st, p, j), seg, i + 1)
  {
    hide FirstIndex, Table.Valid, Total, Frame.Valid;
    FindIs(st.comps, p.id);
    var j := FindComp(st.comps, p.id);
    assert forall k: nat :: Named(st.comps, p.id, k) ==> k == j;
    if j >= 0 {
      assert Named(st.comps, p.id, j);
      if p.td < 4 && p.ta < 4 { WithPickIs(st, p, j); }
    }
  }

  lemma {:induction false} EntriesRead(st: State, seg: seq<byte>, picks: seq<Pick>, i: nat)
    requires st.Valid() && st.comps != [] && |seg| == 4 + 2 * |st.comps| && i + |picks| == |st.comps|
    requires forall k :: 0 <= k < |picks| ==> EntryAt(seg, i + k, picks[k])
    ensures ParseScanComps(st, seg, i).Accepted? <==> PicksOk(st, picks)
    ensures PicksOk(st, picks) ==> ParseScanComps(st, seg, i) == Accepted(st.(comps := Picked(st.comps, picks)), [])
    decreases |picks|
  {
    hide State.Valid, PickOk, EntryAt, FindComp, Named, ParseScanComps, Picked;
    if picks == [] {
      ScanCompsDone(st, seg);
      PickedNone(st.comps);
    } else {
      var p := picks[0];
      assert EntryAt(seg, i + 0, p);
      PickRead(st, seg, i, p);
      if PickOk(st, p) {
        var j := FindComp(st.comps, p.id);
        NamedThere(st.comps, p.id, j);
        WithPickIs(st, p, j);
        forall k | 0 <= k < |picks| - 1
          ensures EntryAt(seg, i + 1 + k, picks[1..][k])
        {
          assert EntryAt(seg, i + (k + 1), picks[k + 1]);
        }
        EntriesRead(WithPick(st, p, j), seg, picks[1..], i + 1);
        RestOk(st, WithPick(st, p, j), picks);
        PickedStep(st.comps, picks, j);
      }
    }
  }

  lemma RestOk(st: State, st': State, picks: seq<Pick>)
    requires st.Valid() && st'.Valid() && picks != [] && PickOk(st, picks[0])
    requires forall q :: PickOk(st', q) <==> PickOk(st, q)
    ensures PicksOk(st, picks) <==> PicksOk(st', picks[1..])
  {
    hide PickOk, State.Valid;
    if PicksOk(st', picks[1..]) {
      forall k | 0 <= k < |picks|
        ensures PickOk(st, picks[k])
      {
        if k > 0 { assert PickOk(st', picks[1..][k - 1]); }
      }
    }
  }

  lemma NamedThere(comps: seq<Component>, id: nat, j: nat)
    requires Named(comps, id, j)
    ensures j < |comps|
  {
  }

  lemma PickedNone(comps: seq<Component>)
    ensures Picked(comps, []) == comps
  {
  }

  lemma ScanEntries(picks: seq<Pick>)
    requires AllPicks(picks)
    ensures var seg := ScanBytes(picks);
            seg[0] == |picks| && (forall k :: 0 <= k < |picks| ==> EntryAt(seg, k, picks[k])) &&
            seg[1 + 2 * |picks|..] == [0, 63, 0]
  {
    hide PickBytes;
    var seg, b := ScanBytes(picks), PickBytes(picks);
    forall k | 0 <= k < |picks|
      ensures EntryAt(seg, k, picks[k])
    {
      PickAt(picks, k);
      assert seg[1 + 2 * k] == b[2 * k] && seg[2 + 2 * k] == b[2 * k + 1];
      DivModUnique(seg[2 + 2 * k], 16, picks[k].td, picks[k].ta);
    }
  }

  /** A scan header is accepted exactly if it has an entry for every component, each naming one whose
      tables are there. */
  lemma ScanRead(st: State, picks: seq<Pick>)
    requires st.Valid() && AllPicks(picks)
    ensures ParseScan(st, ScanBytes(picks)).Accepted? <==> st.comps != [] && |picks| == |st.comps| && PicksOk(st, picks)
    ensures ParseScan(st, ScanBytes(picks)).Accepted? ==>
      ParseScan(st, ScanBytes(picks)) == Accepted(st.(comps := Picked(st.comps, picks)), [])
  {
    hide State.Valid, PickOk, EntryAt, ParseScanComps, Picked, ScanBytes;
    ScanEntries(picks);
    var seg, n := ScanBytes(picks), |picks|;
    assert seg[1 + 2 * n] == seg[1 + 2 * n..][0] && seg[2 + 2 * n] == seg[1 + 2 * n..][1] && seg[3 + 2 * n] == seg[1 + 2 * n..][2];
    if st.comps != [] && n == |st.comps| {
      EntriesRead(st, seg, picks, 0);
    }
  }

  lemma ScanShape(st: State, seg: seq<byte>)
    requires st.Valid() && ParseScan(st, seg).Accepted?
    ensures st.comps != [] && seg != [] && seg[0] == |st.comps| && |seg| == 4 + 2 * |st.comps|
    ensures ParseScanComps(st, seg, 0).Accepted? && seg[1 + 2 * seg[0]..] == [0, 63, 0]
  {
    hide State.Valid, ParseScanComps;
  }

  /** Whatever scan header is accepted is one. */
  lemma ScanThere(st: State, seg: seq<byte>) returns (picks: seq<Pick>)
    requires st.Valid() && ParseScan(st, seg).Accepted?
    ensures AllPicks(picks) && ScanBytes(picks) == seg
  {
    hide State.Valid, ParseScan, ParseScanComps, PickBytes;
    ScanShape(st, seg);
    var n := seg[0];
    EntriesInRange(st, seg, 0);
    picks := seq(n, i requires 0 <= i < n => Pick(seg[1 + 2 * i], seg[2 + 2 * i] / 16, seg[2 + 2 * i] % 16));
    forall i | 0 <= i < n
      ensures IsPick(seg[1..1 + 2 * n], i, picks[i])
    {
    }
    PicksThere(picks, seg[1..1 + 2 * n]);
    assert seg == [n] + seg[1..1 + 2 * n] + [0, 63, 0];
  }

  lemma {:induction false} EntriesInRange(st: State, seg: seq<byte>, i: nat)
    requires st.Valid() && st.comps != [] && |seg| == 4 + 2 * |st.comps| && i <= |st.comps|
    requires ParseScanComps(st, seg, i).Accepted?
    ensures forall k :: i <= k < |st.comps| ==> seg[2 + 2 * k] / 16 < 4 && seg[2 + 2 * k] % 16 < 4
    decreases |st.comps| - i
  {
    hide FirstIndex, Table.Valid, Total, Frame.Valid;
    if i < |st.comps| {
      var p := Pick(seg[1 + 2 * i], seg[2 + 2 * i] / 16, seg[2 + 2 * i] % 16);
      PickRead(st, seg, i, p);
      EntriesInRange(WithPick(st, p, FindComp(st.comps, p.id)), seg, i + 1);
    }
  }

  predicate IsPick(b: seq<byte>, i: nat, p: Pick) {
    2 * i + 1 < |b| && b[2 * i] == p.id && b[2 * i + 1] == 16 * p.td + p.ta
  }

  lemma {:induction false} PicksThere(picks: seq<Pick>, b: seq<byte>)
    requires AllPicks(picks) && |b| == 2 * |picks| && forall i :: 0 <= i < |picks| ==> IsPick(b, i, picks[i])
    ensures PickBytes(picks) == b
  {
    if picks != [] {
      forall i | 0 <= i < |picks| - 1
        ensures IsPick(b[2..], i, picks[1..][i])
      {
        assert IsPick(b, i + 1, picks[i + 1]);
      }
      PicksThere(picks[1..], b[2..]);
      assert IsPick(b, 0, picks[0]);
      assert b == b[..2] + b[2..];
    }
  }

  // --- the whole header --------------------------------------------------------------------------------------

  /** A body and the fill bytes before its marker. */
  datatype Item = Item(fill: nat, body: Body)

  predicate AllItems(items: seq<Item>) {
    forall k :: 0 <= k < |items| ==> items[k].body.Valid()
  }

  function MarkerOf(b: Body): (m: byte)
    requires b.Valid()
    ensures m != 0xFF && m != 0xDA && m != 0xD9
  {
    match b
    case Alone(m) => m
    case Quantisers(_) => 0xDB
    case Codes(_) => 0xC4
    case Restart(_) => 0xDD
    case Sof(m, _, _, _) => m
    case Other(m, _) => m
  }

  function PayloadOf(b: Body): (p: seq<byte>)
    requires b.Valid() && !b.Alone?
    ensures |p| < 0xFFFE
  {
    match b
    case Quantisers(qs) => QuantiserBytes(qs)
    case Codes(hs) => CodeBytes(hs)
    case Restart(n) => [n / 256, n % 256]
    case Sof(_, w, h, parts) => SofBytes(w, h, parts)
    case Other(_, payload) => payload
  }

  /** A marker segment: its length, which counts itself, and its payload. */
  function Sized(p: seq<byte>): seq<byte>
    requires |p| < 0xFFFE
  {
    [(|p| + 2) / 256, (|p| + 2) % 256] + p
  }

  function Fill(n: nat): (b: seq<byte>)
    ensures |b| == n && forall k :: 0 <= k < n ==> b[k] == 0xFF
  {
    seq(n, _ => 0xFF)
  }

  function ItemBytes(it: Item): seq<byte>
    requires it.body.Valid()
  {
    Fill(1 + it.fill) + ([MarkerOf(it.body)] + if it.body.Alone? then [] else Sized(PayloadOf(it.body)))
  }

  function ItemsBytes(items: seq<Item>): seq<byte>
    requires AllItems(items)
  {
    if items == [] then [] else ItemBytes(items[0]) + ItemsBytes(items[1..])
  }

  /** The header of a file: SOI, the items, SOS. */
  function HeaderText(items: seq<Item>, fill: nat, picks: seq<Pick>): seq<byte>
    requires AllItems(items) && AllPicks(picks)
  {
    [0xFF, 0xD8] + (ItemsBytes(items) + SosText(fill, picks))
  }

  // What was last defined.

  function QuantiserOf(items: seq<Item>, i: nat): Option<seq<nat>> {
    if items == [] then None
    else LastOf(if items[0].body.Quantisers? then QuantiserIn(items[0].body.qs, i) else None, QuantiserOf(items[1..], i))
  }

  function CodeOf(items: seq<Item>, ac: bool, i: nat): Option<Code> {
    if items == [] then None
    else LastOf(if items[0].body.Codes? then CodeIn(items[0].body.hs, ac, i) else None, CodeOf(items[1..], ac, i))
  }

  function RestartOf(items: seq<Item>): Option<nat> {
    if items == [] then None
    else LastOf(if items[0].body.Restart? then Some(items[0].body.n) else None, RestartOf(items[1..]))
  }

  function FrameOf(items: seq<Item>): Option<Body> {
    if items == [] then None
    else LastOf(if items[0].body.Sof? then Some(items[0].body) else None, FrameOf(items[1..]))
  }

  /** st' is st with what these items define. */
  ghost predicate HasItems(st: State, items: seq<Item>, st': State)
    requires AllItems(items)
  {
    st'.Valid() && FourPlaces(st) && FourPlaces(st') &&
    HasAllQuantisers(st, items, st') && HasAllCodes(st, items, st') && HasFrame(st, items, st')
  }

  predicate HasAllQuantisers(st: State, items: seq<Item>, st': State)
    requires FourPlaces(st) && FourPlaces(st')
  {
    forall i :: 0 <= i < 4 ==> Put(QuantiserOf(items, i), st.qt[i], st.qtPresent[i], st'.qt[i], st'.qtPresent[i])
  }

  predicate HasAllCodes(st: State, items: seq<Item>, st': State)
    requires FourPlaces(st) && FourPlaces(st')
  {
    forall i :: 0 <= i < 4 ==>
      PutCode(CodeOf(items, false, i), st.dc[i], st.dcPresent[i], st'.dc[i], st'.dcPresent[i]) &&
      PutCode(CodeOf(items, true, i), st.ac[i], st.acPresent[i], st'.ac[i], st'.acPresent[i])
  }

  predicate HasFrame(st: State, items: seq<Item>, st': State) {
    st'.restart == (if RestartOf(items).Some? then RestartOf(items).value else st.restart) &&
    (st'.comps, st'.width, st'.height) == FramePlace(st, FrameOf(items))
  }

  predicate FourPlaces(st: State) {
    |st.qt| == |st.qtPresent| == |st.dc| == |st.dcPresent| == |st.ac| == |st.acPresent| == 4
  }

  function FramePlace(st: State, f: Option<Body>): (seq<Component>, nat, nat) {
    if f.Some? && f.value.Sof? && (|f.value.parts| == 1 || |f.value.parts| == 3)
    then (Comps(f.value.parts), f.value.w, f.value.h) else (st.comps, st.width, st.height)
  }

  lemma {:induction false} FrameIsOne(items: seq<Item>)
    requires AllItems(items)
    ensures FrameOf(items).Some? ==> FrameOf(items).value.Sof? && FrameOf(items).value.Valid()
  {
    if items != [] { FrameIsOne(items[1..]); }
  }

  lemma {:induction false} FillSkips(n: nat, m: byte, rest: seq<byte>)
    requires m != 0xFF
    ensures SkipFill(Fill(n) + ([m] + rest)) == [m] + rest
  {
    var d := Fill(n) + ([m] + rest);
    if n == 0 {
      assert d == [m] + rest;
    } else {
      FillSkips(n - 1, m, rest);
      assert d[1..] == Fill(n - 1) + ([m] + rest);
    }
  }

  lemma SizedRead(p: seq<byte>, rest: seq<byte>)
    requires |p| < 0xFFFE
    ensures var d := Sized(p) + rest;
            |d| >= |p| + 2 && Be16(d, 0) == |p| + 2 && d[2..|p| + 2] == p && d[|p| + 2..] == rest
  {
    var d := Sized(p) + rest;
    DivModUnique(|p| + 2, 256, (|p| + 2) / 256, (|p| + 2) % 256);
  }

  /** The marker loop finds the marker behind its fill bytes. */
  lemma MarkerRead(st: State, fill: nat, m: byte, more: seq<byte>)
    requires st.Valid() && m != 0xFF
    ensures ParseMarkers(st, Fill(1 + fill) + ([m] + more)) == ParseMarker(st, [m] + more)
  {
    hide State.Valid, ParseMarker, SkipFill;
    var d := Fill(1 + fill) + ([m] + more);
    assert d[0] == 0xFF;
    FillSkips(1 + fill, m, more);
  }

  function GoesOn(r: Parsed, rest: seq<byte>): Parsed
    requires r.Accepted? ==> r.st.Valid()
  {
    match r
    case Rejected => Rejected
    case Accepted(st, _) => ParseMarkers(st, rest)
  }

  function Stops(r: Parsed, rest: seq<byte>): Parsed {
    match r
    case Rejected => Rejected
    case Accepted(st, _) => Accepted(st, rest)
  }

  lemma SegmentRead(st: State, m: byte, p: seq<byte>, rest: seq<byte>)
    requires st.Valid() && |p| < 0xFFFE && !Standalone(m) && m != 0xD9
    ensures m != 0xDA ==> ParseMarker(st, [m] + (Sized(p) + rest)) == GoesOn(ParseSegment(st, m, p), rest)
    ensures m == 0xDA ==> ParseMarker(st, [m] + (Sized(p) + rest)) == Stops(ParseScan(st, p), rest)
  {
    hide State.Valid, ParseSegment, ParseScan, ParseMarkers, Sized;
    SizedRead(p, rest);
    var d := [m] + (Sized(p) + rest);
    assert d[1..] == Sized(p) + rest;
  }

  lemma AloneRead(st: State, m: byte, rest: seq<byte>)
    requires st.Valid() && Standalone(m)
    ensures ParseMarker(st, [m] + rest) == ParseMarkers(st, rest)
  {
    hide State.Valid, ParseMarkers;
    assert ([m] + rest)[1..] == rest;
  }

  lemma FourOf(st: State)
    requires st.Valid()
    ensures FourPlaces(st)
  {
  }

  /** A segment's payload is read as what it defines. */
  lemma PayloadRead(st: State, b: Body) returns (st': State)
    requires st.Valid() && b.Valid() && !b.Alone?
    ensures ParseSegment(st, MarkerOf(b), PayloadOf(b)) == Accepted(st', []) && HasBody(st, b, st')
  {
    hide State.Valid, ParseDqt, ParseDht, ParseFrame, SofBytes, QuantiserBytes, CodeBytes, Comps;
    FourOf(st);
    match b
    case Quantisers(qs) => st' := QuantisersRead(st, qs);
    case Codes(hs) => st' := CodesRead(st, hs);
    case Restart(n) =>
      DivModUnique(n, 256, n / 256, n % 256);
      assert Be16(PayloadOf(b), 0) == n;
      st' := st.(restart := n);
    case Sof(_, w, h, parts) =>
      FrameRead(st, w, h, parts);
      st' := st.(comps := Comps(parts), width := w, height := h);
    case Other(_, _) => st' := st;
  }

  /** st' is st with what one body defines. */
  ghost predicate HasBody(st: State, b: Body, st': State)
    requires b.Valid()
  {
    st'.Valid() && FourPlaces(st) && FourPlaces(st') &&
    match b
    case Quantisers(qs) => HasQuantisers(st, qs, st')
    case Codes(hs) => HasCodes(st, hs, st')
    case Restart(n) => st' == st.(restart := n)
    case Sof(_, w, h, parts) => st' == st.(comps := Comps(parts), width := w, height := h)
    case _ => st' == st
  }

  lemma ItemRead(st: State, it: Item, rest: seq<byte>) returns (st': State)
    requires st.Valid() && it.body.Valid()
    ensures st'.Valid() && ParseMarkers(st, ItemBytes(it) + rest) == ParseMarkers(st', rest) && HasBody(st, it.body, st')
  {
    hide State.Valid, ParseMarkers, ParseMarker, ParseSegment, Sized, PayloadOf, ParseScan;
    FourOf(st);
    var m := MarkerOf(it.body);
    if it.body.Alone? {
      assert ItemBytes(it) + rest == Fill(1 + it.fill) + ([m] + rest);
      MarkerRead(st, it.fill, m, rest);
      AloneRead(st, m, rest);
      st' := st;
    } else {
      var p := PayloadOf(it.body);
      assert ItemBytes(it) + rest == Fill(1 + it.fill) + ([m] + (Sized(p) + rest));
      MarkerRead(st, it.fill, m, Sized(p) + rest);
      SegmentRead(st, m, p, rest);
      st' := PayloadRead(st, it.body);
    }
  }

  lemma HasMore(st: State, items: seq<Item>, mid: State, st': State)
    requires items != [] && AllItems(items) && HasBody(st, items[0].body, mid) && HasItems(mid, items[1..], st')
    ensures HasItems(st, items, st')
  {
    hide State.Valid, HasAllQuantisers, HasAllCodes, HasFrame, HasBody;
    BodyLeaves(st, items[0].body, mid);
    MoreQuantisers(st, items, mid, st');
    MoreCodes(st, items, mid, st');
    MoreFrame(st, items, mid, st');
  }

  lemma MoreQuantisers(st: State, items: seq<Item>, mid: State, st': State)
    requires items != [] && items[0].body.Valid() && HasBody(st, items[0].body, mid) && FourPlaces(st')
    requires HasAllQuantisers(mid, items[1..], st')
    ensures HasAllQuantisers(st, items, st')
  {
    hide State.Valid, QuantiserIn, CodeIn, Body.Valid, Comps, Put, PutCode, QuantiserOf;
    forall i | 0 <= i < 4
      ensures Put(QuantiserOf(items, i), st.qt[i], st.qtPresent[i], st'.qt[i], st'.qtPresent[i])
    {
      OneQuantiserMore(items, i, st.qt[i], st.qtPresent[i], mid.qt[i], mid.qtPresent[i], st'.qt[i], st'.qtPresent[i]);
    }
  }

  lemma OneQuantiserMore(items: seq<Item>, i: nat, q: seq<nat>, had: bool, mid: seq<nat>, midHas: bool, q': seq<nat>, has: bool)
    requires items != [] && Put(QuantiserOf(items[1..], i), mid, midHas, q', has)
    requires if items[0].body.Quantisers? then Put(QuantiserIn(items[0].body.qs, i), q, had, mid, midHas)
             else mid == q && midHas == had
    ensures Put(QuantiserOf(items, i), q, had, q', has)
  {
    hide QuantiserIn;
  }

  lemma MoreCodes(st: State, items: seq<Item>, mid: State, st': State)
    requires items != [] && items[0].body.Valid() && HasBody(st, items[0].body, mid) && FourPlaces(st')
    requires HasAllCodes(mid, items[1..], st')
    ensures HasAllCodes(st, items, st')
  {
    hide State.Valid, QuantiserIn, CodeIn, Body.Valid, Comps, PutCode, CodeOf;
    var b := items[0].body;
    forall i | 0 <= i < 4
      ensures PutCode(CodeOf(items, false, i), st.dc[i], st.dcPresent[i], st'.dc[i], st'.dcPresent[i])
      ensures PutCode(CodeOf(items, true, i), st.ac[i], st.acPresent[i], st'.ac[i], st'.acPresent[i])
    {
      OneCodeMore(items, false, i, st.dc[i], st.dcPresent[i], mid.dc[i], mid.dcPresent[i], st'.dc[i], st'.dcPresent[i]);
      OneCodeMore(items, true, i, st.ac[i], st.acPresent[i], mid.ac[i], mid.acPresent[i], st'.ac[i], st'.acPresent[i]);
    }
  }

  lemma OneCodeMore(items: seq<Item>, ac: bool, i: nat, t: Table, had: bool, mid: Table, midHas: bool, t': Table, has: bool)
    requires items != [] && PutCode(CodeOf(items[1..], ac, i), mid, midHas, t', has)
    requires if items[0].body.Codes? then PutCode(CodeIn(items[0].body.hs, ac, i), t, had, mid, midHas)
             else mid == t && midHas == had
    ensures PutCode(CodeOf(items, ac, i), t, had, t', has)
  {
    hide CodeIn;
  }

  lemma MoreFrame(st: State, items: seq<Item>, mid: State, st': State)
    requires items != [] && AllItems(items) && HasBody(st, items[0].body, mid) && HasFrame(mid, items[1..], st')
    ensures HasFrame(st, items, st')
  {
    hide State.Valid, QuantiserIn, CodeIn, Comps, AllQuantisers, AllCodes, AllParts, Put, PutCode;
    FrameIsOne(items[1..]);
  }

  lemma {:induction false} ItemsRead(st: State, items: seq<Item>, rest: seq<byte>) returns (st': State)
    requires st.Valid() && AllItems(items)
    ensures st'.Valid() && ParseMarkers(st, ItemsBytes(items) + rest) == ParseMarkers(st', rest) && HasItems(st, items, st')
    decreases |items|
  {
    hide State.Valid, ParseMarkers, ItemBytes, HasBody, Body.Valid;
    FourOf(st);
    if items == [] {
      st' := st;
      assert [] + rest == rest;
    } else {
      var more := ItemsBytes(items[1..]);
      ConcatAssoc(ItemBytes(items[0]), more, rest);
      var mid := ItemRead(st, items[0], more + rest);
      BodyLeaves(st, items[0].body, mid);
      st' := ItemsRead(mid, items[1..], rest);
      HasMore(st, items, mid, st');
    }
  }

  lemma BodyLeaves(st: State, b: Body, st': State)
    requires b.Valid() && HasBody(st, b, st')
    ensures FourPlaces(st) && st'.Valid()
  {
  }

  // --- what is accepted --------------------------------------------------------------------------------------

  /** The items define a frame, and the scan has an entry for each of its components that names one of
      them, with tables and a quantiser that are defined. */
  predicate Form(items: seq<Item>, picks: seq<Pick>)
    requires AllItems(items) && AllPicks(picks)
  {
    FrameIsOne(items);
    FrameOf(items).Some? && |picks| == |FrameOf(items).value.parts| &&
    forall k :: 0 <= k < |picks| ==> Served(items, Comps(FrameOf(items).value.parts), picks[k])
  }

  predicate Served(items: seq<Item>, comps: seq<Component>, p: Pick) {
    CodeOf(items, false, p.td).Some? && CodeOf(items, true, p.ta).Some? &&
    exists j :: 0 <= j < |comps| && Named(comps, p.id, j) && QuantiserOf(items, comps[j].tq).Some?
  }

  /** The decoder's header is what was last defined, with each component's tables as last picked. */
  ghost predicate Describes(h: Header, items: seq<Item>, picks: seq<Pick>)
    requires AllItems(items)
  {
    FrameIsOne(items);
    FrameOf(items).Some? && |h.qt| == |h.dc| == |h.ac| == 4 &&
    h.frame == Frame(Picked(Comps(FrameOf(items).value.parts), picks), FrameOf(items).value.w, FrameOf(items).value.h) &&
    h.restart == (if RestartOf(items).Some? then RestartOf(items).value else 0) &&
    (forall i :: 0 <= i < 4 && QuantiserOf(items, i).Some? ==> h.qt[i] == QuantiserOf(items, i).value) &&
    (forall i :: 0 <= i < 4 && CodeOf(items, false, i).Some? ==> IsTable(h.dc[i], CodeOf(items, false, i).value)) &&
    (forall i :: 0 <= i < 4 && CodeOf(items, true, i).Some? ==> IsTable(h.ac[i], CodeOf(items, true, i).value))
  }

  /** The table has these counts, and these symbols for them. */
  predicate IsTable(t: Table, d: Code) {
    t.counts == d.counts && |t.vals| >= |d.vals| && t.vals[..|d.vals|] == d.vals
  }

  lemma StartsEmpty()
    ensures FourPlaces(Start()) && Start().comps == [] && Start().restart == 0
    ensures forall i :: 0 <= i < 4 ==> !Start().qtPresent[i] && !Start().dcPresent[i] && !Start().acPresent[i]
  {
    hide Absent;
  }

  /** What is there after these items from nothing. */
  lemma FromStart(items: seq<Item>, st: State)
    requires AllItems(items) && HasItems(Start(), items, st)
    ensures FourPlaces(st) && forall i :: 0 <= i < 4 ==>
      st.qtPresent[i] == QuantiserOf(items, i).Some? && st.dcPresent[i] == CodeOf(items, false, i).Some? &&
      st.acPresent[i] == CodeOf(items, true, i).Some?
    ensures FrameOf(items).None? ==> st.comps == []
    ensures FrameOf(items).Some? ==> FrameOf(items).value.Sof? && FrameOf(items).value.Valid()
    ensures FrameOf(items).Some? ==>
      st.comps == Comps(FrameOf(items).value.parts) && st.width == FrameOf(items).value.w && st.height == FrameOf(items).value.h
  {
    hide State.Valid, Start, QuantiserOf, CodeOf, Comps, Body.Valid;
    StartsEmpty();
    FrameIsOne(items);
    assert FrameOf(items).Some? ==> FrameOf(items).value.Valid();
    FramesParts(items);
  }

  lemma FramesParts(items: seq<Item>)
    requires FrameOf(items).Some? && FrameOf(items).value.Sof? ==> FrameOf(items).value.Valid()
    ensures FrameOf(items).Some? && FrameOf(items).value.Sof? ==>
      |FrameOf(items).value.parts| == 1 || |FrameOf(items).value.parts| == 3
  {
  }

  lemma FormIs(items: seq<Item>, picks: seq<Pick>, st: State)
    requires AllItems(items) && AllPicks(picks) && HasItems(Start(), items, st)
    ensures Form(items, picks) <==> st.comps != [] && |picks| == |st.comps| && PicksOk(st, picks)
  {
    hide State.Valid, Start, QuantiserOf, CodeOf, Comps, Body.Valid, HasItems, Named;
    FromStart(items, st);
    HasValid(items, st);
    FramesParts(items);
    if FrameOf(items).Some? {
      CompsQuantised(FrameOf(items).value.parts);
      forall k | 0 <= k < |picks|
        ensures PickOk(st, picks[k]) <==> Served(items, st.comps, picks[k])
      {
      }
    }
  }

  lemma HasValid(items: seq<Item>, st: State)
    requires AllItems(items) && HasItems(Start(), items, st)
    ensures st.Valid()
  {
  }

  lemma CompsQuantised(parts: seq<Part>)
    requires (|parts| == 1 || |parts| == 3)
    ensures AllParts(parts) ==> forall j :: 0 <= j < |parts| ==> Comps(parts)[j].tq < 4
  {
  }

  /** parse_headers on the header of these items and this scan: it is accepted exactly if they have the
      form, what follows is left, and the decoder's header is what they define. */
  lemma WrittenAccepted(items: seq<Item>, fill: nat, picks: seq<Pick>, rest: seq<byte>)
    requires AllItems(items) && AllPicks(picks)
    ensures var r := ParseHeaders(HeaderText(items, fill, picks) + rest);
            (r.Accepted? <==> Form(items, picks)) &&
            (r.Accepted? ==> r.rest == rest && Describes(r.st.Header(), items, picks))
  {
    hide State.Valid, Start, ParseMarkers, ParseMarker, ParseScan, Sized, ScanBytes, ItemsBytes, Form, HasItems, PicksOk, Describes;
    var scan := SosText(fill, picks);
    assert (HeaderText(items, fill, picks) + rest)[2..] == ItemsBytes(items) + (scan + rest);
    var st := ItemsRead(Start(), items, scan + rest);
    assert scan + rest == Fill(1 + fill) + ([0xDA] + (Sized(ScanBytes(picks)) + rest));
    MarkerRead(st, fill, 0xDA, Sized(ScanBytes(picks)) + rest);
    SegmentRead(st, 0xDA, ScanBytes(picks), rest);
    ScanRead(st, picks);
    FormIs(items, picks, st);
    if Form(items, picks) { Described(items, picks, st); }
  }

  lemma Described(items: seq<Item>, picks: seq<Pick>, st: State)
    requires AllItems(items) && AllPicks(picks) && HasItems(Start(), items, st) && Form(items, picks)
    ensures Describes(st.(comps := Picked(st.comps, picks)).Header(), items, picks)
  {
    hide State.Valid, Start, QuantiserOf, CodeOf, Comps, Body.Valid, Picked, Served;
    StartsEmpty();
    FromStart(items, st);
  }

  /** The segment that has this payload. */
  lemma BodyThere(st: State, m: byte, seg: seq<byte>) returns (b: Body)
    requires st.Valid() && |seg| < 0xFFFE && m != 0xFF && !Standalone(m) && m != 0xD9 && m != 0xDA
    requires ParseSegment(st, m, seg).Accepted?
    ensures b.Valid() && !b.Alone? && MarkerOf(b) == m && PayloadOf(b) == seg
  {
    hide State.Valid, ParseDqt, ParseDht, ParseFrame, QuantiserBytes, CodeBytes, SofBytes;
    if m == 0xDB {
      var qs := QuantisersThere(st, seg);
      b := Body.Quantisers(qs);
    } else if m == 0xC4 {
      var hs := CodesThere(st, seg);
      b := Codes(hs);
    } else if m == 0xDD {
      b := Restart(Be16(seg, 0));
      DivModUnique(Be16(seg, 0), 256, seg[0], seg[1]);
    } else if m == 0xC0 || m == 0xC1 {
      var w, h, parts := FrameThere(st, seg);
      b := Sof(m, w, h, parts);
    } else {
      b := Other(m, seg);
    }
  }

  lemma {:induction false} FillThere(d: seq<byte>)
    ensures |SkipFill(d)| <= |d| && d == Fill(|d| - |SkipFill(d)|) + SkipFill(d)
    ensures SkipFill(d) != [] ==> SkipFill(d)[0] != 0xFF
  {
    if d != [] && d[0] == 0xFF {
      FillThere(d[1..]);
      var n := |d| - |SkipFill(d)|;
      assert Fill(n) == [0xFF] + Fill(n - 1);
      assert d == [0xFF] + d[1..];
    } else {
      assert Fill(0) + d == d;
    }
  }

  lemma SizedThere(p: seq<byte>, len: nat)
    requires |p| >= 2 && len == Be16(p, 0) && 2 <= len <= |p|
    ensures |p[2..len]| < 0xFFFE && Sized(p[2..len]) == p[..len]
  {
    DivModUnique(len, 256, p[0], p[1]);
  }

  /** One marker of an accepted header: another item, or the scan. */
  lemma MarkerThere(st: State, d: seq<byte>)
    requires st.Valid() && ParseMarkers(st, d).Accepted?
    ensures d != [] && d[0] == 0xFF && SkipFill(d) != [] && |SkipFill(d)| < |d| && SkipFill(d)[0] != 0xFF
    ensures ParseMarkers(st, d) == ParseMarker(st, SkipFill(d))
    ensures d == Fill(1 + (|d| - |SkipFill(d)| - 1)) + SkipFill(d)
  {
    hide State.Valid, ParseScan, ParseSegment;
    FillThere(d);
  }

  lemma SegmentThere(st: State, d: seq<byte>)
    requires st.Valid() && d != [] && ParseMarker(st, d).Accepted? && !Standalone(d[0])
    ensures d[0] != 0xD9 && |d| >= 3 && 2 <= Be16(d[1..], 0) <= |d[1..]|
    ensures var p, len := d[1..], Be16(d[1..], 0);
            if d[0] == 0xDA then ParseScan(st, p[2..len]).Accepted? && ParseMarker(st, d).rest == p[len..]
            else ParseSegment(st, d[0], p[2..len]).Accepted? &&
                 ParseMarker(st, d) == ParseMarkers(ParseSegment(st, d[0], p[2..len]).st, p[len..])
  {
    hide State.Valid, ParseScan, ParseSegment, ParseMarkers;
  }

  function SosText(fill: nat, picks: seq<Pick>): seq<byte>
    requires AllPicks(picks)
  {
    Fill(1 + fill) + ([0xDA] + Sized(ScanBytes(picks)))
  }

  /** Whatever the marker loop accepts is items and a scan header. */
  lemma {:induction false} MarkersThere(st: State, d: seq<byte>) returns (items: seq<Item>, fill: nat, picks: seq<Pick>)
    requires st.Valid() && ParseMarkers(st, d).Accepted?
    ensures AllItems(items) && AllPicks(picks)
    ensures d == ItemsBytes(items) + (SosText(fill, picks) + ParseMarkers(st, d).rest)
    decreases |d|
  {
    hide State.Valid, ParseMarkers, ParseMarker, ParseScan, ParseSegment, Sized, SosText, SkipFill, Be16, Body.Valid, PayloadOf,
         MarkerOf, ItemBytes;
    MarkerThere(st, d);
    var e := SkipFill(d);
    var f := |d| - |e| - 1;
    var m, p := e[0], e[1..];
    assert e == [m] + p;
    if Standalone(m) {
      AloneRead(st, m, p);
      var more;
      more, fill, picks := MarkersThere(st, p);
      AloneItem(f, m, p);
      items := OneMore(Item(f, Alone(m)), more, d, p, SosText(fill, picks) + ParseMarkers(st, d).rest);
    } else {
      SegmentThere(st, e);
      var len := Be16(p, 0);
      SizedThere(p, len);
      if m == 0xDA {
        picks := ScanThere(st, p[2..len]);
        items, fill := [], f;
        ScanTextIs(f, picks, p, len);
      } else {
        var b := BodyThere(st, m, p[2..len]);
        var more;
        more, fill, picks := MarkersThere(ParseSegment(st, m, p[2..len]).st, p[len..]);
        SegmentItem(f, b, p, len);
        items := OneMore(Item(f, b), more, d, p[len..], SosText(fill, picks) + ParseMarkers(st, d).rest);
      }
    }
  }

  lemma ScanTextIs(f: nat, picks: seq<Pick>, p: seq<byte>, len: nat)
    requires AllPicks(picks) && len <= |p| && Sized(ScanBytes(picks)) == p[..len]
    ensures Fill(1 + f) + ([0xDA] + p) == [] + (SosText(f, picks) + p[len..])
  {
    assert p == p[..len] + p[len..];
  }

  lemma AloneItem(f: nat, m: byte, p: seq<byte>)
    requires Standalone(m)
    ensures Alone(m).Valid() && ItemBytes(Item(f, Alone(m))) + p == Fill(1 + f) + ([m] + p)
  {
  }

  lemma SegmentItem(f: nat, b: Body, p: seq<byte>, len: nat)
    requires b.Valid() && !b.Alone? && len <= |p| && Sized(PayloadOf(b)) == p[..len]
    ensures ItemBytes(Item(f, b)) + p[len..] == Fill(1 + f) + ([MarkerOf(b)] + p)
  {
    hide Body.Valid, PayloadOf, MarkerOf, Sized;
    assert p == p[..len] + p[len..];
  }

  lemma OneMore(it: Item, more: seq<Item>, d: seq<byte>, p: seq<byte>, rest: seq<byte>) returns (items: seq<Item>)
    requires it.body.Valid() && AllItems(more) && d == ItemBytes(it) + p && p == ItemsBytes(more) + rest
    ensures AllItems(items) && d == ItemsBytes(items) + rest
  {
    hide ItemBytes;
    items := [it] + more;
    assert items[1..] == more;
    ConcatAssoc(ItemBytes(it), ItemsBytes(more), rest);
  }

  /** parse_headers accepts exactly the headers of the form, whatever follows them. */
  lemma AcceptedIff(d: seq<byte>)
    ensures ParseHeaders(d).Accepted? <==>
      exists items, fill, picks, rest ::
        AllItems(items) && AllPicks(picks) && Form(items, picks) && d == HeaderText(items, fill, picks) + rest
  {
    hide ParseMarkers, Form, Sized, ScanBytes, ItemsBytes, Start, State.Valid, Describes;
    if ParseHeaders(d).Accepted? {
      var items, fill, picks := MarkersThere(Start(), d[2..]);
      var rest := ParseHeaders(d).rest;
      assert d == HeaderText(items, fill, picks) + rest;
      WrittenAccepted(items, fill, picks, rest);
    }
    if items, fill, picks, rest :|
        AllItems(items) && AllPicks(picks) && Form(items, picks) && d == HeaderText(items, fill, picks) + rest {
      WrittenAccepted(items, fill, picks, rest);
    }
  }

  // --- every header has such a text ----------------------------------------------------------------------------

  /** A header whose numbers fit their fields, with distinct identifiers. */
  predicate FieldsFit(h: Header) {
    h.Valid() && h.restart < 0x1_0000 && DistinctIds(h.frame.comps) &&
    (forall i, k :: 0 <= i < 4 && 0 <= k < 64 ==> h.qt[i][k] < 0x1_0000) &&
    (forall i :: 0 <= i < 4 ==> Total(h.dc[i].counts) <= 256 && Total(h.ac[i].counts) <= 256)
  }

  predicate DistinctIds(comps: seq<Component>) {
    (forall i :: 0 <= i < |comps| ==> comps[i].id < 256) &&
    forall i, j :: 0 <= i < j < |comps| ==> comps[i].id != comps[j].id
  }

  function Wide(h: Header, i: nat): (d: Quantiser)
    requires FieldsFit(h) && i < 4
    ensures d.Valid()
  {
    Quantiser(i, true, h.qt[i])
  }

  function CodeFor(h: Header, ac: bool, i: nat): (d: Code)
    requires FieldsFit(h) && i < 4
    ensures d.Valid()
  {
    hide FirstIndex;
    var t := if ac then h.ac[i] else h.dc[i];
    Code(ac, i, t.counts, t.vals[..Total(t.counts)])
  }

  function PartsFor(comps: seq<Component>): (ps: seq<Part>)
    requires DistinctIds(comps)
    ensures |ps| == |comps|
  {
    seq(|comps|, i requires 0 <= i < |comps| => Part(comps[i].id, comps[i].h, comps[i].v, comps[i].tq))
  }

  function PicksFor(comps: seq<Component>): (ps: seq<Pick>)
    requires DistinctIds(comps)
    ensures |ps| == |comps|
  {
    seq(|comps|, i requires 0 <= i < |comps| => Pick(comps[i].id, comps[i].td, comps[i].ta))
  }

  /** Four quantisers in one segment, four pairs of tables in four, an APP0 between. */
  function ItemsFor(h: Header): (items: seq<Item>)
    requires FieldsFit(h)
  {
    [Item(0, Quantisers([Wide(h, 0), Wide(h, 1), Wide(h, 2), Wide(h, 3)])), Item(1, Other(0xE0, [0x4A, 0x46, 0x49, 0x46, 0])),
     Item(0, Codes([CodeFor(h, false, 0), CodeFor(h, true, 0)])), Item(0, Codes([CodeFor(h, false, 1), CodeFor(h, true, 1)])),
     Item(0, Codes([CodeFor(h, false, 2), CodeFor(h, true, 2)])), Item(0, Codes([CodeFor(h, false, 3), CodeFor(h, true, 3)])),
     Item(0, Restart(h.restart)), Item(0, Sof(0xC0, h.frame.width, h.frame.height, PartsFor(h.frame.comps)))]
  }

  lemma {:induction false} OneQuantiserIn(qs: seq<Quantiser>, k: nat)
    requires k < |qs| && forall j :: 0 <= j < |qs| && j != k ==> qs[j].id != qs[k].id
    ensures QuantiserIn(qs, qs[k].id) == Some(qs[k].q)
  {
    if k > 0 {
      OneQuantiserIn(qs[1..], k - 1);
    } else {
      NoQuantiserIn(qs[1..], qs[0].id);
    }
  }

  lemma {:induction false} NoQuantiserIn(qs: seq<Quantiser>, i: nat)
    requires forall j :: 0 <= j < |qs| ==> qs[j].id != i
    ensures QuantiserIn(qs, i) == None
  {
    if qs != [] { NoQuantiserIn(qs[1..], i); }
  }

  lemma {:induction false} NoQuantiserOf(items: seq<Item>, i: nat)
    requires forall j :: 0 <= j < |items| ==> !items[j].body.Quantisers?
    ensures QuantiserOf(items, i) == None
  {
    if items != [] { NoQuantiserOf(items[1..], i); }
  }

  /** The last item that defines a table decides. */
  lemma {:induction false} LastCode(items: seq<Item>, ac: bool, i: nat, k: nat)
    requires k < |items| && items[k].body.Codes? && CodeIn(items[k].body.hs, ac, i).Some?
    requires forall j :: k < j < |items| && items[j].body.Codes? ==> CodeIn(items[j].body.hs, ac, i).None?
    ensures CodeOf(items, ac, i) == CodeIn(items[k].body.hs, ac, i)
    decreases |items|
  {
    hide CodeIn;
    if k > 0 {
      LastCode(items[1..], ac, i, k - 1);
    } else {
      NoCodeOf(items[1..], ac, i);
    }
  }

  lemma {:induction false} NoCodeOf(items: seq<Item>, ac: bool, i: nat)
    requires forall j :: 0 <= j < |items| && items[j].body.Codes? ==> CodeIn(items[j].body.hs, ac, i).None?
    ensures CodeOf(items, ac, i) == None
  {
    hide CodeIn;
    if items != [] { NoCodeOf(items[1..], ac, i); }
  }

  lemma PairIn(h: Header, i: nat)
    requires FieldsFit(h) && i < 4
    ensures forall ac, j ::
      CodeIn([CodeFor(h, false, i), CodeFor(h, true, i)], ac, j) == if j == i then Some(CodeFor(h, ac, i)) else None
  {
    hide FieldsFit;
    var a, b := CodeFor(h, false, i), CodeFor(h, true, i);
    assert a.id == b.id == i && !a.ac && b.ac;
    forall ac, j
      ensures CodeIn([a, b], ac, j) == if j == i then Some(CodeFor(h, ac, i)) else None
    {
      assert [a, b][1..] == [b];
      OnlyCode(b);
    }
  }

  lemma CodesFor(h: Header, ac: bool, i: nat)
    requires FieldsFit(h) && i < 4
    ensures CodeOf(ItemsFor(h), ac, i) == Some(CodeFor(h, ac, i))
  {
    hide FieldsFit, CodeIn, CodeOf, CodeFor, Wide, PartsFor;
    PairIn(h, 0);
    PairIn(h, 1);
    PairIn(h, 2);
    PairIn(h, 3);
    LastCode(ItemsFor(h), ac, i, 2 + i);
  }

  lemma QuantisersFor(h: Header, i: nat)
    requires FieldsFit(h) && i < 4
    ensures QuantiserOf(ItemsFor(h), i) == Some(h.qt[i])
  {
    hide FieldsFit, CodeFor, PartsFor, QuantiserIn;
    var items := ItemsFor(h);
    NoQuantiserOf(items[1..], i);
    OneQuantiserIn(items[0].body.qs, i);
  }

  lemma {:induction false} LastRestart(items: seq<Item>, k: nat)
    requires k < |items| && items[k].body.Restart? && forall j :: k < j < |items| ==> !items[j].body.Restart?
    ensures RestartOf(items) == Some(items[k].body.n)
    decreases |items|
  {
    if k > 0 {
      LastRestart(items[1..], k - 1);
    } else {
      NoRestart(items[1..]);
    }
  }

  lemma {:induction false} NoRestart(items: seq<Item>)
    requires forall j :: 0 <= j < |items| ==> !items[j].body.Restart?
    ensures RestartOf(items) == None
  {
    if items != [] { NoRestart(items[1..]); }
  }

  lemma {:induction false} LastFrame(items: seq<Item>)
    requires items != [] && items[|items| - 1].body.Sof?
    ensures FrameOf(items) == Some(items[|items| - 1].body)
    decreases |items|
  {
    if |items| > 1 {
      LastFrame(items[1..]);
    } else {
      assert items[1..] == [];
    }
  }

  lemma RestFor(h: Header)
    requires FieldsFit(h)
    ensures RestartOf(ItemsFor(h)) == Some(h.restart)
    ensures FrameOf(ItemsFor(h)) == Some(Sof(0xC0, h.frame.width, h.frame.height, PartsFor(h.frame.comps)))
  {
    hide FieldsFit, CodeFor, PartsFor, Wide;
    LastRestart(ItemsFor(h), 6);
    LastFrame(ItemsFor(h));
  }

  lemma PairValid(h: Header, i: nat)
    requires FieldsFit(h) && i < 4
    ensures Codes([CodeFor(h, false, i), CodeFor(h, true, i)]).Valid()
  {
    hide FieldsFit, CodeFor, Code.Valid;
    TwoLong([CodeFor(h, false, i), CodeFor(h, true, i)]);
  }

  lemma WideValid(h: Header)
    requires FieldsFit(h)
    ensures Quantisers([Wide(h, 0), Wide(h, 1), Wide(h, 2), Wide(h, 3)]).Valid()
  {
    hide FieldsFit, Wide, Quantiser.Valid;
    FourLong([Wide(h, 0), Wide(h, 1), Wide(h, 2), Wide(h, 3)]);
  }

  lemma FrameValid(h: Header)
    requires FieldsFit(h)
    ensures Sof(0xC0, h.frame.width, h.frame.height, PartsFor(h.frame.comps)).Valid() && h.restart < 0x1_0000
    ensures AllPicks(PicksFor(h.frame.comps))
  {
    hide FirstIndex;
  }

  lemma ItemsValid(h: Header)
    requires FieldsFit(h)
    ensures AllItems(ItemsFor(h)) && AllPicks(PicksFor(h.frame.comps))
  {
    hide FieldsFit, CodeFor, Wide, PartsFor, PicksFor, AllCodes, AllQuantisers, AllParts, QuantiserBytes, CodeBytes;
    WideValid(h);
    PairValid(h, 0);
    PairValid(h, 1);
    PairValid(h, 2);
    PairValid(h, 3);
    FrameValid(h);
  }

  lemma FourLong(qs: seq<Quantiser>)
    requires |qs| == 4 && AllQuantisers(qs)
    ensures |QuantiserBytes(qs)| < 0xFFFE
  {
    hide OneQuantiser;
    assert QuantiserBytes(qs[1..][1..][1..][1..]) == [];
    assert |QuantiserBytes(qs[1..][1..][1..])| <= 129;
    assert |QuantiserBytes(qs[1..][1..])| <= 258;
    assert |QuantiserBytes(qs[1..])| <= 387;
  }

  lemma TwoLong(hs: seq<Code>)
    requires |hs| == 2 && AllCodes(hs)
    ensures |CodeBytes(hs)| < 0xFFFE
  {
    hide OneCode, FirstIndex;
    assert CodeBytes(hs[1..][1..]) == [];
    assert |CodeBytes(hs[1..])| <= 273;
  }

  lemma {:induction false} PickForOne(comps: seq<Component>, picks: seq<Pick>, j: nat, n: nat)
    requires DistinctIds(comps) && n <= |comps| && picks == PicksFor(comps)[n..] && j < |comps|
    ensures PickOf(comps, picks, j) == if j >= n then Some(PicksFor(comps)[j]) else None
    decreases |picks|
  {
    if n < |comps| {
      assert picks[1..] == PicksFor(comps)[n + 1..];
      PickForOne(comps, picks[1..], j, n + 1);
      assert Named(comps, picks[0].id, n);
      assert j != n ==> comps[j].id != comps[n].id;
    }
  }

  /** The same frame, restart interval and quantisers, and tables with the same codes and symbols. */
  predicate SameHeader(a: Header, b: Header)
    requires FieldsFit(b)
  {
    a.frame == b.frame && a.restart == b.restart && |a.qt| == |a.dc| == |a.ac| == 4 &&
    (forall i :: 0 <= i < 4 ==> a.qt[i] == b.qt[i]) &&
    (forall i :: 0 <= i < 4 ==> IsTable(a.dc[i], CodeFor(b, false, i)) && IsTable(a.ac[i], CodeFor(b, true, i)))
  }

  /** The items define what the header holds. */
  ghost predicate Defines(items: seq<Item>, h: Header)
    requires FieldsFit(h)
  {
    (forall i :: 0 <= i < 4 ==> QuantiserOf(items, i) == Some(h.qt[i])) &&
    (forall i :: 0 <= i < 4 ==>
      CodeOf(items, false, i) == Some(CodeFor(h, false, i)) && CodeOf(items, true, i) == Some(CodeFor(h, true, i))) &&
    RestartOf(items) == Some(h.restart) &&
    FrameOf(items) == Some(Sof(0xC0, h.frame.width, h.frame.height, PartsFor(h.frame.comps)))
  }

  lemma CompsFor(comps: seq<Component>)
    requires DistinctIds(comps) && (|comps| == 1 || |comps| == 3) && (|comps| == 1 ==> comps[0].h == 1 && comps[0].v == 1)
    ensures var cs := Comps(PartsFor(comps));
            (forall j :: 0 <= j < |comps| ==> cs[j] == comps[j].(td := 0, ta := 0)) &&
            (forall id, j :: Named(cs, id, j) <==> Named(comps, id, j))
  {
    var cs := Comps(PartsFor(comps));
    assert forall j :: 0 <= j < |comps| ==> cs[j].id == comps[j].id;
    forall id, j: nat
      ensures Named(cs, id, j) <==> Named(comps, id, j)
    {
    }
  }

  lemma FormFor(h: Header, items: seq<Item>)
    requires FieldsFit(h) && AllItems(items) && AllPicks(PicksFor(h.frame.comps)) && Defines(items, h)
    ensures Form(items, PicksFor(h.frame.comps))
  {
    hide CodeOf, QuantiserOf, RestartOf, FrameOf, FirstIndex, CodeFor, Comps;
    var comps, picks := h.frame.comps, PicksFor(h.frame.comps);
    CompsFor(comps);
    forall k | 0 <= k < |picks|
      ensures Served(items, Comps(PartsFor(comps)), picks[k])
    {
      assert Named(comps, picks[k].id, k);
    }
  }

  lemma SameFor(h: Header, got: Header, items: seq<Item>)
    requires FieldsFit(h) && AllItems(items) && Defines(items, h) && Describes(got, items, PicksFor(h.frame.comps))
    ensures SameHeader(got, h)
  {
    hide CodeOf, QuantiserOf, RestartOf, FrameOf, FirstIndex, CodeFor, Comps, PickOf, PicksFor;
    var comps, picks := h.frame.comps, PicksFor(h.frame.comps);
    CompsFor(comps);
    var cs := Comps(PartsFor(comps));
    forall j | 0 <= j < |comps|
      ensures Picked(cs, picks)[j] == comps[j]
    {
      PickForOne(comps, picks, j, 0);
      PickOfSame(cs, comps, picks, j);
      PicksAt(comps, j);
    }
    assert Picked(cs, picks) == comps;
  }

  lemma PicksAt(comps: seq<Component>, j: nat)
    requires DistinctIds(comps) && j < |comps|
    ensures PicksFor(comps)[j] == Pick(comps[j].id, comps[j].td, comps[j].ta)
  {
  }

  lemma DefinesFor(h: Header)
    requires FieldsFit(h)
    ensures Defines(ItemsFor(h), h)
  {
    hide CodeOf, QuantiserOf, RestartOf, FrameOf, ItemsFor, CodeFor, FirstIndex, Table.Valid;
    forall i | 0 <= i < 4
      ensures QuantiserOf(ItemsFor(h), i) == Some(h.qt[i])
      ensures CodeOf(ItemsFor(h), false, i) == Some(CodeFor(h, false, i)) && CodeOf(ItemsFor(h), true, i) == Some(CodeFor(h, true, i))
    {
      QuantisersFor(h, i);
      CodesFor(h, false, i);
      CodesFor(h, true, i);
    }
    RestFor(h);
  }

  /** Every header with distinct identifiers has a text that the parser reads back as it. */
  lemma EveryHeader(h: Header, rest: seq<byte>)
    requires FieldsFit(h)
    ensures AllItems(ItemsFor(h)) && AllPicks(PicksFor(h.frame.comps))
    ensures var r := ParseHeaders(HeaderText(ItemsFor(h), 0, PicksFor(h.frame.comps)) + rest);
            r.Accepted? && r.rest == rest && SameHeader(r.st.Header(), h)
  {
    hide ItemsFor, Describes, Form, PicksFor, HeaderText, CodeFor, SameHeader, Defines, Header.Valid;
    ItemsValid(h);
    var items, picks := ItemsFor(h), PicksFor(h.frame.comps);
    DefinesFor(h);
    FormFor(h, items);
    WrittenAccepted(items, 0, picks, rest);
    SameFor(h, ParseHeaders(HeaderText(items, 0, picks) + rest).st.Header(), items);
  }
}
