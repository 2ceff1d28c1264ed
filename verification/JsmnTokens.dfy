/** jsmn_parse on the text of a JSON value delivers the value's tokens. */
module JsmnTokens {
  import opened Bits
  import opened JsonStream
  import opened Jsmn
  import opened Slices

  // --- strings, primitives, spaces ------------------------------------------------------------

  lemma HexFour(js: seq<byte>, p: nat, h: seq<byte>)
    requires TextAt(js, p, h) && |h| == 4 && forall i :: 0 <= i < 4 ==> Hex(h[i])
    ensures ScanHex(js, p, 4) == Found(p + 4)
  {
    TextByte(js, p, h, 0);
    TextByte(js, p, h, 1);
    TextByte(js, p, h, 2);
    TextByte(js, p, h, 3);
    assert ScanHex(js, p + 4, 0) == Found(p + 4);
    assert ScanHex(js, p + 3, 1) == Found(p + 4);
    assert ScanHex(js, p + 2, 2) == Found(p + 4);
    assert ScanHex(js, p + 1, 3) == Found(p + 4);
  }

  lemma StringParts(js: seq<byte>, p: nat, raw: seq<byte>, n: nat)
    requires TextAt(js, p, raw + [QUOTE]) && n <= |raw|
    ensures TextAt(js, p, raw[..n]) && TextAt(js, p + n, raw[n..] + [QUOTE])
  {
    hide TextAt;
    assert raw + [QUOTE] == raw[..n] + (raw[n..] + [QUOTE]);
    TextParts(js, p, raw[..n], raw[n..] + [QUOTE]);
  }

  lemma UnicodeScans(js: seq<byte>, p: nat, h: seq<byte>)
    requires TextAt(js, p, h) && |h| == 6 && h[0] == BACKSLASH && h[1] == 0x75 && forall i :: 2 <= i < 6 ==> Hex(h[i])
    ensures ScanString(js, p) == ScanString(js, p + 6)
  {
    hide TextAt;
    TextByte(js, p, h, 0);
    TextByte(js, p, h, 1);
    assert h == h[..2] + h[2..];
    TextParts(js, p, h[..2], h[2..]);
    HexFour(js, p + 2, h[2..]);
  }

  lemma {:induction false} ScanStringFinds(js: seq<byte>, p: nat, raw: seq<byte>)
    requires TextAt(js, p, raw + [QUOTE]) && TokenString(raw)
    ensures ScanString(js, p) == Found(p + |raw|)
    decreases |raw|
  {
    hide TextAt, ScanHex;
    TextByte(js, p, raw + [QUOTE], 0);
    if raw == [] {
    } else if raw[0] != BACKSLASH {
      StringParts(js, p, raw, 1);
      ScanStringFinds(js, p + 1, raw[1..]);
    } else if SimpleEscape(raw[1]) {
      TextByte(js, p, raw + [QUOTE], 1);
      StringParts(js, p, raw, 2);
      ScanStringFinds(js, p + 2, raw[2..]);
    } else {
      StringParts(js, p, raw, 6);
      UnicodeScans(js, p, raw[..6]);
      ScanStringFinds(js, p + 6, raw[6..]);
    }
  }

  /** Four digits, unless the input ends among them. */
  lemma {:induction false} HexScanned(js: seq<byte>, p: nat, n: nat)
    requires p <= |js| && ScanHex(js, p, n).Found?
    ensures var q := ScanHex(js, p, n).end;
            p <= q <= |js| && (forall i :: p <= i < q ==> Hex(js[i])) && (q == p + n || Ended(js, q))
    decreases n
  {
    if n > 0 && !Ended(js, p) && Hex(js[p]) { HexScanned(js, p + 1, n - 1); }
  }

  /** Whatever the scan of a string accepts is a JSON string's text. */
  lemma {:induction false} ScannedIsString(js: seq<byte>, p: nat)
    requires p <= |js| && ScanString(js, p).Found?
    ensures TokenString(js[p..ScanString(js, p).end])
    decreases |js| - p
  {
    hide ScanHex;
    var q := ScanString(js, p).end;
    var raw := js[p..q];
    if js[p] == QUOTE {
      assert raw == [];
    } else if js[p] == BACKSLASH && p + 1 < |js| {
      if SimpleEscape(js[p + 1]) {
        ScannedIsString(js, p + 2);
        SliceAfter(js, p, 2, q);
      } else {
        HexScanned(js, p + 2, 4);
        ScannedIsString(js, p + 6);
        SliceAfter(js, p, 6, q);
      }
    } else {
      ScannedIsString(js, p + 1);
      SliceAfter(js, p, 1, q);
    }
  }

  lemma SliceAfter(js: seq<byte>, p: nat, n: nat, q: nat)
    requires p + n <= q <= |js|
    ensures js[p..q][n..] == js[p + n..q] && forall i :: 0 <= i < n ==> js[p..q][i] == js[p + i]
  {
  }

  /** What may follow a primitive. */
  predicate Terminated(js: seq<byte>, p: nat) {
    Ended(js, p) || EndsPrimitive(js[p])
  }

  lemma {:induction false} ScanPrimitiveFinds(js: seq<byte>, p: nat, text: seq<byte>)
    requires TextAt(js, p, text) && Terminated(js, p + |text|)
    requires forall i :: 0 <= i < |text| ==> PrimByte(text[i]) && 32 < text[i] < 127
    ensures ScanPrimitive(js, p) == Found(p + |text|)
    decreases |text|
  {
    if text != [] {
      TextByte(js, p, text, 0);
      assert PrimByte(text[0]);
      assert text == text[..1] + text[1..];
      TextParts(js, p, text[..1], text[1..]);
      ScanPrimitiveFinds(js, p + 1, text[1..]);
    }
  }

  lemma {:induction false} SpacesSkip(js: seq<byte>, cap: nat, s: Parsing, w: seq<byte>)
    requires s.Valid() && TextAt(js, s.pos, w) && Spaces(w)
    ensures Parse(js, cap, s) == Parse(js, cap, s.(pos := s.pos + |w|))
    decreases |w|
  {
    hide LastOpen, ScanString, ScanPrimitive;
    if w != [] {
      TextByte(js, s.pos, w, 0);
      assert IsSpace(w[0]);
      assert w == w[..1] + w[1..];
      TextParts(js, s.pos, w[..1], w[1..]);
      SpacesSkip(js, cap, s.(pos := s.pos + 1), w[1..]);
    }
  }

  // --- reaching a state -----------------------------------------------------------------------

  /** Parsing from s gets to t, unless the tokens up to there are too many. */
  ghost predicate Reaches(js: seq<byte>, cap: nat, s: Parsing, t: Parsing) {
    s.Valid() && t.Valid() && |s.toks| <= |t.toks| &&
    Parse(js, cap, s) == if |t.toks| <= cap then Parse(js, cap, t) else Error(NoMem)
  }

  lemma ReachesThen(js: seq<byte>, cap: nat, s: Parsing, t: Parsing, u: Parsing)
    requires Reaches(js, cap, s, t) && |t.toks| <= |u.toks| && u.Valid()
    requires |t.toks| <= cap ==> Reaches(js, cap, t, u)
    ensures Reaches(js, cap, s, u)
  {
    hide Parse;
  }

  lemma TurnReaches(js: seq<byte>, cap: nat, s: Parsing)
    requires s.Valid() && !Ended(js, s.pos) && |s.toks| <= cap
    ensures Turn(js, cap, s).Goes? ==> Parse(js, cap, s) == Parse(js, cap, Turn(js, cap, s).st)
    ensures Turn(js, cap, s).Stops? ==> Parse(js, cap, s) == Error(Turn(js, cap, s).failure)
  {
  }

  lemma SpacesReach(js: seq<byte>, cap: nat, s: Parsing, w: seq<byte>)
    requires s.Valid() && TextAt(js, s.pos, w) && Spaces(w) && |s.toks| <= cap
    ensures Reaches(js, cap, s, s.(pos := s.pos + |w|))
  {
    hide Parse;
    SpacesSkip(js, cap, s, w);
  }

  // --- open and closed tokens -------------------------------------------------------------------

  ghost predicate Closed(t: seq<Token>) {
    forall i :: 0 <= i < |t| ==> t[i].end >= 0
  }

  lemma {:induction false} ValueClosed(v: Value, p: nat)
    ensures Closed(TokensAt(v, p))
    decreases v, 0
  {
    hide Text;
    match v
    case Str(_) =>
    case Prim(_) =>
    case Arr(ws, items) => ItemsClosed(items, p + 1 + |ws|);
    case Obj(ws, members) => MembersClosed(members, p + 1 + |ws|);
  }

  lemma {:induction false} ItemsClosed(xs: Items, p: nat)
    ensures Closed(ItemsAt(xs, p))
    decreases xs, 1
  {
    hide Text;
    match xs
    case NoItems =>
    case Item(v, ws, sep, more) =>
      ValueClosed(v, p);
      ItemsClosed(more, p + |Text(v)| + |ws + AfterComma(more.Item?, sep)|);
  }

  lemma {:induction false} MembersClosed(ms: Members, p: nat)
    ensures Closed(MembersAt(ms, p))
    decreases ms, 1
  {
    hide Text, KeyText;
    match ms
    case NoMembers =>
    case Member(key, w1, w2, v, ws, sep, more) =>
      var q := p + |KeyText(key, w1, w2)|;
      ValueClosed(v, q);
      MembersClosed(more, q + |Text(v)| + |ws + AfterComma(more.Member?, sep)|);
  }

  lemma {:induction false} LastOpenSkips(a: seq<Token>, b: seq<Token>, n: nat)
    requires Closed(b) && |a| <= n <= |a| + |b|
    ensures LastOpen(a + b, n) == LastOpen(a, |a|)
    decreases n
  {
    if n > |a| {
      LastOpenSkips(a, b, n - 1);
    } else {
      LastOpenPrefix(a, b, n);
    }
  }

  lemma {:induction false} LastOpenPrefix(a: seq<Token>, b: seq<Token>, n: nat)
    requires n <= |a|
    ensures LastOpen(a + b, n) == LastOpen(a, n)
  {
    if n > 0 { LastOpenPrefix(a, b, n - 1); }
  }

  /** Only ends matter. */
  lemma {:induction false} LastOpenSame(a: seq<Token>, b: seq<Token>, n: nat)
    requires |a| == |b| && n <= |a| && forall i :: 0 <= i < n ==> a[i].end == b[i].end
    ensures LastOpen(a, n) == LastOpen(b, n)
  {
    if n > 0 { LastOpenSame(a, b, n - 1); }
  }

  lemma BumpOpen(toks: seq<Token>, super: int)
    requires -1 <= super < |toks|
    ensures LastOpen(Bump(toks, super), |toks|) == LastOpen(toks, |toks|)
  {
    LastOpenSame(Bump(toks, super), toks, |toks|);
  }

  // --- single tokens ----------------------------------------------------------------------------

  lemma StringReaches(js: seq<byte>, cap: nat, s: Parsing, raw: seq<byte>)
    requires s.Valid() && |s.toks| <= cap && TextAt(js, s.pos, Quoted(raw)) && TokenString(raw)
    ensures Reaches(js, cap, s, Parsing(s.pos + |Quoted(raw)|,
              Bump(s.toks, s.super) + [Token(String, s.pos + 1, s.pos + 1 + |raw|, 0)], s.super))
  {
    hide Parse, ScanString, LastOpen;
    TextByte(js, s.pos, Quoted(raw), 0);
    TextParts(js, s.pos, [QUOTE], raw + [QUOTE]);
    ScanStringFinds(js, s.pos + 1, raw);
    TurnReaches(js, cap, s);
  }

  lemma PrimitiveReaches(js: seq<byte>, cap: nat, s: Parsing, text: seq<byte>)
    requires s.Valid() && |s.toks| <= cap && TextAt(js, s.pos, text) && TokenPrimitive(text) && Terminated(js, s.pos + |text|)
    ensures Reaches(js, cap, s, Parsing(s.pos + |text|,
              Bump(s.toks, s.super) + [Token(Primitive, s.pos, s.pos + |text|, 0)], s.super))
  {
    hide Parse, ScanPrimitive, LastOpen;
    TextByte(js, s.pos, text, 0);
    assert PrimByte(text[0]);
    ScanPrimitiveFinds(js, s.pos, text);
    TurnReaches(js, cap, s);
  }

  function KindOf(c: byte): Kind {
    if c == OBJ_OPEN || c == OBJ_CLOSE then Object else Array
  }

  /** The state just inside a container opened at s. */
  function Opened(s: Parsing, c: byte): (t: Parsing)
    requires s.Valid()
    ensures t.Valid()
  {
    Parsing(s.pos + 1, Bump(s.toks, s.super) + [Token(KindOf(c), s.pos, -1, 0)], |s.toks|)
  }

  lemma OpenReaches(js: seq<byte>, cap: nat, s: Parsing, c: byte)
    requires s.Valid() && |s.toks| <= cap && s.pos < |js| && js[s.pos] == c && (c == OBJ_OPEN || c == ARR_OPEN)
    ensures Reaches(js, cap, s, Opened(s, c))
  {
    hide Parse, LastOpen;
    TurnReaches(js, cap, s);
  }

  lemma CloseReaches(js: seq<byte>, cap: nat, s: Parsing, k: nat, c: byte)
    requires s.Valid() && |s.toks| <= cap && s.pos < |js| && js[s.pos] == c && (c == OBJ_CLOSE || c == ARR_CLOSE)
    requires k < |s.toks| && LastOpen(s.toks, |s.toks|) == k && s.toks[k].kind == KindOf(c)
    ensures Reaches(js, cap, s, Parsing(s.pos + 1, s.toks[k := s.toks[k].(end := s.pos + 1)], LastOpen(s.toks, k)))
  {
    hide Parse, LastOpen;
    TurnReaches(js, cap, s);
  }

  lemma ColonReaches(js: seq<byte>, cap: nat, s: Parsing)
    requires s.Valid() && |s.toks| <= cap && s.pos < |js| && js[s.pos] == COLON
    ensures Reaches(js, cap, s, s.(pos := s.pos + 1, super := |s.toks| - 1))
  {
    hide Parse, LastOpen;
    TurnReaches(js, cap, s);
  }

  /** A comma leaves the container k superior, whether it or one of its keys was. */
  lemma CommaReaches(js: seq<byte>, cap: nat, s: Parsing, k: nat)
    requires s.Valid() && |s.toks| <= cap && s.pos < |js| && js[s.pos] == COMMA
    requires k < |s.toks| && LastOpen(s.toks, |s.toks|) == k && (s.toks[k].kind == Object || s.toks[k].kind == Array)
    requires s.super == k || (s.super >= 0 && s.toks[s.super].kind == String)
    ensures Reaches(js, cap, s, s.(pos := s.pos + 1, super := k))
  {
    hide Parse, LastOpen;
    TurnReaches(js, cap, s);
  }

  /** What follows a value in container k. */
  lemma AfterReaches(js: seq<byte>, cap: nat, s: Parsing, k: nat, ws: seq<byte>, more: bool, sep: seq<byte>) returns (t: Parsing)
    requires s.Valid() && |s.toks| <= cap && TextAt(js, s.pos, ws + AfterComma(more, sep)) && Spaces(ws) && Spaces(sep)
    requires k < |s.toks| && LastOpen(s.toks, |s.toks|) == k && (s.toks[k].kind == Object || s.toks[k].kind == Array)
    requires s.super == k || (s.super >= 0 && s.toks[s.super].kind == String)
    ensures Reaches(js, cap, s, t) && t.pos == s.pos + |ws + AfterComma(more, sep)| && t.toks == s.toks
    ensures more ==> t.super == k
    ensures t.super == k || t.super == s.super
  {
    hide Parse, LastOpen;
    TextParts(js, s.pos, ws, AfterComma(more, sep));
    SpacesReach(js, cap, s, ws);
    t := s.(pos := s.pos + |ws|);
    if more {
      TextParts(js, t.pos, [COMMA], sep);
      TextByte(js, t.pos, [COMMA], 0);
      CommaReaches(js, cap, t, k);
      var u := t.(pos := t.pos + 1, super := k);
      ReachesThen(js, cap, s, t, u);
      SpacesReach(js, cap, u, sep);
      t := u.(pos := u.pos + |sep|);
      ReachesThen(js, cap, s, u, t);
    }
  }

  // --- values -----------------------------------------------------------------------------------

  /** The state after a value. */
  function AfterValue(s: Parsing, v: Value): (t: Parsing)
    requires s.Valid()
    ensures t.Valid() && |t.toks| > |s.toks|
  {
    Parsing(s.pos + |Text(v)|, Bump(s.toks, s.super) + TokensAt(v, s.pos),
            if v.Str? || v.Prim? then s.super else LastOpen(s.toks, |s.toks|))
  }

  /** Inside container k, all of whose tokens so far are closed. */
  ghost predicate InContainer(s: Parsing, k: nat, kind: Kind) {
    s.Valid() && k < |s.toks| && LastOpen(s.toks, |s.toks|) == k && s.toks[k].kind == kind
  }

  /** The container's tokens with n more children and these tokens after. */
  function Grown(toks: seq<Token>, k: nat, n: nat, more: seq<Token>): (r: seq<Token>)
    requires k < |toks|
    ensures |r| == |toks| + |more|
  {
    toks[k := toks[k].(size := toks[k].size + n)] + more
  }

  lemma GrownOpen(toks: seq<Token>, k: nat, n: nat, more: seq<Token>)
    requires k < |toks| && LastOpen(toks, |toks|) == k && Closed(more)
    ensures LastOpen(Grown(toks, k, n, more), |toks| + |more|) == k
    ensures Grown(toks, k, n, more)[k] == toks[k].(size := toks[k].size + n)
  {
    var a := toks[k := toks[k].(size := toks[k].size + n)];
    LastOpenSame(a, toks, |toks|);
    LastOpenSkips(a, more, |toks| + |more|);
  }

  lemma GrownTwice(toks: seq<Token>, k: nat, n: nat, a: seq<Token>, m: nat, b: seq<Token>)
    requires k < |toks|
    ensures Grown(Grown(toks, k, n, a), k, m, b) == Grown(toks, k, n + m, a + b)
  {
  }

  /** A container, once its contents are parsed. */
  lemma ContainerReaches(js: seq<byte>, cap: nat, s: Parsing, u: Parsing, c: byte, n: nat, inner: seq<Token>)
    requires s.Valid() && u.Valid() && |s.toks| <= cap && Closed(inner) && (c == OBJ_CLOSE || c == ARR_CLOSE)
    requires Reaches(js, cap, s, u) && u.pos < |js| && js[u.pos] == c
    requires u.toks == Bump(s.toks, s.super) + [Token(KindOf(c), s.pos, -1, n)] + inner
    ensures Reaches(js, cap, s, Parsing(u.pos + 1,
              Bump(s.toks, s.super) + ([Token(KindOf(c), s.pos, u.pos + 1, n)] + inner), LastOpen(s.toks, |s.toks|)))
  {
    hide Parse;
    var k := |s.toks|;
    var b := Bump(s.toks, s.super);
    var open := [Token(KindOf(c), s.pos, -1, n)];
    var t := Parsing(u.pos + 1, b + ([Token(KindOf(c), s.pos, u.pos + 1, n)] + inner), LastOpen(s.toks, k));
    LastOpenSkips(b + open, inner, |u.toks|);
    assert LastOpen(b + open, k + 1) == k;
    assert u.toks[k] == open[0];
    assert u.toks[k := u.toks[k].(end := u.pos + 1)] == t.toks;
    assert u.toks == b + (open + inner);
    LastOpenPrefix(b, open + inner, k);
    BumpOpen(s.toks, s.super);
    if |u.toks| <= cap {
      CloseReaches(js, cap, u, k, c);
    }
    ReachesThen(js, cap, s, u, t);
  }

  lemma {:induction false} ValueReaches(js: seq<byte>, cap: nat, s: Parsing, v: Value)
    requires s.Valid() && |s.toks| <= cap && Acceptable(v) && TextAt(js, s.pos, Text(v))
    requires v.Prim? ==> Terminated(js, s.pos + |Text(v)|)
    ensures Reaches(js, cap, s, AfterValue(s, v))
    decreases v, 0
  {
    hide Parse, LastOpen, TokenString, Bump, Reaches, Closed, TextAt, ItemsText, MembersText, TokenPrimitive;
    match v
    case Str(raw) => StringReaches(js, cap, s, raw);
    case Prim(text) => PrimitiveReaches(js, cap, s, text);
    case Arr(ws, items) => ArrReaches(js, cap, s, ws, items);
    case Obj(ws, members) => ObjReaches(js, cap, s, ws, members);
  }

  /** The tokens of an open container and what is in it. */
  lemma OpenGrown(b: seq<Token>, t: Token, n: nat, inner: seq<Token>)
    requires t.size == 0
    ensures Grown(b + [t], |b|, n, inner) == b + [t.(size := n)] + inner
  {
  }

  lemma {:induction false} ArrReaches(js: seq<byte>, cap: nat, s: Parsing, ws: seq<byte>, items: Items)
    requires s.Valid() && |s.toks| <= cap && Spaces(ws) && ItemsAcceptable(items) && TextAt(js, s.pos, Text(Arr(ws, items)))
    ensures Reaches(js, cap, s, AfterValue(s, Arr(ws, items)))
    decreases items, 2
  {
    hide Parse, Acceptable, LastOpen, Bump, Reaches, Closed, TextAt, ItemsText, Grown;
    var inner := ItemsText(items);
    var u := OpenAndSkip(js, cap, s, ARR_OPEN, ws, inner + [ARR_CLOSE]);
    TextParts(js, u.pos, inner, [ARR_CLOSE]);
    TextByte(js, u.pos + |inner|, [ARR_CLOSE], 0);
    InText(js, u.pos + |inner|, [ARR_CLOSE]);
    var w := u.(pos := u.pos + |inner|, toks := Grown(u.toks, |s.toks|, ItemCount(items), ItemsAt(items, u.pos)));
    if |u.toks| <= cap {
      ItemsReach(js, cap, u, |s.toks|, items);
    }
    ReachesThen(js, cap, s, u, w);
    ItemsClosed(items, u.pos);
    OpenGrown(Bump(s.toks, s.super), Token(Array, s.pos, -1, 0), ItemCount(items), ItemsAt(items, u.pos));
    ContainerReaches(js, cap, s, w, ARR_CLOSE, ItemCount(items), ItemsAt(items, u.pos));
  }

  lemma {:induction false} ObjReaches(js: seq<byte>, cap: nat, s: Parsing, ws: seq<byte>, members: Members)
    requires s.Valid() && |s.toks| <= cap && Spaces(ws) && MembersAcceptable(members) && TextAt(js, s.pos, Text(Obj(ws, members)))
    ensures Reaches(js, cap, s, AfterValue(s, Obj(ws, members)))
    decreases members, 2
  {
    hide Parse, Acceptable, LastOpen, Bump, Reaches, Closed, TextAt, MembersText, Grown, MembersAt, MemberCount, Spaces;
    var inner := MembersText(members);
    var u := OpenAndSkip(js, cap, s, OBJ_OPEN, ws, inner + [OBJ_CLOSE]);
    TextParts(js, u.pos, inner, [OBJ_CLOSE]);
    TextByte(js, u.pos + |inner|, [OBJ_CLOSE], 0);
    InText(js, u.pos + |inner|, [OBJ_CLOSE]);
    var w := u.(pos := u.pos + |inner|, toks := Grown(u.toks, |s.toks|, MemberCount(members), MembersAt(members, u.pos)));
    if |u.toks| <= cap {
      w := MembersReach(js, cap, u, |s.toks|, members);
    }
    ReachesThen(js, cap, s, u, w);
    MembersClosed(members, u.pos);
    OpenGrown(Bump(s.toks, s.super), Token(Object, s.pos, -1, 0), MemberCount(members), MembersAt(members, u.pos));
    ContainerReaches(js, cap, s, w, OBJ_CLOSE, MemberCount(members), MembersAt(members, u.pos));
  }

  /** The opening of a container and the spaces after it. */
  lemma OpenAndSkip(js: seq<byte>, cap: nat, s: Parsing, c: byte, ws: seq<byte>, rest: seq<byte>) returns (u: Parsing)
    requires s.Valid() && |s.toks| <= cap && Spaces(ws) && (c == OBJ_OPEN || c == ARR_OPEN)
    requires TextAt(js, s.pos, ([c] + ws) + rest)
    ensures Reaches(js, cap, s, u) && InContainer(u, |s.toks|, KindOf(c)) && u.super == |s.toks|
    ensures u.toks == Bump(s.toks, s.super) + [Token(KindOf(c), s.pos, -1, 0)]
    ensures u.pos == s.pos + 1 + |ws| && TextAt(js, u.pos, rest)
  {
    hide Parse;
    TextParts(js, s.pos, [c] + ws, rest);
    TextParts(js, s.pos, [c], ws);
    TextByte(js, s.pos, [c], 0);
    OpenReaches(js, cap, s, c);
    var o := Opened(s, c);
    u := o.(pos := o.pos + |ws|);
    if |o.toks| <= cap {
      SpacesReach(js, cap, o, ws);
    }
    ReachesThen(js, cap, s, o, u);
  }

  /** In a container, a value is followed by a space, a comma or the closing bracket. */
  lemma ValueTerminated(js: seq<byte>, p: nat, ws: seq<byte>, more: bool, sep: seq<byte>, rest: seq<byte>, c: byte)
    requires TextAt(js, p, (ws + AfterComma(more, sep)) + (rest + [c])) && Spaces(ws) && (c == OBJ_CLOSE || c == ARR_CLOSE)
    requires !more ==> rest == []
    ensures Terminated(js, p)
  {
    var t := (ws + AfterComma(more, sep)) + (rest + [c]);
    TextByte(js, p, t, 0);
    if ws != [] {
      assert t[0] == ws[0];
      assert IsSpace(ws[0]);
    }
  }

  lemma BumpGrows(toks: seq<Token>, k: nat, vt: seq<Token>)
    requires k < |toks|
    ensures Bump(toks, k) + vt == Grown(toks, k, 1, vt)
  {
  }

  lemma {:induction false} ItemsReach(js: seq<byte>, cap: nat, s: Parsing, k: nat, xs: Items)
    requires InContainer(s, k, Array) && s.super == k && |s.toks| <= cap && ItemsAcceptable(xs)
    requires TextAt(js, s.pos, ItemsText(xs) + [ARR_CLOSE])
    ensures Reaches(js, cap, s, s.(pos := s.pos + |ItemsText(xs)|, toks := Grown(s.toks, k, ItemCount(xs), ItemsAt(xs, s.pos))))
    decreases xs, 1
  {
    hide Parse, LastOpen, Text, Acceptable, Terminated, AfterComma, TokensAt, Closed, TextAt, Reaches, Grown, Bump;
    match xs
    case NoItems =>
      NoneGrown(s.toks, k);
      ReachesItself(js, cap, s);
    case Item(v, ws, sep, more) =>
      var after, rest := ws + AfterComma(more.Item?, sep), ItemsText(more);
      ItemsSplit(js, s.pos, Text(v), after, rest);
      ValueTerminated(js, s.pos + |Text(v)|, ws, more.Item?, sep, rest, ARR_CLOSE);
      ValueReaches(js, cap, s, v);
      var u := AfterValue(s, v);
      ValueClosed(v, s.pos);
      BumpGrows(s.toks, k, TokensAt(v, s.pos));
      GrownOpen(s.toks, k, 1, TokensAt(v, s.pos));
      TextParts(js, u.pos, after, rest + [ARR_CLOSE]);
      var end := s.(pos := s.pos + |ItemsText(xs)|, toks := Grown(s.toks, k, ItemCount(xs), ItemsAt(xs, s.pos)));
      GrownTwice(s.toks, k, 1, TokensAt(v, s.pos), ItemCount(more), ItemsAt(more, u.pos + |after|));
      if |u.toks| <= cap {
        var t := AfterReaches(js, cap, u, k, ws, more.Item?, sep);
        ItemsReach(js, cap, t, k, more);
        ReachesThen(js, cap, u, t, end);
      }
      ReachesThen(js, cap, s, u, end);
  }

  lemma ItemsSplit(js: seq<byte>, p: nat, value: seq<byte>, after: seq<byte>, rest: seq<byte>)
    requires TextAt(js, p, (value + (after + rest)) + [ARR_CLOSE])
    ensures TextAt(js, p, value) && TextAt(js, p + |value|, after + (rest + [ARR_CLOSE]))
  {
    hide TextAt;
    assert (value + (after + rest)) + [ARR_CLOSE] == value + (after + (rest + [ARR_CLOSE]));
    TextParts(js, p, value, after + (rest + [ARR_CLOSE]));
  }

  lemma ReachesItself(js: seq<byte>, cap: nat, s: Parsing)
    requires s.Valid() && |s.toks| <= cap
    ensures Reaches(js, cap, s, s)
  {
  }

  /** A key, its colon, and the state before its value. */
  lemma KeyReaches(js: seq<byte>, cap: nat, s: Parsing, k: nat, key: seq<byte>, w1: seq<byte>, w2: seq<byte>) returns (u: Parsing)
    requires InContainer(s, k, Object) && s.super == k && |s.toks| <= cap
    requires TokenString(key) && Spaces(w1) && Spaces(w2) && TextAt(js, s.pos, KeyText(key, w1, w2))
    ensures Reaches(js, cap, s, u) && u.pos == s.pos + |KeyText(key, w1, w2)| && u.super == |s.toks|
    ensures u.toks == Grown(s.toks, k, 1, [Token(String, s.pos + 1, s.pos + 1 + |key|, 0)])
  {
    hide Parse, LastOpen, Reaches, TextAt;
    TextParts(js, s.pos, Quoted(key), w1 + ([COLON] + w2));
    StringReaches(js, cap, s, key);
    var a := Parsing(s.pos + |Quoted(key)|, Bump(s.toks, s.super) + [Token(String, s.pos + 1, s.pos + 1 + |key|, 0)], s.super);
    TextParts(js, a.pos, w1, [COLON] + w2);
    var b := a.(pos := a.pos + |w1|);
    TextParts(js, b.pos, [COLON], w2);
    TextByte(js, b.pos, [COLON], 0);
    var c := b.(pos := b.pos + 1, super := |b.toks| - 1);
    u := c.(pos := c.pos + |w2|);
    InText(js, b.pos, [COLON]);
    if |a.toks| <= cap {
      SpacesReach(js, cap, a, w1);
      ColonReaches(js, cap, b);
      SpacesReach(js, cap, c, w2);
      ReachesThen(js, cap, a, b, c);
      ReachesThen(js, cap, a, c, u);
    }
    ReachesThen(js, cap, s, a, u);
  }

  lemma InText(js: seq<byte>, p: nat, t: seq<byte>)
    requires TextAt(js, p, t)
    ensures p + |t| <= |js|
  {
  }

  /** A member: the key's token has one child, the value. */
  lemma MemberTokens(toks: seq<Token>, k: nat, key: Token, vt: seq<Token>)
    requires k < |toks| && key.size == 0
    ensures var t1 := Grown(toks, k, 1, [key]);
            Bump(t1, |toks|) + vt == Grown(toks, k, 1, [key.(size := 1)] + vt)
  {
  }

  /** The tokens of one member. */
  function MemberAt(key: seq<byte>, v: Value, p: nat, q: nat): seq<Token> {
    [Token(String, p + 1, p + 1 + |key|, 1)] + TokensAt(v, q)
  }

  /** A key and its value. */
  lemma {:induction false} MemberReaches(js: seq<byte>, cap: nat, s: Parsing, k: nat, key: seq<byte>, w1: seq<byte>, w2: seq<byte>, v: Value)
    returns (u: Parsing)
    requires InContainer(s, k, Object) && s.super == k && |s.toks| <= cap
    requires TokenString(key) && Spaces(w1) && Spaces(w2) && Acceptable(v)
    requires TextAt(js, s.pos, KeyText(key, w1, w2) + Text(v))
    requires Terminated(js, s.pos + |KeyText(key, w1, w2) + Text(v)|)
    ensures Reaches(js, cap, s, u) && u.Valid() && u.pos == s.pos + |KeyText(key, w1, w2) + Text(v)|
    ensures u.toks == Grown(s.toks, k, 1, MemberAt(key, v, s.pos, s.pos + |KeyText(key, w1, w2)|))
    ensures InContainer(u, k, Object) && (u.super == k || (u.super >= 0 && u.toks[u.super].kind == String))
    decreases v, 2
  {
    hide Parse, LastOpen, Text, TokensAt, Closed, TextAt, Reaches, KeyText, TokenString;
    TextParts(js, s.pos, KeyText(key, w1, w2), Text(v));
    var keyTok := Token(String, s.pos + 1, s.pos + 1 + |key|, 0);
    var a := KeyReaches(js, cap, s, k, key, w1, w2);
    u := AfterValue(a, v);
    var mt := MemberAt(key, v, s.pos, a.pos);
    MemberTokens(s.toks, k, keyTok, TokensAt(v, a.pos));
    ValueClosed(v, a.pos);
    MemberClosed(keyTok, TokensAt(v, a.pos));
    GrownOpen(s.toks, k, 1, mt);
    GrownOpen(s.toks, k, 1, [keyTok]);
    KeyPlace(s.toks, k, mt);
    if |a.toks| <= cap {
      ValueReaches(js, cap, a, v);
    }
    ReachesThen(js, cap, s, a, u);
  }

  lemma {:induction false} MembersReach(js: seq<byte>, cap: nat, s: Parsing, k: nat, ms: Members) returns (end: Parsing)
    requires InContainer(s, k, Object) && (ms.Member? ==> s.super == k) && |s.toks| <= cap && MembersAcceptable(ms)
    requires TextAt(js, s.pos, MembersText(ms) + [OBJ_CLOSE])
    ensures Reaches(js, cap, s, end) && end.Valid() && end.pos == s.pos + |MembersText(ms)|
    ensures end.toks == Grown(s.toks, k, MemberCount(ms), MembersAt(ms, s.pos))
    decreases ms, 1
  {
    hide Parse, LastOpen, Text, TokensAt, Closed, TextAt, Reaches, KeyText, TokenString, Grown;
    match ms
    case NoMembers =>
      NoneGrown(s.toks, k);
      end := s;
      ReachesItself(js, cap, s);
    case Member(key, w1, w2, v, ws, sep, more) =>
      var head, after, rest := KeyText(key, w1, w2), ws + AfterComma(more.Member?, sep), MembersText(more);
      MembersSplit(js, s.pos, head, Text(v), after, rest);
      ValueTerminated(js, s.pos + |head + Text(v)|, ws, more.Member?, sep, rest, OBJ_CLOSE);
      var u := MemberReaches(js, cap, s, k, key, w1, w2, v);
      var mt := MemberAt(key, v, s.pos, s.pos + |head|);
      TextParts(js, u.pos, after, rest + [OBJ_CLOSE]);
      GrownTwice(s.toks, k, 1, mt, MemberCount(more), MembersAt(more, u.pos + |after|));
      end := Parsing(s.pos + |MembersText(ms)|, Grown(s.toks, k, MemberCount(ms), MembersAt(ms, s.pos)), k);
      if |u.toks| <= cap {
        var t := AfterReaches(js, cap, u, k, ws, more.Member?, sep);
        end := MembersReach(js, cap, t, k, more);
        ReachesThen(js, cap, u, t, end);
      }
      ReachesThen(js, cap, s, u, end);
  }

  lemma NoneGrown(toks: seq<Token>, k: nat)
    requires k < |toks|
    ensures Grown(toks, k, 0, []) == toks
  {
  }

  lemma MembersSplit(js: seq<byte>, p: nat, head: seq<byte>, value: seq<byte>, after: seq<byte>, rest: seq<byte>)
    requires TextAt(js, p, (head + (value + (after + rest))) + [OBJ_CLOSE])
    ensures TextAt(js, p, head + value) && TextAt(js, p + |head + value|, after + (rest + [OBJ_CLOSE]))
  {
    hide TextAt;
    assert (head + (value + (after + rest))) + [OBJ_CLOSE] == (head + value) + (after + (rest + [OBJ_CLOSE]));
    TextParts(js, p, head + value, after + (rest + [OBJ_CLOSE]));
  }

  lemma MemberClosed(key: Token, vt: seq<Token>)
    requires key.end >= 0 && Closed(vt)
    ensures Closed([key.(size := 1)] + vt) && Closed([key])
  {
  }

  lemma KeyPlace(toks: seq<Token>, k: nat, mt: seq<Token>)
    requires k < |toks| && mt != []
    ensures Grown(toks, k, 1, mt)[|toks|] == mt[0]
  {
  }

  // --- whole texts --------------------------------------------------------------------------------

  /** Nothing but spaces is left: the tokens are complete. */
  lemma ParseEnds(js: seq<byte>, cap: nat, s: Parsing, w: seq<byte>)
    requires s.Valid() && |s.toks| <= cap && TextAt(js, s.pos, w) && Spaces(w) && s.pos + |w| == |js| && Closed(s.toks)
    ensures Parse(js, cap, s) == Tokens(s.toks)
  {
    SpacesSkip(js, cap, s, w);
    LastOpenSkips([], s.toks, |s.toks|);
    assert [] + s.toks == s.toks;
  }

  /** For every JSON text: jsmn_parse delivers the value's tokens in preorder, with the spans and
      the numbers of children of the value, if they fit the token array, and NOMEM otherwise. */
  lemma {:induction false} ParseDelivers(cap: nat, w1: seq<byte>, v: Value, w2: seq<byte>)
    requires Acceptable(v) && Spaces(w1) && Spaces(w2)
    ensures var js := w1 + (Text(v) + w2);
            Parse(js, cap, Begin()) == if |TokensAt(v, |w1|)| <= cap then Tokens(TokensAt(v, |w1|)) else Error(NoMem)
  {
    hide Parse, LastOpen, Text, TokensAt, Closed, Acceptable;
    var js := w1 + (Text(v) + w2);
    assert js[0..|js|] == js;
    TextParts(js, 0, w1, Text(v) + w2);
    SpacesSkip(js, cap, Begin(), w1);
    var s := Begin().(pos := |w1|);
    TextParts(js, |w1|, Text(v), w2);
    var p := |w1| + |Text(v)|;
    if w2 != [] {
      TextByte(js, p, w2, 0);
      assert IsSpace(w2[0]);
    }
    ValueReaches(js, cap, s, v);
    var u := AfterValue(s, v);
    assert u.toks == TokensAt(v, |w1|);
    ValueClosed(v, |w1|);
    if |u.toks| <= cap {
      ParseEnds(js, cap, u, w2);
    }
  }
}
