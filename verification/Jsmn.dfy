/** The tokenizer of jsmn.h (built without JSMN_STRICT and without JSMN_PARENT_LINKS) as a function
    of its input, and the tokens of a JSON text. */
module Jsmn {
  import opened Bits
  import opened JsonStream

  datatype Kind = Object | Array | String | Primitive

  /** A token; end is -1 while a container is open. */
  datatype Token = Token(kind: Kind, start: nat, end: int, size: nat)

  datatype Failure = NoMem | Inval | Part

  datatype Parsing = Parsing(pos: nat, toks: seq<Token>, super: int) {
    predicate Valid() {
      -1 <= super < |toks|
    }
  }

  datatype Result = Tokens(toks: seq<Token>) | Error(failure: Failure)

  datatype Turned = Goes(st: Parsing) | Stops(failure: Failure)

  // --- strings and primitives ----------------------------------------------------------------

  datatype Scanned = Found(end: nat) | Bad(failure: Failure)

  predicate Hex(c: byte) {
    48 <= c <= 57 || 65 <= c <= 70 || 97 <= c <= 102
  }

  predicate Ended(js: seq<byte>, p: nat) {
    p >= |js| || js[p] == 0
  }

  /** Up to n hex digits from p on. */
  function ScanHex(js: seq<byte>, p: nat, n: nat): (r: Scanned)
    ensures r.Found? ==> p <= r.end <= p + n
    ensures r.Found? && p <= |js| ==> r.end <= |js|
    decreases n
  {
    if n == 0 || Ended(js, p) then Found(p)
    else if !Hex(js[p]) then Bad(Inval)
    else ScanHex(js, p + 1, n - 1)
  }

  predicate SimpleEscape(c: byte) {
    c == QUOTE || c == 0x2F || c == BACKSLASH || c == 0x62 || c == 0x66 || c == 0x72 || c == 0x6E || c == 0x74
  }

  /** The closing quote of a string whose contents start at p. */
  function ScanString(js: seq<byte>, p: nat): (r: Scanned)
    requires p <= |js|
    ensures r.Found? ==> p <= r.end < |js|
    decreases |js| - p
  {
    if Ended(js, p) then Bad(Part)
    else if js[p] == QUOTE then Found(p)
    else if js[p] == BACKSLASH && p + 1 < |js| then
      if SimpleEscape(js[p + 1]) then ScanString(js, p + 2)
      else if js[p + 1] == 0x75 then
        match ScanHex(js, p + 2, 4)
        case Bad(f) => Bad(f)
        case Found(q) => ScanString(js, q)
      else Bad(Inval)
    else ScanString(js, p + 1)
  }

  predicate EndsPrimitive(c: byte) {
    IsSpace(c) || c == COLON || c == COMMA || c == ARR_CLOSE || c == OBJ_CLOSE
  }

  function ScanPrimitive(js: seq<byte>, p: nat): (r: Scanned)
    requires p <= |js|
    ensures r.Found? ==> p <= r.end <= |js|
    ensures r.Found? && !Ended(js, p) && !EndsPrimitive(js[p]) ==> p < r.end
    decreases |js| - p
  {
    if Ended(js, p) || EndsPrimitive(js[p]) then Found(p)
    else if js[p] < 32 || js[p] >= 127 then Bad(Inval)
    else ScanPrimitive(js, p + 1)
  }

  // --- one turn of the parse loop -----------------------------------------------------------

  /** The superior token has one more child. */
  function Bump(toks: seq<Token>, super: int): (r: seq<Token>)
    requires -1 <= super < |toks|
    ensures |r| == |toks|
  {
    if super == -1 then toks else toks[super := toks[super].(size := toks[super].size + 1)]
  }

  /** The last open container among the first n tokens. */
  function LastOpen(toks: seq<Token>, n: nat): (i: int)
    requires n <= |toks|
    ensures -1 <= i < n
    ensures i >= 0 ==> toks[i].end == -1
    ensures forall k :: i < k < n ==> toks[k].end != -1
  {
    if n == 0 then -1 else if toks[n - 1].end == -1 then n - 1 else LastOpen(toks, n - 1)
  }

  function Turn(js: seq<byte>, cap: nat, s: Parsing): (r: Turned)
    requires s.Valid() && !Ended(js, s.pos)
    ensures r.Goes? ==> r.st.Valid() && s.pos < r.st.pos <= |js| && (|s.toks| <= cap ==> |r.st.toks| <= cap)
  {
    var c, n := js[s.pos], |s.toks|;
    if c == OBJ_OPEN || c == ARR_OPEN then
      if n >= cap then Stops(NoMem)
      else
        var t := Token(if c == OBJ_OPEN then Object else Array, s.pos, -1, 0);
        Goes(Parsing(s.pos + 1, Bump(s.toks, s.super) + [t], n))
    else if c == OBJ_CLOSE || c == ARR_CLOSE then
      var i := LastOpen(s.toks, n);
      if i == -1 || s.toks[i].kind != (if c == OBJ_CLOSE then Object else Array) then Stops(Inval)
      else Goes(Parsing(s.pos + 1, s.toks[i := s.toks[i].(end := s.pos + 1)], LastOpen(s.toks, i)))
    else if c == QUOTE then
      match ScanString(js, s.pos + 1)
      case Bad(f) => Stops(f)
      case Found(q) =>
        if n >= cap then Stops(NoMem)
        else Goes(Parsing(q + 1, Bump(s.toks, s.super) + [Token(String, s.pos + 1, q, 0)], s.super))
    else if IsSpace(c) then Goes(s.(pos := s.pos + 1))
    else if c == COLON then Goes(s.(pos := s.pos + 1, super := n - 1))
    else if c == COMMA then Goes(s.(pos := s.pos + 1, super := Superior(s)))
    else
      match ScanPrimitive(js, s.pos)
      case Bad(f) => Stops(f)
      case Found(q) =>
        if n >= cap then Stops(NoMem)
        else Goes(Parsing(q, Bump(s.toks, s.super) + [Token(Primitive, s.pos, q, 0)], s.super))
  }

  /** The superior token after a comma: the open container, if a key was superior. */
  function Superior(s: Parsing): (i: int)
    requires s.Valid()
    ensures -1 <= i < |s.toks|
  {
    if s.super == -1 || s.toks[s.super].kind == Object || s.toks[s.super].kind == Array then s.super
    else if LastOpen(s.toks, |s.toks|) >= 0 then LastOpen(s.toks, |s.toks|)
    else s.super
  }

  /** jsmn_parse from a state on. */
  function Parse(js: seq<byte>, cap: nat, s: Parsing): (r: Result)
    requires s.Valid()
    ensures r.Tokens? && |s.toks| <= cap ==> |r.toks| <= cap
    decreases |js| - s.pos
  {
    if Ended(js, s.pos) then
      if LastOpen(s.toks, |s.toks|) >= 0 then Error(Part) else Tokens(s.toks)
    else match Turn(js, cap, s)
      case Stops(f) => Error(f)
      case Goes(s') => Parse(js, cap, s')
  }

  function Begin(): (s: Parsing)
    ensures s.Valid()
  {
    Parsing(0, [], -1)
  }

  // --- the tokens of a JSON value ------------------------------------------------------------

  /** A string jsmn accepts: valid escapes, no NUL. */
  predicate TokenString(s: seq<byte>)
    decreases |s|
  {
    if s == [] then true
    else if s[0] == QUOTE || s[0] == 0 then false
    else if s[0] == BACKSLASH then
      |s| >= 2 &&
      (if SimpleEscape(s[1]) then TokenString(s[2..])
       else s[1] == 0x75 && |s| >= 6 && Hex(s[2]) && Hex(s[3]) && Hex(s[4]) && Hex(s[5]) && TokenString(s[6..]))
    else TokenString(s[1..])
  }

  predicate TokenPrimitive(s: seq<byte>) {
    PrimText(s) && forall i :: 0 <= i < |s| ==> 32 < s[i] < 127
  }

  /** Values whose strings and primitives jsmn accepts: all JSON values. */
  predicate Acceptable(v: Value) {
    match v
    case Str(raw) => TokenString(raw)
    case Prim(text) => TokenPrimitive(text)
    case Arr(ws, items) => Spaces(ws) && ItemsAcceptable(items)
    case Obj(ws, members) => Spaces(ws) && MembersAcceptable(members)
  }

  predicate ItemsAcceptable(xs: Items) {
    match xs
    case NoItems => true
    case Item(v, ws, sep, more) => Acceptable(v) && Spaces(ws) && Spaces(sep) && ItemsAcceptable(more)
  }

  predicate MembersAcceptable(ms: Members) {
    match ms
    case NoMembers => true
    case Member(key, w1, w2, v, ws, sep, more) =>
      TokenString(key) && Spaces(w1) && Spaces(w2) && Acceptable(v) && Spaces(ws) && Spaces(sep) && MembersAcceptable(more)
  }

  function ItemCount(xs: Items): nat {
    match xs
    case NoItems => 0
    case Item(_, _, _, more) => 1 + ItemCount(more)
  }

  function MemberCount(ms: Members): nat {
    match ms
    case NoMembers => 0
    case Member(_, _, _, _, _, _, more) => 1 + MemberCount(more)
  }

  /** The tokens of a value whose text stands at p: in preorder, each with the span of its text
      (strings without quotes) and the number of its children. */
  function TokensAt(v: Value, p: nat): (t: seq<Token>)
    ensures |t| >= 1
    decreases v, 0
  {
    match v
    case Str(raw) => [Token(String, p + 1, p + 1 + |raw|, 0)]
    case Prim(text) => [Token(Primitive, p, p + |text|, 0)]
    case Arr(ws, items) => [Token(Array, p, p + |Text(v)|, ItemCount(items))] + ItemsAt(items, p + 1 + |ws|)
    case Obj(ws, members) => [Token(Object, p, p + |Text(v)|, MemberCount(members))] + MembersAt(members, p + 1 + |ws|)
  }

  function ItemsAt(xs: Items, p: nat): seq<Token>
    decreases xs, 1
  {
    match xs
    case NoItems => []
    case Item(v, ws, sep, more) => TokensAt(v, p) + ItemsAt(more, p + |Text(v)| + |ws + AfterComma(more.Item?, sep)|)
  }

  function MembersAt(ms: Members, p: nat): seq<Token>
    decreases ms, 1
  {
    match ms
    case NoMembers => []
    case Member(key, w1, w2, v, ws, sep, more) =>
      var q := p + |KeyText(key, w1, w2)|;
      [Token(String, p + 1, p + 1 + |key|, 1)] + TokensAt(v, q)
        + MembersAt(more, q + |Text(v)| + |ws + AfterComma(more.Member?, sep)|)
  }
}
