/** The scanner of jstream.c as a state machine over bytes, and what it does to a JSON text. */
module JsonStream {
  import opened Bits

  const MAX_DEPTH: nat := 15
  const MAX_KEY: nat := 39

  const QUOTE: byte := 0x22
  const BACKSLASH: byte := 0x5C
  const COMMA: byte := 0x2C
  const COLON: byte := 0x3A
  const OBJ_OPEN: byte := 0x7B
  const OBJ_CLOSE: byte := 0x7D
  const ARR_OPEN: byte := 0x5B
  const ARR_CLOSE: byte := 0x5D

  datatype Error = EDoc | EDepth | EContent | EDup | EPartial

  /** The scanner between two bytes. */
  datatype State = State(
    doc: seq<byte>, content: seq<byte>,
    depth: nat, onPath: seq<bool>, isObj: seq<bool>,
    inString: bool, isKey: bool, esc: bool, nextIsKey: bool,
    onPathNext: bool, contentNext: bool, divert: bool, found: bool,
    key: seq<byte>, keyOverflow: bool)
  {
    predicate Valid() {
      depth <= MAX_DEPTH && |onPath| == MAX_DEPTH + 1 && |isObj| == MAX_DEPTH + 1 && |key| <= MAX_KEY
    }
  }

  /** A failed scanner has latched its error; the content bytes sent to the sink stay sent. */
  datatype Scan = Going(st: State) | Failed(error: Error, content: seq<byte>) {
    predicate Valid() {
      Going? ==> st.Valid()
    }
  }

  function Initial(): State {
    var none := seq(MAX_DEPTH + 1, _ => false);
    State([], [], 0, none, none, false, false, false, false, false, false, false, false, [], false)
  }

  /** The keys on the path $.params.arguments.content. */
  function Target(d: nat): (t: seq<byte>)
    ensures |t| < MAX_KEY && BACKSLASH !in t && 0 !in t
  {
    if d == 1 then [0x70, 0x61, 0x72, 0x61, 0x6D, 0x73]
    else if d == 2 then [0x61, 0x72, 0x67, 0x75, 0x6D, 0x65, 0x6E, 0x74, 0x73]
    else [0x63, 0x6F, 0x6E, 0x74, 0x65, 0x6E, 0x74]
  }

  /** "<streamed>" with its quotes. */
  function Placeholder(): (p: seq<byte>) {
    [QUOTE] + Streamed() + [QUOTE]
  }

  function Streamed(): (p: seq<byte>) {
    [0x3C, 0x73, 0x74, 0x72, 0x65, 0x61, 0x6D, 0x65, 0x64, 0x3E]
  }

  function Append(cap: nat, s: State, text: seq<byte>): (r: Scan)
    requires s.Valid()
    ensures r.Valid()
  {
    if |s.doc| + |text| > cap then Failed(EDoc, s.content) else Going(s.(doc := s.doc + text))
  }

  /** A key as strcmp sees it: up to its first NUL. */
  function CString(k: seq<byte>): seq<byte> {
    if k == [] || k[0] == 0 then [] else [k[0]] + CString(k[1..])
  }

  /** The key just read is the one wanted at this depth. */
  predicate KeyMatches(s: State)
    requires s.Valid()
  {
    !s.keyOverflow && 1 <= s.depth <= 3 && s.onPath[s.depth] && CString(s.key) == Target(s.depth)
  }

  function KeyComplete(s: State): (r: State)
    requires s.Valid()
    ensures r.Valid()
  {
    s.(onPathNext := KeyMatches(s) && s.depth < 3, contentNext := KeyMatches(s) && s.depth == 3)
  }

  /** An escape base64 text can carry, unescaped; anything else is refused. */
  function SunkEscape(c: byte): (u: seq<byte>)
    ensures |u| <= 1
  {
    if c == 0x2F then [0x2F] else if c == 0x6E then [10] else if c == 0x72 then [13] else []
  }

  /** Content bytes go to the sink. */
  function Sunk(s: State, bytes: seq<byte>): (r: State)
    requires s.Valid()
    ensures r.Valid()
  {
    s.(esc := false, content := s.content + bytes)
  }

  function StepDiverted(s: State, c: byte): (r: Scan)
    requires s.Valid()
    ensures r.Valid()
  {
    if s.esc then (if SunkEscape(c) == [] then Failed(EContent, s.content) else Going(Sunk(s, SunkEscape(c))))
    else if c == QUOTE then Going(s.(divert := false))
    else if c == BACKSLASH then Going(s.(esc := true))
    else Going(Sunk(s, [c]))
  }

  function AfterStringByte(s: State, c: byte): (r: State)
    requires s.Valid()
    ensures r.Valid()
  {
    hide KeyComplete;
    if s.esc then s.(esc := false, keyOverflow := s.keyOverflow || s.isKey)
    else if c == BACKSLASH then s.(esc := true)
    else if c == QUOTE then (if s.isKey then KeyComplete(s.(inString := false)) else s.(inString := false))
    else if s.isKey then (if |s.key| < MAX_KEY then s.(key := s.key + [c]) else s.(keyOverflow := true))
    else s
  }

  function StepString(cap: nat, s: State, c: byte): (r: Scan)
    requires s.Valid()
    ensures r.Valid()
  {
    match Append(cap, s, [c])
    case Failed(e, d) => Failed(e, d)
    case Going(s') => Going(AfterStringByte(s', c))
  }

  function StepQuote(cap: nat, s: State): (r: Scan)
    requires s.Valid()
    ensures r.Valid()
  {
    var starting := s.depth >= 1 && s.isObj[s.depth] && s.nextIsKey;
    if !starting && s.contentNext then
      if s.found then Failed(EDup, s.content)
      else Append(cap, s.(contentNext := false, onPathNext := false, found := true, divert := true), Placeholder())
    else
      Append(cap, s.(inString := true, isKey := starting, key := [], keyOverflow := false,
                     contentNext := starting && s.contentNext, onPathNext := starting && s.onPathNext), [QUOTE])
  }

  function StepOpen(cap: nat, s: State, c: byte): (r: Scan)
    requires s.Valid()
    ensures r.Valid()
  {
    if s.depth >= MAX_DEPTH then Failed(EDepth, s.content)
    else
      var d := s.depth + 1;
      var on := c == OBJ_OPEN && (d == 1 || s.onPathNext);
      Append(cap, s.(depth := d, isObj := s.isObj[d := c == OBJ_OPEN], onPath := s.onPath[d := on],
                     onPathNext := false, contentNext := false, nextIsKey := c == OBJ_OPEN), [c])
  }

  function Expecting(s: State, key: bool): (r: State)
    requires s.Valid()
    ensures r.Valid()
  {
    s.(nextIsKey := key)
  }

  /** A value begins: no key is pending any more. */
  function Consumed(s: State): (r: State)
    requires s.Valid()
    ensures r.Valid()
  {
    s.(onPathNext := false, contentNext := false)
  }

  function Closed(s: State): (r: State)
    requires s.Valid() && s.depth > 0
    ensures r.Valid()
  {
    s.(depth := s.depth - 1)
  }

  /** The bytes copied outside strings that open nothing. */
  function AfterPlainByte(s: State, c: byte): (r: State)
    requires s.Valid() && (s.depth > 0 || (c != OBJ_CLOSE && c != ARR_CLOSE))
    ensures r.Valid()
  {
    if c == OBJ_CLOSE || c == ARR_CLOSE then Closed(s)
    else if c == COLON then Expecting(s, false)
    else if c == COMMA then Expecting(s, s.depth >= 1 && s.isObj[s.depth])
    else if IsSpace(c) then s
    else Consumed(s) // a number, true, false or null
  }

  function StepStructure(cap: nat, s: State, c: byte): (r: Scan)
    requires s.Valid()
    ensures r.Valid()
  {
    if c == QUOTE then StepQuote(cap, s)
    else if c == OBJ_OPEN || c == ARR_OPEN then StepOpen(cap, s, c)
    else if (c == OBJ_CLOSE || c == ARR_CLOSE) && s.depth == 0 then Failed(EDepth, s.content)
    else Append(cap, AfterPlainByte(s, c), [c])
  }

  predicate IsSpace(c: byte) {
    c == 32 || c == 9 || c == 13 || c == 10
  }

  function Step(cap: nat, r: Scan, c: byte): (r': Scan)
    requires r.Valid()
    ensures r'.Valid()
  {
    if r.Failed? then r
    else if r.st.divert then StepDiverted(r.st, c)
    else if r.st.inString then StepString(cap, r.st, c)
    else StepStructure(cap, r.st, c)
  }

  /** The scanner after a stretch of input. */
  function Run(cap: nat, r: Scan, text: seq<byte>): (r': Scan)
    requires r.Valid()
    ensures r'.Valid()
    decreases |text|
  {
    if text == [] then r else Run(cap, Step(cap, r, text[0]), text[1..])
  }

  /** However the input is cut, the scanner ends in the same state. */
  lemma {:induction false} RunConcat(cap: nat, r: Scan, a: seq<byte>, b: seq<byte>)
    requires r.Valid()
    ensures Run(cap, r, a + b) == Run(cap, Run(cap, r, a), b)
    decreases |a|
  {
    hide Step;
    if a == [] {
      assert a + b == b;
    } else {
      RunConcat(cap, Step(cap, r, a[0]), a[1..], b);
      assert (a + b)[1..] == a[1..] + b;
    }
  }

  lemma RunOne(cap: nat, r: Scan, c: byte)
    requires r.Valid()
    ensures Run(cap, r, [c]) == Step(cap, r, c)
  {
    assert [c][1..] == [];
  }

  lemma {:induction false} FailedStays(cap: nat, r: Scan, text: seq<byte>)
    requires r.Failed?
    ensures Run(cap, r, text) == r
    decreases |text|
  {
    if text != [] { FailedStays(cap, r, text[1..]); }
  }

  function Finish(r: Scan): (f: Scan)
    requires r.Valid()
  {
    if r.Going? && (r.st.inString || r.st.divert || r.st.depth != 0) then Failed(EPartial, r.st.content) else r
  }

  // --- JSON texts --------------------------------------------------------------------------

  /** A JSON value with its layout: raw strings as written, and the spaces between tokens. */
  datatype Value =
    | Str(raw: seq<byte>)
    | Prim(text: seq<byte>)
    | Arr(ws: seq<byte>, items: Items)
    | Obj(ws: seq<byte>, members: Members)

  /** Each value is followed by spaces and, if more come, a comma and spaces. */
  datatype Items = NoItems | Item(value: Value, ws: seq<byte>, sep: seq<byte>, more: Items)

  datatype Members = NoMembers
    | Member(key: seq<byte>, w1: seq<byte>, w2: seq<byte>, value: Value, ws: seq<byte>, sep: seq<byte>, more: Members)

  predicate Spaces(w: seq<byte>) {
    forall i :: 0 <= i < |w| ==> IsSpace(w[i])
  }

  /** No unescaped quote, and every backslash followed by a byte. */
  predicate RawString(s: seq<byte>)
    decreases |s|
  {
    if s == [] then true
    else if s[0] == QUOTE then false
    else if s[0] == BACKSLASH then |s| >= 2 && RawString(s[2..])
    else RawString(s[1..])
  }

  predicate PrimByte(c: byte) {
    !IsSpace(c) && c != QUOTE && c != COMMA && c != COLON && c != OBJ_OPEN && c != OBJ_CLOSE && c != ARR_OPEN && c != ARR_CLOSE
  }

  /** Numbers, true, false and null: no byte of structure in them. */
  predicate PrimText(s: seq<byte>) {
    s != [] && forall i :: 0 <= i < |s| ==> PrimByte(s[i])
  }

  predicate WellFormed(v: Value) {
    match v
    case Str(raw) => RawString(raw)
    case Prim(text) => PrimText(text)
    case Arr(ws, items) => Spaces(ws) && ItemsFormed(items)
    case Obj(ws, members) => Spaces(ws) && MembersFormed(members)
  }

  predicate ItemsFormed(xs: Items) {
    match xs
    case NoItems => true
    case Item(v, ws, sep, more) => WellFormed(v) && Spaces(ws) && Spaces(sep) && ItemsFormed(more)
  }

  predicate MembersFormed(ms: Members) {
    match ms
    case NoMembers => true
    case Member(key, w1, w2, v, ws, sep, more) =>
      RawString(key) && 0 !in key && Spaces(w1) && Spaces(w2) && WellFormed(v) && Spaces(ws) && Spaces(sep) && MembersFormed(more)
  }

  function Quoted(raw: seq<byte>): seq<byte> {
    [QUOTE] + (raw + [QUOTE])
  }

  function Text(v: Value): seq<byte> {
    match v
    case Str(raw) => Quoted(raw)
    case Prim(text) => text
    case Arr(ws, items) => ([ARR_OPEN] + ws) + (ItemsText(items) + [ARR_CLOSE])
    case Obj(ws, members) => ([OBJ_OPEN] + ws) + (MembersText(members) + [OBJ_CLOSE])
  }

  function ItemsText(xs: Items): seq<byte> {
    match xs
    case NoItems => []
    case Item(v, ws, sep, more) => Text(v) + (ws + AfterComma(more.Item?, sep) + ItemsText(more))
  }

  function AfterComma(more: bool, sep: seq<byte>): seq<byte> {
    if more then [COMMA] + sep else []
  }

  function KeyText(key: seq<byte>, w1: seq<byte>, w2: seq<byte>): seq<byte> {
    Quoted(key) + (w1 + ([COLON] + w2))
  }

  function MembersText(ms: Members): seq<byte> {
    match ms
    case NoMembers => []
    case Member(key, w1, w2, v, ws, sep, more) =>
      KeyText(key, w1, w2) + (Text(v) + (ws + AfterComma(more.Member?, sep) + MembersText(more)))
  }

  // --- what the scanner should do with one -----------------------------------------------------

  /** The document and the content so far, or the first error. */
  datatype Out = Out(doc: seq<byte>, content: seq<byte>, found: bool) | Fail(error: Error, content: seq<byte>)

  /** Whether a value is a container on the way to the content, the content itself, or neither. */
  datatype Role = Plain | OnPath | Content

  function Put(cap: nat, o: Out, text: seq<byte>): Out {
    if o.Fail? then o
    else if |o.doc| + |text| > cap then Fail(EDoc, o.content)
    else Out(o.doc + text, o.content, o.found)
  }

  /** The unescaped bytes up to the first escape that base64 text cannot carry. */
  function Unescape(raw: seq<byte>): seq<byte>
    decreases |raw|
  {
    if raw == [] then []
    else if raw[0] == BACKSLASH then
      if |raw| < 2 || SunkEscape(raw[1]) == [] then [] else SunkEscape(raw[1]) + Unescape(raw[2..])
    else [raw[0]] + Unescape(raw[1..])
  }

  /** All escapes are ones base64 text can carry. */
  predicate Streamable(raw: seq<byte>)
    decreases |raw|
  {
    if raw == [] then true
    else if raw[0] == BACKSLASH then |raw| >= 2 && SunkEscape(raw[1]) != [] && Streamable(raw[2..])
    else Streamable(raw[1..])
  }

  /** The content string: a placeholder in the document, its bytes to the sink. */
  function Divert(cap: nat, o: Out, raw: seq<byte>): Out {
    if o.Fail? then o
    else if o.found then Fail(EDup, o.content)
    else if |o.doc| + |Placeholder()| > cap then Fail(EDoc, o.content)
    else if Streamable(raw) then Out(o.doc + Placeholder(), o.content + Unescape(raw), true)
    else Fail(EContent, o.content + Unescape(raw))
  }

  /** The role of a member's value in the object at depth d. */
  function MemberRole(d: nat, on: bool, key: seq<byte>): Role {
    if !on || d > 3 || key != Target(d) then Plain else if d < 3 then OnPath else Content
  }

  /** A value inside d containers. */
  function Walk(cap: nat, v: Value, d: nat, role: Role, o: Out): (r: Out)
    decreases v, 0
  {
    if o.Fail? then o
    else match v
      case Str(raw) => if role.Content? then Divert(cap, o, raw) else Put(cap, o, Quoted(raw))
      case Prim(text) => Put(cap, o, text)
      case Arr(ws, items) =>
        if d >= MAX_DEPTH then Fail(EDepth, o.content)
        else Put(cap, WalkItems(cap, items, d + 1, Put(cap, o, [ARR_OPEN] + ws)), [ARR_CLOSE])
      case Obj(ws, members) =>
        if d >= MAX_DEPTH then Fail(EDepth, o.content)
        else Put(cap, WalkMembers(cap, members, d + 1, d == 0 || role.OnPath?, Put(cap, o, [OBJ_OPEN] + ws)), [OBJ_CLOSE])
  }

  function WalkItems(cap: nat, xs: Items, d: nat, o: Out): (r: Out)
    decreases xs, 1
  {
    match xs
    case NoItems => o
    case Item(v, ws, sep, more) =>
      WalkItems(cap, more, d, Put(cap, Walk(cap, v, d, Plain, o), ws + AfterComma(more.Item?, sep)))
  }

  function WalkMembers(cap: nat, ms: Members, d: nat, on: bool, o: Out): (r: Out)
    decreases ms, 1
  {
    match ms
    case NoMembers => o
    case Member(key, w1, w2, v, ws, sep, more) =>
      WalkMembers(cap, more, d, on,
        Put(cap, Walk(cap, v, d, MemberRole(d, on, key), Put(cap, o, KeyText(key, w1, w2))), ws + AfterComma(more.Member?, sep)))
  }
}
