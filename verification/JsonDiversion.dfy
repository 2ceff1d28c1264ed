/** On every well-formed JSON text the byte scanner does what the walk of the value says. */
module JsonDiversion {
  import opened Bits
  import opened JsonStream

  // --- runs of bytes of one kind --------------------------------------------------------------

  predicate Outside(s: State) {
    s.Valid() && !s.inString && !s.divert && !s.esc
  }

  lemma AppendMore(cap: nat, s: State, c: byte, w: seq<byte>)
    requires s.Valid() && w != [] && w[0] == c
    ensures Append(cap, s, [c]).Failed? ==> Append(cap, s, w) == Append(cap, s, [c])
    ensures Append(cap, s, [c]).Going? ==> Append(cap, Append(cap, s, [c]).st, w[1..]) == Append(cap, s, w)
  {
    assert s.doc + [c] + w[1..] == s.doc + w;
  }

  lemma {:induction false} SpacesRun(cap: nat, s: State, w: seq<byte>)
    requires Outside(s) && Spaces(w) && |s.doc| <= cap
    ensures Run(cap, Going(s), w) == Append(cap, s, w)
    decreases |w|
  {
    hide StepQuote, StepOpen, StepString, StepDiverted;
    if w == [] {
      assert s.doc + [] == s.doc;
    } else {
      assert IsSpace(w[0]);
      AppendMore(cap, s, w[0], w);
      var r := Append(cap, s, [w[0]]);
      assert Step(cap, Going(s), w[0]) == r;
      if r.Failed? {
        FailedStays(cap, r, w[1..]);
      } else {
        SpacesRun(cap, r.st, w[1..]);
      }
    }
  }

  lemma ConsumedTwice(s: State)
    requires s.Valid()
    ensures Consumed(Consumed(s)) == Consumed(s)
  {
  }

  lemma {:induction false} PrimRun(cap: nat, s: State, w: seq<byte>)
    requires Outside(s) && PrimText(w)
    ensures Run(cap, Going(s), w) == Append(cap, Consumed(s), w)
    decreases |w|
  {
    hide StepQuote, StepOpen, StepString, StepDiverted;
    assert PrimByte(w[0]);
    var r := Append(cap, Consumed(s), [w[0]]);
    assert Step(cap, Going(s), w[0]) == r;
    AppendMore(cap, Consumed(s), w[0], w);
    if r.Failed? {
      FailedStays(cap, r, w[1..]);
    } else if |w| == 1 {
      assert w[1..] == [] && w == [w[0]];
    } else {
      ConsumedTwice(r.st);
      PrimRun(cap, r.st, w[1..]);
      assert Consumed(r.st) == r.st;
    }
  }

  /** The key buffer after the bytes of a raw string. */
  function KeyRead(raw: seq<byte>, key: seq<byte>, over: bool): (r: (seq<byte>, bool))
    requires |key| <= MAX_KEY
    ensures |r.0| <= MAX_KEY
    decreases |raw|
  {
    if raw == [] then (key, over)
    else if raw[0] == BACKSLASH then (if |raw| < 2 then (key, over) else KeyRead(raw[2..], key, true))
    else if |key| < MAX_KEY then KeyRead(raw[1..], key + [raw[0]], over)
    else KeyRead(raw[1..], key, true)
  }

  /** The buffer holds the key wanted exactly if the key is written plainly and is that key. */
  lemma {:induction false} KeyReadMatches(raw: seq<byte>, key: seq<byte>, over: bool, t: seq<byte>)
    requires |key| <= MAX_KEY && |t| <= MAX_KEY && BACKSLASH !in t && RawString(raw)
    ensures var (k, o) := KeyRead(raw, key, over); !o && k == t <==> !over && key + raw == t
    decreases |raw|
  {
    if raw == [] {
      assert key + raw == key;
    } else if raw[0] == BACKSLASH {
      KeyReadMatches(raw[2..], key, true, t);
      assert (key + raw)[|key|] == BACKSLASH;
    } else if |key| < MAX_KEY {
      KeyReadMatches(raw[1..], key + [raw[0]], over, t);
      assert key + [raw[0]] + raw[1..] == key + raw;
    } else {
      KeyReadMatches(raw[1..], key, true, t);
      assert |key + raw| > MAX_KEY;
    }
  }

  function AfterRaw(s: State, raw: seq<byte>): (r: State)
    requires s.Valid()
    ensures r.Valid()
  {
    if s.isKey then s.(key := KeyRead(raw, s.key, s.keyOverflow).0, keyOverflow := KeyRead(raw, s.key, s.keyOverflow).1) else s
  }

  predicate InString(s: State) {
    s.Valid() && s.inString && !s.divert && !s.esc
  }

  lemma StringStep(cap: nat, s: State, c: byte)
    requires InString(s) && c != QUOTE && c != BACKSLASH
    ensures Append(cap, s, [c]).Failed? ==> Step(cap, Going(s), c) == Append(cap, s, [c])
    ensures Append(cap, s, [c]).Going? ==>
      var s' := AfterStringByte(Append(cap, s, [c]).st, c);
      Step(cap, Going(s), c) == Going(s') && InString(s') && s'.doc == s.doc + [c] && s'.isKey == s.isKey
  {
  }

  lemma EscapeStep(cap: nat, s: State, c: byte)
    requires InString(s)
    ensures Run(cap, Going(s), [BACKSLASH, c]) == Append(cap, s.(keyOverflow := s.keyOverflow || s.isKey), [BACKSLASH, c])
  {
    hide StepDiverted, StepStructure, KeyComplete;
    RunConcat(cap, Going(s), [BACKSLASH], [c]);
    assert [BACKSLASH] + [c] == [BACKSLASH, c];
    RunOne(cap, Going(s), BACKSLASH);
    RunOne(cap, Step(cap, Going(s), BACKSLASH), c);
    var r := Append(cap, s, [BACKSLASH]);
    if r.Going? {
      var s1 := AfterStringByte(r.st, BACKSLASH);
      assert Step(cap, Going(s), BACKSLASH) == Going(s1);
      assert s.doc + [BACKSLASH] + [c] == s.doc + [BACKSLASH, c];
    }
  }

  lemma AppendTwice(cap: nat, s: State, a: seq<byte>, b: seq<byte>)
    requires s.Valid()
    ensures Append(cap, s, a).Failed? ==> Append(cap, s, a + b) == Append(cap, s, a)
    ensures Append(cap, s, a).Going? ==> Append(cap, s.(doc := s.doc + a), b) == Append(cap, s, a + b)
  {
    hide State.Valid;
    ConcatAssoc(s.doc, a, b);
  }

  lemma AfterEscape(s: State, raw: seq<byte>, doc: seq<byte>)
    requires s.Valid() && |raw| >= 2 && raw[0] == BACKSLASH
    ensures AfterRaw(s.(keyOverflow := s.keyOverflow || s.isKey, doc := doc), raw[2..]) == AfterRaw(s, raw).(doc := doc)
  {
  }

  lemma AfterByte(s: State, raw: seq<byte>, doc: seq<byte>)
    requires InString(s) && raw != [] && raw[0] != BACKSLASH && raw[0] != QUOTE
    ensures AfterRaw(AfterStringByte(s.(doc := doc), raw[0]), raw[1..]) == AfterRaw(s, raw).(doc := doc)
  {
    hide KeyComplete;
  }

  lemma AppendFails(cap: nat, s: State, t: State, a: seq<byte>)
    requires s.Valid() && t.Valid() && t.doc == s.doc && t.content == s.content
    ensures Append(cap, s, a).Failed? == Append(cap, t, a).Failed?
    ensures Append(cap, s, a).Failed? ==> Append(cap, t, a) == Append(cap, s, a)
    ensures Append(cap, s, a).Going? ==> Append(cap, s, a).st == s.(doc := s.doc + a) && s.(doc := s.doc + a).Valid()
  {
  }

  lemma {:induction false} StringRun(cap: nat, s: State, raw: seq<byte>)
    requires InString(s) && RawString(raw) && |s.doc| <= cap
    ensures Run(cap, Going(s), raw) == Append(cap, AfterRaw(s, raw), raw)
    decreases |raw|
  {
    hide Step, KeyComplete, Append, AfterRaw, AfterStringByte;
    if raw == [] {
      NothingMore(cap, s);
    } else if raw[0] == BACKSLASH {
      StringRunEscape(cap, s, raw);
      if Append(cap, s, raw[..2]).Going? {
        AppendFails(cap, s, s, raw[..2]);
        AppendSize(cap, s, raw[..2]);
        StringRun(cap, s.(keyOverflow := s.keyOverflow || s.isKey, doc := s.doc + raw[..2]), raw[2..]);
      }
    } else {
      StringRunByte(cap, s, raw);
      if Append(cap, s, [raw[0]]).Going? {
        AppendFails(cap, s, s, [raw[0]]);
        AppendSize(cap, s, [raw[0]]);
        StringStep(cap, s, raw[0]);
        StringRun(cap, AfterStringByte(s.(doc := s.doc + [raw[0]]), raw[0]), raw[1..]);
      }
    }
  }

  lemma AppendSize(cap: nat, s: State, a: seq<byte>)
    requires s.Valid() && Append(cap, s, a).Going?
    ensures |s.doc + a| <= cap
  {
  }

  lemma NothingMore(cap: nat, s: State)
    requires s.Valid() && |s.doc| <= cap
    ensures Append(cap, AfterRaw(s, []), []) == Going(s)
  {
    assert s.doc + [] == s.doc;
  }

  /** An escape, then the rest of the string. */
  lemma StringRunEscape(cap: nat, s: State, raw: seq<byte>)
    requires InString(s) && |raw| >= 2 && raw[0] == BACKSLASH
    ensures Append(cap, s, raw[..2]).Failed? ==> Run(cap, Going(s), raw) == Append(cap, AfterRaw(s, raw), raw)
    ensures Append(cap, s, raw[..2]).Going? ==>
      var s1 := s.(keyOverflow := s.keyOverflow || s.isKey, doc := s.doc + raw[..2]);
      s1.Valid() && Run(cap, Going(s), raw) == Run(cap, Going(s1), raw[2..]) &&
      Append(cap, AfterRaw(s1, raw[2..]), raw[2..]) == Append(cap, AfterRaw(s, raw), raw)
  {
    hide Step, KeyComplete, Append, AfterRaw;
    var e := [BACKSLASH, raw[1]];
    assert raw[..2] == e && raw == e + raw[2..];
    RunConcat(cap, Going(s), e, raw[2..]);
    EscapeStep(cap, s, raw[1]);
    var s1 := s.(keyOverflow := s.keyOverflow || s.isKey);
    AppendFails(cap, s, s1, e);
    AppendFails(cap, s1, s, e);
    SameDoc(s, raw);
    AppendFails(cap, s, AfterRaw(s, raw), e);
    AppendTwice(cap, AfterRaw(s, raw), e, raw[2..]);
    if Append(cap, s, e).Failed? {
      FailedStays(cap, Append(cap, s1, e), raw[2..]);
    } else {
      AfterEscape(s, raw, s.doc + e);
    }
  }

  lemma SameDoc(s: State, raw: seq<byte>)
    requires s.Valid()
    ensures AfterRaw(s, raw).doc == s.doc && AfterRaw(s, raw).content == s.content
  {
  }

  /** A plain byte, then the rest of the string. */
  lemma StringRunByte(cap: nat, s: State, raw: seq<byte>)
    requires InString(s) && raw != [] && raw[0] != BACKSLASH && raw[0] != QUOTE
    ensures Append(cap, s, [raw[0]]).Failed? ==> Run(cap, Going(s), raw) == Append(cap, AfterRaw(s, raw), raw)
    ensures Append(cap, s, [raw[0]]).Going? ==>
      var s1 := AfterStringByte(s.(doc := s.doc + [raw[0]]), raw[0]);
      Run(cap, Going(s), raw) == Run(cap, Going(s1), raw[1..]) &&
      Append(cap, AfterRaw(s1, raw[1..]), raw[1..]) == Append(cap, AfterRaw(s, raw), raw)
  {
    hide Step, KeyComplete, Append, AfterRaw, AfterStringByte;
    StringStep(cap, s, raw[0]);
    assert raw == [raw[0]] + raw[1..];
    AppendFails(cap, s, s, [raw[0]]);
    SameDoc(s, raw);
    AppendFails(cap, s, AfterRaw(s, raw), [raw[0]]);
    AppendTwice(cap, AfterRaw(s, raw), [raw[0]], raw[1..]);
    if Append(cap, s, [raw[0]]).Failed? {
      FailedStays(cap, Append(cap, s, [raw[0]]), raw[1..]);
    } else {
      AfterByte(s, raw, s.doc + [raw[0]]);
    }
  }

  lemma {:induction false} DivertRun(cap: nat, s: State, raw: seq<byte>)
    requires s.Valid() && s.divert && !s.esc && RawString(raw)
    ensures Run(cap, Going(s), raw) == Diverted(s, raw)
    decreases |raw|
  {
    hide Step, Diverted, Sunk;
    if raw == [] {
      DivertedNothing(s);
    } else if raw[0] == BACKSLASH {
      DivertEscape(cap, s, raw[1]);
      DivertedEscape(s, raw);
      var e := [BACKSLASH, raw[1]];
      assert raw == e + raw[2..];
      RunConcat(cap, Going(s), e, raw[2..]);
      if SunkEscape(raw[1]) == [] {
        FailedStays(cap, Failed(EContent, s.content), raw[2..]);
      } else {
        SunkKeeps(s, SunkEscape(raw[1]));
        DivertRun(cap, Sunk(s, SunkEscape(raw[1])), raw[2..]);
      }
    } else {
      DivertByte(cap, s, raw[0]);
      DivertedByte(s, raw);
      SunkKeeps(s, [raw[0]]);
      DivertRun(cap, Sunk(s, [raw[0]]), raw[1..]);
    }
  }

  lemma SunkKeeps(s: State, bytes: seq<byte>)
    requires s.Valid() && s.divert
    ensures Sunk(s, bytes).Valid() && Sunk(s, bytes).divert && !Sunk(s, bytes).esc
  {
  }

  /** The scanner after the raw bytes of a diverted string. */
  function Diverted(s: State, raw: seq<byte>): (r: Scan)
    requires s.Valid()
    ensures r.Valid()
  {
    if Streamable(raw) then Going(Sunk(s, Unescape(raw))) else Failed(EContent, s.content + Unescape(raw))
  }

  lemma DivertedNothing(s: State)
    requires s.Valid() && !s.esc
    ensures Diverted(s, []) == Going(s)
  {
    assert s.content + [] == s.content;
  }

  lemma DivertEscape(cap: nat, s: State, c: byte)
    requires s.Valid() && s.divert && !s.esc
    ensures Run(cap, Going(s), [BACKSLASH, c])
         == if SunkEscape(c) == [] then Failed(EContent, s.content) else Going(Sunk(s, SunkEscape(c)))
  {
    hide StepString, StepStructure;
    var e := [BACKSLASH, c];
    assert e[1..] == [c];
    RunOne(cap, Step(cap, Going(s), BACKSLASH), c);
  }

  lemma DivertByte(cap: nat, s: State, c: byte)
    requires s.Valid() && s.divert && !s.esc && c != QUOTE && c != BACKSLASH
    ensures Step(cap, Going(s), c) == Going(Sunk(s, [c]))
  {
    hide StepString, StepStructure;
  }

  lemma DivertedEscape(s: State, raw: seq<byte>)
    requires s.Valid() && |raw| >= 2 && raw[0] == BACKSLASH
    ensures Diverted(s, raw) == if SunkEscape(raw[1]) == [] then Failed(EContent, s.content)
                                else Diverted(Sunk(s, SunkEscape(raw[1])), raw[2..])
  {
    hide State.Valid;
    ConcatAssoc(s.content, SunkEscape(raw[1]), Unescape(raw[2..]));
  }

  lemma DivertedByte(s: State, raw: seq<byte>)
    requires s.Valid() && raw != [] && raw[0] != BACKSLASH
    ensures Diverted(s, raw) == Diverted(Sunk(s, [raw[0]]), raw[1..])
  {
    hide State.Valid;
    ConcatAssoc(s.content, [raw[0]], Unescape(raw[1..]));
  }

  // --- whole strings ---------------------------------------------------------------------------

  /** The states differ at most in the string scanner's own fields and the pending flags. */
  predicate SamePlace(s: State, t: State) {
    t.Valid() && t.doc == s.doc && t.content == s.content && t.found == s.found && t.depth == s.depth &&
    t.onPath == s.onPath && t.isObj == s.isObj && t.nextIsKey == s.nextIsKey && t.divert == s.divert
  }

  /** A copied string from its opening quote to its closing one, s1 being the state after the opening quote
      without that byte. */
  lemma CopiedString(cap: nat, s1: State, raw: seq<byte>)
    requires InString(s1) && RawString(raw)
    requires |s1.doc| <= cap
    ensures var t := EndString(AfterRaw(s1, raw));
            SamePlace(s1, t) && Outside(t) &&
            Run(cap, Append(cap, s1, [QUOTE]), raw + [QUOTE]) == Append(cap, t, Quoted(raw))
  {
    hide Step, KeyComplete, Append, AfterRaw;
    var t := EndString(AfterRaw(s1, raw));
    EndKeeps(s1, raw);
    var r := Append(cap, s1, [QUOTE]);
    AppendFails(cap, s1, t, [QUOTE]);
    AppendTwice(cap, t, [QUOTE], raw + [QUOTE]);
    if r.Failed? {
      FailedStays(cap, r, raw + [QUOTE]);
    } else {
      AppendFails(cap, s1, s1, [QUOTE]);
      AppendSize(cap, s1, [QUOTE]);
      StringBody(cap, r.st, raw);
      EndDoc(s1, raw, s1.doc + [QUOTE]);
    }
  }

  /** The state at a string's closing quote, after it. */
  function EndString(s: State): (t: State)
    requires s.Valid()
    ensures t.Valid()
  {
    if s.isKey then KeyComplete(s.(inString := false)) else s.(inString := false)
  }

  lemma EndKeeps(s: State, raw: seq<byte>)
    requires InString(s)
    ensures SamePlace(s, EndString(AfterRaw(s, raw))) && Outside(EndString(AfterRaw(s, raw)))
    ensures EndString(AfterRaw(s, raw)).doc == s.doc && EndString(AfterRaw(s, raw)).content == s.content
  {
    hide KeyMatches;
  }

  lemma EndDoc(s: State, raw: seq<byte>, doc: seq<byte>)
    requires s.Valid()
    ensures EndString(AfterRaw(s.(doc := doc), raw)) == EndString(AfterRaw(s, raw)).(doc := doc)
  {
    hide EndString;
    EndDocOf(AfterRaw(s, raw), doc);
  }

  lemma StringBody(cap: nat, s: State, raw: seq<byte>)
    requires InString(s) && RawString(raw) && |s.doc| <= cap
    ensures Run(cap, Going(s), raw + [QUOTE]) == Append(cap, EndString(AfterRaw(s, raw)), raw + [QUOTE])
  {
    hide Step, KeyComplete, Append, AfterRaw;
    RunConcat(cap, Going(s), raw, [QUOTE]);
    StringRun(cap, s, raw);
    var u := AfterRaw(s, raw);
    RawKeeps(s, raw);
    var t := EndString(u);
    EndKeeps(s, raw);
    AppendFails(cap, u, t, raw);
    AppendFails(cap, u, u, raw);
    AppendTwice(cap, t, raw, [QUOTE]);
    var r := Append(cap, u, raw);
    if r.Failed? {
      FailedStays(cap, r, [QUOTE]);
    } else {
      RunOne(cap, r, QUOTE);
      CloseQuote(cap, r.st);
      EndDocOf(u, u.doc + raw);
    }
  }

  lemma RawKeeps(s: State, raw: seq<byte>)
    requires InString(s)
    ensures InString(AfterRaw(s, raw)) && AfterRaw(s, raw).doc == s.doc && AfterRaw(s, raw).content == s.content
  {
  }

  lemma EndDocOf(s: State, doc: seq<byte>)
    requires s.Valid()
    ensures EndString(s.(doc := doc)) == EndString(s).(doc := doc)
  {
  }

  lemma CloseQuote(cap: nat, s: State)
    requires InString(s)
    ensures Step(cap, Going(s), QUOTE) == Append(cap, EndString(s), [QUOTE])
  {
    hide StepDiverted, StepStructure;
    EndDocOf(s, s.doc + [QUOTE]);
  }

  lemma RunQuoted(cap: nat, r: Scan, raw: seq<byte>)
    requires r.Valid()
    ensures Run(cap, r, Quoted(raw)) == Run(cap, Step(cap, r, QUOTE), raw + [QUOTE])
  {
    hide Step;
    assert Quoted(raw)[1..] == raw + [QUOTE];
  }

  /** A key: the flags say what its value is. */
  lemma {:induction false} KeyRun(cap: nat, s: State, key: seq<byte>, d: nat) returns (t: State)
    requires Outside(s) && |s.doc| <= cap && RawString(key) && 0 !in key
    requires d == s.depth >= 1 && s.isObj[d] && s.nextIsKey
    ensures SamePlace(s, t) && Outside(t) && Run(cap, Going(s), Quoted(key)) == Append(cap, t, Quoted(key))
    ensures t.onPathNext == MemberRole(d, s.onPath[d], key).OnPath?
    ensures t.contentNext == MemberRole(d, s.onPath[d], key).Content?
  {
    hide Run, Append, StepString, StepDiverted, Target;
    var s1 := s.(inString := true, isKey := true, key := [], keyOverflow := false);
    assert Step(cap, Going(s), QUOTE) == Append(cap, s1, [QUOTE]);
    RunQuoted(cap, Going(s), key);
    CopiedString(cap, s1, key);
    t := EndString(AfterRaw(s1, key));
    KeyReadMatches(key, [], false, Target(d));
    assert [] + key == key;
    KeyBytes(key, [], false);
  }

  /** The buffer holds bytes of the key only, so no NUL shortens it. */
  lemma {:induction false} KeyBytes(raw: seq<byte>, key: seq<byte>, over: bool)
    requires |key| <= MAX_KEY && 0 !in raw && 0 !in key
    ensures 0 !in KeyRead(raw, key, over).0 && CString(KeyRead(raw, key, over).0) == KeyRead(raw, key, over).0
    decreases |raw|
  {
    if raw == [] {
      WholeCString(key);
    } else if raw[0] == BACKSLASH {
      if |raw| >= 2 { KeyBytes(raw[2..], key, true); } else { WholeCString(key); }
    } else if |key| < MAX_KEY {
      KeyBytes(raw[1..], key + [raw[0]], over);
    } else {
      KeyBytes(raw[1..], key, true);
    }
  }

  lemma {:induction false} WholeCString(k: seq<byte>)
    requires 0 !in k
    ensures CString(k) == k
  {
    if k != [] { WholeCString(k[1..]); }
  }

  /** A string value that is copied. */
  lemma {:induction false} StringValueRun(cap: nat, s: State, raw: seq<byte>) returns (t: State)
    requires Outside(s) && |s.doc| <= cap && RawString(raw) && !s.contentNext
    requires !(s.depth >= 1 && s.isObj[s.depth] && s.nextIsKey)
    ensures SamePlace(s, t) && Outside(t) && Run(cap, Going(s), Quoted(raw)) == Append(cap, t, Quoted(raw))
    ensures !t.onPathNext && !t.contentNext
  {
    hide Run, Append, StepString, StepDiverted;
    var s1 := s.(inString := true, isKey := false, key := [], keyOverflow := false, contentNext := false, onPathNext := false);
    assert Step(cap, Going(s), QUOTE) == Append(cap, s1, [QUOTE]);
    RunQuoted(cap, Going(s), raw);
    CopiedString(cap, s1, raw);
    t := EndString(AfterRaw(s1, raw));
  }

  /** The content string: refused, or replaced in the document and sent to the sink. */
  lemma {:induction false} ContentRun(cap: nat, s: State, raw: seq<byte>) returns (t: State)
    requires Outside(s) && RawString(raw) && s.contentNext
    requires !(s.depth >= 1 && s.isObj[s.depth] && s.nextIsKey)
    ensures Outside(t) && SamePlace(s.(found := true, doc := s.doc + Placeholder(), content := s.content + Unescape(raw)), t)
    ensures !t.onPathNext && !t.contentNext
    ensures Run(cap, Going(s), Quoted(raw)) ==
      if s.found then Failed(EDup, s.content)
      else if |s.doc| + |Placeholder()| > cap then Failed(EDoc, s.content)
      else if Streamable(raw) then Going(t)
      else Failed(EContent, s.content + Unescape(raw))
  {
    hide Run, StepString, Streamable, Unescape, Diverted;
    RunQuoted(cap, Going(s), raw);
    var s1 := s.(contentNext := false, onPathNext := false, found := true, divert := true);
    var s2 := s1.(doc := s.doc + Placeholder());
    t := s2.(content := s.content + Unescape(raw), divert := false);
    var r := Step(cap, Going(s), QUOTE);
    RunConcat(cap, r, raw, [QUOTE]);
    if r.Failed? {
      FailedStays(cap, r, raw + [QUOTE]);
    } else {
      assert r == Going(s2);
      DivertRun(cap, s2, raw);
      RunOne(cap, Diverted(s2, raw), QUOTE);
      ContentEnds(cap, s2, raw);
    }
  }

  lemma ContentEnds(cap: nat, s: State, raw: seq<byte>)
    requires s.Valid() && s.divert && !s.esc
    ensures Step(cap, Diverted(s, raw), QUOTE) ==
      if Streamable(raw) then Going(s.(content := s.content + Unescape(raw), divert := false))
      else Failed(EContent, s.content + Unescape(raw))
  {
    hide StepString, StepStructure, Streamable, Unescape;
  }

  // --- values ------------------------------------------------------------------------------------

  /** The containers around a place in the text: their number, and for each whether it is on the
      path and whether it is an object (entry 0 is unused). */
  datatype Place = Place(d: nat, path: seq<bool>, obj: seq<bool>) {
    predicate Valid() {
      |path| == d + 1 && |obj| == d + 1
    }
  }

  /** The scanner stands at this place with this outcome so far, outside strings. */
  predicate Agrees(cap: nat, r: Scan, o: Out, x: Place) {
    x.Valid() && r.Valid() &&
    match r
    case Failed(e, c) => o == Fail(e, c)
    case Going(s) =>
      Outside(s) && s.depth == x.d && |s.doc| <= cap && o == Out(s.doc, s.content, s.found) &&
      s.onPath[..x.d + 1] == x.path && s.isObj[..x.d + 1] == x.obj
  }

  predicate Expects(r: Scan, role: Role) {
    r.Going? ==> r.st.onPathNext == role.OnPath? && r.st.contentNext == role.Content?
  }

  /** A string here would be a key. */
  predicate AtKey(r: Scan, x: Place)
    requires x.Valid()
  {
    r.Going? ==> x.d >= 1 && x.obj[x.d] && r.st.nextIsKey
  }

  predicate AtValue(r: Scan, x: Place)
    requires x.Valid()
  {
    r.Going? ==> !(x.d >= 1 && x.obj[x.d] && r.st.nextIsKey)
  }

  lemma PutTwice(cap: nat, o: Out, a: seq<byte>, b: seq<byte>)
    ensures Put(cap, Put(cap, o, a), b) == Put(cap, o, a + b)
  {
    if o.Out? { ConcatAssoc(o.doc, a, b); }
  }

  /** Bytes appended to the document agree with Put. */
  lemma AppendAgrees(cap: nat, s: State, t: State, text: seq<byte>, x: Place)
    requires Outside(s) && Agrees(cap, Going(s), Out(s.doc, s.content, s.found), x) && SamePlace(s, t) && Outside(t)
    ensures var r := Append(cap, t, text);
            Agrees(cap, r, Put(cap, Out(s.doc, s.content, s.found), text), x) &&
            (r.Going? ==> r.st.onPathNext == t.onPathNext && r.st.contentNext == t.contentNext && r.st.nextIsKey == s.nextIsKey)
  {
  }

  lemma SpacesAgree(cap: nat, r: Scan, o: Out, x: Place, w: seq<byte>, role: Role)
    requires Agrees(cap, r, o, x) && Spaces(w) && Expects(r, role)
    ensures Agrees(cap, Run(cap, r, w), Put(cap, o, w), x) && Expects(Run(cap, r, w), role)
    ensures AtKey(r, x) ==> AtKey(Run(cap, r, w), x)
    ensures AtValue(r, x) ==> AtValue(Run(cap, r, w), x)
  {
    hide Run, Append, Put;
    if r.Failed? {
      FailedStays(cap, r, w);
      PutFails(cap, o, w);
    } else {
      SpacesRun(cap, r.st, w);
      AppendAgrees(cap, r.st, r.st, w, x);
    }
  }

  lemma PutFails(cap: nat, o: Out, w: seq<byte>)
    requires o.Fail?
    ensures Put(cap, o, w) == o
  {
  }

  /** A colon: the value comes next. */
  lemma ColonAgrees(cap: nat, r: Scan, o: Out, x: Place, role: Role)
    requires Agrees(cap, r, o, x) && Expects(r, role)
    ensures Agrees(cap, Step(cap, r, COLON), Put(cap, o, [COLON]), x) && Expects(Step(cap, r, COLON), role)
    ensures AtValue(Step(cap, r, COLON), x)
  {
    hide Append, StepString, StepDiverted, StepQuote, StepOpen;
    if r.Going? {
      var t := Expecting(r.st, false);
      AppendAgrees(cap, t, t, [COLON], x);
    }
  }

  lemma KeyAgrees(cap: nat, r: Scan, o: Out, x: Place, key: seq<byte>, w1: seq<byte>, w2: seq<byte>, on: bool)
    requires Agrees(cap, r, o, x) && AtKey(r, x) && x.d >= 1 && on == x.path[x.d]
    requires RawString(key) && 0 !in key && Spaces(w1) && Spaces(w2)
    ensures var r' := Run(cap, r, KeyText(key, w1, w2));
            Agrees(cap, r', Put(cap, o, KeyText(key, w1, w2)), x) && Expects(r', MemberRole(x.d, on, key)) && AtValue(r', x)
  {
    hide Run, Append, Put, Step, MemberRole, Quoted;
    var role := MemberRole(x.d, on, key);
    var q := Quoted(key);
    RunConcat(cap, r, q, w1 + ([COLON] + w2));
    PutTwice(cap, o, q, w1 + ([COLON] + w2));
    var r1, o1 := Run(cap, r, q), Put(cap, o, q);
    if r.Failed? {
      FailedStays(cap, r, q);
      PutFails(cap, o, q);
    } else {
      assert r.st.onPath[..x.d + 1][x.d] == r.st.onPath[x.d] && r.st.isObj[..x.d + 1][x.d] == r.st.isObj[x.d];
      var t := KeyRun(cap, r.st, key, x.d);
      AppendAgrees(cap, r.st, t, q, x);
    }
    RunConcat(cap, r1, w1, [COLON] + w2);
    PutTwice(cap, o1, w1, [COLON] + w2);
    SpacesAgree(cap, r1, o1, x, w1, role);
    var r2, o2 := Run(cap, r1, w1), Put(cap, o1, w1);
    RunConcat(cap, r2, [COLON], w2);
    PutTwice(cap, o2, [COLON], w2);
    RunOne(cap, r2, COLON);
    ColonAgrees(cap, r2, o2, x, role);
    SpacesAgree(cap, Step(cap, r2, COLON), Put(cap, o2, [COLON]), x, w2, role);
  }

  /** What follows a value in its container. */
  lemma AfterAgrees(cap: nat, r: Scan, o: Out, x: Place, ws: seq<byte>, more: bool, sep: seq<byte>)
    requires Agrees(cap, r, o, x) && Expects(r, Plain) && Spaces(ws) && Spaces(sep) && x.d >= 1
    ensures var text := ws + AfterComma(more, sep);
            Agrees(cap, Run(cap, r, text), Put(cap, o, text), x) && Expects(Run(cap, r, text), Plain) &&
            (more && x.obj[x.d] ==> AtKey(Run(cap, r, text), x)) && (!x.obj[x.d] ==> AtValue(Run(cap, r, text), x))
  {
    hide Run, Append, Put, Step;
    RunConcat(cap, r, ws, AfterComma(more, sep));
    PutTwice(cap, o, ws, AfterComma(more, sep));
    SpacesAgree(cap, r, o, x, ws, Plain);
    var r1, o1 := Run(cap, r, ws), Put(cap, o, ws);
    if more {
      RunConcat(cap, r1, [COMMA], sep);
      PutTwice(cap, o1, [COMMA], sep);
      RunOne(cap, r1, COMMA);
      CommaAgrees(cap, r1, o1, x);
      SpacesAgree(cap, Step(cap, r1, COMMA), Put(cap, o1, [COMMA]), x, sep, Plain);
    } else {
      SpacesAgree(cap, r1, o1, x, [], Plain);
    }
  }

  lemma CommaAgrees(cap: nat, r: Scan, o: Out, x: Place)
    requires Agrees(cap, r, o, x) && Expects(r, Plain) && x.d >= 1
    ensures Agrees(cap, Step(cap, r, COMMA), Put(cap, o, [COMMA]), x) && Expects(Step(cap, r, COMMA), Plain)
    ensures x.obj[x.d] ==> AtKey(Step(cap, r, COMMA), x)
    ensures !x.obj[x.d] ==> AtValue(Step(cap, r, COMMA), x)
  {
    hide Append, StepString, StepDiverted, StepQuote, StepOpen;
    if r.Going? {
      assert r.st.isObj[..x.d + 1][x.d] == r.st.isObj[x.d];
      var t := Expecting(r.st, r.st.isObj[x.d]);
      AppendAgrees(cap, t, t, [COMMA], x);
    }
  }

  /** The place inside a container opened at x. */
  function Inside(x: Place, on: bool, obj: bool): (y: Place)
    requires x.Valid()
    ensures y.Valid()
  {
    Place(x.d + 1, x.path + [on], x.obj + [obj])
  }

  lemma OpenAgrees(cap: nat, r: Scan, o: Out, x: Place, c: byte, ws: seq<byte>, role: Role)
    requires Agrees(cap, r, o, x) && Expects(r, role) && Spaces(ws) && (c == OBJ_OPEN || c == ARR_OPEN)
    requires r.Going?
    ensures x.d >= MAX_DEPTH ==> Run(cap, r, [c] + ws) == Failed(EDepth, o.content)
    ensures x.d < MAX_DEPTH ==>
      var y := Inside(x, c == OBJ_OPEN && (x.d == 0 || role.OnPath?), c == OBJ_OPEN);
      var r' := Run(cap, r, [c] + ws);
      Agrees(cap, r', Put(cap, o, [c] + ws), y) && Expects(r', Plain) && (c == OBJ_OPEN ==> AtKey(r', y)) && (c == ARR_OPEN ==> AtValue(r', y))
  {
    hide Run, Append, Put, Step;
    RunConcat(cap, r, [c], ws);
    PutTwice(cap, o, [c], ws);
    RunOne(cap, r, c);
    OpenStep(cap, r, o, x, c, role);
    if x.d >= MAX_DEPTH {
      FailedStays(cap, Step(cap, r, c), ws);
    } else {
      SpacesAgree(cap, Step(cap, r, c), Put(cap, o, [c]), Inside(x, c == OBJ_OPEN && (x.d == 0 || role.OnPath?), c == OBJ_OPEN), ws, Plain);
    }
  }

  lemma OpenStep(cap: nat, r: Scan, o: Out, x: Place, c: byte, role: Role)
    requires Agrees(cap, r, o, x) && Expects(r, role) && (c == OBJ_OPEN || c == ARR_OPEN) && r.Going?
    ensures x.d >= MAX_DEPTH ==> Step(cap, r, c) == Failed(EDepth, o.content)
    ensures x.d < MAX_DEPTH ==>
      var y := Inside(x, c == OBJ_OPEN && (x.d == 0 || role.OnPath?), c == OBJ_OPEN);
      var r' := Step(cap, r, c);
      Agrees(cap, r', Put(cap, o, [c]), y) && Expects(r', Plain) && (c == OBJ_OPEN ==> AtKey(r', y)) && (c == ARR_OPEN ==> AtValue(r', y))
  {
    hide Append, StepString, StepDiverted, StepQuote;
    if x.d < MAX_DEPTH {
      var s := r.st;
      var d, obj := x.d + 1, c == OBJ_OPEN;
      var on := obj && (d == 1 || s.onPathNext);
      var t := s.(depth := d, isObj := s.isObj[d := obj], onPath := s.onPath[d := on],
                  onPathNext := false, contentNext := false, nextIsKey := obj);
      assert t.isObj[..d + 1] == s.isObj[..d] + [obj];
      assert t.onPath[..d + 1] == s.onPath[..d] + [on];
      AppendAgrees(cap, t, t, [c], Inside(x, on, obj));
    }
  }

  lemma CloseAgrees(cap: nat, r: Scan, o: Out, x: Place, on: bool, obj: bool, c: byte)
    requires x.Valid() && Agrees(cap, r, o, Inside(x, on, obj)) && Expects(r, Plain) && (c == OBJ_CLOSE || c == ARR_CLOSE)
    ensures Agrees(cap, Step(cap, r, c), Put(cap, o, [c]), x) && Expects(Step(cap, r, c), Plain)
  {
    hide Append, StepString, StepDiverted, StepQuote, StepOpen;
    if r.Going? {
      var s := r.st;
      var t := Closed(s);
      var d := x.d + 1;
      assert t.isObj[..d] == s.isObj[..d + 1][..d] == x.obj;
      assert t.onPath[..d] == s.onPath[..d + 1][..d] == x.path;
      AppendAgrees(cap, t, t, [c], x);
    }
  }

  lemma StrAgrees(cap: nat, r: Scan, o: Out, x: Place, raw: seq<byte>, role: Role)
    requires Agrees(cap, r, o, x) && Expects(r, role) && AtValue(r, x) && r.Going? && RawString(raw)
    ensures var r' := Run(cap, r, Quoted(raw));
            Agrees(cap, r', Walk(cap, Str(raw), x.d, role, o), x) && Expects(r', Plain)
  {
    hide Run, Append, Put, Step, Quoted, Streamable, Unescape, Placeholder;
    assert r.st.isObj[..x.d + 1][x.d] == r.st.isObj[x.d];
    if role.Content? {
      var t := ContentRun(cap, r.st, raw);
    } else {
      var t := StringValueRun(cap, r.st, raw);
      AppendAgrees(cap, r.st, t, Quoted(raw), x);
    }
  }

  lemma PrimAgrees(cap: nat, r: Scan, o: Out, x: Place, text: seq<byte>)
    requires Agrees(cap, r, o, x) && r.Going? && PrimText(text)
    ensures var r' := Run(cap, r, text); Agrees(cap, r', Put(cap, o, text), x) && Expects(r', Plain)
  {
    hide Run, Append, Put;
    PrimRun(cap, r.st, text);
    AppendAgrees(cap, r.st, Consumed(r.st), text, x);
  }

  /** The scanner on a value's text is the walk of the value. */
  lemma {:induction false} ValueAgrees(cap: nat, r: Scan, o: Out, x: Place, v: Value, role: Role)
    requires Agrees(cap, r, o, x) && Expects(r, role) && AtValue(r, x) && WellFormed(v)
    ensures var r' := Run(cap, r, Text(v));
            Agrees(cap, r', Walk(cap, v, x.d, role, o), x) && Expects(r', Plain)
    decreases v, 0
  {
    hide Run, Append, Put, Step, Quoted, Streamable, Unescape, Placeholder, Outside;
    if r.Failed? {
      FailedStays(cap, r, Text(v));
    } else {
      match v
      case Str(raw) => StrAgrees(cap, r, o, x, raw, role);
      case Prim(text) => PrimAgrees(cap, r, o, x, text);
      case Arr(ws, items) =>
        OpenAgrees(cap, r, o, x, ARR_OPEN, ws, role);
        var inner := ItemsText(items);
        RunConcat(cap, r, [ARR_OPEN] + ws, inner + [ARR_CLOSE]);
        var r1 := Run(cap, r, [ARR_OPEN] + ws);
        if x.d >= MAX_DEPTH {
          FailedStays(cap, r1, inner + [ARR_CLOSE]);
        } else {
          var o1 := Put(cap, o, [ARR_OPEN] + ws);
          ItemsAgree(cap, r1, o1, x, items, false);
          CloseContainer(cap, r1, inner, WalkItems(cap, items, x.d + 1, o1), x, false, false, ARR_CLOSE);
        }
      case Obj(ws, members) =>
        OpenAgrees(cap, r, o, x, OBJ_OPEN, ws, role);
        var inner := MembersText(members);
        RunConcat(cap, r, [OBJ_OPEN] + ws, inner + [OBJ_CLOSE]);
        var r1 := Run(cap, r, [OBJ_OPEN] + ws);
        if x.d >= MAX_DEPTH {
          FailedStays(cap, r1, inner + [OBJ_CLOSE]);
        } else {
          var on := x.d == 0 || role.OnPath?;
          var o1 := Put(cap, o, [OBJ_OPEN] + ws);
          MembersAgree(cap, r1, o1, x, members, on);
          CloseContainer(cap, r1, inner, WalkMembers(cap, members, x.d + 1, on, o1), x, on, true, OBJ_CLOSE);
        }
    }
  }

  lemma CloseContainer(cap: nat, r1: Scan, inner: seq<byte>, o2: Out, x: Place, on: bool, obj: bool, c: byte)
    requires x.Valid() && r1.Valid() && Agrees(cap, Run(cap, r1, inner), o2, Inside(x, on, obj)) && Expects(Run(cap, r1, inner), Plain)
    requires c == OBJ_CLOSE || c == ARR_CLOSE
    ensures Agrees(cap, Run(cap, r1, inner + [c]), Put(cap, o2, [c]), x) && Expects(Run(cap, r1, inner + [c]), Plain)
  {
    hide Run, Put, Step, Outside;
    RunConcat(cap, r1, inner, [c]);
    RunOne(cap, Run(cap, r1, inner), c);
    CloseAgrees(cap, Run(cap, r1, inner), o2, x, on, obj, c);
  }

  lemma {:induction false} ItemsAgree(cap: nat, r: Scan, o: Out, x: Place, items: Items, on: bool)
    requires x.Valid() && Agrees(cap, r, o, Inside(x, on, false)) && Expects(r, Plain) && AtValue(r, Inside(x, on, false))
    requires ItemsFormed(items)
    ensures var r' := Run(cap, r, ItemsText(items));
            Agrees(cap, r', WalkItems(cap, items, x.d + 1, o), Inside(x, on, false)) && Expects(r', Plain)
    decreases items, 1
  {
    hide Run, Put, Step, Outside, WellFormed, Text, Walk;
    match items
    case NoItems => RunNothing(cap, r);
    case Item(v, ws, sep, more) =>
      var y := Inside(x, on, false);
      var after := ws + AfterComma(more.Item?, sep);
      RunConcat(cap, r, Text(v), after + ItemsText(more));
      ValueAgrees(cap, r, o, y, v, Plain);
      var r1, o1 := Run(cap, r, Text(v)), Walk(cap, v, y.d, Plain, o);
      RunConcat(cap, r1, after, ItemsText(more));
      AfterAgrees(cap, r1, o1, y, ws, more.Item?, sep);
      ItemsAgree(cap, Run(cap, r1, after), Put(cap, o1, after), x, more, on);
  }

  lemma RunNothing(cap: nat, r: Scan)
    requires r.Valid()
    ensures Run(cap, r, []) == r
  {
  }

  lemma {:induction false} MembersAgree(cap: nat, r: Scan, o: Out, x: Place, members: Members, on: bool)
    requires x.Valid() && Agrees(cap, r, o, Inside(x, on, true)) && Expects(r, Plain)
    requires MembersFormed(members) && (members.Member? ==> AtKey(r, Inside(x, on, true)))
    ensures var r' := Run(cap, r, MembersText(members));
            Agrees(cap, r', WalkMembers(cap, members, x.d + 1, on, o), Inside(x, on, true)) && Expects(r', Plain)
    decreases members, 1
  {
    hide Run, Put, Step, Outside, WellFormed, Text, Walk, KeyText, MemberRole;
    match members
    case NoMembers => RunNothing(cap, r);
    case Member(key, w1, w2, v, ws, sep, more) =>
      var y := Inside(x, on, true);
      var after := ws + AfterComma(more.Member?, sep);
      var role := MemberRole(y.d, on, key);
      RunConcat(cap, r, KeyText(key, w1, w2), Text(v) + (after + MembersText(more)));
      KeyAgrees(cap, r, o, y, key, w1, w2, on);
      var r0, o0 := Run(cap, r, KeyText(key, w1, w2)), Put(cap, o, KeyText(key, w1, w2));
      RunConcat(cap, r0, Text(v), after + MembersText(more));
      ValueAgrees(cap, r0, o0, y, v, role);
      var r1, o1 := Run(cap, r0, Text(v)), Walk(cap, v, y.d, role, o0);
      RunConcat(cap, r1, after, MembersText(more));
      AfterAgrees(cap, r1, o1, y, ws, more.Member?, sep);
      MembersAgree(cap, Run(cap, r1, after), Put(cap, o1, after), x, more, on);
  }
}
