/** How a string may be spelled between JSON's quotes, written from RFC 8259 section 7 and RFC 3629: what
    an upload's content may look like, and every \uXXXX of a string that is read. */
module Spellings {
  import opened Bits
  import opened Slices
  import opened Wrappers
  import opened JsonStream
  import opened Jsmn
  import opened JsonText
  import opened JsonRedaction
  import opened Uploads
  import opened Jstreams

  // --- an upload's content ------------------------------------------------------------------------------

  /** Text that needs no escape but those chosen: no quote, no backslash. */
  predicate Unquoted(text: seq<byte>) {
    forall k :: 0 <= k < |text| ==> text[k] != 34 && text[k] != 92
  }

  /** A character, escaped if that is chosen and it has an escape: \/, \n or \r. */
  function SpellChar(c: byte, escape: bool): seq<byte> {
    if !escape then [c] else if c == 47 then [92, 47] else if c == 10 then [92, 110] else if c == 13 then [92, 114] else [c]
  }

  /** The text with the slashes and line breaks chosen escaped. */
  function Spell(text: seq<byte>, chosen: seq<bool>): seq<byte>
    requires |chosen| == |text|
  {
    if text == [] then [] else SpellChar(text[0], chosen[0]) + Spell(text[1..], chosen[1..])
  }

  lemma SpellFirst(c: byte, escape: bool, text: seq<byte>, chosen: seq<bool>)
    requires |chosen| == |text|
    ensures Spell([c] + text, [escape] + chosen) == SpellChar(c, escape) + Spell(text, chosen)
  {
    assert ([c] + text)[1..] == text && ([escape] + chosen)[1..] == chosen;
  }

  /** However it is spelled, it is unescaped to itself. */
  lemma {:induction false} SpelledRead(text: seq<byte>, chosen: seq<bool>)
    requires |chosen| == |text| && Unquoted(text)
    ensures var raw := Spell(text, chosen); RawString(raw) && Streamable(raw) && Unescape(raw) == text
    decreases |text|
  {
    if text != [] {
      SpelledRead(text[1..], chosen[1..]);
      var raw, more := Spell(text, chosen), Spell(text[1..], chosen[1..]);
      if raw[0] == 92 {
        assert raw[2..] == more;
      } else {
        assert raw[1..] == more;
      }
      assert [text[0]] + text[1..] == text;
    }
  }

  lemma OneMore(raw: seq<byte>) returns (c: byte, n: nat)
    requires raw != [] && RawString(raw) && Streamable(raw)
    ensures n <= |raw| && n > 0 && RawString(raw[n..]) && Streamable(raw[n..])
    ensures c != 34 && c != 92 && raw[..n] == SpellChar(c, n == 2) && Unescape(raw) == [c] + Unescape(raw[n..])
  {
    if raw[0] == 92 {
      n := 2;
      c := if raw[1] == 47 then 47 else if raw[1] == 110 then 10 else 13;
      assert SunkEscape(raw[1]) == [c];
    } else {
      c, n := raw[0], 1;
    }
  }

  /** Whatever the scanner streams is such a spelling of what it unescapes it to. */
  lemma {:induction false} ReadSpelled(raw: seq<byte>) returns (chosen: seq<bool>)
    requires RawString(raw) && Streamable(raw)
    ensures |chosen| == |Unescape(raw)| && Unquoted(Unescape(raw)) && raw == Spell(Unescape(raw), chosen)
    decreases |raw|
  {
    chosen := [];
    if raw != [] {
      hide RawString, Streamable, Unescape, Spell, SpellChar;
      var c, n := OneMore(raw);
      var more := ReadSpelled(raw[n..]);
      chosen := [n == 2] + more;
      SpellFirst(c, n == 2, Unescape(raw[n..]), more);
      assert raw == raw[..n] + raw[n..];
    }
  }

  /** raw is the text, with some of its slashes and line breaks escaped. */
  ghost predicate Spells(raw: seq<byte>, text: seq<byte>) {
    Unquoted(text) && exists chosen :: |chosen| == |text| && raw == Spell(text, chosen)
  }

  /** A string is streamed as this text exactly if it is one of its spellings. */
  lemma StreamedIff(raw: seq<byte>, text: seq<byte>)
    requires RawString(raw)
    ensures Streamable(raw) && Unescape(raw) == text <==> Spells(raw, text)
  {
    hide Streamable, Unescape, RawString, Spell;
    if Streamable(raw) && Unescape(raw) == text {
      var chosen := ReadSpelled(raw);
      assert |chosen| == |text| && raw == Spell(text, chosen);
    }
    if Spells(raw, text) {
      var chosen :| |chosen| == |text| && raw == Spell(text, chosen);
      SpelledRead(text, chosen);
    }
  }

  /** Strings at the path are those of the body. */
  lemma {:induction false} ContentsRaw(v: Value, g: Goal)
    requires WellFormed(v)
    ensures forall k :: 0 <= k < |Contents(v, g)| ==> RawString(Contents(v, g)[k])
    decreases v, 0
  {
    match v
    case Obj(_, members) => MembersRaw(members, g);
    case _ =>
  }

  lemma {:induction false} MembersRaw(ms: Members, g: Goal)
    requires MembersFormed(ms)
    ensures forall k :: 0 <= k < |MembersContents(ms, g)| ==> RawString(MembersContents(ms, g)[k])
    decreases ms, 1
  {
    match ms
    case NoMembers =>
    case Member(key, _, _, v, _, _, more) =>
      ContentsRaw(v, MemberGoal(g, key));
      MembersRaw(more, g);
      var a, b := Contents(v, MemberGoal(g, key)), MembersContents(more, g);
      assert forall k :: 0 <= k < |a + b| ==> (a + b)[k] == if k < |a| then a[k] else b[k - |a|];
  }

  /** The scanner's punctuation. */
  lemma PunctuationIs()
    ensures [OBJ_OPEN, OBJ_CLOSE, ARR_OPEN, ARR_CLOSE, COLON, COMMA, QUOTE, BACKSLASH] == Ascii("{}[]:,\"\\")
  {
  }

  /** The content is the string at $.params.arguments.content, and "<streamed>" takes its place. */
  lemma PathIs()
    ensures Path() == [Ascii("params"), Ascii("arguments"), Ascii("content")] && Streamed() == Ascii("<streamed>")
  {
    assert Target(1) == Ascii("params") && Target(2) == Ascii("arguments") && Target(3) == Ascii("content");
  }

  /** For every JSON body: x is saved exactly if the body keeps the scanner's limits and its one content
      string spells a non-empty text that encodes x, line breaks aside. */
  lemma UploadSpelled(cap: nat, env: Surroundings, w1: seq<byte>, v: Value, w2: seq<byte>, doc: seq<byte>, x: seq<byte>)
    requires WellFormed(v) && Spaces(w1) && Spaces(w2)
    ensures Outcome(cap, env, Body(w1, v, w2), false) == Parsed(doc, true, Some(x)) <==>
      Depth(v) <= 15 && |Reduced(w1, v, w2)| <= cap && doc == Reduced(w1, v, w2) && |ContentStrings(v)| == 1 &&
      exists text :: Spells(ContentStrings(v)[0], text) && Encodes(env, text, x)
  {
    hide Streamable, Unescape, RawString, Spell, WellFormed, Depth, Reduced, Encodes, Spells, Contents;
    UploadIff(cap, env, w1, v, w2, doc, x);
    ContentsRaw(v, At(Path()));
    var cs := ContentStrings(v);
    if |cs| == 1 {
      StreamedIff(cs[0], Unescape(cs[0]));
      forall text | Spells(cs[0], text)
        ensures Streamable(cs[0]) && Unescape(cs[0]) == text
      {
        StreamedIff(cs[0], text);
      }
    }
  }

  /** Where nothing is streamed, what is read from the same string is the same. */
  lemma {:induction false} StreamedReads(raw: seq<byte>)
    requires RawString(raw) && Streamable(raw) && 0 !in raw
    ensures TokenString(raw) && Unescaped(raw) == Unescape(raw)
    decreases |raw|
  {
    if raw != [] {
      StreamedReads(if raw[0] == 92 then raw[2..] else raw[1..]);
    }
  }

  // --- characters by number ----------------------------------------------------------------------------------

  const LOWER: string := "0123456789abcdef"
  const UPPER: string := "0123456789ABCDEF"

  /** The digit of this value, in either case. */
  function Digit(n: nat, upper: bool): byte
    requires n < 16
  {
    var c := if upper then UPPER[n] else LOWER[n];
    assert (c as int) < 256;
    c as int
  }

  /** \uXXXX for this number, each digit in a case of its own. */
  function Numbered(cp: nat, u: seq<bool>): (s: seq<byte>)
    requires cp < 0x1_0000 && |u| == 4
    ensures |s| == 6
  {
    [92, 117, Digit(cp / 4096, u[0]), Digit(cp / 256 % 16, u[1]), Digit(cp / 16 % 16, u[2]), Digit(cp % 16, u[3])]
  }

  /** The character these bytes are, section 3 of RFC 3629: of one, two or three bytes, in the shortest form,
      and no surrogate. */
  function ReadUtf8(u: seq<byte>): Option<nat> {
    if |u| == 1 && u[0] < 0x80 then Some(u[0])
    else if |u| == 2 && 0xC2 <= u[0] <= 0xDF && 0x80 <= u[1] <= 0xBF then Some((u[0] as int - 0xC0) * 64 + (u[1] as int - 0x80))
    else if |u| == 3 && 0xE0 <= u[0] <= 0xEF && 0x80 <= u[1] <= 0xBF && 0x80 <= u[2] <= 0xBF then
      var cp := (u[0] as int - 0xE0) * 4096 + (u[1] as int - 0x80) * 64 + (u[2] as int - 0x80);
      if cp < 0x800 || 0xD800 <= cp <= 0xDFFF then None else Some(cp)
    else None
  }

  lemma DigitRead(n: nat, upper: bool)
    requires n < 16
    ensures Hex(Digit(n, upper)) && HexValue(Digit(n, upper)) == n
  {
  }

  lemma FourDigits(cp: nat)
    requires cp < 0x1_0000
    ensures cp / 4096 < 16 && ((cp / 4096 * 16 + cp / 256 % 16) * 16 + cp / 16 % 16) * 16 + cp % 16 == cp
  {
  }

  lemma NumberRead(cp: nat, u: seq<bool>)
    requires cp < 0x1_0000 && |u| == 4
    ensures var s := Numbered(cp, u);
            Hex(s[2]) && Hex(s[3]) && Hex(s[4]) && Hex(s[5]) && CodePoint(s[2], s[3], s[4], s[5]) == cp
  {
    hide Digit, HexValue;
    FourDigits(cp);
    DigitRead(cp / 4096, u[0]);
    DigitRead(cp / 256 % 16, u[1]);
    DigitRead(cp / 16 % 16, u[2]);
    DigitRead(cp % 16, u[3]);
  }

  lemma ThreeParts(cp: nat)
    requires cp < 0x1_0000
    ensures cp == cp / 4096 * 4096 + cp / 64 % 64 * 64 + cp % 64
  {
    DivModUnique(cp, 4096, cp / 4096, cp % 4096);
    DivModUnique(cp / 64, 64, cp / 4096, cp % 4096 / 64);
  }

  lemma Utf8Read(cp: nat)
    requires cp < 0x1_0000
    ensures if 0xD800 <= cp <= 0xDFFF then Utf8(cp) == [63] else ReadUtf8(Utf8(cp)) == Some(cp)
  {
    ThreeParts(cp);
  }

  /** Every \uXXXX in a string is read as its character's UTF-8, a surrogate as a question mark, and the
      rest of the string as before. */
  lemma NumberedRead(cp: nat, u: seq<bool>, rest: seq<byte>)
    requires cp < 0x1_0000 && |u| == 4 && TokenString(rest)
    ensures var raw := Numbered(cp, u) + rest;
            TokenString(raw) && |Unescaped(raw)| >= |Unescaped(rest)| &&
            var n := |Unescaped(raw)| - |Unescaped(rest)|;
            Unescaped(raw)[n..] == Unescaped(rest) &&
            if 0xD800 <= cp <= 0xDFFF then Unescaped(raw)[..n] == [63] else ReadUtf8(Unescaped(raw)[..n]) == Some(cp)
  {
    hide Utf8, ReadUtf8, CodePoint, Hex, Numbered;
    var raw := Numbered(cp, u) + rest;
    NumberRead(cp, u);
    Utf8Read(cp);
    NumberedStarts(cp, u);
    assert raw[6..] == rest && raw[2] == Numbered(cp, u)[2] && raw[3] == Numbered(cp, u)[3];
    assert raw[4] == Numbered(cp, u)[4] && raw[5] == Numbered(cp, u)[5];
    assert TokenString(raw) && Piece(raw) == Utf8(cp) && PieceLen(raw) == 6;
  }

  lemma NumberedStarts(cp: nat, u: seq<bool>)
    requires cp < 0x1_0000 && |u| == 4
    ensures Numbered(cp, u)[0] == 92 && Numbered(cp, u)[1] == 117
  {
  }
}
