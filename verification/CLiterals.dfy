/** The C string literals generate_resource.py writes: c_escape and c_string_lines. */
module CLiterals {
  import opened Wrappers

  type Text = string

  /** str.replace of one character. */
  function Replace(s: Text, c: char, sub: Text): Text {
    if s == "" then "" else (if s[0] == c then sub else [s[0]]) + Replace(s[1..], c, sub)
  }

  function OctalDigit(n: nat): char
    requires n < 8
  {
    (n + '0' as int) as char
  }

  /** The substitution of control characters by three octal digits. */
  function Octals(s: Text): Text {
    if s == "" then ""
    else
      var c := s[0] as int;
      (if c < 0x20 then ['\\', OctalDigit(c / 64), OctalDigit(c / 8 % 8), OctalDigit(c % 8)] else [s[0]]) + Octals(s[1..])
  }

  /** c_escape: backslashes, then quotes, then tabs, then the other control characters. */
  function CEscape(s: Text): Text {
    Octals(Replace(Replace(Replace(s, '\\', "\\\\"), '"', "\\\""), '\t', "\\t"))
  }

  predicate IsOctal(c: char) {
    '0' <= c <= '7'
  }

  function Digit(c: char): nat
    requires IsOctal(c)
  {
    c as int - '0' as int
  }

  /** The contents of a C string literal, up to the quote that ends it; None if it is ill-formed. */
  function ReadLiteral(s: Text): Option<Text>
    decreases |s|
  {
    if s == "" then Some("")
    else if s[0] == '"' || s[0] as int < 0x20 then None
    else if s[0] != '\\' then Prefix([s[0]], ReadLiteral(s[1..]))
    else if |s| < 2 then None
    else if s[1] == '\\' || s[1] == '"' then Prefix([s[1]], ReadLiteral(s[2..]))
    else if s[1] == 't' then Prefix("\t", ReadLiteral(s[2..]))
    else if !IsOctal(s[1]) then None
    else if |s| < 3 || !IsOctal(s[2]) then Prefix([Digit(s[1]) as char], ReadLiteral(s[2..]))
    else if |s| < 4 || !IsOctal(s[3]) then Prefix([(8 * Digit(s[1]) + Digit(s[2])) as char], ReadLiteral(s[3..]))
    else if 64 * Digit(s[1]) + 8 * Digit(s[2]) + Digit(s[3]) >= 256 then None
    else Prefix([(64 * Digit(s[1]) + 8 * Digit(s[2]) + Digit(s[3])) as char], ReadLiteral(s[4..]))
  }

  function Prefix(a: Text, r: Option<Text>): Option<Text> {
    if r.Some? then Some(a + r.value) else None
  }

  /** What c_escape makes of one character. */
  function EscapeOne(c: char): Text {
    if c == '\\' then "\\\\"
    else if c == '"' then "\\\""
    else if c == '\t' then "\\t"
    else if c as int < 0x20 then ['\\', OctalDigit(c as int / 64), OctalDigit(c as int / 8 % 8), OctalDigit(c as int % 8)]
    else [c]
  }

  lemma {:induction false} ReplaceConcat(a: Text, b: Text, c: char, sub: Text)
    ensures Replace(a + b, c, sub) == Replace(a, c, sub) + Replace(b, c, sub)
  {
    if a == "" {
      assert a + b == b;
    } else {
      ReplaceConcat(a[1..], b, c, sub);
      assert (a + b)[1..] == a[1..] + b;
      var first := if a[0] == c then sub else [a[0]];
      assert first + (Replace(a[1..], c, sub) + Replace(b, c, sub)) == first + Replace(a[1..], c, sub) + Replace(b, c, sub);
    }
  }

  lemma {:induction false} OctalsConcat(a: Text, b: Text)
    ensures Octals(a + b) == Octals(a) + Octals(b)
  {
    hide OctalDigit;
    if a == "" {
      assert a + b == b;
    } else {
      OctalsConcat(a[1..], b);
      assert (a + b)[1..] == a[1..] + b;
      assert Octals(a) == Octals([a[0]]) + Octals(a[1..]) by { OctalsOne(a[0]); }
      OctalsOne(a[0]);
      assert Octals([a[0]]) + (Octals(a[1..]) + Octals(b)) == Octals([a[0]]) + Octals(a[1..]) + Octals(b);
    }
  }

  lemma OctalsOne(c: char)
    ensures Octals([c]) == if c as int < 0x20 then ['\\', OctalDigit(c as int / 64), OctalDigit(c as int / 8 % 8), OctalDigit(c as int % 8)] else [c]
  {
    hide OctalDigit;
    assert [c][1..] == "";
  }

  lemma ReplaceOne(x: char, c: char, sub: Text)
    ensures Replace([x], c, sub) == if x == c then sub else [x]
  {
    assert [x][1..] == "";
    assert sub + "" == sub;
  }

  lemma ReplaceTwo(x: char, y: char, c: char, sub: Text)
    requires x != c && y != c
    ensures Replace([x, y], c, sub) == [x, y]
  {
    assert [x, y] == [x] + [y];
    ReplaceConcat([x], [y], c, sub);
    ReplaceOne(x, c, sub);
    ReplaceOne(y, c, sub);
  }

  /** The four substitutions in turn treat each character on its own. */
  lemma EscapesOne(c: char)
    ensures CEscape([c]) == EscapeOne(c)
  {
    hide Replace, Octals, OctalDigit;
    ReplaceOne(c, '\\', "\\\\");
    ReplaceOne(c, '"', "\\\"");
    ReplaceOne(c, '\t', "\\t");
    OctalsOne(c);
    assert "\\\\" == ['\\', '\\'] && "\\\"" == ['\\', '"'] && "\\t" == ['\\', 't'];
    ReplaceTwo('\\', '\\', '"', "\\\"");
    ReplaceTwo('\\', '\\', '\t', "\\t");
    ReplaceTwo('\\', '"', '\t', "\\t");
    OctalsTwo('\\', '\\');
    OctalsTwo('\\', '"');
    OctalsTwo('\\', 't');
  }

  lemma OctalsTwo(x: char, y: char)
    requires x as int >= 0x20 && y as int >= 0x20
    ensures Octals([x, y]) == [x, y]
  {
    assert [x, y] == [x] + [y];
    OctalsConcat([x], [y]);
    OctalsOne(x);
    OctalsOne(y);
  }

  lemma CEscapeConcat(a: Text, b: Text)
    ensures CEscape(a + b) == CEscape(a) + CEscape(b)
  {
    hide Replace, Octals;
    ReplaceConcat(a, b, '\\', "\\\\");
    var a1, b1 := Replace(a, '\\', "\\\\"), Replace(b, '\\', "\\\\");
    ReplaceConcat(a1, b1, '"', "\\\"");
    var a2, b2 := Replace(a1, '"', "\\\""), Replace(b1, '"', "\\\"");
    ReplaceConcat(a2, b2, '\t', "\\t");
    OctalsConcat(Replace(a2, '\t', "\\t"), Replace(b2, '\t', "\\t"));
  }

  /** A character escaped at the head of a literal is read back alone. */
  lemma ReadsOne(c: char, rest: Text)
    ensures ReadLiteral(EscapeOne(c) + rest) == Prefix([c], ReadLiteral(rest))
  {
    hide OctalDigit, Digit;
    var t := EscapeOne(c) + rest;
    if c == '\\' || c == '"' || c == '\t' {
      assert t[2..] == rest;
    } else if c as int < 0x20 {
      assert t[4..] == rest;
      OctalValue(c as int);
      var n := c as int;
      assert t[1] == OctalDigit(n / 64) && t[2] == OctalDigit(n / 8 % 8) && t[3] == OctalDigit(n % 8);
    } else {
      assert t[1..] == rest;
    }
  }

  lemma OctalValue(n: nat)
    requires n < 0x20
    ensures IsOctal(OctalDigit(n / 64)) && IsOctal(OctalDigit(n / 8 % 8)) && IsOctal(OctalDigit(n % 8))
    ensures 64 * Digit(OctalDigit(n / 64)) + 8 * Digit(OctalDigit(n / 8 % 8)) + Digit(OctalDigit(n % 8)) == n
    ensures OctalDigit(n / 64) == '0'
  {
  }

  /** The literal c_escape writes is well-formed and stands for the text. */
  lemma {:induction false} EscapeReads(s: Text)
    ensures ReadLiteral(CEscape(s)) == Some(s)
  {
    hide CEscape, EscapeOne, ReadLiteral;
    if s == "" {
      EmptyReads();
    } else {
      assert s == [s[0]] + s[1..];
      CEscapeConcat([s[0]], s[1..]);
      EscapesOne(s[0]);
      EscapeReads(s[1..]);
      ReadsOne(s[0], CEscape(s[1..]));
    }
  }

  lemma EmptyReads()
    ensures ReadLiteral(CEscape("")) == Some("")
  {
  }

  /** The texts of adjacent literals, as the compiler joins them. */
  function ReadLiterals(lines: seq<Text>): Option<Text> {
    if lines == [] then Some("")
    else
      var first, more := ReadLiteral(lines[0]), ReadLiterals(lines[1..]);
      if first.Some? && more.Some? then Some(first.value + more.value) else None
  }

  /** c_string_lines: the payload in pieces of `width`, each escaped. */
  function CStringLines(payload: Text, width: nat): (lines: seq<Text>)
    requires width > 0
    decreases |payload|
  {
    if payload == "" then []
    else if |payload| <= width then [CEscape(payload)]
    else [CEscape(payload[..width])] + CStringLines(payload[width..], width)
  }

  /** However it is cut, the compiler puts the payload together again. */
  lemma {:induction false} LinesRead(payload: Text, width: nat)
    requires width > 0
    ensures ReadLiterals(CStringLines(payload, width)) == Some(payload)
    decreases |payload|
  {
    hide CEscape, ReadLiteral;
    if payload != "" {
      var n := if |payload| <= width then |payload| else width;
      EscapeReads(payload[..n]);
      assert payload[..n] + payload[n..] == payload;
      var lines := CStringLines(payload, width);
      if |payload| <= width {
        assert payload[..n] == payload && lines[1..] == [];
        assert payload + "" == payload;
      } else {
        LinesRead(payload[n..], width);
        assert lines[1..] == CStringLines(payload[n..], width);
      }
    }
  }
}
