/** JSON string escaping and unescaping in json.c (RFC 8259 section 7). */
module JsonText {
  import opened Bits
  import opened JsonStream
  import opened Jsmn
  import opened JsmnTokens
  import opened Slices

  // --- escaping ------------------------------------------------------------------------------

  function HexDigit(n: nat): byte
    requires n < 16
  {
    if n < 10 then 48 + n else 97 + n - 10
  }

  /** The two-character escape of c, or zero. */
  function ShortEscape(c: byte): byte {
    if c == QUOTE then QUOTE
    else if c == BACKSLASH then BACKSLASH
    else if c == 10 then 0x6E
    else if c == 9 then 0x74
    else if c == 13 then 0x72
    else if c == 8 then 0x62
    else if c == 12 then 0x66
    else 0
  }

  /** escape_char. */
  function EscapeChar(c: byte): (e: seq<byte>)
    ensures 1 <= |e| <= 6
  {
    if ShortEscape(c) != 0 then [BACKSLASH, ShortEscape(c)]
    else if c < 0x20 then [BACKSLASH, 0x75, 48, 48, HexDigit(c / 16), HexDigit(c % 16)]
    else [c]
  }

  function Escape(s: seq<byte>): seq<byte> {
    if s == [] then [] else EscapeChar(s[0]) + Escape(s[1..])
  }

  // --- unescaping ------------------------------------------------------------------------------

  function HexValue(c: byte): (n: nat)
    requires Hex(c)
    ensures n < 16
  {
    if c <= 57 then c - 48 else if c <= 70 then c - 65 + 10 else c - 97 + 10
  }

  function CodePoint(a: byte, b: byte, c: byte, d: byte): (n: nat)
    requires Hex(a) && Hex(b) && Hex(c) && Hex(d)
    ensures n < 0x1_0000
  {
    ((HexValue(a) * 16 + HexValue(b)) * 16 + HexValue(c)) * 16 + HexValue(d)
  }

  /** UTF-8 (RFC 3629) of a code point below 2^16; a surrogate becomes '?'. */
  function Utf8(cp: nat): (u: seq<byte>)
    requires cp < 0x1_0000
    ensures 1 <= |u| <= 3
  {
    if cp < 0x80 then [cp]
    else if cp < 0x800 then [0xC0 + cp / 64, 0x80 + cp % 64]
    else if 0xD800 <= cp <= 0xDFFF then [0x3F]
    else [0xE0 + cp / 4096, 0x80 + cp / 64 % 64, 0x80 + cp % 64]
  }

  /** The byte a two-character escape stands for. */
  function Plain(c: byte): byte
    requires SimpleEscape(c)
  {
    if c == 0x6E then 10
    else if c == 0x74 then 9
    else if c == 0x72 then 13
    else if c == 0x62 then 8
    else if c == 0x66 then 12
    else c
  }

  /** Raw bytes in the first character or escape of a string. */
  function PieceLen(raw: seq<byte>): (n: nat)
    requires TokenString(raw) && raw != []
    ensures 1 <= n <= |raw|
  {
    if raw[0] != BACKSLASH then 1 else if SimpleEscape(raw[1]) then 2 else 6
  }

  /** The bytes it stands for. */
  function Piece(raw: seq<byte>): (u: seq<byte>)
    requires TokenString(raw) && raw != []
    ensures 1 <= |u| <= 3
  {
    if raw[0] != BACKSLASH then [raw[0]]
    else if SimpleEscape(raw[1]) then [Plain(raw[1])]
    else Utf8(CodePoint(raw[2], raw[3], raw[4], raw[5]))
  }

  lemma AfterPiece(raw: seq<byte>)
    requires TokenString(raw) && raw != []
    ensures TokenString(raw[PieceLen(raw)..])
  {
  }

  /** The string a raw string stands for. */
  function Unescaped(raw: seq<byte>): seq<byte>
    requires TokenString(raw)
    decreases |raw|
  {
    if raw == [] then []
    else
      AfterPiece(raw);
      Piece(raw) + Unescaped(raw[PieceLen(raw)..])
  }

  /** Four bytes are free before each character: what json_get_string asks of its buffer. */
  predicate Roomy(raw: seq<byte>, o: nat, size: nat)
    requires TokenString(raw)
    decreases |raw|
  {
    raw == [] ||
    (AfterPiece(raw); o + 4 < size && Roomy(raw[PieceLen(raw)..], o + |Piece(raw)|, size))
  }

  // --- the round trip ---------------------------------------------------------------------------

  lemma EscapeCharPiece(c: byte, rest: seq<byte>)
    requires TokenString(rest)
    ensures TokenString(EscapeChar(c) + rest)
    ensures Piece(EscapeChar(c) + rest) == [c] && PieceLen(EscapeChar(c) + rest) == |EscapeChar(c)|
    ensures (EscapeChar(c) + rest)[|EscapeChar(c)|..] == rest
  {
    var t := EscapeChar(c) + rest;
    if ShortEscape(c) != 0 {
      assert t[2..] == rest;
    } else if c < 0x20 {
      assert t[6..] == rest;
      HexByte(c);
    } else {
      assert t[1..] == rest;
    }
  }

  lemma HexByte(c: byte)
    requires c < 0x20
    ensures Hex(HexDigit(c / 16)) && Hex(HexDigit(c % 16)) && CodePoint(48, 48, HexDigit(c / 16), HexDigit(c % 16)) == c
  {
  }

  lemma {:induction false} EscapeIsString(s: seq<byte>)
    ensures TokenString(Escape(s))
  {
    hide EscapeChar, TokenString;
    if s == [] {
      EmptyString();
    } else {
      EscapeIsString(s[1..]);
      EscapeCharPiece(s[0], Escape(s[1..]));
    }
  }

  lemma EmptyString()
    ensures TokenString([])
  {
  }

  /** json_escape's output between quotes stands for the string that was escaped. */
  lemma {:induction false} EscapeRoundTrip(s: seq<byte>)
    ensures TokenString(Escape(s)) && Unescaped(Escape(s)) == s
  {
    hide EscapeChar, Piece, PieceLen, TokenString;
    EscapeIsString(s);
    if s != [] {
      EscapeRoundTrip(s[1..]);
      EscapeCharPiece(s[0], Escape(s[1..]));
      assert s == [s[0]] + s[1..];
    }
  }

  /** Reading an escaped string back needs four bytes more than the string. */
  lemma {:induction false} EscapeRoomy(s: seq<byte>, o: nat, size: nat)
    ensures TokenString(Escape(s)) && (Roomy(Escape(s), o, size) <==> s == [] || o + |s| + 3 < size)
  {
    hide EscapeChar, Piece, PieceLen, TokenString;
    EscapeIsString(s);
    if s != [] {
      EscapeRoomy(s[1..], o + 1, size);
      EscapeCharPiece(s[0], Escape(s[1..]));
      EscapeIsString(s[1..]);
    }
  }

  /** Any string fits with four bytes to spare. */
  lemma {:induction false} SpareIsRoomy(raw: seq<byte>, o: nat, size: nat)
    requires TokenString(raw) && o + |Unescaped(raw)| + 4 <= size
    ensures Roomy(raw, o, size)
    decreases |raw|
  {
    hide Piece, PieceLen, TokenString;
    if raw != [] {
      AfterPiece(raw);
      SpareIsRoomy(raw[PieceLen(raw)..], o + |Piece(raw)|, size);
    }
  }

  lemma {:induction false} RoomyFits(raw: seq<byte>, o: nat, size: nat)
    requires TokenString(raw) && Roomy(raw, o, size) && o < size
    ensures o + |Unescaped(raw)| < size
    decreases |raw|
  {
    hide Piece, PieceLen, TokenString;
    if raw != [] {
      AfterPiece(raw);
      RoomyFits(raw[PieceLen(raw)..], o + |Piece(raw)|, size);
    }
  }

  /** Between quotes, an escaped string is scanned as one token that spans it, and read back whole. */
  lemma {:induction false} EscapedScans(js: seq<byte>, p: nat, s: seq<byte>)
    requires TextAt(js, p, Escape(s) + [QUOTE])
    ensures ScanString(js, p) == Found(p + |Escape(s)|)
    ensures js[p..p + |Escape(s)|] == Escape(s)
  {
    hide TokenString, ScanString, Escape;
    EscapeIsString(s);
    ScanStringFinds(js, p, Escape(s));
    TextParts(js, p, Escape(s), [QUOTE]);
  }

  // --- the loops ---------------------------------------------------------------------------------

  lemma EscapeMore(s: seq<byte>, i: nat)
    requires i < |s|
    ensures Escape(s[..i + 1]) == Escape(s[..i]) + EscapeChar(s[i])
  {
    hide EscapeChar;
    assert s[..i + 1] == s[..i] + [s[i]];
    EscapeConcat(s[..i], [s[i]]);
    assert Escape([s[i]]) == EscapeChar(s[i]) + Escape([]);
    assert EscapeChar(s[i]) + [] == EscapeChar(s[i]);
  }

  lemma {:induction false} EscapeConcat(a: seq<byte>, b: seq<byte>)
    ensures Escape(a + b) == Escape(a) + Escape(b)
  {
    hide EscapeChar;
    if a == [] {
      assert a + b == b;
    } else {
      EscapeConcat(a[1..], b);
      assert (a + b)[1..] == a[1..] + b;
      ConcatAssoc(EscapeChar(a[0]), Escape(a[1..]), Escape(b));
    }
  }

  /** json_escaped_len. */
  method EscapedLen(s: seq<byte>) returns (n: nat)
    ensures n == |Escape(s)|
  {
    hide EscapeChar, Escape;
    n := 0;
    NothingEscaped();
    for i := 0 to |s|
      invariant n == |Escape(s[..i])|
    {
      EscapeMore(s, i);
      n := n + |EscapeChar(s[i])|;
    }
    assert s[..|s|] == s;
  }

  lemma NothingEscaped()
    ensures Escape([]) == []
  {
  }

  /** json_escape: the length, or -1 if the text and its NUL do not fit. */
  method EscapeInto(s: seq<byte>, out: array<byte>) returns (r: int)
    requires out.Length >= 1
    modifies out
    ensures if |Escape(s)| + 1 <= out.Length then r == |Escape(s)| && out[..r] == Escape(s) && out[r] == 0 else r == -1
  {
    hide EscapeChar, Escape;
    var o: nat := 0;
    NothingEscaped();
    for i := 0 to |s|
      invariant o < out.Length && out[..o] == Escape(s[..i])
    {
      var tmp := EscapeChar(s[i]);
      EscapeMore(s, i);
      if o + |tmp| + 1 > out.Length {
        assert s == s[..i + 1] + s[i + 1..];
        EscapeConcat(s[..i + 1], s[i + 1..]);
        return -1;
      }
      PutAll(out, o, tmp);
      o := o + |tmp|;
    }
    assert s[..|s|] == s;
    out[o] := 0;
    r := o;
  }

  method PutAll(out: array<byte>, o: nat, bytes: seq<byte>)
    requires o + |bytes| <= out.Length
    modifies out
    ensures out[..o + |bytes|] == old(out[..o]) + bytes
  {
    forall k | 0 <= k < |bytes| { out[o + k] := bytes[k]; }
  }

  lemma PieceAt(raw: seq<byte>, i: nat)
    requires i < |raw| && TokenString(raw[i..])
    ensures raw[i..][PieceLen(raw[i..])..] == raw[i + PieceLen(raw[i..])..]
    ensures raw[i..][0] == raw[i]
  {
  }

  /** One character or escape at i: the bytes it stands for, and the index after it. */
  method ReadPiece(raw: seq<byte>, i: nat) returns (u: seq<byte>, j: nat)
    requires i < |raw| && TokenString(raw[i..])
    ensures u == Piece(raw[i..]) && j == i + PieceLen(raw[i..]) <= |raw|
  {
    hide Utf8, CodePoint;
    var c := raw[i];
    if c != BACKSLASH {
      return [c], i + 1;
    }
    var e := raw[i + 1];
    if e != 0x75 {
      return [Plain(e)], i + 2;
    }
    var cp := CodePoint(raw[i + 2], raw[i + 3], raw[i + 4], raw[i + 5]);
    u := Utf8(cp);
    j := i + 6;
  }

  /** json_get_string on a token's raw text, as jsmn_parse accepts it. */
  method GetString(raw: seq<byte>, out: array<byte>) returns (ok: bool)
    requires TokenString(raw) && out.Length >= 1
    modifies out
    ensures ok == Roomy(raw, 0, out.Length)
    ensures ok ==> |Unescaped(raw)| < out.Length && out[..|Unescaped(raw)|] == Unescaped(raw) && out[|Unescaped(raw)|] == 0
  {
    hide Piece, PieceLen, TokenString, Roomy, Unescaped;
    var i: nat, o: nat := 0, 0;
    assert raw[0..] == raw;
    while i < |raw|
      invariant i <= |raw| && o < out.Length && TokenString(raw[i..])
      invariant out[..o] + Unescaped(raw[i..]) == Unescaped(raw)
      invariant Roomy(raw, 0, out.Length) == Roomy(raw[i..], o, out.Length)
      decreases |raw| - i
    {
      RoomyStep(raw[i..], o, out.Length);
      if o + 4 >= out.Length {
        return false;
      }
      PieceAt(raw, i);
      UnescapedStep(raw[i..]);
      ghost var before, rest := out[..o], Unescaped(raw[i..][PieceLen(raw[i..])..]);
      var u, j := ReadPiece(raw, i);
      PutAll(out, o, u);
      ConcatAssoc(before, u, rest);
      o := o + |u|;
      i := j;
    }
    assert raw[i..] == [];
    RoomyEnd(o, out.Length);
    assert out[..o] + [] == out[..o];
    out[o] := 0;
    ok := true;
  }

  lemma UnescapedStep(raw: seq<byte>)
    requires TokenString(raw) && raw != []
    ensures TokenString(raw[PieceLen(raw)..]) && Unescaped(raw) == Piece(raw) + Unescaped(raw[PieceLen(raw)..])
  {
    AfterPiece(raw);
  }

  lemma RoomyEnd(o: nat, size: nat)
    ensures TokenString([]) && Roomy([], o, size) && Unescaped([]) == []
  {
  }

  lemma RoomyStep(raw: seq<byte>, o: nat, size: nat)
    requires TokenString(raw) && raw != []
    ensures TokenString(raw[PieceLen(raw)..])
    ensures Roomy(raw, o, size) <==> o + 4 < size && Roomy(raw[PieceLen(raw)..], o + |Piece(raw)|, size)
  {
    AfterPiece(raw);
  }
}
