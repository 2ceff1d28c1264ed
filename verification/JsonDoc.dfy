/** jsmn_parse over its token array, and json.c's walkers over the parsed document. */
module JsonDocs {
  import opened Bits
  import opened JsonStream
  import opened Jsmn
  import opened JsonWalk
  import opened JsmnSound
  import opened JsonText

  const JSON_MAX_TOKENS: nat := 1024

  class JsmnParser {
    const tokens: array<Token>
    var pos: nat
    var toknext: nat
    var toksuper: int

    ghost predicate Valid()
      reads this
    {
      toknext <= tokens.Length && -1 <= toksuper < toknext
    }

    ghost function Abs(): (s: Parsing)
      requires Valid()
      reads this, tokens
      ensures s.Valid()
    {
      Parsing(pos, tokens[..toknext], toksuper)
    }

    constructor (tokens: array<Token>)
      ensures Valid() && this.tokens == tokens && Abs() == Begin()
    {
      this.tokens := tokens;
      pos, toknext, toksuper := 0, 0, -1;
    }

    /** jsmn_alloc_token and jsmn_fill_token, and one more child for the superior token. */
    method AddToken(kind: Kind, start: nat, end: int) returns (ok: bool)
      requires Valid()
      modifies this`toknext, tokens
      ensures Valid() && ok == (old(toknext) < tokens.Length)
      ensures !ok ==> Abs() == old(Abs())
      ensures ok ==> Abs() == old(Abs()).(toks := Bump(old(tokens[..toknext]), toksuper) + [Token(kind, start, end, 0)])
    {
      ok := toknext < tokens.Length;
      if ok {
        tokens[toknext] := Token(kind, start, end, 0);
        if toksuper != -1 {
          tokens[toksuper] := tokens[toksuper].(size := tokens[toksuper].size + 1);
        }
        toknext := toknext + 1;
      }
    }

    /** The loops that look for an open container below n. */
    method FindOpen(n: nat) returns (i: int)
      requires Valid() && n <= toknext
      ensures i == LastOpen(tokens[..toknext], n)
    {
      i := n - 1;
      while i >= 0
        invariant -1 <= i < n && LastOpen(tokens[..toknext], n) == LastOpen(tokens[..toknext], i + 1)
      {
        if tokens[i].end == -1 {
          return;
        }
        i := i - 1;
      }
    }

    /** The hex digits of a \u escape: pos ends past them. */
    method HexDigits(js: seq<byte>) returns (ok: bool)
      requires Valid() && pos <= |js|
      modifies this`pos
      ensures old(pos) <= pos <= |js|
      ensures match ScanHex(js, old(pos), 4) case Bad(f) => !ok && f == Inval case Found(q) => ok && pos == q
    {
      var i := 0;
      while i < 4 && pos < |js| && js[pos] != 0
        invariant 0 <= i <= 4 && old(pos) <= pos <= |js| && ScanHex(js, old(pos), 4) == ScanHex(js, pos, 4 - i)
      {
        if !Hex(js[pos]) {
          return false;
        }
        pos := pos + 1;
        i := i + 1;
      }
      ok := true;
    }

    /** jsmn_parse_string's scan: pos at the closing quote. */
    method StringEnd(js: seq<byte>) returns (ok: bool, error: Failure)
      requires Valid() && pos < |js|
      modifies this`pos
      ensures match ScanString(js, old(pos) + 1)
              case Bad(f) => !ok && error == f && pos == old(pos)
              case Found(q) => ok && pos == q
    {
      hide ScanHex;
      var start := pos;
      error := Part;
      pos := pos + 1;
      while pos < |js| && js[pos] != 0
        invariant pos <= |js| && ScanString(js, start + 1) == ScanString(js, pos) && error == Part
        decreases |js| - pos
      {
        var c := js[pos];
        if c == QUOTE {
          return true, Part;
        }
        if c == BACKSLASH && pos + 1 < |js| {
          pos := pos + 1;
          if js[pos] == 0x75 {
            pos := pos + 1;
            var hex := HexDigits(js);
            if !hex {
              pos := start;
              return false, Inval;
            }
            pos := pos - 1;
          } else if !SimpleEscape(js[pos]) {
            pos := start;
            return false, Inval;
          }
        }
        pos := pos + 1;
      }
      pos := start;
      ok := false;
    }

    /** jsmn_parse_primitive's scan: pos past the primitive. */
    method PrimitiveEnd(js: seq<byte>) returns (ok: bool)
      requires Valid() && pos < |js|
      modifies this`pos
      ensures match ScanPrimitive(js, old(pos))
              case Bad(f) => !ok && f == Inval && pos == old(pos)
              case Found(q) => ok && pos == q
    {
      var start := pos;
      while pos < |js| && js[pos] != 0
        invariant start <= pos <= |js| && ScanPrimitive(js, start) == ScanPrimitive(js, pos)
        decreases |js| - pos
      {
        if EndsPrimitive(js[pos]) {
          return true;
        }
        if js[pos] < 32 || js[pos] >= 127 {
          pos := start;
          return false;
        }
        pos := pos + 1;
      }
      ok := true;
    }

    method Close(kind: Kind) returns (ok: bool)
      requires Valid()
      modifies this`toksuper, tokens
      ensures Valid()
      ensures var i := LastOpen(old(tokens[..toknext]), toknext);
              ok == (i >= 0 && old(tokens[..toknext])[i].kind == kind) &&
              (ok ==> Abs() == old(Abs()).(toks := old(tokens[..toknext])[i := old(tokens[..toknext])[i].(end := pos + 1)],
                                          super := LastOpen(old(tokens[..toknext]), i)))
    {
      hide LastOpen;
      var i := FindOpen(toknext);
      if i < 0 || tokens[i].kind != kind {
        return false;
      }
      ghost var before := tokens[..toknext];
      tokens[i] := tokens[i].(end := pos + 1);
      toksuper := FindOpen(i);
      LastOpenBelow(before, tokens[..toknext], i);
      ok := true;
    }

    static lemma LastOpenBelow(a: seq<Token>, b: seq<Token>, i: nat)
      requires |a| == |b| && i <= |a| && a[..i] == b[..i]
      ensures LastOpen(a, i) == LastOpen(b, i)
    {
      if i > 0 {
        assert a[i - 1] == a[..i][i - 1] == b[..i][i - 1] == b[i - 1];
        assert a[..i - 1] == a[..i][..i - 1] == b[..i - 1];
        LastOpenBelow(a, b, i - 1);
      }
    }

    method Comma()
      requires Valid()
      modifies this`toksuper
      ensures Valid() && Abs() == old(Abs()).(super := Superior(old(Abs())))
    {
      hide LastOpen;
      if toksuper != -1 && tokens[toksuper].kind != Array && tokens[toksuper].kind != Object {
        var i := FindOpen(toknext);
        if i >= 0 {
          toksuper := i;
        }
      }
    }

    /** One turn of jsmn_parse's loop. */
    method TurnOnce(js: seq<byte>) returns (ok: bool, error: Failure)
      requires Valid() && !Ended(js, pos)
      modifies this, tokens
      ensures Valid()
      ensures match Turn(js, tokens.Length, old(Abs()))
              case Stops(f) => !ok && error == f
              case Goes(s) => ok && Abs() == s
    {
      hide LastOpen, ScanString, ScanPrimitive, Bump, Superior;
      ok, error := true, NoMem;
      var c := js[pos];
      if c == OBJ_OPEN || c == ARR_OPEN {
        ok := AddToken(if c == OBJ_OPEN then Object else Array, pos, -1);
        if ok {
          toksuper := toknext - 1;
          pos := pos + 1;
        }
      } else if c == OBJ_CLOSE || c == ARR_CLOSE {
        ok := Close(if c == OBJ_CLOSE then Object else Array);
        error := Inval;
        pos := pos + 1;
      } else if c == QUOTE {
        var start := pos;
        ok, error := StringEnd(js);
        if ok {
          ok := AddToken(String, start + 1, pos);
          error := NoMem;
          pos := pos + 1;
        }
      } else if IsSpace(c) {
        pos := pos + 1;
      } else if c == COLON {
        toksuper := toknext - 1;
        pos := pos + 1;
      } else if c == COMMA {
        Comma();
        pos := pos + 1;
      } else {
        var start := pos;
        ok := PrimitiveEnd(js);
        error := Inval;
        if ok {
          ok := AddToken(Primitive, start, pos);
          error := NoMem;
        }
      }
    }

    /** jsmn_parse. */
    method ParseAll(js: seq<byte>) returns (ok: bool, error: Failure)
      requires Valid()
      modifies this, tokens
      ensures Valid()
      ensures match Parse(js, tokens.Length, old(Abs()))
              case Error(f) => !ok && error == f
              case Tokens(t) => ok && tokens[..toknext] == t
    {
      hide Turn, LastOpen;
      while pos < |js| && js[pos] != 0
        invariant Valid() && Parse(js, tokens.Length, Abs()) == Parse(js, tokens.Length, old(Abs()))
        decreases |js| - pos
      {
        ok, error := TurnOnce(js);
        if !ok {
          return;
        }
      }
      error := Part;
      var i := FindOpen(toknext);
      ok := i < 0;
    }
  }

  /** JsonDoc. */
  class JsonDoc {
    var src: seq<byte>
    const tok: array<Token>
    var ntok: nat

    ghost predicate Valid()
      reads this
    {
      tok.Length == JSON_MAX_TOKENS && ntok <= tok.Length
    }

    constructor ()
      ensures Valid() && fresh(tok)
    {
      src, ntok := [], 0;
      tok := new Token[JSON_MAX_TOKENS](_ => Token(Primitive, 0, 0, 0));
    }

    /** The tokens are those jsmn_parse made of the text, JSON or not. */
    ghost predicate Loaded()
      reads this, tok
    {
      Valid() && Parse(src, JSON_MAX_TOKENS, Begin()) == Tokens(Toks())
    }

    ghost function Toks(): seq<Token>
      requires Valid()
      reads this, tok
    {
      tok[..ntok]
    }

    /** json_parse. */
    method Load(js: seq<byte>) returns (ok: bool, error: Failure)
      requires Valid()
      modifies this`src, this`ntok, tok
      ensures Valid() && (ok ==> Loaded())
      ensures match Parse(js, 1024, Begin())
              case Error(f) => !ok && error == f
              case Tokens(t) => ok && src == js && Toks() == t
    {
      hide Parse;
      var p := new JsmnParser(tok);
      src := js;
      ok, error := p.ParseAll(js);
      if ok {
        ntok := p.toknext;
      }
    }

    /** json_skip. */
    method SkipToken(t: nat) returns (i: nat)
      requires Valid() && t < ntok
      ensures i == JsonWalk.Skip(Toks(), t)
    {
      var end := tok[t].end;
      i := t + 1;
      while i < ntok && tok[i].start < end
        invariant t < i <= ntok && SkipFrom(Toks(), end, t + 1) == SkipFrom(Toks(), end, i)
      {
        i := i + 1;
      }
    }

    /** json_obj_get; the key has no NUL. */
    method Get(obj: int, key: seq<byte>) returns (r: int)
      requires Valid()
      ensures r == ObjGet(src, Toks(), obj, key)
    {
      hide JsonWalk.Skip, TokenText;
      if obj < 0 || obj >= ntok || tok[obj].kind != Object {
        return -1;
      }
      var i: nat := obj + 1;
      var n: nat := 0;
      while n < tok[obj].size
        invariant n <= tok[obj].size && i <= ntok
        invariant ObjGet(src, Toks(), obj, key) == FindKey(src, Toks(), key, i, tok[obj].size - n)
      {
        var val := i + 1;
        if val >= ntok {
          return -1;
        }
        if tok[i].kind == String && TokenText(src, tok[i]) == key {
          return val;
        }
        i := SkipToken(val);
        n := n + 1;
      }
      r := -1;
    }

    /** json_arr_get. */
    method Element(arr: int, idx: int) returns (r: int)
      requires Loaded()
      ensures r == ArrGet(Toks(), arr, idx) && -1 <= r < ntok
    {
      hide JsonWalk.Skip, SkipMany, HasElement, Parse, Counted;
      AcceptedSound(src, JSON_MAX_TOKENS);
      if arr < 0 || arr >= ntok || tok[arr].kind != Array || tok[arr].size <= idx || idx < 0 {
        return -1;
      }
      var i: nat := arr + 1;
      var n: nat := 0;
      SkipNone(Toks(), i);
      while n < idx
        invariant n <= idx && i <= ntok && i == SkipMany(Toks(), arr + 1, n)
      {
        assert Counted(Toks(), arr);
        ElementInside(Toks(), arr, n);
        SkipOneMore(Toks(), arr + 1, n);
        i := SkipToken(i);
        n := n + 1;
      }
      assert Counted(Toks(), arr);
      ElementInside(Toks(), arr, idx);
      r := i;
    }

    /** The raw string is well formed, and read back if there is room. */
    static ghost predicate ReadsAs(raw: seq<byte>, ok: bool, out: array<byte>)
      reads out
    {
      TokenString(raw) && ok == Roomy(raw, 0, out.Length) &&
      (ok ==> |Unescaped(raw)| < out.Length && out[..|Unescaped(raw)|] == Unescaped(raw) && out[|Unescaped(raw)|] == 0)
    }

    /** json_get_string. */
    method Text(t: int, out: array<byte>) returns (ok: bool)
      requires Loaded() && out.Length >= 1
      modifies out
      ensures t < 0 || t >= ntok || tok[t].kind != String ==> !ok
      ensures 0 <= t < ntok && tok[t].kind == String ==> ReadsAs(TokenText(src, tok[t]), ok, out)
    {
      hide Parse, Counted, Roomy, Unescaped;
      if t < 0 || t >= ntok || tok[t].kind != String {
        return false;
      }
      AcceptedSound(src, JSON_MAX_TOKENS);
      assert GoodString(src, Toks()[t]);
      ok := GetString(TokenText(src, tok[t]), out);
    }
  }
}
