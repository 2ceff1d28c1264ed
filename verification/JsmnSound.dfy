/** What jsmn_parse makes of any text it accepts, JSON or not: strings are well formed, and an
    array's token counts no more elements than json_skip can reach. */
module JsmnSound {
  import opened Bits
  import opened JsonStream
  import opened Jsmn
  import opened JsmnTokens
  import opened JsonWalk

  /** c was counted as a child of a: all tokens between them had ended before it. */
  ghost predicate Kid(toks: seq<Token>, a: nat, c: nat) {
    a < c < |toks| && forall i :: a < i < c ==> 0 <= toks[i].end <= toks[c].start
  }

  /** The children of one token, in order, are as many as it counts. */
  ghost predicate Rears(toks: seq<Token>, a: nat, kids: seq<nat>)
    requires a < |toks|
  {
    |kids| == toks[a].size && (forall m :: 0 <= m < |kids| ==> Kid(toks, a, kids[m])) &&
    forall m, n :: 0 <= m < n < |kids| ==> kids[m] < kids[n]
  }

  ghost predicate AllReared(toks: seq<Token>, kids: seq<seq<nat>>) {
    |kids| == |toks| && forall a :: 0 <= a < |toks| ==> Rears(toks, a, kids[a])
  }

  ghost predicate GoodString(js: seq<byte>, t: Token) {
    t.kind == String ==> t.start <= t.end <= |js| && TokenString(js[t.start..t.end])
  }

  /** Nothing after the superior token is open. */
  ghost predicate Sound(js: seq<byte>, s: Parsing, kids: seq<seq<nat>>) {
    s.Valid() && AllReared(s.toks, kids) && (forall i :: 0 <= i < |s.toks| ==> -1 <= s.toks[i].end <= s.pos && GoodString(js, s.toks[i])) &&
    forall i :: s.super < i < |s.toks| && i >= 0 ==> s.toks[i].end >= 0
  }

  lemma KidMore(toks: seq<Token>, more: seq<Token>, a: nat, c: nat)
    requires Kid(toks, a, c) && |more| >= |toks|
    requires forall i :: 0 <= i < |toks| ==> more[i].start == toks[i].start && (toks[i].end >= 0 ==> more[i].end == toks[i].end)
    ensures Kid(more, a, c)
  {
  }

  /** A new token, counted by the superior one. */
  lemma AddedSound(js: seq<byte>, s: Parsing, kids: seq<seq<nat>>, t: Token, pos: nat, super: int) returns (kids': seq<seq<nat>>)
    requires Sound(js, s, kids) && s.pos <= t.start && t.size == 0 && -1 <= t.end <= pos && s.pos <= pos && GoodString(js, t)
    requires (super == s.super && t.end >= 0) || super == |s.toks|
    ensures Sound(js, Parsing(pos, Bump(s.toks, s.super) + [t], super), kids')
  {
    hide TokenString, Rears;
    var n := |s.toks|;
    var toks := Bump(s.toks, s.super) + [t];
    kids' := (if s.super >= 0 then kids[s.super := kids[s.super] + [n]] else kids) + [[]];
    forall a | 0 <= a < |toks|
      ensures Rears(toks, a, kids'[a])
    {
      if a < n { RearsMore(s, kids[a], a, t); } else { NoKids(toks, a); }
    }
  }

  lemma NoKids(toks: seq<Token>, a: nat)
    requires a < |toks| && toks[a].size == 0
    ensures Rears(toks, a, [])
  {
  }

  lemma RearsMore(s: Parsing, kids: seq<nat>, a: nat, t: Token)
    requires s.Valid() && a < |s.toks| && Rears(s.toks, a, kids) && s.pos <= t.start
    requires forall i :: 0 <= i < |s.toks| ==> s.toks[i].end <= s.pos
    requires forall i :: s.super < i < |s.toks| && i >= 0 ==> s.toks[i].end >= 0
    ensures Rears(Bump(s.toks, s.super) + [t], a, if a == s.super then kids + [|s.toks|] else kids)
  {
    var toks := Bump(s.toks, s.super) + [t];
    forall m | 0 <= m < |kids|
      ensures Kid(toks, a, kids[m])
    {
      KidMore(s.toks, toks, a, kids[m]);
    }
    if a == s.super { assert Kid(toks, a, |s.toks|); }
  }

  lemma ClosedSound(js: seq<byte>, s: Parsing, kids: seq<seq<nat>>, i: nat)
    requires Sound(js, s, kids) && i < |s.toks| && LastOpen(s.toks, |s.toks|) == i && s.toks[i].kind != String
    ensures Sound(js, Parsing(s.pos + 1, s.toks[i := s.toks[i].(end := s.pos + 1)], LastOpen(s.toks, i)), kids)
  {
    hide TokenString;
    var toks := s.toks[i := s.toks[i].(end := s.pos + 1)];
    forall a | 0 <= a < |toks|
      ensures Rears(toks, a, kids[a])
    {
      forall m | 0 <= m < |kids[a]|
        ensures Kid(toks, a, kids[a][m])
      {
        KidMore(s.toks, toks, a, kids[a][m]);
      }
    }
    NotString(js, s.toks[i], s.pos + 1);
  }

  lemma NotString(js: seq<byte>, t: Token, end: int)
    requires t.kind != String
    ensures GoodString(js, t.(end := end))
  {
  }

  lemma TurnSound(js: seq<byte>, cap: nat, s: Parsing, kids: seq<seq<nat>>) returns (kids': seq<seq<nat>>)
    requires s.Valid() && Sound(js, s, kids) && !Ended(js, s.pos) && Turn(js, cap, s).Goes?
    ensures Sound(js, Turn(js, cap, s).st, kids')
  {
    hide Sound, ScanString, ScanPrimitive, LastOpen, TokenString, Bump;
    var c, n := js[s.pos], |s.toks|;
    kids' := kids;
    if c == OBJ_OPEN || c == ARR_OPEN {
      kids' := AddedSound(js, s, kids, Token(if c == OBJ_OPEN then Object else Array, s.pos, -1, 0), s.pos + 1, n);
    } else if c == OBJ_CLOSE || c == ARR_CLOSE {
      ClosedSound(js, s, kids, LastOpen(s.toks, n));
    } else if c == QUOTE {
      ScannedIsString(js, s.pos + 1);
      var q := ScanString(js, s.pos + 1).end;
      kids' := AddedSound(js, s, kids, Token(String, s.pos + 1, q, 0), q + 1, s.super);
    } else if IsSpace(c) || c == COLON || c == COMMA {
      MovedSound(js, s, kids, Turn(js, cap, s).st.super);
    } else {
      var q := ScanPrimitive(js, s.pos).end;
      kids' := AddedSound(js, s, kids, Token(Primitive, s.pos, q, 0), q, s.super);
    }
  }

  lemma MovedSound(js: seq<byte>, s: Parsing, kids: seq<seq<nat>>, super: int)
    requires Sound(js, s, kids) && (super == s.super || super == |s.toks| - 1 || super == LastOpen(s.toks, |s.toks|)) && s.Valid()
    ensures Sound(js, s.(pos := s.pos + 1, super := super), kids)
  {
    hide TokenString;
  }

  /** From any state: what the parse delivers is sound. */
  lemma {:induction false} ParseSound(js: seq<byte>, cap: nat, s: Parsing, kids: seq<seq<nat>>) returns (kids': seq<seq<nat>>)
    requires Sound(js, s, kids) && Parse(js, cap, s).Tokens?
    ensures AllReared(Parse(js, cap, s).toks, kids')
    ensures forall i :: 0 <= i < |Parse(js, cap, s).toks| ==> GoodString(js, Parse(js, cap, s).toks[i])
    decreases |js| - s.pos
  {
    hide Turn, GoodString, Rears;
    if Ended(js, s.pos) {
      kids' := kids;
    } else {
      var next := TurnSound(js, cap, s, kids);
      kids' := ParseSound(js, cap, Turn(js, cap, s).st, next);
    }
  }

  /** Every element an array counts is reached by json_skip. */
  lemma {:induction false} RearedReached(toks: seq<Token>, a: nat, kids: seq<nat>, n: nat)
    requires a < |toks| && Rears(toks, a, kids) && n < |kids|
    ensures SkipMany(toks, a + 1, n) <= kids[n]
    decreases n
  {
    hide Skip;
    if n > 0 {
      RearedReached(toks, a, kids, n - 1);
      var i := SkipMany(toks, a + 1, n - 1);
      SkipOneMore(toks, a + 1, n - 1);
      assert Kid(toks, a, kids[n]);
      SkipReaches(toks, i, kids[n]);
    }
  }

  lemma SkipReaches(toks: seq<Token>, i: nat, c: nat)
    requires i < c < |toks| && toks[i].end <= toks[c].start
    ensures Skip(toks, i) <= c
  {
    SkipFromReaches(toks, toks[i].end, i + 1, c);
  }

  lemma {:induction false} SkipFromReaches(toks: seq<Token>, end: int, i: nat, c: nat)
    requires i <= c < |toks| && end <= toks[c].start
    ensures SkipFrom(toks, end, i) <= c
    decreases c - i
  {
    if i < c && toks[i].start < end { SkipFromReaches(toks, end, i + 1, c); }
  }

  /** For every text jsmn_parse accepts: its strings can be read back, and its arrays hold at least
      the elements they count. */
  lemma {:induction false} AcceptedSound(js: seq<byte>, cap: nat)
    requires Parse(js, cap, Begin()).Tokens?
    ensures forall i :: 0 <= i < |Parse(js, cap, Begin()).toks| ==> GoodString(js, Parse(js, cap, Begin()).toks[i])
    ensures forall arr :: Counted(Parse(js, cap, Begin()).toks, arr)
  {
    hide Parse, GoodString, Rears, SkipMany;
    var kids := ParseSound(js, cap, Begin(), []);
    var toks := Parse(js, cap, Begin()).toks;
    forall arr | 0 <= arr < |toks| && toks[arr].kind == Array
      ensures Counted(toks, arr)
    {
      RearedCounted(toks, arr, kids[arr]);
    }
  }

  lemma RearedCounted(toks: seq<Token>, arr: nat, kids: seq<nat>)
    requires arr < |toks| && Rears(toks, arr, kids)
    ensures Counted(toks, arr)
  {
    hide SkipMany;
    forall n | 0 <= n < toks[arr].size
      ensures HasElement(toks, arr, n)
    {
      RearedReached(toks, arr, kids, n);
      assert Kid(toks, arr, kids[n]);
    }
  }
}
