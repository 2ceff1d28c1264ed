/** Walking a parsed document: json_skip, json_obj_get and json_arr_get of json.c, and what they
    find in the tokens of a JSON text. */
module JsonWalk {
  import opened Bits
  import opened JsonStream
  import opened Jsmn
  import opened JsmnTokens
  import opened Slices
  import opened Wrappers

  // --- the walkers as functions ---------------------------------------------------------------

  function SkipFrom(toks: seq<Token>, end: int, i: nat): (j: nat)
    requires i <= |toks|
    ensures i <= j <= |toks|
    decreases |toks| - i
  {
    if i < |toks| && toks[i].start < end then SkipFrom(toks, end, i + 1) else i
  }

  /** The token after t's subtree. */
  function Skip(toks: seq<Token>, t: nat): (j: nat)
    requires t < |toks|
    ensures t < j <= |toks|
  {
    SkipFrom(toks, toks[t].end, t + 1)
  }

  /** A token's text. */
  function TokenText(js: seq<byte>, t: Token): seq<byte> {
    if t.start <= t.end <= |js| then js[t.start..t.end] else []
  }

  function FindKey(js: seq<byte>, toks: seq<Token>, key: seq<byte>, i: nat, n: nat): (r: int)
    requires i <= |toks|
    ensures -1 <= r < |toks|
    decreases n
  {
    if n == 0 || i + 1 >= |toks| then -1
    else if toks[i].kind == String && TokenText(js, toks[i]) == key then i + 1
    else FindKey(js, toks, key, Skip(toks, i + 1), n - 1)
  }

  function ObjGet(js: seq<byte>, toks: seq<Token>, obj: int, key: seq<byte>): (r: int)
    ensures -1 <= r < |toks|
  {
    if obj < 0 || obj >= |toks| || toks[obj].kind != Object then -1
    else FindKey(js, toks, key, obj + 1, toks[obj].size)
  }

  function SkipMany(toks: seq<Token>, i: nat, n: nat): (r: nat)
    requires i <= |toks|
    ensures i <= r <= |toks|
    decreases n
  {
    if n == 0 || i >= |toks| then i else SkipMany(toks, Skip(toks, i), n - 1)
  }

  function ArrGet(toks: seq<Token>, arr: int, idx: int): (r: int) {
    if arr < 0 || arr >= |toks| || toks[arr].kind != Array || idx < 0 || toks[arr].size <= idx then -1
    else SkipMany(toks, arr + 1, idx)
  }

  // --- spans -------------------------------------------------------------------------------------

  /** The spans of these tokens lie in [p, q). */
  ghost predicate Spanned(t: seq<Token>, p: nat, q: nat) {
    forall i :: 0 <= i < |t| ==> p <= t[i].start <= t[i].end <= q && t[i].start < q
  }

  /** Any two spans are one inside the other or apart, and starts never go back. */
  ghost predicate Laminar(t: seq<Token>) {
    forall i, j :: 0 <= i < j < |t| ==>
      t[i].start <= t[j].start && (t[i].end <= t[j].start || t[j].end <= t[i].end)
  }

  lemma LaminarApart(a: seq<Token>, b: seq<Token>, p: nat, q: nat, r: nat)
    requires Laminar(a) && Laminar(b) && Spanned(a, p, q) && Spanned(b, q, r) && p <= q <= r
    ensures Laminar(a + b) && Spanned(a + b, p, r)
  {
    var t := a + b;
    forall i, j | 0 <= i < j < |t|
      ensures t[i].start <= t[j].start && (t[i].end <= t[j].start || t[j].end <= t[i].end)
    {
      if j < |a| {
        assert t[i] == a[i] && t[j] == a[j];
      } else if i >= |a| {
        assert t[i] == b[i - |a|] && t[j] == b[j - |a|];
      } else {
        assert t[i] == a[i] && t[j] == b[j - |a|];
      }
    }
  }

  lemma LaminarInside(c: Token, inner: seq<Token>, p: nat, q: nat)
    requires Laminar(inner) && Spanned(inner, p, q) && c.start <= p && q <= c.end
    ensures Laminar([c] + inner)
  {
    var t := [c] + inner;
    forall i, j | 0 <= i < j < |t|
      ensures t[i].start <= t[j].start && (t[i].end <= t[j].start || t[j].end <= t[i].end)
    {
      assert t[j] == inner[j - 1];
      if i > 0 { assert t[i] == inner[i - 1]; }
    }
  }

  lemma SpannedWider(t: seq<Token>, p: nat, q: nat, p': nat, q': nat)
    requires Spanned(t, p, q) && p' <= p && q <= q'
    ensures Spanned(t, p', q')
  {
  }

  /** The tokens of a value: laminar, in preorder, inside its text. */
  lemma {:induction false} ValueSpans(v: Value, p: nat)
    requires Acceptable(v)
    ensures Laminar(TokensAt(v, p)) && Spanned(TokensAt(v, p), p, p + |Text(v)|)
    decreases v, 0
  {
    hide Laminar, Spanned, ItemsText, MembersText, TokenString, TokenPrimitive, ItemsAt, MembersAt, Spaces;
    match v
    case Str(raw) => OneSpan(TokensAt(v, p)[0], p, p + |Text(v)|);
    case Prim(text) =>
      assert text != [] by { PrimNotEmpty(text); }
      OneSpan(TokensAt(v, p)[0], p, p + |Text(v)|);
    case Arr(ws, items) =>
      ItemsSpan(items, p + 1 + |ws|);
      ContainerText(ws, ItemsText(items), ARR_OPEN, ARR_CLOSE);
      InsideContainer(TokensAt(v, p)[0], ItemsAt(items, p + 1 + |ws|), p + 1 + |ws|, p + |Text(v)| - 1);
    case Obj(ws, members) =>
      MembersSpan(members, p + 1 + |ws|);
      ContainerText(ws, MembersText(members), OBJ_OPEN, OBJ_CLOSE);
      InsideContainer(TokensAt(v, p)[0], MembersAt(members, p + 1 + |ws|), p + 1 + |ws|, p + |Text(v)| - 1);
  }

  lemma ContainerText(ws: seq<byte>, inner: seq<byte>, open: byte, close: byte)
    ensures |([open] + ws) + (inner + [close])| == 1 + |ws| + |inner| + 1
  {
  }

  lemma PrimNotEmpty(text: seq<byte>)
    requires TokenPrimitive(text)
    ensures text != []
  {
  }

  lemma OneSpan(t: Token, p: nat, q: nat)
    requires p <= t.start <= t.end <= q && t.start < q
    ensures Laminar([t]) && Spanned([t], p, q)
  {
  }

  lemma InsideContainer(c: Token, inner: seq<Token>, p: nat, q: nat)
    requires Laminar(inner) && Spanned(inner, p, q) && c.start < p <= q < c.end
    ensures Laminar([c] + inner) && Spanned([c] + inner, c.start, c.end)
  {
    LaminarInside(c, inner, p, q);
  }

  lemma {:induction false} ItemsSpan(xs: Items, p: nat)
    requires ItemsAcceptable(xs)
    ensures Laminar(ItemsAt(xs, p)) && Spanned(ItemsAt(xs, p), p, p + |ItemsText(xs)|)
    decreases xs, 1
  {
    hide Laminar, Spanned, Text, TokensAt, Acceptable;
    match xs
    case NoItems => NoSpan(p, p);
    case Item(v, ws, sep, more) =>
      var q := p + |Text(v)|;
      var r := q + |ws + AfterComma(more.Item?, sep)|;
      ValueSpans(v, p);
      ItemsSpan(more, r);
      SpannedWider(ItemsAt(more, r), r, r + |ItemsText(more)|, q, r + |ItemsText(more)|);
      LaminarApart(TokensAt(v, p), ItemsAt(more, r), p, q, r + |ItemsText(more)|);
  }

  lemma NoSpan(p: nat, q: nat)
    ensures Laminar([]) && Spanned([], p, q)
  {
  }

  lemma {:induction false} MembersSpan(ms: Members, p: nat)
    requires MembersAcceptable(ms)
    ensures Laminar(MembersAt(ms, p)) && Spanned(MembersAt(ms, p), p, p + |MembersText(ms)|)
    decreases ms, 1
  {
    hide Laminar, Spanned, Text, TokensAt, Acceptable, TokenString;
    match ms
    case NoMembers => NoSpan(p, p);
    case Member(key, w1, w2, v, ws, sep, more) =>
      var q := p + |KeyText(key, w1, w2)|;
      var r := q + |Text(v)|;
      var s := r + |ws + AfterComma(more.Member?, sep)|;
      OneSpan(Token(String, p + 1, p + 1 + |key|, 1), p, q);
      ValueSpans(v, q);
      LaminarApart([Token(String, p + 1, p + 1 + |key|, 1)], TokensAt(v, q), p, q, r);
      MembersSpan(more, s);
      SpannedWider(MembersAt(more, s), s, s + |MembersText(more)|, r, s + |MembersText(more)|);
      LaminarApart(MemberAt(key, v, p, q), MembersAt(more, s), p, r, s + |MembersText(more)|);
  }

  // --- where a value stands in the tokens -----------------------------------------------------------

  /** t's tokens begin at index i; every later token begins at q or after. */
  ghost predicate Standing(toks: seq<Token>, i: nat, t: seq<Token>, q: nat) {
    i + |t| <= |toks| && toks[i..i + |t|] == t && forall k :: i + |t| <= k < |toks| ==> toks[k].start >= q
  }

  /** The value whose text is at p of js has its tokens at index i. */
  ghost predicate Stands(js: seq<byte>, toks: seq<Token>, i: nat, v: Value, p: nat) {
    Acceptable(v) && TextAt(js, p, Text(v)) && Standing(toks, i, TokensAt(v, p), p + |Text(v)|)
  }

  lemma StandingParts(toks: seq<Token>, i: nat, a: seq<Token>, b: seq<Token>, q: nat, r: nat)
    requires Standing(toks, i, a + b, r) && Spanned(b, q, r) && q <= r
    ensures Standing(toks, i, a, q) && Standing(toks, i + |a|, b, r)
  {
    var t := toks[i..i + |a + b|];
    assert toks[i..i + |a|] == t[..|a|];
    assert toks[i + |a|..i + |a| + |b|] == t[|a|..];
    forall k | i + |a| <= k < |toks|
      ensures toks[k].start >= q
    {
      if k < i + |a + b| { assert toks[k] == t[k - i] == b[k - i - |a|]; }
    }
  }

  lemma StandingWeaker(toks: seq<Token>, i: nat, t: seq<Token>, q: nat, r: nat)
    requires Standing(toks, i, t, r) && q <= r
    ensures Standing(toks, i, t, q)
  {
  }

  lemma {:induction false} SkipTo(toks: seq<Token>, end: int, i: nat, j: nat)
    requires i <= j <= |toks| && (forall k :: i <= k < j ==> toks[k].start < end)
    requires j < |toks| ==> toks[j].start >= end
    ensures SkipFrom(toks, end, i) == j
    decreases j - i
  {
    if i < j { SkipTo(toks, end, i + 1, j); }
  }

  /** json_skip passes exactly the value's tokens. */
  lemma {:induction false} SkipPasses(js: seq<byte>, toks: seq<Token>, i: nat, v: Value, p: nat)
    requires Stands(js, toks, i, v, p)
    ensures i < |toks| && Skip(toks, i) == i + |TokensAt(v, p)|
  {
    hide TextAt, Laminar, TokenString, TokenPrimitive, ItemsText, MembersText;
    ValueSpans(v, p);
    var t := TokensAt(v, p);
    assert toks[i] == t[0];
    if v.Arr? || v.Obj? {
      assert t[0].end == p + |Text(v)|;
      forall k | i + 1 <= k < i + |t|
        ensures toks[k].start < t[0].end
      {
        assert toks[k] == t[k - i];
      }
    }
    SkipTo(toks, t[0].end, i + 1, i + |t|);
  }

  // --- json_obj_get ---------------------------------------------------------------------------------

  /** The value of the first member with this raw key, and where its text stands. */
  function FirstMember(ms: Members, p: nat, key: seq<byte>): Option<(Value, nat)> {
    match ms
    case NoMembers => None
    case Member(k, w1, w2, v, ws, sep, more) =>
      var q := p + |KeyText(k, w1, w2)|;
      if k == key then Some((v, q))
      else FirstMember(more, q + |Text(v)| + |ws + AfterComma(more.Member?, sep)|, key)
  }

  ghost predicate StandsMembers(js: seq<byte>, toks: seq<Token>, i: nat, ms: Members, p: nat) {
    MembersAcceptable(ms) && TextAt(js, p, MembersText(ms)) && Standing(toks, i, MembersAt(ms, p), p + |MembersText(ms)|)
  }

  /** A key's token, its value's tokens, and the other members'. */
  lemma MemberStands(js: seq<byte>, toks: seq<Token>, i: nat, ms: Members, p: nat)
    requires StandsMembers(js, toks, i, ms, p) && ms.Member?
    ensures var q := p + |KeyText(ms.key, ms.w1, ms.w2)|;
            var s := q + |Text(ms.value)| + |ms.ws + AfterComma(ms.more.Member?, ms.sep)|;
            i + 1 < |toks| && toks[i].kind == String && TokenText(js, toks[i]) == ms.key &&
            Stands(js, toks, i + 1, ms.value, q) &&
            StandsMembers(js, toks, i + 1 + |TokensAt(ms.value, q)|, ms.more, s)
  {
    hide Laminar, TokenString, TextAt, KeyText, Text, TokensAt, Spanned, Standing, Acceptable;
    var key, v, more := ms.key, ms.value, ms.more;
    var head, after := KeyText(key, ms.w1, ms.w2), ms.ws + AfterComma(more.Member?, ms.sep);
    var q := p + |head|;
    var r := q + |Text(v)|;
    var s := r + |after|;
    TextParts(js, p, head, Text(v) + (after + MembersText(more)));
    TextParts(js, q, Text(v), after + MembersText(more));
    TextParts(js, r, after, MembersText(more));
    KeyTokenText(js, p, key, ms.w1, ms.w2);
    var kt := [Token(String, p + 1, p + 1 + |key|, 1)];
    ValueSpans(v, q);
    MembersSpan(more, s);
    var end := s + |MembersText(more)|;
    StandingParts(toks, i, kt + TokensAt(v, q), MembersAt(more, s), s, end);
    StandingParts(toks, i, kt, TokensAt(v, q), q, s) by { SpannedWider(TokensAt(v, q), q, r, q, s); }
    StandingWeaker(toks, i + 1, TokensAt(v, q), r, s);
    StandingFirst(toks, i, kt, q);
    StandingFirst(toks, i + 1, TokensAt(v, q), r);
  }

  lemma StandingFirst(toks: seq<Token>, i: nat, t: seq<Token>, q: nat)
    requires Standing(toks, i, t, q) && t != []
    ensures i < |toks| && toks[i] == t[0]
  {
  }

  lemma KeyTokenText(js: seq<byte>, p: nat, key: seq<byte>, w1: seq<byte>, w2: seq<byte>)
    requires TextAt(js, p, KeyText(key, w1, w2))
    ensures p + 1 + |key| <= |js| && js[p + 1..p + 1 + |key|] == key
  {
    var t := KeyText(key, w1, w2);
    assert t[1..1 + |key|] == key;
    assert js[p..p + |t|][1..1 + |key|] == js[p + 1..p + 1 + |key|];
  }

  lemma {:induction false} FindKeyFinds(js: seq<byte>, toks: seq<Token>, i: nat, ms: Members, p: nat, key: seq<byte>)
    requires StandsMembers(js, toks, i, ms, p) && i <= |toks|
    ensures var r := FindKey(js, toks, key, i, MemberCount(ms));
            match FirstMember(ms, p, key)
            case None => r == -1
            case Some(found) => r >= 0 && Stands(js, toks, r, found.0, found.1)
    decreases ms
  {
    hide TokenString, Text, TokensAt, Standing, TokenText, KeyText, StandsMembers, Stands;
    if ms.Member? {
      MemberStands(js, toks, i, ms, p);
      var q := p + |KeyText(ms.key, ms.w1, ms.w2)|;
      if ms.key != key {
        SkipPasses(js, toks, i + 1, ms.value, q);
        FindKeyFinds(js, toks, i + 1 + |TokensAt(ms.value, q)|, ms.more,
                     q + |Text(ms.value)| + |ms.ws + AfterComma(ms.more.Member?, ms.sep)|, key);
      }
    }
  }

  /** The tokens of an object's members. */
  lemma MembersStand(js: seq<byte>, toks: seq<Token>, i: nat, v: Value, p: nat)
    requires Stands(js, toks, i, v, p) && v.Obj?
    ensures i < |toks| && toks[i].kind == Object && toks[i].size == MemberCount(v.members)
    ensures StandsMembers(js, toks, i + 1, v.members, p + 1 + |v.ws|)
  {
    hide Laminar, MembersText, Spanned, Standing, TextAt;
    var inner, q := MembersText(v.members), p + 1 + |v.ws|;
    TextParts(js, p, [OBJ_OPEN] + v.ws, inner + [OBJ_CLOSE]);
    TextParts(js, q, inner, [OBJ_CLOSE]);
    MembersSpan(v.members, q);
    var t := [TokensAt(v, p)[0]];
    assert TokensAt(v, p) == t + MembersAt(v.members, q);
    StandingFirst(toks, i, TokensAt(v, p), p + |Text(v)|);
    SpannedWider(MembersAt(v.members, q), q, q + |inner|, q, p + |Text(v)|);
    StandingParts(toks, i, t, MembersAt(v.members, q), q, p + |Text(v)|);
    StandingWeaker(toks, i + 1, MembersAt(v.members, q), q + |inner|, p + |Text(v)|);
  }

  /** json_obj_get on an object's token returns the token of the value of the first member with
      that raw key, or -1 if there is none. */
  lemma {:induction false} ObjGetFinds(js: seq<byte>, toks: seq<Token>, i: nat, v: Value, p: nat, key: seq<byte>)
    requires Stands(js, toks, i, v, p) && v.Obj?
    ensures var r := ObjGet(js, toks, i, key);
            match FirstMember(v.members, p + 1 + |v.ws|, key)
            case None => r == -1
            case Some(found) => r >= 0 && Stands(js, toks, r, found.0, found.1)
  {
    hide FindKey, Stands, StandsMembers, FirstMember;
    MembersStand(js, toks, i, v, p);
    FindKeyFinds(js, toks, i + 1, v.members, p + 1 + |v.ws|, key);
  }

  // --- json_arr_get ---------------------------------------------------------------------------------

  /** Element n and where its text stands. */
  function ItemAt(xs: Items, p: nat, n: nat): Option<(Value, nat)>
    decreases xs
  {
    match xs
    case NoItems => None
    case Item(v, ws, sep, more) =>
      if n == 0 then Some((v, p)) else ItemAt(more, p + |Text(v)| + |ws + AfterComma(more.Item?, sep)|, n - 1)
  }

  ghost predicate StandsItems(js: seq<byte>, toks: seq<Token>, i: nat, xs: Items, p: nat) {
    ItemsAcceptable(xs) && TextAt(js, p, ItemsText(xs)) && Standing(toks, i, ItemsAt(xs, p), p + |ItemsText(xs)|)
  }

  lemma ItemStands(js: seq<byte>, toks: seq<Token>, i: nat, xs: Items, p: nat)
    requires StandsItems(js, toks, i, xs, p) && xs.Item?
    ensures var s := p + |Text(xs.value)| + |xs.ws + AfterComma(xs.more.Item?, xs.sep)|;
            Stands(js, toks, i, xs.value, p) && i + |TokensAt(xs.value, p)| <= |toks| &&
            StandsItems(js, toks, i + |TokensAt(xs.value, p)|, xs.more, s)
  {
    hide Laminar, Text, TokensAt, Spanned, Standing, Acceptable;
    var v, more := xs.value, xs.more;
    var after := xs.ws + AfterComma(more.Item?, xs.sep);
    var r := p + |Text(v)|;
    var s := r + |after|;
    TextParts(js, p, Text(v), after + ItemsText(more));
    TextParts(js, r, after, ItemsText(more));
    ValueSpans(v, p);
    ItemsSpan(more, s);
    StandingParts(toks, i, TokensAt(v, p), ItemsAt(more, s), s, s + |ItemsText(more)|);
    StandingWeaker(toks, i, TokensAt(v, p), r, s);
    StandingLength(toks, i, TokensAt(v, p), r);
  }

  lemma StandingLength(toks: seq<Token>, i: nat, t: seq<Token>, q: nat)
    requires Standing(toks, i, t, q)
    ensures i + |t| <= |toks|
  {
  }

  lemma {:induction false} SkipManyFinds(js: seq<byte>, toks: seq<Token>, i: nat, xs: Items, p: nat, n: nat)
    requires StandsItems(js, toks, i, xs, p) && i <= |toks| && n < ItemCount(xs)
    ensures match ItemAt(xs, p, n)
            case None => false
            case Some(found) => Stands(js, toks, SkipMany(toks, i, n), found.0, found.1)
    decreases xs
  {
    hide Text, TokensAt, StandsItems, Stands;
    ItemStands(js, toks, i, xs, p);
    if n > 0 {
      SkipPasses(js, toks, i, xs.value, p);
      SkipManyFinds(js, toks, i + |TokensAt(xs.value, p)|, xs.more,
                    p + |Text(xs.value)| + |xs.ws + AfterComma(xs.more.Item?, xs.sep)|, n - 1);
    }
  }

  lemma ItemsStand(js: seq<byte>, toks: seq<Token>, i: nat, v: Value, p: nat)
    requires Stands(js, toks, i, v, p) && v.Arr?
    ensures i < |toks| && toks[i].kind == Array && toks[i].size == ItemCount(v.items)
    ensures StandsItems(js, toks, i + 1, v.items, p + 1 + |v.ws|)
  {
    hide Laminar, ItemsText, Spanned, Standing, TextAt;
    var inner, q := ItemsText(v.items), p + 1 + |v.ws|;
    TextParts(js, p, [ARR_OPEN] + v.ws, inner + [ARR_CLOSE]);
    TextParts(js, q, inner, [ARR_CLOSE]);
    ItemsSpan(v.items, q);
    var t := [TokensAt(v, p)[0]];
    assert TokensAt(v, p) == t + ItemsAt(v.items, q);
    StandingFirst(toks, i, TokensAt(v, p), p + |Text(v)|);
    SpannedWider(ItemsAt(v.items, q), q, q + |inner|, q, p + |Text(v)|);
    StandingParts(toks, i, t, ItemsAt(v.items, q), q, p + |Text(v)|);
    StandingWeaker(toks, i + 1, ItemsAt(v.items, q), q + |inner|, p + |Text(v)|);
  }

  /** json_arr_get on an array's token returns element idx's token, or -1 past the end. */
  lemma {:induction false} ArrGetFinds(js: seq<byte>, toks: seq<Token>, i: nat, v: Value, p: nat, idx: int)
    requires Stands(js, toks, i, v, p) && v.Arr?
    ensures var r := ArrGet(toks, i, idx);
            if idx < 0 || idx >= ItemCount(v.items) then r == -1
            else match ItemAt(v.items, p + 1 + |v.ws|, idx)
              case None => false
              case Some(found) => r >= 0 && Stands(js, toks, r, found.0, found.1)
  {
    hide Stands, StandsItems, ItemAt;
    ItemsStand(js, toks, i, v, p);
    if 0 <= idx < ItemCount(v.items) {
      SkipManyFinds(js, toks, i + 1, v.items, p + 1 + |v.ws|, idx);
    }
  }

  predicate HasElement(toks: seq<Token>, arr: nat, n: nat) {
    arr + 1 <= |toks| && SkipMany(toks, arr + 1, n) < |toks|
  }

  /** Every element that an array's token counts is there. */
  ghost predicate Counted(toks: seq<Token>, arr: int) {
    0 <= arr < |toks| && toks[arr].kind == Array ==> forall n :: 0 <= n < toks[arr].size ==> HasElement(toks, arr, n)
  }

  lemma ElementInside(toks: seq<Token>, arr: nat, n: nat)
    requires arr < |toks| && toks[arr].kind == Array && Counted(toks, arr) && n < toks[arr].size
    ensures SkipMany(toks, arr + 1, n) < |toks|
  {
    assert HasElement(toks, arr, n);
  }

  lemma SkipNone(toks: seq<Token>, i: nat)
    requires i <= |toks|
    ensures SkipMany(toks, i, 0) == i
  {
  }

  lemma {:induction false} SkipOneMore(toks: seq<Token>, i: nat, n: nat)
    requires i <= |toks| && SkipMany(toks, i, n) < |toks|
    ensures SkipMany(toks, i, n + 1) == Skip(toks, SkipMany(toks, i, n))
    decreases n
  {
    if n > 0 {
      SkipOneMore(toks, Skip(toks, i), n - 1);
    }
  }

  /** The tokens of a JSON text count their elements right. */
  lemma {:induction false} ArrayCounted(js: seq<byte>, toks: seq<Token>, i: nat, v: Value, p: nat)
    requires Stands(js, toks, i, v, p) && v.Arr?
    ensures Counted(toks, i)
  {
    hide Stands, StandsItems, ItemAt;
    ItemsStand(js, toks, i, v, p);
    forall n | 0 <= n < toks[i].size
      ensures HasElement(toks, i, n)
    {
      SkipManyFinds(js, toks, i + 1, v.items, p + 1 + |v.ws|, n);
      var found := ItemAt(v.items, p + 1 + |v.ws|, n).value;
      StandsInside(js, toks, SkipMany(toks, i + 1, n), found.0, found.1);
    }
  }

  lemma StandsInside(js: seq<byte>, toks: seq<Token>, i: nat, v: Value, p: nat)
    requires Stands(js, toks, i, v, p)
    ensures i < |toks|
  {
    hide TokensAt;
  }

  /** The tokens jsmn_parse delivers for a whole text are those of its value, at index 0. */
  lemma {:induction false} RootStands(cap: nat, w1: seq<byte>, v: Value, w2: seq<byte>)
    requires Acceptable(v) && Spaces(w1) && Spaces(w2) && |TokensAt(v, |w1|)| <= cap
    ensures var js := w1 + (Text(v) + w2);
            match Parse(js, cap, Begin())
            case Error(_) => false
            case Tokens(toks) => Stands(js, toks, 0, v, |w1|) && Laminar(toks)
  {
    hide Parse, Laminar, Text, TokensAt, Acceptable;
    ParseDelivers(cap, w1, v, w2);
    ValueSpans(v, |w1|);
    var js := w1 + (Text(v) + w2);
    assert js[0..|js|] == js;
    TextParts(js, 0, w1, Text(v) + w2);
    TextParts(js, |w1|, Text(v), w2);
  }
}
