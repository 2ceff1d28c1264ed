/** Which JSON bodies the scanner accepts, and what it makes of them: the body's value with the
    content string replaced, and that string's bytes. */
module JsonRedaction {
  import opened Bits
  import opened JsonStream
  import opened JsonDiversion

  /** The keys still to follow from a value to the content string; Nowhere if it is off the path. */
  datatype Goal = Nowhere | At(path: seq<seq<byte>>)

  function Path(): (p: seq<seq<byte>>)
    ensures |p| == 3
  {
    [Target(1), Target(2), Target(3)]
  }

  function MemberGoal(g: Goal, key: seq<byte>): Goal {
    if g.At? && g.path != [] && g.path[0] == key then At(g.path[1..]) else Nowhere
  }

  predicate Here(g: Goal) {
    g.At? && g.path == []
  }

  /** The value with every string at the goal replaced by the placeholder. */
  function Redact(v: Value, g: Goal): (r: Value)
    decreases v, 0
  {
    match v
    case Str(raw) => if Here(g) then Str(Streamed()) else v
    case Prim(_) => v
    case Arr(ws, items) => Arr(ws, items)
    case Obj(ws, members) => Obj(ws, RedactMembers(members, g))
  }

  function RedactMembers(ms: Members, g: Goal): (r: Members)
    ensures r.Member? == ms.Member?
    decreases ms, 1
  {
    match ms
    case NoMembers => ms
    case Member(key, w1, w2, v, ws, sep, more) =>
      Member(key, w1, w2, Redact(v, MemberGoal(g, key)), ws, sep, RedactMembers(more, g))
  }

  /** The raw strings at the goal, in order. */
  function Contents(v: Value, g: Goal): (c: seq<seq<byte>>)
    decreases v, 0
  {
    match v
    case Str(raw) => if Here(g) then [raw] else []
    case Prim(_) => []
    case Arr(_, _) => []
    case Obj(ws, members) => MembersContents(members, g)
  }

  function MembersContents(ms: Members, g: Goal): seq<seq<byte>>
    decreases ms, 1
  {
    match ms
    case NoMembers => []
    case Member(key, w1, w2, v, ws, sep, more) => Contents(v, MemberGoal(g, key)) + MembersContents(more, g)
  }

  /** Off the path nothing changes. */
  lemma {:induction false} NowhereKeeps(v: Value)
    ensures Redact(v, Nowhere) == v && Contents(v, Nowhere) == []
    decreases v, 0
  {
    if v.Obj? { NowhereKeepsMembers(v.members, Nowhere); }
  }

  lemma {:induction false} NowhereKeepsMembers(ms: Members, g: Goal)
    requires g.Nowhere? || g.path == []
    ensures RedactMembers(ms, g) == ms && MembersContents(ms, g) == []
    decreases ms, 1
  {
    if ms.Member? {
      NowhereKeeps(ms.value);
      NowhereKeepsMembers(ms.more, g);
    }
  }

  /** The goal the scanner's flags stand for. */
  predicate Means(d: nat, role: Role, g: Goal) {
    if d == 0 then role.Plain? && g == At(Path())
    else match role
      case Plain => g.Nowhere?
      case OnPath => d <= 2 && g == At(Path()[d..])
      case Content => d == 3 && g == At([])
  }

  predicate MeansInside(d: nat, on: bool, g: Goal) {
    d >= 1 && if on then d <= 3 && g == At(Path()[d - 1..]) else g.Nowhere? || g.path == []
  }

  lemma MemberMeans(d: nat, on: bool, g: Goal, key: seq<byte>)
    requires MeansInside(d, on, g)
    ensures Means(d, MemberRole(d, on, key), MemberGoal(g, key))
  {
    hide Target;
    if on {
      assert Path()[d - 1..][0] == Target(d);
      assert Path()[d - 1..][1..] == Path()[d..];
    }
  }

  function Max(a: nat, b: nat): nat {
    if a < b then b else a
  }

  /** Containers nested in each other. */
  function Depth(v: Value): nat
    decreases v, 0
  {
    match v
    case Str(_) => 0
    case Prim(_) => 0
    case Arr(ws, items) => 1 + ItemsDepth(items)
    case Obj(ws, members) => 1 + MembersDepth(members)
  }

  function ItemsDepth(xs: Items): nat
    decreases xs, 1
  {
    match xs
    case NoItems => 0
    case Item(v, ws, sep, more) => Max(Depth(v), ItemsDepth(more))
  }

  function MembersDepth(ms: Members): nat
    decreases ms, 1
  {
    match ms
    case NoMembers => 0
    case Member(key, w1, w2, v, ws, sep, more) => Max(Depth(v), MembersDepth(more))
  }

  /** The bytes the sink gets for these strings. */
  function Joined(cs: seq<seq<byte>>): seq<byte> {
    if cs == [] then [] else Unescape(cs[0]) + Joined(cs[1..])
  }

  predicate AllStreamable(cs: seq<seq<byte>>) {
    forall i :: 0 <= i < |cs| ==> Streamable(cs[i])
  }

  /** What a stretch of the walk adds: document text, content strings, and the deepest container. */
  datatype Part = Part(text: seq<byte>, contents: seq<seq<byte>>, depth: nat)

  function Then(a: Part, b: Part): Part {
    Part(a.text + b.text, a.contents + b.contents, Max(a.depth, b.depth))
  }

  /** All limits but the one on content strings are kept. */
  predicate Bounded(cap: nat, o: Out, p: Part)
    requires o.Out?
  {
    p.depth <= MAX_DEPTH && |o.doc| + |p.text| <= cap && AllStreamable(p.contents)
  }

  predicate Single(o: Out, p: Part)
    requires o.Out?
  {
    |p.contents| + (if o.found then 1 else 0) <= 1
  }

  function Added(o: Out, p: Part): Out
    requires o.Out?
  {
    Out(o.doc + p.text, o.content + Joined(p.contents), o.found || p.contents != [])
  }

  /** The error names a limit that is broken. */
  predicate Blames(e: Error, cap: nat, o: Out, p: Part)
    requires o.Out?
  {
    match e
    case EDepth => p.depth > MAX_DEPTH
    case EDoc => |o.doc| + |p.text| > cap
    case EContent => !AllStreamable(p.contents)
    case EDup => !Single(o, p)
    case EPartial => false
  }

  /** The walk of a part succeeds exactly within the limits, and else reports one that is broken. */
  predicate Made(cap: nat, o: Out, p: Part, r: Out) {
    (o.Fail? ==> r == o) &&
    (o.Out? && Bounded(cap, o, p) && Single(o, p) ==> r == Added(o, p)) &&
    (o.Out? && !(Bounded(cap, o, p) && Single(o, p)) ==> r.Fail? && Blames(r.error, cap, o, p))
  }

  lemma {:induction false} JoinedConcat(a: seq<seq<byte>>, b: seq<seq<byte>>)
    ensures Joined(a + b) == Joined(a) + Joined(b)
  {
    if a == [] {
      assert a + b == b;
    } else {
      JoinedConcat(a[1..], b);
      assert (a + b)[1..] == a[1..] + b;
      ConcatAssoc(Unescape(a[0]), Joined(a[1..]), Joined(b));
    }
  }

  /** Made composes. */
  lemma MadeThen(cap: nat, o: Out, p: Part, m: Out, q: Part, r: Out)
    requires Made(cap, o, p, m) && Made(cap, m, q, r)
    requires Within(cap, o)
    ensures Made(cap, o, Then(p, q), r)
  {
    hide Streamable, Joined;
    if o.Out? {
      JoinedConcat(p.contents, q.contents);
      StreamableConcat(p.contents, q.contents);
      if m.Out? {
        AddedTwice(o, p, q);
      }
    }
  }

  lemma StreamableConcat(a: seq<seq<byte>>, b: seq<seq<byte>>)
    ensures AllStreamable(a + b) <==> AllStreamable(a) && AllStreamable(b)
  {
    hide Streamable;
    if AllStreamable(a + b) {
      assert forall i :: 0 <= i < |a| ==> (a + b)[i] == a[i];
      assert forall i :: 0 <= i < |b| ==> (a + b)[|a| + i] == b[i];
    }
  }

  lemma AddedTwice(o: Out, p: Part, q: Part)
    requires o.Out?
    ensures Added(Added(o, p), q) == Added(o, Then(p, q))
  {
    hide Joined;
    JoinedConcat(p.contents, q.contents);
    ConcatAssoc(o.doc, p.text, q.text);
    ConcatAssoc(o.content, Joined(p.contents), Joined(q.contents));
  }

  lemma PutMade(cap: nat, o: Out, text: seq<byte>)
    ensures Made(cap, o, Part(text, [], 0), Put(cap, o, text))
  {
    if o.Out? { assert o.content + [] == o.content; }
  }

  lemma ContentMade(cap: nat, o: Out, raw: seq<byte>)
    ensures Made(cap, o, Part(Placeholder(), [raw], 0), Divert(cap, o, raw))
  {
    hide Streamable, Unescape;
    assert Joined([raw]) == Unescape(raw) by {
      assert [raw][1..] == [];
      assert Unescape(raw) + Joined([]) == Unescape(raw);
    }
    assert [raw][0] == raw;
  }

  function ValuePart(v: Value, d: nat, g: Goal): Part {
    Part(Text(Redact(v, g)), Contents(v, g), if Depth(v) == 0 then 0 else d + Depth(v))
  }

  function ItemsPart(xs: Items, d: nat): Part {
    Part(ItemsText(xs), [], if ItemsDepth(xs) == 0 then 0 else d + ItemsDepth(xs))
  }

  function MembersPart(ms: Members, d: nat, g: Goal): Part {
    Part(MembersText(RedactMembers(ms, g)), MembersContents(ms, g), if MembersDepth(ms) == 0 then 0 else d + MembersDepth(ms))
  }

  /** Within the cap so far. */
  predicate Within(cap: nat, o: Out) {
    o.Out? ==> |o.doc| <= cap
  }

  lemma MadeWithin(cap: nat, o: Out, p: Part, r: Out)
    requires Made(cap, o, p, r) && Within(cap, o)
    ensures Within(cap, r)
  {
    hide Streamable, Joined;
  }

  /** A container: the opening, the part inside it, the closing. */
  lemma ContainerMade(cap: nat, o: Out, open: seq<byte>, p: Part, m: Out, close: seq<byte>, d: nat)
    requires Within(cap, o) && Made(cap, Put(cap, o, open), p, m) && d < MAX_DEPTH && (p.depth == 0 || p.depth > d)
    ensures Made(cap, o, Part(open + (p.text + close), p.contents, Max(d + 1, p.depth)), Put(cap, m, close))
  {
    hide Made, AllStreamable;
    var o1 := Put(cap, o, open);
    PutMade(cap, o, open);
    MadeWithin(cap, o, Part(open, [], 0), o1);
    MadeWithin(cap, o1, p, m);
    PutMade(cap, m, close);
    MadeThen(cap, o1, p, m, Part(close, [], 0), Put(cap, m, close));
    var pc := Then(p, Part(close, [], 0));
    MadeThen(cap, o, Part(open, [], 0), o1, pc, Put(cap, m, close));
    assert p.contents + [] == p.contents && [] + p.contents == p.contents;
    DeeperSame(cap, o, Part(open + (p.text + close), p.contents, p.depth), d + 1, Put(cap, m, close));
  }

  /** The container itself is within the depth limit. */
  lemma DeeperSame(cap: nat, o: Out, p: Part, d: nat, r: Out)
    requires Made(cap, o, p, r) && d <= MAX_DEPTH
    ensures Made(cap, o, p.(depth := Max(d, p.depth)), r)
  {
    hide AllStreamable, Joined;
  }

  lemma TooDeep(cap: nat, o: Out, p: Part)
    requires o.Out? && p.depth > MAX_DEPTH
    ensures Made(cap, o, p, Fail(EDepth, o.content))
  {
  }

  lemma AlreadyFailed(cap: nat, o: Out, p: Part)
    requires o.Fail?
    ensures Made(cap, o, p, o)
  {
  }

  lemma {:induction false} ValueMade(cap: nat, v: Value, d: nat, role: Role, o: Out, g: Goal)
    requires Within(cap, o) && Means(d, role, g)
    ensures Made(cap, o, ValuePart(v, d, g), Walk(cap, v, d, role, o))
    decreases v, 0
  {
    hide Made, AllStreamable, Put, Divert, Placeholder, Streamed, Within;
    if o.Fail? {
      AlreadyFailed(cap, o, ValuePart(v, d, g));
    } else {
      match v
      case Str(raw) =>
        if role.Content? {
          ContentMade(cap, o, raw);
          RedactedContent(v, d, g);
        } else {
          PutMade(cap, o, Quoted(raw));
        }
      case Prim(text) => PutMade(cap, o, text);
      case Arr(ws, items) =>
        if d >= MAX_DEPTH {
          TooDeep(cap, o, ValuePart(v, d, g));
        } else {
          var open := [ARR_OPEN] + ws;
          PutMade(cap, o, open);
          MadeWithin(cap, o, Part(open, [], 0), Put(cap, o, open));
          ItemsMade(cap, items, d + 1, Put(cap, o, open));
          ContainerMade(cap, o, open, ItemsPart(items, d + 1), WalkItems(cap, items, d + 1, Put(cap, o, open)), [ARR_CLOSE], d);
        }
      case Obj(ws, members) =>
        if d >= MAX_DEPTH {
          TooDeep(cap, o, ValuePart(v, d, g));
        } else {
          var open := [OBJ_OPEN] + ws;
          var on := d == 0 || role.OnPath?;
          PutMade(cap, o, open);
          MadeWithin(cap, o, Part(open, [], 0), Put(cap, o, open));
          MembersMade(cap, members, d + 1, on, Put(cap, o, open), g);
          ContainerMade(cap, o, open, MembersPart(members, d + 1, g), WalkMembers(cap, members, d + 1, on, Put(cap, o, open)), [OBJ_CLOSE], d);
        }
    }
  }

  lemma RedactedContent(v: Value, d: nat, g: Goal)
    requires v.Str? && Here(g)
    ensures ValuePart(v, d, g) == Part(Placeholder(), [v.raw], 0)
  {
  }

  /** A value, what follows it, and the rest. */
  lemma NextMade(cap: nat, o: Out, p: Part, r1: Out, after: seq<byte>, q: Part, r: Out)
    requires Within(cap, o) && Made(cap, o, p, r1) && Made(cap, Put(cap, r1, after), q, r)
    ensures Made(cap, o, Part(p.text + (after + q.text), p.contents + q.contents, Max(p.depth, q.depth)), r)
  {
    hide Made, AllStreamable;
    MadeWithin(cap, o, p, r1);
    PutMade(cap, r1, after);
    MadeThen(cap, r1, Part(after, [], 0), Put(cap, r1, after), q, r);
    MadeThen(cap, o, p, r1, Then(Part(after, [], 0), q), r);
    assert [] + q.contents == q.contents;
  }

  lemma {:induction false} ItemsMade(cap: nat, xs: Items, d: nat, o: Out)
    requires Within(cap, o) && d >= 1
    ensures Made(cap, o, ItemsPart(xs, d), WalkItems(cap, xs, d, o))
    decreases xs, 1
  {
    hide Made, AllStreamable, Put, Text, Walk, Redact, Contents, Depth, Within;
    match xs
    case NoItems => NothingMade(cap, o);
    case Item(v, ws, sep, more) =>
      var after := ws + AfterComma(more.Item?, sep);
      NowhereKeeps(v);
      ValueMade(cap, v, d, Plain, o, Nowhere);
      var r1 := Walk(cap, v, d, Plain, o);
      MadeWithin(cap, o, ValuePart(v, d, Nowhere), r1);
      PutMade(cap, r1, after);
      MadeWithin(cap, r1, Part(after, [], 0), Put(cap, r1, after));
      ItemsMade(cap, more, d, Put(cap, r1, after));
      NextMade(cap, o, ValuePart(v, d, Nowhere), r1, after, ItemsPart(more, d), WalkItems(cap, xs, d, o));
      var none: seq<seq<byte>> := [];
      assert none + none == none;
  }

  lemma NothingMade(cap: nat, o: Out)
    requires Within(cap, o)
    ensures Made(cap, o, Part([], [], 0), o)
  {
    if o.Out? { assert o.doc + [] == o.doc && o.content + [] == o.content; }
  }

  lemma {:induction false} MembersMade(cap: nat, ms: Members, d: nat, on: bool, o: Out, g: Goal)
    requires Within(cap, o) && MeansInside(d, on, g)
    ensures Made(cap, o, MembersPart(ms, d, g), WalkMembers(cap, ms, d, on, o))
    decreases ms, 1
  {
    hide Made, AllStreamable, Put, Text, Walk, Redact, Contents, Depth, KeyText, MemberRole, Within;
    match ms
    case NoMembers => NothingMade(cap, o);
    case Member(key, w1, w2, v, ws, sep, more) =>
      var after := ws + AfterComma(more.Member?, sep);
      var role := MemberRole(d, on, key);
      var head := KeyText(key, w1, w2);
      var o0 := Put(cap, o, head);
      PutMade(cap, o, head);
      MadeWithin(cap, o, Part(head, [], 0), o0);
      MemberMeans(d, on, g, key);
      ValueMade(cap, v, d, role, o0, MemberGoal(g, key));
      var p := ValuePart(v, d, MemberGoal(g, key));
      var r1 := Walk(cap, v, d, role, o0);
      MadeWithin(cap, o0, p, r1);
      PutMade(cap, r1, after);
      MadeWithin(cap, r1, Part(after, [], 0), Put(cap, r1, after));
      MembersMade(cap, more, d, on, Put(cap, r1, after), g);
      var q := MembersPart(more, d, g);
      var r := WalkMembers(cap, ms, d, on, o);
      NextMade(cap, o0, p, r1, after, q, r);
      var pq := Part(p.text + (after + q.text), p.contents + q.contents, Max(p.depth, q.depth));
      MadeThen(cap, o, Part(head, [], 0), o0, pq, r);
      assert [] + pq.contents == pq.contents;
  }

  // --- whole bodies ----------------------------------------------------------------------------

  function Body(w1: seq<byte>, v: Value, w2: seq<byte>): seq<byte> {
    w1 + (Text(v) + w2)
  }

  /** The strings at $.params.arguments.content. */
  function ContentStrings(v: Value): seq<seq<byte>> {
    Contents(v, At(Path()))
  }

  /** The body's text with those strings replaced. */
  function Reduced(w1: seq<byte>, v: Value, w2: seq<byte>): seq<byte> {
    Body(w1, Redact(v, At(Path())), w2)
  }

  lemma StartAgrees(cap: nat)
    ensures Agrees(cap, Going(Initial()), Out([], [], false), Place(0, [false], [false]))
    ensures Expects(Going(Initial()), Plain) && AtValue(Going(Initial()), Place(0, [false], [false]))
  {
    assert Initial().onPath[..1] == [false] && Initial().isObj[..1] == [false];
  }

  /** The walk of a whole body. */
  function WalkBody(cap: nat, w1: seq<byte>, v: Value, w2: seq<byte>): Out {
    Put(cap, Walk(cap, v, 0, Plain, Put(cap, Out([], [], false), w1)), w2)
  }

  lemma {:induction false} BodyRuns(cap: nat, w1: seq<byte>, v: Value, w2: seq<byte>)
    requires WellFormed(v) && Spaces(w1) && Spaces(w2)
    ensures Agrees(cap, Run(cap, Going(Initial()), Body(w1, v, w2)), WalkBody(cap, w1, v, w2), Place(0, [false], [false]))
  {
    hide Run, Put, Outside, Walk, WellFormed, Text;
    var r, o, x := Going(Initial()), Out([], [], false), Place(0, [false], [false]);
    StartAgrees(cap);
    RunConcat(cap, r, w1, Text(v) + w2);
    SpacesAgree(cap, r, o, x, w1, Plain);
    var r1, o1 := Run(cap, r, w1), Put(cap, o, w1);
    RunConcat(cap, r1, Text(v), w2);
    ValueAgrees(cap, r1, o1, x, v, Plain);
    SpacesAgree(cap, Run(cap, r1, Text(v)), Walk(cap, v, 0, Plain, o1), x, w2, Plain);
  }

  lemma {:induction false} BodyMade(cap: nat, w1: seq<byte>, v: Value, w2: seq<byte>)
    ensures Made(cap, Out([], [], false), Part(Reduced(w1, v, w2), ContentStrings(v), Depth(v)), WalkBody(cap, w1, v, w2))
  {
    hide Made, AllStreamable, Walk, Text, Put, Contents, Redact;
    var o := Out([], [], false);
    var p := ValuePart(v, 0, At(Path()));
    PutMade(cap, o, w1);
    var o1 := Put(cap, o, w1);
    MadeWithin(cap, o, Part(w1, [], 0), o1);
    ValueMade(cap, v, 0, Plain, o1, At(Path()));
    var r1 := Walk(cap, v, 0, Plain, o1);
    MadeWithin(cap, o1, p, r1);
    PutMade(cap, r1, w2);
    MadeThen(cap, o1, p, r1, Part(w2, [], 0), WalkBody(cap, w1, v, w2));
    var pw := Then(p, Part(w2, [], 0));
    MadeThen(cap, o, Part(w1, [], 0), o1, pw, WalkBody(cap, w1, v, w2));
    assert p.contents + [] == p.contents && [] + p.contents == p.contents;
  }

  /** For every JSON body: the scanner accepts it exactly if it nests at most 15 containers, its
      reduced text fits the document, at most one string stands at $.params.arguments.content and
      that string has only escapes base64 text can carry. Then the document is the reduced text
      and the sink has got the unescaped string; otherwise the error names what is wrong. */
  lemma {:induction false} BodyScanned(cap: nat, w1: seq<byte>, v: Value, w2: seq<byte>)
    requires WellFormed(v) && Spaces(w1) && Spaces(w2)
    ensures var r, cs := Finish(Run(cap, Going(Initial()), Body(w1, v, w2))), ContentStrings(v);
            (r.Going? <==> Depth(v) <= MAX_DEPTH && |Reduced(w1, v, w2)| <= cap && |cs| <= 1 && AllStreamable(cs)) &&
            (r.Going? ==> r.st.doc == Reduced(w1, v, w2) && r.st.content == Joined(cs) && r.st.found == (cs != [])) &&
            (r.Failed? ==>
              match r.error
              case EDepth => Depth(v) > MAX_DEPTH
              case EDoc => |Reduced(w1, v, w2)| > cap
              case EContent => !AllStreamable(cs)
              case EDup => |cs| > 1
              case EPartial => false)
  {
    hide Run, Walk, WellFormed, Text, AllStreamable, Joined, ContentStrings, Reduced, WalkBody, Depth;
    BodyRuns(cap, w1, v, w2);
    BodyMade(cap, w1, v, w2);
    var p := Part(Reduced(w1, v, w2), ContentStrings(v), Depth(v));
    assert [] + p.text == p.text && [] + Joined(p.contents) == Joined(p.contents);
  }
}
