/** generate_tools of generate_resource.py from the definitions on, and what the server then sends. */
module ToolPublishing {
  import opened ToolDefs
  import opened ToolSharing
  import opened ToolTracing
  import opened ToolHeads
  import opened ToolPieces
  import opened ToolJson
  import opened ToolWriting

  predicate Published(docs: seq<ToolDoc>, defs: map<Name, Node>, rank: map<Name, nat>, bound: nat) {
    Acyclic(defs, rank) && (forall d :: d in defs ==> d in rank) &&
    forall i :: 0 <= i < |docs| ==> Resolvable(NameFirst(docs[i]), defs, rank, bound) && PlainName(docs[i].name)
  }

  /** The pieces of every tool. */
  function AllPieces(docs: seq<ToolDoc>, defs: map<Name, Node>, rank: map<Name, nat>, bound: nat, keep: set<Name>): (ts: seq<Tool>)
    requires Published(docs, defs, rank, bound)
    ensures |ts| == |docs| && forall i :: 0 <= i < |ts| ==> ts[i] == Pieces(NameFirst(docs[i]), defs, rank, bound, keep)
  {
    seq(|docs|, i requires 0 <= i < |docs| => Pieces(NameFirst(docs[i]), defs, rank, bound, keep))
  }

  // --- what is shared ---------------------------------------------------------------------------------

  /** Storing a text once saves more than its pointers cost. */
  predicate WorthSharing(uses: nat, length: nat) {
    (uses - 1) * length > 9 * uses
  }

  /** The names that can stand in a placeholder: letters, digits and underscores. */
  predicate WordName(d: Name) {
    d != "" && forall k :: 0 <= k < |d| ==>
      '0' <= d[k] <= '9' || 'A' <= d[k] <= 'Z' || 'a' <= d[k] <= 'z' || d[k] == '_'
  }

  /** The def can be marked by a placeholder, and is worth sharing. */
  predicate Shareable(tools: seq<Tool>, texts: map<Name, Text>, d: Name) {
    WordName(d) && d in texts && WorthSharing(TotalUses(tools, d), |texts[d]|)
  }

  function AllRefs(tools: seq<Tool>): seq<Name> {
    if tools == [] then [] else AllRefs(tools[..|tools| - 1]) + tools[|tools| - 1].refs
  }

  lemma {:induction false} InAllRefs(tools: seq<Tool>, d: Name)
    ensures d in AllRefs(tools) <==> exists j :: 0 <= j < |tools| && d in tools[j].refs
  {
    if tools != [] {
      var n := |tools| - 1;
      InAllRefs(tools[..n], d);
      if j :| 0 <= j < |tools| && d in tools[j].refs {
        assert j < n ==> d in tools[..n][j].refs;
      }
    }
  }

  /** Those of the names that are shareable, in the same order. */
  function OnlyShareable(names: seq<Name>, tools: seq<Tool>, texts: map<Name, Text>): (r: seq<Name>)
    ensures forall d :: d in r <==> d in names && Shareable(tools, texts, d)
  {
    if names == [] then []
    else
      var n := |names| - 1;
      OnlyShareable(names[..n], tools, texts) + (if Shareable(tools, texts, names[n]) then [names[n]] else [])
  }

  /** The defs to share, in the order of their first uses. */
  method ChooseShared(tools: seq<Tool>, texts: map<Name, Text>) returns (names: seq<Name>)
    requires AllValid(tools, texts)
    ensures names == OnlyShareable(Used(AllRefs(tools)), tools, texts)
    ensures forall d :: d in names <==> (exists j :: 0 <= j < |tools| && d in tools[j].refs) && Shareable(tools, texts, d)
  {
    hide Shareable;
    names := [];
    for j := 0 to |tools|
      invariant names == OnlyShareable(Used(AllRefs(tools[..j])), tools, texts)
    {
      assert tools[..j + 1][..j] == tools[..j];
      names := ChooseMore(tools, texts, AllRefs(tools[..j]), names, j);
    }
    assert tools[..|tools|] == tools;
    forall d
      ensures d in AllRefs(tools) <==> exists j :: 0 <= j < |tools| && d in tools[j].refs
    {
      InAllRefs(tools, d);
    }
  }

  method ChooseMore(tools: seq<Tool>, texts: map<Name, Text>, ghost before: seq<Name>, chosen: seq<Name>, j: nat)
    returns (names: seq<Name>)
    requires AllValid(tools, texts) && j < |tools| && chosen == OnlyShareable(Used(before), tools, texts)
    ensures names == OnlyShareable(Used(before + tools[j].refs), tools, texts)
  {
    hide WorthSharing, WordName, Used, OnlyShareable;
    names := chosen;
    var refs := tools[j].refs;
    assert tools[j].Covered(texts) && before + refs[..0] == before;
    for k := 0 to |refs|
      invariant names == OnlyShareable(Used(before + refs[..k]), tools, texts)
    {
      OneMore(before + refs[..k], refs[k], tools, texts);
      assert before + refs[..k + 1] == before + refs[..k] + [refs[k]];
      if refs[k] !in names && WordName(refs[k]) && WorthSharing(TotalUses(tools, refs[k]), |texts[refs[k]]|) {
        names := names + [refs[k]];
      }
    }
    assert refs[..|refs|] == refs;
  }

  lemma OneMore(refs: seq<Name>, d: Name, tools: seq<Tool>, texts: map<Name, Text>)
    ensures OnlyShareable(Used(refs + [d]), tools, texts)
         == OnlyShareable(Used(refs), tools, texts) + (if d !in refs && Shareable(tools, texts, d) then [d] else [])
  {
    hide Shareable;
    var all := refs + [d];
    assert all[..|all| - 1] == refs;
    var u := Used(refs);
    if d !in refs { assert (u + [d])[..|u|] == u; }
  }

  lemma {:induction false} JoinRefs(a: Tool, b: Tool)
    requires a.Valid() && b.Valid()
    ensures Join(a, b).refs == a.refs + b.refs
    decreases |a.refs|
  {
    if a.refs != [] {
      JoinRefs(Rest(a), b);
      assert [a.refs[0]] + (a.refs[1..] + b.refs) == a.refs + b.refs;
    }
  }

  lemma JoinUse(a: Tool, b: Tool, d: Name)
    requires a.Valid() && b.Valid()
    ensures d in Join(a, b).refs <==> d in a.refs || d in b.refs
  {
    hide Join;
    JoinRefs(a, b);
  }

  lemma InBrackets(open: Text, t: Tool, close: Text, d: Name)
    requires t.Valid()
    ensures d in Join(Plain(open), Join(t, Plain(close))).refs <==> d in t.refs
  {
    hide Join;
    JoinUse(t, Plain(close), d);
    JoinUse(Plain(open), Join(t, Plain(close)), d);
  }

  /** With fewer defs kept, those kept are still used. */
  lemma {:induction false} StillUsed(n: Node, defs: map<Name, Node>, rank: map<Name, nat>, bound: nat, all: set<Name>, keep: set<Name>, d: Name)
    requires Acyclic(defs, rank) && Resolvable(n, defs, rank, bound) && d in keep && keep <= all
    requires d in Pieces(n, defs, rank, bound, all).refs
    ensures d in Pieces(n, defs, rank, bound, keep).refs
    decreases bound, n, 0
  {
    hide Join, Dump;
    match n
    case Leaf(_) =>
    case List(items) =>
      var a, b := NodesPieces(items, defs, rank, bound, all), NodesPieces(items, defs, rank, bound, keep);
      if d in a.refs { StillUsedNodes(items, defs, rank, bound, all, keep, d); }
      InBrackets("[", a, "]", d);
      InBrackets("[", b, "]", d);
    case Dict(entries) =>
      var a, b := EntriesPieces(entries, defs, rank, bound, all), EntriesPieces(entries, defs, rank, bound, keep);
      if d in a.refs { StillUsedEntries(entries, defs, rank, bound, all, keep, d); }
      InBrackets("{", a, "}", d);
      InBrackets("{", b, "}", d);
    case Ref(e) =>
      if e !in all { StillUsed(defs[e], defs, rank, rank[e], all, keep, d); }
  }

  lemma {:induction false} StillUsedNodes(ns: Nodes, defs: map<Name, Node>, rank: map<Name, nat>, bound: nat, all: set<Name>, keep: set<Name>, d: Name)
    requires Acyclic(defs, rank) && NodesResolvable(ns, defs, rank, bound) && d in keep && keep <= all
    requires d in NodesPieces(ns, defs, rank, bound, all).refs
    ensures d in NodesPieces(ns, defs, rank, bound, keep).refs
    decreases bound, ns, 1
  {
    hide Join, Acyclic;
    match ns
    case NoNodes =>
    case Cons(n, more) =>
      var comma := Plain(if more.Cons? then "," else "");
      var a, b := Pieces(n, defs, rank, bound, all), NodesPieces(more, defs, rank, bound, all);
      var a', b' := Pieces(n, defs, rank, bound, keep), NodesPieces(more, defs, rank, bound, keep);
      if d in a.refs { StillUsed(n, defs, rank, bound, all, keep, d); }
      if d in b.refs { StillUsedNodes(more, defs, rank, bound, all, keep, d); }
      JoinUse(comma, b, d);
      JoinUse(comma, b', d);
      JoinUse(a, Join(comma, b), d);
      JoinUse(a', Join(comma, b'), d);
  }

  lemma {:induction false} StillUsedEntries(es: Entries, defs: map<Name, Node>, rank: map<Name, nat>, bound: nat, all: set<Name>, keep: set<Name>, d: Name)
    requires Acyclic(defs, rank) && EntriesResolvable(es, defs, rank, bound) && d in keep && keep <= all
    requires d in EntriesPieces(es, defs, rank, bound, all).refs
    ensures d in EntriesPieces(es, defs, rank, bound, keep).refs
    decreases bound, es, 1
  {
    hide Join, Acyclic, DumpString;
    match es
    case NoEntries =>
    case Entry(key, n, more) =>
      var comma, name := Plain(if more.Entry? then "," else ""), Plain(DumpString(key) + ":");
      var a, b := Pieces(n, defs, rank, bound, all), EntriesPieces(more, defs, rank, bound, all);
      var a', b' := Pieces(n, defs, rank, bound, keep), EntriesPieces(more, defs, rank, bound, keep);
      if d in a.refs { StillUsed(n, defs, rank, bound, all, keep, d); }
      if d in b.refs { StillUsedEntries(more, defs, rank, bound, all, keep, d); }
      JoinUse(comma, b, d);
      JoinUse(comma, b', d);
      JoinUse(a, Join(comma, b), d);
      JoinUse(a', Join(comma, b'), d);
      JoinUse(name, Join(a, Join(comma, b)), d);
      JoinUse(name, Join(a', Join(comma, b')), d);
  }

  // --- the generator ------------------------------------------------------------------------------------

  lemma PiecesCovered(docs: seq<ToolDoc>, defs: map<Name, Node>, rank: map<Name, nat>, bound: nat, keep: set<Name>, shared: map<Name, Text>)
    requires Published(docs, defs, rank, bound) && SharedTexts(defs, rank, keep, shared)
    ensures AllValid(AllPieces(docs, defs, rank, bound, keep), shared)
    ensures forall i :: 0 <= i < |docs| ==>
      Expand(AllPieces(docs, defs, rank, bound, keep)[i], shared) == Minified(NameFirst(docs[i]), defs, rank, bound) &&
      Head(docs[i].name) <= AllPieces(docs, defs, rank, bound, keep)[i].texts[0]
  {
    hide Pieces, Expand, Minified, Acyclic, Resolvable, NameFirst, Head, PlainName;
    var ts := AllPieces(docs, defs, rank, bound, keep);
    forall i | 0 <= i < |docs|
      ensures ts[i].Covered(shared)
      ensures Expand(ts[i], shared) == Minified(NameFirst(docs[i]), defs, rank, bound) && Head(docs[i].name) <= ts[i].texts[0]
    {
      PiecesExpand(NameFirst(docs[i]), defs, rank, bound, keep, shared);
      PiecesHead(docs[i], defs, rank, bound, keep);
    }
  }

  /** The defs chosen are used by the pieces that keep only them. */
  lemma ChosenUsed(docs: seq<ToolDoc>, defs: map<Name, Node>, rank: map<Name, nat>, bound: nat, keep: set<Name>)
    requires Published(docs, defs, rank, bound) && keep <= defs.Keys
    requires forall d :: d in keep ==>
      exists j :: 0 <= j < |docs| && d in AllPieces(docs, defs, rank, bound, defs.Keys)[j].refs
    ensures AllUsed(AllPieces(docs, defs, rank, bound, keep), keep)
  {
    hide Pieces, Acyclic, Resolvable, NameFirst, PlainName;
    var ts := AllPieces(docs, defs, rank, bound, keep);
    forall d | d in keep
      ensures exists j, k :: UseAt(ts, d, j, k)
    {
      var j :| 0 <= j < |docs| && d in AllPieces(docs, defs, rank, bound, defs.Keys)[j].refs;
      StillUsed(NameFirst(docs[j]), defs, rank, bound, defs.Keys, keep, d);
      var k :| 0 <= k < |ts[j].refs| && ts[j].refs[k] == d;
      assert UseAt(ts, d, j, k);
    }
  }

  /** The full texts of the defs. */
  function DefTexts(defs: map<Name, Node>, rank: map<Name, nat>): (m: map<Name, Text>)
    requires Acyclic(defs, rank) && forall d :: d in defs ==> d in rank
    ensures m.Keys == defs.Keys && SharedTexts(defs, rank, defs.Keys, m)
  {
    map d | d in defs :: Minified(defs[d], defs, rank, rank[d])
  }

  function Heads(docs: seq<ToolDoc>): (h: seq<Text>)
    ensures |h| == |docs| && forall i :: 0 <= i < |h| ==> h[i] == Head(docs[i].name)
  {
    seq(|docs|, i requires 0 <= i < |docs| => Head(docs[i].name))
  }

  function FullTexts(docs: seq<ToolDoc>, defs: map<Name, Node>, rank: map<Name, nat>, bound: nat): (t: seq<Text>)
    requires Published(docs, defs, rank, bound)
    ensures |t| == |docs| && forall i :: 0 <= i < |t| ==> t[i] == Minified(NameFirst(docs[i]), defs, rank, bound) && Printable(t[i])
  {
    seq(|docs|, i requires 0 <= i < |docs| => Minified(NameFirst(docs[i]), defs, rank, bound))
  }

  lemma HeadsPrintable(docs: seq<ToolDoc>, defs: map<Name, Node>, rank: map<Name, nat>, bound: nat, shared: map<Name, Text>)
    requires Published(docs, defs, rank, bound) && SharedTexts(defs, rank, {}, shared)
    ensures forall i :: 0 <= i < |docs| ==> Printable(Head(docs[i].name))
  {
    hide Pieces, Expand, Minified, Acyclic, Resolvable, NameFirst, Head, PlainName;
    PiecesCovered(docs, defs, rank, bound, {}, shared);
    forall i | 0 <= i < |docs|
      ensures Printable(Head(docs[i].name))
    {
      var t := AllPieces(docs, defs, rank, bound, {})[i];
      PrintableTexts(t, shared);
      var head := Head(docs[i].name);
      assert head == t.texts[0][..|head|];
    }
  }

  /** The defs shared: those used often enough. */
  ghost function SharedDefs(docs: seq<ToolDoc>, defs: map<Name, Node>, rank: map<Name, nat>, bound: nat): (keep: set<Name>)
    requires Published(docs, defs, rank, bound)
    ensures keep <= defs.Keys
  {
    var all := AllPieces(docs, defs, rank, bound, defs.Keys);
    set d | d in defs && (exists j :: 0 <= j < |docs| && d in all[j].refs) && Shareable(all, DefTexts(defs, rank), d)
  }

  /** A tool's pieces when those defs are shared. */
  ghost function SharedPieces(docs: seq<ToolDoc>, defs: map<Name, Node>, rank: map<Name, nat>, bound: nat): (ts: seq<Tool>)
    requires Published(docs, defs, rank, bound)
    ensures |ts| == |docs| && AllTools(ts)
    ensures forall i :: 0 <= i < |docs| ==> Head(docs[i].name) != "" && Head(docs[i].name) <= ts[i].texts[0]
  {
    var keep := SharedDefs(docs, defs, rank, bound);
    PiecesCovered(docs, defs, rank, bound, keep, DefTexts(defs, rank));
    AllPieces(docs, defs, rank, bound, keep)
  }

  /** generate_tools: the arrays stand for the definitions with every reference inlined, and start
      with their tools' heads. It stops at a tool only if that one uses more than 31 shared defs or its
      head is not safe; and it does stop then, where nothing disturbs that. */
  method GenerateTools(docs: seq<ToolDoc>, defs: map<Name, Node>, rank: map<Name, nat>, bound: nat) returns (r: Generation)
    requires Published(docs, defs, rank, bound)
    ensures match r
            case Arrays(arrays) => |arrays| == |docs| && forall i :: 0 <= i < |docs| ==>
              Rebuilds(arrays[i], Minified(NameFirst(docs[i]), defs, rank, bound)) && Head(docs[i].name) <= arrays[i][0]
            case TooManyShared(i) => i < |docs| && |Used(SharedPieces(docs, defs, rank, bound)[i].refs)| > 31
            case NotRebuilt(i) => i < |docs| && !HeadSafe(SharedPieces(docs, defs, rank, bound), i, Head(docs[i].name))
    ensures r.Arrays? ==> forall i :: 0 <= i < |docs| ==>
      Judged(SharedPieces(docs, defs, rank, bound), i, Head(docs[i].name))
  {
    hide Pieces, AllPieces, Expand, Minified, Acyclic, Resolvable, NameFirst, Head, PlainName, Printable, Traced, Settled, Markers,
         Unmarked, Used, HeadSafe, Judged, Shareable, OnlyShareable, SharedPieces, SharedDefs, Chosen, Rebuilds;
    var all := DefTexts(defs, rank);
    PiecesCovered(docs, defs, rank, bound, defs.Keys, all);
    var names := ChooseShared(AllPieces(docs, defs, rank, bound, defs.Keys), all);
    ChosenAreDefs(docs, defs, rank, bound, names);
    ghost var grown, texts, tr;
    r, grown, texts, tr := GenerateShared(docs, defs, rank, bound, names, all);
    forall i | 0 <= i < |docs|
      ensures Outcome(docs, defs, rank, bound, grown, i)
    {
      OutcomeIs(docs, defs, rank, bound, grown, texts, tr, i);
    }
    if r.Arrays? {
      forall i | 0 <= i < |docs|
        ensures Judged(SharedPieces(docs, defs, rank, bound), i, Head(docs[i].name))
      {
        assert Outcome(docs, defs, rank, bound, grown, i);
        assert Fits(grown[i], Head(docs[i].name));
      }
    } else {
      assert Outcome(docs, defs, rank, bound, grown, r.tool);
    }
  }

  /** What the pieces before the rewriting tell of a tool's pieces after it. */
  ghost predicate Outcome(docs: seq<ToolDoc>, defs: map<Name, Node>, rank: map<Name, nat>, bound: nat, grown: seq<Tool>, i: nat)
    requires Published(docs, defs, rank, bound) && |grown| == |docs| && AllTools(grown) && i < |docs|
  {
    var ts, head := SharedPieces(docs, defs, rank, bound), Head(docs[i].name);
    (HeadSafe(ts, i, head) ==> head <= grown[i].texts[0]) &&
    (head <= grown[i].texts[0] ==> Judged(ts, i, head)) &&
    |Used(grown[i].refs)| <= |Used(ts[i].refs)|
  }

  lemma OutcomeIs(docs: seq<ToolDoc>, defs: map<Name, Node>, rank: map<Name, nat>, bound: nat,
                  grown: seq<Tool>, texts: map<Name, Text>, tr: Trace, i: nat)
    requires Published(docs, defs, rank, bound) && i < |docs|
    requires Traced(SharedPieces(docs, defs, rank, bound), grown, tr) && |grown| == |docs| && AllValid(grown, texts)
    requires tr.last.Keys == texts.Keys && forall d :: d in texts ==> Settled(grown, d)
    ensures Outcome(docs, defs, rank, bound, grown, i)
  {
    hide SharedPieces, Traced, Settled, HeadSafe, Judged, Published, Used, Head;
    HeadJudged(docs, defs, rank, bound, grown, texts, tr, i);
    FewerUsed(SharedPieces(docs, defs, rank, bound), grown, tr, i);
  }

  /** The head is safe, if nothing disturbs the text before the other uses of the first def. */
  ghost predicate Judged(ts: seq<Tool>, i: nat, head: Text)
    requires AllTools(ts) && i < |ts| && head != "" && head <= ts[i].texts[0]
  {
    (ts[i].refs != [] ==> Undisturbed(ts, ts[i].refs[0], |FromHeadsEnd(ts[i], head)|)) ==> HeadSafe(ts, i, head)
  }

  /** Each tool uses at most 31 shared defs. */
  ghost predicate FewUsed(docs: seq<ToolDoc>, defs: map<Name, Node>, rank: map<Name, nat>, bound: nat)
    requires Published(docs, defs, rank, bound)
  {
    forall i :: 0 <= i < |docs| ==> |Used(SharedPieces(docs, defs, rank, bound)[i].refs)| <= 31
  }

  ghost predicate AllSafe(docs: seq<ToolDoc>, defs: map<Name, Node>, rank: map<Name, nat>, bound: nat)
    requires Published(docs, defs, rank, bound)
  {
    forall i :: 0 <= i < |docs| ==> HeadSafe(SharedPieces(docs, defs, rank, bound), i, Head(docs[i].name))
  }

  /** The rewriting brings no def to a tool that did not use it. */
  lemma FewerUsed(a: seq<Tool>, b: seq<Tool>, tr: Trace, i: nat)
    requires Traced(a, b, tr) && AllTools(a) && AllTools(b) && i < |a|
    ensures |Used(b[i].refs)| <= |Used(a[i].refs)|
  {
    hide Used;
    assert Came(a[i], b[i], tr.at[i], tr);
    var s := set d | d in a[i].refs;
    forall d | d in b[i].refs
      ensures d in s
    {
      var m :| 0 <= m < |b[i].refs| && b[i].refs[m] == d;
      PlacedParts(a[i], b[i], tr.at[i], tr.last, m);
    }
    UsedFew(b[i].refs, s);
    UsedAll(a[i].refs, s);
  }

  lemma UsedAll(refs: seq<Name>, s: set<Name>)
    requires s == set d | d in refs
    ensures |Used(refs)| >= |s|
  {
    SetOfFew(Used(refs), s);
  }

  lemma {:induction false} SetOfFew(u: seq<Name>, s: set<Name>)
    requires forall d :: d in s ==> d in u
    ensures |s| <= |u|
  {
    if u != [] {
      var n := |u| - 1;
      SetOfFew(u[..n], s - {u[n]});
    } else {
      assert s == {};
    }
  }

  /** The names chosen are those of the defs shared. */
  lemma ChosenAreDefs(docs: seq<ToolDoc>, defs: map<Name, Node>, rank: map<Name, nat>, bound: nat, names: seq<Name>)
    requires Published(docs, defs, rank, bound)
    requires var all := AllPieces(docs, defs, rank, bound, defs.Keys);
             forall d :: d in names <==>
               (exists j :: 0 <= j < |all| && d in all[j].refs) && Shareable(all, DefTexts(defs, rank), d)
    ensures Chosen(docs, defs, rank, bound, set d | d in names)
    ensures SharedPieces(docs, defs, rank, bound) == AllPieces(docs, defs, rank, bound, set d | d in names)
  {
    hide Pieces, Minified, Acyclic, Resolvable, NameFirst, Head, PlainName;
    assert SharedDefs(docs, defs, rank, bound) == set d | d in names;
  }

  ghost predicate Chosen(docs: seq<ToolDoc>, defs: map<Name, Node>, rank: map<Name, nat>, bound: nat, keep: set<Name>)
    requires Published(docs, defs, rank, bound)
  {
    keep <= defs.Keys && forall d :: d in keep ==>
      exists j :: 0 <= j < |docs| && d in AllPieces(docs, defs, rank, bound, defs.Keys)[j].refs
  }

  /** The second half of generate_tools, for the defs chosen. */
  method GenerateShared(docs: seq<ToolDoc>, defs: map<Name, Node>, rank: map<Name, nat>, bound: nat, names: seq<Name>, all: map<Name, Text>)
    returns (r: Generation, ghost grown: seq<Tool>, ghost texts: map<Name, Text>, ghost tr: Trace)
    requires Published(docs, defs, rank, bound) && all == DefTexts(defs, rank)
    requires Chosen(docs, defs, rank, bound, set d | d in names)
    ensures Traced(AllPieces(docs, defs, rank, bound, set d | d in names), grown, tr) && AllValid(grown, texts) && |grown| == |docs|
    ensures tr.last.Keys == texts.Keys <= (set d | d in names) && forall d :: d in texts ==> Settled(grown, d)
    ensures match r
            case Arrays(arrays) => |arrays| == |docs| && forall i :: 0 <= i < |docs| ==>
              Fits(grown[i], Head(docs[i].name)) &&
              Rebuilds(arrays[i], Minified(NameFirst(docs[i]), defs, rank, bound)) && Head(docs[i].name) <= arrays[i][0]
            case TooManyShared(i) => i < |docs| && |Used(grown[i].refs)| > MAX_SHARED
            case NotRebuilt(i) => i < |docs| && !(Head(docs[i].name) <= grown[i].texts[0])
  {
    hide Pieces, Expand, Minified, Acyclic, Resolvable, NameFirst, Head, PlainName, Printable, Traced, Settled, Markers, Unmarked,
         Used, AllUsed, Published, DefTexts;
    var kept := set d | d in names;
    var shared := map d | d in kept :: all[d];
    assert shared.Keys == kept;
    PiecesCovered(docs, defs, rank, bound, kept, shared);
    ChosenUsed(docs, defs, rank, bound, kept);
    HeadsPrintable(docs, defs, rank, bound, shared);
    r, grown, texts, tr := GenerateArrays(AllPieces(docs, defs, rank, bound, kept), names, shared,
                                          FullTexts(docs, defs, rank, bound), Heads(docs));
  }

  /** From the definitions to the bytes sent: unless the generator stops, write_tool sends the full
      definition of tool i, a JSON text of its name and its other entries, and returns its length, and
      tool_is finds it by its name. */
  method Publish(docs: seq<ToolDoc>, defs: map<Name, Node>, rank: map<Name, nat>, bound: nat, i: nat, name: Name)
    returns (stopped: bool, sent: Text, total: nat, found: bool)
    requires Published(docs, defs, rank, bound) && i < |docs|
    ensures !stopped ==> sent == Minified(NameFirst(docs[i]), defs, rank, bound) && total == |sent|
    ensures !stopped ==>
      exists members :: Spells(sent, Object(members)) && IsDefinition(members, docs[i], defs, rank, bound)
    ensures FewUsed(docs, defs, rank, bound) && AllSafe(docs, defs, rank, bound) ==> !stopped
    ensures !stopped && '"' !in docs[i].name && '"' !in name ==> (found <==> name == docs[i].name)
  {
    hide Pieces, Expand, Minified, Acyclic, Resolvable, NameFirst, Head, PlainName, Printable, Traced, Settled, Markers, Unmarked, Used, HeadSafe, Judged,
         Spells, IsDefinition;
    ghost var members := DefinitionSpelled(docs[i], defs, rank, bound);
    var r := GenerateTools(docs, defs, rank, bound);
    stopped, sent, total, found := true, "", 0, false;
    if r.Arrays? {
      var def := r.defs[i];
      sent, total := WriteTool(def, true);
      HeadLength(docs[i].name);
      found := ToolIs(def[0], name);
      if '"' !in docs[i].name { FoundByName(def[0], docs[i].name, name); }
      stopped := false;
    }
  }

  lemma HeadLength(name: Name)
    ensures |OPENING| <= |Head(name)|
  {
  }

  /** Whether the generator keeps a tool's head, judged from its pieces before the rewriting. */
  lemma HeadJudged(docs: seq<ToolDoc>, defs: map<Name, Node>, rank: map<Name, nat>, bound: nat,
                   grown: seq<Tool>, texts: map<Name, Text>, tr: Trace, i: nat)
    requires Published(docs, defs, rank, bound) && i < |docs|
    requires Traced(SharedPieces(docs, defs, rank, bound), grown, tr) && AllValid(grown, texts)
    requires tr.last.Keys == texts.Keys && forall d :: d in texts ==> Settled(grown, d)
    ensures var ts, head := SharedPieces(docs, defs, rank, bound), Head(docs[i].name);
            (HeadSafe(ts, i, head) ==> head <= grown[i].texts[0]) && (head <= grown[i].texts[0] ==> Judged(ts, i, head))
  {
    hide SharedPieces, Traced, Settled, HeadSafe, Undisturbed, Published;
    var ts, head := SharedPieces(docs, defs, rank, bound), Head(docs[i].name);
    FirstText(ts, grown, tr, i);
    if HeadSafe(ts, i, head) { HeadKept(ts, grown, tr, i, head); }
    if ts[i].refs != [] ==> Undisturbed(ts, ts[i].refs[0], |FromHeadsEnd(ts[i], head)|) {
      HeadIff(ts, grown, tr, i, head);
    }
  }

  // --- the list of tools ----------------------------------------------------------------------------

  lemma {:induction false} CommasMore(parts: seq<Text>, last: Text)
    ensures Commas(parts + [last]) == (if parts == [] then last else Commas(parts) + "," + last)
  {
    if |parts| > 0 {
      var all := parts + [last];
      assert all[1..] == parts[1..] + [last];
      CommasMore(parts[1..], last);
      if |parts| > 1 {
        TextAssoc(parts[0], Commas(parts[1..]), last);
      }
    }
  }

  lemma TextAssoc(a: Text, b: Text, c: Text)
    ensures a + "," + (b + "," + c) == a + "," + b + "," + c
  {
  }

  /** The first n definitions in full. */
  ghost function FullDefinitions(defs: seq<seq<Text>>, n: nat): (parts: seq<Text>)
    requires AllMarkers(defs) && n <= |defs|
    ensures |parts| == n && forall i :: 0 <= i < n ==> parts[i] == Unmarked(defs[i], defs[i][0])
  {
    hide Markers, Unmarked;
    if n == 0 then [] else FullDefinitions(defs, n - 1) + [Unmarked(defs[n - 1], defs[n - 1][0])]
  }

  lemma {:induction false} ListedCommas(defs: seq<seq<Text>>, n: nat)
    requires AllMarkers(defs) && n <= |defs|
    ensures Listed(defs, n) == Commas(FullDefinitions(defs, n))
  {
    hide Commas, Markers, Unmarked;
    if n == 0 {
      NoCommas();
    } else {
      ListedCommas(defs, n - 1);
      CommasMore(FullDefinitions(defs, n - 1), Unmarked(defs[n - 1], defs[n - 1][0]));
      if n == 1 { assert Listed(defs, 0) + "" + Unmarked(defs[0], defs[0][0]) == Unmarked(defs[0], defs[0][0]); }
    }
  }

  lemma NoCommas()
    ensures Commas([]) == ""
  {
  }

  /** The result of tools/list is a JSON text of an object with the array of all definitions. */
  lemma ListSpelled(defs: seq<seq<Text>>, tools: seq<Json>)
    requires AllMarkers(defs) && |tools| == |defs|
    requires forall i :: 0 <= i < |defs| ==> Spells(Unmarked(defs[i], defs[i][0]), tools[i])
    ensures Spells("{\"tools\":[" + Listed(defs, |defs|) + "]}", Object([Member("tools", Array(tools))]))
  {
    hide Markers, Unmarked, Listed, Spells, Commas, DumpString;
    ListedCommas(defs, |defs|);
    var parts := FullDefinitions(defs, |defs|);
    ArraySpelled("[" + Commas(parts) + "]", parts, tools);
    MemberSpelled("tools", "[" + Commas(parts) + "]", Array(tools));
    var part := (DumpString("tools") + ":") + ("[" + Commas(parts) + "]");
    OneComma(part);
    ObjectSpelled("{" + part + "}", [part], [Member("tools", Array(tools))]);
    ToolsJoin(Commas(parts));
  }

  lemma ArraySpelled(t: Text, parts: seq<Text>, items: seq<Json>)
    requires t == "[" + Commas(parts) + "]" && |parts| == |items| && forall i :: 0 <= i < |items| ==> Spells(parts[i], items[i])
    ensures Spells(t, Array(items))
  {
    hide Commas;
  }

  lemma ObjectSpelled(t: Text, parts: seq<Text>, members: seq<Member>)
    requires t == "{" + Commas(parts) + "}" && |parts| == |members|
    requires forall i :: 0 <= i < |members| ==> SpellsMember(parts[i], members[i])
    ensures Spells(t, Object(members))
  {
    hide Commas, SpellsMember;
  }

  lemma OneComma(part: Text)
    ensures Commas([part]) == part
  {
  }

  lemma ToolsJoin(x: Text)
    ensures "{" + ((DumpString("tools") + ":") + ("[" + x + "]")) + "}" == "{\"tools\":[" + x + "]}"
  {
    DumpedTools();
    hide DumpString;
    assert ("{" + ("\"tools\"" + ":")) + "[" == "{\"tools\":[";
  }

  lemma DumpedTools()
    ensures DumpString("tools") == "\"tools\""
  {
  }
}
