/** From split texts to the generated arrays and back: the marking of generate_resource.py, and
    write_tool, tool_is and tools/list of mcp_server.c. */
module ToolWriting {
  import opened ToolDefs
  import opened ToolSharing
  import opened ToolTracing
  import opened ToolGrowing
  import opened ToolPieces
  import opened ToolHeads

  // --- the generated array ---------------------------------------------------------------------------

  const MAX_SHARED: nat := 0x1F

  /** The references a tool uses, in order of first use. */
  function Used(refs: seq<Name>): (u: seq<Name>)
    ensures forall d :: d in u <==> d in refs
  {
    if refs == [] then []
    else
      var u := Used(refs[..|refs| - 1]);
      var d := refs[|refs| - 1];
      if d in u then u else u + [d]
  }

  /** References to few defs need few places. */
  lemma {:induction false} UsedFew(refs: seq<Name>, s: set<Name>)
    requires forall d :: d in refs ==> d in s
    ensures |Used(refs)| <= |s|
  {
    UsedDistinct(refs);
    var u := Used(refs);
    DistinctFew(u, s);
  }

  lemma {:induction false} UsedDistinct(refs: seq<Name>)
    ensures forall i, j :: 0 <= i < j < |Used(refs)| ==> Used(refs)[i] != Used(refs)[j]
  {
    if refs != [] { UsedDistinct(refs[..|refs| - 1]); }
  }

  lemma {:induction false} DistinctFew(u: seq<Name>, s: set<Name>)
    requires (forall d :: d in u ==> d in s) && forall i, j :: 0 <= i < j < |u| ==> u[i] != u[j]
    ensures |u| <= |s|
  {
    if u != [] {
      var n := |u| - 1;
      forall d | d in u[..n]
        ensures d in s - {u[n]}
      {
      }
      DistinctFew(u[..n], s - {u[n]});
    }
  }

  function IndexOf(u: seq<Name>, d: Name): (i: nat)
    requires d in u
    ensures i < |u| && u[i] == d
  {
    if u[0] == d then 0 else 1 + IndexOf(u[1..], d)
  }

  function Marker(u: seq<Name>, d: Name): (c: char)
    requires d in u && |u| <= MAX_SHARED
    ensures 0 < c as int < 0x20 && c as int <= |u| && u[c as int - 1] == d
  {
    (IndexOf(u, d) + 1) as char
  }

  /** A tool's text with a marker byte for each reference. */
  function Marked(t: Tool, u: seq<Name>): Text
    requires t.Valid() && |u| <= MAX_SHARED && forall k :: 0 <= k < |t.refs| ==> t.refs[k] in u
    decreases |t.refs|
  {
    if t.refs == [] then t.texts[0]
    else
      assert forall k :: 0 <= k < |t.refs| - 1 ==> t.refs[1..][k] == t.refs[k + 1];
      t.texts[0] + ([Marker(u, t.refs[0])] + Marked(Rest(t), u))
  }

  /** The text of an array: every byte below 0x20 stands for the string at that index. */
  function Unmarked(def: seq<Text>, s: Text): Text
    requires Markers(def, s)
  {
    if s == "" then ""
    else (if s[0] as int < 0x20 then def[s[0] as int] else [s[0]]) + Unmarked(def, s[1..])
  }

  predicate Markers(def: seq<Text>, s: Text) {
    forall k :: 0 <= k < |s| ==> 0 < s[k] as int && (s[k] as int < 0x20 ==> s[k] as int < |def|)
  }

  lemma {:induction false} UnmarkedConcat(def: seq<Text>, a: Text, b: Text)
    requires Markers(def, a) && Markers(def, b)
    ensures Markers(def, a + b) && Unmarked(def, a + b) == Unmarked(def, a) + Unmarked(def, b)
  {
    if a == "" {
      assert a + b == b;
    } else {
      UnmarkedConcat(def, a[1..], b);
      assert (a + b)[1..] == a[1..] + b;
      var first := if a[0] as int < 0x20 then def[a[0] as int] else [a[0]];
      assert first + (Unmarked(def, a[1..]) + Unmarked(def, b)) == first + Unmarked(def, a[1..]) + Unmarked(def, b);
    }
  }

  lemma {:induction false} PrintableUnmarked(def: seq<Text>, s: Text)
    requires Printable(s)
    ensures Markers(def, s) && Unmarked(def, s) == s
  {
    if s != "" {
      PrintableUnmarked(def, s[1..]);
      assert s == [s[0]] + s[1..];
    }
  }

  lemma OneMarker(def: seq<Text>, c: char)
    requires 0 < c as int < 0x20 && c as int < |def|
    ensures Markers(def, [c]) && Unmarked(def, [c]) == def[c as int]
  {
    assert [c][1..] == "";
    assert def[c as int] + "" == def[c as int];
  }

  lemma UsedCovered(t: Tool, shared: map<Name, Text>)
    requires t.Valid() && t.Covered(shared)
    ensures forall k :: 0 <= k < |Used(t.refs)| ==> Used(t.refs)[k] in shared
  {
    var u := Used(t.refs);
    forall k | 0 <= k < |u|
      ensures u[k] in shared
    {
      assert u[k] in t.refs;
    }
  }

  /** The array of a tool: the marked text, then the shared texts it uses. */
  function ToolArray(t: Tool, shared: map<Name, Text>): (def: seq<Text>)
    requires t.Valid() && t.Covered(shared) && |Used(t.refs)| <= MAX_SHARED
    ensures |def| == |Used(t.refs)| + 1
    ensures forall k :: 0 <= k < |Used(t.refs)| ==> Used(t.refs)[k] in shared && def[k + 1] == shared[Used(t.refs)[k]]
  {
    var u := Used(t.refs);
    UsedCovered(t, shared);
    [Marked(t, u)] + seq(|u|, k requires 0 <= k < |u| => shared[u[k]])
  }

  /** Marked text over this array gives back the expansion. */
  lemma {:induction false} MarkedExpands(t: Tool, shared: map<Name, Text>, u: seq<Name>, def: seq<Text>)
    requires t.Valid() && t.Covered(shared) && |u| <= MAX_SHARED && |def| == |u| + 1
    requires forall k :: 0 <= k < |t.refs| ==> t.refs[k] in u
    requires forall k :: 0 <= k < |u| ==> u[k] in shared && def[k + 1] == shared[u[k]]
    requires forall k :: 0 <= k < |t.texts| ==> Printable(t.texts[k])
    ensures Markers(def, Marked(t, u)) && Unmarked(def, Marked(t, u)) == Expand(t, shared)
    decreases |t.refs|
  {
    hide Markers, Unmarked, Printable;
    PrintableUnmarked(def, t.texts[0]);
    if t.refs != [] {
      RestCovered(t, shared);
      MarkedExpands(Rest(t), shared, u, def);
      var m := Marker(u, t.refs[0]);
      OneMarker(def, m);
      UnmarkedConcat(def, [m], Marked(Rest(t), u));
      UnmarkedConcat(def, t.texts[0], [m] + Marked(Rest(t), u));
    }
  }

  /** A tool whose expansion has no control characters has none in its own texts. */
  lemma {:induction false} PrintableTexts(t: Tool, shared: map<Name, Text>)
    requires t.Valid() && t.Covered(shared) && Printable(Expand(t, shared))
    ensures forall k :: 0 <= k < |t.texts| ==> Printable(t.texts[k])
    decreases |t.refs|
  {
    if t.refs != [] {
      RestCovered(t, shared);
      var a, b := t.texts[0], shared[t.refs[0]] + Expand(Rest(t), shared);
      assert Expand(t, shared) == a + b;
      assert forall k :: 0 <= k < |a| ==> a[k] == (a + b)[k];
      assert forall k :: 0 <= k < |b| ==> b[k] == (a + b)[|a| + k];
      var c := Expand(Rest(t), shared);
      assert forall k :: 0 <= k < |c| ==> c[k] == b[|shared[t.refs[0]]| + k];
      PrintableTexts(Rest(t), shared);
      forall k | 0 <= k < |t.texts|
        ensures Printable(t.texts[k])
      {
        if k > 0 { assert Rest(t).texts[k - 1] == t.texts[k]; }
      }
    }
  }

  lemma {:induction false} ArrayExpands(t: Tool, shared: map<Name, Text>)
    requires t.Valid() && t.Covered(shared) && |Used(t.refs)| <= MAX_SHARED && Printable(Expand(t, shared))
    ensures var def := ToolArray(t, shared); Markers(def, def[0]) && Unmarked(def, def[0]) == Expand(t, shared)
  {
    hide Markers, Unmarked, Printable, Expand, Used;
    PrintableTexts(t, shared);
    MarkedExpands(t, shared, Used(t.refs), ToolArray(t, shared));
  }

  // --- generate_tools ------------------------------------------------------------------------------

  /** A generated array says what the definition says. */
  ghost predicate Rebuilds(def: seq<Text>, full: Text) {
    def != [] && Markers(def, def[0]) && Unmarked(def, def[0]) == full
  }

  /** What the generator makes: the arrays, or the first tool it refuses and why. */
  datatype Generation = Arrays(defs: seq<seq<Text>>) | TooManyShared(tool: nat) | NotRebuilt(tool: nat)

  /** The tool can be generated from these pieces: it has markers enough, and its text still starts
      with its head. */
  predicate Fits(t: Tool, head: Text)
    requires t.Valid()
  {
    |Used(t.refs)| <= MAX_SHARED && head <= t.texts[0]
  }

  /** The generator's check of its own work: the pieces make the full definition, none of them has a
      control character, and the text starts with the head. */
  predicate Checked(t: Tool, shared: map<Name, Text>, full: Text, head: Text, text: Text)
    requires t.Valid() && t.Covered(shared)
  {
    Expand(t, shared) == full && (forall k :: 0 <= k < |t.texts| ==> Printable(t.texts[k])) &&
    (forall n :: n in shared ==> Printable(shared[n])) && head <= text
  }

  /** A marker ends what can match a head. */
  lemma MarkerEnds(head: Text, text: Text, n: nat)
    requires Printable(head) && head <= text && n < |text| && (text[n] as int) < 0x20
    ensures |head| <= n
  {
    assert head == text[..|head|];
  }

  lemma MarkedHead(t: Tool, u: seq<Name>, head: Text)
    requires t.Valid() && |u| <= MAX_SHARED && Printable(head) && forall k :: 0 <= k < |t.refs| ==> t.refs[k] in u
    ensures head <= Marked(t, u) <==> head <= t.texts[0]
  {
    if t.refs != [] {
      var text := Marked(t, u);
      assert text[|t.texts[0]|] == Marker(u, t.refs[0]);
      assert t.texts[0] == text[..|t.texts[0]|];
      if head <= text { MarkerEnds(head, text, |t.texts[0]|); }
    }
  }

  lemma {:induction false} PrintableShared(t: Tool, shared: map<Name, Text>, k: nat)
    requires t.Valid() && t.Covered(shared) && Printable(Expand(t, shared)) && k < |t.refs|
    ensures Printable(shared[t.refs[k]])
    decreases |t.refs|
  {
    RestCovered(t, shared);
    var a, b, c := t.texts[0], shared[t.refs[0]], Expand(Rest(t), shared);
    PrintableParts(a, b, c);
    if k > 0 { PrintableShared(Rest(t), shared, k - 1); }
  }

  lemma PrintableParts(a: Text, b: Text, c: Text)
    requires Printable(a + (b + c))
    ensures Printable(a) && Printable(b) && Printable(c)
  {
    var s := a + (b + c);
    assert forall k :: 0 <= k < |a| ==> s[k] == a[k];
    assert forall k :: 0 <= k < |b| ==> s[|a| + k] == b[k];
    assert forall k :: 0 <= k < |c| ==> s[|a| + |b| + k] == c[k];
  }

  /** Every shared def has a use. */
  ghost predicate AllUsed(tools: seq<Tool>, shared: set<Name>) {
    forall d :: d in shared ==> exists j, k :: UseAt(tools, d, j, k)
  }

  /** The shared texts are part of the definitions, so they have no control characters. */
  lemma SharedPrintable(a: seq<Tool>, b: seq<Tool>, tr: Trace, texts: map<Name, Text>, d: Name)
    requires Traced(a, b, tr) && AllTools(a) && AllValid(b, texts) && tr.last.Keys == texts.Keys && d in texts
    requires exists j, k :: UseAt(a, d, j, k)
    requires forall i :: 0 <= i < |b| ==> Printable(Expand(b[i], texts))
    ensures Printable(texts[d])
  {
    hide Expand, Printable, Remain;
    var j, k :| UseAt(a, d, j, k);
    assert Came(a[j], b[j], tr.at[j], tr);
    assert k in tr.at[j];
    var m :| 0 <= m < |tr.at[j]| && tr.at[j][m] == k;
    PlacedParts(a[j], b[j], tr.at[j], tr.last, m);
    PrintableShared(b[j], texts, m);
  }

  /** The array of one tool, once the pieces are grown; none if the generator refuses it. */
  method GenerateArray(t: Tool, shared: map<Name, Text>, full: Text, head: Text) returns (tooMany: bool, ok: bool, def: seq<Text>)
    requires t.Valid() && t.Covered(shared) && Expand(t, shared) == full && Printable(full) && Printable(head)
    requires forall n :: n in shared ==> Printable(shared[n])
    ensures tooMany == (|Used(t.refs)| > MAX_SHARED) && ok == Fits(t, head)
    ensures ok ==> Rebuilds(def, full) && head <= def[0]
  {
    hide Expand, Markers, Unmarked, Printable, Used;
    tooMany, ok, def := |Used(t.refs)| > MAX_SHARED, false, [];
    if !tooMany {
      def := ToolArray(t, shared);
      PrintableTexts(t, shared);
      MarkedHead(t, Used(t.refs), head);
      ok := Checked(t, shared, full, head, def[0]);
      ArrayExpands(t, shared);
    }
  }

  /** The arrays made from the pieces, after grow_shared. A tool is refused exactly if it needs more
      than 31 shared texts or its text no longer starts with its head. */
  method GenerateArrays(tools: seq<Tool>, names: seq<Name>, shared: map<Name, Text>, fulls: seq<Text>, heads: seq<Text>)
    returns (r: Generation, ghost grown: seq<Tool>, ghost texts: map<Name, Text>, ghost tr: Trace)
    requires AllValid(tools, shared) && (forall n :: n in names <==> n in shared) && AllUsed(tools, shared.Keys)
    requires |fulls| == |heads| == |tools|
    requires forall i :: 0 <= i < |tools| ==> Expand(tools[i], shared) == fulls[i] && Printable(fulls[i])
    requires forall i :: 0 <= i < |tools| ==> Printable(heads[i])
    ensures AllValid(grown, texts) && SameExpansions(tools, shared, grown, texts)
    ensures Traced(tools, grown, tr) && tr.last.Keys == texts.Keys <= shared.Keys && forall n :: n in texts ==> Settled(grown, n)
    ensures match r
            case Arrays(defs) => |defs| == |tools| && forall i :: 0 <= i < |tools| ==>
              Fits(grown[i], heads[i]) && Rebuilds(defs[i], fulls[i]) && heads[i] <= defs[i][0]
            case TooManyShared(i) => i < |tools| && |Used(grown[i].refs)| > 31
            case NotRebuilt(i) => i < |tools| && |Used(grown[i].refs)| <= 31 && !(heads[i] <= grown[i].texts[0])
    ensures !r.Arrays? ==> forall j :: 0 <= j < r.tool ==> Fits(grown[j], heads[j])
  {
    hide Expand, Printable, Used, Settled, Traced, Markers, Unmarked;
    var g := new Grower(tools, names, shared);
    g.Grow();
    grown, texts, tr := g.tools, g.shared, g.trace;
    forall i | 0 <= i < |grown|
      ensures Expand(grown[i], texts) == fulls[i]
    {
      assert Expand(tools[i], shared) == Expand(grown[i], texts);
    }
    forall n | n in texts
      ensures Printable(texts[n])
    {
      SharedPrintable(tools, grown, tr, texts, n);
    }
    var defs := [];
    for i := 0 to |g.tools|
      invariant |defs| == i && g.tools == grown && g.shared == texts
      invariant forall j :: 0 <= j < i ==> Fits(grown[j], heads[j]) && Rebuilds(defs[j], fulls[j]) && heads[j] <= defs[j][0]
    {
      var tooMany, ok, def := GenerateArray(g.tools[i], g.shared, fulls[i], heads[i]);
      if tooMany {
        r := TooManyShared(i);
        return;
      }
      if !ok {
        r := NotRebuilt(i);
        return;
      }
      defs := defs + [def];
    }
    r := Arrays(defs);
  }

  // --- the server ------------------------------------------------------------------------------------

  /** The next piece write_tool sends: a shared text, or the bytes up to the next marker. */
  method NextRun(def: seq<Text>, s: Text, p: nat) returns (run: Text, q: nat)
    requires p < |s| && Markers(def, s)
    ensures p < q <= |s| && Markers(def, s[p..q]) && run == Unmarked(def, s[p..q])
  {
    hide Unmarked;
    if s[p] as int < 0x20 {
      run := def[s[p] as int];
      q := p + 1;
      OneMarker(def, s[p]);
      assert s[p..q] == [s[p]];
      return;
    }
    q := p;
    while q < |s| && s[q] as int >= 0x20
      invariant p <= q <= |s| && forall k :: p <= k < q ==> s[k] as int >= 0x20
    {
      q := q + 1;
    }
    run := s[p..q];
    PrintableUnmarked(def, s[p..q]);
  }

  /** write_tool: what it sends (nothing if it only measures) and the length it returns. */
  method WriteTool(def: seq<Text>, send: bool) returns (sent: Text, total: nat)
    requires def != [] && Markers(def, def[0])
    ensures total == |Unmarked(def, def[0])| && sent == if send then Unmarked(def, def[0]) else ""
  {
    hide Unmarked;
    var s := def[0];
    var p := 0;
    sent, total := "", 0;
    ghost var done := "";
    NothingUnmarked(def);
    while p < |s|
      invariant 0 <= p <= |s| && Markers(def, s[..p]) && done == Unmarked(def, s[..p])
      invariant total == |done| && sent == if send then done else ""
    {
      var run, q := NextRun(def, s, p);
      assert s[..q] == s[..p] + s[p..q];
      UnmarkedConcat(def, s[..p], s[p..q]);
      if send {
        sent := sent + run;
      }
      done := done + run;
      total := total + |run|;
      p := q;
    }
    assert s[..p] == s;
  }

  /** tool_is: whether the text goes on with this name and a quote after {"name":". */
  method ToolIs(text: Text, name: Name) returns (r: bool)
    requires |OPENING| <= |text|
    ensures r == (name + "\"" <= text[|OPENING|..])
  {
    var p := text[|OPENING|..];
    var n := |name|;
    r := |p| >= n && p[..n] == name && |p| > n && p[n] == '"';
    if r { assert p[..n + 1] == name + "\""; }
  }

  /** A tool is found exactly by its name, if the name asked for has no quote. */
  lemma FoundByName(text: Text, own: Name, name: Name)
    requires Head(own) <= text && '"' !in own
    ensures '"' !in name ==> (name + "\"" <= text[|OPENING|..] <==> name == own)
  {
    var p := text[|OPENING|..];
    OpeningLength();
    assert Head(own) == OPENING + (own + "\"");
    assert own + "\"" == Head(own)[|OPENING|..] == text[..|Head(own)|][|OPENING|..];
    assert own + "\"" <= p;
    if name + "\"" <= p && '"' !in name { SameUpToQuote(own, name, p); }
  }

  lemma OpeningLength()
    ensures |OPENING| == 9
  {
  }

  lemma SameUpToQuote(a: Name, b: Name, p: Text)
    requires '"' !in a && '"' !in b && a + "\"" <= p && b + "\"" <= p
    ensures a == b
  {
    assert p[|a|] == (a + "\"")[|a|] == '"' && p[|b|] == (b + "\"")[|b|] == '"';
    assert forall k :: 0 <= k < |a| ==> p[k] == (a + "\"")[k] == a[k] != '"';
    assert forall k :: 0 <= k < |b| ==> p[k] == (b + "\"")[k] == b[k] != '"';
    assert a == p[..|a|] && b == p[..|b|];
  }

  /** With a quote in it another name can be taken for this one's. */
  lemma FoundByOther()
    ensures Head("a") + ",\"" == OPENING + "a\",\"" && "a\"," != "a" && "a\"," + "\"" <= (Head("a") + ",\"")[|OPENING|..]
  {
    assert Head("a") + ",\"" == OPENING + ("a\"," + "\"");
    assert (OPENING + ("a\"," + "\""))[|OPENING|..] == "a\"," + "\"";
  }

  lemma NothingUnmarked(def: seq<Text>)
    ensures Unmarked(def, "") == ""
  {
  }

  ghost predicate AllMarkers(defs: seq<seq<Text>>) {
    forall i :: 0 <= i < |defs| ==> defs[i] != [] && Markers(defs[i], defs[i][0])
  }

  /** The first n definitions in full, commas between them. */
  ghost function Listed(defs: seq<seq<Text>>, n: nat): Text
    requires AllMarkers(defs) && n <= |defs|
  {
    if n == 0 then ""
    else Listed(defs, n - 1) + (if n > 1 then "," else "") + Unmarked(defs[n - 1], defs[n - 1][0])
  }

  /** handle_tools_list: the announced length is that of the body sent. */
  method ToolsList(head: Text, defs: seq<seq<Text>>) returns (announced: nat, body: Text)
    requires AllMarkers(defs)
    ensures body == head + "{\"tools\":[" + Listed(defs, |defs|) + "]}" + "}"
    ensures announced == |body|
  {
    hide Unmarked, Markers;
    var pre, post := "{\"tools\":[", "]}";
    announced := |head| + |pre| + |post| + 1;
    for i := 0 to |defs|
      invariant announced == |head| + |pre| + |post| + 1 + |Listed(defs, i)|
    {
      var none, n := WriteTool(defs[i], false);
      announced := announced + n + (if i > 0 then 1 else 0);
    }
    body := head + pre;
    ghost var opening := body;
    for i := 0 to |defs|
      invariant body == opening + Listed(defs, i)
    {
      if i > 0 {
        body := body + ",";
      }
      var text, n := WriteTool(defs[i], true);
      body := body + text;
      assert body == opening + Listed(defs, i + 1);
    }
    body := body + post;
    body := body + "}";
  }
}
