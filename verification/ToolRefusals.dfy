/** A family of definitions some of which generate_tools refuses to write. */
module ToolRefusals {
  import opened ToolDefs
  import opened ToolHeads
  import opened ToolPieces
  import opened ToolWriting
  import opened ToolPublishing

  /** A tool whose name, description and schema, the def s, stand a second time in a nested object:
      {"name":N,"description":D,"inputSchema":S,"x":{"name":N,"description":D,"inputSchema":S}}. */
  function Nested(name: Name, about: Text): ToolDoc {
    ToolDoc(name, Entry("description", Leaf(Str(about)), Entry("inputSchema", Ref("s"),
      Entry("x", Dict(Described(name, about, NoEntries)), NoEntries))))
  }

  function Described(name: Name, about: Text, more: Entries): Entries {
    Entry("name", Leaf(Str(name)), Entry("description", Leaf(Str(about)), Entry("inputSchema", Ref("s"), more)))
  }

  function Defs(schema: Node): map<Name, Node> {
    map["s" := schema]
  }

  const RANK: map<Name, nat> := map["s" := 0]

  /** The schema refers to no other def. */
  predicate Closed(schema: Node) {
    Resolvable(schema, Defs(schema), RANK, 0)
  }

  lemma Publishable(name: Name, about: Text, schema: Node)
    requires Closed(schema) && PlainName(name)
    ensures Published([Nested(name, about)], Defs(schema), RANK, 1)
    ensures NameFirst(Nested(name, about)) == Dict(Described(name, about, Nested(name, about).entries.more.more))
  {
    hide PlainName;
    var doc, defs := Nested(name, about), Defs(schema);
    var inner := Described(name, about, NoEntries);
    var x := Entry("x", Dict(inner), NoEntries);
    DescribedResolvable(name, about, NoEntries, defs);
    DescribedResolvable(name, about, x, defs);
    NoName(x);
    assert NameFirst(doc) == Dict(Described(name, about, x));
  }

  lemma NoName(x: Entries)
    requires x.Entry? && x.key == "x" && x.more.NoEntries?
    ensures forall about: Text :: var es := Entry("description", Leaf(Str(about)), Entry("inputSchema", Ref("s"), x)); Without(es, "name") == es
  {
    assert Without(x, "name") == x;
    assert Without(Entry("inputSchema", Ref("s"), x), "name") == Entry("inputSchema", Ref("s"), x);
  }

  lemma DescribedResolvable(name: Name, about: Text, more: Entries, defs: map<Name, Node>)
    requires "s" in defs && EntriesResolvable(more, defs, RANK, 1)
    ensures EntriesResolvable(Described(name, about, more), defs, RANK, 1)
  {
    var schema := Entry("inputSchema", Ref("s"), more);
    assert Resolvable(Ref("s"), defs, RANK, 1) && EntriesResolvable(schema, defs, RANK, 1);
    assert EntriesResolvable(Entry("description", Leaf(Str(about)), schema), defs, RANK, 1);
  }

  // --- its pieces -----------------------------------------------------------------------------------------

  /** The text up to the first schema, without the opening brace. */
  function Start(name: Name, about: Text): Text {
    (DumpString("name") + ":" + (DumpString(name) + ",")) +
    ((DumpString("description") + ":" + (DumpString(about) + ",")) + (DumpString("inputSchema") + ":"))
  }

  function NestedPieces(name: Name, about: Text): (t: Tool)
    ensures t.Valid() && t.refs == ["s", "s"]
  {
    var start := "{" + Start(name, about);
    Tool([start, ("," + (DumpString("x") + ":")) + start, "}}"], ["s", "s"])
  }

  lemma LeafEntry(key: Text, value: Text, more: Entries, defs: map<Name, Node>, rank: map<Name, nat>, bound: nat, keep: set<Name>)
    requires Acyclic(defs, rank) && EntriesResolvable(more, defs, rank, bound) && more.Entry?
    ensures EntriesPieces(Entry(key, Leaf(Str(value)), more), defs, rank, bound, keep) ==
            var r := EntriesPieces(more, defs, rank, bound, keep);
            Tool([(DumpString(key) + ":" + (DumpString(value) + ",")) + r.texts[0]] + r.texts[1..], r.refs)
  {
    hide Join, Plain, Acyclic, DumpString;
    var r := EntriesPieces(more, defs, rank, bound, keep);
    JoinPlain(",", r);
    JoinPlain(DumpString(value), Join(Plain(","), r));
    JoinPlain(DumpString(key) + ":", Join(Plain(DumpString(value)), Join(Plain(","), r)));
    FourTexts(DumpString(key) + ":", DumpString(value), ",", r.texts[0]);
  }

  lemma FourTexts(a: Text, b: Text, c: Text, d: Text)
    ensures a + (b + (c + d)) == (a + (b + c)) + d
  {
  }

  lemma JoinRef(d: Name, t: Tool)
    requires t.Valid()
    ensures Join(Tool(["", ""], [d]), t) == Tool(["", t.texts[0]] + t.texts[1..], [d] + t.refs)
  {
    hide Join;
    JoinOne(Tool(["", ""], [d]), t);
    assert "" + t.texts[0] == t.texts[0];
  }

  lemma RefEntry(key: Text, d: Name, more: Entries, defs: map<Name, Node>, rank: map<Name, nat>, bound: nat, keep: set<Name>)
    requires Acyclic(defs, rank) && EntriesResolvable(Entry(key, Ref(d), more), defs, rank, bound) && d in keep
    ensures EntriesPieces(Entry(key, Ref(d), more), defs, rank, bound, keep) ==
            var r := EntriesPieces(more, defs, rank, bound, keep);
            Tool([DumpString(key) + ":", (if more.Entry? then "," else "") + r.texts[0]] + r.texts[1..], [d] + r.refs)
  {
    hide Join, Plain, Acyclic, DumpString;
    var comma := if more.Entry? then "," else "";
    var r := EntriesPieces(more, defs, rank, bound, keep);
    var rest := Join(Plain(comma), r);
    JoinPlain(comma, r);
    JoinRef(d, rest);
    JoinPlain(DumpString(key) + ":", Join(Tool(["", ""], [d]), rest));
    assert DumpString(key) + ":" + "" == DumpString(key) + ":";
  }

  /** The pieces of a description, given those of what comes after it. */
  lemma DescribedPieces(name: Name, about: Text, more: Entries, defs: map<Name, Node>, rank: map<Name, nat>, keep: set<Name>)
    requires Acyclic(defs, rank) && EntriesResolvable(Described(name, about, more), defs, rank, 1) && "s" in keep
    requires EntriesResolvable(more, defs, rank, 1)
    ensures EntriesPieces(Described(name, about, more), defs, rank, 1, keep) ==
            var r := EntriesPieces(more, defs, rank, 1, keep);
            Tool([Start(name, about), (if more.Entry? then "," else "") + r.texts[0]] + r.texts[1..], ["s"] + r.refs)
  {
    hide EntriesPieces, Acyclic, DumpString;
    var schema := Entry("inputSchema", Ref("s"), more);
    var described := Entry("description", Leaf(Str(about)), schema);
    RefEntry("inputSchema", "s", more, defs, rank, 1, keep);
    LeafEntry("description", about, schema, defs, rank, 1, keep);
    LeafEntry("name", name, described, defs, rank, 1, keep);
  }

  lemma Closing(t: Tool, text: Text, last: Text)
    requires t.Valid()
    requires t.texts == [text, last] && t.refs == ["s"]
    ensures Join(Plain("{"), Join(t, Plain("}"))) == Tool(["{" + text, last + "}"], ["s"])
  {
    hide Join;
    JoinOne(t, Plain("}"));
    JoinPlain("{", Join(t, Plain("}")));
  }

  lemma JoinOne(a: Tool, b: Tool)
    requires a.Valid() && b.Valid() && |a.refs| == 1
    ensures Join(a, b) == Tool([a.texts[0], a.texts[1] + b.texts[0]] + b.texts[1..], a.refs + b.refs)
  {
    assert Rest(a) == Plain(a.texts[1]);
    JoinPlain(a.texts[1], b);
  }

  lemma JoinTwo(a: Tool, b: Tool)
    requires a.Valid() && b.Valid() && |a.refs| == 2
    ensures Join(a, b) == Tool([a.texts[0], a.texts[1], a.texts[2] + b.texts[0]] + b.texts[1..], a.refs + b.refs)
  {
    hide Join;
    JoinOne(Rest(a), b);
    JoinRest(a, b);
  }

  lemma JoinRest(a: Tool, b: Tool)
    requires a.Valid() && b.Valid() && a.refs != []
    ensures var r := Join(Rest(a), b); Join(a, b) == Tool([a.texts[0]] + r.texts, [a.refs[0]] + r.refs)
  {
  }

  lemma InnerPieces(name: Name, about: Text, defs: map<Name, Node>, rank: map<Name, nat>, keep: set<Name>)
    requires Acyclic(defs, rank) && "s" in keep && EntriesResolvable(Described(name, about, NoEntries), defs, rank, 1)
    ensures Pieces(Dict(Described(name, about, NoEntries)), defs, rank, 1, keep)
         == Tool(["{" + Start(name, about), "}"], ["s"])
  {
    hide Acyclic, Join, Described, Start;
    var t := EntriesPieces(Described(name, about, NoEntries), defs, rank, 1, keep);
    assert EntriesPieces(NoEntries, defs, rank, 1, keep) == Plain("");
    DescribedPieces(name, about, NoEntries, defs, rank, keep);
    assert "" + "" == "" && "" + "}" == "}";
    Closing(t, Start(name, about), "");
  }

  /** The entry "x" and all that follows it. */
  lemma XPieces(key: Text, inner: Node, start: Text, defs: map<Name, Node>, rank: map<Name, nat>, keep: set<Name>)
    requires Acyclic(defs, rank) && EntriesResolvable(Entry(key, inner, NoEntries), defs, rank, 1)
    requires Pieces(inner, defs, rank, 1, keep) == Tool([start, "}"], ["s"])
    ensures EntriesPieces(Entry(key, inner, NoEntries), defs, rank, 1, keep) == Tool([(DumpString(key) + ":") + start, "}"], ["s"])
  {
    hide Acyclic, Join, Pieces, DumpString;
    var t := Tool([start, "}"], ["s"]);
    var none := Join(Plain(""), EntriesPieces(NoEntries, defs, rank, 1, keep));
    JoinPlain("", Plain(""));
    assert none.texts == [""] && none.refs == [];
    JoinOne(t, none);
    assert "}" + "" == "}" && Join(t, none).texts == t.texts && Join(t, none) == t;
    JoinPlain(DumpString(key) + ":", t);
    var all := Join(Plain(DumpString(key) + ":"), t);
    assert all.texts == [(DumpString(key) + ":") + start, "}"] && all.refs == ["s"];
    assert EntriesPieces(Entry(key, inner, NoEntries), defs, rank, 1, keep) == all;
  }

  lemma OuterPieces(name: Name, about: Text, defs: map<Name, Node>, rank: map<Name, nat>, keep: set<Name>)
    requires Acyclic(defs, rank) && "s" in keep
    requires Resolvable(Dict(Described(name, about, Nested(name, about).entries.more.more)), defs, rank, 1)
    requires EntriesResolvable(Described(name, about, NoEntries), defs, rank, 1)
    ensures Pieces(Dict(Described(name, about, Nested(name, about).entries.more.more)), defs, rank, 1, keep)
         == NestedPieces(name, about)
  {
    hide Acyclic, Join, Described, Start, DumpString;
    var inner := Dict(Described(name, about, NoEntries));
    var x := Entry("x", inner, NoEntries);
    var start := "{" + Start(name, about);
    InnerPieces(name, about, defs, rank, keep);
    XPieces("x", inner, start, defs, rank, keep);
    DescribedPieces(name, about, x, defs, rank, keep);
    var t := EntriesPieces(Described(name, about, x), defs, rank, 1, keep);
    CommaFirst(DumpString("x") + ":", start);
    assert t == Tool([Start(name, about), ("," + (DumpString("x") + ":")) + start, "}"], ["s", "s"]);
    ClosingTwo(t);
  }

  lemma CommaFirst(key: Text, start: Text)
    ensures "," + (key + start) == ("," + key) + start
  {
  }

  lemma ClosingTwo(t: Tool)
    requires t.Valid() && t.refs == ["s", "s"] && t.texts[2] == "}"
    ensures Join(Plain("{"), Join(t, Plain("}"))) == Tool(["{" + t.texts[0], t.texts[1], "}}"], ["s", "s"])
  {
    hide Join;
    JoinTwo(t, Plain("}"));
    assert "}" + "}" == "}}";
    JoinPlain("{", Join(t, Plain("}")));
  }

  // --- what becomes of it ---------------------------------------------------------------------------------

  /** The schema's own text. */
  function SchemaText(schema: Node): (t: Text)
    requires Closed(schema)
  {
    Minified(schema, Defs(schema), RANK, 0)
  }

  lemma KeptPieces(name: Name, about: Text, schema: Node, keep: set<Name>)
    requires Closed(schema) && PlainName(name) && "s" in keep
    ensures Published([Nested(name, about)], Defs(schema), RANK, 1)
    ensures AllPieces([Nested(name, about)], Defs(schema), RANK, 1, keep) == [NestedPieces(name, about)]
  {
    hide PlainName, Pieces, NameFirst, NestedPieces;
    var docs := [Nested(name, about)];
    Publishable(name, about, schema);
    assert Resolvable(NameFirst(docs[0]), Defs(schema), RANK, 1);
    DescribedResolvable(name, about, NoEntries, Defs(schema));
    OuterPieces(name, about, Defs(schema), RANK, keep);
  }

  lemma TwoUses(t: Tool)
    requires t.refs == ["s", "s"]
    ensures TotalUses([t], "s") == 2
  {
    assert [t][..0] == [];
    assert ["s", "s"][1..] == ["s"] && ["s"][1..] == [];
    assert Uses(["s"], "s") == 1 && Uses(["s", "s"], "s") == 2;
  }

  /** The schema is shared exactly if its text has more than 18 characters. */
  lemma SharedIfLong(name: Name, about: Text, schema: Node)
    requires Closed(schema) && PlainName(name)
    ensures Published([Nested(name, about)], Defs(schema), RANK, 1)
    ensures SharedDefs([Nested(name, about)], Defs(schema), RANK, 1) == if |SchemaText(schema)| > 18 then {"s"} else {}
  {
    hide PlainName, Pieces, NameFirst, Published, Minified, Acyclic, Resolvable, Start, DumpString, DefTexts;
    var docs, defs := [Nested(name, about)], Defs(schema);
    KeptPieces(name, about, schema, defs.Keys);
    var all := AllPieces(docs, defs, RANK, 1, defs.Keys);
    TwoUses(all[0]);
    assert "s" in all[0].refs;
    DefText(schema);
    var keep := SharedDefs(docs, defs, RANK, 1);
    assert keep <= {"s"};
    assert "s" in keep <==> |SchemaText(schema)| > 18;
  }

  lemma DefText(schema: Node)
    requires Closed(schema)
    ensures Acyclic(Defs(schema), RANK) && DefTexts(Defs(schema), RANK)["s"] == SchemaText(schema)
  {
  }

  lemma NoReferences(t: Tool)
    requires t.Valid()
    ensures t.Covered(map[]) ==> t.refs == []
  {
    if t.refs != [] {
      var none: map<Name, Text> := map[];
      assert t.refs[0] !in none;
    }
  }

  /** With nothing shared there is nothing to lose. */
  lemma NothingShared(docs: seq<ToolDoc>, defs: map<Name, Node>, rank: map<Name, nat>, bound: nat, i: nat)
    requires Published(docs, defs, rank, bound) && i < |docs| && SharedDefs(docs, defs, rank, bound) == {}
    ensures HeadSafe(SharedPieces(docs, defs, rank, bound), i, Head(docs[i].name))
    ensures SharedPieces(docs, defs, rank, bound)[i].refs == []
  {
    hide SharedDefs, Pieces, NameFirst, Head, Acyclic, Resolvable, PlainName;
    var none: map<Name, Text> := map[];
    PiecesCovered(docs, defs, rank, bound, {}, none);
    var t := SharedPieces(docs, defs, rank, bound)[i];
    assert t.Covered(none);
    NoReferences(t);
  }

  /** All that stands before the first use of s also stands before the second, so it moves into s
      and the text no longer starts with the head. */
  lemma HeadLost(name: Name, about: Text, head: Text)
    requires head != "" && head <= NestedPieces(name, about).texts[0]
    ensures AllTools([NestedPieces(name, about)])
    ensures !HeadSafe([NestedPieces(name, about)], 0, head)
    ensures !Judged([NestedPieces(name, about)], 0, head)
  {
    hide Start, DumpString;
    var ts := [NestedPieces(name, about)];
    var start, second, tail := ts[0].texts[0], ts[0].texts[1], FromHeadsEnd(ts[0], head);
    assert EndsWith(start, tail);
    EndsToo("," + (DumpString("x") + ":"), start, tail);
    forall j, k | UseAt(ts, "s", j, k)
      ensures EndsWith(ts[j].texts[k], tail)
    {
    }
    var before := second[..|second| - |tail| + 1];
    assert before[0] == ',';
    assert UseAt(ts, "s", 0, 1) && ts[0].texts[2] == "}}" && !(before <= "}}");
    assert Differs(ts, "s", before);
  }

  lemma EndsToo(before: Text, text: Text, tail: Text)
    requires EndsWith(text, tail)
    ensures EndsWith(before + text, tail)
  {
  }

  /** generate_tools on that definition, which is valid if its name and description are not empty and
      uses one shared def at most: it is refused exactly if its schema is long enough to be shared. */
  method Generate(name: Name, about: Text, schema: Node) returns (r: Generation)
    requires Closed(schema) && PlainName(name)
    ensures r.NotRebuilt? <==> |SchemaText(schema)| > 18
    ensures r.Arrays? || r == NotRebuilt(0)
  {
    hide PlainName, Pieces, NameFirst, Head, Published, SharedDefs, NestedPieces, Judged, HeadSafe, Used;
    Refused(name, about, schema);
    SharedIfLong(name, about, schema);
    var docs := [Nested(name, about)];
    r := GenerateTools(docs, Defs(schema), RANK, 1);
    assert r.Arrays? ==> Judged(SharedPieces(docs, Defs(schema), RANK, 1), 0, Head(docs[0].name));
  }

  /** The exact condition, on the definition itself. */
  lemma Refused(name: Name, about: Text, schema: Node)
    requires Closed(schema) && PlainName(name)
    ensures var docs, defs := [Nested(name, about)], Defs(schema);
            Published(docs, defs, RANK, 1) && FewUsed(docs, defs, RANK, 1) &&
            (HeadSafe(SharedPieces(docs, defs, RANK, 1), 0, Head(name)) <==> |SchemaText(schema)| <= 18) &&
            (Judged(SharedPieces(docs, defs, RANK, 1), 0, Head(name)) <==> |SchemaText(schema)| <= 18)
  {
    hide PlainName, Pieces, NameFirst, Published, SharedDefs, NestedPieces, HeadSafe, Undisturbed, Minified, Used;
    var docs, defs := [Nested(name, about)], Defs(schema);
    SharedIfLong(name, about, schema);
    var ts := SharedPieces(docs, defs, RANK, 1);
    if |SchemaText(schema)| > 18 {
      KeptPieces(name, about, schema, {"s"});
      assert ts == [NestedPieces(name, about)];
      assert Head(docs[0].name) <= ts[0].texts[0];
      HeadLost(name, about, Head(name));
      UsesOne(ts[0].refs);
    } else {
      NothingShared(docs, defs, RANK, 1, 0);
      UsesNone(ts[0]);
    }
  }

  lemma UsesOne(refs: seq<Name>)
    requires forall k :: 0 <= k < |refs| ==> refs[k] == "s"
    ensures |Used(refs)| <= 1
  {
    hide Used;
    UsedFew(refs, {"s"});
  }

  lemma UsesNone(t: Tool)
    ensures t.refs == [] ==> Used(t.refs) == []
  {
  }

  /** One such schema: {"description":"d"} is 19 characters long. */
  lemma LongSchema()
    ensures var schema := Dict(Entry("description", Leaf(Str("d")), NoEntries)); Closed(schema) && |SchemaText(schema)| > 18
  {
    var schema := Dict(Entry("description", Leaf(Str("d")), NoEntries));
    hide DumpChars, DumpChar;
    Longer("description");
    Longer("d");
  }

  lemma {:induction false} Longer(s: Text)
    ensures |DumpString(s)| >= |s| + 2
  {
    if s != "" {
      Longer(s[1..]);
    }
  }
}
