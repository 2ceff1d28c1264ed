/** From JSON tool definitions to split texts: resolve_refs, minify and tool_pieces of generate_resource.py. */
module ToolPieces {
  import opened ToolDefs

  // --- definitions -----------------------------------------------------------------------------

  /** No control character. */
  predicate Printable(s: Text) {
    forall k :: 0 <= k < |s| ==> s[k] as int >= 0x20
  }

  type PrintableText = s: Text | Printable(s) witness ""

  /** A string, or the text of a number, true, false or null. */
  datatype Scalar = Str(s: Text) | Word(text: PrintableText)

  /** A parsed definition: JSON with references to shared definitions. */
  datatype Node = Leaf(value: Scalar) | List(items: Nodes) | Dict(entries: Entries) | Ref(name: Name)

  datatype Nodes = NoNodes | Cons(head: Node, tail: Nodes)

  datatype Entries = NoEntries | Entry(key: Text, value: Node, more: Entries)

  /** The references can be resolved: each names a definition of lower rank. */
  predicate Resolvable(n: Node, defs: map<Name, Node>, rank: map<Name, nat>, bound: nat) {
    match n
    case Leaf(_) => true
    case List(items) => NodesResolvable(items, defs, rank, bound)
    case Dict(entries) => EntriesResolvable(entries, defs, rank, bound)
    case Ref(d) => d in defs && d in rank && rank[d] < bound
  }

  predicate NodesResolvable(ns: Nodes, defs: map<Name, Node>, rank: map<Name, nat>, bound: nat) {
    match ns
    case NoNodes => true
    case Cons(n, more) => Resolvable(n, defs, rank, bound) && NodesResolvable(more, defs, rank, bound)
  }

  predicate EntriesResolvable(es: Entries, defs: map<Name, Node>, rank: map<Name, nat>, bound: nat) {
    match es
    case NoEntries => true
    case Entry(_, n, more) => Resolvable(n, defs, rank, bound) && EntriesResolvable(more, defs, rank, bound)
  }

  /** No definition refers to itself, however indirectly. */
  predicate Acyclic(defs: map<Name, Node>, rank: map<Name, nat>) {
    forall d :: d in defs && d in rank ==> Resolvable(defs[d], defs, rank, rank[d])
  }

  // --- json.dumps, without spaces and with ensure_ascii off ------------------------------------------

  function HexDigit(n: nat): char
    requires n < 16
  {
    "0123456789abcdef"[n]
  }

  function DumpChar(c: char): (t: Text)
    ensures Printable(t) && t != ""
  {
    if c == '"' then "\\\""
    else if c == '\\' then "\\\\"
    else if c == '\n' then "\\n"
    else if c == '\r' then "\\r"
    else if c == '\t' then "\\t"
    else if c as int == 8 then "\\b"
    else if c as int == 12 then "\\f"
    else if (c as int) < 0x20 then "\\u00" + [HexDigit(c as int / 16), HexDigit(c as int % 16)]
    else [c]
  }

  function DumpChars(s: Text): (t: Text)
    ensures Printable(t)
  {
    if s == "" then "" else DumpChar(s[0]) + DumpChars(s[1..])
  }

  function DumpString(s: Text): (t: Text)
    ensures Printable(t)
  {
    "\"" + DumpChars(s) + "\""
  }

  function Dump(value: Scalar): (t: Text)
    ensures Printable(t)
  {
    match value
    case Str(s) => DumpString(s)
    case Word(text) => text
  }

  /** The full minified text, every reference inlined. */
  function Minified(n: Node, defs: map<Name, Node>, rank: map<Name, nat>, bound: nat): (t: Text)
    requires Acyclic(defs, rank) && Resolvable(n, defs, rank, bound)
    ensures Printable(t)
    decreases bound, n, 0
  {
    match n
    case Leaf(value) => Dump(value)
    case List(items) => "[" + MinifiedNodes(items, defs, rank, bound) + "]"
    case Dict(entries) => "{" + MinifiedEntries(entries, defs, rank, bound) + "}"
    case Ref(d) => Minified(defs[d], defs, rank, rank[d])
  }

  function MinifiedNodes(ns: Nodes, defs: map<Name, Node>, rank: map<Name, nat>, bound: nat): (t: Text)
    requires Acyclic(defs, rank) && NodesResolvable(ns, defs, rank, bound)
    ensures Printable(t)
    decreases bound, ns, 1
  {
    match ns
    case NoNodes => ""
    case Cons(n, more) =>
      Minified(n, defs, rank, bound) + (if more.Cons? then "," else "") + MinifiedNodes(more, defs, rank, bound)
  }

  function MinifiedEntries(es: Entries, defs: map<Name, Node>, rank: map<Name, nat>, bound: nat): (t: Text)
    requires Acyclic(defs, rank) && EntriesResolvable(es, defs, rank, bound)
    ensures Printable(t)
    decreases bound, es, 1
  {
    match es
    case NoEntries => ""
    case Entry(key, n, more) =>
      (DumpString(key) + ":") + Minified(n, defs, rank, bound) + (if more.Entry? then "," else "") + MinifiedEntries(more, defs, rank, bound)
  }

  // --- the split text ------------------------------------------------------------------------------

  function Plain(text: Text): (t: Tool)
    ensures t.Valid()
  {
    Tool([text], [])
  }

  /** Two split texts one after the other. */
  function Join(a: Tool, b: Tool): (t: Tool)
    requires a.Valid() && b.Valid()
    ensures t.Valid()
    decreases |a.refs|
  {
    if a.refs == [] then Tool([a.texts[0] + b.texts[0]] + b.texts[1..], b.refs)
    else
      var r := Join(Rest(a), b);
      Tool([a.texts[0]] + r.texts, [a.refs[0]] + r.refs)
  }

  /** tool_pieces: the minified text split around the references to keep. */
  function Pieces(n: Node, defs: map<Name, Node>, rank: map<Name, nat>, bound: nat, keep: set<Name>): (t: Tool)
    requires Acyclic(defs, rank) && Resolvable(n, defs, rank, bound)
    ensures t.Valid()
    decreases bound, n, 0
  {
    match n
    case Leaf(value) => Plain(Dump(value))
    case List(items) => Join(Plain("["), Join(NodesPieces(items, defs, rank, bound, keep), Plain("]")))
    case Dict(entries) => Join(Plain("{"), Join(EntriesPieces(entries, defs, rank, bound, keep), Plain("}")))
    case Ref(d) => if d in keep then Tool(["", ""], [d]) else Pieces(defs[d], defs, rank, rank[d], keep)
  }

  function NodesPieces(ns: Nodes, defs: map<Name, Node>, rank: map<Name, nat>, bound: nat, keep: set<Name>): (t: Tool)
    requires Acyclic(defs, rank) && NodesResolvable(ns, defs, rank, bound)
    ensures t.Valid()
    decreases bound, ns, 1
  {
    match ns
    case NoNodes => Plain("")
    case Cons(n, more) =>
      Join(Pieces(n, defs, rank, bound, keep),
           Join(Plain(if more.Cons? then "," else ""), NodesPieces(more, defs, rank, bound, keep)))
  }

  function EntriesPieces(es: Entries, defs: map<Name, Node>, rank: map<Name, nat>, bound: nat, keep: set<Name>): (t: Tool)
    requires Acyclic(defs, rank) && EntriesResolvable(es, defs, rank, bound)
    ensures t.Valid()
    decreases bound, es, 1
  {
    match es
    case NoEntries => Plain("")
    case Entry(key, n, more) =>
      Join(Plain(DumpString(key) + ":"),
           Join(Pieces(n, defs, rank, bound, keep),
                Join(Plain(if more.Entry? then "," else ""), EntriesPieces(more, defs, rank, bound, keep))))
  }

  lemma {:induction false} JoinExpands(a: Tool, b: Tool, shared: map<Name, Text>)
    requires a.Valid() && b.Valid() && a.Covered(shared) && b.Covered(shared)
    ensures Join(a, b).Covered(shared) && Expand(Join(a, b), shared) == Expand(a, shared) + Expand(b, shared)
    decreases |a.refs|
  {
    var t := Join(a, b);
    if a.refs == [] {
      assert t.texts[1..] == b.texts[1..];
      if b.refs != [] {
        assert Rest(t) == Rest(b);
        assert a.texts[0] + b.texts[0] + (shared[b.refs[0]] + Expand(Rest(b), shared))
            == a.texts[0] + (b.texts[0] + (shared[b.refs[0]] + Expand(Rest(b), shared)));
      }
    } else {
      RestCovered(a, shared);
      JoinExpands(Rest(a), b, shared);
      ConsCovered(a.texts[0], a.refs[0], Join(Rest(a), b), shared);
      assert a.texts[0] + (shared[a.refs[0]] + (Expand(Rest(a), shared) + Expand(b, shared)))
          == a.texts[0] + (shared[a.refs[0]] + Expand(Rest(a), shared)) + Expand(b, shared);
    }
  }

  lemma PlainExpands(text: Text, shared: map<Name, Text>)
    ensures Plain(text).Covered(shared) && Expand(Plain(text), shared) == text
  {
  }

  /** The shared texts are the full texts of their definitions. */
  ghost predicate SharedTexts(defs: map<Name, Node>, rank: map<Name, nat>, keep: set<Name>, shared: map<Name, Text>)
    requires Acyclic(defs, rank)
  {
    forall d :: d in keep ==> d in defs && d in rank && d in shared && shared[d] == Minified(defs[d], defs, rank, rank[d])
  }

  /** Whatever is kept for sharing, the pieces expand to the full text. */
  lemma {:induction false} PiecesExpand(n: Node, defs: map<Name, Node>, rank: map<Name, nat>, bound: nat, keep: set<Name>, shared: map<Name, Text>)
    requires Acyclic(defs, rank) && Resolvable(n, defs, rank, bound) && SharedTexts(defs, rank, keep, shared)
    ensures Pieces(n, defs, rank, bound, keep).Covered(shared)
    ensures Expand(Pieces(n, defs, rank, bound, keep), shared) == Minified(n, defs, rank, bound)
    decreases bound, n, 0
  {
    hide Join, Expand, Plain;
    match n
    case Leaf(value) => PlainExpands(Dump(value), shared);
    case List(items) =>
      NodesExpand(items, defs, rank, bound, keep, shared);
      BracketsExpand("[", NodesPieces(items, defs, rank, bound, keep), "]", shared);
    case Dict(entries) =>
      EntriesExpand(entries, defs, rank, bound, keep, shared);
      BracketsExpand("{", EntriesPieces(entries, defs, rank, bound, keep), "}", shared);
    case Ref(d) =>
      if d in keep {
        OneRef(d, shared);
      } else {
        PiecesExpand(defs[d], defs, rank, rank[d], keep, shared);
      }
  }

  lemma OneRef(d: Name, shared: map<Name, Text>)
    requires d in shared
    ensures Tool(["", ""], [d]).Covered(shared) && Expand(Tool(["", ""], [d]), shared) == shared[d]
  {
    var t := Tool(["", ""], [d]);
    assert Rest(t) == Tool([""], []);
    assert "" + (shared[d] + "") == shared[d];
  }

  lemma BracketsExpand(open: Text, t: Tool, close: Text, shared: map<Name, Text>)
    requires t.Valid() && t.Covered(shared)
    ensures Join(Plain(open), Join(t, Plain(close))).Covered(shared)
    ensures Expand(Join(Plain(open), Join(t, Plain(close))), shared) == open + Expand(t, shared) + close
  {
    hide Join, Expand, Plain;
    PlainExpands(open, shared);
    PlainExpands(close, shared);
    JoinExpands(t, Plain(close), shared);
    JoinExpands(Plain(open), Join(t, Plain(close)), shared);
    assert open + (Expand(t, shared) + close) == open + Expand(t, shared) + close;
  }

  lemma {:induction false} NodesExpand(ns: Nodes, defs: map<Name, Node>, rank: map<Name, nat>, bound: nat, keep: set<Name>, shared: map<Name, Text>)
    requires Acyclic(defs, rank) && NodesResolvable(ns, defs, rank, bound) && SharedTexts(defs, rank, keep, shared)
    ensures NodesPieces(ns, defs, rank, bound, keep).Covered(shared)
    ensures Expand(NodesPieces(ns, defs, rank, bound, keep), shared) == MinifiedNodes(ns, defs, rank, bound)
    decreases bound, ns, 1
  {
    hide Join, Expand, Plain, Pieces, Minified;
    match ns
    case NoNodes => PlainExpands("", shared);
    case Cons(n, more) =>
      var comma := if more.Cons? then "," else "";
      PiecesExpand(n, defs, rank, bound, keep, shared);
      NodesExpand(more, defs, rank, bound, keep, shared);
      SeparatedExpands(Pieces(n, defs, rank, bound, keep), comma, NodesPieces(more, defs, rank, bound, keep), shared);
  }

  lemma SeparatedExpands(a: Tool, comma: Text, b: Tool, shared: map<Name, Text>)
    requires a.Valid() && b.Valid() && a.Covered(shared) && b.Covered(shared)
    ensures var t := Join(a, Join(Plain(comma), b));
            t.Covered(shared) && Expand(t, shared) == Expand(a, shared) + comma + Expand(b, shared)
  {
    hide Join, Expand, Plain;
    PlainExpands(comma, shared);
    JoinExpands(Plain(comma), b, shared);
    JoinExpands(a, Join(Plain(comma), b), shared);
    assert Expand(a, shared) + (comma + Expand(b, shared)) == Expand(a, shared) + comma + Expand(b, shared);
  }

  lemma {:induction false} EntriesExpand(es: Entries, defs: map<Name, Node>, rank: map<Name, nat>, bound: nat, keep: set<Name>, shared: map<Name, Text>)
    requires Acyclic(defs, rank) && EntriesResolvable(es, defs, rank, bound) && SharedTexts(defs, rank, keep, shared)
    ensures EntriesPieces(es, defs, rank, bound, keep).Covered(shared)
    ensures Expand(EntriesPieces(es, defs, rank, bound, keep), shared) == MinifiedEntries(es, defs, rank, bound)
    decreases bound, es, 1
  {
    hide Join, Expand, Plain, Pieces, Minified, DumpString, Printable;
    match es
    case NoEntries => PlainExpands("", shared);
    case Entry(key, n, more) =>
      var comma := if more.Entry? then "," else "";
      var value, rest := Pieces(n, defs, rank, bound, keep), EntriesPieces(more, defs, rank, bound, keep);
      PiecesExpand(n, defs, rank, bound, keep, shared);
      EntriesExpand(more, defs, rank, bound, keep, shared);
      SeparatedExpands(value, comma, rest, shared);
      PlainExpands(DumpString(key) + ":", shared);
      JoinExpands(Plain(DumpString(key) + ":"), Join(value, Join(Plain(comma), rest)), shared);
      ConcatAssoc4(DumpString(key) + ":", Expand(value, shared), comma, Expand(rest, shared));
  }

  lemma ConcatAssoc4(a: Text, b: Text, c: Text, d: Text)
    ensures a + (b + c + d) == a + b + c + d
  {
  }

  // --- a tool's definition ---------------------------------------------------------------------------

  /** A tool: its name and its entries. */
  datatype ToolDoc = ToolDoc(name: Name, entries: Entries)

  /** Entries other than those with this key. */
  function Without(es: Entries, key: Text): Entries {
    match es
    case NoEntries => NoEntries
    case Entry(k, n, more) => if k == key then Without(more, key) else Entry(k, n, Without(more, key))
  }

  /** The definition with its name in front. */
  function NameFirst(doc: ToolDoc): Node {
    Dict(Entry("name", Leaf(Str(doc.name)), Without(doc.entries, "name")))
  }

  const OPENING: Text := "{\"name\":\""

  /** What every definition's text starts with. */
  function Head(name: Name): Text {
    OPENING + name + "\""
  }

  /** What the generator's check of names leaves: no character JSON would escape. */
  predicate PlainName(name: Name) {
    forall k :: 0 <= k < |name| ==> DumpChar(name[k]) == [name[k]]
  }

  lemma {:induction false} PlainDumps(name: Name)
    requires PlainName(name)
    ensures DumpChars(name) == name
  {
    if name != "" {
      assert DumpChar(name[0]) == [name[0]];
      forall k | 0 <= k < |name| - 1
        ensures DumpChar(name[1..][k]) == [name[1..][k]]
      {
        assert DumpChar(name[k + 1]) == [name[k + 1]];
      }
      PlainDumps(name[1..]);
      assert [name[0]] + name[1..] == name;
    }
  }

  lemma JoinPlain(text: Text, t: Tool)
    requires t.Valid()
    ensures Join(Plain(text), t) == Tool([text + t.texts[0]] + t.texts[1..], t.refs)
  {
  }

  lemma {:induction false} JoinFirst(a: Tool, b: Tool)
    requires a.Valid() && b.Valid()
    ensures a.texts[0] <= Join(a, b).texts[0]
  {
    if a.refs == [] {
      assert a.texts[0] <= a.texts[0] + b.texts[0];
    }
  }

  lemma NameIsPlain()
    ensures PlainName("name")
  {
    hide DumpChars;
  }

  lemma NameDumps()
    ensures DumpString("name") == "\"name\""
  {
    hide DumpChars, DumpChar, PlainName;
    NameIsPlain();
    PlainDumps("name");
    assert "\"" + "name" + "\"" == "\"name\"";
  }

  lemma EntryFirst(key: Text, value: Scalar, more: Entries, defs: map<Name, Node>, rank: map<Name, nat>, bound: nat, keep: set<Name>)
    requires Acyclic(defs, rank) && EntriesResolvable(Entry(key, Leaf(value), more), defs, rank, bound)
    ensures DumpString(key) + ":" + Dump(value)
         <= EntriesPieces(Entry(key, Leaf(value), more), defs, rank, bound, keep).texts[0]
  {
    hide Join, Plain, Acyclic, DumpString, Dump;
    var es := Entry(key, Leaf(value), more);
    var rest := Join(Plain(if more.Entry? then "," else ""), EntriesPieces(more, defs, rank, bound, keep));
    JoinPlain(Dump(value), rest);
    JoinPlain(DumpString(key) + ":", Join(Plain(Dump(value)), rest));
    assert EntriesPieces(es, defs, rank, bound, keep).texts[0] == DumpString(key) + ":" + (Dump(value) + rest.texts[0]);
    ConcatAssoc3(DumpString(key) + ":", Dump(value), rest.texts[0]);
  }

  lemma ConcatAssoc3(a: Text, b: Text, c: Text)
    ensures a + (b + c) == a + b + c && a + b <= a + (b + c)
  {
  }

  lemma PrefixAfter(open: Text, a: Text, b: Text)
    requires a <= b
    ensures open + a <= open + b
  {
  }

  /** Whatever is kept for sharing, the first piece starts with the head. */
  lemma PiecesHead(doc: ToolDoc, defs: map<Name, Node>, rank: map<Name, nat>, bound: nat, keep: set<Name>)
    requires Acyclic(defs, rank) && Resolvable(NameFirst(doc), defs, rank, bound) && PlainName(doc.name)
    ensures Head(doc.name) <= Pieces(NameFirst(doc), defs, rank, bound, keep).texts[0]
  {
    hide Join, Plain, Acyclic;
    var more := Without(doc.entries, "name");
    var es := Entry("name", Leaf(Str(doc.name)), more);
    var inner := EntriesPieces(es, defs, rank, bound, keep);
    EntryFirst("name", Str(doc.name), more, defs, rank, bound, keep);
    JoinFirst(inner, Plain("}"));
    JoinPlain("{", Join(inner, Plain("}")));
    var first := DumpString("name") + ":" + Dump(Str(doc.name));
    PrefixAfter("{", first, Join(inner, Plain("}")).texts[0]);
    HeadIs(doc.name);
  }

  lemma HeadIs(name: Name)
    requires PlainName(name)
    ensures Head(name) == "{" + (DumpString("name") + ":" + Dump(Str(name)))
  {
    hide DumpChars, DumpChar, PlainName;
    NameDumps();
    PlainDumps(name);
    assert OPENING == "{" + ("\"name\"" + ":") + "\"";
    ConcatHead("{", "\"name\"" + ":", "\"", name, "\"");
  }

  lemma ConcatHead(a: Text, b: Text, c: Text, d: Text, e: Text)
    ensures (a + b + c) + d + e == a + (b + (c + d + e))
  {
  }
}
