/** What a published definition says: a JSON text of RFC 8259 for an object with the tool's name first
    and every other entry of its definition after it, references replaced by what they refer to. */
module ToolJson {
  import opened Wrappers
  import opened ToolDefs
  import opened ToolPieces

  // --- JSON values and their texts ---------------------------------------------------------------------

  datatype Json = Atom(value: Scalar) | Array(items: seq<Json>) | Object(members: seq<Member>)

  datatype Member = Member(key: Text, value: Json)

  function HexValue(c: char): Option<nat> {
    if '0' <= c <= '9' then Some(c as int - '0' as int)
    else if 'a' <= c <= 'f' then Some(c as int - 'a' as int + 10)
    else if 'A' <= c <= 'F' then Some(c as int - 'A' as int + 10)
    else None
  }

  /** Four hexadecimal digits below 0x80, the only ones used here. */
  function HexFour(s: Text): Option<char>
    requires |s| == 4
  {
    match (HexValue(s[0]), HexValue(s[1]), HexValue(s[2]), HexValue(s[3]))
    case (Some(a), Some(b), Some(c), Some(d)) => if a == b == 0 && c < 8 then Some((16 * c + d) as char) else None
    case _ => None
  }

  /** What follows a backslash stands for this character. */
  function Escaped(c: char): Option<char> {
    if c == '"' || c == '\\' || c == '/' then Some(c)
    else if c == 'b' then Some(8 as char)
    else if c == 'f' then Some(12 as char)
    else if c == 'n' then Some(10 as char)
    else if c == 'r' then Some(13 as char)
    else if c == 't' then Some(9 as char)
    else None
  }

  /** The string these characters between quotes stand for, section 7. */
  function ReadChars(s: Text): Option<Text> {
    if s == "" then Some("")
    else if s[0] == '"' || (s[0] as int) < 0x20 then None
    else if s[0] != '\\' then Before(Some(s[0]), ReadChars(s[1..]))
    else if |s| < 2 then None
    else if s[1] != 'u' then Before(Escaped(s[1]), ReadChars(s[2..]))
    else if |s| < 6 then None
    else Before(HexFour(s[2..6]), ReadChars(s[6..]))
  }

  function Before(c: Option<char>, more: Option<Text>): Option<Text> {
    if c.Some? && more.Some? then Some([c.value] + more.value) else None
  }

  predicate SpellsString(t: Text, s: Text) {
    |t| >= 2 && t[0] == '"' && t[|t| - 1] == '"' && ReadChars(t[1..|t| - 1]) == Some(s)
  }

  function Commas(parts: seq<Text>): Text {
    if parts == [] then ""
    else if |parts| == 1 then parts[0]
    else parts[0] + "," + Commas(parts[1..])
  }

  /** t is a text of j, without white space. */
  ghost predicate Spells(t: Text, j: Json)
    decreases j
  {
    match j
    case Atom(Str(s)) => SpellsString(t, s)
    case Atom(Word(w)) => t == w
    case Array(items) =>
      exists parts: seq<Text> :: t == "[" + Commas(parts) + "]" && |parts| == |items| &&
        forall i :: 0 <= i < |items| ==> Spells(parts[i], items[i])
    case Object(members) =>
      exists parts: seq<Text> :: t == "{" + Commas(parts) + "}" && |parts| == |members| &&
        forall i :: 0 <= i < |members| ==> SpellsMember(parts[i], members[i])
  }

  ghost predicate SpellsMember(t: Text, m: Member)
    decreases m
  {
    exists k :: 0 <= k < |t| && t[k] == ':' && SpellsString(t[..k], m.key) && Spells(t[k + 1..], m.value)
  }

  // --- strings -----------------------------------------------------------------------------------------

  lemma HexRead(n: nat)
    requires n < 16
    ensures HexValue(HexDigit(n)) == Some(n)
  {
  }

  lemma CharRead(c: char, more: Text)
    ensures ReadChars(DumpChar(c) + more) == Before(Some(c), ReadChars(more))
  {
    var t := DumpChar(c) + more;
    if c as int < 0x20 && t[1] == 'u' {
      HexRead(c as int / 16);
      HexRead(c as int % 16);
      assert t[2..6] == ['0', '0', HexDigit(c as int / 16), HexDigit(c as int % 16)];
      assert t[6..] == more;
    } else if t[0] == '\\' {
      assert t[2..] == more;
    } else {
      assert t[1..] == more;
    }
  }

  lemma {:induction false} CharsRead(s: Text)
    ensures ReadChars(DumpChars(s)) == Some(s)
  {
    hide DumpChar;
    if s != "" {
      CharRead(s[0], DumpChars(s[1..]));
      CharsRead(s[1..]);
      assert [s[0]] + s[1..] == s;
    }
  }

  /** What json.dumps writes for a string is read back as it. */
  lemma StringSpelled(s: Text)
    ensures SpellsString(DumpString(s), s)
  {
    hide DumpChars, ReadChars;
    CharsRead(s);
    var t := DumpString(s);
    assert t[1..|t| - 1] == DumpChars(s);
  }

  // --- the tree a definition stands for ------------------------------------------------------------------

  /** The value with every reference replaced by what it refers to. */
  function Resolved(n: Node, defs: map<Name, Node>, rank: map<Name, nat>, bound: nat): Json
    requires Acyclic(defs, rank) && Resolvable(n, defs, rank, bound)
    decreases bound, n, 0
  {
    match n
    case Leaf(value) => Atom(value)
    case List(items) => Array(ResolvedNodes(items, defs, rank, bound))
    case Dict(entries) => Object(ResolvedEntries(entries, defs, rank, bound))
    case Ref(d) => Resolved(defs[d], defs, rank, rank[d])
  }

  function ResolvedNodes(ns: Nodes, defs: map<Name, Node>, rank: map<Name, nat>, bound: nat): seq<Json>
    requires Acyclic(defs, rank) && NodesResolvable(ns, defs, rank, bound)
    decreases bound, ns, 1
  {
    match ns
    case NoNodes => []
    case Cons(n, more) => [Resolved(n, defs, rank, bound)] + ResolvedNodes(more, defs, rank, bound)
  }

  function ResolvedEntries(es: Entries, defs: map<Name, Node>, rank: map<Name, nat>, bound: nat): seq<Member>
    requires Acyclic(defs, rank) && EntriesResolvable(es, defs, rank, bound)
    decreases bound, es, 1
  {
    match es
    case NoEntries => []
    case Entry(key, n, more) => [Member(key, Resolved(n, defs, rank, bound))] + ResolvedEntries(more, defs, rank, bound)
  }

  /** The minified text is a text of that tree. */
  lemma {:induction false} MinifiedSpells(n: Node, defs: map<Name, Node>, rank: map<Name, nat>, bound: nat)
    requires Acyclic(defs, rank) && Resolvable(n, defs, rank, bound)
    ensures Spells(Minified(n, defs, rank, bound), Resolved(n, defs, rank, bound))
    decreases bound, n, 0
  {
    hide DumpString, SpellsString, SpellsMember, Acyclic;
    match n
    case Leaf(value) =>
      if value.Str? { StringSpelled(value.s); }
    case List(items) =>
      var parts := NodesSpell(items, defs, rank, bound);
      assert Minified(n, defs, rank, bound) == "[" + Commas(parts) + "]";
    case Dict(entries) =>
      var parts := EntriesSpell(entries, defs, rank, bound);
      assert Minified(n, defs, rank, bound) == "{" + Commas(parts) + "}";
    case Ref(d) => RefSpells(d, defs, rank, bound);
  }

  lemma {:induction false} RefSpells(d: Name, defs: map<Name, Node>, rank: map<Name, nat>, bound: nat)
    requires Acyclic(defs, rank) && Resolvable(Ref(d), defs, rank, bound)
    ensures Spells(Minified(Ref(d), defs, rank, bound), Resolved(Ref(d), defs, rank, bound))
    decreases bound, Ref(d), -1
  {
    hide Spells;
    MinifiedSpells(defs[d], defs, rank, rank[d]);
  }

  lemma {:induction false} NodesSpell(ns: Nodes, defs: map<Name, Node>, rank: map<Name, nat>, bound: nat) returns (parts: seq<Text>)
    requires Acyclic(defs, rank) && NodesResolvable(ns, defs, rank, bound)
    ensures MinifiedNodes(ns, defs, rank, bound) == Commas(parts) && |parts| == |ResolvedNodes(ns, defs, rank, bound)|
    ensures forall i :: 0 <= i < |parts| ==> Spells(parts[i], ResolvedNodes(ns, defs, rank, bound)[i])
    decreases bound, ns, 1
  {
    hide Spells, Acyclic, Minified, Resolved;
    match ns
    case NoNodes => parts := [];
    case Cons(n, more) =>
      MinifiedSpells(n, defs, rank, bound);
      var rest := NodesSpell(more, defs, rank, bound);
      var first := Minified(n, defs, rank, bound);
      parts := [first] + rest;
      assert parts[1..] == rest;
      if more.NoNodes? {
        assert rest == [] && first + "" + "" == first;
      }
  }

  lemma {:induction false} EntriesSpell(es: Entries, defs: map<Name, Node>, rank: map<Name, nat>, bound: nat) returns (parts: seq<Text>)
    requires Acyclic(defs, rank) && EntriesResolvable(es, defs, rank, bound)
    ensures MinifiedEntries(es, defs, rank, bound) == Commas(parts) && |parts| == |ResolvedEntries(es, defs, rank, bound)|
    ensures forall i :: 0 <= i < |parts| ==> SpellsMember(parts[i], ResolvedEntries(es, defs, rank, bound)[i])
    decreases bound, es, 1
  {
    hide Spells, SpellsMember, Acyclic, Minified, Resolved, DumpString;
    match es
    case NoEntries => parts := [];
    case Entry(key, n, more) =>
      MinifiedSpells(n, defs, rank, bound);
      var rest := EntriesSpell(more, defs, rank, bound);
      var text := Minified(n, defs, rank, bound);
      MemberSpelled(key, text, Resolved(n, defs, rank, bound));
      var first := (DumpString(key) + ":") + text;
      parts := [first] + rest;
      assert parts[1..] == rest;
      if more.NoEntries? {
        assert rest == [] && first + "" + "" == first;
      }
  }

  lemma MemberSpelled(key: Text, text: Text, j: Json)
    requires Spells(text, j)
    ensures SpellsMember((DumpString(key) + ":") + text, Member(key, j))
  {
    hide Spells, SpellsString, DumpString;
    StringSpelled(key);
    var t, k := (DumpString(key) + ":") + text, |DumpString(key)|;
    assert t[..k] == DumpString(key) && t[k] == ':' && t[k + 1..] == text;
  }

  // --- the tool's own entries -----------------------------------------------------------------------------

  function Pairs(es: Entries): seq<(Text, Node)> {
    match es
    case NoEntries => []
    case Entry(key, n, more) => [(key, n)] + Pairs(more)
  }

  /** The places of the entries with another key than this, in order. */
  predicate Others(at: seq<nat>, pairs: seq<(Text, Node)>, key: Text) {
    (forall i, j :: 0 <= i < j < |at| ==> at[i] < at[j]) &&
    (forall i :: 0 <= i < |at| ==> at[i] < |pairs|) &&
    forall k :: 0 <= k < |pairs| ==> (k in at <==> pairs[k].0 != key)
  }

  /** The members are the tool's name and then every entry of the definition but "name", in order. */
  ghost predicate IsDefinition(members: seq<Member>, doc: ToolDoc, defs: map<Name, Node>, rank: map<Name, nat>, bound: nat)
    requires Acyclic(defs, rank)
  {
    members != [] && members[0] == Member("name", Atom(Str(doc.name))) &&
    exists at :: Others(at, Pairs(doc.entries), "name") && |members| == 1 + |at| &&
      forall i :: 0 <= i < |at| ==> IsEntry(members[1 + i], Pairs(doc.entries)[at[i]], defs, rank, bound)
  }

  predicate IsEntry(m: Member, p: (Text, Node), defs: map<Name, Node>, rank: map<Name, nat>, bound: nat)
    requires Acyclic(defs, rank)
  {
    m.key == p.0 && Resolvable(p.1, defs, rank, bound) && m.value == Resolved(p.1, defs, rank, bound)
  }

  lemma {:induction false} OthersKept(es: Entries, key: Text) returns (at: seq<nat>)
    ensures Others(at, Pairs(es), key) && |Pairs(Without(es, key))| == |at|
    ensures forall i :: 0 <= i < |at| ==> Pairs(Without(es, key))[i] == Pairs(es)[at[i]]
  {
    match es
    case NoEntries => at := [];
    case Entry(k, n, more) =>
      var rest := OthersKept(more, key);
      at := Places(k == key, rest);
      OthersMore((k, n), Pairs(more), rest, key);
      PlacesAt(k == key, rest, (k, n), Pairs(more), Pairs(Without(more, key)));
  }

  /** The places of a sequence's other entries, with one entry more in front. */
  function Places(skip: bool, rest: seq<nat>): seq<nat> {
    (if skip then [] else [0]) + seq(|rest|, i requires 0 <= i < |rest| => rest[i] + 1)
  }

  lemma PlacesAt(skip: bool, rest: seq<nat>, p: (Text, Node), more: seq<(Text, Node)>, kept: seq<(Text, Node)>)
    requires |kept| == |rest| && forall i :: 0 <= i < |rest| ==> rest[i] < |more| && kept[i] == more[rest[i]]
    ensures var at, all := Places(skip, rest), (if skip then [] else [p]) + kept;
            |at| == |all| && forall i :: 0 <= i < |at| ==> at[i] < 1 + |more| && all[i] == ([p] + more)[at[i]]
  {
  }

  lemma OthersMore(p: (Text, Node), more: seq<(Text, Node)>, rest: seq<nat>, key: Text)
    requires Others(rest, more, key)
    ensures Others(Places(p.0 == key, rest), [p] + more, key)
  {
    var at, all := Places(p.0 == key, rest), [p] + more;
    var moved := seq(|rest|, i requires 0 <= i < |rest| => rest[i] + 1);
    Shifted(rest, moved);
    forall k | 0 <= k < |all|
      ensures k in at <==> all[k].0 != key
    {
      assert k in at <==> (p.0 != key && k == 0) || k in moved;
      if k > 0 {
        assert all[k] == more[k - 1];
        assert (k - 1) + 1 in moved <==> k - 1 in rest;
      }
    }
  }

  lemma Shifted(a: seq<nat>, b: seq<nat>)
    requires |a| == |b| && forall i :: 0 <= i < |a| ==> b[i] == a[i] + 1
    ensures 0 !in b && forall j: nat :: j + 1 in b <==> j in a
  {
    forall j: nat
      ensures j + 1 in b <==> j in a
    {
      if j in a {
        var i :| 0 <= i < |a| && a[i] == j;
        assert b[i] == j + 1;
      }
    }
  }

  lemma {:induction false} MembersAt(es: Entries, defs: map<Name, Node>, rank: map<Name, nat>, bound: nat)
    requires Acyclic(defs, rank) && EntriesResolvable(es, defs, rank, bound)
    ensures |ResolvedEntries(es, defs, rank, bound)| == |Pairs(es)|
    ensures forall i :: 0 <= i < |Pairs(es)| ==> IsEntry(ResolvedEntries(es, defs, rank, bound)[i], Pairs(es)[i], defs, rank, bound)
  {
    hide Acyclic, Resolved, Resolvable;
    match es
    case NoEntries =>
    case Entry(key, n, more) =>
      MembersAt(more, defs, rank, bound);
  }

  /** What is published for a tool: its name and the entries kept. */
  function Published(doc: ToolDoc, defs: map<Name, Node>, rank: map<Name, nat>, bound: nat): seq<Member>
    requires Acyclic(defs, rank) && EntriesResolvable(Without(doc.entries, "name"), defs, rank, bound)
  {
    [Member("name", Atom(Str(doc.name)))] + ResolvedEntries(Without(doc.entries, "name"), defs, rank, bound)
  }

  lemma PublishedResolved(doc: ToolDoc, defs: map<Name, Node>, rank: map<Name, nat>, bound: nat)
    requires Acyclic(defs, rank) && Resolvable(NameFirst(doc), defs, rank, bound)
    ensures EntriesResolvable(Without(doc.entries, "name"), defs, rank, bound)
    ensures Resolved(NameFirst(doc), defs, rank, bound) == Object(Published(doc, defs, rank, bound))
  {
    hide Acyclic, Without;
    assert Resolved(Leaf(Str(doc.name)), defs, rank, bound) == Atom(Str(doc.name));
  }

  lemma PublishedDefinition(doc: ToolDoc, defs: map<Name, Node>, rank: map<Name, nat>, bound: nat)
    requires Acyclic(defs, rank) && EntriesResolvable(Without(doc.entries, "name"), defs, rank, bound)
    ensures IsDefinition(Published(doc, defs, rank, bound), doc, defs, rank, bound)
  {
    hide Acyclic, Without, Others, Resolved, Resolvable, ResolvedEntries, EntriesResolvable, Pairs, IsEntry;
    var kept := Without(doc.entries, "name");
    var at := OthersKept(doc.entries, "name");
    MembersAt(kept, defs, rank, bound);
    var members := Published(doc, defs, rank, bound);
    forall i | 0 <= i < |at|
      ensures IsEntry(members[1 + i], Pairs(doc.entries)[at[i]], defs, rank, bound)
    {
      assert Pairs(kept)[i] == Pairs(doc.entries)[at[i]];
    }
  }

  /** The text published for a tool is one of that object. */
  lemma DefinitionSpelled(doc: ToolDoc, defs: map<Name, Node>, rank: map<Name, nat>, bound: nat) returns (members: seq<Member>)
    requires Acyclic(defs, rank) && Resolvable(NameFirst(doc), defs, rank, bound)
    ensures Spells(Minified(NameFirst(doc), defs, rank, bound), Object(members)) && IsDefinition(members, doc, defs, rank, bound)
  {
    hide Spells, Acyclic, IsDefinition, Minified, Resolved, Resolvable;
    MinifiedSpells(NameFirst(doc), defs, rank, bound);
    PublishedResolved(doc, defs, rank, bound);
    PublishedDefinition(doc, defs, rank, bound);
    members := Published(doc, defs, rank, bound);
  }
}
