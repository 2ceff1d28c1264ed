/** The tool-definition compressor of generate_resource.py: JSON definitions split around shared
    parts, and what a split definition expands to. */
module ToolDefs {
  type Name = string
  type Text = string

  /** A tool's text split around its references to shared texts: texts[k] comes before refs[k]. */
  datatype Tool = Tool(texts: seq<Text>, refs: seq<Name>) {
    predicate Valid() {
      |texts| == |refs| + 1
    }

    predicate Covered(shared: map<Name, Text>) {
      forall k :: 0 <= k < |refs| ==> refs[k] in shared
    }
  }

  /** The tool without its first text and first reference. */
  function Rest(t: Tool): (r: Tool)
    requires t.Valid() && t.refs != []
    ensures r.Valid()
  {
    Tool(t.texts[1..], t.refs[1..])
  }

  lemma RestCovered(t: Tool, shared: map<Name, Text>)
    requires t.Valid() && t.refs != [] && t.Covered(shared)
    ensures t.refs[0] in shared && Rest(t).Covered(shared)
  {
    assert forall k :: 0 <= k < |t.refs| - 1 ==> t.refs[1..][k] == t.refs[k + 1];
  }

  /** The tool's full text. */
  function Expand(t: Tool, shared: map<Name, Text>): Text
    requires t.Valid() && t.Covered(shared)
    decreases |t.refs|
  {
    if t.refs == [] then t.texts[0]
    else
      RestCovered(t, shared);
      t.texts[0] + (shared[t.refs[0]] + Expand(Rest(t), shared))
  }

  // --- moving characters into a shared text -------------------------------------------------

  function LastOne(s: Text): Text {
    if s == "" then "" else [s[|s| - 1]]
  }

  function FirstOne(s: Text): Text {
    if s == "" then "" else [s[0]]
  }

  function DropLast(s: Text): Text {
    if s == "" then "" else s[..|s| - 1]
  }

  function DropFirst(s: Text): Text {
    if s == "" then "" else s[1..]
  }

  /** The tool once the last character before each use of d is gone. */
  function DropBefore(t: Tool, d: Name): (r: Tool)
    requires t.Valid()
    ensures r.Valid() && r.refs == t.refs
  {
    Tool(seq(|t.texts|, k requires 0 <= k < |t.texts| =>
               if k < |t.refs| && t.refs[k] == d then DropLast(t.texts[k]) else t.texts[k]), t.refs)
  }

  /** The tool once the first character after each use of d is gone. */
  function DropAfter(t: Tool, d: Name): (r: Tool)
    requires t.Valid()
    ensures r.Valid() && r.refs == t.refs
  {
    Tool(seq(|t.texts|, k requires 0 <= k < |t.texts| =>
               if 0 < k && t.refs[k - 1] == d then DropFirst(t.texts[k]) else t.texts[k]), t.refs)
  }

  /** Every use of d comes right after the character c. */
  ghost predicate AllBefore(t: Tool, d: Name, c: char)
    requires t.Valid()
  {
    forall k :: 0 <= k < |t.refs| && t.refs[k] == d ==> LastOne(t.texts[k]) == [c]
  }

  ghost predicate AllAfter(t: Tool, d: Name, c: char)
    requires t.Valid()
  {
    forall k :: 0 <= k < |t.refs| && t.refs[k] == d ==> FirstOne(t.texts[k + 1]) == [c]
  }

  lemma BeforeMoves(text: Text, c: char, sh: Text, rest: Text)
    requires LastOne(text) == [c]
    ensures DropLast(text) + (([c] + sh) + rest) == text + (sh + rest)
  {
    assert text == DropLast(text) + [c];
  }

  lemma AfterMoves(text: Text, c: char, more: Text)
    requires FirstOne(text) == [c]
    ensures text + more == [c] + (DropFirst(text) + more)
  {
    assert text == [c] + DropFirst(text);
  }

  /** Moving the common character before the uses of d into d's text changes no expansion. */
  lemma {:induction false} BeforeKeeps(t: Tool, d: Name, c: char, shared: map<Name, Text>)
    requires t.Valid() && t.Covered(shared) && d in shared && AllBefore(t, d, c)
    ensures DropBefore(t, d).Covered(shared[d := [c] + shared[d]])
    ensures Expand(DropBefore(t, d), shared[d := [c] + shared[d]]) == Expand(t, shared)
    decreases |t.refs|
  {
    hide LastOne, DropLast;
    if t.refs != [] {
      RestCovered(t, shared);
      RestBefore(t, d, c);
      BeforeKeeps(Rest(t), d, c, shared);
      assert Rest(DropBefore(t, d)) == DropBefore(Rest(t), d);
      if t.refs[0] == d {
        BeforeMoves(t.texts[0], c, shared[d], Expand(Rest(t), shared));
      }
    }
  }

  lemma RestBefore(t: Tool, d: Name, c: char)
    requires t.Valid() && t.refs != [] && AllBefore(t, d, c)
    ensures AllBefore(Rest(t), d, c)
  {
    hide LastOne;
    forall k | 0 <= k < |t.refs| - 1 && t.refs[1..][k] == d
      ensures LastOne(t.texts[1..][k]) == [c]
    {
      assert t.refs[k + 1] == d;
    }
  }

  /** The part of a tool after a use of d: its first character is to go too. */
  function Trimmed(t: Tool, after: bool): (r: Tool)
    requires t.Valid()
    ensures r.Valid() && r.refs == t.refs
  {
    if after then t.(texts := t.texts[0 := DropFirst(t.texts[0])]) else t
  }

  lemma {:induction false} AfterKeeps(t: Tool, d: Name, c: char, shared: map<Name, Text>, after: bool)
    requires t.Valid() && t.Covered(shared) && d in shared && AllAfter(t, d, c)
    requires after ==> FirstOne(t.texts[0]) == [c]
    ensures Trimmed(DropAfter(t, d), after).Covered(shared[d := shared[d] + [c]])
    ensures Expand(t, shared)
         == (if after then [c] else "") + Expand(Trimmed(DropAfter(t, d), after), shared[d := shared[d] + [c]])
    decreases |t.refs|
  {
    hide FirstOne, DropFirst, DropAfter, Trimmed;
    var r := Trimmed(DropAfter(t, d), after);
    var sh := shared[d := shared[d] + [c]];
    TrimmedParts(t, d, after);
    if t.refs == [] {
      if after { TextMoves(t.texts[0], c); }
    } else {
      RestCovered(t, shared);
      RestAfter(t, d, c);
      var next := t.refs[0] == d;
      AfterKeeps(Rest(t), d, c, shared, next);
      var tail := sh[t.refs[0]] + Expand(Rest(r), sh);
      AppendedTo(shared[t.refs[0]], c, Expand(Rest(r), sh), next);
      if after { AfterMoves(t.texts[0], c, tail); }
    }
  }

  lemma AppendedTo(text: Text, c: char, rest: Text, next: bool)
    ensures text + ((if next then [c] else "") + rest) == (if next then text + [c] else text) + rest
  {
    assert "" + rest == rest;
    assert text + ([c] + rest) == text + [c] + rest;
  }

  lemma TrimmedParts(t: Tool, d: Name, after: bool)
    requires t.Valid()
    ensures Trimmed(DropAfter(t, d), after).texts[0] == if after then DropFirst(t.texts[0]) else t.texts[0]
    ensures t.refs != [] ==> Rest(Trimmed(DropAfter(t, d), after)) == Trimmed(DropAfter(Rest(t), d), t.refs[0] == d)
  {
    hide DropFirst;
    if t.refs != [] {
      var a, b := Rest(Trimmed(DropAfter(t, d), after)), Trimmed(DropAfter(Rest(t), d), t.refs[0] == d);
      assert a.texts == b.texts;
    }
  }

  lemma TextMoves(text: Text, c: char)
    requires FirstOne(text) == [c]
    ensures text == [c] + DropFirst(text)
  {
  }

  lemma RestAfter(t: Tool, d: Name, c: char)
    requires t.Valid() && t.refs != [] && AllAfter(t, d, c)
    ensures AllAfter(Rest(t), d, c)
    ensures t.refs[0] == d ==> FirstOne(Rest(t).texts[0]) == [c]
  {
    hide FirstOne;
    forall k | 0 <= k < |t.refs| - 1 && t.refs[1..][k] == d
      ensures FirstOne(t.texts[1..][k + 1]) == [c]
    {
      assert t.refs[k + 1] == d;
    }
  }

  // --- merging two shared texts ------------------------------------------------------------------

  /** The tool once what follows each use of d, an empty text and a reference, is gone. */
  function Merged(t: Tool, d: Name): (r: Tool)
    requires t.Valid()
    ensures r.Valid()
    decreases |t.refs|
  {
    if t.refs == [] then t
    else
      var r := Merged(Rest(t), d);
      if t.refs[0] == d && r.refs != [] then Tool([t.texts[0]] + r.texts[1..], [d] + r.refs[1..])
      else Tool([t.texts[0]] + r.texts, [t.refs[0]] + r.refs)
  }

  /** Every use of d is directly followed by e. */
  ghost predicate Followed(t: Tool, d: Name, e: Name)
    requires t.Valid()
  {
    forall k :: 0 <= k < |t.refs| && t.refs[k] == d ==> t.texts[k + 1] == "" && k + 1 < |t.refs| && t.refs[k + 1] == e
  }

  function Uses(refs: seq<Name>, d: Name): nat {
    if refs == [] then 0 else (if refs[0] == d then 1 else 0) + Uses(refs[1..], d)
  }

  /** Besides, every e comes right after a d. */
  ghost predicate Paired(t: Tool, d: Name, e: Name)
    requires t.Valid()
    decreases |t.refs|
  {
    if t.refs == [] then true
    else if t.refs[0] == d then |t.refs| >= 2 && t.texts[1] == "" && t.refs[1] == e && Paired(Rest(Rest(t)), d, e)
    else t.refs[0] != e && Paired(Rest(t), d, e)
  }

  lemma RestFollowed(t: Tool, d: Name, e: Name)
    requires t.Valid() && t.refs != [] && Followed(t, d, e)
    ensures Followed(Rest(t), d, e)
  {
    forall k | 0 <= k < |t.refs| - 1 && t.refs[1..][k] == d
      ensures t.texts[1..][k + 1] == "" && k + 1 < |t.refs| - 1 && t.refs[1..][k + 1] == e
    {
      assert t.refs[k + 1] == d;
    }
  }

  /** If every d is followed by an e there are at least as many e; if there are no more, each has its d. */
  lemma {:induction false} FollowedCounts(t: Tool, d: Name, e: Name)
    requires t.Valid() && Followed(t, d, e) && d != e
    ensures Uses(t.refs, e) >= Uses(t.refs, d)
    ensures Uses(t.refs, e) == Uses(t.refs, d) ==> Paired(t, d, e)
    decreases |t.refs|
  {
    if t.refs != [] {
      RestFollowed(t, d, e);
      if t.refs[0] == d {
        assert t.texts[1] == "" && |t.refs| >= 2 && t.refs[1] == e;
        RestFollowed(Rest(t), d, e);
        FollowedCounts(Rest(Rest(t)), d, e);
        assert Uses(t.refs, d) == 1 + Uses(Rest(t).refs, d) && Uses(t.refs, e) == Uses(Rest(t).refs, e);
        assert Rest(t).refs[0] == e;
      } else {
        FollowedCounts(Rest(t), d, e);
      }
    }
  }

  /** Merging e into d changes no expansion, and no use of e is left. */
  lemma {:induction false} MergeKeeps(t: Tool, d: Name, e: Name, shared: map<Name, Text>)
    requires t.Valid() && t.Covered(shared) && d in shared && e in shared && d != e && Paired(t, d, e)
    ensures Merged(t, d).Covered(shared[d := shared[d] + shared[e]] - {e})
    ensures Expand(Merged(t, d), shared[d := shared[d] + shared[e]] - {e}) == Expand(t, shared)
    decreases |t.refs|
  {
    var sh := shared[d := shared[d] + shared[e]] - {e};
    if t.refs != [] {
      RestCovered(t, shared);
      if t.refs[0] == d {
        RestCovered(Rest(t), shared);
        MergeKeeps(Rest(Rest(t)), d, e, shared);
        MergedPair(t, d, e);
        var r := Merged(Rest(Rest(t)), d);
        ConsCovered(t.texts[0], d, r, sh);
        MergeTexts(t.texts[0], shared[d], shared[e], Expand(Rest(Rest(t)), shared));
      } else {
        MergeKeeps(Rest(t), d, e, shared);
        ConsCovered(t.texts[0], t.refs[0], Merged(Rest(t), d), sh);
      }
    }
  }

  /** A tool that begins with d and its e. */
  lemma MergedPair(t: Tool, d: Name, e: Name)
    requires t.Valid() && d != e && |t.refs| >= 2 && t.refs[0] == d && t.refs[1] == e && t.texts[1] == ""
    ensures var r := Merged(Rest(Rest(t)), d);
            Merged(t, d) == Tool([t.texts[0]] + r.texts, [d] + r.refs)
  {
    var r := Merged(Rest(Rest(t)), d);
    var s := Merged(Rest(t), d);
    assert s == Tool([t.texts[1]] + r.texts, [e] + r.refs);
    assert s.texts[1..] == r.texts && s.refs[1..] == r.refs;
  }

  lemma ConsCovered(text: Text, d: Name, r: Tool, sh: map<Name, Text>)
    requires r.Valid() && r.Covered(sh) && d in sh
    ensures var t := Tool([text] + r.texts, [d] + r.refs);
            t.Valid() && t.Covered(sh) && Expand(t, sh) == text + (sh[d] + Expand(r, sh))
  {
    var t := Tool([text] + r.texts, [d] + r.refs);
    assert t.texts[1..] == r.texts && t.refs[1..] == r.refs;
    assert Rest(t) == r;
  }

  lemma MergeTexts(text: Text, sd: Text, se: Text, rest: Text)
    ensures text + ((sd + se) + rest) == text + (sd + ("" + (se + rest)))
  {
    assert "" + (se + rest) == se + rest;
    assert (sd + se) + rest == sd + (se + rest);
  }

  // --- all tools ---------------------------------------------------------------------------------

  ghost predicate AllValid(tools: seq<Tool>, shared: map<Name, Text>) {
    forall i :: 0 <= i < |tools| ==> tools[i].Valid() && tools[i].Covered(shared)
  }

  /** The tools expand to the same texts. */
  ghost predicate SameExpansions(a: seq<Tool>, sa: map<Name, Text>, b: seq<Tool>, sb: map<Name, Text>)
    requires AllValid(a, sa) && AllValid(b, sb)
  {
    |a| == |b| && forall i :: 0 <= i < |a| ==> Expand(a[i], sa) == Expand(b[i], sb)
  }

  /** Characters left in a tool's own texts. */
  function Chars(texts: seq<Text>): nat {
    if texts == [] then 0 else Chars(texts[..|texts| - 1]) + |texts[|texts| - 1]|
  }

  function TotalChars(tools: seq<Tool>): nat {
    if tools == [] then 0 else TotalChars(tools[..|tools| - 1]) + Chars(tools[|tools| - 1].texts)
  }

  function TotalUses(tools: seq<Tool>, d: Name): nat {
    if tools == [] then 0 else TotalUses(tools[..|tools| - 1], d) + Uses(tools[|tools| - 1].refs, d)
  }

  /** No text grows. */
  lemma {:induction false} CharsShrink(a: seq<Text>, b: seq<Text>)
    requires |a| == |b| && forall k :: 0 <= k < |a| ==> |b[k]| <= |a[k]|
    ensures Chars(b) <= Chars(a)
    ensures (exists k :: 0 <= k < |a| && |b[k]| < |a[k]|) ==> Chars(b) < Chars(a)
  {
    if a != [] {
      var n := |a| - 1;
      CharsShrink(a[..n], b[..n]);
      if k :| 0 <= k < |a| && |b[k]| < |a[k]| {
        if k < n { assert |b[..n][k]| < |a[..n][k]|; }
      }
    }
  }

  lemma {:induction false} TotalShrinks(a: seq<Tool>, b: seq<Tool>)
    requires |a| == |b| && forall i :: 0 <= i < |a| ==> Chars(b[i].texts) <= Chars(a[i].texts)
    ensures TotalChars(b) <= TotalChars(a)
    ensures (exists i :: 0 <= i < |a| && Chars(b[i].texts) < Chars(a[i].texts)) ==> TotalChars(b) < TotalChars(a)
  {
    if a != [] {
      var n := |a| - 1;
      TotalShrinks(a[..n], b[..n]);
      if i :| 0 <= i < |a| && Chars(b[i].texts) < Chars(a[i].texts) {
        if i < n { assert Chars(b[..n][i].texts) < Chars(a[..n][i].texts); }
      }
    }
  }

  /** Enough e in all, and in no tool fewer than d: exactly as many in each. */
  lemma {:induction false} UsesEverywhere(tools: seq<Tool>, d: Name, e: Name, i: nat)
    requires (forall k :: 0 <= k < |tools| ==> Uses(tools[k].refs, e) >= Uses(tools[k].refs, d)) && i < |tools|
    ensures TotalUses(tools, e) >= TotalUses(tools, d)
    ensures TotalUses(tools, e) == TotalUses(tools, d) ==> Uses(tools[i].refs, e) == Uses(tools[i].refs, d)
    decreases |tools|
  {
    var n := |tools| - 1;
    if n > 0 {
      UsesEverywhere(tools[..n], d, e, if i < n then i else 0);
    } else {
      assert tools[..0] == [];
    }
  }
}
