/** What grow_shared leaves of each text: where every remaining text stood at first, what has moved
    away on either side of it, and so when a tool's text still starts with its head. */
module ToolTracing {
  import opened ToolDefs

  /** For each tool, the places its texts had at first; for each shared def, the text moved into it
      from before its uses and from after them, and the def its text now ends with. */
  datatype Trace = Trace(at: seq<seq<nat>>, before: map<Name, Text>, after: map<Name, Text>, last: map<Name, Name>)

  function Moved(m: map<Name, Text>, d: Name): Text {
    if d in m then m[d] else ""
  }

  function Front(after: map<Name, Text>, refs: seq<Name>, m: nat): Text
    requires m <= |refs|
  {
    if m > 0 then Moved(after, refs[m - 1]) else ""
  }

  function Back(before: map<Name, Text>, refs: seq<Name>, m: nat): Text
    requires m <= |refs|
  {
    if m < |refs| then Moved(before, refs[m]) else ""
  }

  /** The references around the remaining texts. */
  ghost predicate Placed(a: Tool, b: Tool, at: seq<nat>, last: map<Name, Name>)
    requires a.Valid() && b.Valid()
  {
    |at| == |b.texts| && at[0] == 0 && at[|b.refs|] == |a.refs| &&
    forall m :: 0 <= m < |b.refs| ==> PlacedRef(a, b, at, last, m)
  }

  ghost predicate PlacedRef(a: Tool, b: Tool, at: seq<nat>, last: map<Name, Name>, m: nat)
    requires b.Valid() && |at| == |b.texts| && m < |b.refs|
  {
    at[m] < |a.refs| && a.refs[at[m]] == b.refs[m] &&
    b.refs[m] in last && 0 < at[m + 1] <= |a.refs| && a.refs[at[m + 1] - 1] == last[b.refs[m]]
  }

  /** What was before a text, between two references, is what moved on either side and the rest. */
  ghost predicate Remains(a: Tool, b: Tool, at: seq<nat>, before: map<Name, Text>, after: map<Name, Text>)
    requires Within(a, b, at)
  {
    forall m :: 0 <= m < |b.texts| ==> Remain(a, b, at, before, after, m)
  }

  ghost predicate Remain(a: Tool, b: Tool, at: seq<nat>, before: map<Name, Text>, after: map<Name, Text>, m: nat)
    requires Within(a, b, at) && m < |b.texts|
  {
    a.texts[at[m]] == Front(after, b.refs, m) + b.texts[m] + Back(before, b.refs, m)
  }

  ghost predicate Within(a: Tool, b: Tool, at: seq<nat>) {
    a.Valid() && b.Valid() && |at| == |b.texts| && forall m :: 0 <= m < |at| ==> at[m] <= |a.refs|
  }

  /** Every use there was at first of a def that is still shared, or that one's text ends with, is
      still there. */
  ghost predicate AllThere(a: Tool, b: Tool, at: seq<nat>, last: map<Name, Name>)
    requires a.Valid() && b.Valid() && |at| == |b.texts|
  {
    (forall k :: 0 <= k < |a.refs| && a.refs[k] in last ==> k in at) &&
    (forall k, q :: 0 <= k < |a.refs| && q in last && a.refs[k] == last[q] ==>
      exists m :: 0 <= m < |b.refs| && at[m + 1] == k + 1 && b.refs[m] == q)
  }

  ghost predicate Came(a: Tool, b: Tool, at: seq<nat>, tr: Trace) {
    Within(a, b, at) && Placed(a, b, at, tr.last) && AllThere(a, b, at, tr.last) && Remains(a, b, at, tr.before, tr.after)
  }

  ghost predicate Traced(a: seq<Tool>, b: seq<Tool>, tr: Trace) {
    |a| == |b| == |tr.at| && forall j :: 0 <= j < |a| ==> Came(a[j], b[j], tr.at[j], tr)
  }

  // --- the steps of the rewriting -----------------------------------------------------------------

  function Untouched(tools: seq<Tool>, shared: set<Name>): Trace {
    Trace(seq(|tools|, j requires 0 <= j < |tools| => seq(|tools[j].texts|, m => m)), map[], map[], map d | d in shared :: d)
  }

  lemma UntouchedRemain(t: Tool, at: seq<nat>, m: nat)
    requires Within(t, t, at) && m < |t.texts| && at[m] == m
    ensures Remain(t, t, at, map[], map[], m)
  {
    assert Front(map[], t.refs, m) == "" == Back(map[], t.refs, m);
  }

  lemma UntouchedPlaced(t: Tool, at: seq<nat>, last: map<Name, Name>)
    requires t.Valid() && |at| == |t.texts| && (forall m :: 0 <= m < |at| ==> at[m] == m)
    requires (forall k :: 0 <= k < |t.refs| ==> t.refs[k] in last) && (forall q :: q in last ==> last[q] == q)
    ensures Placed(t, t, at, last)
  {
  }

  lemma UntouchedThere(t: Tool, at: seq<nat>, last: map<Name, Name>)
    requires t.Valid() && |at| == |t.texts| && (forall m :: 0 <= m < |at| ==> at[m] == m)
    requires forall q :: q in last ==> last[q] == q
    ensures AllThere(t, t, at, last)
  {
    forall k | 0 <= k < |t.refs|
      ensures k in at && at[k + 1] == k + 1
    {
      assert at[k] == k;
    }
  }

  lemma UntouchedCame(t: Tool, at: seq<nat>, tr: Trace)
    requires t.Valid() && |at| == |t.texts| && (forall m :: 0 <= m < |at| ==> at[m] == m)
    requires (forall k :: 0 <= k < |t.refs| ==> t.refs[k] in tr.last) && (forall q :: q in tr.last ==> tr.last[q] == q)
    requires tr.before == map[] && tr.after == map[]
    ensures Came(t, t, at, tr)
  {
    hide AllThere, Remain, Placed;
    UntouchedThere(t, at, tr.last);
    UntouchedPlaced(t, at, tr.last);
    forall m | 0 <= m < |t.texts|
      ensures Remain(t, t, at, map[], map[], m)
    {
      UntouchedRemain(t, at, m);
    }
  }

  lemma UntouchedTraced(tools: seq<Tool>, shared: map<Name, Text>)
    requires AllValid(tools, shared)
    ensures Traced(tools, tools, Untouched(tools, shared.Keys))
  {
    hide Came;
    var tr := Untouched(tools, shared.Keys);
    forall j | 0 <= j < |tools|
      ensures Came(tools[j], tools[j], tr.at[j], tr)
    {
      assert tools[j].Covered(shared);
      UntouchedCame(tools[j], tr.at[j], tr);
    }
  }

  function BeforeTrace(tr: Trace, d: Name, x: char): Trace {
    tr.(before := tr.before[d := [x] + Moved(tr.before, d)])
  }

  lemma RemainBefore(a: Tool, b: Tool, at: seq<nat>, tr: Trace, d: Name, x: char, m: nat)
    requires Within(a, b, at) && m < |b.texts| && AllBefore(b, d, x) && Remain(a, b, at, tr.before, tr.after, m)
    ensures var tr' := BeforeTrace(tr, d, x);
            Remain(a, DropBefore(b, d), at, tr'.before, tr'.after, m)
  {
    hide LastOne, DropLast;
    if m < |b.refs| && b.refs[m] == d {
      LastMoves(Front(tr.after, b.refs, m), b.texts[m], x, Moved(tr.before, d));
    }
  }

  lemma CameBefore(a: Tool, b: Tool, at: seq<nat>, tr: Trace, d: Name, x: char)
    requires Came(a, b, at, tr) && AllBefore(b, d, x)
    ensures Came(a, DropBefore(b, d), at, BeforeTrace(tr, d, x))
  {
    hide Placed, AllThere, LastOne, DropLast, Remain, AllBefore;
    PlacedSame(a, b, DropBefore(b, d), at, tr.last);
    forall m | 0 <= m < |b.texts|
      ensures Remain(a, DropBefore(b, d), at, BeforeTrace(tr, d, x).before, BeforeTrace(tr, d, x).after, m)
    {
      RemainBefore(a, b, at, tr, d, x, m);
    }
  }

  lemma LastMoves(front: Text, text: Text, x: char, back: Text)
    requires LastOne(text) == [x]
    ensures front + text + back == front + DropLast(text) + ([x] + back)
  {
    assert text == DropLast(text) + [x];
  }

  lemma PlacedSame(a: Tool, b: Tool, b': Tool, at: seq<nat>, last: map<Name, Name>)
    requires a.Valid() && b.Valid() && b'.Valid() && b'.refs == b.refs && Placed(a, b, at, last) && AllThere(a, b, at, last)
    ensures Placed(a, b', at, last) && AllThere(a, b', at, last)
  {
    forall m | 0 <= m < |b.refs|
      ensures PlacedRef(a, b', at, last, m)
    {
      assert PlacedRef(a, b, at, last, m);
    }
  }

  function AfterTrace(tr: Trace, d: Name, x: char): Trace {
    tr.(after := tr.after[d := Moved(tr.after, d) + [x]])
  }

  lemma RemainAfter(a: Tool, b: Tool, at: seq<nat>, tr: Trace, d: Name, x: char, m: nat)
    requires Within(a, b, at) && m < |b.texts| && AllAfter(b, d, x) && Remain(a, b, at, tr.before, tr.after, m)
    ensures var tr' := AfterTrace(tr, d, x);
            Remain(a, DropAfter(b, d), at, tr'.before, tr'.after, m)
  {
    hide FirstOne, DropFirst;
    if m > 0 && b.refs[m - 1] == d {
      assert FirstOne(b.texts[(m - 1) + 1]) == [x];
      FirstMoves(Moved(tr.after, d), b.texts[m], x, Back(tr.before, b.refs, m));
    }
  }

  lemma CameAfter(a: Tool, b: Tool, at: seq<nat>, tr: Trace, d: Name, x: char)
    requires Came(a, b, at, tr) && AllAfter(b, d, x)
    ensures Came(a, DropAfter(b, d), at, AfterTrace(tr, d, x))
  {
    hide Placed, AllThere, FirstOne, DropFirst, Remain, AllAfter;
    PlacedSame(a, b, DropAfter(b, d), at, tr.last);
    forall m | 0 <= m < |b.texts|
      ensures Remain(a, DropAfter(b, d), at, AfterTrace(tr, d, x).before, AfterTrace(tr, d, x).after, m)
    {
      RemainAfter(a, b, at, tr, d, x, m);
    }
  }

  lemma FirstMoves(front: Text, text: Text, x: char, back: Text)
    requires FirstOne(text) == [x]
    ensures front + text + back == (front + [x]) + DropFirst(text) + back
  {
    assert text == [x] + DropFirst(text);
  }

  function MergeTrace(tr: Trace, d: Name, e: Name, at: seq<seq<nat>>): Trace
    requires e in tr.last
  {
    Trace(at, tr.before, tr.after[d := Moved(tr.after, e)], tr.last[d := tr.last[e]] - {e})
  }

  /** Every text that does not directly follow a d is among these. */
  ghost predicate Spares(t: Tool, at: seq<nat>, d: Name)
    requires t.Valid()
  {
    forall k :: 0 <= k <= |t.refs| && (k > 0 ==> t.refs[k - 1] != d) ==> k in at
  }

  lemma SparedAt(t: Tool, at: seq<nat>, d: Name, k: nat) returns (i: nat)
    requires t.Valid() && Spares(t, at, d) && k <= |t.refs| && (k > 0 ==> t.refs[k - 1] != d)
    ensures i < |at| && at[i] == k
  {
    assert k in at;
    i :| 0 <= i < |at| && at[i] == k;
  }

  /** The texts and references of r, in their places in t: one text and reference skipped after each d. */
  ghost predicate Thinned(t: Tool, r: Tool, at: seq<nat>, d: Name)
    requires t.Valid() && r.Valid()
  {
    |at| == |r.texts| && at[0] == 0 && at[|r.refs|] == |t.refs| &&
    (forall m :: 0 <= m < |at| ==> at[m] <= |t.refs| && r.texts[m] == t.texts[at[m]]) &&
    (forall m :: 0 <= m < |r.refs| ==> at[m] < |t.refs| && r.refs[m] == t.refs[at[m]]) &&
    (forall m :: 0 <= m < |r.refs| ==> at[m + 1] == at[m] + (if r.refs[m] == d then 2 else 1))
  }

  /** The places in t of the texts that are left after merging. */
  lemma {:induction false} MergedPlaces(t: Tool, d: Name, e: Name) returns (at: seq<nat>)
    requires t.Valid() && d != e && Followed(t, d, e)
    ensures Thinned(t, Merged(t, d), at, d)
    ensures Spares(t, at, d)
    decreases |t.refs|
  {
    hide Merged, Thinned, Spares;
    if t.refs == [] {
      MergedNothing(t, d);
      at := [0];
      ThinnedNothing(t, d);
    } else {
      RestFollowed(t, d, e);
      var rest := MergedPlaces(Rest(t), d, e);
      var r := Merged(Rest(t), d);
      MergedUnfolds(t, d);
      if t.refs[0] == d {
        assert t.refs[1] == e;
        FirstPlace(Rest(t), rest, d);
        ThinnedPair(t, r, rest, d);
        at := [0] + seq(|rest| - 1, m requires 0 <= m < |rest| - 1 => rest[m + 1] + 1);
      } else {
        ThinnedOther(t, r, rest, d);
        at := [0] + seq(|rest|, m requires 0 <= m < |rest| => rest[m] + 1);
      }
      ThinnedFirst(Rest(t), r, rest, d);
      PlacesThere(t, d, e, rest, at);
    }
  }

  lemma MergedNothing(t: Tool, d: Name)
    requires t.Valid() && t.refs == []
    ensures Merged(t, d) == t
  {
  }

  lemma MergedUnfolds(t: Tool, d: Name)
    requires t.Valid() && t.refs != []
    ensures var r := Merged(Rest(t), d);
            Merged(t, d) == if t.refs[0] == d && r.refs != [] then Tool([t.texts[0]] + r.texts[1..], [d] + r.refs[1..])
                            else Tool([t.texts[0]] + r.texts, [t.refs[0]] + r.refs)
  {
  }

  lemma FirstPlace(t: Tool, at: seq<nat>, d: Name)
    requires t.Valid() && t.refs != [] && t.refs[0] != d && Thinned(t, Merged(t, d), at, d)
    ensures Merged(t, d).refs != [] && Merged(t, d).refs[0] == t.refs[0] && |at| >= 2 && at[0] == 0 && at[1] == 1
  {
    MergedUnfolds(t, d);
  }

  lemma ThinnedFirst(t: Tool, r: Tool, at: seq<nat>, d: Name)
    requires t.Valid() && r.Valid() && Thinned(t, r, at, d)
    ensures at != [] && at[0] == 0
  {
  }

  lemma ThinnedNothing(t: Tool, d: Name)
    requires t.Valid() && t.refs == []
    ensures Thinned(t, t, [0], d) && Spares(t, [0], d)
  {
  }

  lemma ThinnedPair(t: Tool, r: Tool, rest: seq<nat>, d: Name)
    requires t.Valid() && r.Valid() && t.refs != [] && t.refs[0] == d && r.refs != []
    requires Thinned(Rest(t), r, rest, d) && rest[1] == 1
    ensures Thinned(t, Tool([t.texts[0]] + r.texts[1..], [d] + r.refs[1..]),
                    [0] + seq(|rest| - 1, m requires 0 <= m < |rest| - 1 => rest[m + 1] + 1), d)
  {
  }

  lemma ThinnedOther(t: Tool, r: Tool, rest: seq<nat>, d: Name)
    requires t.Valid() && r.Valid() && t.refs != [] && t.refs[0] != d && Thinned(Rest(t), r, rest, d)
    ensures Thinned(t, Tool([t.texts[0]] + r.texts, [t.refs[0]] + r.refs),
                    [0] + seq(|rest|, m requires 0 <= m < |rest| => rest[m] + 1), d)
  {
  }

  lemma PlacesThere(t: Tool, d: Name, e: Name, rest: seq<nat>, at: seq<nat>)
    requires t.Valid() && d != e && Followed(t, d, e) && t.refs != []
    requires rest != [] && rest[0] == 0 && (t.refs[0] == d ==> |rest| >= 2 && rest[1] == 1)
    requires Spares(Rest(t), rest, d)
    requires at == if t.refs[0] == d then [0] + seq(|rest| - 1, m requires 0 <= m < |rest| - 1 => rest[m + 1] + 1)
                   else [0] + seq(|rest|, m requires 0 <= m < |rest| => rest[m] + 1)
    ensures Spares(t, at, d)
  {
    forall k | 0 <= k <= |t.refs| && (k > 0 ==> t.refs[k - 1] != d)
      ensures k in at
    {
      if k == 0 {
        assert at[0] == 0;
      } else {
        var m := SparedAt(Rest(t), rest, d, k - 1);
        if t.refs[0] == d {
          assert at[m] == rest[m] + 1;
        } else {
          assert at[m + 1] == rest[m] + 1;
        }
      }
    }
  }

  /** Every e comes right after a d. */
  lemma {:induction false} PairedPlace(t: Tool, d: Name, e: Name, k: nat)
    requires t.Valid() && d != e && Paired(t, d, e) && k < |t.refs| && t.refs[k] == e
    ensures k > 0 && t.refs[k - 1] == d
    decreases |t.refs|
  {
    if t.refs[0] == d {
      if k > 1 { PairedPlace(Rest(Rest(t)), d, e, k - 2); }
    } else {
      PairedPlace(Rest(t), d, e, k - 1);
    }
  }

  /** The places at first of the texts left after merging. */
  function Through(at: seq<nat>, idx: seq<nat>): (r: seq<nat>)
    requires forall m :: 0 <= m < |idx| ==> idx[m] < |at|
    ensures |r| == |idx| && forall m :: 0 <= m < |r| ==> r[m] == at[idx[m]]
  {
    seq(|idx|, m requires 0 <= m < |idx| => at[idx[m]])
  }

  lemma ThinnedWithin(t: Tool, r: Tool, idx: seq<nat>, d: Name)
    requires t.Valid() && r.Valid() && Thinned(t, r, idx, d)
    ensures |idx| == |r.texts| && idx[0] == 0 && forall m :: 0 <= m < |idx| ==> idx[m] < |t.texts|
  {
  }

  /** The reference before a text that is left: the one just before, or d with e in between. */
  lemma RefBefore(b: Tool, r: Tool, idx: seq<nat>, d: Name, e: Name, m: nat)
    requires b.Valid() && r.Valid() && d != e && Followed(b, d, e) && Paired(b, d, e) && Thinned(b, r, idx, d) && m < |r.refs|
    ensures r.refs[m] != e && 0 < idx[m + 1] <= |b.refs|
    ensures r.refs[m] != d ==> b.refs[idx[m + 1] - 1] == r.refs[m]
    ensures r.refs[m] == d ==> b.refs[idx[m + 1] - 1] == e
  {
    if m > 0 {
      assert idx[m - 1 + 1] == idx[m - 1] + (if r.refs[m - 1] == d then 2 else 1);
      assert r.refs[m - 1] == d ==> b.refs[idx[m - 1] + 1] == e;
    }
    if r.refs[m] == e { PairedPlace(b, d, e, idx[m]); }
    assert idx[m + 1] == idx[m] + (if r.refs[m] == d then 2 else 1);
    if r.refs[m] == d { assert b.refs[idx[m] + 1] == e; }
  }

  /** A text that is left, and what moved on either side of it. */
  lemma RemainMerged(a: Tool, b: Tool, r: Tool, at: seq<nat>, idx: seq<nat>, tr: Trace, d: Name, e: Name, m: nat)
    requires Within(a, b, at) && r.Valid() && e in tr.last && d != e && Followed(b, d, e) && Paired(b, d, e)
    requires Thinned(b, r, idx, d) && m < |r.texts| && Within(a, r, Through(at, idx))
    requires Remain(a, b, at, tr.before, tr.after, idx[m])
    ensures var tr' := MergeTrace(tr, d, e, []);
            Remain(a, r, Through(at, idx), tr'.before, tr'.after, m)
  {
    hide Followed, Paired;
    if m > 0 { RefBefore(b, r, idx, d, e, m - 1); }
  }

  lemma PlacedRefMerged(a: Tool, b: Tool, r: Tool, at: seq<nat>, idx: seq<nat>, last: map<Name, Name>, d: Name, e: Name, m: nat)
    requires Within(a, b, at) && Placed(a, b, at, last) && r.Valid() && Thinned(b, r, idx, d)
    requires d != e && Followed(b, d, e) && Paired(b, d, e) && e in last && m < |r.refs|
    ensures PlacedRef(a, r, Through(at, idx), last[d := last[e]] - {e}, m)
  {
    hide Followed, Paired, PlacedRef;
    RefBefore(b, r, idx, d, e, m);
    PlacedParts(a, b, at, last, idx[m]);
    PlacedParts(a, b, at, last, idx[m + 1] - 1);
    PlacedOne(a, r, Through(at, idx), last[d := last[e]] - {e}, m);
  }

  lemma PlacedParts(a: Tool, b: Tool, at: seq<nat>, last: map<Name, Name>, m: nat)
    requires a.Valid() && b.Valid() && Placed(a, b, at, last) && m < |b.refs|
    ensures at[m] < |a.refs| && a.refs[at[m]] == b.refs[m]
    ensures b.refs[m] in last && 0 < at[m + 1] <= |a.refs| && a.refs[at[m + 1] - 1] == last[b.refs[m]]
  {
    assert PlacedRef(a, b, at, last, m);
  }

  lemma PlacedOne(a: Tool, b: Tool, at: seq<nat>, last: map<Name, Name>, m: nat)
    requires b.Valid() && |at| == |b.texts| && m < |b.refs| && at[m] < |a.refs| && a.refs[at[m]] == b.refs[m]
    requires b.refs[m] in last && 0 < at[m + 1] <= |a.refs| && a.refs[at[m + 1] - 1] == last[b.refs[m]]
    ensures PlacedRef(a, b, at, last, m)
  {
  }

  lemma PlacedMerged(a: Tool, b: Tool, r: Tool, at: seq<nat>, idx: seq<nat>, last: map<Name, Name>, d: Name, e: Name)
    requires Within(a, b, at) && Placed(a, b, at, last) && r.Valid() && Thinned(b, r, idx, d)
    requires d != e && Followed(b, d, e) && Paired(b, d, e) && e in last
    ensures Within(a, r, Through(at, idx)) && Placed(a, r, Through(at, idx), last[d := last[e]] - {e})
  {
    hide Followed, Paired, PlacedRef;
    var at', last' := Through(at, idx), last[d := last[e]] - {e};
    forall m | 0 <= m < |r.refs|
      ensures PlacedRef(a, r, at', last', m)
    {
      PlacedRefMerged(a, b, r, at, idx, last, d, e, m);
    }
  }

  /** No text before a use of a def other than e is skipped. */
  lemma ThereMerged(a: Tool, b: Tool, r: Tool, at: seq<nat>, idx: seq<nat>, last: map<Name, Name>, d: Name, e: Name)
    requires Within(a, b, at) && Placed(a, b, at, last) && AllThere(a, b, at, last) && r.Valid() && Thinned(b, r, idx, d)
    requires Spares(b, idx, d)
    requires d != e && Followed(b, d, e) && Paired(b, d, e) && d in last && e in last
    ensures AllThere(a, r, Through(at, idx), last[d := last[e]] - {e})
  {
    hide Followed, Paired, Thinned, Spares, Placed;
    ThinnedWithin(b, r, idx, d);
    var last', at' := last[d := last[e]] - {e}, Through(at, idx);
    forall k | 0 <= k < |a.refs| && a.refs[k] in last'
      ensures k in at'
    {
      UseThere(a, b, r, at, idx, last, d, e, k);
    }
    forall k, q | 0 <= k < |a.refs| && q in last' && a.refs[k] == last'[q]
      ensures exists m :: 0 <= m < |r.refs| && at'[m + 1] == k + 1 && r.refs[m] == q
    {
      EndThere(a, b, r, at, idx, last, d, e, k, q);
    }
  }

  lemma UseThere(a: Tool, b: Tool, r: Tool, at: seq<nat>, idx: seq<nat>, last: map<Name, Name>, d: Name, e: Name, k: nat)
    requires Within(a, b, at) && Placed(a, b, at, last) && r.Valid() && Thinned(b, r, idx, d)
    requires Spares(b, idx, d)
    requires d != e && Followed(b, d, e) && k < |a.refs| && a.refs[k] != e && k in at
    ensures k in Through(at, idx)
  {
    hide Spares, Thinned;
    ThinnedWithin(b, r, idx, d);
    var m :| 0 <= m < |at| && at[m] == k;
    if m < |b.refs| { PlacedParts(a, b, at, last, m); }
    assert m > 0 ==> b.refs[m - 1] != d;
    var i := SparedAt(b, idx, d, m);
    assert Through(at, idx)[i] == k;
  }

  lemma EndThere(a: Tool, b: Tool, r: Tool, at: seq<nat>, idx: seq<nat>, last: map<Name, Name>, d: Name, e: Name, k: nat, q: Name)
    requires Within(a, b, at) && AllThere(a, b, at, last) && r.Valid() && Thinned(b, r, idx, d)
    requires Spares(b, idx, d)
    requires d != e && Followed(b, d, e) && Paired(b, d, e) && d in last && e in last
    requires k < |a.refs| && q in last && q != e && a.refs[k] == if q == d then last[e] else last[q]
    ensures exists m :: 0 <= m < |r.refs| && Through(at, idx)[m + 1] == k + 1 && r.refs[m] == q
  {
    hide Spares, Thinned, Followed, Paired;
    ThinnedWithin(b, r, idx, d);
    var n := if q == d then e else q;
    var m :| 0 <= m < |b.refs| && at[m + 1] == k + 1 && b.refs[m] == n;
    var i := SparedAt(b, idx, d, m + 1);
    RefBefore(b, r, idx, d, e, i - 1);
    assert Through(at, idx)[(i - 1) + 1] == k + 1;
  }

  lemma CameMerged(a: Tool, b: Tool, at: seq<nat>, tr: Trace, d: Name, e: Name) returns (at': seq<nat>)
    requires Came(a, b, at, tr) && d != e && Followed(b, d, e) && Paired(b, d, e) && d in tr.last && e in tr.last
    ensures Came(a, Merged(b, d), at', MergeTrace(tr, d, e, []))
  {
    hide Followed, Paired, Merged, Remain, Placed, AllThere, Thinned, Spares;
    var idx := MergedPlaces(b, d, e);
    var r := Merged(b, d);
    ThinnedWithin(b, r, idx, d);
    PlacedMerged(a, b, r, at, idx, tr.last, d, e);
    ThereMerged(a, b, r, at, idx, tr.last, d, e);
    at' := Through(at, idx);
    forall m | 0 <= m < |r.texts|
      ensures Remain(a, r, at', MergeTrace(tr, d, e, []).before, MergeTrace(tr, d, e, []).after, m)
    {
      RemainMerged(a, b, r, at, idx, tr, d, e, m);
    }
  }

  // --- all tools --------------------------------------------------------------------------------

  lemma TracedBefore(a: seq<Tool>, b: seq<Tool>, b': seq<Tool>, tr: Trace, d: Name, x: char)
    requires Traced(a, b, tr) && |b'| == |b|
    requires forall j :: 0 <= j < |b| ==> b[j].Valid() && AllBefore(b[j], d, x) && b'[j] == DropBefore(b[j], d)
    ensures Traced(a, b', BeforeTrace(tr, d, x))
  {
    hide Came, AllBefore;
    var tr' := BeforeTrace(tr, d, x);
    forall j | 0 <= j < |a|
      ensures Came(a[j], b'[j], tr'.at[j], tr')
    {
      CameBefore(a[j], b[j], tr.at[j], tr, d, x);
    }
  }

  lemma TracedAfter(a: seq<Tool>, b: seq<Tool>, b': seq<Tool>, tr: Trace, d: Name, x: char)
    requires Traced(a, b, tr) && |b'| == |b|
    requires forall j :: 0 <= j < |b| ==> b[j].Valid() && AllAfter(b[j], d, x) && b'[j] == DropAfter(b[j], d)
    ensures Traced(a, b', AfterTrace(tr, d, x))
  {
    hide Came, AllAfter;
    var tr' := AfterTrace(tr, d, x);
    forall j | 0 <= j < |a|
      ensures Came(a[j], b'[j], tr'.at[j], tr')
    {
      CameAfter(a[j], b[j], tr.at[j], tr, d, x);
    }
  }

  lemma {:induction false} TracedMerged(a: seq<Tool>, b: seq<Tool>, b': seq<Tool>, tr: Trace, d: Name, e: Name, n: nat)
    returns (at: seq<seq<nat>>)
    requires Traced(a, b, tr) && |b'| == |b| && d != e && d in tr.last && e in tr.last && n <= |b|
    requires forall j :: 0 <= j < |b| ==> b[j].Valid() && Followed(b[j], d, e) && Paired(b[j], d, e) && b'[j] == Merged(b[j], d)
    ensures |at| == n && forall j :: 0 <= j < n ==> Came(a[j], b'[j], at[j], MergeTrace(tr, d, e, []))
  {
    hide Came, Followed, Paired, Merged;
    at := [];
    if n > 0 {
      at := TracedMerged(a, b, b', tr, d, e, n - 1);
      var one := CameMerged(a[n - 1], b[n - 1], tr.at[n - 1], tr, d, e);
      at := at + [one];
    }
  }

  /** What a trace says of one tool does not depend on the others' places. */
  lemma CameAlone(a: Tool, b: Tool, at: seq<nat>, tr: Trace, all: seq<seq<nat>>)
    requires Came(a, b, at, tr)
    ensures Came(a, b, at, tr.(at := all))
  {
  }

  lemma TracedMerge(a: seq<Tool>, b: seq<Tool>, b': seq<Tool>, tr: Trace, d: Name, e: Name) returns (at: seq<seq<nat>>)
    requires Traced(a, b, tr) && |b'| == |b| && d != e && d in tr.last && e in tr.last
    requires forall j :: 0 <= j < |b| ==> b[j].Valid() && Followed(b[j], d, e) && Paired(b[j], d, e) && b'[j] == Merged(b[j], d)
    ensures Traced(a, b', MergeTrace(tr, d, e, at))
  {
    hide Came, Followed, Paired, Merged;
    at := TracedMerged(a, b, b', tr, d, e, |b|);
    forall j | 0 <= j < |a|
      ensures Came(a[j], b'[j], at[j], MergeTrace(tr, d, e, at))
    {
      CameAlone(a[j], b'[j], at[j], MergeTrace(tr, d, e, []), at);
    }
  }
}
