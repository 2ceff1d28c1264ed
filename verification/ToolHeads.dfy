/** Whether the text of a tool still starts with its head, {"name":"<name>", once grow_shared is done. */
module ToolHeads {
  import opened ToolDefs
  import opened ToolSharing
  import opened ToolTracing

  predicate EndsWith(s: Text, t: Text) {
    |t| <= |s| && s[|s| - |t|..] == t
  }

  ghost predicate AllTools(tools: seq<Tool>) {
    forall j :: 0 <= j < |tools| ==> tools[j].Valid()
  }

  ghost predicate UseAt(tools: seq<Tool>, d: Name, j: int, k: int) {
    0 <= j < |tools| && 0 <= k < |tools[j].refs| && tools[j].refs[k] == d
  }

  /** The last character of the head and what follows it in the tool's first text. */
  function FromHeadsEnd(t: Tool, head: Text): Text
    requires t.Valid() && head != "" && head <= t.texts[0]
  {
    t.texts[0][|head| - 1..]
  }

  /** The first text has no reference after it, or the def there has a use with other text before it
      than the head's end and what follows. */
  ghost predicate HeadSafe(tools: seq<Tool>, i: nat, head: Text)
    requires AllTools(tools) && i < |tools| && head != "" && head <= tools[i].texts[0]
  {
    tools[i].refs == [] ||
    exists j, k :: UseAt(tools, tools[i].refs[0], j, k) && !EndsWith(tools[j].texts[k], FromHeadsEnd(tools[i], head))
  }

  // --- what moved -----------------------------------------------------------------------------------

  /** What moved from before the uses of d stood before every one of them. */
  lemma MovedBefore(a: seq<Tool>, b: seq<Tool>, tr: Trace, d: Name, j: nat, k: nat)
    requires Traced(a, b, tr) && AllTools(a) && d in tr.last && UseAt(a, d, j, k)
    ensures EndsWith(a[j].texts[k], Moved(tr.before, d))
  {
    var x, y, at := a[j], b[j], tr.at[j];
    assert Came(x, y, at, tr);
    assert k in at;
    var m :| 0 <= m < |at| && at[m] == k;
    PlacedParts(x, y, at, tr.last, m);
    assert Remain(x, y, at, tr.before, tr.after, m);
  }

  /** What moved from after the uses of q stood after every use of the def its text ends with. */
  lemma MovedAfter(a: seq<Tool>, b: seq<Tool>, tr: Trace, q: Name, j: nat, k: nat)
    requires Traced(a, b, tr) && AllTools(a) && q in tr.last && UseAt(a, tr.last[q], j, k)
    ensures Moved(tr.after, q) <= a[j].texts[k + 1]
  {
    var x, y, at := a[j], b[j], tr.at[j];
    assert Came(x, y, at, tr);
    var m :| 0 <= m < |y.refs| && at[m + 1] == k + 1 && y.refs[m] == q;
    assert Remain(x, y, at, tr.before, tr.after, m + 1);
  }

  /** A first text loses only what moves into the def after it. */
  lemma FirstText(a: seq<Tool>, b: seq<Tool>, tr: Trace, i: nat)
    requires Traced(a, b, tr) && AllTools(a) && i < |a|
    ensures b[i].Valid() && (b[i].refs == [] <==> a[i].refs == [])
    ensures a[i].refs == [] ==> b[i].texts[0] == a[i].texts[0]
    ensures a[i].refs != [] ==> a[i].refs[0] == b[i].refs[0] && a[i].refs[0] in tr.last
    ensures a[i].refs != [] ==> a[i].texts[0] == b[i].texts[0] + Moved(tr.before, a[i].refs[0])
  {
    var x, y, at := a[i], b[i], tr.at[i];
    assert Came(x, y, at, tr);
    assert Remain(x, y, at, tr.before, tr.after, 0);
    if y.refs != [] {
      PlacedParts(x, y, at, tr.last, 0);
    }
  }

  // --- when the head survives -----------------------------------------------------------------------

  /** A head that is safe survives. */
  lemma HeadKept(a: seq<Tool>, b: seq<Tool>, tr: Trace, i: nat, head: Text)
    requires Traced(a, b, tr) && AllTools(a) && i < |a| && head != "" && head <= a[i].texts[0]
    requires HeadSafe(a, i, head)
    ensures b[i].Valid() && head <= b[i].texts[0]
  {
    FirstText(a, b, tr, i);
    if a[i].refs != [] {
      var d := a[i].refs[0];
      var j, k :| UseAt(a, d, j, k) && !EndsWith(a[j].texts[k], FromHeadsEnd(a[i], head));
      MovedBefore(a, b, tr, d, j, k);
      EndsTogether(a[i].texts[0], head, b[i].texts[0], Moved(tr.before, d), a[j].texts[k]);
    }
  }

  /** If the head is cut, all that moved ends with what stood from the head's end on. */
  lemma EndsTogether(text: Text, head: Text, left: Text, moved: Text, other: Text)
    requires head != "" && head <= text && text == left + moved && EndsWith(other, moved)
    ensures head <= left || EndsWith(other, text[|head| - 1..])
  {
    if |left| >= |head| {
      assert left == text[..|left|];
    } else {
      var s := text[|head| - 1..];
      assert s == moved[|moved| - |s|..];
      assert other[|other| - |s|..] == s;
    }
  }

  /** Nothing that moves into the defs before the other uses of d can reach the last n characters
      before those uses: some use of such a def has other text after it. */
  ghost predicate Undisturbed(tools: seq<Tool>, d: Name, n: nat)
    requires AllTools(tools)
  {
    forall j, k :: UseAt(tools, d, j, k) && k > 0 && |tools[j].texts[k]| >= n > 0 ==>
      Differs(tools, tools[j].refs[k - 1], tools[j].texts[k][..|tools[j].texts[k]| - n + 1])
  }

  /** Some use of d is followed by text that does not start with this. */
  ghost predicate Differs(tools: seq<Tool>, d: Name, start: Text)
    requires AllTools(tools)
  {
    exists j, k :: UseAt(tools, d, j, k) && !(start <= tools[j].texts[k + 1])
  }

  /** Where the text before the uses of d ends with s, s is there but for what moved into d. */
  lemma TailLeft(a: seq<Tool>, b: seq<Tool>, tr: Trace, d: Name, s: Text, j: nat, m: nat)
    requires Traced(a, b, tr) && AllTools(a) && AllTools(b) && d in tr.last && UseAt(b, d, j, m)
    requires s != "" && |Moved(tr.before, d)| < |s| && Undisturbed(a, d, |s|)
    requires forall i, k :: UseAt(a, d, i, k) ==> EndsWith(a[i].texts[k], s)
    ensures LastOne(b[j].texts[m]) == [s[|s| - |Moved(tr.before, d)| - 1]]
  {
    var x, y, at := a[j], b[j], tr.at[j];
    var w := Moved(tr.before, d);
    assert Came(x, y, at, tr);
    PlacedParts(x, y, at, tr.last, m);
    var k := at[m];
    assert UseAt(a, d, j, k);
    var text := x.texts[k];
    assert EndsWith(text, s);
    assert Remain(x, y, at, tr.before, tr.after, m);
    var front := Front(tr.after, y.refs, m);
    assert text == front + y.texts[m] + w;
    if m > 0 { FrontShort(a, b, tr, d, s, j, m); }
    LastLeft(front, y.texts[m], w, text, s);
  }

  lemma LastLeft(front: Text, left: Text, w: Text, text: Text, s: Text)
    requires text == front + left + w && EndsWith(text, s) && |w| < |s| && |front| <= |text| - |s|
    ensures LastOne(left) == [s[|s| - |w| - 1]]
  {
    var i := |text| - |w| - 1;
    assert s[|s| - |w| - 1] == text[i];
    assert text[i] == left[|left| - 1];
  }

  lemma FrontShort(a: seq<Tool>, b: seq<Tool>, tr: Trace, d: Name, s: Text, j: nat, m: nat)
    requires Traced(a, b, tr) && AllTools(a) && AllTools(b) && UseAt(b, d, j, m) && m > 0
    requires m < |tr.at[j]| && tr.at[j][m] < |a[j].texts|
    requires s != "" && Undisturbed(a, d, |s|) && EndsWith(a[j].texts[tr.at[j][m]], s)
    ensures |Front(tr.after, b[j].refs, m)| <= |a[j].texts[tr.at[j][m]]| - |s|
  {
    hide Differs, Remain, PlacedRef, AllThere;
    var x, y, at := a[j], b[j], tr.at[j];
    assert Came(x, y, at, tr);
    PlacedParts(x, y, at, tr.last, m);
    PlacedParts(x, y, at, tr.last, m - 1);
    var k, q := at[m], y.refs[m - 1];
    assert UseAt(a, d, j, k);
    MovedShort(a, b, tr, q, j, k, |x.texts[k]| - |s| + 1);
  }

  lemma MovedShort(a: seq<Tool>, b: seq<Tool>, tr: Trace, q: Name, j: nat, k: nat, n: nat)
    requires Traced(a, b, tr) && AllTools(a) && q in tr.last && k > 0 && UseAt(a, tr.last[q], j, k - 1)
    requires n <= |a[j].texts[k]| && Differs(a, tr.last[q], a[j].texts[k][..n])
    ensures |Moved(tr.after, q)| < n
  {
    hide Traced;
    var j', k' :| UseAt(a, tr.last[q], j', k') && !(a[j].texts[k][..n] <= a[j'].texts[k' + 1]);
    MovedAfter(a, b, tr, q, j', k');
    MovedAfter(a, b, tr, q, j, k - 1);
    if |Moved(tr.after, q)| >= n { PrefixLong(Moved(tr.after, q), a[j].texts[k], a[j'].texts[k' + 1], n); }
  }

  lemma PrefixLong(v: Text, text: Text, other: Text, n: nat)
    requires v <= text && v <= other && n <= |v|
    ensures text[..n] <= other
  {
    assert text[..n] == v[..n] == other[..n];
  }

  /** A head that is not safe is cut, where nothing disturbs the texts before the other uses. */
  lemma HeadCut(a: seq<Tool>, b: seq<Tool>, tr: Trace, i: nat, head: Text)
    requires Traced(a, b, tr) && AllTools(a) && AllTools(b) && i < |a| && head != "" && head <= a[i].texts[0]
    requires a[i].refs != [] && Settled(b, a[i].refs[0])
    requires !HeadSafe(a, i, head) && Undisturbed(a, a[i].refs[0], |FromHeadsEnd(a[i], head)|)
    ensures !(head <= b[i].texts[0])
  {
    hide LastOne, Mergeable;
    FirstText(a, b, tr, i);
    var d, s := a[i].refs[0], FromHeadsEnd(a[i], head);
    var w := Moved(tr.before, d);
    if head <= b[i].texts[0] {
      assert |w| < |s|;
      var x := [s[|s| - |w| - 1]];
      forall j, m | UseAt(b, d, j, m)
        ensures LastOne(b[j].texts[m]) == x
      {
        TailLeft(a, b, tr, d, s, j, m);
      }
      assert UseAt(b, d, i, 0);
      AllEnd(b, d, x, i);
    }
  }

  lemma AllEnd(tools: seq<Tool>, d: Name, x: Text, i: nat)
    requires AllTools(tools) && x != "" && UseAt(tools, d, i, 0)
    requires forall j, m :: UseAt(tools, d, j, m) ==> LastOne(tools[j].texts[m]) == x
    ensures Common(BeforeSet(tools, d))
  {
    hide LastOne;
    assert LastOne(tools[i].texts[0]) in BeforeSet(tools, d);
    forall y | y in BeforeSet(tools, d)
      ensures y == x
    {
      var j, m :| 0 <= j < |tools| && 0 <= m < |tools[j].refs| && tools[j].refs[m] == d && y == LastOne(tools[j].texts[m]);
      assert UseAt(tools, d, j, m);
    }
    assert BeforeSet(tools, d) == {x};
  }

  /** Exactly when the text still starts with the head, where nothing disturbs the other texts. */
  lemma HeadIff(a: seq<Tool>, b: seq<Tool>, tr: Trace, i: nat, head: Text)
    requires Traced(a, b, tr) && AllTools(a) && AllTools(b) && i < |a| && head != "" && head <= a[i].texts[0]
    requires a[i].refs != [] ==>
      Settled(b, a[i].refs[0]) && Undisturbed(a, a[i].refs[0], |FromHeadsEnd(a[i], head)|)
    ensures head <= b[i].texts[0] <==> HeadSafe(a, i, head)
  {
    hide HeadSafe, Undisturbed, Settled;
    HeadUnreferenced(a, i, head);
    if HeadSafe(a, i, head) {
      HeadKept(a, b, tr, i, head);
    } else {
      HeadCut(a, b, tr, i, head);
    }
  }

  lemma HeadUnreferenced(a: seq<Tool>, i: nat, head: Text)
    requires AllTools(a) && i < |a| && head != "" && head <= a[i].texts[0]
    ensures a[i].refs == [] ==> HeadSafe(a, i, head)
  {
  }

  // --- the order of the defs can decide -----------------------------------------------------------------

  /** One def, d, after the head h and after another def, p, with h between; p is used twice. */
  function Contested(): (ts: seq<Tool>)
    ensures AllTools(ts)
  {
    [Tool(["h", "a"], ["d"]), Tool(["u", "h", "b"], ["p", "d"]), Tool(["u", "hz"], ["p"])]
  }

  /** What is left when both uses of p have lost the u before them. */
  function GrownWith(first: Text, last: Text): (ts: seq<Tool>)
    ensures AllTools(ts)
  {
    [Tool([first, "a"], ["d"]), Tool(["", "", "b"], ["p", "d"]), Tool(["", last], ["p"])]
  }

  /** Grown with p first, whose text takes the h after it. */
  function GrownKept(): (ts: seq<Tool>)
    ensures AllTools(ts)
  {
    GrownWith("h", "z")
  }

  /** Grown with d first, whose text takes the h before it. */
  function GrownCut(): (ts: seq<Tool>)
    ensures AllTools(ts)
  {
    GrownWith("", "hz")
  }

  lemma NoneBefore(tools: seq<Tool>, d: Name, j: nat, k: nat)
    requires AllTools(tools) && UseAt(tools, d, j, k) && tools[j].texts[k] == ""
    ensures !Common(BeforeSet(tools, d))
  {
    assert LastOne(tools[j].texts[k]) in BeforeSet(tools, d);
    if |BeforeSet(tools, d)| == 1 { OnlyMember(BeforeSet(tools, d), ""); }
  }

  lemma NoneAfter(tools: seq<Tool>, d: Name, j: nat, k: nat, j': nat, k': nat)
    requires AllTools(tools) && UseAt(tools, d, j, k) && UseAt(tools, d, j', k')
    requires tools[j].texts[k + 1] == "" || FirstOne(tools[j].texts[k + 1]) != FirstOne(tools[j'].texts[k' + 1])
    ensures !Common(AfterSet(tools, d))
  {
    var x := FirstOne(tools[j].texts[k + 1]);
    assert x in AfterSet(tools, d) && FirstOne(tools[j'].texts[k' + 1]) in AfterSet(tools, d);
    if |AfterSet(tools, d)| == 1 { OnlyMember(AfterSet(tools, d), x); }
  }

  /** Nothing more can be shared: the text before one use of each is used up. */
  lemma ContestedSettled(first: Text, last: Text, d: Name)
    ensures Settled(GrownWith(first, last), d)
  {
    var ts := GrownWith(first, last);
    if d == "d" {
      NoneBefore(ts, d, 1, 1);
      NoneAfter(ts, d, 0, 0, 1, 1);
      assert NextOf(ts[0], 0) in NextSet(ts, d);
    } else if d == "p" {
      NoneBefore(ts, d, 1, 0);
      NoneAfter(ts, d, 1, 0, 1, 0);
      assert NextOf(ts[2], 0) in NextSet(ts, d);
    } else {
      assert BeforeSet(ts, d) == {} == AfterSet(ts, d);
      assert NextSet(ts, d) == {};
    }
  }

  lemma FirstGone(t: Tool, c: Name, x: char, r: Tool)
    requires t.Valid() && r.Valid() && t.refs == r.refs && t.refs != [] && t.refs[0] == c
    requires FirstOne(t.texts[1]) == [x] && r.texts == t.texts[1 := DropFirst(t.texts[1])]
    requires forall m :: 1 <= m < |t.refs| ==> t.refs[m] != c
    ensures AllAfter(t, c, x) && DropAfter(t, c) == r
  {
    hide FirstOne, DropFirst;
    assert DropAfter(t, c).texts == r.texts;
  }

  lemma LastGone(t: Tool, c: Name, x: char, r: Tool, k: nat)
    requires t.Valid() && r.Valid() && t.refs == r.refs && k < |t.refs| && t.texts[k] == [x] && r.texts == t.texts[k := ""]
    requires forall m :: 0 <= m < |t.refs| ==> (t.refs[m] == c <==> m == k)
    ensures AllBefore(t, c, x) && DropBefore(t, c) == r
  {
    assert DropBefore(t, c).texts == r.texts;
  }

  lemma NotThere(t: Tool, c: Name, x: char)
    requires t.Valid() && c !in t.refs
    ensures AllBefore(t, c, x) && AllAfter(t, c, x) && DropBefore(t, c) == t == DropAfter(t, c)
  {
    assert forall k :: 0 <= k < |t.refs| ==> t.refs[k] in t.refs;
    assert DropBefore(t, c).texts == t.texts == DropAfter(t, c).texts;
  }

  lemma KeptTrace(start: Trace)
    requires Traced(Contested(), Contested(), start)
    ensures Traced(Contested(), GrownKept(), AfterTrace(BeforeTrace(start, "p", 'u'), "p", 'h'))
  {
    hide Came, AllBefore, AllAfter, DropBefore, DropAfter;
    var ts, grown := Contested(), GrownKept();
    var mid := [ts[0], Tool(["", "h", "b"], ["p", "d"]), Tool(["", "hz"], ["p"])];
    NotThere(ts[0], "p", 'u');
    NotThere(ts[0], "p", 'h');
    LastGone(ts[1], "p", 'u', mid[1], 0);
    LastGone(ts[2], "p", 'u', mid[2], 0);
    assert DropFirst("h") == "" && DropFirst("hz") == "z";
    FirstGone(mid[1], "p", 'h', grown[1]);
    FirstGone(mid[2], "p", 'h', grown[2]);
    TracedBefore(ts, ts, mid, start, "p", 'u');
    TracedAfter(ts, mid, grown, BeforeTrace(start, "p", 'u'), "p", 'h');
  }

  lemma CutTrace(start: Trace)
    requires Traced(Contested(), Contested(), start)
    ensures Traced(Contested(), GrownCut(), BeforeTrace(BeforeTrace(start, "d", 'h'), "p", 'u'))
  {
    hide Came, AllBefore, AllAfter, DropBefore, DropAfter;
    var ts, grown := Contested(), GrownCut();
    var mid := [grown[0], Tool(["u", "", "b"], ["p", "d"]), ts[2]];
    LastGone(ts[0], "d", 'h', mid[0], 0);
    LastGone(ts[1], "d", 'h', mid[1], 1);
    NotThere(ts[2], "d", 'h');
    NotThere(mid[0], "p", 'u');
    LastGone(mid[1], "p", 'u', grown[1], 0);
    LastGone(mid[2], "p", 'u', grown[2], 0);
    TracedBefore(ts, ts, mid, start, "d", 'h');
    TracedBefore(ts, mid, grown, BeforeTrace(start, "d", 'h'), "p", 'u');
  }

  /** No condition on the pieces alone decides: both of these come of the same pieces, and in both
      nothing more can be shared. */
  lemma OrderDecides() returns (kept: Trace, cut: Trace)
    ensures Traced(Contested(), GrownKept(), kept) && Traced(Contested(), GrownCut(), cut)
    ensures forall d :: Settled(GrownKept(), d) && Settled(GrownCut(), d)
    ensures "h" <= GrownKept()[0].texts[0] && !("h" <= GrownCut()[0].texts[0])
  {
    hide Traced, Settled, Untouched;
    var defs: map<Name, Text> := map["d" := "", "p" := ""];
    UntouchedTraced(Contested(), defs);
    var start := Untouched(Contested(), defs.Keys);
    KeptTrace(start);
    CutTrace(start);
    kept := AfterTrace(BeforeTrace(start, "p", 'u'), "p", 'h');
    cut := BeforeTrace(BeforeTrace(start, "d", 'h'), "p", 'u');
    forall d
      ensures Settled(GrownKept(), d) && Settled(GrownCut(), d)
    {
      ContestedSettled("h", "z", d);
      ContestedSettled("", "hz", d);
    }
  }
}
