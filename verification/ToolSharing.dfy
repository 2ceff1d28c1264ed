/** What grow_shared of generate_resource.py looks for: characters and references common to every use
    of a shared text. */
module ToolSharing {
  import opened ToolDefs

  function BeforeSet(tools: seq<Tool>, d: Name): set<Text>
    requires forall i :: 0 <= i < |tools| ==> tools[i].Valid()
  {
    set i, k | 0 <= i < |tools| && tools[i].Valid() && 0 <= k < |tools[i].refs| && tools[i].refs[k] == d :: LastOne(tools[i].texts[k])
  }

  function AfterSet(tools: seq<Tool>, d: Name): set<Text>
    requires forall i :: 0 <= i < |tools| ==> tools[i].Valid()
  {
    set i, k | 0 <= i < |tools| && tools[i].Valid() && 0 <= k < |tools[i].refs| && tools[i].refs[k] == d :: FirstOne(tools[i].texts[k + 1])
  }

  datatype Next = Name(name: Name) | Nothing

  /** The reference directly after use k. */
  function NextOf(t: Tool, k: nat): Next
    requires t.Valid() && k < |t.refs|
  {
    if t.texts[k + 1] == "" && k + 1 < |t.refs| then Name(t.refs[k + 1]) else Nothing
  }

  function NextSet(tools: seq<Tool>, d: Name): set<Next>
    requires forall i :: 0 <= i < |tools| ==> tools[i].Valid()
  {
    set i, k | 0 <= i < |tools| && 0 <= k < |tools[i].refs| && tools[i].refs[k] == d :: NextOf(tools[i], k)
  }

  /** Every use of d has the same character at this side, and has one. */
  ghost predicate Common(c: set<Text>) {
    |c| == 1 && c != {""}
  }

  /** Every use of d is directly followed by a use of e, and e is used nowhere else. */
  ghost predicate Mergeable(tools: seq<Tool>, d: Name, e: Name)
    requires forall i :: 0 <= i < |tools| ==> tools[i].Valid()
  {
    d != e && NextSet(tools, d) == {Next.Name(e)} && TotalUses(tools, e) == TotalUses(tools, d)
  }

  lemma OnlyMember<T>(s: set<T>, x: T)
    requires |s| == 1 && x in s
    ensures s == {x}
  {
    assert |s - {x}| == 0;
  }

  lemma BeforeSetIs(tools: seq<Tool>, d: Name, x: Text)
    requires forall i :: 0 <= i < |tools| ==> tools[i].Valid()
    requires BeforeSet(tools, d) == {x} && x != ""
    ensures |x| == 1 && forall i :: 0 <= i < |tools| ==> AllBefore(tools[i], d, x[0])
    ensures exists i, k :: 0 <= i < |tools| && 0 <= k < |tools[i].refs| && tools[i].refs[k] == d
  {
    hide LastOne;
    assert x in BeforeSet(tools, d);
    var i, k :| 0 <= i < |tools| && 0 <= k < |tools[i].refs| && tools[i].refs[k] == d && LastOne(tools[i].texts[k]) == x;
    LastLength(tools[i].texts[k]);
    forall i | 0 <= i < |tools|
      ensures AllBefore(tools[i], d, x[0])
    {
      forall k | 0 <= k < |tools[i].refs| && tools[i].refs[k] == d
        ensures LastOne(tools[i].texts[k]) == [x[0]]
      {
        assert LastOne(tools[i].texts[k]) in BeforeSet(tools, d);
      }
    }
  }

  lemma LastLength(s: Text)
    ensures |LastOne(s)| <= 1 && |FirstOne(s)| <= 1
  {
  }

  lemma AfterSetIs(tools: seq<Tool>, d: Name, x: Text)
    requires forall i :: 0 <= i < |tools| ==> tools[i].Valid()
    requires AfterSet(tools, d) == {x} && x != ""
    ensures |x| == 1 && forall i :: 0 <= i < |tools| ==> AllAfter(tools[i], d, x[0])
    ensures exists i, k :: 0 <= i < |tools| && 0 <= k < |tools[i].refs| && tools[i].refs[k] == d
  {
    hide FirstOne;
    assert x in AfterSet(tools, d);
    var i, k :| 0 <= i < |tools| && 0 <= k < |tools[i].refs| && tools[i].refs[k] == d && FirstOne(tools[i].texts[k + 1]) == x;
    LastLength(tools[i].texts[k + 1]);
    forall i | 0 <= i < |tools|
      ensures AllAfter(tools[i], d, x[0])
    {
      forall k | 0 <= k < |tools[i].refs| && tools[i].refs[k] == d
        ensures FirstOne(tools[i].texts[k + 1]) == [x[0]]
      {
        assert FirstOne(tools[i].texts[k + 1]) in AfterSet(tools, d);
      }
    }
  }

  lemma NextSetIs(tools: seq<Tool>, d: Name, e: Name)
    requires forall i :: 0 <= i < |tools| ==> tools[i].Valid()
    requires NextSet(tools, d) == {Next.Name(e)}
    ensures forall i :: 0 <= i < |tools| ==> Followed(tools[i], d, e)
    ensures exists i, k :: 0 <= i < |tools| && 0 <= k < |tools[i].refs| && tools[i].refs[k] == e
  {
    assert Next.Name(e) in NextSet(tools, d);
    var i, k :| 0 <= i < |tools| && 0 <= k < |tools[i].refs| && tools[i].refs[k] == d && NextOf(tools[i], k) == Next.Name(e);
    assert tools[i].refs[k + 1] == e;
    forall i | 0 <= i < |tools|
      ensures Followed(tools[i], d, e)
    {
      forall k | 0 <= k < |tools[i].refs| && tools[i].refs[k] == d
        ensures tools[i].texts[k + 1] == "" && k + 1 < |tools[i].refs| && tools[i].refs[k + 1] == e
      {
        assert NextOf(tools[i], k) in NextSet(tools, d);
      }
    }
  }

  /** A move takes a character from some tool and adds none to any. */
  lemma BeforeShrinks(tools: seq<Tool>, d: Name, c: char, after: seq<Tool>, i: nat, k: nat)
    requires forall i :: 0 <= i < |tools| ==> tools[i].Valid() && AllBefore(tools[i], d, c)
    requires |after| == |tools| && forall i :: 0 <= i < |tools| ==> after[i] == DropBefore(tools[i], d)
    requires i < |tools| && k < |tools[i].refs| && tools[i].refs[k] == d
    ensures TotalChars(after) < TotalChars(tools)
  {
    hide LastOne, DropLast;
    forall j | 0 <= j < |tools|
      ensures Chars(after[j].texts) <= Chars(tools[j].texts)
    {
      forall m | 0 <= m < |tools[j].texts| ensures |after[j].texts[m]| <= |tools[j].texts[m]| { DropLength(tools[j].texts[m]); }
      CharsShrink(tools[j].texts, after[j].texts);
    }
    DropLength(tools[i].texts[k]);
    assert LastOne(tools[i].texts[k]) == [c];
    NonEmpty(tools[i].texts[k], c);
    assert |after[i].texts[k]| < |tools[i].texts[k]|;
    forall m | 0 <= m < |tools[i].texts| ensures |after[i].texts[m]| <= |tools[i].texts[m]| { DropLength(tools[i].texts[m]); }
    CharsShrink(tools[i].texts, after[i].texts);
    assert Chars(after[i].texts) < Chars(tools[i].texts);
    TotalShrinks(tools, after);
  }

  lemma DropLength(s: Text)
    ensures |DropLast(s)| == (if s == "" then 0 else |s| - 1) && |DropFirst(s)| == (if s == "" then 0 else |s| - 1)
  {
  }

  lemma NonEmpty(s: Text, c: char)
    requires LastOne(s) == [c] || FirstOne(s) == [c]
    ensures s != ""
  {
  }

  lemma AfterShrinks(tools: seq<Tool>, d: Name, c: char, after: seq<Tool>, i: nat, k: nat)
    requires forall i :: 0 <= i < |tools| ==> tools[i].Valid() && AllAfter(tools[i], d, c)
    requires |after| == |tools| && forall i :: 0 <= i < |tools| ==> after[i] == DropAfter(tools[i], d)
    requires i < |tools| && k < |tools[i].refs| && tools[i].refs[k] == d
    ensures TotalChars(after) < TotalChars(tools)
  {
    hide FirstOne, DropFirst;
    forall j | 0 <= j < |tools|
      ensures Chars(after[j].texts) <= Chars(tools[j].texts)
    {
      forall m | 0 <= m < |tools[j].texts| ensures |after[j].texts[m]| <= |tools[j].texts[m]| { DropLength(tools[j].texts[m]); }
      CharsShrink(tools[j].texts, after[j].texts);
    }
    DropLength(tools[i].texts[k + 1]);
    assert FirstOne(tools[i].texts[k + 1]) == [c];
    NonEmpty(tools[i].texts[k + 1], c);
    assert |after[i].texts[k + 1]| < |tools[i].texts[k + 1]|;
    forall m | 0 <= m < |tools[i].texts| ensures |after[i].texts[m]| <= |tools[i].texts[m]| { DropLength(tools[i].texts[m]); }
    CharsShrink(tools[i].texts, after[i].texts);
    assert Chars(after[i].texts) < Chars(tools[i].texts);
    TotalShrinks(tools, after);
  }

  // --- what is left to share --------------------------------------------------------------------

  /** Nothing more can move into d's text or be merged with it. */
  ghost predicate Settled(tools: seq<Tool>, d: Name)
    requires forall i :: 0 <= i < |tools| ==> tools[i].Valid()
  {
    !Common(BeforeSet(tools, d)) && !Common(AfterSet(tools, d)) && forall e :: !Mergeable(tools, d, e)
  }

  ghost predicate SameRefs(a: seq<Tool>, b: seq<Tool>) {
    |a| == |b| && forall i :: 0 <= i < |a| ==> a[i].Valid() && b[i].Valid() && a[i].refs == b[i].refs
  }

  /** Texts that lose characters gain no common one before the uses of d. */
  lemma BeforeStill(a: seq<Tool>, b: seq<Tool>, d: Name)
    requires SameRefs(a, b) && Common(BeforeSet(b, d))
    requires forall i, k :: 0 <= i < |a| && 0 <= k < |a[i].refs| && a[i].refs[k] == d ==>
      LastOne(b[i].texts[k]) in {LastOne(a[i].texts[k]), ""}
    ensures Common(BeforeSet(a, d))
  {
    hide LastOne;
    var x :| x in BeforeSet(b, d);
    OnlyMember(BeforeSet(b, d), x);
    forall i, k | 0 <= i < |a| && 0 <= k < |a[i].refs| && a[i].refs[k] == d
      ensures LastOne(a[i].texts[k]) == x
    {
      assert LastOne(b[i].texts[k]) in BeforeSet(b, d);
    }
    assert BeforeSet(a, d) == {x};
  }

  lemma AfterStill(a: seq<Tool>, b: seq<Tool>, d: Name)
    requires SameRefs(a, b) && Common(AfterSet(b, d))
    requires forall i, k :: 0 <= i < |a| && 0 <= k < |a[i].refs| && a[i].refs[k] == d ==>
      FirstOne(b[i].texts[k + 1]) in {FirstOne(a[i].texts[k + 1]), ""}
    ensures Common(AfterSet(a, d))
  {
    hide FirstOne;
    var x :| x in AfterSet(b, d);
    OnlyMember(AfterSet(b, d), x);
    forall i, k | 0 <= i < |a| && 0 <= k < |a[i].refs| && a[i].refs[k] == d
      ensures FirstOne(a[i].texts[k + 1]) == x
    {
      assert FirstOne(b[i].texts[k + 1]) in AfterSet(b, d);
    }
    assert AfterSet(a, d) == {x};
  }

  lemma {:induction false} UsesStill(a: seq<Tool>, b: seq<Tool>, d: Name)
    requires SameRefs(a, b)
    ensures TotalUses(a, d) == TotalUses(b, d)
  {
    if a != [] { UsesStill(a[..|a| - 1], b[..|a| - 1], d); }
  }

  /** If the texts between d and e were used up, they would have been moved into d's text. */
  lemma UnmergeableBefore(a: seq<Tool>, b: seq<Tool>, c: Name, x: char, d: Name, e: Name)
    requires SameRefs(a, b) && (forall i :: 0 <= i < |a| ==> AllBefore(a[i], c, x) && b[i] == DropBefore(a[i], c))
    requires Mergeable(b, d, e)
    ensures Mergeable(a, d, e) || Common(AfterSet(a, d))
  {
    hide LastOne, FirstOne, DropLast, BeforeSet, NextOf, Common, Followed;
    UsesStill(a, b, d);
    UsesStill(a, b, e);
    NextSetIs(b, d, e);
    if c != e {
      hide AfterSet;
      forall i, k | 0 <= i < |a| && 0 <= k < |a[i].refs| && a[i].refs[k] == d
        ensures NextOf(a[i], k) == NextOf(b[i], k)
      {
        NextUnchanged(a[i], c, d, e, k);
      }
      assert NextSet(a, d) == NextSet(b, d);
    } else {
      hide NextSet;
      forall i, k | 0 <= i < |a| && 0 <= k < |a[i].refs| && a[i].refs[k] == d
        ensures FirstOne(a[i].texts[k + 1]) == [x]
      {
        LastOneLeft(a[i], c, d, x, k);
      }
      HasUse(b, d, e);
      AllCommon(a, d, x);
    }
  }

  lemma NextUnchanged(t: Tool, c: Name, d: Name, e: Name, k: nat)
    requires t.Valid() && c != e && Followed(DropBefore(t, c), d, e) && k < |t.refs| && t.refs[k] == d
    ensures NextOf(t, k) == NextOf(DropBefore(t, c), k)
  {
    assert t.refs[k + 1] == e;
  }

  lemma LastOneLeft(t: Tool, c: Name, d: Name, x: char, k: nat)
    requires t.Valid() && AllBefore(t, c, x) && Followed(DropBefore(t, c), d, c) && k < |t.refs| && t.refs[k] == d
    ensures FirstOne(t.texts[k + 1]) == [x]
  {
    assert t.refs[k + 1] == c;
    assert DropBefore(t, c).texts[k + 1] == "";
    assert LastOne(t.texts[k + 1]) == [x];
  }

  lemma HasUse(tools: seq<Tool>, d: Name, e: Name)
    requires (forall i :: 0 <= i < |tools| ==> tools[i].Valid()) && NextSet(tools, d) == {Next.Name(e)}
    ensures exists i, k :: 0 <= i < |tools| && 0 <= k < |tools[i].refs| && tools[i].refs[k] == d
  {
    assert Next.Name(e) in NextSet(tools, d);
  }

  lemma AllCommon(tools: seq<Tool>, d: Name, x: char)
    requires forall i :: 0 <= i < |tools| ==> tools[i].Valid() && AllAfter(tools[i], d, x)
    requires exists i, k :: 0 <= i < |tools| && 0 <= k < |tools[i].refs| && tools[i].refs[k] == d
    ensures Common(AfterSet(tools, d))
  {
    hide FirstOne;
    var i, k :| 0 <= i < |tools| && 0 <= k < |tools[i].refs| && tools[i].refs[k] == d;
    assert FirstOne(tools[i].texts[k + 1]) in AfterSet(tools, d);
    assert AfterSet(tools, d) == {[x]};
  }

  /** A character of the texts before c goes: the other defs stay settled. */
  lemma SettledAfterBefore(a: seq<Tool>, b: seq<Tool>, c: Name, x: char, d: Name)
    requires SameRefs(a, b) && (forall i :: 0 <= i < |a| ==> AllBefore(a[i], c, x) && b[i] == DropBefore(a[i], c))
    requires c != d && Settled(a, d)
    ensures Settled(b, d)
  {
    hide BeforeSet, AfterSet, Mergeable, Common;
    if Common(BeforeSet(b, d)) { BeforeStill(a, b, d); }
    if Common(AfterSet(b, d)) { AfterStill(a, b, d); }
    forall e
      ensures !Mergeable(b, d, e)
    {
      if Mergeable(b, d, e) { UnmergeableBefore(a, b, c, x, d, e); }
    }
  }

  /** A character of the texts after c goes: the other defs stay settled. */
  lemma SettledAfterAfter(a: seq<Tool>, b: seq<Tool>, c: Name, d: Name)
    requires SameRefs(a, b) && (forall i :: 0 <= i < |a| ==> b[i] == DropAfter(a[i], c))
    requires c != d && Settled(a, d)
    ensures Settled(b, d)
  {
    hide BeforeSet, AfterSet, Common;
    StillBeforeAfter(a, b, c, d);
    if Common(AfterSet(b, d)) { AfterStill(a, b, d); }
    forall e
      ensures Mergeable(a, d, e) == Mergeable(b, d, e)
    {
      UsesStill(a, b, d);
      UsesStill(a, b, e);
      assert NextSet(a, d) == NextSet(b, d);
    }
  }

  lemma StillBeforeAfter(a: seq<Tool>, b: seq<Tool>, c: Name, d: Name)
    requires SameRefs(a, b) && (forall i :: 0 <= i < |a| ==> b[i] == DropAfter(a[i], c))
    requires !Common(BeforeSet(a, d))
    ensures !Common(BeforeSet(b, d))
  {
    hide BeforeSet, Common;
    if Common(BeforeSet(b, d)) { BeforeStill(a, b, d); }
  }
}
