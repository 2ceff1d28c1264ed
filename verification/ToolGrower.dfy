/** grow_shared of generate_resource.py, which edits the split definitions and the shared texts in
    place until nothing more can be shared. */
module ToolGrowing {
  import opened ToolDefs
  import opened ToolSharing
  import opened ToolTracing

  class Grower {
    var tools: seq<Tool>             // the pieces of each tool
    var names: seq<Name>             // the shared defs, in order
    var shared: map<Name, Text>

    ghost const first: seq<Tool>     // the pieces at first
    ghost var trace: Trace

    ghost predicate Valid()
      reads this
    {
      AllValid(tools, shared) && (forall n :: n in names <==> n in shared) &&
      trace.last.Keys == shared.Keys && Traced(first, tools, trace)
    }

    /** The expansions are those of these tools. */
    ghost predicate Expands(ts: seq<Tool>, sh: map<Name, Text>)
      reads this
    {
      Valid() && AllValid(ts, sh) && SameExpansions(ts, sh, tools, shared)
    }

    constructor (tools: seq<Tool>, names: seq<Name>, shared: map<Name, Text>)
      requires AllValid(tools, shared) && forall n :: n in names <==> n in shared
      ensures Expands(tools, shared) && this.tools == tools && this.shared == shared && first == tools
    {
      hide Traced;
      UntouchedTraced(tools, shared);
      this.tools, this.names, this.shared := tools, names, shared;
      first, trace := tools, Untouched(tools, shared.Keys);
    }

    /** Drops the last character before each use of d. */
    method DropLasts(d: Name)
      requires forall i :: 0 <= i < |tools| ==> tools[i].Valid()
      modifies this`tools
      ensures |tools| == |old(tools)| && forall i :: 0 <= i < |tools| ==> tools[i] == DropBefore(old(tools)[i], d)
    {
      hide DropLast;
      for i := 0 to |tools|
        invariant |tools| == |old(tools)| && forall j :: 0 <= j < i ==> tools[j] == DropBefore(old(tools)[j], d)
        invariant forall j :: i <= j < |tools| ==> tools[j] == old(tools)[j]
      {
        ghost var t := tools[i];
        for k := 0 to |tools[i].refs|
          invariant |tools| == |old(tools)| && tools[i].refs == t.refs && |tools[i].texts| == |t.texts|
          invariant forall j :: 0 <= j < k ==> tools[i].texts[j] == DropBefore(t, d).texts[j]
          invariant forall j :: k <= j < |t.texts| ==> tools[i].texts[j] == t.texts[j]
          invariant forall j :: 0 <= j < i ==> tools[j] == DropBefore(old(tools)[j], d)
          invariant forall j :: i < j < |tools| ==> tools[j] == old(tools)[j]
        {
          if tools[i].refs[k] == d {
            var ps := tools[i];
            tools := tools[i := ps.(texts := ps.texts[k := DropLast(ps.texts[k])])];
          }
        }
        assert tools[i].texts == DropBefore(t, d).texts;
      }
    }

    /** Drops the first character after each use of d. */
    method DropFirsts(d: Name)
      requires forall i :: 0 <= i < |tools| ==> tools[i].Valid()
      modifies this`tools
      ensures |tools| == |old(tools)| && forall i :: 0 <= i < |tools| ==> tools[i] == DropAfter(old(tools)[i], d)
    {
      hide DropFirst;
      for i := 0 to |tools|
        invariant |tools| == |old(tools)| && forall j :: 0 <= j < i ==> tools[j] == DropAfter(old(tools)[j], d)
        invariant forall j :: i <= j < |tools| ==> tools[j] == old(tools)[j]
      {
        ghost var t := tools[i];
        for k := 0 to |tools[i].refs|
          invariant |tools| == |old(tools)| && tools[i].refs == t.refs && |tools[i].texts| == |t.texts|
          invariant forall j :: 0 <= j <= k ==> tools[i].texts[j] == DropAfter(t, d).texts[j]
          invariant forall j :: k < j < |t.texts| ==> tools[i].texts[j] == t.texts[j]
          invariant forall j :: 0 <= j < i ==> tools[j] == DropAfter(old(tools)[j], d)
          invariant forall j :: i < j < |tools| ==> tools[j] == old(tools)[j]
        {
          if tools[i].refs[k] == d {
            var ps := tools[i];
            tools := tools[i := ps.(texts := ps.texts[k + 1 := DropFirst(ps.texts[k + 1])])];
          }
        }
        assert tools[i].texts == DropAfter(t, d).texts;
      }
    }

    /** One character moves. */
    method ShiftBefore(d: Name, x: Text)
      requires Valid() && d in shared && BeforeSet(tools, d) == {x} && x != ""
      modifies this`tools, this`shared, this`trace
      ensures Expands(old(tools), old(shared)) && shared == old(shared)[d := x + old(shared)[d]]
      ensures forall n :: n != d && Settled(old(tools), n) ==> Settled(tools, n)
      ensures TotalChars(tools) < TotalChars(old(tools))
    {
      hide Traced, BeforeSet, Expand, TotalChars, Settled, Common, DropBefore, DropLast, AllBefore;
      BeforeSetIs(tools, d, x);
      ghost var i, k :| 0 <= i < |tools| && 0 <= k < |tools[i].refs| && tools[i].refs[k] == d;
      ghost var t0, s0 := tools, shared;
      var ch := x[0];
      assert x == [ch];
      shared := shared[d := [ch] + shared[d]];
      DropLasts(d);
      BeforeShrinks(t0, d, ch, tools, i, k);
      AllBeforeKeep(t0, s0, d, ch, tools, shared);
      TracedBefore(first, t0, tools, trace, d, ch);
      trace := BeforeTrace(trace, d, ch);
      forall n | n != d && Settled(t0, n)
        ensures Settled(tools, n)
      {
        SettledAfterBefore(t0, tools, d, ch, n);
      }
    }

    /** The characters every use of d has just before it move into d's text. */
    method MoveBefore(d: Name)
      requires Valid() && d in shared
      modifies this`tools, this`shared, this`trace
      ensures Expands(old(tools), old(shared)) && !Common(BeforeSet(tools, d))
      ensures forall n :: n != d && Settled(old(tools), n) ==> Settled(tools, n)
      ensures d in shared && shared == old(shared)[d := shared[d]]
      ensures |shared[d]| >= |old(shared)[d]| && shared[d][|shared[d]| - |old(shared)[d]|..] == old(shared)[d]
    {
      hide Traced, BeforeSet, Expand, Settled, SameExpansions;
      AlreadySame(tools, shared);
      while true
        invariant Expands(old(tools), old(shared)) && d in shared && shared == old(shared)[d := shared[d]]
        invariant |shared[d]| >= |old(shared)[d]| && shared[d][|shared[d]| - |old(shared)[d]|..] == old(shared)[d]
        invariant forall n :: n != d && Settled(old(tools), n) ==> Settled(tools, n)
        decreases TotalChars(tools)
      {
        var c := BeforeSet(tools, d);
        if |c| != 1 || c == {""} {
          return;
        }
        var x :| x in c;
        OnlyMember(c, x);
        ghost var t1, s1 := tools, shared;
        ShiftBefore(d, x);
        SameThrough(old(tools), old(shared), t1, s1, tools, shared);
      }
    }

    static lemma AllBeforeKeep(t0: seq<Tool>, s0: map<Name, Text>, d: Name, c: char, t1: seq<Tool>, s1: map<Name, Text>)
      requires AllValid(t0, s0) && d in s0 && s1 == s0[d := [c] + s0[d]]
      requires |t1| == |t0| && forall i :: 0 <= i < |t0| ==> t1[i] == DropBefore(t0[i], d) && AllBefore(t0[i], d, c)
      ensures AllValid(t1, s1) && SameExpansions(t0, s0, t1, s1)
    {
      hide DropBefore, AllBefore, Expand;
      forall i | 0 <= i < |t0|
        ensures t1[i].Covered(s1) && Expand(t1[i], s1) == Expand(t0[i], s0)
      {
        BeforeKeeps(t0[i], d, c, s0);
      }
    }

    static lemma AllAfterKeep(t0: seq<Tool>, s0: map<Name, Text>, d: Name, c: char, t1: seq<Tool>, s1: map<Name, Text>)
      requires AllValid(t0, s0) && d in s0 && s1 == s0[d := s0[d] + [c]]
      requires |t1| == |t0| && forall i :: 0 <= i < |t0| ==> t1[i] == DropAfter(t0[i], d) && AllAfter(t0[i], d, c)
      ensures AllValid(t1, s1) && SameExpansions(t0, s0, t1, s1)
    {
      hide DropAfter, AllAfter, Expand;
      forall i | 0 <= i < |t0|
        ensures t1[i].Covered(s1) && Expand(t1[i], s1) == Expand(t0[i], s0)
      {
        AfterKeeps(t0[i], d, c, s0, false);
        assert "" + Expand(t1[i], s1) == Expand(t1[i], s1);
      }
    }

    /** One character moves. */
    method ShiftAfter(d: Name, x: Text)
      requires Valid() && d in shared && AfterSet(tools, d) == {x} && x != ""
      modifies this`tools, this`shared, this`trace
      ensures Expands(old(tools), old(shared)) && shared == old(shared)[d := old(shared)[d] + x]
      ensures forall n :: n != d && Settled(old(tools), n) ==> Settled(tools, n)
      ensures !Common(BeforeSet(old(tools), d)) ==> !Common(BeforeSet(tools, d))
      ensures TotalChars(tools) < TotalChars(old(tools))
    {
      hide Traced, BeforeSet, AfterSet, Expand, TotalChars, Settled, Common, DropAfter, DropFirst, AllAfter;
      AfterSetIs(tools, d, x);
      ghost var i, k :| 0 <= i < |tools| && 0 <= k < |tools[i].refs| && tools[i].refs[k] == d;
      ghost var t0, s0 := tools, shared;
      var ch := x[0];
      assert x == [ch];
      shared := shared[d := shared[d] + [ch]];
      DropFirsts(d);
      AfterShrinks(t0, d, ch, tools, i, k);
      AllAfterKeep(t0, s0, d, ch, tools, shared);
      TracedAfter(first, t0, tools, trace, d, ch);
      trace := AfterTrace(trace, d, ch);
      forall n | n != d && Settled(t0, n)
        ensures Settled(tools, n)
      {
        SettledAfterAfter(t0, tools, d, n);
      }
      if !Common(BeforeSet(t0, d)) { StillBeforeAfter(t0, tools, d, d); }
    }

    /** The characters every use of d has just after it move into d's text. */
    method MoveAfter(d: Name)
      requires Valid() && d in shared
      modifies this`tools, this`shared, this`trace
      ensures Expands(old(tools), old(shared)) && !Common(AfterSet(tools, d))
      ensures forall n :: n != d && Settled(old(tools), n) ==> Settled(tools, n)
      ensures !Common(BeforeSet(old(tools), d)) ==> !Common(BeforeSet(tools, d))
      ensures d in shared && shared == old(shared)[d := shared[d]]
      ensures |shared[d]| >= |old(shared)[d]| && shared[d][..|old(shared)[d]|] == old(shared)[d]
    {
      hide Traced, BeforeSet, AfterSet, Expand, Settled, SameExpansions;
      AlreadySame(tools, shared);
      while true
        invariant Expands(old(tools), old(shared)) && d in shared && shared == old(shared)[d := shared[d]]
        invariant |shared[d]| >= |old(shared)[d]| && shared[d][..|old(shared)[d]|] == old(shared)[d]
        invariant forall n :: n != d && Settled(old(tools), n) ==> Settled(tools, n)
        invariant !Common(BeforeSet(old(tools), d)) ==> !Common(BeforeSet(tools, d))
        decreases TotalChars(tools)
      {
        var c := AfterSet(tools, d);
        if |c| != 1 || c == {""} {
          return;
        }
        var x :| x in c;
        OnlyMember(c, x);
        ghost var t1, s1 := tools, shared;
        ShiftAfter(d, x);
        SameThrough(old(tools), old(shared), t1, s1, tools, shared);
      }
    }

    /** Deletes what follows each use of d, last uses first. */
    method DeleteNexts(d: Name, ghost e: Name)
      requires d != e && forall i :: 0 <= i < |tools| ==> tools[i].Valid() && Followed(tools[i], d, e)
      modifies this`tools
      ensures |tools| == |old(tools)| && forall i :: 0 <= i < |tools| ==> tools[i] == Merged(old(tools)[i], d)
    {
      for i := 0 to |tools|
        invariant |tools| == |old(tools)| && forall j :: 0 <= j < i ==> tools[j] == Merged(old(tools)[j], d)
        invariant forall j :: i <= j < |tools| ==> tools[j] == old(tools)[j]
      {
        var ps := DeleteIn(tools[i], d, e);
        tools := tools[i := ps];
      }
    }

    static function Suffix(t: Tool, k: nat): (r: Tool)
      requires t.Valid() && k <= |t.refs|
      ensures r.Valid()
    {
      Tool(t.texts[k..], t.refs[k..])
    }

    /** The first k pieces of t, then r. */
    static function FirstThen(t: Tool, k: nat, r: Tool): (j: Tool)
      requires t.Valid() && k <= |t.refs| && r.Valid()
      ensures j.Valid()
    {
      Tool(t.texts[..k] + r.texts, t.refs[..k] + r.refs)
    }

    static lemma MergedFirst(t: Tool, d: Name)
      requires t.Valid() && t.refs != []
      ensures Merged(t, d).refs != [] && Merged(t, d).refs[0] == t.refs[0] && Merged(t, d).texts[0] == t.texts[0]
    {
    }

    /** Deleting after use k, the later uses done. */
    static lemma DeleteStep(t: Tool, d: Name, k: nat, r: Tool, ps: Tool)
      requires t.Valid() && k < |t.refs| && r == Merged(Suffix(t, k + 1), d) && ps == FirstThen(t, k + 1, r)
      ensures |ps.refs| > k && ps.refs[k] == t.refs[k]
      ensures t.refs[k] == d && r.refs != [] ==> |ps.texts| >= k + 2 && |ps.refs| >= k + 2
      ensures t.refs[k] == d && r.refs != [] ==>
        FirstThen(t, k, Merged(Suffix(t, k), d)) == Tool(ps.texts[..k + 1] + ps.texts[k + 2..], ps.refs[..k + 1] + ps.refs[k + 2..])
      ensures t.refs[k] != d ==> FirstThen(t, k, Merged(Suffix(t, k), d)) == ps
    {
      hide Merged;
      assert Rest(Suffix(t, k)) == Suffix(t, k + 1);
      MergedUnfolds(Suffix(t, k), d);
      assert t.refs[..k + 1] == t.refs[..k] + [t.refs[k]] && t.texts[..k + 1] == t.texts[..k] + [t.texts[k]];
      if t.refs[k] == d && r.refs != [] {
        assert ps.texts[..k + 1] == t.texts[..k + 1] && ps.texts[k + 2..] == r.texts[1..];
        assert ps.refs[..k + 1] == t.refs[..k + 1] && ps.refs[k + 2..] == r.refs[1..];
        assert (t.texts[..k] + [t.texts[k]]) + r.texts[1..] == t.texts[..k] + ([t.texts[k]] + r.texts[1..]);
      }
    }

    static method DeleteIn(t: Tool, d: Name, ghost e: Name) returns (ps: Tool)
      requires t.Valid() && d != e && Followed(t, d, e)
      ensures ps == Merged(t, d)
    {
      hide Merged, FirstThen, Suffix;
      ps := t;
      var k := |t.refs|;
      FirstAll(t, d);
      while k > 0
        invariant 0 <= k <= |t.refs| && ps == FirstThen(t, k, Merged(Suffix(t, k), d))
      {
        k := k - 1;
        DeleteStep(t, d, k, Merged(Suffix(t, k + 1), d), ps);
        if ps.refs[k] == d {
          NextIsThere(t, d, e, k);
          ps := Tool(ps.texts[..k + 1] + ps.texts[k + 2..], ps.refs[..k + 1] + ps.refs[k + 2..]);
        }
      }
      FirstNone(t, d);
    }

    static lemma FirstAll(t: Tool, d: Name)
      requires t.Valid()
      ensures FirstThen(t, |t.refs|, Merged(Suffix(t, |t.refs|), d)) == t
    {
    }

    static lemma FirstNone(t: Tool, d: Name)
      requires t.Valid()
      ensures FirstThen(t, 0, Merged(Suffix(t, 0), d)) == Merged(t, d)
    {
      hide Merged;
      assert Suffix(t, 0) == t;
    }

    static lemma NextIsThere(t: Tool, d: Name, e: Name, k: nat)
      requires t.Valid() && Followed(t, d, e) && k < |t.refs| && t.refs[k] == d
      ensures Merged(Suffix(t, k + 1), d).refs != []
    {
      assert k + 1 < |t.refs|;
      MergedFirst(Suffix(t, k + 1), d);
    }

    /** The shared def that every use of d is directly followed by, and only so. */
    method FindMerge(d: Name) returns (found: bool, e: Name)
      requires Valid() && d in shared
      ensures found ==> Mergeable(tools, d, e) && e in shared
      ensures !found ==> forall x :: !Mergeable(tools, d, x)
    {
      hide Traced, NextSet, Expand, Followed, Uses;
      var nxt := NextSet(tools, d);
      e := d;
      if |nxt| != 1 || Nothing in nxt || Next.Name(d) in nxt {
        return false, e;
      }
      var x :| x in nxt;
      OnlyMember(nxt, x);
      e := x.name;
      NextSetIs(tools, d, e);
      ghost var i, k :| 0 <= i < |tools| && 0 <= k < |tools[i].refs| && tools[i].refs[k] == e;
      assert tools[i].Covered(shared);
      found := TotalUses(tools, e) == TotalUses(tools, d);
    }

    /** Merges e into d. */
    method MergeInto(d: Name, e: Name)
      requires Valid() && d in shared && e in shared && Mergeable(tools, d, e)
      modifies this
      ensures Expands(old(tools), old(shared))
      ensures shared == old(shared)[d := old(shared)[d] + old(shared)[e]] - {e}
    {
      hide Traced, NextSet, Expand, Merged, Followed;
      NextSetIs(tools, d, e);
      ghost var t0, s0 := tools, shared;
      shared := shared[d := shared[d] + shared[e]] - {e};
      var kept := RemoveName(e);
      names := kept;
      DeleteNexts(d, e);
      AllMergeKeep(t0, s0, d, e, tools, shared);
      AllPaired(t0, s0, d, e);
      ghost var at := TracedMerge(first, t0, tools, trace, d, e);
      trace := MergeTrace(trace, d, e, at);
    }

    /** The shared def that every use of d is directly followed by, and that is used nowhere else,
        is merged into d, if there is one. */
    method TryMerge(d: Name) returns (changed: bool, ghost e: Name)
      requires Valid() && d in shared
      modifies this
      ensures Expands(old(tools), old(shared))
      ensures changed ==> Mergeable(old(tools), d, e) && e in old(shared)
      ensures changed ==> shared == old(shared)[d := old(shared)[d] + old(shared)[e]] - {e}
      ensures changed ==> |shared| < |old(shared)|
      ensures !changed ==> forall x :: !Mergeable(tools, d, x)
      ensures !changed ==> tools == old(tools) && shared == old(shared) && names == old(names)
    {
      hide Traced, Mergeable, Expand;
      var x;
      changed, x := FindMerge(d);
      e := x;
      if changed {
        MergedIsOther(tools, d, e);
        MergeInto(d, x);
        assert shared.Keys == old(shared).Keys - {x};
        assert |shared| == |shared.Keys| && |old(shared)| == |old(shared).Keys|;
      }
    }

    static lemma MergedIsOther(tools: seq<Tool>, d: Name, e: Name)
      requires (forall i :: 0 <= i < |tools| ==> tools[i].Valid()) && Mergeable(tools, d, e)
      ensures d != e
    {
    }

    method RemoveName(e: Name) returns (kept: seq<Name>)
      ensures forall n :: n in kept <==> n in names && n != e
    {
      kept := [];
      for i := 0 to |names|
        invariant forall n :: n in kept <==> n in names[..i] && n != e
      {
        assert names[..i + 1] == names[..i] + [names[i]];
        if names[i] != e {
          kept := kept + [names[i]];
        }
      }
      assert names[..|names|] == names;
    }

    static lemma AllPaired(t0: seq<Tool>, s0: map<Name, Text>, d: Name, e: Name)
      requires AllValid(t0, s0) && d != e && TotalUses(t0, e) == TotalUses(t0, d)
      requires forall i :: 0 <= i < |t0| ==> Followed(t0[i], d, e)
      ensures forall i :: 0 <= i < |t0| ==> Paired(t0[i], d, e)
    {
      hide Followed, Uses, Paired;
      forall i | 0 <= i < |t0|
        ensures Uses(t0[i].refs, e) >= Uses(t0[i].refs, d)
      {
        FollowedCounts(t0[i], d, e);
      }
      forall i | 0 <= i < |t0|
        ensures Paired(t0[i], d, e)
      {
        UsesEverywhere(t0, d, e, i);
        FollowedCounts(t0[i], d, e);
      }
    }

    static lemma AllMergeKeep(t0: seq<Tool>, s0: map<Name, Text>, d: Name, e: Name, t1: seq<Tool>, s1: map<Name, Text>)
      requires AllValid(t0, s0) && d in s0 && e in s0 && d != e && s1 == s0[d := s0[d] + s0[e]] - {e}
      requires |t1| == |t0| && forall i :: 0 <= i < |t0| ==> t1[i] == Merged(t0[i], d) && Followed(t0[i], d, e)
      requires TotalUses(t0, e) == TotalUses(t0, d)
      ensures AllValid(t1, s1) && SameExpansions(t0, s0, t1, s1)
    {
      hide Merged, Followed, Expand, Uses;
      forall i | 0 <= i < |t0|
        ensures Uses(t0[i].refs, e) >= Uses(t0[i].refs, d)
      {
        FollowedCounts(t0[i], d, e);
      }
      forall i | 0 <= i < |t0|
        ensures t1[i].Covered(s1) && Expand(t1[i], s1) == Expand(t0[i], s0)
      {
        UsesEverywhere(t0, d, e, i);
        FollowedCounts(t0[i], d, e);
        MergeKeeps(t0[i], d, e, s0);
      }
    }

    /** One pass over the shared defs; stops at the first merge. If there is none, nothing more can
        be shared. */
    method Pass() returns (changed: bool)
      requires Valid()
      modifies this
      ensures Expands(old(tools), old(shared))
      ensures shared.Keys <= old(shared).Keys
      ensures changed ==> |shared| < |old(shared)|
      ensures !changed ==> |shared| == |old(shared)| && forall n :: n in shared ==> Settled(tools, n)
    {
      hide Traced, Expand, Settled, SameExpansions;
      AlreadySame(tools, shared);
      var ds := names;
      changed := false;
      for k := 0 to |ds|
        invariant Expands(old(tools), old(shared)) && !changed && names == ds == old(names)
        invariant shared.Keys == old(shared).Keys && forall j :: 0 <= j < |ds| ==> ds[j] in shared
        invariant forall j :: 0 <= j < k ==> Settled(tools, ds[j])
      {
        ghost var t1, s1 := tools, shared;
        changed := Share(ds[k]);
        SameThrough(old(tools), old(shared), t1, s1, tools, shared);
        if changed {
          assert |shared| < |old(shared).Keys|;
          return;
        }
      }
      assert |shared| == |shared.Keys| == |old(shared).Keys|;
    }

    /** The two inner loops: what every use of d has around it moves into d's text. */
    method MoveAround(d: Name)
      requires Valid() && d in shared
      modifies this`tools, this`shared, this`trace
      ensures Expands(old(tools), old(shared)) && !Common(BeforeSet(tools, d)) && !Common(AfterSet(tools, d))
      ensures d in shared && shared == old(shared)[d := shared[d]] && |shared| == |old(shared)|
      ensures forall n :: n != d && Settled(old(tools), n) ==> Settled(tools, n)
    {
      hide Traced, Expand, BeforeSet, AfterSet, Common, Settled, SameExpansions;
      ghost var t0, s0 := tools, shared;
      MoveBefore(d);
      ghost var t1, s1 := tools, shared;
      MoveAfter(d);
      SameThrough(t0, s0, t1, s1, tools, shared);
      SameSize(s0, shared, d);
    }

    static lemma SameThrough(t0: seq<Tool>, s0: map<Name, Text>, t1: seq<Tool>, s1: map<Name, Text>, t2: seq<Tool>, s2: map<Name, Text>)
      requires AllValid(t0, s0) && AllValid(t1, s1) && AllValid(t2, s2)
      requires SameExpansions(t0, s0, t1, s1) && SameExpansions(t1, s1, t2, s2)
      ensures SameExpansions(t0, s0, t2, s2)
    {
      hide Expand;
    }

    static lemma AlreadySame(ts: seq<Tool>, sh: map<Name, Text>)
      requires AllValid(ts, sh)
      ensures SameExpansions(ts, sh, ts, sh)
    {
      hide Expand;
    }

    static lemma SameSize(a: map<Name, Text>, b: map<Name, Text>, d: Name)
      requires d in a && d in b && b == a[d := b[d]]
      ensures |a| == |b|
    {
      assert |a| == |a.Keys| && |b| == |b.Keys| && a.Keys == b.Keys;
    }

    /** The body of the loop over the shared defs. */
    method Share(d: Name) returns (changed: bool)
      requires Valid() && d in shared
      modifies this
      ensures Expands(old(tools), old(shared))
      ensures shared.Keys <= old(shared).Keys
      ensures changed ==> |shared| < |old(shared)|
      ensures !changed ==> names == old(names) && shared == old(shared)[d := shared[d]] && Settled(tools, d)
      ensures !changed ==> forall n :: Settled(old(tools), n) ==> Settled(tools, n)
    {
      hide Traced, Expand, Mergeable, BeforeSet, AfterSet, Common;
      MoveAround(d);
      ghost var e;
      changed, e := TryMerge(d);
    }

    /** grow_shared: it ends, every tool expands to the text it expanded to before, and nothing more
        can be shared. */
    method Grow()
      requires Valid()
      modifies this
      ensures Expands(old(tools), old(shared))
      ensures shared.Keys <= old(shared).Keys
      ensures forall n :: n in shared ==> Settled(tools, n)
    {
      hide Traced, Expand, Settled;
      var changed := true;
      while changed
        invariant Expands(old(tools), old(shared)) && shared.Keys <= old(shared).Keys
        invariant !changed ==> forall n :: n in shared ==> Settled(tools, n)
        decreases |shared| + (if changed then 1 else 0)
      {
        changed := Pass();
      }
    }
  }
}
