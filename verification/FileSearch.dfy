/** Waiting for text in a growing file: mem_find, search_file and files_wait of files.c. */
module FileSearch {
  import opened Bits

  /** The needle stands at p. */
  predicate Occurs(c: seq<byte>, needle: seq<byte>, p: nat) {
    p + |needle| <= |c| && c[p..p + |needle|] == needle
  }

  /** It stands somewhere from `lo` on. */
  ghost predicate OccursFrom(c: seq<byte>, needle: seq<byte>, lo: nat) {
    exists p :: lo <= p && Occurs(c, needle, p)
  }

  /** Some occurrence ends past the mark. */
  ghost predicate EndsPast(c: seq<byte>, needle: seq<byte>, mark: nat) {
    exists p :: 0 <= p && Occurs(c, needle, p) && p + |needle| > mark
  }

  lemma OccursInPrefix(a: seq<byte>, b: seq<byte>, needle: seq<byte>, p: nat)
    requires a <= b && p + |needle| <= |a|
    ensures Occurs(a, needle, p) <==> Occurs(b, needle, p)
  {
    assert a[p..p + |needle|] == b[p..p + |needle|];
  }

  lemma OccursInSlice(c: seq<byte>, lo: nat, hi: nat, needle: seq<byte>, p: nat)
    requires lo <= hi <= |c| && p + |needle| <= hi - lo
    ensures Occurs(c[lo..hi], needle, p) <==> Occurs(c, needle, lo + p)
  {
    var a, b := c[lo..hi][p..p + |needle|], c[lo + p..lo + p + |needle|];
    assert forall k :: 0 <= k < |needle| ==> a[k] == b[k];
    assert a == b;
  }

  /** mem_find over the first hlen bytes of the buffer. */
  method MemFind(buf: array<byte>, hlen: nat, needle: seq<byte>) returns (found: bool)
    requires hlen <= buf.Length
    ensures found <==> OccursFrom(buf[..hlen], needle, 0)
  {
    if |needle| == 0 {
      assert Occurs(buf[..hlen], needle, 0);
      return true;
    }
    ghost var hay := buf[..hlen];
    var i := 0;
    while i + |needle| <= hlen
      invariant 0 <= i && forall p :: 0 <= p < i ==> !Occurs(hay, needle, p)
    {
      assert hay[i..i + |needle|] == buf[i..i + |needle|];
      assert buf[i..i + |needle|][0] == buf[i];
      if buf[i] == needle[0] && buf[i..i + |needle|] == needle {
        assert Occurs(hay, needle, i);
        return true;
      }
      i := i + 1;
    }
    found := false;
  }

  /** Where a search from `from` starts: early enough for a match that ends just past it. */
  function SearchStart(from: nat, n: nat): nat
    requires n > 0
  {
    if from > n - 1 then from - (n - 1) else 0
  }

  /** The occurrences a search finds are those that end past `from`. */
  lemma {:induction false} StartIsPast(c: seq<byte>, needle: seq<byte>, from: nat)
    requires needle != []
    ensures OccursFrom(c, needle, SearchStart(from, |needle|)) <==> EndsPast(c, needle, from)
  {
    var lo := SearchStart(from, |needle|);
    if OccursFrom(c, needle, lo) {
      var p :| lo <= p && Occurs(c, needle, p);
      assert p + |needle| > from;
    }
    if EndsPast(c, needle, from) {
      var p :| 0 <= p && Occurs(c, needle, p) && p + |needle| > from;
      assert lo <= p;
    }
  }

  /** The buffer keeps the last `keep` bytes read, and nothing read so far holds the needle. */
  ghost predicate Searched(c: seq<byte>, needle: seq<byte>, lo: nat, pos: nat, kept: seq<byte>) {
    lo <= pos <= |c| && |kept| == (if pos - lo < |needle| - 1 then pos - lo else |needle| - 1) &&
    kept == c[pos - |kept|..pos] && forall p :: lo <= p && p + |needle| <= pos ==> !Occurs(c, needle, p)
  }

  /** A window that overlaps what was searched by the needle's length less one finds exactly the
      new occurrences. */
  lemma WindowFinds(c: seq<byte>, needle: seq<byte>, lo: nat, pos: nat, kept: seq<byte>, n: nat)
    requires needle != [] && Searched(c, needle, lo, pos, kept) && pos + n <= |c|
    ensures OccursFrom(c[pos - |kept|..pos + n], needle, 0) <==> exists p :: lo <= p && p + |needle| <= pos + n && Occurs(c, needle, p)
  {
    var a, b := pos - |kept|, pos + n;
    var w := c[a..b];
    if OccursFrom(w, needle, 0) {
      var p :| 0 <= p && Occurs(w, needle, p);
      OccursInSlice(c, a, b, needle, p);
      assert lo <= a + p && a + p + |needle| <= b && Occurs(c, needle, a + p);
    }
    if p :| lo <= p && p + |needle| <= b && Occurs(c, needle, p) {
      assert p + |needle| > pos;
      assert p >= a;
      OccursInSlice(c, a, b, needle, p - a);
      assert Occurs(w, needle, p - a);
    }
  }

  /** A window without the needle: as much more is searched. */
  lemma SearchedMore(c: seq<byte>, needle: seq<byte>, lo: nat, pos: nat, kept: seq<byte>, n: nat, kept': seq<byte>)
    requires needle != [] && Searched(c, needle, lo, pos, kept) && pos + n <= |c| && |kept'| <= pos + n
    requires !OccursFrom(c[pos - |kept|..pos + n], needle, 0)
    requires |kept'| == (if |needle| - 1 < |kept| + n then |needle| - 1 else |kept| + n)
    requires kept' == c[pos + n - |kept'|..pos + n]
    ensures Searched(c, needle, lo, pos + n, kept')
  {
    hide Occurs;
    WindowFinds(c, needle, lo, pos, kept, n);
  }

  lemma KeptSize(c: seq<byte>, needle: seq<byte>, lo: nat, pos: nat, kept: seq<byte>)
    requires needle != [] && Searched(c, needle, lo, pos, kept)
    ensures |kept| <= pos && kept == c[pos - |kept|..pos]
  {
  }

  /** One read and the search of its window; the end of the window moves to the front. */
  method SearchWindow(buf: array<byte>, c: seq<byte>, needle: seq<byte>, ghost lo: nat, pos: nat, keep: nat, n: nat)
    returns (found: bool, keep': nat)
    requires needle != [] && keep + n <= buf.Length && pos + n <= |c| && Searched(c, needle, lo, pos, buf[..keep])
    modifies buf
    ensures found ==> OccursFrom(c, needle, lo)
    ensures !found ==> keep' <= buf.Length && Searched(c, needle, lo, pos + n, buf[..keep'])
  {
    hide Searched, Occurs, OccursFrom;
    ghost var kept := buf[..keep];
    KeptSize(c, needle, lo, pos, kept);
    ReadInto(buf, c, pos, keep, n);
    var total := keep + n;
    ghost var window := c[pos - keep..pos + n];
    assert c[pos - keep..pos] + c[pos..pos + n] == window;
    found := MemFind(buf, total, needle);
    keep' := if |needle| - 1 < total then |needle| - 1 else total;
    if found {
      FoundFrom(c, needle, lo, pos, kept, n);
      return;
    }
    Slide(buf, total, keep');
    assert window[total - keep'..] == c[pos + n - keep'..pos + n];
    SearchedMore(c, needle, lo, pos, kept, n, buf[..keep']);
  }

  lemma FoundFrom(c: seq<byte>, needle: seq<byte>, lo: nat, pos: nat, kept: seq<byte>, n: nat)
    requires needle != [] && Searched(c, needle, lo, pos, kept) && pos + n <= |c|
    requires OccursFrom(c[pos - |kept|..pos + n], needle, 0)
    ensures OccursFrom(c, needle, lo)
  {
    hide Occurs;
    WindowFinds(c, needle, lo, pos, kept, n);
  }

  /** The memmove that keeps the end of the window. */
  method Slide(buf: array<byte>, total: nat, keep: nat)
    requires keep <= total <= buf.Length
    modifies buf
    ensures buf[..keep] == old(buf[..total])[total - keep..]
  {
    forall k | 0 <= k < keep { buf[k] := buf[total - keep + k]; }
  }

  method ReadInto(buf: array<byte>, c: seq<byte>, pos: nat, keep: nat, n: nat)
    requires keep + n <= buf.Length && pos + n <= |c|
    modifies buf
    ensures buf[..keep + n] == old(buf[..keep]) + c[pos..pos + n]
  {
    forall k | 0 <= k < n { buf[keep + k] := c[pos + k]; }
  }

  /** search_file over the content it reads, in pieces of any size; the buffer is at least as long
      as the needle. It finds exactly the occurrences that end past `from`. */
  method SearchFile(c: seq<byte>, from: nat, needle: seq<byte>, buf: array<byte>) returns (found: bool)
    requires needle != [] && buf.Length >= |needle|
    modifies buf
    ensures found <==> EndsPast(c, needle, from)
  {
    StartIsPast(c, needle, from);
    var off := SearchStart(from, |needle|);
    if off > |c| {
      // reading past the end: nothing there
      assert !OccursFrom(c, needle, off);
      return false;
    }
    var pos, keep: nat := off, 0;
    assert buf[..0] == c[pos..pos];
    while pos < |c|
      invariant off <= pos <= |c| && keep <= buf.Length && Searched(c, needle, off, pos, buf[..keep])
    {
      var n: nat :| 1 <= n <= |c| - pos && keep + n <= buf.Length;
      found, keep := SearchWindow(buf, c, needle, off, pos, keep, n);
      if found {
        return;
      }
      pos := pos + n;
    }
    found := false;
  }

  // --- files_wait -----------------------------------------------------------------------------------

  /** What one poll meets: whether the file is there, its content when it is measured, whether it
      can be opened then, and its content when it is read. */
  datatype Poll = Poll(present: bool, measured: seq<byte>, opens: bool, read: seq<byte>)

  function ContentAt(q: Poll): seq<byte> {
    if q.present then q.measured else []
  }

  /** A file that only grows: from poll to poll, and between measuring and reading. */
  ghost predicate Growing(start: seq<byte>, polls: seq<Poll>) {
    (forall i :: 0 <= i < |polls| ==> start <= ContentAt(polls[i])) &&
    (forall i, j :: 0 <= i < j < |polls| ==> ContentAt(polls[i]) <= ContentAt(polls[j])) &&
    (forall i :: 0 <= i < |polls| && polls[i].present ==> polls[i].opens && polls[i].measured <= polls[i].read)
  }

  datatype Wait = Wait(met: bool, present: bool, size: nat)

  /** The first n polls have no occurrence past the mark. */
  ghost predicate NotYet(polls: seq<Poll>, needle: seq<byte>, mark: nat, n: nat)
    requires n <= |polls|
  {
    forall i :: 0 <= i < n ==> !EndsPast(ContentAt(polls[i]), needle, mark)
  }

  /** How much was searched before poll i. */
  function SearchedBefore(polls: seq<Poll>, i: nat, mark: nat): nat
    requires i <= |polls|
  {
    if i == 0 then mark
    else if polls[i - 1].present then |polls[i - 1].measured|
    else SearchedBefore(polls, i - 1, mark)
  }

  /** A poll finds the needle in what is new, or anywhere if the file has shrunk. */
  ghost predicate PollMeets(q: Poll, needle: seq<byte>, searched: nat) {
    var from := if |q.measured| < searched then 0 else searched;
    q.present && |q.measured| > from && q.opens && EndsPast(q.read, needle, from)
  }

  /** A file that cannot be opened at the poll that first measures the text is not searched again. */
  lemma UnopenedMissed(needle: seq<byte>)
    requires needle != []
    ensures var polls := [Poll(true, needle, false, []), Poll(true, needle, true, needle)];
            EndsPast(polls[1].read, needle, 0) &&
            forall i :: 0 <= i < 2 ==> !PollMeets(polls[i], needle, SearchedBefore(polls, i, 0))
  {
    assert needle[0..|needle|] == needle;
    assert Occurs(needle, needle, 0);
  }

  /** One poll of the loop, for a needle that is not empty. */
  method PollOnce(q: Poll, needle: seq<byte>, scanned0: nat, buf: array<byte>) returns (met: bool, scanned: nat)
    requires needle != [] && buf.Length >= |needle|
    modifies buf
    ensures met == PollMeets(q, needle, scanned0) && scanned == if q.present then |q.measured| else scanned0
  {
    met, scanned := false, scanned0;
    if !q.present {
      return;
    }
    if |q.measured| < scanned {
      scanned := 0; // rewritten: search it all again
    }
    if |q.measured| > scanned && q.opens {
      met := SearchFile(q.read, scanned, needle, buf);
    }
    scanned := |q.measured|;
  }

  /** A poll of a growing file misses nothing that ends past the mark. */
  lemma PollMisses(before: seq<byte>, q: Poll, needle: seq<byte>, mark: nat, scanned: nat)
    requires needle != [] && q.present && q.opens && q.measured <= q.read && before <= q.measured
    requires |before| <= scanned && (mark < scanned ==> scanned == |before|) && mark <= scanned <= |q.measured|
    requires !EndsPast(before, needle, mark)
    requires !(|q.measured| > scanned && EndsPast(q.read, needle, scanned))
    ensures !EndsPast(q.measured, needle, mark)
  {
    if EndsPast(q.measured, needle, mark) {
      var p :| 0 <= p && Occurs(q.measured, needle, p) && p + |needle| > mark;
      if p + |needle| > scanned {
        OccursInPrefix(q.measured, q.read, needle, p);
        assert EndsPast(q.read, needle, scanned);
      } else {
        OccursInPrefix(before, q.measured, needle, p);
        assert EndsPast(before, needle, mark);
      }
    }
  }

  lemma PastLater(c: seq<byte>, needle: seq<byte>, mark: nat, scanned: nat)
    requires mark <= scanned && EndsPast(c, needle, scanned)
    ensures EndsPast(c, needle, mark)
  {
  }

  lemma NothingEnds(needle: seq<byte>, mark: nat)
    ensures needle != [] ==> !EndsPast([], needle, mark)
  {
  }

  /** What a poll of a growing file does to the loop's invariant. */
  lemma OnePoll(start: seq<byte>, polls: seq<Poll>, at: nat, needle: seq<byte>, mark: nat, scanned: nat, before: seq<byte>, met: bool)
    requires needle != [] && Growing(start, polls) && at < |polls| && mark <= |start| && mark <= scanned
    requires before == if at == 0 then [] else ContentAt(polls[at - 1])
    requires |before| <= scanned && (mark < scanned ==> scanned == |before|) && !EndsPast(before, needle, mark)
    requires var q := polls[at]; met == (q.present && |q.measured| > scanned && q.opens && EndsPast(q.read, needle, scanned))
    ensures before <= ContentAt(polls[at]) && (polls[at].present ==> scanned <= |polls[at].measured|)
    ensures met ==> EndsPast(polls[at].read, needle, mark)
    ensures !met ==> !EndsPast(ContentAt(polls[at]), needle, mark)
  {
    var q := polls[at];
    assert start <= ContentAt(q);
    if at > 0 { assert ContentAt(polls[at - 1]) <= ContentAt(q); }
    if q.present {
      if met {
        PastLater(q.read, needle, mark, scanned);
      } else {
        PollMisses(before, q, needle, mark, scanned);
      }
    } else {
      NothingEnds(needle, mark);
    }
  }

  /** files_wait over the polls its timeout allows. `start` is the content when the wait begins; with
      newOnly only text that ends past it counts. The result is met at poll `at`, or not at all. */
  method FilesWait(start: seq<byte>, startExists: bool, polls: seq<Poll>, needle: seq<byte>, newOnly: bool, buf: array<byte>)
    returns (res: Wait, at: nat)
    requires buf.Length >= |needle| && (!startExists ==> start == [])
    modifies buf
    ensures at <= |polls| && res.met == (at < |polls|)
    ensures needle == [] ==> (forall i :: 0 <= i < at ==> !polls[i].present) && (at < |polls| ==> polls[at].present)
    ensures needle != [] ==> forall i :: 0 <= i < at ==>
      !PollMeets(polls[i], needle, SearchedBefore(polls, i, if newOnly then |start| else 0))
    ensures needle != [] && at < |polls| ==>
      PollMeets(polls[at], needle, SearchedBefore(polls, at, if newOnly then |start| else 0))
    ensures needle != [] && Growing(start, polls) ==>
      NotYet(polls, needle, if newOnly then |start| else 0, at)
    ensures needle != [] && Growing(start, polls) && at < |polls| ==>
      polls[at].present && EndsPast(polls[at].read, needle, if newOnly then |start| else 0)
  {
    hide PollMeets, EndsPast, Growing, NotYet;
    var mark := if newOnly && startExists then |start| else 0;
    var scanned := mark;
    res := Wait(false, false, 0);
    at := 0;
    while at < |polls|
      invariant at <= |polls| && !res.met && scanned >= 0
      invariant needle == [] ==> forall i :: 0 <= i < at ==> !polls[i].present
      invariant needle != [] ==> scanned == SearchedBefore(polls, at, mark)
      invariant needle != [] ==> forall i :: 0 <= i < at ==> !PollMeets(polls[i], needle, SearchedBefore(polls, i, mark))
    {
      var q := polls[at];
      if q.present {
        res := res.(present := true, size := |q.measured|);
      } else {
        res := res.(present := false);
      }
      var met := q.present;
      if needle != [] {
        met, scanned := PollOnce(q, needle, scanned, buf);
      }
      if met {
        res := res.(met := true);
        if needle != [] && Growing(start, polls) { GrowingMet(start, polls, needle, mark, at); }
        return;
      }
      at := at + 1;
    }
    if needle != [] && Growing(start, polls) { GrowingSoFar(start, polls, needle, mark, at); }
  }

  /** All that was measured before poll n was searched, and nothing in it ends past the mark. */
  ghost predicate SoFar(polls: seq<Poll>, needle: seq<byte>, mark: nat, n: nat)
    requires n <= |polls|
  {
    var scanned, before := SearchedBefore(polls, n, mark), if n == 0 then [] else ContentAt(polls[n - 1]);
    mark <= scanned && |before| <= scanned && (mark < scanned ==> scanned == |before|) && !EndsPast(before, needle, mark)
  }

  /** On a growing file no poll that is not met has text that ends past the mark. */
  lemma {:induction false} GrowingSoFar(start: seq<byte>, polls: seq<Poll>, needle: seq<byte>, mark: nat, n: nat)
    requires needle != [] && Growing(start, polls) && mark <= |start| && n <= |polls|
    requires forall i :: 0 <= i < n ==> !PollMeets(polls[i], needle, SearchedBefore(polls, i, mark))
    ensures NotYet(polls, needle, mark, n) && SoFar(polls, needle, mark, n)
  {
    hide PollMeets, EndsPast, Growing, SoFar, SearchedBefore;
    if n == 0 {
      NothingSoFar(polls, needle, mark);
    } else {
      GrowingSoFar(start, polls, needle, mark, n - 1);
      GrowingStep(start, polls, needle, mark, n - 1);
    }
  }

  lemma NothingSoFar(polls: seq<Poll>, needle: seq<byte>, mark: nat)
    requires needle != []
    ensures SoFar(polls, needle, mark, 0)
  {
    hide EndsPast;
    NothingEnds(needle, mark);
  }

  lemma GrowingStep(start: seq<byte>, polls: seq<Poll>, needle: seq<byte>, mark: nat, at: nat)
    requires needle != [] && Growing(start, polls) && mark <= |start| && at < |polls| && SoFar(polls, needle, mark, at)
    ensures PollMeets(polls[at], needle, SearchedBefore(polls, at, mark)) ==>
      polls[at].present && EndsPast(polls[at].read, needle, mark)
    ensures !PollMeets(polls[at], needle, SearchedBefore(polls, at, mark)) ==>
      SoFar(polls, needle, mark, at + 1) && !EndsPast(ContentAt(polls[at]), needle, mark)
  {
    hide EndsPast;
    var q, scanned := polls[at], SearchedBefore(polls, at, mark);
    var before := if at == 0 then [] else ContentAt(polls[at - 1]);
    assert start <= ContentAt(q) && before <= ContentAt(q);
    OnePoll(start, polls, at, needle, mark, scanned, before, PollMeets(q, needle, scanned));
  }

  /** What meets a poll of a growing file ends past the mark. */
  lemma GrowingMet(start: seq<byte>, polls: seq<Poll>, needle: seq<byte>, mark: nat, at: nat)
    requires needle != [] && Growing(start, polls) && mark <= |start| && at < |polls|
    requires forall i :: 0 <= i < at ==> !PollMeets(polls[i], needle, SearchedBefore(polls, i, mark))
    requires PollMeets(polls[at], needle, SearchedBefore(polls, at, mark))
    ensures NotYet(polls, needle, mark, at) && polls[at].present && EndsPast(polls[at].read, needle, mark)
  {
    hide PollMeets, EndsPast, Growing, NotYet, SoFar;
    GrowingSoFar(start, polls, needle, mark, at);
    GrowingStep(start, polls, needle, mark, at);
  }
}
