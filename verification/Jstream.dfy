/** jstream.c: the loop over a fed chunk, and the reception of a request body in handle_post. */
module Jstreams {
  import opened Bits
  import opened JsonStream
  import opened JsonDiversion
  import opened JsonRedaction
  import opened Base64
  import opened Uploads
  import opened Wrappers

  class Jstream {
    const doc: array<byte>
    const cap: nat
    const sink: UploadSink
    var docLen: nat
    var depth: nat
    var onPath: seq<bool>
    var isObj: seq<bool>
    var inString: bool
    var isKey: bool
    var esc: bool
    var nextIsKey: bool
    var onPathNext: bool
    var contentNext: bool
    var divert: bool
    var found: bool
    var key: seq<byte>
    var keyOverflow: bool
    var failed: bool
    var error: Error

    ghost predicate Shape()
      reads this, doc, sink
    {
      docLen <= cap <= doc.Length && doc != sink.buf && Abs().Valid()
    }

    ghost predicate Valid()
      reads this, doc, sink, sink.dec
    {
      Shape() && sink.Valid()
    }

    ghost function Place(): (s: State)
      requires docLen <= doc.Length
      reads this, doc, sink
    {
      State(doc[..docLen], sink.received, depth, onPath, isObj, inString, isKey, esc, nextIsKey,
            onPathNext, contentNext, divert, found, key, keyOverflow)
    }

    /** The scanner's state. */
    ghost function Abs(): (r: Scan)
      requires docLen <= doc.Length
      reads this, doc, sink
    {
      if failed then Failed(error, sink.received) else Going(Place())
    }

    constructor (doc: array<byte>, cap: nat, sink: UploadSink)
      requires cap <= doc.Length && sink.Valid() && doc != sink.buf && sink.received == []
      ensures Valid() && Abs() == Going(Initial())
      ensures this.doc == doc && this.cap == cap && this.sink == sink
    {
      hide UploadSink.Valid;
      this.doc, this.cap, this.sink := doc, cap, sink;
      docLen, depth, key := 0, 0, [];
      onPath, isObj := seq(MAX_DEPTH + 1, _ => false), seq(MAX_DEPTH + 1, _ => false);
      inString, isKey, esc, nextIsKey, onPathNext, contentNext := false, false, false, false, false, false;
      divert, found, keyOverflow, failed, error := false, false, false, false, EDoc;
    }

    method Fail(e: Error)
      requires Shape() && !failed
      modifies this`failed, this`error
      ensures Shape() && Abs() == Failed(e, sink.received)
    {
      failed, error := true, e;
    }

    /** doc_append, latching the error. */
    method AppendDoc(text: seq<byte>)
      requires Shape() && !failed
      modifies this`docLen, this`failed, this`error, doc
      ensures Shape() && Abs() == Append(cap, old(Place()), text)
    {
      if docLen + |text| > cap {
        Fail(EDoc);
        return;
      }
      ghost var before := doc[..docLen];
      forall k | 0 <= k < |text| { doc[docLen + k] := text[k]; }
      assert doc[..docLen + |text|] == before + text;
      docLen := docLen + |text|;
    }

    /** A byte of a copied string. */
    method FeedString(c: byte)
      requires Shape() && !failed && inString && !divert
      modifies this, doc
      ensures Shape() && Abs() == StepString(cap, old(Place()), c)
    {
      hide AfterStringByte;
      AppendDoc([c]);
      if !failed {
        StringByte(c);
      }
    }

    method StringByte(c: byte)
      requires Shape() && !failed
      modifies this`esc, this`keyOverflow, this`inString, this`key, this`onPathNext, this`contentNext
      ensures Shape() && Abs() == Going(AfterStringByte(old(Place()), c))
    {
      hide KeyComplete;
      if esc {
        esc := false;
        if isKey {
          keyOverflow := true; // escaped keys can't match
        }
      } else if c == BACKSLASH {
        esc := true;
      } else if c == QUOTE {
        EndString();
      } else if isKey {
        if |key| < MAX_KEY {
          key := key + [c];
        } else {
          keyOverflow := true;
        }
      }
    }

    /** The closing quote. */
    method EndString()
      requires Shape() && !failed && !esc
      modifies this`inString, this`onPathNext, this`contentNext
      ensures Shape() && Abs() == Going(AfterStringByte(old(Place()), QUOTE))
    {
      hide KeyComplete;
      inString := false;
      if isKey {
        CompleteKey();
      }
    }

    /** key_complete. */
    method CompleteKey()
      requires Shape() && !failed
      modifies this`onPathNext, this`contentNext
      ensures Shape() && Abs() == Going(KeyComplete(old(Place())))
    {
      hide Target;
      var d := depth;
      onPathNext, contentNext := false, false;
      if keyOverflow || d < 1 || d > 3 || !onPath[d] {
        return;
      }
      if CString(key) != Target(d) {
        return;
      }
      if d < 3 {
        onPathNext := true;
      } else {
        contentNext := true;
      }
    }

    method FeedQuote()
      requires Shape() && !failed && !inString && !divert
      modifies this, doc
      ensures Shape() && Abs() == StepQuote(cap, old(Place()))
    {
      hide Placeholder, Append;
      var starting := depth >= 1 && isObj[depth] && nextIsKey;
      if !starting && contentNext {
        if found {
          Fail(EDup);
          return;
        }
        StartContent();
        AppendDoc(Placeholder());
      } else {
        StartString(starting);
        AppendDoc([QUOTE]);
      }
    }

    /** A value begins: no key is pending any more. */
    method DropPending()
      requires Shape() && !failed
      modifies this`contentNext, this`onPathNext
      ensures Shape() && !failed && Place() == Consumed(old(Place()))
    {
      contentNext := false;
      onPathNext := false;
    }

    method StartContent()
      requires Shape() && !failed
      modifies this`contentNext, this`onPathNext, this`found, this`divert
      ensures Shape() && !failed
      ensures Place() == old(Place()).(contentNext := false, onPathNext := false, found := true, divert := true)
    {
      DropPending();
      found := true;
      divert := true;
    }

    method StartString(starting: bool)
      requires Shape() && !failed
      modifies this`inString, this`isKey, this`key, this`keyOverflow, this`contentNext, this`onPathNext
      ensures Shape() && !failed
      ensures Place() == old(Place()).(inString := true, isKey := starting, key := [], keyOverflow := false,
                contentNext := starting && old(contentNext), onPathNext := starting && old(onPathNext))
    {
      if !starting {
        DropPending();
      }
      EnterString(starting);
    }

    method EnterString(starting: bool)
      requires Shape() && !failed
      modifies this`inString, this`isKey, this`key, this`keyOverflow
      ensures Shape() && !failed
      ensures Place() == old(Place()).(inString := true, isKey := starting, key := [], keyOverflow := false)
    {
      inString := true;
      isKey := starting;
      key := [];
      keyOverflow := false;
    }

    method FeedOpen(c: byte)
      requires Shape() && !failed && !inString && !divert && (c == OBJ_OPEN || c == ARR_OPEN)
      modifies this, doc
      ensures Shape() && Abs() == StepOpen(cap, old(Place()), c)
    {
      hide Append;
      if depth >= MAX_DEPTH {
        Fail(EDepth);
        return;
      }
      Enter(c == OBJ_OPEN);
      AppendDoc([c]);
    }

    method Enter(obj: bool)
      requires Shape() && !failed && depth < MAX_DEPTH
      modifies this`depth, this`isObj, this`onPath, this`onPathNext, this`contentNext, this`nextIsKey
      ensures Shape() && !failed
      ensures Place() == old(Place()).(depth := old(depth) + 1, isObj := old(isObj)[old(depth) + 1 := obj],
                onPath := old(onPath)[old(depth) + 1 := obj && (old(depth) == 0 || old(onPathNext))],
                onPathNext := false, contentNext := false, nextIsKey := obj)
    {
      Push(obj);
      DropPending();
      nextIsKey := obj;
    }

    method Push(obj: bool)
      requires Shape() && !failed && depth < MAX_DEPTH
      modifies this`depth, this`isObj, this`onPath
      ensures Shape() && !failed
      ensures Place() == old(Place()).(depth := old(depth) + 1, isObj := old(isObj)[old(depth) + 1 := obj],
                onPath := old(onPath)[old(depth) + 1 := obj && (old(depth) == 0 || old(onPathNext))])
    {
      var d := depth + 1;
      var on := obj && (d == 1 || onPathNext);
      var objs, paths := isObj[d := obj], onPath[d := on];
      depth := d;
      isObj := objs;
      onPath := paths;
    }

    /** A byte outside strings. */
    method FeedStructure(c: byte)
      requires Shape() && !failed && !inString && !divert
      modifies this, doc
      ensures Shape() && Abs() == StepStructure(cap, old(Place()), c)
    {
      hide StepQuote, StepOpen, Append;
      if c == QUOTE {
        FeedQuote();
      } else if c == OBJ_OPEN || c == ARR_OPEN {
        FeedOpen(c);
      } else if c == OBJ_CLOSE || c == ARR_CLOSE {
        if depth <= 0 {
          Fail(EDepth);
          return;
        }
        depth := depth - 1;
        AppendDoc([c]);
      } else {
        if c == COLON {
          nextIsKey := false;
        } else if c == COMMA {
          nextIsKey := depth >= 1 && isObj[depth];
        } else if !IsSpace(c) {
          DropPending();
        }
        AppendDoc([c]);
      }
    }

    /** An escaped byte of the content string. */
    method FeedEscaped(c: byte)
      requires Valid() && !failed && divert && esc
      modifies this, sink, sink.dec, sink.buf
      ensures Valid() && Abs() == StepDiverted(old(Place()), c)
    {
      hide UploadSink.Valid;
      esc := false;
      if c == 0x2F {
        sink.Sink([0x2F]);
      } else if c == 0x6E {
        sink.Sink([10]);
      } else if c == 0x72 {
        sink.Sink([13]);
      } else {
        Fail(EContent);
      }
    }

    /** The content string up to the next quote or backslash, in one call of the sink. */
    method FeedRun(data: seq<byte>, i: nat) returns (j: nat)
      requires Valid() && !failed && divert && !esc && i < |data| <= READ_CHUNK
      requires data[i] != QUOTE && data[i] != BACKSLASH
      modifies sink, sink.dec, sink.buf
      ensures Valid() && i < j <= |data| && Abs() == Run(cap, old(Abs()), data[i..j])
    {
      hide Run, UploadSink.Valid;
      j := i;
      ghost var s := Place();
      while j < |data| && data[j] != QUOTE && data[j] != BACKSLASH
        invariant i <= j <= |data| && forall k :: i <= k < j ==> data[k] != QUOTE && data[k] != BACKSLASH
      {
        j := j + 1;
      }
      CleanRun(cap, s, data[i..j]);
      sink.Sink(data[i..j]);
    }

    /** Bytes of the content string that are sent on as they are. */
    static lemma {:induction false} CleanRun(cap: nat, s: State, text: seq<byte>)
      requires s.Valid() && s.divert && !s.esc && forall k :: 0 <= k < |text| ==> text[k] != QUOTE && text[k] != BACKSLASH
      ensures Run(cap, Going(s), text) == Going(s.(content := s.content + text))
      decreases |text|
    {
      hide Step;
      if text == [] {
        assert s.content + [] == s.content;
      } else {
        DivertByte(cap, s, text[0]);
        CleanRun(cap, s.(content := s.content + [text[0]]), text[1..]);
        assert s.content + [text[0]] + text[1..] == s.content + text;
      }
    }

    /** One turn of the loop: the byte at i, or a run of content bytes. */
    method FeedAt(data: seq<byte>, i: nat) returns (j: nat)
      requires Valid() && !failed && i < |data| <= READ_CHUNK
      modifies this, doc, sink, sink.dec, sink.buf
      ensures Valid() && i < j <= |data| && Abs() == Run(cap, old(Abs()), data[i..j])
    {
      hide Run, StepStructure, StepString, UploadSink.Valid;
      var c := data[i];
      j := i + 1;
      assert data[i..i + 1] == [c];
      RunOne(cap, Abs(), c);
      if divert {
        if esc {
          FeedEscaped(c);
        } else if c == QUOTE {
          divert := false;
        } else if c == BACKSLASH {
          esc := true;
        } else {
          j := FeedRun(data, i);
        }
      } else if inString {
        FeedString(c);
      } else {
        FeedStructure(c);
      }
    }

    /** jstream_feed: the state afterwards is that of the bytes one by one. */
    method Feed(data: seq<byte>) returns (ok: bool)
      requires Valid() && |data| <= READ_CHUNK
      modifies this, doc, sink, sink.dec, sink.buf
      ensures Valid() && Abs() == Run(cap, old(Abs()), data) && ok == !failed
    {
      hide Run, Step, UploadSink.Valid;
      ghost var r0 := Abs();
      if failed {
        FailedStays(cap, r0, data);
        return false;
      }
      var i := 0;
      RunNothing(cap, r0);
      while i < |data|
        invariant i <= |data| && Valid() && !failed && Abs() == Run(cap, r0, data[..i])
      {
        var j := FeedAt(data, i);
        assert data[..j] == data[..i] + data[i..j];
        RunConcat(cap, r0, data[..i], data[i..j]);
        if failed {
          assert data == data[..j] + data[j..];
          RunConcat(cap, r0, data[..j], data[j..]);
          FailedStays(cap, Abs(), data[j..]);
          return false;
        }
        i := j;
      }
      assert data[..i] == data;
      return true;
    }

    /** jstream_finish. */
    method End() returns (ok: bool)
      requires Valid()
      modifies this`failed, this`error
      ensures Valid() && Abs() == Finish(old(Abs())) && ok == !failed
    {
      hide UploadSink.Valid;
      if failed {
        return false;
      }
      if inString || divert || depth != 0 {
        Fail(EPartial);
        return false;
      }
      return true;
    }
  }

  // --- a request body ----------------------------------------------------------------------------

  function BodyOf(chunks: seq<seq<byte>>): seq<byte> {
    if chunks == [] then [] else BodyOf(chunks[..|chunks| - 1]) + chunks[|chunks| - 1]
  }

  predicate Chunked(chunks: seq<seq<byte>>) {
    forall k :: 0 <= k < |chunks| ==> |chunks[k]| <= READ_CHUNK
  }

  lemma {:induction false} BodyPrefix(chunks: seq<seq<byte>>, n: nat) returns (rest: seq<byte>)
    requires n <= |chunks|
    ensures BodyOf(chunks) == BodyOf(chunks[..n]) + rest
    decreases |chunks|
  {
    if n == |chunks| {
      rest := [];
      assert chunks[..n] == chunks;
      assert BodyOf(chunks) + [] == BodyOf(chunks);
    } else {
      var k := |chunks| - 1;
      assert chunks[..k][..n] == chunks[..n];
      var r := BodyPrefix(chunks[..k], n);
      rest := r + chunks[k];
      ConcatAssoc(BodyOf(chunks[..n]), r, chunks[k]);
    }
  }

  /** What a body posted with an upload comes to: a parse error, a connection that failed, or the
      reduced document with the content saved (None: missing or not valid base64). */
  datatype Received = ParseError(error: Error) | ReadFailed | Parsed(doc: seq<byte>, found: bool, saved: Option<seq<byte>>)

  /** The body is what was read; broken: the next read failed. */
  function Outcome(cap: nat, env: Surroundings, body: seq<byte>, broken: bool): Received {
    var read := Run(cap, Going(Initial()), body);
    if broken && read.Going? then ReadFailed
    else match Finish(read)
    case Failed(e, _) => ParseError(e)
    case Going(s) => Parsed(s.doc, s.found, if s.found then Saved(env, s.content) else None)
  }

  /** handle_post's loop over the body, and the content as a tool asks for it. The outcome depends
      on the bytes of the body alone, not on how they were cut into reads. */
  method ReceiveBody(chunks: seq<seq<byte>>, broken: bool, doc: array<byte>, env: Surroundings)
    returns (r: Received, ghost file: seq<byte>)
    requires Chunked(chunks)
    modifies doc
    ensures r == Outcome(doc.Length, env, BodyOf(chunks), broken)
    ensures r.Parsed? && r.saved.Some? ==> file == r.saved.value
  {
    hide Run, Saved, UploadSink.Valid, State.Valid, Initial;
    var sink := new UploadSink(env);
    var js := new Jstream(doc, doc.Length, sink);
    var k, ok := 0, true;
    RunNothing(js.cap, js.Abs());
    while k < |chunks| && ok
      invariant js.Valid() && k <= |chunks| && ok == !js.failed && js.doc == doc && js.cap == doc.Length && js.sink == sink
      invariant fresh(js) && fresh(sink) && fresh(sink.dec) && fresh(sink.buf) && sink.env == env
      invariant js.Abs() == Run(js.cap, Going(Initial()), BodyOf(chunks[..k]))
    {
      assert chunks[..k + 1][..k] == chunks[..k];
      RunConcat(js.cap, Going(Initial()), BodyOf(chunks[..k]), chunks[k]);
      ok := js.Feed(chunks[k]);
      k := k + 1;
    }
    ghost var rest := BodyPrefix(chunks, k);
    RunConcat(js.cap, Going(Initial()), BodyOf(chunks[..k]), rest);
    if ok {
      assert chunks[..k] == chunks;
      if broken {
        return ReadFailed, [];
      }
      ok := js.End();
    } else {
      FailedStays(js.cap, js.Abs(), rest);
    }
    file := [];
    if !ok {
      return ParseError(js.error), [];
    }
    if !js.found {
      return Parsed(doc[..js.docLen], false, None), [];
    }
    var taken, size := sink.Take();
    file := sink.file;
    r := Parsed(doc[..js.docLen], true, if taken then Some(sink.file) else None);
  }

  /** For every JSON body: x is saved exactly if the body keeps the scanner's limits and its one
      content string is, escapes undone and line breaks aside, a non-empty text encoding x; and
      the document is then the body with that string replaced. */
  lemma {:induction false} UploadIff(cap: nat, env: Surroundings, w1: seq<byte>, v: Value, w2: seq<byte>, doc: seq<byte>, x: seq<byte>)
    requires WellFormed(v) && Spaces(w1) && Spaces(w2)
    ensures Outcome(cap, env, Body(w1, v, w2), false) == Parsed(doc, true, Some(x)) <==>
      Depth(v) <= MAX_DEPTH && |Reduced(w1, v, w2)| <= cap && doc == Reduced(w1, v, w2) &&
      |ContentStrings(v)| == 1 && Streamable(ContentStrings(v)[0]) && Encodes(env, Unescape(ContentStrings(v)[0]), x)
  {
    hide Run, Saved, WellFormed, Depth, Reduced, ContentStrings, Streamable, Unescape, Clean, Unpadded, Encode;
    BodyScanned(cap, w1, v, w2);
    var cs := ContentStrings(v);
    if |cs| == 1 {
      OneJoined(cs);
      SavedIff(env, Unescape(cs[0]), x);
    }
  }

  /** A non-empty text that encodes x, in surroundings where x can be saved. */
  predicate Encodes(env: Surroundings, content: seq<byte>, x: seq<byte>) {
    content != [] && env.memory && env.card && |x| <= env.room && (Clean(content) == Unpadded(x) || Clean(content) == Encode(x))
  }

  lemma OneJoined(cs: seq<seq<byte>>)
    requires |cs| == 1
    ensures Joined(cs) == Unescape(cs[0]) && (AllStreamable(cs) <==> Streamable(cs[0]))
  {
    hide Streamable, Unescape;
    assert cs[1..] == [];
    assert Unescape(cs[0]) + [] == Unescape(cs[0]);
  }
}
