/** The upload sink of mcp_server.c: diverted content, base64-decoded chunk by chunk into a file. */
module Uploads {
  import opened Bits
  import opened Base64
  import opened Base64Coding
  import opened Wrappers

  const READ_CHUNK: nat := 0x2000
  const DECODE_SIZE: nat := (READ_CHUNK / 4 + 1) * 3

  /** What the surroundings allow: memory for the decode buffer, a card to create the file on, and
      the bytes that fit on it. */
  datatype Surroundings = Surroundings(memory: bool, card: bool, room: nat)

  /** Content that cannot be saved: not base64 so far, or nowhere to put it. */
  predicate Spoilt(env: Surroundings, content: seq<byte>) {
    content != [] && (!env.memory || !env.card || Read(content).Invalid? || |Produced(content)| > env.room)
  }

  /** The bytes saved from a complete content string, if it is accepted. */
  function Saved(env: Surroundings, content: seq<byte>): Option<seq<byte>> {
    if content == [] || Spoilt(env, content) then None else Decode(content)
  }

  /** Once spoilt, more content does not help. */
  lemma SpoiltStays(env: Surroundings, a: seq<byte>, b: seq<byte>)
    requires Spoilt(env, a)
    ensures Spoilt(env, a + b)
  {
    hide Read;
    if Read(a).Invalid? {
      B64Decoder.InvalidStays(a, b);
    } else if Read(a + b).Reading? {
      B64Decoder.BitsGrow(a, b);
    }
  }

  class UploadSink {
    const env: Surroundings
    const dec: B64Decoder
    const buf: array<byte>      // request memory for the decoded bytes of one call
    var hasBuf: bool
    var open: bool              // the temporary file exists and is open
    var file: seq<byte>
    var bytes: nat
    var failed: bool

    ghost var received: seq<byte>   // everything sunk so far

    ghost predicate Valid()
      reads this, dec
    {
      buf.Length == DECODE_SIZE && dec.Valid() && (hasBuf ==> env.memory) &&
      failed == Spoilt(env, received) &&
      (!failed ==> dec.text == received && open == (received != []) && bytes == |file| && (open ==> hasBuf) &&
                   file == Produced(received))
    }

    constructor (env: Surroundings)
      ensures Valid() && received == [] && this.env == env && fresh(dec) && fresh(buf)
    {
      hide Produced, Read, B64Decoder.Holds;
      NothingProduced();
      this.env := env;
      dec := new B64Decoder();
      buf := new byte[DECODE_SIZE];
      hasBuf, open, failed, file, bytes, received := false, false, false, [], 0, [];
    }

    /** upload_sink: one piece of the content. Failures are latched and the rest is drained. */
    method Sink(data: seq<byte>)
      requires Valid() && 0 < |data| <= READ_CHUNK
      modifies this, dec, buf
      ensures Valid() && received == old(received) + data
    {
      hide Read, Produced;
      ghost var before := received;
      received := received + data;
      if failed {
        SpoiltStays(env, before, data);
        return;
      }
      if !hasBuf {
        if !env.memory {
          failed := true;
          return;
        }
        hasBuf := true;
      }
      if !open {
        if !env.card {
          failed := true;
          return;
        }
        open := true;
        file := [];
        NothingProduced();
      }
      var n := dec.Update(data, buf);
      if n < 0 {
        failed := true;
        return;
      }
      if |file| + n > env.room {
        failed := true;
        return;
      }
      file := file + buf[..n];
      bytes := bytes + n;
    }

    /** mcp_call_streamed_content past its check that a content field was seen. */
    method Take() returns (ok: bool, size: nat)
      requires Valid()
      modifies this`open
      ensures ok == Saved(env, received).Some?
      ensures ok ==> file == Saved(env, received).value && size == |file| && !open
    {
      hide Read;
      size := 0;
      if failed || !open {
        return false, 0;
      }
      ok := dec.Finish();
      if ok {
        open := false;
        size := bytes;
      }
    }
  }

  /** Every content string made of an encoding is saved as the bytes encoded, and no other string
      is saved as those bytes. */
  lemma {:induction false} SavedIff(env: Surroundings, content: seq<byte>, x: seq<byte>)
    ensures Saved(env, content) == Some(x) <==>
      content != [] && env.memory && env.card && |x| <= env.room && (Clean(content) == Unpadded(x) || Clean(content) == Encode(x))
  {
    hide Read, Clean, Unpadded, Encode, Ends;
    DecodeIff(content, x);
    EndsReads(Read(content));
  }

  lemma EndsReads(r: Reading)
    ensures Ends(r) ==> r.Reading?
  {
  }
}
