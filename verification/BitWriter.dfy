/** The encoder's output: put_byte and put_bits of jpeg.c, into a buffer that may hold the input too. */
module BitWriting {
  import opened Bits
  import opened ByteStuffing
  import opened BitReading

  /** Eight bits from the middle of a bit string. */
  lemma Field(t: seq<bool>, i: nat)
    requires i + 8 <= |t|
    ensures ValueOf(t[i..i + 8]) == ValueOf(t) / Pow2(|t| - i - 8) % 256
  {
    hide ValueOf, Pow2;
    ValueOfPrefix(t, i + 8);
    ValueOfPrefix(t[..i + 8], i);
    assert t[..i + 8][i..] == t[i..i + 8];
    Pow2Values();
  }

  /** The writer's bit state: all whole bytes of the bits sent are in `written` after `head`;
      the rest waits in the low bits of `bits`. */
  ghost predicate Pending(written: seq<byte>, head: seq<byte>, sent: seq<bool>, bits: nat, nbits: nat) {
    written == head + Whole(sent) && nbits == |Partial(sent)| && bits == ValueOf(Partial(sent))
  }

  /** Midway through put_bits: i more bits have been written out. */
  ghost predicate Flushing(written: seq<byte>, head: seq<byte>, all: seq<bool>, w: nat, i: nat) {
    w % 8 == 0 && i % 8 == 0 && w + i <= |all| && written == head + Whole(all[..w + i])
  }

  lemma PendingCount(written: seq<byte>, head: seq<byte>, sent: seq<bool>, bits: nat, nbits: nat)
    requires Pending(written, head, sent, bits, nbits)
    ensures nbits < 8 && nbits <= |sent| && (|sent| - nbits) % 8 == 0
    ensures bits == ValueOf(sent[|sent| - nbits..])
  {
  }

  lemma NothingPending(head: seq<byte>)
    ensures Pending(head, head, [], 0, 0)
  {
    var none: seq<bool> := [];
    assert none[..0] == none && none[0..] == none;
    assert Whole([]) == [];
    assert head + [] == head;
  }

  lemma StartFlush(written: seq<byte>, head: seq<byte>, sent: seq<bool>, bits: nat, nbits: nat, more: seq<bool>)
    requires Pending(written, head, sent, bits, nbits) && nbits <= |sent|
    ensures Flushing(written, head, sent + more, |sent| - nbits, 0)
  {
    hide ValueOf, Pow2, Stuff, Pack;
    var w := |sent| - nbits;
    assert (sent + more)[..w + 0] == sent[..w];
    assert sent[..w][..w] == sent[..w];
  }

  lemma DropLeft<T>(a: seq<T>, b: seq<T>, i: nat)
    requires i <= |a|
    ensures (a + b)[i..] == a[i..] + b
  {
  }

  lemma JoinBits(sent: seq<bool>, w: nat, more: seq<bool>)
    requires w <= |sent|
    ensures ValueOf((sent + more)[w..]) == ValueOf(sent[w..]) * Pow2(|more|) + ValueOf(more)
  {
    hide ValueOf, Pow2;
    ValueOfConcat(sent[w..], more);
    DropLeft(sent, more, w);
  }

  lemma FlushByte(written: seq<byte>, head: seq<byte>, all: seq<bool>, w: nat, i: nat, b: byte)
    requires Flushing(written, head, all, w, i) && w + i + 8 <= |all|
    requires b == ValueOf(all[w..]) / Pow2(|all| - w - i - 8) % 256
    ensures Flushing(written + StuffByte(b), head, all, w, i + 8)
  {
    hide ValueOf, Pow2, Whole;
    Field(all[w..], i);
    assert all[w..][i..i + 8] == all[w + i..w + i + 8];
    WholeByte(all, w + i);
    assert Stuff([b]) == StuffByte(b) by { assert StuffByte(b) + Stuff([]) == StuffByte(b); }
    ConcatAssoc(head, Whole(all[..w + i]), StuffByte(b));
  }

  lemma EndFlush(written: seq<byte>, head: seq<byte>, all: seq<bool>, w: nat, i: nat)
    requires Flushing(written, head, all, w, i) && |all| - w - i < 8
    ensures Pending(written, head, all, ValueOf(all[w..]) % Pow2(|all| - w - i), |all| - w - i)
  {
    hide ValueOf, Pow2, Stuff, Pack;
    var m := w + i;
    assert |all| % 8 == |all| - m;
    assert all[..m][..m] == all[..m];
    ValueOfPrefix(all[w..], i);
    assert all[w..][i..] == all[m..];
  }

  /** The k-th byte was put too late: at the capacity or, in place, at the reader's position then.
      Marks say how much of its data, which ends at `end`, the reader had left. */
  predicate TooLate(marks: seq<nat>, base: nat, cap: nat, guarded: bool, end: nat, k: int) {
    0 <= k < |marks| && (k >= cap || (guarded && base + k + marks[k] >= end))
  }

  ghost predicate Overflows(marks: seq<nat>, base: nat, cap: nat, guarded: bool, end: nat) {
    exists k :: TooLate(marks, base, cap, guarded, end, k)
  }

  lemma OneMark(marks: seq<nat>, base: nat, cap: nat, guarded: bool, end: nat, n: nat)
    ensures Overflows(marks + [n], base, cap, guarded, end) <==>
      Overflows(marks, base, cap, guarded, end) || |marks| >= cap || (guarded && base + |marks| + n >= end)
  {
    var all, last := marks + [n], |marks|;
    forall k | 0 <= k < last
      ensures TooLate(all, base, cap, guarded, end, k) == TooLate(marks, base, cap, guarded, end, k)
    {
    }
    if Overflows(marks, base, cap, guarded, end) {
      var k :| TooLate(marks, base, cap, guarded, end, k);
      assert TooLate(all, base, cap, guarded, end, k);
    }
    assert TooLate(all, base, cap, guarded, end, last) <==> last >= cap || (guarded && base + last + n >= end);
  }

  /** More marks, all of n. */
  ghost predicate Later(before: seq<nat>, marks: seq<nat>, n: nat) {
    |before| <= |marks| && (forall k :: 0 <= k < |before| ==> marks[k] == before[k]) &&
    forall k :: |before| <= k < |marks| ==> marks[k] == n
  }

  /** The decoder has only moved on from where it was at first. */
  ghost predicate Within(marks: seq<nat>, since: nat, p: nat, end: nat) {
    since <= p <= end && forall k :: 0 <= k < |marks| ==> since + marks[k] <= end
  }

  class BitWriter {
    const out: array<byte>
    const base: nat            // where the output starts in `out`
    const cap: nat
    const guard: BitReader?    // the decoder, when out aliases its input
    var pos: nat
    var bits: nat
    var nbits: nat
    var overflow: bool

    ghost const src: BitReader     // the decoder whose unread input must survive
    ghost var written: seq<byte>   // every byte put, whether it fitted or not
    ghost var marks: seq<nat>      // what the decoder had left to read when each byte was put
    ghost const since: nat         // where it was at first
    ghost var head: seq<byte>      // the bytes put before the entropy-coded segment
    ghost var sent: seq<bool>      // the bits put since

    /** When `out` aliases the decoder's input the regions are disjoint, or the guard is set. */
    ghost predicate Apart()
      reads this, src
    {
      out != src.data || guard == src || base + cap <= src.p || src.end <= base
    }

    ghost predicate Valid()
      reads this, src, out, src.data
    {
      base + cap <= out.Length && pos <= cap &&
      (guard != null ==> guard == src && src.data == out) &&
      Apart() && src.Valid() &&
      (!overflow ==> out[base..base + pos] == written) &&
      (guard == null ==> overflow == (|written| > cap)) &&
      Marked()
    }

    /** It has overflowed exactly if some byte was put too late. */
    ghost predicate Marked()
      reads this`marks, this`written, this`overflow, src`p
    {
      |marks| == |written| && overflow == Overflows(marks, base, cap, guard != null, src.end) && Within(marks, since, src.p, src.end)
    }

    /** What the decoder has left to read. */
    ghost function Left(): nat
      reads src`p
    {
      if src.p <= src.end then src.end - src.p else 0
    }

    /** Every byte put since was put where the decoder is now. */
    ghost predicate Grew(before: seq<nat>)
      reads this`marks, src`p
    {
      Later(before, marks, Left())
    }

    ghost predicate BitState()
      reads this
    {
      Pending(written, head, sent, bits, nbits)
    }

    constructor (out: array<byte>, base: nat, cap: nat, guarded: bool, src: BitReader)
      requires base + cap <= out.Length && src.Valid()
      requires guarded ==> out == src.data
      requires out != src.data || guarded || base + cap <= src.p || src.end <= base
      ensures Valid() && BitState()
      ensures this.out == out && this.base == base && this.cap == cap && this.src == src
      ensures guarded == (guard != null)
      ensures written == [] && head == [] && sent == [] && bits == 0 && nbits == 0 && !overflow && since == src.p
    {
      hide Pending, Buffered;
      NothingPending([]);
      this.out, this.base, this.cap, this.src := out, base, cap, src;
      guard := if guarded then src else null;
      pos, bits, nbits, overflow := 0, 0, 0, false;
      written, head, sent, marks, since := [], [], [], [], src.p;
    }

    /** There is room below the capacity and, in place, below the reader. */
    ghost predicate HasRoom()
      reads this, src
    {
      pos < cap && (guard == null || base + pos < src.p)
    }

    method PutByte(b: byte)
      requires Valid()
      modifies this`pos, this`overflow, this`written, this`marks, out
      ensures Valid() && written == old(written) + [b] && marks == old(marks) + [Left()]
      ensures overflow == (old(overflow) || !old(HasRoom()))
      ensures pos == old(pos) + (if old(HasRoom()) then 1 else 0)
      ensures old(HasRoom()) ==> base + old(pos) < out.Length
      ensures out[..] == if old(HasRoom()) then old(out[..])[base + old(pos) := b] else old(out[..])
    {
      hide BitReader.Valid, Marked;
      var limit := base + cap;
      if guard != null && guard.p < limit {
        limit := guard.p;
      }
      if base + pos >= limit {
        Refuse(b);
        return;
      }
      Store(b);
    }

    /** No room for b. */
    method Refuse(ghost b: byte)
      requires Valid() && !HasRoom()
      modifies this`overflow, this`written, this`marks
      ensures Valid() && overflow && written == old(written) + [b] && marks == old(marks) + [Left()]
    {
      hide Buffered, Overflows, TooLate;
      OneMark(marks, base, cap, guard != null, src.end, Left());
      written, marks := written + [b], marks + [Left()];
      overflow := true;
    }

    /** The byte b at pos. */
    method Store(b: byte)
      requires Valid() && HasRoom()
      modifies this`pos, this`written, this`marks, out
      ensures Valid() && written == old(written) + [b] && marks == old(marks) + [Left()] && pos == old(pos) + 1
      ensures base + old(pos) < out.Length && out[..] == old(out[..])[base + old(pos) := b]
    {
      hide Buffered, Overflows, TooLate;
      ghost var unread := src.data[src.p..src.end];
      OneMark(marks, base, cap, guard != null, src.end, Left());
      written, marks := written + [b], marks + [Left()];
      out[base + pos] := b;
      pos := pos + 1;
      assert src.data[src.p..src.end] == unread;
    }

    method PutBytes(bs: seq<byte>)
      requires Valid()
      modifies this`pos, this`overflow, this`written, this`marks, out
      ensures Valid() && written == old(written) + bs
      ensures Grew(old(marks))
    {
      hide Marked, HasRoom;
      for i := 0 to |bs|
        invariant Valid() && written == old(written) + bs[..i]
        invariant Grew(old(marks))
      {
        PutByte(bs[i]);
        assert bs[..i + 1] == bs[..i] + [bs[i]];
      }
      assert bs[..|bs|] == bs;
    }

    method PutU16(v: nat)
      requires Valid() && v < 0x1_0000
      modifies this`pos, this`overflow, this`written, this`marks, out
      ensures Valid() && written == old(written) + [v / 256, v % 256]
      ensures Grew(old(marks))
    {
      hide Marked, HasRoom;
      PutByte(v / 256);
      PutByte(v % 256);
    }

    /** The bytes put so far are the head; bits follow. */
    ghost method StartSegment()
      requires Valid() && sent == [] && bits == 0 && nbits == 0
      modifies this`head
      ensures Valid() && BitState() && head == written
    {
      hide Pending, Buffered;
      head := written;
      NothingPending(written);
    }

    /** A byte of entropy-coded data: 0xFF is stuffed. */
    method PutStuffed(b: byte)
      requires Valid()
      modifies this`pos, this`overflow, this`written, this`marks, out
      ensures Valid() && written == old(written) + StuffByte(b)
      ensures Grew(old(marks))
    {
      hide Marked, HasRoom;
      PutByte(b);
      if b == 0xFF {
        PutByte(0);
      }
    }

    /** The whole bytes pending, the i bits of them. */
    method FlushBytes(ghost all: seq<bool>, ghost w: nat) returns (ghost i: nat)
      requires Valid() && w <= |all| && nbits == |all| - w && bits == ValueOf(all[w..])
      requires Flushing(written, head, all, w, 0)
      modifies this`pos, this`overflow, this`written, this`marks, this`nbits, out
      ensures Valid() && w + i <= |all| && nbits == |all| - w - i < 8
      ensures Flushing(written, head, all, w, i) && Grew(old(marks))
    {
      hide Marked, HasRoom, ValueOf, Pow2, Flushing, StuffByte, Buffered;
      i := 0;
      while nbits >= 8
        invariant w + i <= |all|
        invariant Valid() && nbits == |all| - w - i && bits == ValueOf(all[w..])
        invariant Flushing(written, head, all, w, i)
        invariant Grew(old(marks))
      {
        var b: byte := bits / Pow2(nbits - 8) % 256;
        FlushByte(written, head, all, w, i, b);
        PutStuffed(b);
        nbits := nbits - 8;
        i := i + 8;
      }
    }

    method PutBits(code: nat, n: nat)
      requires Valid() && BitState() && n <= 24
      modifies this`pos, this`overflow, this`written, this`marks, this`bits, this`nbits, this`sent, out
      ensures Valid() && BitState() && sent == old(sent) + BitsOf(code, n)
      ensures Grew(old(marks))
    {
      hide Marked, HasRoom, ValueOf, Pow2, BitsOf, Pending, Flushing, StuffByte, Buffered;
      PendingCount(written, head, sent, bits, nbits);
      ghost var all := sent + BitsOf(code, n);
      ghost var w: nat := |sent| - nbits;
      StartFlush(written, head, sent, bits, nbits, BitsOf(code, n));
      JoinBits(sent, w, BitsOf(code, n));
      ValueOfBitsOf(code, n);
      bits := bits * Pow2(n) + code % Pow2(n);
      nbits := nbits + n;
      ghost var i := FlushBytes(all, w);
      EndFlush(written, head, all, w, i);
      bits := bits % Pow2(nbits);
      sent := all;
    }
  }
}
