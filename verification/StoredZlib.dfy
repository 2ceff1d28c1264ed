/** The zlib stream nro.c sends: stored deflate blocks (RFC 1951 section 3.2.4) in a zlib wrapper
    (RFC 1950 section 2.2), cut into length-prefixed chunks. */
module StoredZlib {
  import opened Bits
  import opened Wrappers

  const BLOCK_DATA: nat := 16000
  const ZLIB_CHUNK: nat := 16384
  const MODULUS: nat := 65521

  // --- Adler-32 ----------------------------------------------------------------------------------

  function Sum(d: seq<byte>): nat {
    if d == [] then 0 else Sum(d[..|d| - 1]) + d[|d| - 1] as int
  }

  /** Each byte weighted by its distance to the end: |d| for the first, 1 for the last. */
  function WeightedSum(d: seq<byte>, n: nat): nat
    requires n <= |d|
  {
    if n == 0 then 0 else WeightedSum(d, n - 1) + (|d| - (n - 1)) * d[n - 1] as int
  }

  /** Adler-32 as RFC 1950 defines it, by its closed-form sums. */
  function AdlerA(d: seq<byte>): nat {
    (1 + Sum(d)) % MODULUS
  }

  function AdlerB(d: seq<byte>): nat {
    (|d| + WeightedSum(d, |d|)) % MODULUS
  }

  function Adler32(d: seq<byte>): nat {
    AdlerB(d) * 0x1_0000 + AdlerA(d)
  }

  /** One more byte adds every byte once more. */
  lemma {:induction false} WeightedMore(d: seq<byte>, x: byte, n: nat)
    requires n <= |d|
    ensures WeightedSum(d + [x], n) == WeightedSum(d, n) + Sum(d[..n])
  {
    if n > 0 {
      WeightedMore(d, x, n - 1);
      assert d[..n][..n - 1] == d[..n - 1];
      OneHeavier(|d| - (n - 1), d[n - 1]);
    }
  }

  lemma OneHeavier(k: nat, x: nat)
    ensures (k + 1) * x == k * x + x
  {
  }

  lemma SumsMore(d: seq<byte>, x: byte)
    ensures Sum(d + [x]) == Sum(d) + x as int
    ensures WeightedSum(d + [x], |d| + 1) == WeightedSum(d, |d|) + Sum(d) + x as int
  {
    var e := d + [x];
    assert e[..|d|] == d && d[..|d|] == d;
    WeightedMore(d, x, |d|);
  }

  lemma AddMod(x: nat, y: nat)
    ensures (x % MODULUS + y) % MODULUS == (x + y) % MODULUS
  {
    var q, r := x / MODULUS, x % MODULUS;
    var t := r + y;
    var q', r' := t / MODULUS, t % MODULUS;
    DivModUnique(x + y, MODULUS, q + q', r');
  }

  /** The checksum's sums, modulo the largest prime below 2^16. */
  lemma AdlerIs(d: seq<byte>)
    ensures AdlerA(d) == (1 + Sum(d)) % 65521 && AdlerB(d) == (|d| + WeightedSum(d, |d|)) % 65521
  {
    hide Sum, WeightedSum;
  }

  /** The running sums follow the closed form. */
  lemma {:induction false} AdlerStep(d: seq<byte>, x: byte)
    ensures AdlerA(d + [x]) == (AdlerA(d) + x as int) % MODULUS
    ensures AdlerB(d + [x]) == (AdlerB(d) + AdlerA(d + [x])) % MODULUS
  {
    hide Sum, WeightedSum;
    SumsMore(d, x);
    AddMod(1 + Sum(d), x as int);
    var w, s := |d| + WeightedSum(d, |d|), 1 + Sum(d + [x]);
    AddMod(w, s);
    AddMod(s, w % MODULUS);
  }

  // --- the stream ------------------------------------------------------------------------------------

  function HighFirst(v: nat): (b: seq<byte>)
    ensures |b| == 4
  {
    [v / 0x100_0000 % 256, v / 0x1_0000 % 256, v / 256 % 256, v % 256]
  }

  function LowFirst(v: nat): (b: seq<byte>)
    ensures |b| == 4
  {
    [v % 256, v / 256 % 256, v / 256 / 256 % 256, v / 256 / 256 / 256 % 256]
  }

  /** A stored block: BFINAL, LEN and its complement, the data. */
  function Block(last: bool, data: seq<byte>): seq<byte> {
    var n := |data| % 0x1_0000;
    BlockHead(last, n) + data
  }

  function BlockHead(last: bool, n: nat): seq<byte>
    requires n < 0x1_0000
  {
    [if last then 1 else 0, n % 256, n / 256, 255 - n % 256, 255 - n / 256]
  }

  /** The payload of the chunk that carries file[at..at + n]. */
  function Payload(file: seq<byte>, at: nat, n: nat): seq<byte>
    requires at + n <= |file|
  {
    (if at == 0 then [0x78, 0x01] else []) + Block(at + n == |file|, file[at..at + n]) +
    (if at + n == |file| then HighFirst(Adler32(file)) else [])
  }

  /** All chunks from `at` on. */
  function Chunks(file: seq<byte>, at: nat): (c: seq<seq<byte>>)
    requires at <= |file|
    decreases |file| - at
  {
    if at == |file| then []
    else
      var n := if |file| - at > BLOCK_DATA then BLOCK_DATA else |file| - at;
      [Payload(file, at, n)] + Chunks(file, at + n)
  }

  function Concat(c: seq<seq<byte>>): seq<byte> {
    if c == [] then [] else c[0] + Concat(c[1..])
  }

  /** What goes over the connection: each chunk after its length. */
  function Framed(c: seq<seq<byte>>): seq<byte> {
    if c == [] then [] else LowFirst(|c[0]|) + c[0] + Framed(c[1..])
  }

  // --- an inflater for stored blocks --------------------------------------------------------------------

  /** The data of the stored blocks at the head of z, and what follows the final one. */
  function Inflate(z: seq<byte>): Option<(seq<byte>, seq<byte>)>
    decreases |z|
  {
    if |z| < 5 || z[0] / 2 % 4 != 0 then None
    else
      var n := z[1] as int + 256 * z[2] as int;
      if z[3] as int + 256 * z[4] as int != 0xFFFF - n || |z| < 5 + n then None
      else if z[0] % 2 == 1 then Some((z[5..5 + n], z[5 + n..]))
      else match Inflate(z[5 + n..])
        case None => None
        case Some(more) => Some((z[5..5 + n] + more.0, more.1))
  }

  /** The contents of a zlib stream of stored blocks that ends with the input. */
  function Unzlib(z: seq<byte>): Option<seq<byte>> {
    if |z| < 2 || z[0] % 16 != 8 || z[0] / 16 > 7 || (256 * z[0] as int + z[1] as int) % 31 != 0 || z[1] / 32 % 2 != 0 then None
    else match Inflate(z[2..])
      case None => None
      case Some(got) => if got.1 == HighFirst(Adler32(got.0)) then Some(got.0) else None
  }

  lemma BlockInflates(last: bool, data: seq<byte>, rest: seq<byte>)
    requires |data| <= BLOCK_DATA
    ensures var z := Block(last, data) + rest;
            Inflate(z) == if last then Some((data, rest))
                          else match Inflate(rest) case None => None case Some(more) => Some((data + more.0, more.1))
  {
    var z := Block(last, data) + rest;
    var n := |data|;
    assert z[1] as int + 256 * z[2] as int == n;
    assert z[3] as int + 256 * z[4] as int == 0xFFFF - n;
    assert z[5..5 + n] == data && z[5 + n..] == rest;
  }

  lemma {:induction false} ChunksConcat(file: seq<byte>, at: nat)
    requires at < |file|
    ensures Concat(Chunks(file, at)) == (if at == 0 then [0x78, 0x01] else []) + BlocksFrom(file, at)
    decreases |file| - at
  {
    hide Adler32, HighFirst, Block;
    var n := if |file| - at > BLOCK_DATA then BLOCK_DATA else |file| - at;
    var c := Chunks(file, at);
    assert c[0] == Payload(file, at, n) && c[1..] == Chunks(file, at + n);
    var head, block := if at == 0 then [0x78, 0x01] else [], Block(at + n == |file|, file[at..at + n]);
    if at + n == |file| {
      assert Concat(c[1..]) == [];
      ConcatAssoc(head, block, HighFirst(Adler32(file)));
      assert Payload(file, at, n) + [] == Payload(file, at, n);
    } else {
      ChunksConcat(file, at + n);
      assert Payload(file, at, n) == head + block + [];
      assert head + block + [] == head + block;
      assert [] + BlocksFrom(file, at + n) == BlocksFrom(file, at + n);
      ConcatAssoc(head, block, BlocksFrom(file, at + n));
    }
  }

  /** The blocks from `at` on hold the rest of the file, only the last being final. */
  lemma {:induction false} BlocksInflate(file: seq<byte>, at: nat)
    requires at < |file|
    ensures Inflate(BlocksFrom(file, at)) == Some((file[at..], HighFirst(Adler32(file))))
    decreases |file| - at
  {
    hide Inflate, Adler32, HighFirst, Block;
    var n := if |file| - at > BLOCK_DATA then BLOCK_DATA else |file| - at;
    var data := file[at..at + n];
    if at + n == |file| {
      BlockInflates(true, data, HighFirst(Adler32(file)));
      assert data == file[at..];
    } else {
      BlocksInflate(file, at + n);
      BlockInflates(false, data, BlocksFrom(file, at + n));
      assert data + file[at + n..] == file[at..];
    }
  }

  /** The stored blocks from `at` on and the checksum. */
  function BlocksFrom(file: seq<byte>, at: nat): seq<byte>
    requires at <= |file|
    decreases |file| - at
  {
    if at == |file| then []
    else
      var n := if |file| - at > BLOCK_DATA then BLOCK_DATA else |file| - at;
      Block(at + n == |file|, file[at..at + n]) + (if at + n == |file| then HighFirst(Adler32(file)) else BlocksFrom(file, at + n))
  }

  /** The payloads of the chunks make one zlib stream that inflates to the file. */
  lemma {:induction false} StreamInflates(file: seq<byte>)
    requires file != []
    ensures Unzlib(Concat(Chunks(file, 0))) == Some(file)
  {
    hide Inflate, Adler32, HighFirst, BlocksFrom, Chunks;
    ChunksConcat(file, 0);
    BlocksInflate(file, 0);
    var z := Concat(Chunks(file, 0));
    assert z[2..] == BlocksFrom(file, 0);
    assert file[0..] == file;
    assert (256 * 0x78 + 0x01) % 31 == 0;
  }

  /** Every chunk fits the receiver's buffer. */
  lemma {:induction false} ChunksFit(file: seq<byte>, at: nat)
    requires at <= |file|
    ensures forall k :: 0 <= k < |Chunks(file, at)| ==> 0 < |Chunks(file, at)[k]| <= 16384
    decreases |file| - at
  {
    hide Adler32, HighFirst;
    if at < |file| {
      var n := if |file| - at > BLOCK_DATA then BLOCK_DATA else |file| - at;
      ChunksFit(file, at + n);
    }
  }

  /** The receiver reads a length, then that many bytes. */
  function Unframe(s: seq<byte>): Option<seq<seq<byte>>>
    decreases |s|
  {
    if s == [] then Some([])
    else if |s| < 4 then None
    else
      var n := s[0] as int + 256 * (s[1] as int + 256 * (s[2] as int + 256 * s[3] as int));
      if |s| < 4 + n then None
      else match Unframe(s[4 + n..])
        case None => None
        case Some(more) => Some([s[4..4 + n]] + more)
  }

  lemma {:induction false} FramedReads(c: seq<seq<byte>>)
    requires forall k :: 0 <= k < |c| ==> |c[k]| < 0x1_0000_0000
    ensures Unframe(Framed(c)) == Some(c)
    decreases |c|
  {
    hide Unframe, LowFirst;
    if c == [] {
      NothingUnframed();
    } else {
      FramedReads(c[1..]);
      UnframeOne(c[0], Framed(c[1..]));
      assert [c[0]] + c[1..] == c;
    }
  }

  lemma NothingUnframed()
    ensures Unframe([]) == Some([])
  {
  }

  lemma UnframeOne(chunk: seq<byte>, rest: seq<byte>)
    requires |chunk| < 0x1_0000_0000
    ensures Unframe(LowFirst(|chunk|) + chunk + rest) == match Unframe(rest)
      case None => None
      case Some(more) => Some([chunk] + more)
  {
    hide LowFirst;
    var n := |chunk|;
    var le := LowFirst(n);
    var s := le + chunk + rest;
    LittleEndian(n);
    assert s[0] == le[0] && s[1] == le[1] && s[2] == le[2] && s[3] == le[3];
    assert s[4..4 + n] == chunk && s[4 + n..] == rest;
  }

  lemma LittleEndian(n: nat)
    requires n < 0x1_0000_0000
    ensures var b := LowFirst(n); b[0] as int + 256 * (b[1] as int + 256 * (b[2] as int + 256 * b[3] as int)) == n
  {
    var n1 := n / 256;
    var n2 := n1 / 256;
    var n3 := n2 / 256;
    assert n == 256 * n1 + n % 256 && n1 == 256 * n2 + n1 % 256 && n2 == 256 * n3 + n2 % 256;
    assert n3 < 256;
    DivModUnique(n3, 256, 0, n3);
  }

  // --- send_stream -----------------------------------------------------------------------------------------

  const NRO_BUF_SIZE: nat := 0x4000

  /** Bytes stored from pos on. */
  method Store(buf: array<byte>, pos: nat, bytes: seq<byte>) returns (next: nat)
    requires pos + |bytes| <= buf.Length
    modifies buf
    ensures next == pos + |bytes| && buf[..next] == old(buf[..pos]) + bytes
  {
    forall k | 0 <= k < |bytes| { buf[pos + k] := bytes[k]; }
    next := pos + |bytes|;
  }

  /** The running checksum over one block. */
  method UpdateAdler(a0: nat, b0: nat, data: seq<byte>, ghost before: seq<byte>) returns (a: nat, b: nat)
    requires a0 == AdlerA(before) && b0 == AdlerB(before)
    ensures a == AdlerA(before + data) && b == AdlerB(before + data)
  {
    hide AdlerA, AdlerB;
    a, b := a0, b0;
    assert before + data[..0] == before;
    for i := 0 to |data|
      invariant a == AdlerA(before + data[..i]) && b == AdlerB(before + data[..i])
    {
      AdlerStep(before + data[..i], data[i]);
      assert before + data[..i + 1] == before + data[..i] + [data[i]];
      a := (a + data[i]) % MODULUS;
      b := (b + a) % MODULUS;
    }
    assert data[..|data|] == data;
  }

  lemma HeadLength(last: bool, n: nat)
    requires n < 0x1_0000
    ensures |BlockHead(last, n)| == 5
  {
  }

  /** A stored block from pos on. */
  method PutBlock(buf: array<byte>, pos: nat, last: bool, data: seq<byte>) returns (next: nat)
    requires |data| <= BLOCK_DATA && pos + 5 + |data| <= buf.Length
    modifies buf
    ensures next == pos + 5 + |data| && buf[..next] == old(buf[..pos]) + Block(last, data)
  {
    hide BlockHead;
    var head := BlockHead(last, |data|);
    assert |head| == 5 by { HeadLength(last, |data|); }
    ghost var before := buf[..pos];
    next := Store(buf, pos, head);
    next := Store(buf, next, data);
    ConcatAssoc(before, head, data);
  }

  /** The zlib header on the first chunk, a block, the checksum on the last one. */
  method PutPayload(buf: array<byte>, ghost file: seq<byte>, size: nat, data: seq<byte>, at: nat, sum: nat) returns (next: nat)
    requires buf.Length == NRO_BUF_SIZE && |file| == size && 0 < |data| <= BLOCK_DATA && at + |data| <= size
    requires data == file[at..at + |data|] && (at + |data| == size ==> sum == Adler32(file))
    modifies buf
    ensures 4 <= next <= buf.Length && buf[..next] == old(buf[..4]) + Payload(file, at, |data|)
  {
    hide Adler32, HighFirst, Block;
    var last := at + |data| == size;
    var pos := 4;
    ghost var h := buf[..4];
    ghost var head: seq<byte> := if at == 0 then [0x78, 0x01] else [];
    assert h + [] == h;
    if at == 0 {
      pos := Store(buf, pos, [0x78, 0x01]);
    }
    next := PutBlock(buf, pos, last, data);
    ghost var block := Block(last, data);
    ConcatAssoc(h, head, block);
    if last {
      next := Store(buf, next, HighFirst(sum));
      ConcatAssoc(h, head + block, HighFirst(sum));
    } else {
      assert head + block + [] == head + block;
    }
  }

  /** One chunk into the buffer, its length in front. */
  method FillChunk(buf: array<byte>, ghost file: seq<byte>, size: nat, data: seq<byte>, at: nat, a0: nat, b0: nat)
    returns (total: nat, a: nat, b: nat)
    requires buf.Length == NRO_BUF_SIZE && |file| == size && 0 < |data| <= BLOCK_DATA && at + |data| <= size
    requires data == file[at..at + |data|] && a0 == AdlerA(file[..at]) && b0 == AdlerB(file[..at])
    modifies buf
    ensures total <= buf.Length && buf[..total] == LowFirst(|Payload(file, at, |data|)|) + Payload(file, at, |data|)
    ensures a == AdlerA(file[..at + |data|]) && b == AdlerB(file[..at + |data|])
  {
    hide AdlerA, AdlerB, LowFirst, Payload;
    a, b := UpdateAdler(a0, b0, data, file[..at]);
    assert file[..at] + data == file[..at + |data|];
    if at + |data| == size { assert file[..at + |data|] == file; }
    total := PutPayload(buf, file, size, data, at, b * 0x1_0000 + a);
    ghost var payload, rest := Payload(file, at, |data|), buf[4..];
    assert rest[..total - 4] == buf[..total][4..] == payload;
    SetLength(buf, total - 4);
    assert buf[4..total] == buf[4..][..total - 4] == payload;
    assert buf[..total] == buf[..4] + buf[4..total];
  }

  method SetLength(buf: array<byte>, v: nat)
    requires buf.Length >= 4
    modifies buf
    ensures buf[..4] == LowFirst(v) && buf[4..] == old(buf[4..])
  {
    hide LowFirst;
    var le := LowFirst(v);
    buf[0], buf[1], buf[2], buf[3] := le[0], le[1], le[2], le[3];
  }

  lemma EmptyAdler()
    ensures AdlerA([]) == 1 && AdlerB([]) == 0
  {
  }

  /** The file as announced: its contents, zeros where it is shorter than that. */
  ghost function Announced(content: seq<byte>, size: nat): (file: seq<byte>)
    ensures |file| == size
  {
    if size <= |content| then content[..size] else content + seq(size - |content|, _ => 0)
  }

  /** send_stream: `size` bytes of a file that may hold fewer, over a connection that accepts
      `writes` chunks. It succeeds exactly if the file is that long and all its chunks are accepted;
      they are then what has been sent. */
  method SendStream(content: seq<byte>, size: nat, writes: nat, buf: array<byte>) returns (ok: bool, sent: seq<byte>)
    requires buf.Length == NRO_BUF_SIZE
    modifies buf
    ensures ok <==> size <= |content| && |Chunks(content[..size], 0)| <= writes
    ensures ok ==> sent == Framed(Chunks(content[..size], 0))
  {
    hide AdlerA, AdlerB, Payload, LowFirst, Framed;
    ghost var file := Announced(content, size);
    var at: nat, a: nat, b: nat, k: nat := 0, 1, 0, 0;
    sent := [];
    EmptyAdler();
    assert file[..0] == [];
    NothingSent(Chunks(file, 0));
    while at < size
      invariant at <= size && at <= |content| && k <= writes
      invariant a == AdlerA(file[..at]) && b == AdlerB(file[..at])
      invariant sent + Framed(Chunks(file, at)) == Framed(Chunks(file, 0)) && k + |Chunks(file, at)| == |Chunks(file, 0)|
    {
      var n := if size - at > BLOCK_DATA then BLOCK_DATA else size - at;
      if at + n > |content| {
        return false, sent; // reading the file failed
      }
      assert content[at..at + n] == file[at..at + n];
      var total;
      total, a, b := FillChunk(buf, file, size, content[at..at + n], at, a, b);
      FramedFirst(Chunks(file, at));
      if k == writes {
        return false, sent; // connection lost
      }
      ghost var before := sent;
      sent := sent + buf[..total];
      ConcatAssoc(before, buf[..total], Framed(Chunks(file, at + n)));
      k := k + 1;
      at := at + n;
    }
    assert Chunks(file, at) == [];
    NothingSent([]);
    assert sent + [] == sent;
    ok := true;
  }

  lemma FramedFirst(c: seq<seq<byte>>)
    requires c != []
    ensures Framed(c) == LowFirst(|c[0]|) + c[0] + Framed(c[1..])
  {
  }

  lemma NothingSent(c: seq<seq<byte>>)
    ensures [] + Framed(c) == Framed(c) && Framed([]) == []
  {
  }

  /** For every non-empty file: the receiver gets, in chunks that fit its buffer, one valid zlib
      stream that inflates to the file. */
  lemma {:induction false} SentIsFile(file: seq<byte>)
    requires file != []
    ensures match Unframe(Framed(Chunks(file, 0)))
            case None => false
            case Some(c) => (forall k :: 0 <= k < |c| ==> 0 < |c[k]| <= ZLIB_CHUNK) && Unzlib(Concat(c)) == Some(file)
  {
    hide Unframe, Framed, Unzlib, Chunks;
    ChunksFit(file, 0);
    FramedReads(Chunks(file, 0));
    StreamInflates(file);
  }
}
