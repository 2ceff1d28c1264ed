/** A band's sample planes: idct_store's writes and box_avg's reads. */
module Planes {
  import opened Bits

  function RowSum(p: seq<byte>, a: nat, b: nat): (s: nat)
    requires a <= b <= |p|
    ensures s <= 255 * (b - a)
  {
    if a == b then 0 else RowSum(p, a, b - 1) + p[b - 1]
  }

  /** Where row y of a plane starts; a row inside the plane ends inside it. */
  lemma RowInside(y: nat, rows: nat, stride: nat)
    requires y < rows
    ensures y * stride + stride <= rows * stride
  {
    MulGrows(rows - y, stride);
    MulDistrib(rows, y, stride);
  }

  /** A plane of `rows` rows of `stride` samples. */
  predicate Shaped(p: seq<byte>, stride: nat, rows: nat) {
    |p| == rows * stride
  }

  /** The sum of the samples in columns x0..x1 of rows y0..y1. */
  function BoxSum(p: seq<byte>, stride: nat, rows: nat, x0: nat, x1: nat, y0: nat, y1: nat): (s: nat)
    requires Shaped(p, stride, rows) && x0 <= x1 <= stride && y0 <= y1 <= rows
    ensures s <= 255 * ((x1 - x0) * (y1 - y0))
    decreases y1
  {
    if y0 == y1 then 0
    else
      RowInside(y1 - 1, rows, stride);
      BoxArith(x1 - x0, y1 - y0);
      BoxSum(p, stride, rows, x0, x1, y0, y1 - 1) + RowSum(p, (y1 - 1) * stride + x0, (y1 - 1) * stride + x1)
  }

  lemma BoxArith(w: nat, h: nat)
    requires h > 0
    ensures w * h == w * (h - 1) + w
  {
  }

  /** The rounded mean of the samples in a box. */
  function BoxAvg(p: seq<byte>, stride: nat, rows: nat, x0: nat, x1: nat, y0: nat, y1: nat): (r: byte)
    requires Shaped(p, stride, rows) && x0 < x1 <= stride && y0 < y1 <= rows
  {
    var n := (x1 - x0) * (y1 - y0);
    MulGrows(y1 - y0, x1 - x0);
    MeanIsByte(BoxSum(p, stride, rows, x0, x1, y0, y1), n);
    (BoxSum(p, stride, rows, x0, x1, y0, y1) + n / 2) / n
  }

  lemma MeanIsByte(sum: nat, n: nat)
    requires n > 0 && sum <= 255 * n
    ensures 0 <= (sum + n / 2) / n < 256
  {
    var q := (sum + n / 2) / n;
    assert sum + n / 2 == q * n + (sum + n / 2) % n;
    MulDistrib(q, 255, n);
    if q >= 256 {
      MulGrows(q - 255, n);
    }
  }

  /** box_avg's loops. */
  method AverageBox(plane: array<byte>, stride: nat, rows: nat, x0: nat, x1: nat, y0: nat, y1: nat) returns (r: byte)
    requires plane.Length == rows * stride && x0 < x1 <= stride && y0 < y1 <= rows
    ensures r == BoxAvg(plane[..], stride, rows, x0, x1, y0, y1)
  {
    ghost var p := plane[..];
    var sum := 0;
    for y := y0 to y1
      invariant sum == BoxSum(p, stride, rows, x0, x1, y0, y)
    {
      RowInside(y, rows, stride);
      var row := y * stride;
      ghost var before := sum;
      for x := x0 to x1
        invariant sum == before + RowSum(p, row + x0, row + x)
      {
        sum := sum + plane[row + x];
      }
    }
    var n := (x1 - x0) * (y1 - y0);
    MulGrows(y1 - y0, x1 - x0);
    MeanIsByte(sum, n);
    r := (sum + n / 2) / n;
  }

  // --- storing blocks -----------------------------------------------------------------

  /** Eight samples written at `at`. */
  function StoreRow(p: seq<byte>, at: nat, s: seq<byte>): (r: seq<byte>)
    requires |s| == 8 && at + 8 <= |p|
    ensures |r| == |p|
  {
    p[..at] + s + p[at + 8..]
  }

  /** The first n rows of an 8x8 block written with its top left sample at column x, row y. */
  function Store(p: seq<byte>, stride: nat, rows: nat, x: nat, y: nat, s: seq<byte>, n: nat): (r: seq<byte>)
    requires Shaped(p, stride, rows) && |s| == 64 && n <= 8 && x + 8 <= stride && y + n <= rows
    ensures Shaped(r, stride, rows)
  {
    if n == 0 then p
    else
      RowInside(y + n - 1, rows, stride);
      StoreRow(Store(p, stride, rows, x, y, s, n - 1), (y + n - 1) * stride + x, s[8 * (n - 1)..8 * n])
  }

  /** The sample at column x, row y. */
  function At(p: seq<byte>, stride: nat, rows: nat, x: nat, y: nat): byte
    requires Shaped(p, stride, rows) && x < stride && y < rows
  {
    RowInside(y, rows, stride);
    p[y * stride + x]
  }

  /** Row r's columns x..x + 8 hold exactly the indices of those coordinates. */
  lemma InStoredRow(stride: nat, x: nat, r: nat, px: nat, py: nat)
    requires x + 8 <= stride && px < stride
    ensures r * stride + x <= py * stride + px < r * stride + x + 8 <==> py == r && x <= px < x + 8
  {
    MulDistrib(py, r, stride);
    MulDistrib(r, py, stride);
    if py < r {
      MulGrows(r - py, stride);
    } else if py > r {
      MulGrows(py - r, stride);
    }
  }

  lemma StoreRowChanges(p: seq<byte>, stride: nat, rows: nat, x: nat, r: nat, at: nat, s: seq<byte>, px: nat, py: nat)
    requires Shaped(p, stride, rows) && |s| == 8 && x + 8 <= stride && r < rows && px < stride && py < rows
    requires at == r * stride + x && at + 8 <= |p|
    ensures At(StoreRow(p, at, s), stride, rows, px, py) ==
            if py == r && x <= px < x + 8 then s[px - x] else At(p, stride, rows, px, py)
  {
    RowInside(py, rows, stride);
    InStoredRow(stride, x, r, px, py);
    SameRow(stride, x, r, at, px, py);
    StoreRowAt(p, at, s, py * stride + px);
  }

  lemma SameRow(stride: nat, x: nat, r: nat, at: nat, px: nat, py: nat)
    requires at == r * stride + x
    ensures py == r ==> py * stride + px - at == px - x
  {
  }

  /** Storing a block changes exactly its samples. */
  lemma {:induction false} StoreAt(p: seq<byte>, stride: nat, rows: nat, x: nat, y: nat, s: seq<byte>, n: nat, px: nat, py: nat)
    requires Shaped(p, stride, rows) && |s| == 64 && n <= 8 && x + 8 <= stride && y + n <= rows
    requires px < stride && py < rows
    ensures At(Store(p, stride, rows, x, y, s, n), stride, rows, px, py) ==
            if x <= px < x + 8 && y <= py < y + n then s[8 * (py - y) + (px - x)] else At(p, stride, rows, px, py)
  {
    hide At, StoreRow;
    if n > 0 {
      StoreAt(p, stride, rows, x, y, s, n - 1, px, py);
      RowInside(y + n - 1, rows, stride);
      var before := Store(p, stride, rows, x, y, s, n - 1);
      StoreRowChanges(before, stride, rows, x, y + n - 1, (y + n - 1) * stride + x, s[8 * (n - 1)..8 * n], px, py);
    }
  }

  lemma StoreRowAt(p: seq<byte>, at: nat, s: seq<byte>, j: nat)
    requires |s| == 8 && at + 8 <= |p| && j < |p|
    ensures StoreRow(p, at, s)[j] == if at <= j < at + 8 then s[j - at] else p[j]
  {
  }

  /** Eight samples of a row into the plane. */
  method StoreSamples(plane: array<byte>, at: nat, s: seq<byte>)
    requires |s| == 8 && at + 8 <= plane.Length
    modifies plane
    ensures plane[..] == StoreRow(old(plane[..]), at, s)
  {
    ghost var before := plane[..];
    for j := 0 to 8
      invariant plane[..] == before[..at] + s[..j] + before[at + j..]
    {
      plane[at + j] := s[j];
      assert s[..j + 1] == s[..j] + [s[j]];
    }
  }

  /** idct_store's copy of the 64 samples into the plane. */
  method StoreBlock(plane: array<byte>, stride: nat, rows: nat, x: nat, y: nat, s: seq<byte>)
    requires plane.Length == rows * stride && |s| == 64 && x + 8 <= stride && y + 8 <= rows
    modifies plane
    ensures plane[..] == Store(old(plane[..]), stride, rows, x, y, s, 8)
  {
    hide StoreRow;
    for i := 0 to 8
      invariant plane[..] == Store(old(plane[..]), stride, rows, x, y, s, i)
    {
      RowInside(y + i, rows, stride);
      StoreSamples(plane, (y + i) * stride + x, s[8 * i..8 * (i + 1)]);
    }
  }
}
