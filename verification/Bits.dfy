/** Bit strings, most significant bit first, and the numbers they spell. */
module Bits {
  type byte = b: int | 0 <= b < 256

  function Pow2(n: nat): (p: nat)
    ensures p > 0
  {
    if n == 0 then 1 else 2 * Pow2(n - 1)
  }

  /** The number a bit string spells. */
  function ValueOf(s: seq<bool>): (v: nat)
    ensures v < Pow2(|s|)
  {
    if s == [] then 0
    else 2 * ValueOf(s[..|s| - 1]) + (if s[|s| - 1] then 1 else 0)
  }

  /** The low n bits of v. */
  function BitsOf(v: nat, n: nat): (s: seq<bool>)
    ensures |s| == n
  {
    if n == 0 then [] else BitsOf(v / 2, n - 1) + [v % 2 == 1]
  }

  function Zeros(n: nat): (s: seq<bool>)
    ensures |s| == n && forall i :: 0 <= i < n ==> !s[i]
  {
    seq(n, i => false)
  }

  /** The first n bits of a stream that continues with zeros past its end. */
  function Take(s: seq<bool>, n: nat): (t: seq<bool>)
    ensures |t| == n
  {
    if n <= |s| then s[..n] else s + Zeros(n - |s|)
  }

  /** What is left of such a stream after n bits. */
  function Drop(s: seq<bool>, n: nat): (t: seq<bool>) {
    if n <= |s| then s[n..] else []
  }

  function Be16(b: seq<byte>, i: nat): nat
    requires i + 1 < |b|
  {
    (b[i] as int) * 256 + b[i + 1] as int
  }

  function Min(a: int, b: int): int {
    if a < b then a else b
  }

  function Quotient(a: nat, b: nat): nat
    requires b > 0
  {
    a / b
  }

  lemma ConcatAssoc<T>(a: seq<T>, b: seq<T>, c: seq<T>)
    ensures a + (b + c) == a + b + c
  {
  }

  lemma MulGrows(k: int, m: nat)
    requires k >= 1
    ensures k * m >= m
  {
    assert (k - 1) * m >= 0;
    assert k * m == (k - 1) * m + m;
  }

  lemma MulCommutes(a: int, b: int)
    ensures a * b == b * a
  {
  }

  lemma MulTwice(a: int, b: int)
    ensures 2 * (a * b) == a * (2 * b)
  {
  }

  lemma MulDistrib(a: int, b: int, m: int)
    ensures a * m - b * m == (a - b) * m
  {
  }

  /** x = q * m + r with r below m determines quotient and remainder. */
  lemma DivModUnique(x: int, m: int, q: int, r: int)
    requires m > 0 && 0 <= r < m && x == q * m + r
    ensures x / m == q && x % m == r
  {
    var q', r' := x / m, x % m;
    assert x == q' * m + r' && 0 <= r' < m;
    MulDistrib(q, q', m);
    MulDistrib(q', q, m);
    if q' < q {
      MulGrows(q - q', m);
    } else if q' > q {
      MulGrows(q' - q, m);
    }
  }

  lemma {:induction false} Pow2Add(a: nat, b: nat)
    ensures Pow2(a + b) == Pow2(a) * Pow2(b)
  {
    if b != 0 {
      Pow2Add(a, b - 1);
      assert Pow2(a) * Pow2(b) == 2 * (Pow2(a) * Pow2(b - 1));
    }
  }

  lemma Pow2Values()
    ensures Pow2(8) == 256 && Pow2(16) == 0x1_0000 && Pow2(24) == 0x100_0000 && Pow2(32) == 0x1_0000_0000
  {
    assert Pow2(4) == 16;
    Pow2Add(4, 4);
    Pow2Add(8, 8);
    Pow2Add(16, 8);
    Pow2Add(16, 16);
  }

  lemma {:induction false} Pow2Mono(a: nat, b: nat)
    requires a <= b
    ensures Pow2(a) <= Pow2(b)
  {
    if a < b { Pow2Mono(a, b - 1); }
  }

  lemma {:induction false} ValueOfConcat(a: seq<bool>, b: seq<bool>)
    ensures ValueOf(a + b) == ValueOf(a) * Pow2(|b|) + ValueOf(b)
  {
    if b == [] {
      assert a + b == a;
    } else {
      var b' := b[..|b| - 1];
      assert (a + b)[..|a + b| - 1] == a + b';
      ValueOfConcat(a, b');
      var x, p := ValueOf(a), Pow2(|b'|);
      assert Pow2(|b|) == 2 * p;
      MulTwice(x, p);
      var ab := a + b;
      assert ab[|ab| - 1] == b[|b| - 1];
      assert ValueOf(ab) == 2 * ValueOf(a + b') + (if b[|b| - 1] then 1 else 0);
    }
  }

  lemma {:induction false} ValueOfZeros(n: nat)
    ensures ValueOf(Zeros(n)) == 0
  {
    if n > 0 {
      assert Zeros(n)[..n - 1] == Zeros(n - 1);
      ValueOfZeros(n - 1);
    }
  }

  lemma ModDouble(v: nat, p: nat)
    requires p > 0
    ensures v % (2 * p) == 2 * (v / 2 % p) + v % 2
  {
    var h := v / 2;
    var q, r := h / p, h % p;
    assert h == q * p + r;
    MulTwice(q, p);
    assert v == 2 * h + v % 2;
    assert v == q * (2 * p) + (2 * r + v % 2);
    DivModUnique(v, 2 * p, q, 2 * r + v % 2);
  }

  lemma {:induction false} ValueOfBitsOf(v: nat, n: nat)
    ensures ValueOf(BitsOf(v, n)) == v % Pow2(n)
  {
    if n > 0 {
      ValueOfBitsOf(v / 2, n - 1);
      ModDouble(v, Pow2(n - 1));
      assert BitsOf(v, n)[..n - 1] == BitsOf(v / 2, n - 1);
    }
  }

  lemma {:induction false} BitsOfValueOf(s: seq<bool>)
    ensures BitsOf(ValueOf(s), |s|) == s
  {
    if s != [] {
      BitsOfValueOf(s[..|s| - 1]);
      assert s == s[..|s| - 1] + [s[|s| - 1]];
    }
  }

  /** Equal lengths and equal values: the same bit string. */
  lemma ValueInjective(a: seq<bool>, b: seq<bool>)
    requires |a| == |b| && ValueOf(a) == ValueOf(b)
    ensures a == b
  {
    BitsOfValueOf(a);
    BitsOfValueOf(b);
  }

  /** The top bits of a value: dropping n low bits is dividing by 2^n. */
  lemma ValueOfPrefix(s: seq<bool>, k: nat)
    requires k <= |s|
    ensures ValueOf(s[..k]) == ValueOf(s) / Pow2(|s| - k)
    ensures ValueOf(s[k..]) == ValueOf(s) % Pow2(|s| - k)
  {
    assert s == s[..k] + s[k..];
    ValueOfConcat(s[..k], s[k..]);
    DivModUnique(ValueOf(s), Pow2(|s| - k), ValueOf(s[..k]), ValueOf(s[k..]));
  }

  lemma TakeDropPrefix(s: seq<bool>, a: seq<bool>, rest: seq<bool>)
    requires s == a + rest
    ensures Take(s, |a|) == a && Drop(s, |a|) == rest
  {
  }

  /** Reading one more bit of a stream. */
  lemma TakeOneMore(s: seq<bool>, l: nat)
    ensures ValueOf(Take(s, l + 1)) == 2 * ValueOf(Take(s, l)) + ValueOf(Take(Drop(s, l), 1))
    ensures Drop(Drop(s, l), 1) == Drop(s, l + 1)
  {
    TakeTake(s, l, 1);
    ValueOfConcat(Take(s, l), Take(Drop(s, l), 1));
    assert Pow2(1) == 2 * Pow2(0);
  }

  lemma TakeTake(s: seq<bool>, m: nat, n: nat)
    ensures Take(s, m + n) == Take(s, m) + Take(Drop(s, m), n)
    ensures Drop(s, m + n) == Drop(Drop(s, m), n)
  {
  }
}
