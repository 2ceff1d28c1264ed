/** json_fmt_fixed of json.c: a double in decimal, rounded half to even from its exact value. */
module FixedDecimal {
  import opened Bits

  function Pow10(n: nat): (p: nat)
    ensures p > 0
  {
    if n == 0 then 1 else 10 * Pow10(n - 1)
  }

  /** n is p / 2^shift rounded to the nearest integer, a tie to the even one. */
  ghost predicate Rounds(n: nat, p: nat, shift: int) {
    if shift <= 0 then n == p * Pow2(-shift)
    else
      var q := Pow2(shift);
      2 * (n * q - p) <= q && 2 * (p - n * q) <= q &&
      ((2 * (n * q - p) == q || 2 * (p - n * q) == q) ==> n % 2 == 0)
  }

  /** The rounding is unique. */
  lemma {:induction false} RoundsUnique(n: nat, m: nat, p: nat, shift: int)
    requires Rounds(n, p, shift) && Rounds(m, p, shift)
    ensures n == m
  {
    if shift > 0 {
      var q := Pow2(shift);
      if n < m {
        CloseTogether(n, m, p, q);
      } else if m < n {
        CloseTogether(m, n, p, q);
      }
    }
  }

  /** Two candidates around p: one is at most half a step below and the next half a step above. */
  lemma CloseTogether(n: nat, m: nat, p: nat, q: nat)
    requires q > 0 && n < m && 2 * (p - n * q) <= q && 2 * (m * q - p) <= q
    ensures m == n + 1 && 2 * (p - n * q) == q && 2 * (m * q - p) == q
  {
    MulDistrib(m, n, q);
    MulDistrib(m - n, 1, q);
    MulGrows(m - n, q);
    if m - n >= 2 {
      MulGrows(m - n - 1, q);
    }
  }

  /** The fields of a double. */
  datatype Double = Double(negative: bool, exponent: nat, fraction: nat) {
    predicate Valid() {
      exponent < 2048 && fraction < 0x10_0000_0000_0000
    }

    predicate Finite() {
      exponent < 2047
    }

    /** A finite double is mantissa / 2^shift. */
    function Mantissa(): nat {
      if exponent != 0 then fraction + 0x10_0000_0000_0000 else fraction
    }

    function Shift(): int {
      1075 - (if exponent != 0 then exponent else 1)
    }
  }

  /** The double's magnitude times `scale` is below 2^63. */
  predicate InRange(d: Double, scale: nat) {
    if d.Shift() <= 0 then d.Mantissa() * scale * Pow2(-d.Shift()) < 0x8000_0000_0000_0000
    else d.Mantissa() * scale < 0x8000_0000_0000_0000 * Pow2(d.Shift())
  }

  // --- decimal text ----------------------------------------------------------------------------

  function DigitChar(n: nat): char
    requires n < 10
  {
    (n + '0' as int) as char
  }

  function Decimal(n: nat): (s: string)
    ensures s != ""
  {
    if n < 10 then [DigitChar(n)] else Decimal(n / 10) + [DigitChar(n % 10)]
  }

  /** n in exactly d digits, zeros in front. */
  function Padded(n: nat, d: nat): (s: string)
    ensures |s| == d
  {
    if d == 0 then "" else Padded(n / 10, d - 1) + [DigitChar(n % 10)]
  }

  predicate Digits(s: string) {
    forall i :: 0 <= i < |s| ==> '0' <= s[i] <= '9'
  }

  function ValueOfDigits(s: string): nat
    requires Digits(s)
  {
    if s == "" then 0 else 10 * ValueOfDigits(s[..|s| - 1]) + (s[|s| - 1] as int - '0' as int)
  }

  lemma {:induction false} DecimalValue(n: nat)
    ensures Digits(Decimal(n)) && ValueOfDigits(Decimal(n)) == n
  {
    if n < 10 {
      assert [DigitChar(n)][..0] == "";
    } else {
      DecimalValue(n / 10);
      var s := Decimal(n);
      assert s[..|s| - 1] == Decimal(n / 10);
    }
  }

  lemma {:induction false} PaddedValue(n: nat, d: nat)
    ensures Digits(Padded(n, d)) && ValueOfDigits(Padded(n, d)) == n % Pow10(d)
  {
    if d > 0 {
      PaddedValue(n / 10, d - 1);
      var s := Padded(n, d);
      assert s[..d - 1] == Padded(n / 10, d - 1);
      ModTen(n, Pow10(d - 1));
    } else {
      assert n % 1 == 0;
    }
  }

  lemma ModTen(n: nat, p: nat)
    requires p > 0
    ensures n % (10 * p) == 10 * (n / 10 % p) + n % 10
  {
    var h := n / 10;
    var q, r := Quotient(h, p), Remainder(h, p);
    DivSplit(h, p);
    assert n == 10 * h + n % 10;
    TenTimes(q, p, r, n % 10);
    DivModUnique(n, 10 * p, q, 10 * r + n % 10);
  }

  function Remainder(a: nat, b: nat): (r: nat)
    requires b > 0
    ensures r < b
  {
    a % b
  }

  lemma DivSplit(h: nat, p: nat)
    requires p > 0
    ensures h == Quotient(h, p) * p + Remainder(h, p)
  {
  }

  lemma TenTimes(q: nat, p: nat, r: nat, t: nat)
    ensures 10 * (q * p + r) + t == q * (10 * p) + (10 * r + t)
  {
  }

  lemma {:induction false} ValueConcat(a: string, b: string)
    requires Digits(a) && Digits(b)
    ensures Digits(a + b) && ValueOfDigits(a + b) == ValueOfDigits(a) * Pow10(|b|) + ValueOfDigits(b)
  {
    if b == "" {
      assert a + b == a;
    } else {
      var b' := b[..|b| - 1];
      assert (a + b)[..|a + b| - 1] == a + b';
      assert Digits(a + b);
      ValueConcat(a, b');
      TenPow(ValueOfDigits(a), Pow10(|b'|));
    }
  }

  lemma TenPow(v: nat, p: nat)
    ensures 10 * (v * p) == v * (10 * p)
  {
  }

  /** The text of n / 10^decimals. */
  function Fixed(negative: bool, n: nat, decimals: nat): string {
    (if negative then "-" else "") + Decimal(Quotient(n, Pow10(decimals))) +
    (if decimals > 0 then "." + Padded(Remainder(n, Pow10(decimals)), decimals) else "")
  }

  /** Sign, integer digits and exactly `decimals` digits after the point, which together spell n. */
  lemma {:induction false} FixedSpells(negative: bool, n: nat, decimals: nat)
    ensures var whole, frac := Decimal(Quotient(n, Pow10(decimals))), Padded(Remainder(n, Pow10(decimals)), decimals);
            |frac| == decimals && Digits(whole) && Digits(frac) && Digits(whole + frac) && ValueOfDigits(whole + frac) == n &&
            Fixed(negative, n, decimals) == (if negative then "-" else "") + whole + (if decimals > 0 then "." + frac else "")
  {
    hide Quotient, Remainder, Decimal, Padded, Pow10, ValueOfDigits;
    var p := Pow10(decimals);
    var q, r := Quotient(n, p), Remainder(n, p);
    DecimalValue(q);
    PaddedValue(r, decimals);
    DivModUnique(r, p, 0, r);
    ValueConcat(Decimal(q), Padded(r, decimals));
    DivSplit(n, p);
  }

  // --- json_fmt_fixed --------------------------------------------------------------------------------

  lemma Pow10Bound(d: nat)
    requires d <= 6
    ensures Pow10(d) <= 1000000
  {
    assert Pow10(6) == 10 * (10 * (10 * (10 * (10 * (10 * Pow10(0))))));
    if d < 6 { Pow10Mono(d, 6); }
  }

  lemma {:induction false} Pow10Mono(a: nat, b: nat)
    requires a <= b
    ensures Pow10(a) <= Pow10(b)
  {
    if a < b { Pow10Mono(a, b - 1); }
  }

  /** The integer part and the rounding of p / 2^shift. */
  method RoundShift(p: nat, shift: nat) returns (n: nat)
    requires shift >= 1
    ensures Rounds(n, p, shift)
  {
    hide Pow2, Quotient, Remainder, Rounds;
    HalfPow(shift);
    var q := Pow2(shift);
    n := Quotient(p, q);
    var rem, half := Remainder(p, q), Pow2(shift - 1);
    DivSplit(p, q);
    RoundsTo(n, p, shift, rem);
    if rem > half || (rem == half && n % 2 == 1) {
      n := n + 1;
    }
  }

  /** Rounding down or up, by the remainder. */
  lemma RoundsTo(n: nat, p: nat, shift: nat, rem: nat)
    requires shift >= 1 && p == n * Pow2(shift) + rem && rem < Pow2(shift)
    ensures 2 * rem < Pow2(shift) || (2 * rem == Pow2(shift) && n % 2 == 0) ==> Rounds(n, p, shift)
    ensures 2 * rem > Pow2(shift) || (2 * rem == Pow2(shift) && n % 2 == 1) ==> Rounds(n + 1, p, shift)
  {
    hide Pow2;
    NextMultiple(n, Pow2(shift));
  }

  lemma HalfPow(shift: nat)
    requires shift >= 1
    ensures Pow2(shift) == 2 * Pow2(shift - 1)
  {
  }

  lemma NextMultiple(n: nat, q: nat)
    ensures (n + 1) * q == n * q + q
  {
  }

  /** A product below 2^73 shifted right by 128 or more rounds to zero. */
  lemma TinyRoundsToZero(p: nat, shift: nat)
    requires shift >= 128 && p < 0x200_0000_0000_0000_0000
    ensures Rounds(0, p, shift)
  {
    hide Pow2;
    Pow2Mono(128, shift);
    Pow2Values();
    Pow2Add(32, 32);
    Pow2Add(64, 64);
    assert Pow2(128) == 0x1_0000_0000_0000_0000 * 0x1_0000_0000_0000_0000;
  }

  lemma ProductBound(m: nat, scale: nat)
    requires m < 0x20_0000_0000_0000 && scale <= 1000000
    ensures m * scale < 0x200_0000_0000_0000_0000
  {
    MulGrows2(m, 0x20_0000_0000_0000, scale);
  }

  lemma MulGrows2(m: nat, k: nat, scale: nat)
    requires m <= k
    ensures m * scale <= k * scale
  {
    MulDistrib(k, m, scale);
    assert (k - m) * scale >= 0;
  }

  /** For every double, infinite ones and those that are no number included: the rounded value's low
      64 bits, or all ones where the shift would reach 64. */
  ghost predicate Scaled(d: Double, scale: nat, n: nat)
    requires d.Valid()
  {
    if d.Shift() <= -64 then n == 0xFFFF_FFFF_FFFF_FFFF
    else exists m: nat :: Rounds(m, d.Mantissa() * scale, d.Shift()) && n == m % 0x1_0000_0000_0000_0000
  }

  /** The scaled integer json_fmt_fixed prints: the wide product shifted, cut to 64 bits. */
  method ScaledInteger(d: Double, scale: nat) returns (n: nat)
    requires d.Valid() && 1 <= scale <= 1000000
    ensures n < 0x1_0000_0000_0000_0000 && Scaled(d, scale, n)
    ensures d.Finite() && InRange(d, scale) ==> Rounds(n, d.Mantissa() * scale, d.Shift())
  {
    hide Pow2, Rounds;
    var mant, shift := d.Mantissa(), d.Shift();
    var p := mant * scale;
    ProductBound(mant, scale);
    if shift <= 0 {
      if shift > -64 {
        n := p * Pow2(-shift) % 0x1_0000_0000_0000_0000;
        ExactShift(n, p, shift);
        assert Rounds(p * Pow2(-shift), p, shift);
      } else {
        n := 0xFFFF_FFFF_FFFF_FFFF;
        NeverInRange(d, scale);
      }
    } else if shift >= 128 {
      n := 0;
      TinyRoundsToZero(p, shift);
    } else {
      var m := RoundShift(p, shift);
      if InRange(d, scale) {
        RoundedFits(m, p, shift);
      }
      n := m % 0x1_0000_0000_0000_0000;
    }
  }

  lemma ExactShift(n: nat, p: nat, shift: int)
    requires shift <= 0 && n == p * Pow2(-shift) % 0x1_0000_0000_0000_0000
    ensures p * Pow2(-shift) >= 0 && Rounds(p * Pow2(-shift), p, shift)
    ensures p * Pow2(-shift) < 0x8000_0000_0000_0000 ==> Rounds(n, p, shift)
  {
    hide Pow2;
  }

  /** A double of that size is out of range unless it is infinite or no number. */
  lemma NeverInRange(d: Double, scale: nat)
    requires d.Valid() && d.Shift() <= -64 && scale >= 1
    ensures !InRange(d, scale)
  {
    hide Pow2;
    Pow2Mono(64, -d.Shift());
    Pow2Values();
    Pow2Add(32, 32);
    MulGrows(d.Mantissa(), scale);
    MulGrows(d.Mantissa() * scale, Pow2(-d.Shift()));
  }

  lemma RoundedFits(n: nat, p: nat, shift: nat)
    requires shift >= 1 && Rounds(n, p, shift) && p < 0x8000_0000_0000_0000 * Pow2(shift)
    ensures n < 0x1_0000_0000_0000_0000
  {
    var q := Pow2(shift);
    if n > 0x8000_0000_0000_0000 {
      MulDistrib(n, 0x8000_0000_0000_0000, q);
      MulGrows(n - 0x8000_0000_0000_0000, q);
    }
  }

  function Clamp6(decimals: int): (d: nat)
    ensures d <= 6
  {
    if decimals < 0 then 0 else if decimals > 6 then 6 else decimals
  }

  function Cut(s: string, size: nat): (c: string)
    requires size > 0
    ensures |c| < size && c <= s && (|s| < size ==> c == s)
  {
    if |s| < size then s else s[..size - 1]
  }

  /** n is the value times 10^decimals, rounded half to even, in 64 bits: exactly that, if it is in range. */
  ghost predicate Scales(d: Double, decimals: nat, n: nat)
    requires d.Valid()
  {
    Scaled(d, Pow10(decimals), n) &&
    (d.Finite() && InRange(d, Pow10(decimals)) ==> Rounds(n, d.Mantissa() * Pow10(decimals), d.Shift()))
  }

  /** json_fmt_fixed: what snprintf leaves in a buffer of `size` bytes. */
  method FmtFixed(d: Double, decimals: int, size: nat) returns (s: string)
    requires d.Valid() && size > 0
    ensures exists n: nat :: Scales(d, Clamp6(decimals), n) && s == Cut(Fixed(d.negative, n, Clamp6(decimals)), size)
  {
    hide Pow2, Rounds, Fixed, Scaled;
    var dec := if decimals < 0 then 0 else if decimals > 6 then 6 else decimals;
    var scale: nat := 1;
    for i := 0 to dec
      invariant scale == Pow10(i)
    {
      scale := scale * 10;
    }
    Pow10Bound(dec);
    var m := ScaledInteger(d, scale);
    assert dec == Clamp6(decimals) && Scales(d, dec, m);
    s := Cut(Fixed(d.negative, m, dec), size);
  }

  // --- whole numbers ----------------------------------------------------------------------------------

  /** The double of a whole number v between 2^e and 2^(e + 1), as IEEE 754 section 3.4 lays it out: the
      exponent biased by 1023, and v's bits below the first, on top of 52. */
  function DoubleOf(negative: bool, v: nat, e: nat): (d: Double)
    requires e <= 52 && Pow2(e) <= v < Pow2(e + 1)
    ensures d.Valid()
  {
    hide Pow2;
    FractionFits(v, e);
    Double(negative, 1023 + e, (v - Pow2(e)) * Pow2(52 - e))
  }

  lemma FractionFits(v: nat, e: nat)
    requires e <= 52 && Pow2(e) <= v < Pow2(e + 1)
    ensures 0 <= (v - Pow2(e)) * Pow2(52 - e) < 0x10_0000_0000_0000
    ensures (v - Pow2(e)) * Pow2(52 - e) + 0x10_0000_0000_0000 == v * Pow2(52 - e)
  {
    var q, p := Pow2(52 - e), Pow2(e);
    assert Pow2(e + 1) == 2 * p;
    hide Pow2;
    Pow2Add(e, 52 - e);
    Fifty2();
    PartOf(v, p, q);
  }

  lemma PartOf(v: nat, p: nat, q: nat)
    requires q > 0 && p <= v < 2 * p
    ensures 0 <= (v - p) * q < p * q && (v - p) * q + p * q == v * q
  {
    MulDistrib(v, p, q);
    MulDistrib(p, v - p, q);
    MulGrows(p - (v - p), q);
    NotNegative(v - p, q);
  }

  lemma NotNegative(a: nat, b: nat)
    ensures a * b >= 0
  {
  }

  lemma Fifty2()
    ensures Pow2(52) == 0x10_0000_0000_0000
  {
    assert Pow2(4) == 16;
    hide Pow2;
    Pow2Values();
    Pow2Add(16, 4);
    Pow2Add(32, 20);
  }

  /** What is printed for a whole number is cut to 64 bits: it is right exactly if the digits fit. */
  lemma WholeScales(negative: bool, v: nat, e: nat, decimals: nat, n: nat)
    requires e <= 52 && Pow2(e) <= v < Pow2(e + 1) && Scales(DoubleOf(negative, v, e), decimals, n)
    ensures n == v * Pow10(decimals) % 0x1_0000_0000_0000_0000
    ensures n == v * Pow10(decimals) <==> v * Pow10(decimals) < 0x1_0000_0000_0000_0000
  {
    hide Pow2, Pow10, Rounds;
    var d, s := DoubleOf(negative, v, e), Pow10(decimals);
    FractionFits(v, e);
    assert d.Mantissa() == v * Pow2(52 - e) && d.Shift() == 52 - e;
    var m: nat :| Rounds(m, d.Mantissa() * s, d.Shift()) && n == m % 0x1_0000_0000_0000_0000;
    Regroup(v, Pow2(52 - e), s);
    WholeRounds(v * s, 52 - e);
    RoundsUnique(m, v * s, d.Mantissa() * s, d.Shift());
  }

  /** They need not: 2^52 is not printed as itself with six decimals. */
  lemma WholeCut(n: nat)
    requires Scales(Double(false, 1075, 0), 6, n)
    ensures n != 0x10_0000_0000_0000 * 1_000_000
  {
    assert Pow2(53) == 2 * Pow2(52);
    hide Scales, Pow2;
    Fifty2();
    assert Pow10(6) == 1_000_000;
    assert DoubleOf(false, 0x10_0000_0000_0000, 52) == Double(false, 1075, 0);
    WholeScales(false, 0x10_0000_0000_0000, 52, 6, n);
  }

  lemma Regroup(v: nat, q: nat, s: nat)
    ensures v * q * s == v * s * q && v * s >= 0
  {
  }

  lemma WholeRounds(n: nat, shift: nat)
    ensures Rounds(n, n * Pow2(shift), shift)
  {
    assert Pow2(0) == 1;
  }

  function Naughts(d: nat): (s: string)
    ensures |s| == d && forall k :: 0 <= k < d ==> s[k] == '0'
  {
    seq(d, _ => '0')
  }

  lemma {:induction false} PaddedNaughts(d: nat)
    ensures Padded(0, d) == Naughts(d)
  {
    if d > 0 {
      PaddedNaughts(d - 1);
      assert Naughts(d) == Naughts(d - 1) + ['0'];
    }
  }

  /** A whole number is printed with its digits, the point, and noughts. */
  lemma WholePrints(negative: bool, v: nat, decimals: nat)
    ensures Fixed(negative, v * Pow10(decimals), decimals)
         == (if negative then "-" else "") + Decimal(v) + (if decimals > 0 then "." + Naughts(decimals) else "")
  {
    hide Pow10, Decimal, Padded;
    DivModUnique(v * Pow10(decimals), Pow10(decimals), v, 0);
    PaddedNaughts(decimals);
  }
}
