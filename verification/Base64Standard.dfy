/** Base64 as RFC 4648 tells it: its alphabet, and three bytes to four characters. */
module Base64Standard {
  import opened Bits
  import opened Base64
  import opened Base64Coding

  const CAPITALS: string := "ABCDEFGHIJKLMNOPQRSTUVWXYZ"
  const SMALL: string := "abcdefghijklmnopqrstuvwxyz"
  const DIGITS: string := "0123456789"

  /** Table 1 of section 4. */
  function Letter(v: nat): byte
    requires v < 64
  {
    if v < 26 then CAPITALS[v] as int
    else if v < 52 then SMALL[v - 26] as int
    else if v < 62 then DIGITS[v - 52] as int
    else if v == 62 then '+' as int else '/' as int
  }

  function Four(a: byte, b: byte, c: byte): seq<byte> {
    [Letter(a / 4), Letter(a % 4 * 16 + b / 16), Letter(b % 16 * 4 + c / 64), Letter(c % 64)]
  }

  /** Groups of three bytes as four letters, and what is left over padded with '='. */
  function Standard(x: seq<byte>): seq<byte> {
    if x == [] then []
    else if |x| == 1 then [Letter(x[0] / 4), Letter(x[0] % 4 * 16), 61, 61]
    else if |x| == 2 then [Letter(x[0] / 4), Letter(x[0] % 4 * 16 + x[1] / 16), Letter(x[1] % 16 * 4), 61]
    else Four(x[0], x[1], x[2]) + Standard(x[3..])
  }

  lemma AlphabetIs(v: nat)
    requires v < 64
    ensures EncChar(v) == Letter(v)
  {
  }

  lemma SixBitsOf(a: byte, b: byte, c: byte)
    ensures var v := Triple(a, b, c);
            v / 262144 % 64 == a / 4 && v / 4096 % 64 == a % 4 * 16 + b / 16 && v / 64 % 64 == b % 16 * 4 + c / 64 && v / 1 % 64 == c % 64
  {
    var v, x: nat, y: nat := Triple(a, b, c), a, b;
    DivModUnique(v, 262144, x / 4, x % 4 * 65536 + y * 256 + c);
    DivModUnique(v, 4096, x * 16 + y / 16, y % 16 * 256 + c);
    DivModUnique(x * 16 + y / 16, 64, x / 4, x % 4 * 16 + y / 16);
    DivModUnique(v, 64, x * 1024 + y * 4 + c / 64, c % 64);
    DivModUnique(x * 1024 + y * 4 + c / 64, 64, x * 16 + y / 16, y % 16 * 4 + c / 64);
  }

  lemma CharIs(v: nat, k: nat, w: nat)
    requires k < 4 && w < 64
    requires v / (if k == 0 then 262144 else if k == 1 then 4096 else if k == 2 then 64 else 1) % 64 == w
    ensures Char(v, k) == Letter(w)
  {
    hide Letter, EncChar, Pow2;
    Powers();
    AlphabetIs(w);
  }

  lemma Powers()
    ensures Pow2(0) == 1 && Pow2(6) == 64 && Pow2(12) == 4096 && Pow2(18) == 262144
  {
    assert Pow2(3) == 8;
    assert Pow2(9) == 512;
    assert Pow2(15) == 32768;
  }

  lemma CharsOf(a: byte, b: byte, c: byte)
    ensures var v := Triple(a, b, c); [Char(v, 0), Char(v, 1), Char(v, 2), Char(v, 3)] == Four(a, b, c)
  {
    hide Letter, Char, Pow2, Triple;
    var v := Triple(a, b, c);
    SixBitsOf(a, b, c);
    CharIs(v, 0, a / 4);
    CharIs(v, 1, a % 4 * 16 + b / 16);
    CharIs(v, 2, b % 16 * 4 + c / 64);
    CharIs(v, 3, c % 64);
  }

  /** The encoding is the standard's. */
  lemma {:induction false} EncodeIsStandard(x: seq<byte>)
    ensures Encode(x) == Standard(x)
    decreases |x|
  {
    hide Encode, Char, Letter, Triple;
    if x == [] {
      EncodeNothing();
    } else if |x| < 3 {
      TailEncodes(x);
      CharsOf(x[0], if |x| == 1 then 0 else x[1], 0);
    } else {
      var g := x[..3];
      assert x == g + x[3..];
      EncodeChunks(g, x[3..]);
      EncodeNothing();
      GroupDone(g, 0, 0);
      assert g[..0] == [] && g[..3] == g;
      CharsOf(x[0], x[1], x[2]);
      EncodeIsStandard(x[3..]);
    }
  }
}
