/** Where one byte string stands in another. */
module Slices {
  import opened Bits

  /** The bytes of an ASCII string. */
  function Ascii(s: string): (b: seq<byte>)
    requires forall k :: 0 <= k < |s| ==> (s[k] as int) < 128
    ensures |b| == |s|
  {
    seq(|s|, k requires 0 <= k < |s| => s[k] as int)
  }

  /** t stands at p. */
  predicate TextAt(js: seq<byte>, p: nat, t: seq<byte>) {
    p + |t| <= |js| && js[p..p + |t|] == t
  }

  lemma TextParts(js: seq<byte>, p: nat, a: seq<byte>, b: seq<byte>)
    requires TextAt(js, p, a + b)
    ensures TextAt(js, p, a) && TextAt(js, p + |a|, b)
  {
    var t := js[p..p + |a + b|];
    assert js[p..p + |a|] == t[..|a|];
    assert js[p + |a|..p + |a| + |b|] == t[|a|..];
  }

  lemma TextByte(js: seq<byte>, p: nat, t: seq<byte>, k: nat)
    requires TextAt(js, p, t) && k < |t|
    ensures p + k < |js| && js[p + k] == t[k]
  {
    assert js[p..p + |t|][k] == js[p + k];
  }
}
