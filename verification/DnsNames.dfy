/** Domain names on the wire (RFC 1035 sections 3.1 and 4.1.4): name_equals, skip_name and w_name of mdns.c. */
module DnsNames {
  import opened Bits
  import opened Wrappers
  import opened Slices

  type Label = seq<byte>

  const DOT: byte := 0x2E
  const MAX_HOPS: nat := 16

  // --- reading ---------------------------------------------------------------------------------

  /** The labels of the name at off, following at most `hops` compression pointers. */
  function DecodeName(pkt: seq<byte>, off: nat, hops: nat): (r: Option<seq<Label>>)
    decreases hops, |pkt| - off
  {
    if off >= |pkt| then None
    else if pkt[off] == 0 then Some([])
    else if pkt[off] >= 0xC0 then
      if off + 1 >= |pkt| || hops == 0 then None
      else DecodeName(pkt, (pkt[off] as int - 0xC0) * 256 + pkt[off + 1] as int, hops - 1)
    else if pkt[off] > 63 || off + 1 + pkt[off] > |pkt| then None
    else
      var n: nat := pkt[off];
      match DecodeName(pkt, off + 1 + n, hops)
      case None => None
      case Some(ls) => Some([pkt[off + 1..off + 1 + n]] + ls)
  }

  /** The offset past the name at off; a pointer ends it. */
  function PastName(pkt: seq<byte>, off: nat): (r: nat)
    decreases |pkt| - off
  {
    if off >= |pkt| then 0
    else if pkt[off] == 0 then off + 1
    else if pkt[off] >= 0xC0 then off + 2
    else if pkt[off] > 63 || off + 1 + pkt[off] > |pkt| then 0
    else PastName(pkt, off + 1 + pkt[off])
  }

  // --- dotted names ------------------------------------------------------------------------------

  function FirstDot(s: seq<byte>): (n: nat)
    ensures n <= |s| && (n < |s| ==> s[n] == DOT) && forall k :: 0 <= k < n ==> s[k] != DOT
  {
    if s == [] || s[0] == DOT then 0 else 1 + FirstDot(s[1..])
  }

  /** The labels of a dotted name; a final dot adds none. */
  function NameLabels(s: seq<byte>): (ls: seq<Label>)
    decreases |s|
  {
    if s == [] then []
    else if FirstDot(s) == |s| then [s]
    else [s[..FirstDot(s)]] + NameLabels(s[FirstDot(s) + 1..])
  }

  function Lower(c: byte): byte {
    if 0x41 <= c <= 0x5A then c + 32 else c
  }

  /** Equal but for ASCII case. */
  predicate SameLabel(a: Label, b: Label) {
    |a| == |b| && forall i :: 0 <= i < |a| ==> Lower(a[i]) == Lower(b[i])
  }

  predicate SameLabels(a: seq<Label>, b: seq<Label>) {
    |a| == |b| && forall i :: 0 <= i < |a| ==> SameLabel(a[i], b[i])
  }

  /** The name at off is this dotted name. */
  predicate NameAt(pkt: seq<byte>, off: nat, hops: nat, name: seq<byte>) {
    match DecodeName(pkt, off, hops)
    case None => false
    case Some(ls) => SameLabels(ls, NameLabels(name))
  }

  lemma SameCons(a: Label, ax: seq<Label>, b: Label, bx: seq<Label>)
    ensures SameLabels([a] + ax, [b] + bx) <==> SameLabel(a, b) && SameLabels(ax, bx)
  {
    var x, y := [a] + ax, [b] + bx;
    if SameLabels(x, y) {
      assert SameLabel(x[0], y[0]);
      forall i | 0 <= i < |ax|
        ensures SameLabel(ax[i], bx[i])
      {
        assert SameLabel(x[i + 1], y[i + 1]);
      }
    }
  }

  /** What is left of a dotted name past its first label and the dot. */
  function PastLabel(name: seq<byte>): seq<byte> {
    var f := FirstDot(name);
    if f < |name| then name[f + 1..] else []
  }

  /** One label of the packet against the first label of the name. */
  lemma LabelStep(pkt: seq<byte>, off: nat, hops: nat, name: seq<byte>)
    requires off < |pkt| && 0 < pkt[off] <= 63 && off + 1 + pkt[off] <= |pkt|
    ensures var n: nat := pkt[off];
            NameAt(pkt, off, hops, name) <==>
              name != [] && SameLabel(pkt[off + 1..off + 1 + n], name[..FirstDot(name)]) &&
              NameAt(pkt, off + 1 + n, hops, PastLabel(name))
  {
    hide FirstDot, SameLabel, SameLabels, DecodeName, NameLabels, PastLabel;
    var n: nat := pkt[off];
    var lab := pkt[off + 1..off + 1 + n];
    var d := DecodeName(pkt, off + 1 + n, hops);
    DecodeLabel(pkt, off, hops);
    if d.Some? { LabelsStep(lab, d.value, name); }
  }

  lemma LabelsStep(lab: Label, more: seq<Label>, name: seq<byte>)
    ensures SameLabels([lab] + more, NameLabels(name)) <==>
      name != [] && SameLabel(lab, name[..FirstDot(name)]) && SameLabels(more, NameLabels(PastLabel(name)))
  {
    hide FirstDot, SameLabel, SameLabels, NameLabels;
    if name == [] {
      NoLabels();
      DifferentCount([lab] + more);
    } else {
      FirstLabel(name);
      SameCons(lab, more, name[..FirstDot(name)], NameLabels(PastLabel(name)));
    }
  }

  lemma DecodeLabel(pkt: seq<byte>, off: nat, hops: nat)
    requires off < |pkt| && 0 < pkt[off] <= 63 && off + 1 + pkt[off] <= |pkt|
    ensures var n: nat := pkt[off];
            DecodeName(pkt, off, hops) == match DecodeName(pkt, off + 1 + n, hops)
              case None => None
              case Some(ls) => Some([pkt[off + 1..off + 1 + n]] + ls)
  {
  }

  lemma NoLabels()
    ensures NameLabels([]) == []
  {
  }

  lemma DifferentCount(ls: seq<Label>)
    requires ls != []
    ensures !SameLabels(ls, [])
  {
  }

  lemma FirstLabel(name: seq<byte>)
    requires name != []
    ensures var f := FirstDot(name);
            NameLabels(name) == [name[..f]] + NameLabels(if f < |name| then name[f + 1..] else [])
  {
    hide FirstDot;
    if FirstDot(name) == |name| {
      assert name[..|name|] == name;
    }
  }

  lemma RootStep(pkt: seq<byte>, off: nat, hops: nat, name: seq<byte>)
    requires off < |pkt| && pkt[off] == 0
    ensures NameAt(pkt, off, hops, name) <==> name == []
  {
  }

  lemma PointerStep(pkt: seq<byte>, off: nat, hops: nat, name: seq<byte>)
    requires off < |pkt| && pkt[off] >= 0xC0
    ensures NameAt(pkt, off, hops, name) <==>
      off + 1 < |pkt| && hops > 0 && NameAt(pkt, (pkt[off] as int - 0xC0) * 256 + pkt[off + 1] as int, hops - 1, name)
  {
  }

  lemma BadStep(pkt: seq<byte>, off: nat, hops: nat, name: seq<byte>)
    requires off >= |pkt| || (63 < pkt[off] < 0xC0) || (0 < pkt[off] <= 63 && off + 1 + pkt[off] > |pkt|)
    ensures !NameAt(pkt, off, hops, name)
  {
  }

  /** The bytes of a label against the name from seg on; next is the place after it, if they match. */
  method MatchLabel(lab: Label, name: seq<byte>, seg: nat) returns (same: bool, next: nat)
    requires seg <= |name| && lab != []
    ensures same == (seg < |name| && SameLabel(lab, name[seg..][..FirstDot(name[seg..])]))
    ensures same ==> seg < next <= |name| && var f := FirstDot(name[seg..]);
            name[next..] == if f < |name| - seg then name[seg..][f + 1..] else []
  {
    ghost var s := name[seg..];
    ghost var f := FirstDot(s);
    next := seg;
    for i := 0 to |lab|
      invariant i <= f && seg + i <= |name|
      invariant forall k :: 0 <= k < i ==> Lower(lab[k]) == Lower(s[k])
    {
      if seg + i >= |name| || name[seg + i] == DOT {
        return false, seg;
      }
      assert s[i] == name[seg + i];
      if Lower(lab[i]) != Lower(name[seg + i]) {
        assert i < f;
        return false, seg;
      }
    }
    next := seg + |lab|;
    if next < |name| {
      assert s[|lab|] == name[next];
      if name[next] != DOT {
        return false, seg;
      }
      next := next + 1;
    }
    same := true;
  }

  /** name_equals: exactly whether the name that RFC 1035 section 4.1.4 reads at off, within 16
      pointers, is the dotted name, label by label and ignoring ASCII case. */
  method NameEquals(pkt: seq<byte>, off0: nat, name: seq<byte>) returns (r: bool)
    requires 0 !in name
    ensures r == NameAt(pkt, off0, 16, name)
  {
    hide NameAt, FirstDot, SameLabel;
    var off: nat, seg: nat, hops: nat := off0, 0, 0;
    assert name[0..] == name;
    while off < |pkt|
      invariant seg <= |name| && 0 <= hops <= MAX_HOPS && off >= 0
      invariant NameAt(pkt, off0, MAX_HOPS, name) == NameAt(pkt, off, MAX_HOPS - hops, name[seg..])
      decreases MAX_HOPS - hops, |pkt| - off
    {
      var b: nat := pkt[off];
      if b == 0 {
        RootStep(pkt, off, MAX_HOPS - hops, name[seg..]);
        return seg == |name|;
      }
      if b >= 0xC0 {
        PointerStep(pkt, off, MAX_HOPS - hops, name[seg..]);
        if off + 1 >= |pkt| || hops + 1 > MAX_HOPS {
          return false;
        }
        hops := hops + 1;
        off := (b - 0xC0) * 256 + pkt[off + 1] as int;
        continue;
      }
      if b > 63 || off + 1 + b > |pkt| {
        BadStep(pkt, off, MAX_HOPS - hops, name[seg..]);
        return false;
      }
      LabelStep(pkt, off, MAX_HOPS - hops, name[seg..]);
      var same, next := MatchLabel(pkt[off + 1..off + 1 + b], name, seg);
      if !same {
        return false;
      }
      seg := next;
      off := off + 1 + b;
    }
    BadStep(pkt, off, MAX_HOPS - hops, name[seg..]);
    r := false;
  }

  /** skip_name. */
  method SkipName(pkt: seq<byte>, off0: nat) returns (r: nat)
    ensures r == PastName(pkt, off0)
  {
    var off := off0;
    while off < |pkt|
      invariant off >= 0 && PastName(pkt, off0) == PastName(pkt, off)
      decreases |pkt| - off
    {
      var b: nat := pkt[off];
      if b == 0 {
        return off + 1;
      }
      if b >= 0xC0 {
        return off + 2;
      }
      if b > 63 || off + 1 + b > |pkt| {
        return 0;
      }
      off := off + 1 + b;
    }
    r := 0;
  }

  // --- writing -----------------------------------------------------------------------------------

  predicate Encodable(ls: seq<Label>) {
    forall i :: 0 <= i < |ls| ==> 1 <= |ls[i]| <= 63
  }

  /** The labels, each after its length, and the root. */
  function EncodeLabels(ls: seq<Label>): seq<byte>
    requires Encodable(ls)
  {
    if ls == [] then [0] else [|ls[0]|] + ls[0] + EncodeLabels(ls[1..])
  }

  /** Where encoded labels stand in a packet they are decoded, whatever the hop limit, and skipped. */
  lemma {:induction false} EncodedDecodes(pkt: seq<byte>, off: nat, ls: seq<Label>, hops: nat)
    requires Encodable(ls) && TextAt(pkt, off, EncodeLabels(ls))
    ensures DecodeName(pkt, off, hops) == Some(ls)
    ensures PastName(pkt, off) == off + |EncodeLabels(ls)|
    decreases |ls|
  {
    hide TextAt;
    LabelStands(pkt, off, ls);
    if ls != [] {
      EncodedDecodes(pkt, off + 1 + |ls[0]|, ls[1..], hops);
      assert [ls[0]] + ls[1..] == ls;
    }
  }

  lemma LabelStands(pkt: seq<byte>, off: nat, ls: seq<Label>)
    requires Encodable(ls) && TextAt(pkt, off, EncodeLabels(ls))
    ensures off < |pkt| && pkt[off] == if ls == [] then 0 else |ls[0]|
    ensures ls != [] ==> off + 1 + |ls[0]| <= |pkt| && pkt[off + 1..off + 1 + |ls[0]|] == ls[0]
    ensures ls != [] ==> TextAt(pkt, off + 1 + |ls[0]|, EncodeLabels(ls[1..]))
  {
    TextByte(pkt, off, EncodeLabels(ls), 0);
    if ls != [] {
      TextParts(pkt, off, [|ls[0]|] + ls[0], EncodeLabels(ls[1..]));
      TextParts(pkt, off, [|ls[0]|], ls[0]);
    }
  }

  lemma SameItself(ls: seq<Label>)
    ensures SameLabels(ls, ls)
  {
  }

  /** A name written uncompressed is found equal to itself, and skipped. */
  lemma {:induction false} WrittenNameMatches(pkt: seq<byte>, off: nat, name: seq<byte>)
    requires Encodable(NameLabels(name))
    requires TextAt(pkt, off, EncodeLabels(NameLabels(name)))
    ensures NameAt(pkt, off, MAX_HOPS, name) && PastName(pkt, off) == off + |EncodeLabels(NameLabels(name))|
  {
    EncodedDecodes(pkt, off, NameLabels(name), MAX_HOPS);
    SameItself(NameLabels(name));
  }

  // --- compressed names ---------------------------------------------------------------------------

  /** Labels without the root: a length and its bytes for each. */
  function LabelBytesOf(ls: seq<Label>): seq<byte>
    requires Encodable(ls)
  {
    if ls == [] then [] else [|ls[0]|] + ls[0] + LabelBytesOf(ls[1..])
  }

  /** A pointer to this offset, section 4.1.4: two bits set, and fourteen that say where. */
  function Pointer(at: nat): seq<byte>
    requires at < 0x4000
  {
    [0xC0 + at / 256, at % 256]
  }

  lemma FirstStands(pkt: seq<byte>, off: nat, l: Label, more: seq<byte>)
    requires 1 <= |l| <= 63 && TextAt(pkt, off, ([|l|] + l) + more)
    ensures off + 1 + |l| <= |pkt| && pkt[off] == |l| && pkt[off + 1..off + 1 + |l|] == l && TextAt(pkt, off + 1 + |l|, more)
  {
    TextParts(pkt, off, [|l|] + l, more);
    TextParts(pkt, off, [|l|], l);
    TextByte(pkt, off, [|l|], 0);
  }

  lemma PointerAlone(pkt: seq<byte>, off: nat, at: nat, hops: nat)
    requires at < 0x4000 && TextAt(pkt, off, Pointer(at))
    ensures off + 1 < |pkt| && DecodeName(pkt, off, hops + 1) == DecodeName(pkt, at, hops) && PastName(pkt, off) == off + 2
  {
    hide TextAt;
    TextByte(pkt, off, Pointer(at), 0);
    TextByte(pkt, off, Pointer(at), 1);
    DivModUnique(at, 256, at / 256, at % 256);
  }

  lemma PastLabelIs(pkt: seq<byte>, off: nat)
    requires off < |pkt| && 0 < pkt[off] <= 63 && off + 1 + pkt[off] <= |pkt|
    ensures PastName(pkt, off) == PastName(pkt, off + 1 + pkt[off])
  {
  }

  /** A name that ends in a pointer to another is its labels and then that one's, and ends with the pointer. */
  lemma {:induction false} PointerDecodes(pkt: seq<byte>, off: nat, ls: seq<Label>, at: nat, hops: nat)
    requires Encodable(ls) && at < 0x4000 && TextAt(pkt, off, LabelBytesOf(ls) + Pointer(at)) && DecodeName(pkt, at, hops).Some?
    ensures DecodeName(pkt, off, hops + 1) == Some(ls + DecodeName(pkt, at, hops).value)
    ensures PastName(pkt, off) == off + |LabelBytesOf(ls)| + 2
    decreases |ls|
  {
    hide TextAt, DecodeName, PastName, Pointer;
    var end := DecodeName(pkt, at, hops).value;
    if ls == [] {
      assert LabelBytesOf(ls) + Pointer(at) == Pointer(at);
      PointerAlone(pkt, off, at, hops);
      assert [] + end == end;
    } else {
      var more := LabelBytesOf(ls[1..]) + Pointer(at);
      assert LabelBytesOf(ls) + Pointer(at) == ([|ls[0]|] + ls[0]) + more;
      FirstStands(pkt, off, ls[0], more);
      PointerDecodes(pkt, off + 1 + |ls[0]|, ls[1..], at, hops);
      DecodeLabel(pkt, off, hops + 1);
      PastLabelIs(pkt, off);
      assert [ls[0]] + (ls[1..] + end) == ls + end;
    }
  }

  /** A pointer to itself is refused, however many may be followed. */
  lemma {:induction false} LoopFails(pkt: seq<byte>, off: nat, hops: nat)
    requires off + 1 < |pkt| && off < 0x4000 && pkt[off..off + 2] == Pointer(off)
    ensures DecodeName(pkt, off, hops) == None
  {
    assert pkt[off] == pkt[off..off + 2][0] && pkt[off + 1] == pkt[off..off + 2][1];
    DivModUnique(off, 256, off / 256, off % 256);
    if hops > 0 { LoopFails(pkt, off, hops - 1); }
  }
}
