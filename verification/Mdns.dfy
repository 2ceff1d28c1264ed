/** The mDNS responder of mdns.c: the bounded writer with back-patched lengths, the scan of a
    query's questions, and the response. */
module Mdns {
  import opened Bits
  import opened DnsNames
  import opened MdnsMessages
  import opened Slices
  import opened Wrappers

  lemma BothAssoc(a: Option<seq<byte>>, b: Option<seq<byte>>, c: Option<seq<byte>>)
    ensures Both(Both(a, b), c) == Both(a, Both(b, c))
  {
    if a.Some? && b.Some? && c.Some? { ConcatAssoc(a.value, b.value, c.value); }
  }

  lemma BothNothing(a: Option<seq<byte>>)
    ensures Both(a, Some([])) == a && Both(Some([]), a) == a
  {
    if a.Some? { assert a.value + [] == a.value && [] + a.value == a.value; }
  }

  /** A name is its first label and the rest of it. */
  lemma NameBytesStep(s: seq<byte>)
    requires s != []
    ensures var f := FirstDot(s);
            NameBytes(s) == if 1 <= f <= 63
                            then Both(Some([f] + s[..f]), NameBytes(if f < |s| then s[f + 1..] else []))
                            else None
  {
    hide FirstDot, NameLabels, Encodable, EncodeLabels;
    var f := FirstDot(s);
    FirstLabel(s);
    var rest := NameLabels(if f < |s| then s[f + 1..] else []);
    EncodableCons(s[..f], rest);
  }

  lemma EncodableCons(a: Label, rest: seq<Label>)
    ensures Encodable([a] + rest) <==> 1 <= |a| <= 63 && Encodable(rest)
    ensures Encodable([a] + rest) ==> EncodeLabels([a] + rest) == [|a|] + a + EncodeLabels(rest)
  {
    var ls := [a] + rest;
    assert ls[0] == a && ls[1..] == rest;
    assert forall i :: 0 <= i < |rest| ==> rest[i] == ls[i + 1];
    assert forall i :: 0 < i < |ls| ==> ls[i] == rest[i - 1];
  }

  lemma EmptyName()
    ensures NameBytes([]) == Some([0])
  {
  }

  /** Putting the length of the data into the two bytes reserved for it. */
  lemma PatchMakes(before: seq<byte>, nb: seq<byte>, kind: nat, cls: nat, ttl: nat, rd: seq<byte>)
    ensures var s := before + (nb + (Wire16(kind) + Wire16(cls) + Wire32(ttl) + Wire16(0))) + rd;
            var g := |s| - |rd| - 2;
            s[..g] + Wire16(|rd|) + s[g + 2..] == before + (nb + (Fixed(kind, cls, ttl, |rd|) + rd))
  {
    hide Wire16, Wire32;
    var h := Wire16(kind) + Wire16(cls) + Wire32(ttl);
    var s := before + (nb + (h + Wire16(0))) + rd;
    var g := |s| - |rd| - 2;
    assert s[..g] == before + nb + h;
    assert s[g + 2..] == rd;
  }

  class Writer {
    const buf: array<byte>
    const cap: nat
    var len: nat
    var ok: bool

    ghost var said: Option<seq<byte>>   // all that was to be written; None once a name could not be

    ghost predicate Valid()
      reads this, buf
    {
      len <= cap <= buf.Length && ok == (said.Some? && |said.value| <= cap) && (ok ==> buf[..len] == said.value)
    }

    constructor (buf: array<byte>, cap: nat)
      requires cap <= buf.Length
      ensures Valid() && said == Some([]) && this.buf == buf && this.cap == cap
    {
      this.buf, this.cap := buf, cap;
      len, ok, said := 0, true, Some([]);
    }

    /** w_bytes. */
    method Bytes(p: seq<byte>)
      requires Valid()
      modifies this, buf
      ensures Valid() && said == Both(old(said), Some(p))
    {
      said := Both(said, Some(p));
      if !ok {
        return;
      }
      if len + |p| > cap {
        ok := false;
        return;
      }
      ghost var before := buf[..len];
      forall k | 0 <= k < |p| { buf[len + k] := p[k]; }
      assert buf[..len + |p|] == before + p;
      len := len + |p|;
    }

    /** w_u8. */
    method PutU8(v: byte)
      requires Valid()
      modifies this, buf
      ensures Valid() && said == Both(old(said), Some([v]))
    {
      said := Both(said, Some([v]));
      if !ok {
        return;
      }
      if len + 1 > cap {
        ok := false;
        return;
      }
      ghost var before := buf[..len];
      buf[len] := v;
      assert buf[..len + 1] == before + [v];
      len := len + 1;
    }

    method PutU16(v: nat)
      requires Valid() && v < 0x1_0000
      modifies this, buf
      ensures Valid() && said == Both(old(said), Some(Wire16(v)))
    {
      ghost var s := said;
      PutU8(v / 256);
      PutU8(v % 256);
      BothAssoc(s, Some([v / 256]), Some([v % 256]));
      assert [v / 256] + [v % 256] == Wire16(v);
    }

    method PutU32(v: nat)
      requires Valid() && v < 0x1_0000_0000
      modifies this, buf
      ensures Valid() && said == Both(old(said), Some(Wire32(v)))
    {
      hide Wire16;
      ghost var s := said;
      PutU16(v / 0x1_0000);
      PutU16(v % 0x1_0000);
      LowHalf(v);
      BothAssoc(s, Some(Wire16(v / 0x1_0000)), Some(Wire16(v)));
    }

    /** A name that cannot be encoded. */
    method Refuse()
      requires Valid()
      modifies this
      ensures Valid() && said == None
    {
      ok := false;
      said := None;
    }

    /** w_name: the labels of a dotted name, uncompressed. */
    method Name(name: seq<byte>)
      requires Valid() && 0 !in name
      modifies this, buf
      ensures Valid() && said == Both(old(said), NameBytes(name))
    {
      hide NameBytes, FirstDot, Both;
      ghost var s0 := said;
      var seg: nat := 0;
      assert name[0..] == name;
      while seg < |name|
        invariant seg <= |name| && Valid() && Both(said, NameBytes(name[seg..])) == Both(s0, NameBytes(name))
      {
        ghost var s := said;
        var n := FirstDot(name[seg..]);
        NameBytesStep(name[seg..]);
        if n == 0 || n > 63 {
          BothNone(s);
          Refuse();
          return;
        }
        PutU8(n);
        Bytes(name[seg..seg + n]);
        assert name[seg..][..n] == name[seg..seg + n];
        BothAssoc(s, Some([n]), Some(name[seg..seg + n]));
        BothSome([n], name[seg..seg + n]);
        ghost var rest := if n < |name| - seg then name[seg..][n + 1..] else [];
        BothAssoc(s, Some([n] + name[seg..seg + n]), NameBytes(rest));
        seg := if n < |name| - seg then seg + n + 1 else |name|;
        assert name[seg..] == rest;
      }
      assert name[seg..] == [];
      EmptyName();
      PutU8(0); // root label
    }

    static lemma BothNone(a: Option<seq<byte>>)
      ensures Both(a, None) == None
    {
    }

    static lemma BothSome(a: seq<byte>, b: seq<byte>)
      ensures Both(Some(a), Some(b)) == Some(a + b)
    {
    }

    static ghost function Head(name: seq<byte>, kind: nat, cls: nat, ttl: nat): Option<seq<byte>> {
      Both(NameBytes(name), Some(Wire16(kind) + Wire16(cls) + Wire32(ttl) + Wire16(0)))
    }

    /** w_rr_head: returns the offset of the length to patch. */
    method RrHead(name: seq<byte>, kind: nat, cls: nat, ttl: nat) returns (at: nat)
      requires Valid() && 0 !in name && kind < 0x1_0000 && cls < 0x1_0000 && ttl < 0x1_0000_0000
      modifies this, buf
      ensures Valid() && said == Both(old(said), Head(name, kind, cls, ttl))
      ensures ok ==> at + 2 == |said.value|
    {
      hide Wire16, Wire32, NameBytes;
      ghost var s := said;
      Name(name);
      PutU16(kind);
      PutU16(cls);
      PutU32(ttl);
      at := len;
      PutU16(0);
      ghost var nb := NameBytes(name);
      if s.Some? && nb.Some? {
        assert s.value + nb.value + Wire16(kind) + Wire16(cls) + Wire32(ttl) + Wire16(0)
            == s.value + (nb.value + (Wire16(kind) + Wire16(cls) + Wire32(ttl) + Wire16(0)));
      }
    }

    /** w_rr_patch, after the record's data rd. */
    method RrPatch(at: nat, ghost before: Option<seq<byte>>, ghost name: seq<byte>, ghost kind: nat, ghost cls: nat,
                   ghost ttl: nat, ghost rd: Option<seq<byte>>)
      requires Valid() && said == Both(Both(before, Head(name, kind, cls, ttl)), rd)
      requires ok ==> at + 2 + |rd.value| == |said.value|
      modifies this, buf
      ensures Valid() && said == Both(before, Written(name, kind, cls, ttl, rd))
    {
      hide NameBytes, Wire32, Wire16;
      ghost var s := said;
      if before.Some? && NameBytes(name).Some? && rd.Some? {
        PatchMakes(before.value, NameBytes(name).value, kind, cls, ttl, rd.value);
      }
      said := Both(before, Written(name, kind, cls, ttl, rd));
      if !ok || at + 2 > len {
        return;
      }
      PatchBytes(at);
    }

    method PatchBytes(at: nat)
      requires at + 2 <= len <= buf.Length
      modifies buf
      ensures buf[..len] == old(buf[..at]) + Wire16(len - at - 2) + old(buf[at + 2..len])
    {
      var rdlen := (len - (at + 2)) % 0x1_0000;
      buf[at] := rdlen / 256;
      buf[at + 1] := rdlen % 256;
      LowHalf(len - at - 2);
    }

    method EmitA(c: Config)
      requires Valid() && c.Valid()
      modifies this, buf
      ensures Valid() && said == Both(old(said), Written(c.host, TYPE_A, CLASS_IN_FLUSH, TTL_HOST, AData(c)))
    {
      hide Wire16, Wire32, NameBytes, Written;
      ghost var s := said;
      var at := RrHead(c.host, TYPE_A, CLASS_IN_FLUSH, TTL_HOST);
      PutU32(c.ipv4);
      RrPatch(at, s, c.host, TYPE_A, CLASS_IN_FLUSH, TTL_HOST, AData(c));
    }

    method EmitNsec(c: Config)
      requires Valid() && c.Valid()
      modifies this, buf
      ensures Valid() && said == Both(old(said), Written(c.host, TYPE_NSEC, CLASS_IN_FLUSH, TTL_HOST, NsecData(c)))
    {
      hide Wire16, Wire32, NameBytes, Written, Head;
      ghost var s := said;
      var at := RrHead(c.host, TYPE_NSEC, CLASS_IN_FLUSH, TTL_HOST);
      ghost var h := said;
      Name(c.host);
      PutU8(0);
      PutU8(1);
      PutU8(0x40);
      ghost var nb := NameBytes(c.host);
      if h.Some? && nb.Some? {
        assert h.value + nb.value + [0] + [1] + [0x40] == h.value + (nb.value + [0, 1, 0x40]);
      }
      RrPatch(at, s, c.host, TYPE_NSEC, CLASS_IN_FLUSH, TTL_HOST, NsecData(c));
    }

    method EmitPtr(c: Config)
      requires Valid() && c.Valid()
      modifies this, buf
      ensures Valid() && said == Both(old(said), Written(Service(), TYPE_PTR, CLASS_IN, TTL_PTR, PtrData(c)))
    {
      hide Wire16, Wire32, NameBytes, Written, Head;
      ghost var s := said;
      var at := RrHead(Service(), TYPE_PTR, CLASS_IN, TTL_PTR);
      Name(c.fqdn);
      RrPatch(at, s, Service(), TYPE_PTR, CLASS_IN, TTL_PTR, PtrData(c));
    }

    method EmitSrv(c: Config)
      requires Valid() && c.Valid()
      modifies this, buf
      ensures Valid() && said == Both(old(said), Written(c.fqdn, TYPE_SRV, CLASS_IN_FLUSH, TTL_HOST, SrvData(c)))
    {
      hide Wire16, Wire32, NameBytes, Written, Head;
      ghost var s := said;
      var at := RrHead(c.fqdn, TYPE_SRV, CLASS_IN_FLUSH, TTL_HOST);
      ghost var h := said;
      PutU16(0);
      PutU16(0);
      PutU16(c.port);
      Name(c.host);
      ghost var nb := NameBytes(c.host);
      if h.Some? && nb.Some? {
        assert h.value + Wire16(0) + Wire16(0) + Wire16(c.port) + nb.value == h.value + (Wire16(0) + Wire16(0) + Wire16(c.port) + nb.value);
      }
      RrPatch(at, s, c.fqdn, TYPE_SRV, CLASS_IN_FLUSH, TTL_HOST, SrvData(c));
    }

    method EmitTxt(c: Config)
      requires Valid() && c.Valid()
      modifies this, buf
      ensures Valid() && said == Both(old(said), Written(c.fqdn, TYPE_TXT, CLASS_IN_FLUSH, TTL_PTR, TxtData(c)))
    {
      hide Wire16, Wire32, NameBytes, Written, Head;
      ghost var s := said;
      var at := RrHead(c.fqdn, TYPE_TXT, CLASS_IN_FLUSH, TTL_PTR);
      if |c.txt| > 0 {
        Bytes(c.txt);
      } else {
        PutU8(0);
      }
      RrPatch(at, s, c.fqdn, TYPE_TXT, CLASS_IN_FLUSH, TTL_PTR, TxtData(c));
    }

    /** w_response_header. */
    method Header(n: nat)
      requires Valid() && n < 0x1_0000
      modifies this, buf
      ensures Valid() && said == Both(old(said), Some(ResponseHeader(n)))
    {
      hide Wire16;
      ghost var s := said;
      PutU16(0);
      PutU16(0x8400);
      PutU16(0);
      PutU16(n);
      PutU16(0);
      PutU16(0);
      if s.Some? {
        assert s.value + Wire16(0) + Wire16(0x8400) + Wire16(0) + Wire16(n) + Wire16(0) + Wire16(0) == s.value + ResponseHeader(n);
      }
    }
  }

  // --- the answer as one message -----------------------------------------------------------------

  lemma ServiceEncodable()
    ensures Encodable(NameLabels(Service()))
  {
    hide FirstDot, NameLabels, Encodable, ServiceLabel, TcpLabel, LocalLabel;
    var a, b, c := ServiceLabel(), TcpLabel(), LocalLabel();
    ServiceParts();
    DottedLabels(a, b + [DOT] + c);
    DottedLabels(b, c);
    FirstDotAt(c, |c|);
    FirstLabel(c);
    NoLabels();
    assert c[..|c|] == c;
    NoneEncodable();
    EncodableCons(c, []);
    EncodableCons(b, [c] + []);
    EncodableCons(a, [b] + ([c] + []));
  }

  lemma ServiceParts()
    ensures |ServiceLabel()| == 14 && DOT !in ServiceLabel() && |TcpLabel()| == 4 && DOT !in TcpLabel()
    ensures |LocalLabel()| == 5 && DOT !in LocalLabel()
  {
  }

  lemma NoneEncodable()
    ensures Encodable([])
  {
  }

  lemma DottedLabels(a: seq<byte>, rest: seq<byte>)
    requires DOT !in a
    ensures NameLabels(a + [DOT] + rest) == [a] + NameLabels(rest)
  {
    hide FirstDot;
    var s := a + [DOT] + rest;
    FirstDotAt(s, |a|);
    FirstLabel(s);
    assert s[..|a|] == a && s[|a| + 1..] == rest;
  }

  lemma {:induction false} FirstDotAt(s: seq<byte>, n: nat)
    requires n <= |s| && (n < |s| ==> s[n] == DOT) && forall k :: 0 <= k < n ==> s[k] != DOT
    ensures FirstDot(s) == n
  {
    if n > 0 { FirstDotAt(s[1..], n - 1); }
  }

  lemma {:induction false} EncodedSize(ls: seq<Label>)
    requires Encodable(ls)
    ensures |EncodeLabels(ls)| <= 1 + LabelBytes(ls)
  {
    if ls != [] { EncodedSize(ls[1..]); }
  }

  /** Bytes in the labels, one more for each. */
  function LabelBytes(ls: seq<Label>): nat {
    if ls == [] then 0 else 1 + |ls[0]| + LabelBytes(ls[1..])
  }

  lemma {:induction false} LabelsSize(name: seq<byte>)
    ensures LabelBytes(NameLabels(name)) <= |name| + 1
    decreases |name|
  {
    hide FirstDot;
    if name == [] {
      NoLabels();
    } else {
      FirstLabel(name);
      var rest := if FirstDot(name) < |name| then name[FirstDot(name) + 1..] else [];
      LabelsSize(rest);
      if rest == [] { NoLabels(); }
    }
  }

  lemma NameSize(name: seq<byte>)
    requires Encodable(NameLabels(name))
    ensures |EncodeLabels(NameLabels(name))| <= |name| + 2
  {
    EncodedSize(NameLabels(name));
    LabelsSize(name);
  }

  /** The record a Written one is. */
  lemma WrittenIs(name: seq<byte>, kind: nat, cls: nat, ttl: nat, rdata: Option<seq<byte>>)
    requires kind < 0x1_0000 && cls < 0x1_0000 && ttl < 0x1_0000_0000
    requires rdata.Some? ==> |rdata.value| < 0x1_0000
    ensures var rs := One(true, name, kind, cls, ttl, rdata);
            if Encodable(NameLabels(name)) && rdata.Some?
            then AllValid(rs) && Written(name, kind, cls, ttl, rdata) == Some(RecordsBytes(rs))
            else Written(name, kind, cls, ttl, rdata) == None
  {
    hide Fixed;
    if Encodable(NameLabels(name)) && rdata.Some? {
      var rs := One(true, name, kind, cls, ttl, rdata);
      assert rs[1..] == [];
      assert RecordBytes(rs[0]) + [] == RecordBytes(rs[0]);
    }
  }

  lemma {:induction false} RecordsConcat(a: seq<Record>, b: seq<Record>)
    requires AllValid(a) && AllValid(b)
    ensures AllValid(a + b) && RecordsBytes(a + b) == RecordsBytes(a) + RecordsBytes(b)
  {
    hide RecordBytes;
    if a == [] {
      assert a + b == b;
    } else {
      RecordsConcat(a[1..], b);
      assert (a + b)[1..] == a[1..] + b;
      ConcatAssoc(RecordBytes(a[0]), RecordsBytes(a[1..]), RecordsBytes(b));
    }
  }

  /** What has been said so far is these records after the header, if all could be written. */
  ghost predicate Saying(said: Option<seq<byte>>, head: seq<byte>, rs: seq<Record>, fine: bool) {
    if fine then AllValid(rs) && said == Some(head + RecordsBytes(rs)) else said == None
  }

  lemma SayingMore(before: Option<seq<byte>>, head: seq<byte>, rs: seq<Record>, fine: bool,
                   name: seq<byte>, kind: nat, cls: nat, ttl: nat, rdata: Option<seq<byte>>)
    requires Saying(before, head, rs, fine) && kind < 0x1_0000 && cls < 0x1_0000 && ttl < 0x1_0000_0000
    requires rdata.Some? ==> |rdata.value| < 0x1_0000
    ensures Saying(Both(before, Written(name, kind, cls, ttl, rdata)), head, rs + One(true, name, kind, cls, ttl, rdata),
                   fine && Encodable(NameLabels(name)) && rdata.Some?)
  {
    hide Written, RecordsBytes;
    WrittenIs(name, kind, cls, ttl, rdata);
    var one := One(true, name, kind, cls, ttl, rdata);
    if fine && Encodable(NameLabels(name)) && rdata.Some? {
      RecordsConcat(rs, one);
      ConcatAssoc(head, RecordsBytes(rs), RecordsBytes(one));
    }
  }

  lemma DataSizes(c: Config)
    requires c.Valid()
    ensures PtrData(c).Some? ==> |PtrData(c).value| < 0x1_0000
    ensures SrvData(c).Some? ==> |SrvData(c).value| < 0x1_0000
    ensures NsecData(c).Some? ==> |NsecData(c).value| < 0x1_0000
    ensures |TxtData(c).value| < 0x1_0000
    ensures PtrData(c).Some? <==> Encodable(NameLabels(c.fqdn))
    ensures SrvData(c).Some? <==> Encodable(NameLabels(c.host))
    ensures NsecData(c).Some? <==> Encodable(NameLabels(c.host))
  {
    if Encodable(NameLabels(c.fqdn)) { NameSize(c.fqdn); }
    if Encodable(NameLabels(c.host)) { NameSize(c.host); }
  }

  function CountOf(w: Wants): (n: nat)
    ensures n <= 5
  {
    (if w.a then 2 else 0) + (if w.ptr then 1 else 0) + (if w.srv then 1 else 0) + (if w.txt then 1 else 0)
  }

  /** The emitters the response calls, after its header. */
  method EmitAnswers(out: Writer, c: Config, w: Wants)
    requires out.Valid() && c.Valid() && out.said == Some(ResponseHeader(CountOf(w)))
    modifies out, out.buf
    ensures out.Valid() && |Answers(c, w)| == CountOf(w)
    ensures Saying(out.said, ResponseHeader(CountOf(w)), Answers(c, w), Writable(c, w))
  {
    hide NameLabels, Written, RecordsBytes, Both, PtrData, SrvData, TxtData, AData, NsecData, ResponseHeader, Service, Saying,
         Encodable, Config.Valid, One;
    DataSizes(c);
    ServiceEncodable();
    TxtIs(c);
    AIs(c);
    ghost var head := ResponseHeader(CountOf(w));
    StartSaying(head);
    ghost var said, rs: seq<Record>, fine := out.said, [], true;
    if w.ptr {
      out.EmitPtr(c);
    }
    SayingIf(w.ptr, said, head, rs, fine, Service(), TYPE_PTR, CLASS_IN, TTL_PTR, PtrData(c));
    rs := rs + One(w.ptr, Service(), TYPE_PTR, CLASS_IN, TTL_PTR, PtrData(c));
    said, fine := out.said, fine && (w.ptr ==> Encodable(NameLabels(c.fqdn)));
    if w.srv {
      out.EmitSrv(c);
    }
    SayingIf(w.srv, said, head, rs, fine, c.fqdn, TYPE_SRV, CLASS_IN_FLUSH, TTL_HOST, SrvData(c));
    rs := rs + One(w.srv, c.fqdn, TYPE_SRV, CLASS_IN_FLUSH, TTL_HOST, SrvData(c));
    said, fine := out.said, fine && (w.srv ==> Encodable(NameLabels(c.fqdn)) && Encodable(NameLabels(c.host)));
    if w.txt {
      out.EmitTxt(c);
    }
    SayingIf(w.txt, said, head, rs, fine, c.fqdn, TYPE_TXT, CLASS_IN_FLUSH, TTL_PTR, TxtData(c));
    rs := rs + One(w.txt, c.fqdn, TYPE_TXT, CLASS_IN_FLUSH, TTL_PTR, TxtData(c));
    said, fine := out.said, fine && (w.txt ==> Encodable(NameLabels(c.fqdn)));
    ghost var middle := out.said;
    if w.a {
      out.EmitA(c);
      middle := out.said;
      out.EmitNsec(c);
    }
    SayingIf(w.a, said, head, rs, fine, c.host, TYPE_A, CLASS_IN_FLUSH, TTL_HOST, AData(c));
    rs := rs + One(w.a, c.host, TYPE_A, CLASS_IN_FLUSH, TTL_HOST, AData(c));
    fine := fine && (w.a ==> Encodable(NameLabels(c.host)));
    SayingIf(w.a, middle, head, rs, fine, c.host, TYPE_NSEC, CLASS_IN_FLUSH, TTL_HOST, NsecData(c));
    rs := rs + One(w.a, c.host, TYPE_NSEC, CLASS_IN_FLUSH, TTL_HOST, NsecData(c));
    assert [] + rs == rs;
    assert rs == Answers(c, w);
    assert fine == Writable(c, w);
    Counted(c, w);
  }

  lemma Counted(c: Config, w: Wants)
    ensures |Answers(c, w)| == CountOf(w)
  {
    hide NameLabels, PtrData, SrvData, TxtData, AData, NsecData, Service;
  }

  lemma SayingIf(b: bool, before: Option<seq<byte>>, head: seq<byte>, rs: seq<Record>, fine: bool,
                 name: seq<byte>, kind: nat, cls: nat, ttl: nat, rdata: Option<seq<byte>>)
    requires Saying(before, head, rs, fine) && kind < 0x1_0000 && cls < 0x1_0000 && ttl < 0x1_0000_0000
    requires rdata.Some? ==> |rdata.value| < 0x1_0000
    ensures Saying(if b then Both(before, Written(name, kind, cls, ttl, rdata)) else before, head,
                   rs + One(b, name, kind, cls, ttl, rdata), fine && (b ==> Encodable(NameLabels(name)) && rdata.Some?))
  {
    hide Saying, Written, Both, Encodable, NameLabels;
    if b {
      SayingMore(before, head, rs, fine, name, kind, cls, ttl, rdata);
    } else {
      assert rs + One(b, name, kind, cls, ttl, rdata) == rs;
    }
  }

  lemma StartSaying(head: seq<byte>)
    ensures Saying(Some(head), head, [], true)
  {
    assert head + [] == head;
  }

  lemma TxtIs(c: Config)
    ensures TxtData(c).Some?
  {
  }

  lemma AIs(c: Config)
    ensures AData(c).Some? && |AData(c).value| == 4
  {
  }

  // --- the questions of a query --------------------------------------------------------------------

  /** Where a question's name is, its type and its class. */
  datatype Question = Question(off: nat, qtype: nat, qclass: nat)

  /** Up to n questions from off on, as far as they are well-formed. */
  function QuestionsFrom(p: seq<byte>, off: nat, n: nat): seq<Question>
    decreases n
  {
    if n == 0 || off >= |p| then []
    else
      var after := PastName(p, off);
      if after == 0 || after + 4 > |p| then []
      else [Question(off, Be16(p, after), Be16(p, after + 2))] + QuestionsFrom(p, after + 4, n - 1)
  }

  function Questions(p: seq<byte>): seq<Question>
    requires |p| >= 12
  {
    QuestionsFrom(p, 12, Be16(p, 4))
  }

  /** A question as section 4.1.2 of RFC 1035 writes it. */
  datatype Asking = Asking(name: seq<Label>, qtype: nat, qclass: nat) {
    predicate Valid() {
      Encodable(name) && qtype < 0x1_0000 && qclass < 0x1_0000
    }
  }

  predicate AllAskings(qs: seq<Asking>) {
    forall k :: 0 <= k < |qs| ==> qs[k].Valid()
  }

  function AskingBytes(a: Asking): seq<byte>
    requires a.Valid()
  {
    EncodeLabels(a.name) + [a.qtype / 256, a.qtype % 256, a.qclass / 256, a.qclass % 256]
  }

  function AskingsBytes(qs: seq<Asking>): seq<byte>
    requires AllAskings(qs)
  {
    if qs == [] then [] else AskingBytes(qs[0]) + AskingsBytes(qs[1..])
  }

  /** The question found is the one written. */
  ghost predicate IsAsking(p: seq<byte>, q: Question, a: Asking) {
    q.qtype == a.qtype && q.qclass == a.qclass && forall hops :: DecodeName(p, q.off, hops) == Some(a.name)
  }

  lemma AskingRead(p: seq<byte>, off: nat, a: Asking)
    requires a.Valid() && TextAt(p, off, AskingBytes(a))
    ensures var after := PastName(p, off);
            off < after && after + 4 == off + |AskingBytes(a)| <= |p| &&
            IsAsking(p, Question(off, Be16(p, after), Be16(p, after + 2)), a)
  {
    hide TextAt, Encodable, EncodeLabels;
    var t, n := [a.qtype / 256, a.qtype % 256, a.qclass / 256, a.qclass % 256], |EncodeLabels(a.name)|;
    EncodedLong(a.name);
    TextParts(p, off, EncodeLabels(a.name), t);
    TextByte(p, off + n, t, 0);
    TextByte(p, off + n, t, 1);
    TextByte(p, off + n, t, 2);
    TextByte(p, off + n, t, 3);
    DivModUnique(a.qtype, 256, a.qtype / 256, a.qtype % 256);
    DivModUnique(a.qclass, 256, a.qclass / 256, a.qclass % 256);
    forall hops: nat
      ensures DecodeName(p, off, hops) == Some(a.name) && PastName(p, off) == off + n
    {
      EncodedDecodes(p, off, a.name, hops);
    }
    EncodedDecodes(p, off, a.name, 0);
  }

  lemma EncodedLong(ls: seq<Label>)
    requires Encodable(ls)
    ensures |EncodeLabels(ls)| > 0
  {
  }

  /** The questions of a query, as it was written. */
  lemma {:induction false} QuestionsRead(p: seq<byte>, off: nat, qs: seq<Asking>)
    requires AllAskings(qs) && TextAt(p, off, AskingsBytes(qs))
    ensures |QuestionsFrom(p, off, |qs|)| == |qs|
    ensures forall k :: 0 <= k < |qs| ==> IsAsking(p, QuestionsFrom(p, off, |qs|)[k], qs[k])
    decreases |qs|
  {
    hide TextAt, IsAsking, AskingBytes, Asking.Valid, PastName;
    if qs != [] {
      TextParts(p, off, AskingBytes(qs[0]), AskingsBytes(qs[1..]));
      assert qs[0].Valid();
      AskingRead(p, off, qs[0]);
      QuestionsRead(p, off + |AskingBytes(qs[0])|, qs[1..]);
    }
  }

  /** What a question asks for: the host, else the service type, else the instance. */
  function Asks(c: Config, p: seq<byte>, q: Question): Wants {
    var any := q.qtype == TYPE_ANY;
    if NameAt(p, q.off, MAX_HOPS, c.host) then Wants(any || q.qtype == TYPE_A, false, false, false)
    else if NameAt(p, q.off, MAX_HOPS, Service()) then Wants(false, any || q.qtype == TYPE_PTR, false, false)
    else if NameAt(p, q.off, MAX_HOPS, c.fqdn) then Wants(false, false, any || q.qtype == TYPE_SRV, any || q.qtype == TYPE_TXT)
    else Wants(false, false, false, false)
  }

  predicate Matches(c: Config, p: seq<byte>, q: Question) {
    Asks(c, p, q) != Wants(false, false, false, false)
  }

  /** The top bit of the class. */
  predicate UnicastBit(q: Question) {
    q.qclass >= 0x8000
  }

  datatype Found = Found(wants: Wants, unicast: bool)

  function Add(c: Config, p: seq<byte>, f: Found, q: Question): Found {
    var w := Asks(c, p, q);
    Found(Wants(f.wants.a || w.a, f.wants.ptr || w.ptr, f.wants.srv || w.srv, f.wants.txt || w.txt),
          f.unicast || (Matches(c, p, q) && UnicastBit(q)))
  }

  function Gather(c: Config, p: seq<byte>, f: Found, qs: seq<Question>): Found
    decreases |qs|
  {
    if qs == [] then f else Gather(c, p, Add(c, p, f, qs[0]), qs[1..])
  }

  function Wanted(c: Config, p: seq<byte>): Found
    requires |p| >= 12
  {
    Gather(c, p, Found(Wants(false, false, false, false), false), Questions(p))
  }

  /** A flag is set exactly if a question sets it. */
  lemma {:induction false} GatherIff(c: Config, p: seq<byte>, f: Found, qs: seq<Question>)
    ensures Gather(c, p, f, qs).wants.a <==> f.wants.a || exists i :: 0 <= i < |qs| && Asks(c, p, qs[i]).a
    ensures Gather(c, p, f, qs).wants.ptr <==> f.wants.ptr || exists i :: 0 <= i < |qs| && Asks(c, p, qs[i]).ptr
    ensures Gather(c, p, f, qs).wants.srv <==> f.wants.srv || exists i :: 0 <= i < |qs| && Asks(c, p, qs[i]).srv
    ensures Gather(c, p, f, qs).wants.txt <==> f.wants.txt || exists i :: 0 <= i < |qs| && Asks(c, p, qs[i]).txt
    ensures Gather(c, p, f, qs).unicast <==>
      f.unicast || exists i :: 0 <= i < |qs| && Matches(c, p, qs[i]) && UnicastBit(qs[i])
    decreases |qs|
  {
    hide Asks;
    if qs != [] {
      var rest := qs[1..];
      GatherIff(c, p, Add(c, p, f, qs[0]), rest);
      assert forall i :: 0 <= i < |rest| ==> rest[i] == qs[i + 1];
      assert forall i :: 0 < i < |qs| ==> qs[i] == rest[i - 1];
    }
  }

  /** scan_questions. */
  method ScanQuestions(c: Config, p: seq<byte>) returns (f: Found)
    requires c.Valid() && |p| >= 12
    ensures f == Wanted(c, p)
  {
    hide NameAt, PastName, Service;
    assert 0 !in Service() by { ServiceNoNul(); }
    f := Found(Wants(false, false, false, false), false);
    var qd := Be16(p, 4);
    var off: nat, i: nat := 12, 0;
    while i < qd && off < |p|
      invariant i <= qd && Wanted(c, p) == Gather(c, p, f, QuestionsFrom(p, off, qd - i))
    {
      ghost var qs := QuestionsFrom(p, off, qd - i);
      var after := SkipName(p, off);
      if after == 0 || after + 4 > |p| {
        return;
      }
      var q := Question(off, Be16(p, after), Be16(p, after + 2));
      assert qs[0] == q && qs[1..] == QuestionsFrom(p, after + 4, qd - i - 1);
      var w := AskedFor(c, p, q);
      f := Found(Wants(f.wants.a || w.a, f.wants.ptr || w.ptr, f.wants.srv || w.srv, f.wants.txt || w.txt),
                 f.unicast || (w != Wants(false, false, false, false) && q.qclass >= 0x8000));
      off := after + 4;
      i := i + 1;
    }
  }

  lemma ServiceNoNul()
    ensures 0 !in Service()
  {
  }

  /** The name comparisons for one question. */
  method AskedFor(c: Config, p: seq<byte>, q: Question) returns (w: Wants)
    requires c.Valid() && 0 !in Service()
    ensures w == Asks(c, p, q)
  {
    hide NameAt, Service;
    var any := q.qtype == TYPE_ANY;
    w := Wants(false, false, false, false);
    var host := NameEquals(p, q.off, c.host);
    if host {
      return w.(a := any || q.qtype == TYPE_A);
    }
    var service := NameEquals(p, q.off, Service());
    if service {
      return w.(ptr := any || q.qtype == TYPE_PTR);
    }
    var instance := NameEquals(p, q.off, c.fqdn);
    if instance {
      return w.(srv := any || q.qtype == TYPE_SRV, txt := any || q.qtype == TYPE_TXT);
    }
  }

  // --- the response ----------------------------------------------------------------------------------

  // --- who gets what answer --------------------------------------------------------------------------

  /** The name of the records of a type: 1 is A, 12 PTR, 16 TXT, 33 SRV, 47 NSEC. */
  function Owner(c: Config, kind: nat): seq<byte> {
    if kind == 12 then Service() else if kind == 16 || kind == 33 then c.fqdn else c.host
  }

  /** The question's name is this one, whatever the case of its letters. */
  predicate Names(p: seq<byte>, q: Question, name: seq<byte>) {
    match DecodeName(p, q.off, 16)
    case None => false
    case Some(ls) => SameLabels(ls, NameLabels(name))
  }

  /** The question asks for the record of this type, or for all (255) of its name. The host's name goes
      before the service type, and that before the instance, should they be the same. */
  predicate AsksFor(c: Config, p: seq<byte>, q: Question, kind: nat) {
    (kind == 1 || kind == 12 || kind == 16 || kind == 33) && (q.qtype == kind || q.qtype == 255) && Names(p, q, Owner(c, kind)) &&
    (kind != 1 ==> !Names(p, q, c.host)) && (kind == 16 || kind == 33 ==> !Names(p, q, Service()))
  }

  predicate Asked(c: Config, p: seq<byte>, kind: nat)
    requires |p| >= 12
  {
    exists i :: 0 <= i < |Questions(p)| && AsksFor(c, p, Questions(p)[i], kind)
  }

  /** The record is there for a question, or for another record's sake: PTR brings SRV and TXT, both
      bring the address, and the address comes with the denial of any other. */
  predicate Due(c: Config, p: seq<byte>, kind: nat)
    requires |p| >= 12
  {
    if kind == 12 then Asked(c, p, 12)
    else if kind == 33 then Asked(c, p, 33) || Asked(c, p, 12)
    else if kind == 16 then Asked(c, p, 16) || Asked(c, p, 12)
    else (kind == 1 || kind == 47) && (Asked(c, p, 1) || Asked(c, p, 33) || Asked(c, p, 12))
  }

  /** The record of its type: its name, class, time to live and data. */
  predicate IsRecord(c: Config, r: Record) {
    r.name == NameLabels(Owner(c, r.kind)) && r.cls == (if r.kind == 12 then 1 else 0x8001) &&
    r.ttl == (if r.kind == 12 || r.kind == 16 then 4500 else 120) &&
    (r.kind == 12 ==> DecodeName(r.rdata, 0, 0) == Some(NameLabels(c.fqdn)) && PastName(r.rdata, 0) == |r.rdata|) &&
    (r.kind == 33 ==> |r.rdata| > 6 && r.rdata[..4] == [0, 0, 0, 0] && Be16(r.rdata, 4) == c.port &&
                      DecodeName(r.rdata[6..], 0, 0) == Some(NameLabels(c.host)) && PastName(r.rdata[6..], 0) == |r.rdata| - 6) &&
    (r.kind == 16 ==> r.rdata == if c.txt == [] then [0] else c.txt) &&
    (r.kind == 1 ==> |r.rdata| == 4 && Be16(r.rdata, 0) * 0x1_0000 + Be16(r.rdata, 2) == c.ipv4) &&
    (r.kind == 47 ==> |r.rdata| > 3 && DecodeName(r.rdata, 0, 0) == Some(NameLabels(c.host)) &&
                      r.rdata[|r.rdata| - 3..] == [0, 1, 0x40] && PastName(r.rdata, 0) == |r.rdata| - 3)
  }

  /** Read as RFC 1035 says, the message holds exactly the records due, each once. */
  ghost predicate AnswersQuery(c: Config, query: seq<byte>, message: seq<byte>)
    requires |query| >= 12
  {
    match ReadResponse(message)
    case None => false
    case Some(rs) =>
      (forall i :: 0 <= i < |rs| ==> IsRecord(c, rs[i]) && Due(c, query, rs[i].kind)) &&
      (forall i, j :: 0 <= i < j < |rs| ==> rs[i].kind != rs[j].kind) &&
      forall kind: nat :: Due(c, query, kind) ==> exists i :: 0 <= i < |rs| && rs[i].kind == kind
  }

  lemma AsksIs(c: Config, p: seq<byte>, q: Question)
    ensures var w := Asks(c, p, q);
            w.a == AsksFor(c, p, q, 1) && w.ptr == AsksFor(c, p, q, 12) &&
            w.srv == AsksFor(c, p, q, 33) && w.txt == AsksFor(c, p, q, 16)
  {
    hide DecodeName, SameLabels, NameLabels, Service;
  }

  lemma WantedIs(c: Config, p: seq<byte>)
    requires |p| >= 12
    ensures var w := Wanted(c, p).wants;
            w.a == Asked(c, p, 1) && w.ptr == Asked(c, p, 12) && w.srv == Asked(c, p, 33) && w.txt == Asked(c, p, 16)
    ensures Wanted(c, p).unicast <==>
            exists i, kind :: 0 <= i < |Questions(p)| && AsksFor(c, p, Questions(p)[i], kind) && Questions(p)[i].qclass >= 0x8000
  {
    hide Asks, AsksFor, Gather, Questions;
    var qs := Questions(p);
    GatherIff(c, p, Found(Wants(false, false, false, false), false), qs);
    forall i | 0 <= i < |qs|
      ensures var w := Asks(c, p, qs[i]);
              w.a == AsksFor(c, p, qs[i], 1) && w.ptr == AsksFor(c, p, qs[i], 12) &&
              w.srv == AsksFor(c, p, qs[i], 33) && w.txt == AsksFor(c, p, qs[i], 16)
    {
      AsksIs(c, p, qs[i]);
    }
    AnyKind(c, p, qs);
  }

  lemma AnyKind(c: Config, p: seq<byte>, qs: seq<Question>)
    ensures forall i :: 0 <= i < |qs| ==> (Matches(c, p, qs[i]) <==> exists kind :: AsksFor(c, p, qs[i], kind))
  {
    hide Asks, DecodeName, SameLabels, NameLabels, Service, Names;
    forall i | 0 <= i < |qs|
      ensures Matches(c, p, qs[i]) <==> exists kind :: AsksFor(c, p, qs[i], kind)
    {
      AsksIs(c, p, qs[i]);
      var w := Asks(c, p, qs[i]);
      if w.a { assert AsksFor(c, p, qs[i], 1); }
      if w.ptr { assert AsksFor(c, p, qs[i], 12); }
      if w.srv { assert AsksFor(c, p, qs[i], 33); }
      if w.txt { assert AsksFor(c, p, qs[i], 16); }
      assert w == Wants(w.a, w.ptr, w.srv, w.txt);
    }
  }

  /** A query, not a response. */
  predicate IsQuery(p: seq<byte>) {
    |p| >= 12 && p[2] < 0x80
  }

  /** The message is in the buffer if it can be written and fits; otherwise the length is 0. */
  ghost predicate Sent(c: Config, w: Wants, out: array<byte>, cap: nat, n: nat)
    requires c.Valid()
    reads out
  {
    n <= cap <= out.Length &&
    (Writable(c, w) ==> AllValid(Answers(c, w)) &&
                        n == (if |MessageBytes(Answers(c, w))| <= cap then |MessageBytes(Answers(c, w))| else 0) &&
                        (n > 0 ==> out[..n] == MessageBytes(Answers(c, w)))) &&
    (!Writable(c, w) ==> n == 0)
  }

  method SendAnswers(c: Config, w: Wants, out: array<byte>, cap: nat) returns (n: nat)
    requires c.Valid() && cap <= out.Length
    modifies out
    ensures Sent(c, w, out, cap, n)
  {
    hide ResponseHeader, Answers, RecordsBytes, Writable;
    var wr := new Writer(out, cap);
    wr.Header(CountOf(w));
    BothNothing(Some(ResponseHeader(CountOf(w))));
    EmitAnswers(wr, c, w);
    n := if wr.ok then wr.len else 0;
  }

  /** The one record of a type. */
  function RecordFor(c: Config, kind: nat): Record {
    var data := if kind == TYPE_PTR then PtrData(c) else if kind == TYPE_SRV then SrvData(c) else if kind == TYPE_TXT then TxtData(c)
                else if kind == TYPE_A then AData(c) else NsecData(c);
    Record(NameLabels(if kind == TYPE_PTR then Service() else if kind == TYPE_SRV || kind == TYPE_TXT then c.fqdn else c.host), kind,
           if kind == TYPE_PTR then CLASS_IN else CLASS_IN_FLUSH, if kind == TYPE_PTR || kind == TYPE_TXT then TTL_PTR else TTL_HOST,
           if data.Some? then data.value else [])
  }

  /** An encoded name, with what comes before it and after it. */
  lemma NameInside(a: seq<byte>, ls: seq<Label>, b: seq<byte>)
    requires Encodable(ls)
    ensures var d := a + EncodeLabels(ls) + b;
            DecodeName(d[|a|..], 0, 0) == Some(ls) && PastName(d[|a|..], 0) == |d| - |a| - |b| > 0
  {
    hide Encodable, DecodeName, PastName;
    var d := a + EncodeLabels(ls) + b;
    assert d[|a|..] == EncodeLabels(ls) + b;
    assert TextAt(d[|a|..], 0, EncodeLabels(ls));
    EncodedDecodes(d[|a|..], 0, ls, 0);
    EncodedSome(ls);
  }

  lemma EncodedSome(ls: seq<Label>)
    requires Encodable(ls)
    ensures |EncodeLabels(ls)| > 0
  {
  }

  lemma Wire16At(v: nat)
    requires v < 0x1_0000
    ensures Be16(Wire16(v), 0) == v
  {
    DivModUnique(v, 256, v / 256, v % 256);
  }

  lemma PtrIs(c: Config)
    requires Encodable(NameLabels(c.fqdn))
    ensures IsRecord(c, RecordFor(c, 12))
  {
    hide Encodable, DecodeName, PastName, NameLabels, EncodeLabels, Service;
    NameInside([], NameLabels(c.fqdn), []);
    var d := EncodeLabels(NameLabels(c.fqdn));
    assert [] + d + [] == d && d[0..] == d;
  }

  lemma SrvIs(c: Config)
    requires Encodable(NameLabels(c.host)) && c.port < 0x1_0000
    ensures IsRecord(c, RecordFor(c, 33))
  {
    hide Encodable, DecodeName, PastName, NameLabels, EncodeLabels, Service, Wire16;
    var a, d := Wire16(0) + Wire16(0) + Wire16(c.port), EncodeLabels(NameLabels(c.host));
    NameInside(a, NameLabels(c.host), []);
    assert a + d + [] == a + d;
    Wire16At(c.port);
    assert (a + d)[4] == Wire16(c.port)[0] && (a + d)[5] == Wire16(c.port)[1];
    Zeros16();
    assert (a + d)[..4] == Wire16(0) + Wire16(0);
  }

  lemma Zeros16()
    ensures Wire16(0) == [0, 0]
  {
  }

  lemma AddressIs(c: Config)
    requires c.ipv4 < 0x1_0000_0000
    ensures IsRecord(c, RecordFor(c, 1)) && IsRecord(c, RecordFor(c, 16))
  {
    hide NameLabels, Service, Wire16, Be16;
    var d := Wire32(c.ipv4);
    TextAll(d);
    U32At(d, 0, c.ipv4);
  }

  lemma TextAll(d: seq<byte>)
    ensures TextAt(d, 0, d)
  {
  }

  lemma NsecIs(c: Config)
    requires Encodable(NameLabels(c.host))
    ensures IsRecord(c, RecordFor(c, 47))
  {
    hide Encodable, DecodeName, PastName, NameLabels, EncodeLabels, Service;
    var d := EncodeLabels(NameLabels(c.host));
    NameInside([], NameLabels(c.host), [0, 1, 0x40]);
    assert [] + d + [0, 1, 0x40] == d + [0, 1, 0x40] && (d + [0, 1, 0x40])[0..] == d + [0, 1, 0x40];
  }

  /** Whether the answer has the record of a type. */
  predicate Sends(w: Wants, kind: nat) {
    if kind == TYPE_PTR then w.ptr else if kind == TYPE_SRV then w.srv else if kind == TYPE_TXT then w.txt
    else (kind == TYPE_A || kind == TYPE_NSEC) && w.a
  }

  /** The types of an answer's records, in order. */
  function Kinds(w: Wants): seq<nat> {
    (if w.ptr then [12] else []) + (if w.srv then [33] else []) + (if w.txt then [16] else []) + (if w.a then [1, 47] else [])
  }

  lemma KindsAre(w: Wants)
    ensures var ks := Kinds(w);
            (forall i, j :: 0 <= i < j < |ks| ==> ks[i] != ks[j]) && forall kind: nat :: kind in ks <==> Sends(w, kind)
  {
  }

  function RecordsFor(c: Config, kinds: seq<nat>): (rs: seq<Record>)
    ensures |rs| == |kinds|
  {
    seq(|kinds|, i requires 0 <= i < |kinds| => RecordFor(c, kinds[i]))
  }

  lemma RecordsJoin(c: Config, a: seq<nat>, b: seq<nat>)
    ensures RecordsFor(c, a + b) == RecordsFor(c, a) + RecordsFor(c, b)
  {
    hide RecordFor;
  }

  lemma OneFor(c: Config, b: bool)
    ensures One(b, Service(), TYPE_PTR, CLASS_IN, TTL_PTR, PtrData(c)) == RecordsFor(c, if b then [12] else [])
    ensures One(b, c.fqdn, TYPE_SRV, CLASS_IN_FLUSH, TTL_HOST, SrvData(c)) == RecordsFor(c, if b then [33] else [])
    ensures One(b, c.fqdn, TYPE_TXT, CLASS_IN_FLUSH, TTL_PTR, TxtData(c)) == RecordsFor(c, if b then [16] else [])
    ensures One(b, c.host, TYPE_A, CLASS_IN_FLUSH, TTL_HOST, AData(c)) +
            One(b, c.host, TYPE_NSEC, CLASS_IN_FLUSH, TTL_HOST, NsecData(c)) == RecordsFor(c, if b then [1, 47] else [])
  {
    hide NameLabels, Service, PtrData, SrvData, TxtData, AData, NsecData;
  }

  lemma AnswersAre(c: Config, w: Wants)
    ensures Answers(c, w) == RecordsFor(c, Kinds(w))
  {
    hide One, RecordsFor, Service, PtrData, SrvData, TxtData, AData, NsecData;
    var p, s, t, a := if w.ptr then [12] else [], if w.srv then [33] else [], if w.txt then [16] else [], if w.a then [1, 47] else [];
    OneFor(c, w.ptr);
    OneFor(c, w.srv);
    OneFor(c, w.txt);
    OneFor(c, w.a);
    RecordsJoin(c, p, s);
    RecordsJoin(c, p + s, t);
    RecordsJoin(c, p + s + t, a);
  }

  lemma DueIs(c: Config, query: seq<byte>)
    requires |query| >= 12
    ensures forall kind: nat :: Due(c, query, kind) <==> Sends(Closure(Wanted(c, query).wants), kind)
  {
    hide Wanted, Asked;
    WantedIs(c, query);
  }

  /** What is sent answers the query. */
  lemma Answered(c: Config, query: seq<byte>, out: array<byte>, cap: nat, n: nat)
    requires c.Valid() && |query| >= 12 && Sent(c, Closure(Wanted(c, query).wants), out, cap, n) && n > 0
    ensures AnswersQuery(c, query, out[..n])
  {
    hide ReadResponse, Answers, IsRecord, RecordFor, Wanted, Due, Config.Valid, Kinds, Sends, Closure, AllValid;
    var w := Closure(Wanted(c, query).wants);
    ResponseReads(c, w, out, cap, n);
    AnswersAre(c, w);
    KindsAre(w);
    DueIs(c, query);
    SentRecords(c, w);
    var rs, ks := Answers(c, w), Kinds(w);
    forall i | 0 <= i < |rs|
      ensures rs[i].kind == ks[i] && IsRecord(c, rs[i]) && Due(c, query, rs[i].kind)
    {
      assert ks[i] in ks;
    }
    forall kind: nat | Due(c, query, kind)
      ensures exists i :: 0 <= i < |rs| && rs[i].kind == kind
    {
      var i :| 0 <= i < |ks| && ks[i] == kind;
      assert rs[i].kind == kind;
    }
  }

  lemma SentRecords(c: Config, w: Wants)
    requires c.Valid() && Writable(c, w)
    ensures forall kind: nat :: Sends(w, kind) ==> IsRecord(c, RecordFor(c, kind))
    ensures forall kind: nat :: Sends(w, kind) ==> RecordFor(c, kind).kind == kind
  {
    hide IsRecord, Encodable, NameLabels;
    AddressIs(c);
    if Encodable(NameLabels(c.fqdn)) { PtrIs(c); }
    if Encodable(NameLabels(c.host)) {
      SrvIs(c);
      NsecIs(c);
    }
  }

  /** mdns_build_response: a length of 0 if nothing is to be sent. */
  method BuildResponse(c: Config, query: seq<byte>, out: array<byte>, cap: nat) returns (n: nat, unicast: bool)
    requires c.Valid() && cap <= out.Length
    modifies out
    ensures unicast == (IsQuery(query) && Wanted(c, query).unicast)
    ensures !IsQuery(query) || CountOf(Closure(Wanted(c, query).wants)) == 0 ==> n == 0
    ensures IsQuery(query) && CountOf(Closure(Wanted(c, query).wants)) > 0 ==>
      Sent(c, Closure(Wanted(c, query).wants), out, cap, n)
    ensures n > 0 ==> IsQuery(query) && AnswersQuery(c, query, out[..n])
    ensures unicast <==> IsQuery(query) && exists i, kind ::
      0 <= i < |Questions(query)| && AsksFor(c, query, Questions(query)[i], kind) && Questions(query)[i].qclass >= 0x8000
  {
    hide Wanted, Sent, AnswersQuery, AsksFor, Questions;
    n, unicast := 0, false;
    if |query| < 12 || query[2] >= 0x80 {
      return;
    }
    var f := ScanQuestions(c, query);
    WantedIs(c, query);
    unicast := f.unicast;
    var w := f.wants;
    if w.ptr {
      w := w.(srv := true, txt := true, a := true);
    }
    if w.srv {
      w := w.(a := true);
    }
    if CountOf(w) == 0 {
      return;
    }
    n := SendAnswers(c, w, out, cap);
    if n > 0 { Answered(c, query, out, cap, n); }
  }

  /** mdns_build_announcement: all five records. */
  method BuildAnnouncement(c: Config, out: array<byte>, cap: nat) returns (n: nat)
    requires c.Valid() && cap <= out.Length
    modifies out
    ensures Sent(c, Wants(true, true, true, true), out, cap, n)
  {
    hide Sent;
    n := SendAnswers(c, Wants(true, true, true, true), out, cap);
  }

  /** A response that is sent reads back, to the last byte, as the records of the closure of what
      the matched questions ask for. */
  lemma {:induction false} ResponseReads(c: Config, w: Wants, out: array<byte>, cap: nat, n: nat)
    requires c.Valid() && Sent(c, w, out, cap, n) && n > 0
    ensures ReadResponse(out[..n]) == Some(Answers(c, w)) && |Answers(c, w)| == CountOf(w)
  {
    hide ReadResponse, MessageBytes, NameLabels, PtrData, SrvData, TxtData, AData, NsecData;
    AnswersCount(c, w);
    MessageReads(Answers(c, w));
  }

  lemma AnswersCount(c: Config, w: Wants)
    ensures |Answers(c, w)| == CountOf(w)
  {
    hide NameLabels, PtrData, SrvData, TxtData, AData, NsecData;
  }
}
