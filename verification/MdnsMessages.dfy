/** DNS messages (RFC 1035 section 4.1): records on the wire, a reader for them, and the answers of
    the responder in mdns.c. */
module MdnsMessages {
  import opened Bits
  import opened DnsNames
  import opened Slices
  import opened Wrappers

  const TYPE_A: nat := 1
  const TYPE_PTR: nat := 12
  const TYPE_TXT: nat := 16
  const TYPE_SRV: nat := 33
  const TYPE_NSEC: nat := 47
  const TYPE_ANY: nat := 255
  const CLASS_IN: nat := 1
  const CLASS_IN_FLUSH: nat := 0x8001
  const TTL_HOST: nat := 120
  const TTL_PTR: nat := 4500

  function Wire16(v: nat): (b: seq<byte>)
    ensures |b| == 2
  {
    [v / 256 % 256, v % 256]
  }

  function Wire32(v: nat): (b: seq<byte>)
    ensures |b| == 4
  {
    Wire16(v / 0x1_0000) + Wire16(v)
  }

  function Be32(p: seq<byte>, i: nat): nat
    requires i + 3 < |p|
  {
    Be16(p, i) * 0x1_0000 + Be16(p, i + 2)
  }

  datatype Record = Record(name: seq<Label>, kind: nat, cls: nat, ttl: nat, rdata: seq<byte>) {
    predicate Valid() {
      Encodable(name) && kind < 0x1_0000 && cls < 0x1_0000 && ttl < 0x1_0000_0000 && |rdata| < 0x1_0000
    }
  }

  /** Type, class, TTL and RDLENGTH. */
  function Fixed(kind: nat, cls: nat, ttl: nat, rdlen: nat): (b: seq<byte>)
    ensures |b| == 10
  {
    Wire16(kind) + Wire16(cls) + Wire32(ttl) + Wire16(rdlen)
  }

  function RecordBytes(r: Record): seq<byte>
    requires Encodable(r.name)
  {
    EncodeLabels(r.name) + (Fixed(r.kind, r.cls, r.ttl, |r.rdata|) + r.rdata)
  }

  predicate AllValid(rs: seq<Record>) {
    forall i :: 0 <= i < |rs| ==> rs[i].Valid()
  }

  function RecordsBytes(rs: seq<Record>): seq<byte>
    requires AllValid(rs)
  {
    if rs == [] then [] else RecordBytes(rs[0]) + RecordsBytes(rs[1..])
  }

  /** QR and AA set, no questions, n answers. */
  function ResponseHeader(n: nat): (h: seq<byte>)
    ensures |h| == 12
  {
    Wire16(0) + Wire16(0x8400) + Wire16(0) + Wire16(n) + Wire16(0) + Wire16(0)
  }

  function MessageBytes(rs: seq<Record>): seq<byte>
    requires AllValid(rs)
  {
    ResponseHeader(|rs|) + RecordsBytes(rs)
  }

  // --- a reader --------------------------------------------------------------------------------

  /** The record at off and the offset after it. */
  function ReadRecord(p: seq<byte>, off: nat): (r: Option<(Record, nat)>)
    ensures r.Some? ==> off < r.value.1 <= |p|
  {
    match DecodeName(p, off, MAX_HOPS)
    case None => None
    case Some(name) =>
      var q := PastName(p, off);
      PastNameGrows(p, off);
      if q == 0 || q + 10 > |p| then None
      else
        var n := Be16(p, q + 8);
        if q + 10 + n > |p| then None
        else Some((Record(name, Be16(p, q), Be16(p, q + 2), Be32(p, q + 4), p[q + 10..q + 10 + n]), q + 10 + n))
  }

  lemma {:induction false} PastNameGrows(p: seq<byte>, off: nat)
    ensures PastName(p, off) == 0 || PastName(p, off) > off
    decreases |p| - off
  {
    if off < |p| && 0 < p[off] <= 63 && off + 1 + p[off] <= |p| {
      PastNameGrows(p, off + 1 + p[off]);
    }
  }

  function ReadRecords(p: seq<byte>, off: nat, n: nat): Option<(seq<Record>, nat)>
    decreases n
  {
    if n == 0 then Some(([], off))
    else match ReadRecord(p, off)
      case None => None
      case Some(first) =>
        match ReadRecords(p, first.1, n - 1)
        case None => None
        case Some(more) => Some(([first.0] + more.0, more.1))
  }

  /** A response without questions: its records, if the counts announce exactly what is there. */
  function ReadResponse(p: seq<byte>): Option<seq<Record>> {
    if |p| < 12 || Be16(p, 2) / 0x8000 != 1 || Be16(p, 4) != 0 then None
    else match ReadRecords(p, 12, Be16(p, 6) + Be16(p, 8) + Be16(p, 10))
      case None => None
      case Some(got) => if got.1 == |p| then Some(got.0) else None
  }

  lemma U16At(p: seq<byte>, off: nat, v: nat)
    requires TextAt(p, off, Wire16(v)) && v < 0x1_0000
    ensures off + 1 < |p| && Be16(p, off) == v
  {
    assert p[off..off + 2][0] == p[off] && p[off..off + 2][1] == p[off + 1];
  }

  lemma U32At(p: seq<byte>, off: nat, v: nat)
    requires TextAt(p, off, Wire32(v)) && v < 0x1_0000_0000
    ensures off + 3 < |p| && Be32(p, off) == v
  {
    hide Wire16, Be16;
    TextParts(p, off, Wire16(v / 0x1_0000), Wire16(v));
    LowHalf(v);
    U16At(p, off, v / 0x1_0000);
    U16At(p, off + 2, v % 0x1_0000);
  }

  lemma LowHalf(v: nat)
    ensures Wire16(v) == Wire16(v % 0x1_0000)
  {
    var q, r := v / 0x1_0000, v % 0x1_0000;
    DivModUnique(v, 256, 256 * q + r / 256, r % 256);
    DivModUnique(256 * q + r / 256, 256, q, r / 256);
  }

  lemma FixedAt(p: seq<byte>, q: nat, kind: nat, cls: nat, ttl: nat, n: nat)
    requires TextAt(p, q, Fixed(kind, cls, ttl, n)) && kind < 0x1_0000 && cls < 0x1_0000 && ttl < 0x1_0000_0000 && n < 0x1_0000
    ensures q + 10 <= |p| && Be16(p, q) == kind && Be16(p, q + 2) == cls && Be32(p, q + 4) == ttl && Be16(p, q + 8) == n
  {
    hide Wire16, Wire32, Be16, Be32;
    TextParts(p, q, Wire16(kind) + Wire16(cls) + Wire32(ttl), Wire16(n));
    TextParts(p, q, Wire16(kind) + Wire16(cls), Wire32(ttl));
    TextParts(p, q, Wire16(kind), Wire16(cls));
    U16At(p, q, kind);
    U16At(p, q + 2, cls);
    U32At(p, q + 4, ttl);
    U16At(p, q + 8, n);
  }

  lemma {:induction false} RecordReads(p: seq<byte>, off: nat, r: Record)
    requires r.Valid() && TextAt(p, off, RecordBytes(r))
    ensures ReadRecord(p, off) == Some((r, off + |RecordBytes(r)|))
  {
    hide Fixed, DecodeName, PastName, Be16, Be32;
    var e := EncodeLabels(r.name);
    var fixed := Fixed(r.kind, r.cls, r.ttl, |r.rdata|);
    TextParts(p, off, e, fixed + r.rdata);
    var q := off + |e|;
    TextParts(p, q, fixed, r.rdata);
    EncodedDecodes(p, off, r.name, MAX_HOPS);
    FixedAt(p, q, r.kind, r.cls, r.ttl, |r.rdata|);
    EncodedNotEmpty(r.name);
  }

  lemma EncodedNotEmpty(ls: seq<Label>)
    requires Encodable(ls)
    ensures EncodeLabels(ls) != []
  {
  }

  lemma {:induction false} RecordsRead(p: seq<byte>, off: nat, rs: seq<Record>)
    requires AllValid(rs) && TextAt(p, off, RecordsBytes(rs))
    ensures ReadRecords(p, off, |rs|) == Some((rs, off + |RecordsBytes(rs)|))
    decreases |rs|
  {
    hide ReadRecord, RecordBytes;
    if rs != [] {
      TextParts(p, off, RecordBytes(rs[0]), RecordsBytes(rs[1..]));
      RecordReads(p, off, rs[0]);
      RecordsRead(p, off + |RecordBytes(rs[0])|, rs[1..]);
      assert [rs[0]] + rs[1..] == rs;
    }
  }

  /** A reader of the message finds exactly its records and nothing after them. */
  lemma {:induction false} MessageReads(rs: seq<Record>)
    requires AllValid(rs) && |rs| < 0x1_0000
    ensures ReadResponse(MessageBytes(rs)) == Some(rs)
  {
    hide Wire16, Be16, ReadRecords, RecordsBytes;
    var p := MessageBytes(rs);
    assert p[0..|p|] == p;
    TextParts(p, 0, ResponseHeader(|rs|), RecordsBytes(rs));
    HeaderAt(p, |rs|);
    assert Be16(p, 2) / 0x8000 == 1;
    RecordsRead(p, 12, rs);
  }

  lemma HeaderAt(p: seq<byte>, n: nat)
    requires TextAt(p, 0, ResponseHeader(n)) && n < 0x1_0000
    ensures |p| >= 12 && Be16(p, 2) == 0x8400 && Be16(p, 4) == 0 && Be16(p, 6) == n && Be16(p, 8) == 0 && Be16(p, 10) == 0
  {
    hide Wire16, Be16;
    TextParts(p, 0, Wire16(0) + Wire16(0x8400) + Wire16(0) + Wire16(n) + Wire16(0), Wire16(0));
    TextParts(p, 0, Wire16(0) + Wire16(0x8400) + Wire16(0) + Wire16(n), Wire16(0));
    TextParts(p, 0, Wire16(0) + Wire16(0x8400) + Wire16(0), Wire16(n));
    TextParts(p, 0, Wire16(0) + Wire16(0x8400), Wire16(0));
    TextParts(p, 0, Wire16(0), Wire16(0x8400));
    U16At(p, 2, 0x8400);
    U16At(p, 4, 0);
    U16At(p, 6, n);
    U16At(p, 8, 0);
    U16At(p, 10, 0);
  }

  // --- the responder's records ------------------------------------------------------------------

  function ServiceLabel(): seq<byte> {
    [0x5F, 0x73, 0x79, 0x73, 0x2D, 0x61, 0x75, 0x74, 0x6F, 0x70, 0x69, 0x6C, 0x6F, 0x74]
  }

  function TcpLabel(): seq<byte> {
    [0x5F, 0x74, 0x63, 0x70]
  }

  function LocalLabel(): seq<byte> {
    [0x6C, 0x6F, 0x63, 0x61, 0x6C]
  }

  /** The service type, "_sys-autopilot._tcp.local". */
  function Service(): seq<byte> {
    ServiceLabel() + [DOT] + (TcpLabel() + [DOT] + LocalLabel())
  }

  lemma ServiceIs()
    ensures Service() == Ascii("_sys-autopilot._tcp.local")
  {
    assert Ascii("_sys-autopilot._tcp.local")[..14] == ServiceLabel();
    assert Ascii("_sys-autopilot._tcp.local")[15..19] == TcpLabel();
    assert Ascii("_sys-autopilot._tcp.local")[20..] == LocalLabel();
  }

  datatype Config = Config(host: seq<byte>, fqdn: seq<byte>, port: nat, ipv4: nat, txt: seq<byte>) {
    /** The sizes of MdnsConfig's buffers. */
    predicate Valid() {
      |host| < 80 && |fqdn| < 128 && 0 !in host && 0 !in fqdn && port < 0x1_0000 && ipv4 < 0x1_0000_0000 && |txt| <= 256
    }
  }

  /** The bytes of a dotted name, if all its labels have 1 to 63 bytes. */
  function NameBytes(name: seq<byte>): Option<seq<byte>> {
    if Encodable(NameLabels(name)) then Some(EncodeLabels(NameLabels(name))) else None
  }

  function Both(a: Option<seq<byte>>, b: Option<seq<byte>>): Option<seq<byte>> {
    if a.Some? && b.Some? then Some(a.value + b.value) else None
  }

  /** A record as it is written: None if a name in it cannot be. */
  function Written(name: seq<byte>, kind: nat, cls: nat, ttl: nat, rdata: Option<seq<byte>>): Option<seq<byte>> {
    if rdata.Some? then Both(NameBytes(name), Some(Fixed(kind, cls, ttl, |rdata.value|) + rdata.value)) else None
  }

  function PtrData(c: Config): Option<seq<byte>> {
    NameBytes(c.fqdn)
  }

  /** Priority and weight 0, the port, the target. */
  function SrvData(c: Config): Option<seq<byte>> {
    Both(Some(Wire16(0) + Wire16(0) + Wire16(c.port)), NameBytes(c.host))
  }

  function TxtData(c: Config): Option<seq<byte>> {
    Some(if |c.txt| > 0 then c.txt else [0])
  }

  function AData(c: Config): Option<seq<byte>> {
    Some(Wire32(c.ipv4))
  }

  /** The host again, and a bitmap that has type A only. */
  function NsecData(c: Config): Option<seq<byte>> {
    Both(NameBytes(c.host), Some([0, 1, 0x40]))
  }

  /** Which records to send. */
  datatype Wants = Wants(a: bool, ptr: bool, srv: bool, txt: bool)

  /** PTR brings SRV, TXT and A; SRV brings A; A always comes with its NSEC. */
  function Closure(w: Wants): Wants {
    Wants(w.a || w.srv || w.ptr, w.ptr, w.srv || w.ptr, w.txt || w.ptr)
  }

  function One(b: bool, name: seq<byte>, kind: nat, cls: nat, ttl: nat, rdata: Option<seq<byte>>): (rs: seq<Record>) {
    if b then [Record(NameLabels(name), kind, cls, ttl, if rdata.Some? then rdata.value else [])] else []
  }

  /** The answer's records, in order. */
  function Answers(c: Config, w: Wants): seq<Record> {
    One(w.ptr, Service(), TYPE_PTR, CLASS_IN, TTL_PTR, PtrData(c)) +
    One(w.srv, c.fqdn, TYPE_SRV, CLASS_IN_FLUSH, TTL_HOST, SrvData(c)) +
    One(w.txt, c.fqdn, TYPE_TXT, CLASS_IN_FLUSH, TTL_PTR, TxtData(c)) +
    One(w.a, c.host, TYPE_A, CLASS_IN_FLUSH, TTL_HOST, AData(c)) +
    One(w.a, c.host, TYPE_NSEC, CLASS_IN_FLUSH, TTL_HOST, NsecData(c))
  }

  /** The names the answer's records carry can be written. */
  predicate Writable(c: Config, w: Wants) {
    (w.ptr || w.srv || w.txt ==> Encodable(NameLabels(c.fqdn))) && (w.srv || w.a ==> Encodable(NameLabels(c.host)))
  }
}
