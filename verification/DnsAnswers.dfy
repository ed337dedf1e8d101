/** Building a multicast DNS response: mdns_answer_add_record_header, mdns_answer_add_record,
    mdns_answer_add_txt_record and mdns_answer_multicast_rclass_ttl (windows/3rdparty/mdns/mdns.h). */
module DnsAnswers {
  import opened Bytes
  import opened DnsNames
  import opened DnsCompression
  import opened DnsEncoder
  import M = DnsMessages

  const CACHE_FLUSH: uint16 := 0x8000
  const RESPONSE_FLAGS: uint16 := 0x8400

  type Name = s: seq<byte> | s != [] witness [DOT]
  type IPv4 = s: seq<byte> | |s| == 4 witness [0, 0, 0, 0]
  type IPv6 = s: seq<byte> | |s| == 16 witness [0, 0, 0, 0, 0, 0, 0, 0, 0, 0, 0, 0, 0, 0, 0, 0]
  type OtherType = t: uint16 |
    t != M.TYPE_A && t != M.TYPE_PTR && t != M.TYPE_TXT && t != M.TYPE_AAAA && t != M.TYPE_SRV

  /** mdns_record_t: its union member follows its type. */
  datatype RData =
    | Ptr(target: Name)
    | Srv(priority: uint16, weight: uint16, port: uint16, host: Name)
    | A(addr: IPv4)
    | Aaaa(addr6: IPv6)
    | Text(key: seq<byte>, value: seq<byte>)
    | Other(rtype: OtherType)

  datatype Record = Record(name: Name, data: RData, rclass: uint16, ttl: uint32)

  function TypeOf(d: RData): uint16 {
    match d
    case Ptr(_) => M.TYPE_PTR
    case Srv(_, _, _, _) => M.TYPE_SRV
    case A(_) => M.TYPE_A
    case Aaaa(_) => M.TYPE_AAAA
    case Text(_, _) => M.TYPE_TXT
    case Other(t) => t
  }

  /** rclass & (IN | CACHE_FLUSH) */
  function MaskClass(c: uint16): uint16 { c % 2 + (if c >= CACHE_FLUSH then CACHE_FLUSH else 0) }

  /** mdns_record_update_rclass_ttl */
  function Update(r: Record, rclass: uint16, ttl: uint32): Record {
    var c := MaskClass(if r.rclass == 0 then rclass else r.rclass);
    r.(rclass := if r.data.Ptr? then c % CACHE_FLUSH else c,
       ttl := if r.ttl == 0 || ttl == 0 then ttl else r.ttl)
  }

  function Patch(w: Writer, at: nat, x: uint16): Writer
    requires at + 2 <= w.pos
  {
    Writer(w.buf[..at] + U16BE(x) + w.buf[at + 2..], w.pos, w.ring)
  }

  function FixedPart(rtype: uint16, rclass: uint16, ttl: uint32, length: uint16): (b: seq<byte>)
    ensures |b| == M.FIXED_SIZE
  {
    U16BE(rtype) + U16BE(rclass) + U32BE(ttl) + U16BE(length)
  }

  /** mdns_answer_add_record_header: name and fixed part, with a length of zero to be filled in later. */
  function PutHeader(w: Writer, r: Record): (o: Outcome)
    ensures o.Done? ==> |o.w.buf| == |w.buf| && w.pos + M.FIXED_SIZE <= o.w.pos
  {
    match PutLabels(w, LabelsOf(r.name))
    case Full(w1) => Full(w1)
    case Done(w1) =>
      if |w1.buf| - w1.pos < M.FIXED_SIZE then Full(w1)
      else Done(PutBytes(w1, FixedPart(TypeOf(r.data), r.rclass, r.ttl, 0)))
  }

  /** The data of a record, with the room checks of each type. */
  function PutData(w: Writer, d: RData): (o: Outcome)
    ensures o.Done? ==> |o.w.buf| == |w.buf| && w.pos <= o.w.pos
  {
    match d
    case Ptr(target) => PutLabels(w, LabelsOf(target))
    case Srv(priority, weight, port, host) =>
      if |w.buf| - w.pos <= 6 then Full(w)
      else PutLabels(PutBytes(w, U16BE(priority) + U16BE(weight) + U16BE(port)), LabelsOf(host))
    case A(addr) => if |w.buf| - w.pos < 4 then Full(w) else Done(PutBytes(w, addr))
    case Aaaa(addr) => if |w.buf| - w.pos < 16 then Full(w) else Done(PutBytes(w, addr))
    case _ => Done(w)
  }

  /** mdns_answer_add_record; TXT records are left for the end of their section. */
  function PutRecord(w: Writer, r: Record): (o: Outcome)
    ensures o.Done? ==> |o.w.buf| == |w.buf| && w.pos <= o.w.pos
  {
    if r.data.Text? then Done(w) else
    match PutHeader(w, r)
    case Full(w1) => Full(w1)
    case Done(w1) =>
      match PutData(w1, r.data)
      case Full(w2) => Full(w2)
      case Done(w2) => Done(Patch(w2, w1.pos - 2, (w2.pos - w1.pos) % 0x1_0000))
  }

  function PutRecords(w: Writer, rs: seq<Record>, rclass: uint16, ttl: uint32): (o: Outcome)
    ensures o.Done? ==> |o.w.buf| == |w.buf| && w.pos <= o.w.pos
    decreases |rs|
  {
    if rs == [] then Done(w) else
    match PutRecord(w, Update(rs[0], rclass, ttl))
    case Full(w1) => Full(w1)
    case Done(w1) => PutRecords(w1, rs[1..], rclass, ttl)
  }

  function TextBytes(key: seq<byte>, value: seq<byte>): seq<byte> {
    [(|key| + |value| + 1) % 0x100] + key + [M.EQUALS] + value
  }

  function PutText(w: Writer, key: seq<byte>, value: seq<byte>): (o: Outcome)
    ensures o.Done? ==>
      && |o.w.buf| == |w.buf| && w.pos + |TextBytes(key, value)| <= |w.buf|
      && o.w == PutBytes(w, TextBytes(key, value))
  {
    var n := |key| + |value| + 1;
    if |w.buf| - w.pos <= n || n > 0x3FFF then Full(w) else Done(PutBytes(w, TextBytes(key, value)))
  }

  /** The loop of mdns_answer_add_txt_record: the header is written before the first TXT string, data is
      then where the strings begin. */
  datatype TxtOutcome = TxtDone(w: Writer, data: Option<nat>) | TxtFull(w: Writer)

  function PutTexts(w: Writer, rs: seq<Record>, data: Option<nat>, rclass: uint16, ttl: uint32): (o: TxtOutcome)
    requires data.Some? ==> M.FIXED_SIZE <= data.value <= w.pos
    ensures o.TxtDone? ==> |o.w.buf| == |w.buf| && w.pos <= o.w.pos
    ensures o.TxtDone? && o.data.Some? ==> M.FIXED_SIZE <= o.data.value <= o.w.pos
    decreases |rs|
  {
    if rs == [] then TxtDone(w, data)
    else if !rs[0].data.Text? then PutTexts(w, rs[1..], data, rclass, ttl)
    else
      var start := if data.Some? then Done(w) else PutHeader(w, Update(rs[0], rclass, ttl));
      if start.Full? then TxtFull(start.w) else
      var from := if data.Some? then data.value else start.w.pos;
      match PutText(start.w, rs[0].data.key, rs[0].data.value)
      case Full(w1) => TxtFull(w1)
      case Done(w1) => PutTexts(w1, rs[1..], Some(from), rclass, ttl)
  }

  function PutTxtRecord(w: Writer, rs: seq<Record>, rclass: uint16, ttl: uint32): (o: Outcome)
    ensures o.Done? ==> |o.w.buf| == |w.buf| && w.pos <= o.w.pos
  {
    match PutTexts(w, rs, None, rclass, ttl)
    case TxtFull(w1) => Full(w1)
    case TxtDone(w1, None) => Done(w1)
    case TxtDone(w1, Some(from)) => Done(Patch(w1, from - 2, (w1.pos - from) % 0x1_0000))
  }

  function PutSection(w: Writer, rs: seq<Record>, rclass: uint16, ttl: uint32): (o: Outcome)
    ensures o.Done? ==> |o.w.buf| == |w.buf| && w.pos <= o.w.pos
  {
    match PutRecords(w, rs, rclass, ttl)
    case Full(w1) => Full(w1)
    case Done(w1) => PutTxtRecord(w1, rs, rclass, ttl)
  }

  /** mdns_answer_get_record_count: all TXT records count as one. */
  function RecordCount(rs: seq<Record>): uint16 {
    (Plain(rs) + if HasText(rs) then 1 else 0) % 0x1_0000
  }

  predicate HasText(rs: seq<Record>) { exists i | 0 <= i < |rs| :: rs[i].data.Text? }

  function Plain(rs: seq<Record>): nat {
    if rs == [] then 0 else (if rs[0].data.Text? then 0 else 1) + Plain(rs[1..])
  }

  function Header(authority: seq<Record>, additional: seq<Record>): (b: seq<byte>)
    ensures |b| == M.HEADER_SIZE
  {
    U16BE(0) + U16BE(RESPONSE_FLAGS) + U16BE(0) + U16BE(1) +
    U16BE(RecordCount(authority)) + U16BE(RecordCount(additional))
  }

  /** mdns_answer_multicast_rclass_ttl: the bytes handed to the socket, or None for the -1 result. */
  function Answer(buf: seq<byte>, answer: Record, authority: seq<Record>, additional: seq<Record>,
                  rclass: uint16, ttl: uint32): Option<seq<byte>>
  {
    if |buf| < M.HEADER_SIZE + 32 + 4 then None else
    var w := PutBytes(Writer(buf, 0, Some(EMPTY_RING)), Header(authority, additional));
    match PutRecord(w, Update(answer, rclass, ttl))
    case Full(_) => None
    case Done(w1) =>
      match PutSection(w1, authority, rclass, ttl)
      case Full(_) => None
      case Done(w2) =>
        match PutSection(w2, additional, rclass, ttl)
        case Full(_) => None
        case Done(w3) => Some(w3.Out())
  }
}
