/** Taking a received DNS message apart: mdns_records_parse, the parsing part of mdns_query_recv and
    mdns_record_parse_ptr/srv/a/aaaa/txt (windows/3rdparty/mdns/mdns.h).  What the C code hands to its
    callback is collected as a sequence of entries. */
module DnsMessages {
  import opened Bytes
  import opened DnsNames

  const TYPE_A: uint16 := 1
  const TYPE_PTR: uint16 := 12
  const TYPE_TXT: uint16 := 16
  const TYPE_AAAA: uint16 := 28
  const TYPE_SRV: uint16 := 33

  const HEADER_SIZE := 12
  const FIXED_SIZE := 10

  datatype Section = Answer | Authority | Additional

  /** One call of the record callback. */
  datatype Entry = Entry(section: Section, queryId: uint16, rtype: uint16, rclass: uint16, ttl: uint32,
                         nameOffset: nat, nameLength: nat, offset: nat, length: nat)

  datatype Parsed = Parsed(entries: seq<Entry>, next: nat)

  function SkipOrStay(b: seq<byte>, offset: nat): nat {
    match Skip(b, offset) case None => offset case Some(n) => n
  }

  function EntryAt(b: seq<byte>, offset: nat, section: Section, id: uint16): Entry
    requires offset <= SkipOrStay(b, offset) && SkipOrStay(b, offset) + FIXED_SIZE <= |b|
  {
    var o := SkipOrStay(b, offset);
    Entry(section, id, GetU16BE(b, o), GetU16BE(b, o + 2), GetU32BE(b, o + 4), offset, o - offset,
          o + FIXED_SIZE, GetU16BE(b, o + 8))
  }

  lemma SkipAdvances(b: seq<byte>, offset: nat)
    ensures offset <= SkipOrStay(b, offset)
    ensures Skip(b, offset).Some? ==> offset < SkipOrStay(b, offset) <= |b|
  {
    if Skip(b, offset).Some? { SkipInBounds(b, offset, MAX_SUBSTRINGS + 1); }
  }

  /** mdns_records_parse: a record that does not fit is passed over, a missing fixed part ends the list, and so does the
      callback, which then leaves the offset in front of the data it has just seen. */
  function ParseUntil(b: seq<byte>, offset: nat, section: Section, id: uint16, records: nat, stop: Entry -> bool): Parsed
    decreases records
  {
    if records == 0 then Parsed([], offset) else
    SkipAdvances(b, offset);
    var o := SkipOrStay(b, offset);
    if o + FIXED_SIZE > |b| then Parsed([], o) else
    var e := EntryAt(b, offset, section, id);
    var fits := e.length <= |b| - e.offset;
    if fits && stop(e) then Parsed([e], e.offset) else
    var rest := ParseUntil(b, e.offset + e.length, section, id, records - 1, stop);
    if fits then Parsed([e] + rest.entries, rest.next) else rest
  }

  /** The callback of the browser never stops. */
  function Never(e: Entry): bool { false }

  function ParseRecords(b: seq<byte>, offset: nat, section: Section, id: uint16, records: nat): Parsed {
    ParseUntil(b, offset, section, id, records, Never)
  }

  /** The fixed part behind a name. */
  method ReadEntry(buffer: array<byte>, size: nat, nameOffset: nat, offset: nat, section: Section, id: uint16)
    returns (e: Entry)
    requires size <= buffer.Length
    requires nameOffset <= offset == SkipOrStay(buffer[..size], nameOffset) && offset + FIXED_SIZE <= size
    ensures e == EntryAt(buffer[..size], nameOffset, section, id)
  {
    hide SkipOrStay, GetU16BE, GetU32BE;
    var nameLength := offset - nameOffset;
    var data := buffer[offset..offset + FIXED_SIZE];
    SliceOfPrefix(buffer[..], size, offset, offset + FIXED_SIZE);
    EntryFields(buffer[..size], nameOffset, section, id, data);
    var rtype, rclass, ttl, length := GetU16BE(data, 0), GetU16BE(data, 2), GetU32BE(data, 4), GetU16BE(data, 8);
    e := Entry(section, id, rtype, rclass, ttl, nameOffset, nameLength, offset + FIXED_SIZE, length);
  }

  method RecordsParse(buffer: array<byte>, size: nat, start: nat, section: Section, id: uint16, records: nat,
                      stop: Entry -> bool)
    returns (offset: nat, seen: seq<Entry>)
    requires size <= buffer.Length
    ensures Parsed(seen, offset) == ParseUntil(buffer[..size], start, section, id, records, stop)
  {
    hide ParseUntil, SkipOrStay, Skip, EntryAt;
    ghost var b := buffer[..size];
    offset, seen := start, [];
    var i := 0;
    while i < records
      invariant i <= records
      invariant
        var all := ParseUntil(b, start, section, id, records, stop);
        var rest := ParseUntil(b, offset, section, id, records - i, stop);
        all.entries == seen + rest.entries && all.next == rest.next
    {
      var nameOffset := offset;
      var ok, o := StringSkip(buffer, size, offset);
      UntilStep(b, offset, section, id, records - i, stop);
      offset := o;
      if offset + FIXED_SIZE > size { return; }
      var e := ReadEntry(buffer, size, nameOffset, offset, section, id);
      offset := offset + FIXED_SIZE;
      ghost var rest := ParseUntil(b, offset + e.length, section, id, records - i - 1, stop);
      if e.length <= size - offset {
        Regroup3(seen, [e], rest.entries);
        seen := seen + [e];
        if stop(e) { return; }
      }
      offset := offset + e.length;
      i := i + 1;
    }
    UntilEnd(b, offset, section, id, stop);
  }

  lemma UntilStep(b: seq<byte>, offset: nat, section: Section, id: uint16, records: nat, stop: Entry -> bool)
    requires records > 0
    ensures var o := SkipOrStay(b, offset);
      && offset <= o && o == (if Skip(b, offset).Some? then Skip(b, offset).value else offset)
      && var p := ParseUntil(b, offset, section, id, records, stop);
         if o + FIXED_SIZE > |b| then p == Parsed([], o)
         else
           var e := EntryAt(b, offset, section, id);
           var rest := ParseUntil(b, e.offset + e.length, section, id, records - 1, stop);
           var fits := e.length <= |b| - e.offset;
           && e.offset == o + FIXED_SIZE
           && if fits && stop(e) then p == Parsed([e], e.offset)
              else p.next == rest.next && p.entries == if fits then [e] + rest.entries else rest.entries
  {
    SkipAdvances(b, offset);
  }

  lemma UntilEnd(b: seq<byte>, offset: nat, section: Section, id: uint16, stop: Entry -> bool)
    ensures ParseUntil(b, offset, section, id, 0, stop) == Parsed([], offset)
  {
  }

  /** A callback that stops gets what it would have got anyway, up to and including the first entry it stops at;
      the offset is then left in front of that entry's data. */
  lemma {:induction false} StoppedIsPrefix(b: seq<byte>, offset: nat, section: Section, id: uint16, records: nat,
                                           stop: Entry -> bool)
    ensures var p := ParseUntil(b, offset, section, id, records, stop);
      var seen := p.entries;
      && seen <= ParseRecords(b, offset, section, id, records).entries
      && (forall i | 0 <= i < |seen| - 1 :: !stop(seen[i]))
      && (seen == ParseRecords(b, offset, section, id, records).entries || (seen != [] && stop(seen[|seen| - 1])))
      && (seen != [] && stop(seen[|seen| - 1]) ==> p.next == seen[|seen| - 1].offset)
    decreases records
  {
    hide ParseUntil, SkipOrStay, EntryAt;
    if records == 0 {
      UntilEnd(b, offset, section, id, stop);
      UntilEnd(b, offset, section, id, Never);
    } else {
      UntilStep(b, offset, section, id, records, stop);
      UntilStep(b, offset, section, id, records, Never);
      if SkipOrStay(b, offset) + FIXED_SIZE <= |b| {
        var e := EntryAt(b, offset, section, id);
        StoppedIsPrefix(b, e.offset + e.length, section, id, records - 1, stop);
      }
    }
  }

  lemma ParseStep(b: seq<byte>, offset: nat, section: Section, id: uint16, records: nat)
    requires records > 0
    ensures var o := SkipOrStay(b, offset);
      && offset <= o && o == (if Skip(b, offset).Some? then Skip(b, offset).value else offset)
      && var p := ParseRecords(b, offset, section, id, records);
         if o + FIXED_SIZE > |b| then p == Parsed([], o)
         else
           var e := EntryAt(b, offset, section, id);
           var rest := ParseRecords(b, e.offset + e.length, section, id, records - 1);
           && p.next == rest.next && e.offset == o + FIXED_SIZE
           && p.entries == if e.length <= |b| - e.offset then [e] + rest.entries else rest.entries
  {
    hide ParseUntil;
    UntilStep(b, offset, section, id, records, Never);
  }

  lemma ParseEnd(b: seq<byte>, offset: nat, section: Section, id: uint16)
    ensures ParseRecords(b, offset, section, id, 0) == Parsed([], offset)
  {
  }

  lemma PastEnd(b: seq<byte>, offset: nat, section: Section, id: uint16, records: nat)
    requires offset > |b|
    ensures ParseRecords(b, offset, section, id, records).entries == []
  {
    assert NextSubstring(b, offset).Bad?;
    assert Skip(b, offset).None?;
  }

  lemma EntryFields(b: seq<byte>, offset: nat, section: Section, id: uint16, data: seq<byte>)
    requires offset <= SkipOrStay(b, offset) && SkipOrStay(b, offset) + FIXED_SIZE <= |b|
    requires data == b[SkipOrStay(b, offset)..SkipOrStay(b, offset) + FIXED_SIZE]
    ensures var o := SkipOrStay(b, offset);
      EntryAt(b, offset, section, id) == Entry(section, id, GetU16BE(data, 0), GetU16BE(data, 2),
        GetU32BE(data, 4), offset, o - offset, o + FIXED_SIZE, GetU16BE(data, 8))
  {
  }

  // ---------- the whole message ----------

  /** Past the questions: four bytes of type and class behind every name; None when a name is malformed. */
  function SkipQuestions(b: seq<byte>, offset: nat, questions: nat): Option<nat>
    decreases questions
  {
    if questions == 0 then Some(offset) else
    match Skip(b, offset) case None => None case Some(n) => SkipQuestions(b, n + 4, questions - 1)
  }

  /** The three record sections; a short section ends the message. */
  function SectionsUntil(b: seq<byte>, offset: nat, id: uint16, answers: nat, authorities: nat, additionals: nat,
                         stop: Entry -> bool): seq<Entry>
  {
    var p := ParseUntil(b, offset, Answer, id, answers, stop);
    if |p.entries| != answers then p.entries else
    var q := ParseUntil(b, p.next, Authority, id, authorities, stop);
    if |q.entries| != authorities then p.entries + q.entries else
    var r := ParseUntil(b, q.next, Additional, id, additionals, stop);
    p.entries + q.entries + r.entries
  }

  function Sections(b: seq<byte>, offset: nat, id: uint16, answers: nat, authorities: nat, additionals: nat)
    : seq<Entry>
  {
    SectionsUntil(b, offset, id, answers, authorities, additionals, Never)
  }

  lemma SectionsStep(b: seq<byte>, offset: nat, id: uint16, answers: nat, authorities: nat, additionals: nat)
    ensures var p := ParseRecords(b, offset, Answer, id, answers);
      var q := ParseRecords(b, p.next, Authority, id, authorities);
      var r := ParseRecords(b, q.next, Additional, id, additionals);
      Sections(b, offset, id, answers, authorities, additionals) ==
        if |p.entries| != answers then p.entries
        else if |q.entries| != authorities then p.entries + q.entries
        else p.entries + q.entries + r.entries
  {
    hide ParseUntil;
  }

  /** mdns_query_recv on the size bytes just received into the buffer. */
  function QueryUntil(buf: seq<byte>, size: nat, onlyId: int, stop: Entry -> bool): seq<Entry>
    requires HEADER_SIZE <= |buf| && size <= |buf|
  {
    if size == 0 then [] else
    var id := GetU16BE(buf, 0);
    if onlyId > 0 && id != onlyId then [] else
    match SkipQuestions(buf[..size], HEADER_SIZE, GetU16BE(buf, 4))
    case None => []
    case Some(n) => SectionsUntil(buf[..size], n, id, GetU16BE(buf, 6), GetU16BE(buf, 8), GetU16BE(buf, 10), stop)
  }

  function QueryRecv(buf: seq<byte>, size: nat, onlyId: int): seq<Entry>
    requires HEADER_SIZE <= |buf| && size <= |buf|
  {
    QueryUntil(buf, size, onlyId, Never)
  }

  lemma WithoutQuestions(buf: seq<byte>, size: nat, onlyId: int)
    requires HEADER_SIZE <= size <= |buf| && GetU16BE(buf, 4) == 0
    ensures QueryRecv(buf, size, onlyId) ==
      var id := GetU16BE(buf, 0);
      if onlyId > 0 && id != onlyId then []
      else Sections(buf[..size], HEADER_SIZE, id, GetU16BE(buf, 6), GetU16BE(buf, 8), GetU16BE(buf, 10))
  {
    hide SectionsUntil, GetU16BE;
    QuestionStep(buf[..size], HEADER_SIZE, 0);
  }

  method QueryReceive(buffer: array<byte>, size: nat, onlyId: int, stop: Entry -> bool)
    returns (total: nat, seen: seq<Entry>)
    requires HEADER_SIZE <= buffer.Length && size <= buffer.Length
    ensures seen == QueryUntil(buffer[..], size, onlyId, stop) && total == |seen|
  {
    hide SkipQuestions, Skip, ParseUntil, GetU16BE;
    if size == 0 { return 0, []; }
    ghost var b := buffer[..size];
    assert b == buffer[..][..size];
    var header := buffer[..HEADER_SIZE];
    HeaderFields(buffer[..], header);
    var id := GetU16BE(header, 0);
    if onlyId > 0 && id != onlyId { return 0, []; }
    var questions := GetU16BE(header, 4);
    var offset: nat := HEADER_SIZE;
    var i := 0;
    while i < questions
      invariant 0 <= i <= questions
      invariant SkipQuestions(b, HEADER_SIZE, questions) == SkipQuestions(b, offset, questions - i)
    {
      var ok, next := StringSkip(buffer, size, offset);
      QuestionStep(b, offset, questions - i);
      if !ok { return 0, []; }
      offset := next + 4;
      i := i + 1;
    }
    QuestionStep(b, offset, 0);
    var records;
    offset, records := RecordsParse(buffer, size, offset, Answer, id, GetU16BE(header, 6), stop);
    seen := records;
    if |records| != GetU16BE(header, 6) { return |seen|, seen; }
    offset, records := RecordsParse(buffer, size, offset, Authority, id, GetU16BE(header, 8), stop);
    seen := seen + records;
    if |records| != GetU16BE(header, 8) { return |seen|, seen; }
    offset, records := RecordsParse(buffer, size, offset, Additional, id, GetU16BE(header, 10), stop);
    seen := seen + records;
    return |seen|, seen;
  }

  lemma HeaderFields(buf: seq<byte>, header: seq<byte>)
    requires HEADER_SIZE <= |buf| && header == buf[..HEADER_SIZE]
    ensures GetU16BE(header, 0) == GetU16BE(buf, 0) && GetU16BE(header, 4) == GetU16BE(buf, 4)
         && GetU16BE(header, 6) == GetU16BE(buf, 6) && GetU16BE(header, 8) == GetU16BE(buf, 8)
         && GetU16BE(header, 10) == GetU16BE(buf, 10)
  {
  }

  lemma QuestionStep(b: seq<byte>, offset: nat, questions: nat)
    ensures SkipQuestions(b, offset, questions) ==
      if questions == 0 then Some(offset)
      else match Skip(b, offset) case None => None case Some(n) => SkipQuestions(b, n + 4, questions - 1)
  {
  }

  // ---------- arbitrary bytes ----------

  /** An entry's name and data lie in order inside the message. */
  predicate Inside(e: Entry, from: nat, size: nat) {
    from <= e.nameOffset && e.nameOffset + e.nameLength + FIXED_SIZE == e.offset && e.offset + e.length <= size
  }

  predicate Ordered(es: seq<Entry>, from: nat, size: nat) {
    && (forall i | 0 <= i < |es| :: Inside(es[i], from, size))
    && (forall i, j | 0 <= i < j < |es| :: es[i].offset + es[i].length <= es[j].nameOffset)
  }

  lemma {:induction false} RecordsInOrder(b: seq<byte>, offset: nat, section: Section, id: uint16, records: nat)
    ensures var p := ParseRecords(b, offset, section, id, records);
      && |p.entries| <= records && offset <= p.next && Ordered(p.entries, offset, |b|)
      && (forall e <- p.entries :: e.section == section && e.offset + e.length <= p.next)
    decreases records
  {
    hide ParseRecords, SkipOrStay, EntryAt, Ordered;
    NothingIsOrdered(offset, |b|);
    if records == 0 {
      ParseEnd(b, offset, section, id);
    } else {
      ParseStep(b, offset, section, id, records);
      var o := SkipOrStay(b, offset);
      if o + FIXED_SIZE <= |b| {
        var e := EntryAt(b, offset, section, id);
        var rest := ParseRecords(b, e.offset + e.length, section, id, records - 1).entries;
        RecordsInOrder(b, e.offset + e.length, section, id, records - 1);
        if e.length <= |b| - e.offset {
          OneIsOrdered(b, offset, section, id);
          OrderedConcat([e], rest, offset, e.offset + e.length, |b|);
        } else {
          PastEnd(b, e.offset + e.length, section, id, records - 1);
        }
      }
    }
  }

  lemma NothingIsOrdered(from: nat, size: nat)
    ensures Ordered([], from, size)
  {
  }

  lemma OneIsOrdered(b: seq<byte>, offset: nat, section: Section, id: uint16)
    requires offset <= SkipOrStay(b, offset) && SkipOrStay(b, offset) + FIXED_SIZE <= |b|
    requires var e := EntryAt(b, offset, section, id); e.offset + e.length <= |b|
    ensures var e := EntryAt(b, offset, section, id); e.section == section && Ordered([e], offset, |b|)
  {
    hide SkipOrStay;
  }

  lemma OrderedConcat(x: seq<Entry>, y: seq<Entry>, from: nat, mid: nat, size: nat)
    requires Ordered(x, from, size) && Ordered(y, mid, size) && from <= mid
    requires forall e <- x :: e.offset + e.length <= mid
    ensures Ordered(x + y, from, size)
  {
    forall i, j | 0 <= i < j < |x + y|
      ensures (x + y)[i].offset + (x + y)[i].length <= (x + y)[j].nameOffset
    {
      if i < |x| <= j { assert x[i] in x && Inside(y[j - |x|], mid, size); }
    }
  }

  /** Whatever bytes arrive: every slice handed to the callback lies inside the message, the slices are
      disjoint and in increasing order, and there are no more than the header announces. */
  lemma ReceivedSlicesAreOrdered(buf: seq<byte>, size: nat, onlyId: int)
    requires HEADER_SIZE <= |buf| && size <= |buf|
    ensures var es := QueryRecv(buf, size, onlyId);
      && Ordered(es, HEADER_SIZE, size)
      && |es| <= GetU16BE(buf, 6) as int + GetU16BE(buf, 8) + GetU16BE(buf, 10)
  {
    var b, id := buf[..size], GetU16BE(buf, 0);
    QuestionsAdvance(b, HEADER_SIZE, GetU16BE(buf, 4));
    match SkipQuestions(b, HEADER_SIZE, GetU16BE(buf, 4))
    case None =>
    case Some(n) => SectionsInOrder(b, n, id, GetU16BE(buf, 6), GetU16BE(buf, 8), GetU16BE(buf, 10));
      var es := Sections(b, n, id, GetU16BE(buf, 6), GetU16BE(buf, 8), GetU16BE(buf, 10));
      forall i | 0 <= i < |es| ensures Inside(es[i], HEADER_SIZE, |b|) { assert Inside(es[i], n, |b|); }
  }

  lemma {:induction false} QuestionsAdvance(b: seq<byte>, offset: nat, questions: nat)
    ensures var r := SkipQuestions(b, offset, questions); r.Some? ==> offset <= r.value
    decreases questions
  {
    if questions > 0 && Skip(b, offset).Some? {
      SkipAdvances(b, offset);
      QuestionsAdvance(b, Skip(b, offset).value + 4, questions - 1);
    }
  }

  lemma SectionsInOrder(b: seq<byte>, offset: nat, id: uint16, answers: nat, authorities: nat, additionals: nat)
    ensures var es := Sections(b, offset, id, answers, authorities, additionals);
      Ordered(es, offset, |b|) && |es| <= answers + authorities + additionals
  {
    hide ParseRecords, Ordered, Sections;
    SectionsStep(b, offset, id, answers, authorities, additionals);
    var p := ParseRecords(b, offset, Answer, id, answers);
    RecordsInOrder(b, offset, Answer, id, answers);
    var q := ParseRecords(b, p.next, Authority, id, authorities);
    RecordsInOrder(b, p.next, Authority, id, authorities);
    var r := ParseRecords(b, q.next, Additional, id, additionals);
    RecordsInOrder(b, q.next, Additional, id, additionals);
    OrderedConcat(p.entries, q.entries, offset, p.next, |b|);
    forall e | e in p.entries + q.entries ensures e.offset + e.length <= q.next { }
    OrderedConcat(p.entries + q.entries, r.entries, offset, q.next, |b|);
  }

  // ---------- record data ----------

  function Text(name: Option<seq<Label>>, capacity: nat): seq<byte> {
    match name case None => [] case Some(labels) => Take(Dotted(labels), capacity)
  }

  function ParsePtr(b: seq<byte>, offset: nat, length: nat, capacity: nat): seq<byte> {
    if |b| >= offset + length && length >= 2 then Text(Name(b, offset), capacity) else []
  }

  datatype Srv = Srv(priority: uint16, weight: uint16, port: uint16, name: seq<byte>)

  function ParseSrv(b: seq<byte>, offset: nat, length: nat, capacity: nat): Srv {
    if |b| >= offset + length && length >= 8 then
      Srv(GetU16BE(b, offset), GetU16BE(b, offset + 2), GetU16BE(b, offset + 4), Text(Name(b, offset + 6), capacity))
    else Srv(0, 0, 0, [])
  }

  /** mdns_record_parse_a (width 4) and _aaaa (width 16): zero unless the length is exactly the width. */
  function ParseAddress(b: seq<byte>, offset: nat, length: nat, width: nat): seq<byte> {
    if |b| >= offset + length && length == width then b[offset..offset + width] else seq(width, _ => 0)
  }

  /** Data that is too short, of the wrong length or not all there gives an empty name, zeros, or the zero address; all
      other data is read where it stands. */
  lemma RecordDataMeans(b: seq<byte>, offset: nat, length: nat, capacity: nat)
    ensures var there := offset + length <= |b|;
      var srv := ParseSrv(b, offset, length, capacity);
      && (!there || length < 2 ==> ParsePtr(b, offset, length, capacity) == [])
      && (there && length >= 2 && Name(b, offset).Some? ==>
            ParsePtr(b, offset, length, capacity) == Take(Dotted(Name(b, offset).value), capacity))
      && (!there || length < 8 ==> srv.priority == 0 && srv.weight == 0 && srv.port == 0 && srv.name == [])
      && (there && length >= 8 ==>
            && srv.priority == 256 * (b[offset] as int) + b[offset + 1]
            && srv.weight == 256 * (b[offset + 2] as int) + b[offset + 3]
            && srv.port == 256 * (b[offset + 4] as int) + b[offset + 5])
      && (there && length >= 8 && Name(b, offset + 6).Some? ==>
            srv.name == Take(Dotted(Name(b, offset + 6).value), capacity))
      && ParseAddress(b, offset, length, 4) == (if there && length == 4 then b[offset..offset + 4] else [0, 0, 0, 0])
      && ParseAddress(b, offset, length, 16) ==
           (if there && length == 16 then b[offset..offset + 16]
            else [0, 0, 0, 0, 0, 0, 0, 0, 0, 0, 0, 0, 0, 0, 0, 0])
  {
    hide Name, Take, Dotted;
  }

  /** A key with its value, or without one when the string holds no '='. */
  datatype Txt = Txt(key: seq<byte>, value: Option<seq<byte>>)

  const EQUALS: byte := 61

  predicate Printable(c: byte) { 0x20 <= c <= 0x7E }

  /** Where the key ends: at the first '=', at the end, or 0 when an unprintable byte comes first. */
  function Separator(s: seq<byte>, c: nat): (r: nat)
    requires c <= |s|
    ensures r <= |s|
    decreases |s| - c
  {
    if c == |s| then |s|
    else if !Printable(s[c]) then 0
    else if s[c] == EQUALS then c
    else Separator(s, c + 1)
  }

  function TxtOf(s: seq<byte>): Option<Txt> {
    var sep := Separator(s, 0);
    if sep == 0 then None
    else if sep < |s| then Some(Txt(s[..sep], Some(s[sep + 1..])))
    else Some(Txt(s, None))
  }

  function ParseTxtFrom(b: seq<byte>, offset: nat, end: nat, capacity: nat): seq<Txt>
    requires end <= |b|
    decreases end - offset
  {
    if offset >= end || capacity == 0 || b[offset] >= end - offset then [] else
    var next := offset + b[offset] + 1;
    match TxtOf(b[offset + 1..next])
    case None => ParseTxtFrom(b, next, end, capacity)
    case Some(t) => [t] + ParseTxtFrom(b, next, end, capacity - 1)
  }

  function ParseTxt(b: seq<byte>, offset: nat, length: nat, capacity: nat): seq<Txt> {
    ParseTxtFrom(b, offset, if |b| < offset + length then |b| else offset + length, capacity)
  }

  method RecordParseTxt(buffer: array<byte>, size: nat, start: nat, length: nat, capacity: nat)
    returns (records: seq<Txt>)
    requires size <= buffer.Length
    ensures records == ParseTxt(buffer[..size], start, length, capacity)
  {
    hide ParseTxtFrom, TxtOf, Separator;
    ghost var b := buffer[..size];
    records := [];
    var offset: nat := start;
    var end := if size < offset + length then size else offset + length;
    while offset < end && |records| < capacity
      invariant |records| <= capacity
      invariant ParseTxt(b, start, length, capacity) ==
                records + ParseTxtFrom(b, offset, end, capacity - |records|)
    {
      TxtStep(b, offset, end, capacity - |records|);
      var sublength := buffer[offset];
      if sublength >= end - offset { return; }
      var s := buffer[offset + 1..offset + 1 + sublength];
      SliceOfPrefix(buffer[..], size, offset + 1, offset + 1 + sublength);
      ghost var before := records;
      offset := offset + sublength + 1;
      var separator := FindSeparator(s);
      TxtCases(s);
      if separator > 0 {
        if separator < |s| {
          records := records + [Txt(s[..separator], Some(s[separator + 1..]))];
        } else {
          records := records + [Txt(s, None)];
        }
        Regroup3(before, [records[|before|]], ParseTxtFrom(b, offset, end, capacity - |records|));
      }
    }
    TxtEnd(b, offset, end, capacity - |records|);
  }

  lemma TxtStep(b: seq<byte>, offset: nat, end: nat, capacity: nat)
    requires offset < end <= |b| && capacity > 0
    ensures ParseTxtFrom(b, offset, end, capacity) ==
      if b[offset] >= end - offset then [] else
      var next := offset + b[offset] + 1;
      match TxtOf(b[offset + 1..next])
      case None => ParseTxtFrom(b, next, end, capacity)
      case Some(t) => [t] + ParseTxtFrom(b, next, end, capacity - 1)
  {
  }

  lemma TxtCases(s: seq<byte>)
    ensures TxtOf(s) == var sep := Separator(s, 0);
      if sep == 0 then None else if sep < |s| then Some(Txt(s[..sep], Some(s[sep + 1..]))) else Some(Txt(s, None))
  {
  }

  lemma TxtEnd(b: seq<byte>, offset: nat, end: nat, capacity: nat)
    requires end <= |b| && (offset >= end || capacity == 0)
    ensures ParseTxtFrom(b, offset, end, capacity) == []
  {
  }

  method FindSeparator(s: seq<byte>) returns (separator: nat)
    ensures separator == Separator(s, 0)
  {
    separator := |s|;
    var c := 0;
    while c < |s|
      invariant c <= |s| && separator == |s|
      invariant Separator(s, 0) == Separator(s, c)
    {
      if !Printable(s[c]) { return 0; }
      if s[c] == EQUALS { return c; }
      c := c + 1;
    }
  }

  method RecordParsePtr(buffer: array<byte>, size: nat, offset: nat, length: nat, str: array<byte>, capacity: nat)
    returns (n: nat)
    requires size <= buffer.Length && capacity <= str.Length && str != buffer
    modifies str
    ensures n <= capacity && str[..n] == ParsePtr(buffer[..size], offset, length, capacity)
  {
    if size < offset + length || length < 2 { return 0; }
    var next;
    next, n := StringExtract(buffer, size, offset, str, capacity);
  }

  method RecordParseSrv(buffer: array<byte>, size: nat, offset: nat, length: nat, str: array<byte>, capacity: nat)
    returns (srv: Srv)
    requires size <= buffer.Length && capacity <= str.Length && str != buffer
    modifies str
    ensures srv == ParseSrv(buffer[..size], offset, length, capacity)
  {
    if size < offset + length || length < 8 { return Srv(0, 0, 0, []); }
    var data := buffer[offset..offset + 6];
    assert data == buffer[..size][offset..offset + 6];
    var next, n := StringExtract(buffer, size, offset + 6, str, capacity);
    srv := Srv(GetU16BE(data, 0), GetU16BE(data, 2), GetU16BE(data, 4), str[..n]);
  }
}
