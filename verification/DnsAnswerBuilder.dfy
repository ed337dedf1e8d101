/** The C answer builder itself, writing into one buffer through one string table. */
module DnsAnswerBuilder {
  import opened Bytes
  import opened DnsCompression
  import opened DnsEncoder
  import opened DnsAnswers
  import M = DnsMessages

  method WriteBytes(buffer: array<byte>, data: nat, bytes: seq<byte>, ghost table: StringTable) returns (next: nat)
    requires data + |bytes| <= buffer.Length && table.Valid() && table.offset as object != buffer
    modifies buffer
    ensures next == data + |bytes| && table.Valid()
    ensures View(buffer, next, table) == PutBytes(old(View(buffer, data, table)), bytes)
  {
    ghost var b := buffer[..];
    forall i | 0 <= i < |bytes| { buffer[data + i] := bytes[i]; }
    next := data + |bytes|;
    assert buffer[..] == b[..data] + bytes + b[next..];
  }

  /** mdns_htons at a place already written: the record length. */
  method FillLength(buffer: array<byte>, at: nat, x: uint16, ghost data: nat, ghost table: StringTable)
    requires at + 2 <= data <= buffer.Length && table.Valid() && table.offset as object != buffer
    modifies buffer
    ensures table.Valid() && View(buffer, data, table) == Patch(old(View(buffer, data, table)), at, x)
  {
    ghost var b := buffer[..];
    buffer[at], buffer[at + 1] := U16BE(x)[0], U16BE(x)[1];
    assert buffer[..] == b[..at] + U16BE(x) + b[at + 2..];
  }

  method AddRecordHeader(buffer: array<byte>, start: nat, r: Record, table: StringTable) returns (data: Option<nat>)
    requires start <= buffer.Length && table.Valid() && table.offset as object != buffer
    modifies buffer, table, table.offset
    ensures Leaves(PutHeader(old(View(buffer, start, table)), r), buffer, table, data)
  {
    hide PutLabels, LabelsOf, FixedPart, PutBytes;
    data := StringMake(buffer, start, r.name, table);
    if data.None? { return; }
    if buffer.Length - data.value < M.FIXED_SIZE { return None; }
    var next := WriteBytes(buffer, data.value, FixedPart(TypeOf(r.data), r.rclass, r.ttl, 0), table);
    return Some(next);
  }

  method AddRecordData(buffer: array<byte>, start: nat, d: RData, table: StringTable) returns (data: Option<nat>)
    requires start <= buffer.Length && table.Valid() && table.offset as object != buffer
    modifies buffer, table, table.offset
    ensures Leaves(PutData(old(View(buffer, start, table)), d), buffer, table, data)
  {
    hide PutLabels, LabelsOf, PutBytes;
    var remain := buffer.Length - start;
    match d
    case Ptr(target) =>
      data := StringMake(buffer, start, target, table);
    case Srv(priority, weight, port, host) =>
      if remain <= 6 { return None; }
      var next := WriteBytes(buffer, start, U16BE(priority) + U16BE(weight) + U16BE(port), table);
      data := StringMake(buffer, next, host, table);
    case A(addr) =>
      if remain < 4 { return None; }
      var next := WriteBytes(buffer, start, addr, table);
      data := Some(next);
    case Aaaa(addr) =>
      if remain < 16 { return None; }
      var next := WriteBytes(buffer, start, addr, table);
      data := Some(next);
    case Text(_, _) => data := Some(start);
    case Other(_) => data := Some(start);
  }

  /** mdns_answer_add_record */
  method AddRecord(buffer: array<byte>, start: nat, r: Record, table: StringTable) returns (data: Option<nat>)
    requires start <= buffer.Length && table.Valid() && table.offset as object != buffer
    modifies buffer, table, table.offset
    ensures Leaves(PutRecord(old(View(buffer, start, table)), r), buffer, table, data)
  {
    hide PutHeader, PutData, Patch;
    if r.data.Text? { return Some(start); }
    data := AddRecordHeader(buffer, start, r, table);
    if data.None? { return; }
    var recordData := data.value;
    data := AddRecordData(buffer, recordData, r.data, table);
    if data.None? { return; }
    FillLength(buffer, recordData - 2, (data.value - recordData) % 0x1_0000, data.value, table);
  }

  method AddText(buffer: array<byte>, start: nat, key: seq<byte>, value: seq<byte>, table: StringTable)
    returns (data: Option<nat>)
    requires start <= buffer.Length && table.Valid() && table.offset as object != buffer
    modifies buffer
    ensures Leaves(PutText(old(View(buffer, start, table)), key, value), buffer, table, data)
  {
    hide PutBytes;
    var n := |key| + |value| + 1;
    if buffer.Length - start <= n || n > 0x3FFF { return None; }
    var next := WriteBytes(buffer, start, TextBytes(key, value), table);
    return Some(next);
  }

  lemma TextsUnfold(w: Writer, rs: seq<Record>, data: Option<nat>, rclass: uint16, ttl: uint32)
    requires data.Some? ==> M.FIXED_SIZE <= data.value <= w.pos
    ensures rs == [] ==> PutTexts(w, rs, data, rclass, ttl) == TxtDone(w, data)
    ensures rs != [] && !rs[0].data.Text? ==>
      PutTexts(w, rs, data, rclass, ttl) == PutTexts(w, rs[1..], data, rclass, ttl)
    ensures rs != [] && rs[0].data.Text? ==>
      var start := if data.Some? then Done(w) else PutHeader(w, Update(rs[0], rclass, ttl));
      var t := PutText(start.w, rs[0].data.key, rs[0].data.value);
      var from := if data.Some? then data.value else start.w.pos;
      && (start.Full? ==> PutTexts(w, rs, data, rclass, ttl) == TxtFull(start.w))
      && (start.Done? && t.Full? ==> PutTexts(w, rs, data, rclass, ttl) == TxtFull(t.w))
      && (start.Done? && t.Done? ==>
            (M.FIXED_SIZE <= from <= t.w.pos
             && PutTexts(w, rs, data, rclass, ttl) == PutTexts(t.w, rs[1..], Some(from), rclass, ttl)))
  {
  }

  /** mdns_answer_add_txt_record */
  method AddTxtRecord(buffer: array<byte>, start: nat, rs: seq<Record>, rclass: uint16, ttl: uint32,
                      table: StringTable) returns (data: Option<nat>)
    requires start <= buffer.Length && table.Valid() && table.offset as object != buffer
    modifies buffer, table, table.offset
    ensures Leaves(PutTxtRecord(old(View(buffer, start, table)), rs, rclass, ttl), buffer, table, data)
  {
    hide PutTexts, PutHeader, PutText, Update, Patch;
    ghost var w0 := View(buffer, start, table);
    var recordData: Option<nat> := None;
    var pos: nat := start;
    var i := 0;
    while i < |rs|
      invariant i <= |rs| && pos <= buffer.Length && table.Valid()
      invariant recordData.Some? ==> M.FIXED_SIZE <= recordData.value <= pos
      invariant PutTexts(w0, rs, None, rclass, ttl) == PutTexts(View(buffer, pos, table), rs[i..], recordData, rclass, ttl)
    {
      TextsUnfold(View(buffer, pos, table), rs[i..], recordData, rclass, ttl);
      assert rs[i..][1..] == rs[i + 1..];
      if rs[i].data.Text? {
        if recordData.None? {
          data := AddRecordHeader(buffer, pos, Update(rs[i], rclass, ttl), table);
          if data.None? { return; }
          pos := data.value;
          recordData := data;
        }
        data := AddText(buffer, pos, rs[i].data.key, rs[i].data.value, table);
        if data.None? { return; }
        pos := data.value;
      }
      i := i + 1;
    }
    TextsUnfold(View(buffer, pos, table), rs[i..], recordData, rclass, ttl);
    if recordData.Some? {
      FillLength(buffer, recordData.value - 2, (pos - recordData.value) % 0x1_0000, pos, table);
    }
    return Some(pos);
  }

  /** The loop over the records of one section, then its TXT record. */
  method AddSection(buffer: array<byte>, start: nat, rs: seq<Record>, rclass: uint16, ttl: uint32,
                    table: StringTable) returns (data: Option<nat>)
    requires start <= buffer.Length && table.Valid() && table.offset as object != buffer
    modifies buffer, table, table.offset
    ensures Leaves(PutSection(old(View(buffer, start, table)), rs, rclass, ttl), buffer, table, data)
  {
    hide PutRecords, PutRecord, PutTxtRecord, Update;
    ghost var w0 := View(buffer, start, table);
    var pos: nat := start;
    var i := 0;
    while i < |rs|
      invariant i <= |rs| && pos <= buffer.Length && table.Valid()
      invariant PutRecords(w0, rs, rclass, ttl) == PutRecords(View(buffer, pos, table), rs[i..], rclass, ttl)
    {
      RecordsUnfold(View(buffer, pos, table), rs[i..], rclass, ttl);
      assert rs[i..][1..] == rs[i + 1..];
      data := AddRecord(buffer, pos, Update(rs[i], rclass, ttl), table);
      if data.None? { return; }
      pos := data.value;
      i := i + 1;
    }
    RecordsUnfold(View(buffer, pos, table), rs[i..], rclass, ttl);
    data := AddTxtRecord(buffer, pos, rs, rclass, ttl, table);
  }

  lemma RecordsUnfold(w: Writer, rs: seq<Record>, rclass: uint16, ttl: uint32)
    ensures rs == [] ==> PutRecords(w, rs, rclass, ttl) == Done(w)
    ensures rs != [] ==>
      var o := PutRecord(w, Update(rs[0], rclass, ttl));
      && (o.Full? ==> PutRecords(w, rs, rclass, ttl) == o)
      && (o.Done? ==> PutRecords(w, rs, rclass, ttl) == PutRecords(o.w, rs[1..], rclass, ttl))
  {
  }

  /** mdns_answer_get_record_count */
  method GetRecordCount(rs: seq<Record>) returns (n: uint16)
    ensures n == RecordCount(rs)
  {
    hide RecordCount, HasText;
    NoneHasText();
    var total: uint16, txt: uint16 := 0, 0;
    ghost var count: nat := 0;
    var i := 0;
    while i < |rs|
      invariant i <= |rs|
      invariant count + Plain(rs[i..]) == Plain(rs) && total == count % 0x1_0000
      invariant txt == if HasText(rs[..i]) then 1 else 0
    {
      assert rs[i..][1..] == rs[i + 1..];
      assert rs[..i + 1] == rs[..i] + [rs[i]];
      HasTextSnoc(rs[..i], rs[i]);
      if rs[i].data.Text? {
        txt := 1;
      } else {
        total := (total + 1) % 0x1_0000;
        count := count + 1;
      }
      i := i + 1;
    }
    assert rs[..i] == rs;
    CountOf(rs);
    return (total + txt) % 0x1_0000;
  }

  lemma NoneHasText()
    ensures !HasText([])
  {
  }

  lemma HasTextSnoc(rs: seq<Record>, r: Record)
    ensures HasText(rs + [r]) <==> HasText(rs) || r.data.Text?
  {
    if HasText(rs) { var i :| 0 <= i < |rs| && rs[i].data.Text?; assert (rs + [r])[i].data.Text?; }
    if r.data.Text? { assert (rs + [r])[|rs|].data.Text?; }
  }

  lemma CountOf(rs: seq<Record>)
    ensures RecordCount(rs) == (Plain(rs) % 0x1_0000 + if HasText(rs) then 1 else 0) % 0x1_0000
  {
  }

  /** mdns_answer_multicast_rclass_ttl */
  method AnswerMulticast(buffer: array<byte>, answer: Record, authority: seq<Record>, additional: seq<Record>,
                         rclass: uint16, ttl: uint32) returns (sent: Option<seq<byte>>)
    modifies buffer
    ensures sent == Answer(old(buffer[..]), answer, authority, additional, rclass, ttl)
  {
    hide PutRecord, PutSection, PutBytes, Header, Update, RecordCount;
    if buffer.Length < M.HEADER_SIZE + 32 + 4 { return None; }
    var m := GetRecordCount(authority);
    var n := GetRecordCount(additional);
    var table := new StringTable();
    HeaderIs(authority, additional);
    var header := U16BE(0) + U16BE(RESPONSE_FLAGS) + U16BE(0) + U16BE(1) + U16BE(m) + U16BE(n);
    var pos := WriteBytes(buffer, 0, header, table);
    var data := AddRecord(buffer, pos, Update(answer, rclass, ttl), table);
    if data.None? { return None; }
    data := AddSection(buffer, data.value, authority, rclass, ttl, table);
    if data.None? { return None; }
    data := AddSection(buffer, data.value, additional, rclass, ttl, table);
    if data.None? { return None; }
    return Some(buffer[..data.value]);
  }

  lemma HeaderIs(authority: seq<Record>, additional: seq<Record>)
    ensures Header(authority, additional) == U16BE(0) + U16BE(RESPONSE_FLAGS) + U16BE(0) + U16BE(1)
      + U16BE(RecordCount(authority)) + U16BE(RecordCount(additional))
  {
  }
}
