/** The C encoder itself: the string table updated in place and names written into a shared buffer. */
module DnsEncoder {
  import opened Bytes
  import opened DnsNames
  import opened DnsCompression

  /** mdns_string_table_t as the encoder mutates it. */
  class StringTable {
    const offset: array<nat>
    var count: nat
    var next: nat

    ghost predicate Valid()
      reads this, offset
    {
      Ring(offset[..], count, next).Shaped()
    }

    ghost function View(): Ring
      requires Valid()
      reads this, offset
    {
      Ring(offset[..], count, next)
    }

    constructor ()
      ensures Valid() && View() == EMPTY_RING && fresh(offset)
    {
      offset := new nat[RING_SIZE](_ => 0);
      count := 0;
      next := 0;
      new;
      assert offset[..] == EMPTY.offsets;
    }

    /** mdns_string_table_add */
    method Add(at: nat)
      requires Valid()
      modifies this, offset
      ensures Valid() && View() == old(View()).Add(at)
    {
      offset[next] := at;
      count := count + 1;
      if count > offset.Length { count := offset.Length; }
      next := next + 1;
      if next >= offset.Length { next := 0; }
    }
  }

  /** What the table contributes to a writer: nothing when the caller passed none. */
  ghost function TableView(table: StringTable?): Option<Ring>
    requires table != null ==> table.Valid()
    reads table, if table == null then {} else {table.offset}
  {
    if table == null then None else Some(table.View())
  }

  ghost function View(buffer: array<byte>, data: nat, table: StringTable?): Writer
    requires data <= buffer.Length && (table != null ==> table.Valid())
    reads buffer, table, if table == null then {} else {table.offset}
  {
    Writer(buffer[..], data, TableView(table))
  }

  /** mdns_string_find */
  function StringFind(str: seq<byte>, c: byte, offset: nat): (r: Option<nat>)
    ensures r.Some? ==> offset <= r.value < |str|
  {
    if offset >= |str| then None
    else match IndexOf(str[offset..], c) case None => None case Some(i) => Some(offset + i)
  }

  ghost function From(str: seq<byte>, offset: nat): seq<byte> {
    if offset <= |str| then str[offset..] else []
  }

  /** One dotted label of str, starting at offset, ends at the next dot or at the end. */
  lemma NextLabel(str: seq<byte>, offset: nat)
    requires offset < |str|
    ensures var dot := StringFind(str, DOT, offset).Some?;
      var end := if dot then StringFind(str, DOT, offset).value else |str|;
      Split(From(str, offset)) == [str[offset..end]] + Split(From(str, end + 1))
  {
    var s := str[offset..];
    match IndexOf(s, DOT)
    case None => assert Rest(s) == [] && str[offset..|str|] == s;
    case Some(i) => assert s[i + 1..] == str[offset + i + 1..] && s[..i] == str[offset..offset + i];
  }

  /** The inner loop of mdns_string_table_find: does the name stored at start begin with str? */
  method StoredNameMatches(buffer: array<byte>, start: nat, str: seq<byte>, firstLength: nat)
    returns (matches: bool)
    requires str != [] && firstLength == |Head(str)|
    ensures matches == Match(buffer[..], start, Split(str))
  {
    hide *;
    ghost var b := buffer[..];
    assert buffer[..buffer.Length] == b;
    var sub := GetNextSubstring(buffer, buffer.Length, start);
    FirstLabel(str);
    MatchStep(b, start, Head(str), Split(From(str, |Head(str)| + 1)));
    if sub.Bad? || sub.length == 0 || sub.length != firstLength { return false; }
    if str[..firstLength] != buffer[sub.offset..sub.offset + sub.length] { return false; }
    var offset := firstLength + 1;
    while offset < |str|
      invariant sub.Sub?
      invariant Match(b, start, Split(str)) == Match(b, sub.offset + sub.length, Split(From(str, offset)))
    {
      var dot := StringFind(str, DOT, offset);
      var dotPos := if dot.Some? then dot.value else |str|;
      NextLabel(str, offset);
      MatchStep(b, sub.offset + sub.length, str[offset..dotPos], Split(From(str, dotPos + 1)));
      var next := GetNextSubstring(buffer, buffer.Length, sub.offset + sub.length);
      if next.Bad? || next.length == 0 || next.length != dotPos - offset { return false; }
      if str[offset..dotPos] != buffer[next.offset..next.offset + next.length] { return false; }
      sub := next;
      offset := dotPos + 1;
    }
    NothingLeft(b, sub.offset + sub.length, str, offset);
    return true;
  }

  lemma MatchStep(b: seq<byte>, cur: nat, l: Label, rest: seq<Label>)
    ensures var s := NextSubstring(b, cur);
      Match(b, cur, [l] + rest) == (s.Sub? && s.length > 0 && b[s.offset..s.offset + s.length] == l
                                    && Match(b, s.offset + s.length, rest))
  {
    assert ([l] + rest)[1..] == rest;
  }

  lemma NothingLeft(b: seq<byte>, cur: nat, str: seq<byte>, offset: nat)
    requires offset >= |str|
    ensures Match(b, cur, Split(From(str, offset)))
  {
  }

  lemma FirstLabel(str: seq<byte>)
    requires str != []
    ensures Head(str) == str[..|Head(str)|] && |Head(str)| <= |str|
    ensures Split(str) == [Head(str)] + Split(From(str, |Head(str)| + 1))
  {
    NextLabel(str, 0);
    assert From(str, 0) == str;
  }

  /** mdns_string_table_find */
  method StringTableFind(table: StringTable?, buffer: array<byte>, str: seq<byte>, firstLength: nat, ghost data: nat)
    returns (r: Option<nat>)
    requires data <= buffer.Length && (table != null ==> table.Valid())
    requires str != [] && firstLength == |Head(str)|
    ensures r == Find(View(buffer, data, table), Split(str))
  {
    hide Split, Head, Match;
    if table == null { return None; }
    var istr := 0;
    while istr < table.count
      invariant istr <= table.count
      invariant FindFrom(buffer[..], table.View(), 0, Split(str)) == FindFrom(buffer[..], table.View(), istr, Split(str))
    {
      if table.offset[istr] < buffer.Length {
        var matches := StoredNameMatches(buffer, table.offset[istr], str, firstLength);
        if matches { return Some(table.offset[istr]); }
      }
      istr := istr + 1;
    }
    return None;
  }

  method WriteLabel(buffer: array<byte>, data: nat, l: Label, table: StringTable?)
    requires data + |l| + 1 <= buffer.Length
    requires table != null ==> table.Valid() && table.offset as object != buffer
    modifies buffer, table, if table == null then {} else {table.offset}
    ensures table != null ==> table.Valid()
    ensures View(buffer, data + |l| + 1, table) == PutLabel(old(View(buffer, data, table)), l)
  {
    ghost var b := buffer[..];
    buffer[data] := |l| % 0x100;
    forall i | 0 <= i < |l| { buffer[data + 1 + i] := l[i]; }
    assert buffer[..] == b[..data] + LabelBytes(l) + b[data + |LabelBytes(l)|..];
    if table != null { table.Add(data); }
  }

  /** How a call leaves buffer, table and its result (None is the null result). */
  ghost predicate Leaves(o: Outcome, buffer: array<byte>, table: StringTable?, r: Option<nat>)
    reads buffer, table, if table == null then {} else {table.offset}
  {
    && (table != null ==> table.Valid())
    && buffer[..] == o.w.buf && TableView(table) == o.w.ring && r == if o.Done? then Some(o.w.pos) else None
  }

  /** One round of mdns_string_make: refer to an earlier name and be done, give up, or write one label. */
  method MakeLabel(buffer: array<byte>, data: nat, str: seq<byte>, lastPos: nat, table: StringTable?)
    returns (finished: bool, r: Option<nat>, next: nat, pos: nat)
    requires data <= buffer.Length && lastPos < |str|
    requires table != null ==> table.Valid() && table.offset as object != buffer
    modifies buffer, table, if table == null then {} else {table.offset}
    ensures table != null ==> table.Valid()
    ensures next <= buffer.Length && lastPos < pos
    ensures var o := PutLabels(old(View(buffer, data, table)), Split(From(str, lastPos)));
      if finished then Leaves(o, buffer, table, r)
      else o == PutLabels(View(buffer, next, table), Split(From(str, pos)))
  {
    hide PutLabels, Split, Find, Head, PutLabel, PutBytes, StringFind, RingData.Shaped, RefBytes;
    ghost var w := View(buffer, data, table);
    var dot := StringFind(str, DOT, lastPos);
    var end := if dot.Some? then dot.value else |str|;
    var subLength := end - lastPos;
    var remain := buffer.Length - data;
    NextLabel(str, lastPos);
    HeadIs(str, lastPos);
    PutStep(w, str[lastPos..end], Split(From(str, end + 1)));
    finished, r, next, pos := true, None, data, end + 1;
    var ref := StringTableFind(table, buffer, str[lastPos..], subLength, data);
    if ref.Some? {
      if remain < 2 { return; }
      WriteRef(buffer, data, ref.value, table);
      r := Some(data + 2);
      return;
    }
    if remain <= subLength + 1 { return; }
    WriteLabel(buffer, data, str[lastPos..end], table);
    finished, next := false, data + subLength + 1;
    pos := if dot.Some? then end + 1 else |str|;
    assert From(str, end + 1) == From(str, pos);
  }

  /** mdns_string_make: None is the null result, Some the new data position. */
  method StringMake(buffer: array<byte>, start: nat, name: seq<byte>, table: StringTable?)
    returns (r: Option<nat>)
    requires start <= buffer.Length && name != []
    requires table != null ==> table.Valid() && table.offset as object != buffer
    modifies buffer, table, if table == null then {} else {table.offset}
    ensures Leaves(PutLabels(old(View(buffer, start, table)), LabelsOf(name)), buffer, table, r)
  {
    hide PutLabels, Split, PutBytes, RingData.Shaped;
    var str := if name[|name| - 1] == DOT then name[..|name| - 1] else name;
    ghost var result := PutLabels(View(buffer, start, table), LabelsOf(name));
    var lastPos := 0;
    var data: nat := start;
    assert From(str, 0) == str;
    while lastPos < |str|
      invariant data <= buffer.Length && (table != null ==> table.Valid())
      invariant result == PutLabels(View(buffer, data, table), Split(From(str, lastPos)))
    {
      var finished, made, next, pos := MakeLabel(buffer, data, str, lastPos, table);
      if finished { return made; }
      data, lastPos := next, pos;
    }
    PutEnd(View(buffer, data, table), str, lastPos);
    if data == buffer.Length { return None; }
    WriteEnd(buffer, data, table);
    return Some(data + 1);
  }

  method WriteEnd(buffer: array<byte>, data: nat, ghost table: StringTable?)
    requires data < buffer.Length
    requires table != null ==> table.Valid() && table.offset as object != buffer
    modifies buffer
    ensures table != null ==> table.Valid()
    ensures View(buffer, data + 1, table) == PutBytes(old(View(buffer, data, table)), [0])
  {
    ghost var b := buffer[..];
    buffer[data] := 0;
    assert buffer[..] == b[..data] + [0] + b[data + 1..];
  }

  lemma PutEnd(w: Writer, str: seq<byte>, lastPos: nat)
    requires lastPos >= |str|
    ensures PutLabels(w, Split(From(str, lastPos))) ==
      if w.pos == |w.buf| then Full(w) else Done(PutBytes(w, [0]))
  {
  }

  lemma HeadIs(str: seq<byte>, offset: nat)
    requires offset < |str|
    ensures var end := if StringFind(str, DOT, offset).Some? then StringFind(str, DOT, offset).value else |str|;
      |Head(str[offset..])| == end - offset && From(str, offset) == str[offset..]
  {
  }

  /** mdns_string_make_ref, with room already checked. */
  method WriteRef(buffer: array<byte>, data: nat, target: nat, ghost table: StringTable?)
    requires data + 2 <= buffer.Length
    requires table != null ==> table.Valid() && table.offset as object != buffer
    modifies buffer
    ensures table != null ==> table.Valid()
    ensures View(buffer, data + 2, table) == PutBytes(old(View(buffer, data, table)), RefBytes(target))
  {
    ghost var b := buffer[..];
    var ref := RefBytes(target);
    buffer[data], buffer[data + 1] := ref[0], ref[1];
    assert buffer[..] == b[..data] + RefBytes(target) + b[data + 2..];
  }
}
