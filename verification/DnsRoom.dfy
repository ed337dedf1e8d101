/** A response is only refused for want of room: how much room is always enough, and what the string table is good
    for. */
module DnsRoom {
  import opened Bytes
  import opened DnsNames
  import opened DnsCompression
  import opened DnsEncoder
  import opened DnsAnswers
  import R = DnsRoundTrip
  import M = DnsMessages

  // ---------- enough room ----------

  /** A name written out: every label behind its length, and the closing zero. */
  function NameRoom(labels: seq<Label>): (n: nat)
    ensures n >= 1
  {
    if labels == [] then 1 else |labels[0]| + 1 + NameRoom(labels[1..])
  }

  function DataRoom(d: RData): nat {
    match d
    case Ptr(target) => NameRoom(LabelsOf(target))
    case Srv(_, _, _, host) => 6 + NameRoom(LabelsOf(host))
    case A(_) => 4
    case Aaaa(_) => 16
    case _ => 0
  }

  /** A record of its own: TXT records have none. */
  function RecordRoom(r: Record): nat {
    if r.data.Text? then 0 else NameRoom(LabelsOf(r.name)) + 10 + DataRoom(r.data)
  }

  function RecordsRoom(rs: seq<Record>): nat { if rs == [] then 0 else RecordRoom(rs[0]) + RecordsRoom(rs[1..]) }

  /** The strings of a section's TXT record. */
  function TextsRoom(rs: seq<Record>): nat {
    if rs == [] then 0
    else (if rs[0].data.Text? then |rs[0].data.key| + |rs[0].data.value| + 2 else 0) + TextsRoom(rs[1..])
  }

  /** The TXT record stands under the name of the first of its strings. */
  function TxtHeaderRoom(rs: seq<Record>): nat {
    if rs == [] then 0
    else if rs[0].data.Text? then NameRoom(LabelsOf(rs[0].name)) + 10
    else TxtHeaderRoom(rs[1..])
  }

  function SectionRoom(rs: seq<Record>): nat { RecordsRoom(rs) + TxtHeaderRoom(rs) + TextsRoom(rs) }

  /** The one other check: no string of 16383 bytes or more. */
  predicate ShortTexts(rs: seq<Record>) {
    forall r <- rs :: r.data.Text? ==> |r.data.key| + |r.data.value| < 16383
  }

  lemma {:induction false} NameFits(w: Writer, labels: seq<Label>)
    requires w.pos + NameRoom(labels) <= |w.buf|
    ensures PutLabels(w, labels).Done? && PutLabels(w, labels).w.pos <= w.pos + NameRoom(labels)
    decreases |labels|
  {
    hide Find, PutLabels;
    if labels == [] {
      PutNothing(w);
    } else {
      var l, rest := labels[0], labels[1..];
      assert [l] + rest == labels;
      PutStep(w, l, rest);
      if Find(w, labels).None? { NameFits(PutLabel(w, l), rest); }
    }
  }

  lemma HeaderFits(w: Writer, r: Record)
    requires w.pos + NameRoom(LabelsOf(r.name)) + 10 <= |w.buf|
    ensures PutHeader(w, r).Done? && PutHeader(w, r).w.pos <= w.pos + NameRoom(LabelsOf(r.name)) + 10
  {
    hide PutLabels, LabelsOf, NameRoom;
    NameFits(w, LabelsOf(r.name));
  }

  lemma DataFits(w: Writer, d: RData)
    requires w.pos + DataRoom(d) <= |w.buf|
    ensures PutData(w, d).Done? && PutData(w, d).w.pos <= w.pos + DataRoom(d)
  {
    hide PutLabels, LabelsOf, NameRoom;
    match d
    case Ptr(target) => NameFits(w, LabelsOf(target));
    case Srv(p, q, port, host) => NameFits(PutBytes(w, U16BE(p) + U16BE(q) + U16BE(port)), LabelsOf(host));
    case _ =>
  }

  lemma RecordFits(w: Writer, r: Record)
    requires w.pos + RecordRoom(r) <= |w.buf|
    ensures PutRecord(w, r).Done? && PutRecord(w, r).w.pos <= w.pos + RecordRoom(r)
  {
    hide PutHeader, PutData, DataRoom, NameRoom, LabelsOf;
    if !r.data.Text? {
      HeaderFits(w, r);
      DataFits(PutHeader(w, r).w, r.data);
    }
  }

  lemma UpdateKeepsRoom(r: Record, rclass: uint16, ttl: uint32)
    ensures RecordRoom(Update(r, rclass, ttl)) == RecordRoom(r) && Update(r, rclass, ttl).name == r.name
  {
  }

  lemma {:induction false} RecordsFit(w: Writer, rs: seq<Record>, rclass: uint16, ttl: uint32)
    requires w.pos + RecordsRoom(rs) <= |w.buf|
    ensures PutRecords(w, rs, rclass, ttl).Done? && PutRecords(w, rs, rclass, ttl).w.pos <= w.pos + RecordsRoom(rs)
    decreases |rs|
  {
    hide PutRecord, RecordRoom, Update;
    if rs != [] {
      UpdateKeepsRoom(rs[0], rclass, ttl);
      RecordFits(w, Update(rs[0], rclass, ttl));
      RecordsFit(PutRecord(w, Update(rs[0], rclass, ttl)).w, rs[1..], rclass, ttl);
    }
  }

  lemma TextFits(w: Writer, key: seq<byte>, value: seq<byte>)
    requires w.pos + |key| + |value| + 2 <= |w.buf| && |key| + |value| < 16383
    ensures PutText(w, key, value).Done? && PutText(w, key, value).w.pos == w.pos + |key| + |value| + 2
  {
  }

  lemma {:induction false} TextsFit(w: Writer, rs: seq<Record>, data: Option<nat>, rclass: uint16, ttl: uint32)
    requires data.Some? ==> M.FIXED_SIZE <= data.value <= w.pos
    requires ShortTexts(rs) && w.pos + (if data.Some? then 0 else TxtHeaderRoom(rs)) + TextsRoom(rs) <= |w.buf|
    ensures var o := PutTexts(w, rs, data, rclass, ttl);
      o.TxtDone? && o.w.pos <= w.pos + (if data.Some? then 0 else TxtHeaderRoom(rs)) + TextsRoom(rs)
    decreases |rs|
  {
    hide PutHeader, PutText, Update, NameRoom, LabelsOf;
    if rs != [] {
      assert ShortTexts(rs[1..]);
      if rs[0].data.Text? {
        assert rs[0] in rs;
        var r := Update(rs[0], rclass, ttl);
        UpdateKeepsRoom(rs[0], rclass, ttl);
        if data.None? { HeaderFits(w, r); }
        var start := if data.Some? then w else PutHeader(w, r).w;
        TextFits(start, rs[0].data.key, rs[0].data.value);
        var next := PutText(start, rs[0].data.key, rs[0].data.value).w;
        TextsFit(next, rs[1..], Some(if data.Some? then data.value else start.pos), rclass, ttl);
      } else {
        TextsFit(w, rs[1..], data, rclass, ttl);
      }
    }
  }

  lemma SectionFits(w: Writer, rs: seq<Record>, rclass: uint16, ttl: uint32)
    requires ShortTexts(rs) && w.pos + SectionRoom(rs) <= |w.buf|
    ensures PutSection(w, rs, rclass, ttl).Done? && PutSection(w, rs, rclass, ttl).w.pos <= w.pos + SectionRoom(rs)
  {
    hide PutRecords, PutTexts, RecordsRoom, TxtHeaderRoom, TextsRoom, ShortTexts;
    RecordsFit(w, rs, rclass, ttl);
    TextsFit(PutRecords(w, rs, rclass, ttl).w, rs, None, rclass, ttl);
  }

  /** With a buffer of 48 bytes or more and room for everything written out, a response is built, and it is no longer
      than that; a smaller buffer gets none. */
  lemma ResponseFits(buf: seq<byte>, answer: Record, authority: seq<Record>, additional: seq<Record>,
                     rclass: uint16, ttl: uint32)
    requires ShortTexts(authority) && ShortTexts(additional)
    ensures var room := 12 + RecordRoom(answer) + SectionRoom(authority) + SectionRoom(additional);
      var r := Answer(buf, answer, authority, additional, rclass, ttl);
      && (|buf| < 48 ==> r.None?)
      && (48 <= |buf| && room <= |buf| ==> r.Some? && 12 <= |r.value| <= room)
  {
    hide PutRecord, PutSection, RecordRoom, SectionRoom, ShortTexts, Update, Header;
    var room := 12 + RecordRoom(answer) + SectionRoom(authority) + SectionRoom(additional);
    if 48 <= |buf| && room <= |buf| {
      var w := PutBytes(Writer(buf, 0, Some(EMPTY_RING)), Header(authority, additional));
      UpdateKeepsRoom(answer, rclass, ttl);
      RecordFits(w, Update(answer, rclass, ttl));
      var w1 := PutRecord(w, Update(answer, rclass, ttl)).w;
      SectionFits(w1, authority, rclass, ttl);
      SectionFits(PutSection(w1, authority, rclass, ttl).w, additional, rclass, ttl);
    }
  }

  // ---------- the class and time to live of a record ----------

  /** Every record goes out with its own class, or the default one if it has none, cut to IN and the cache-flush bit,
      which pointers to shared names never carry; and with its own time to live, unless it has none or the default is
      zero, which says goodbye. */
  lemma UpdateMeans(r: Record, rclass: uint16, ttl: uint32)
    ensures var u := Update(r, rclass, ttl);
      var c := if r.rclass != 0 then r.rclass else rclass;
      && u.name == r.name && u.data == r.data
      && u.rclass in {0, 1, 0x8000, 0x8001}
      && (u.rclass % 2 == 1 <==> c % 2 == 1)
      && (u.rclass >= 0x8000 <==> c >= 0x8000 && !r.data.Ptr?)
      && (ttl == 0 ==> u.ttl == 0)
      && (ttl != 0 && r.ttl != 0 ==> u.ttl == r.ttl)
      && (r.ttl == 0 ==> u.ttl == ttl)
  {
  }

  /** The type numbers of RFC 1035, RFC 3596 and RFC 2782. */
  lemma TypeNumbers(d: RData)
    ensures d.A? <==> TypeOf(d) == 1
    ensures d.Ptr? <==> TypeOf(d) == 12
    ensures d.Text? <==> TypeOf(d) == 16
    ensures d.Aaaa? <==> TypeOf(d) == 28
    ensures d.Srv? <==> TypeOf(d) == 33
  {
  }

  // ---------- the string table ----------

  function AddAll(ring: Ring, offsets: seq<nat>): Ring
    decreases |offsets|
  {
    if offsets == [] then ring else AddAll(ring, offsets[..|offsets| - 1]).Add(offsets[|offsets| - 1])
  }

  /** The table holds the last sixteen offsets, each in the slot of its number modulo sixteen. */
  lemma {:induction false} RingHoldsLatest(offsets: seq<nat>)
    ensures var r, n := AddAll(EMPTY_RING, offsets), |offsets|;
      && r.count == (if n < 16 then n else 16) && r.next == n % 16
      && forall i | n - r.count <= i < n :: r.offsets[i % 16] == offsets[i]
    decreases |offsets|
  {
    hide AddAll;
    AddAllStep(EMPTY_RING, offsets);
    if offsets != [] {
      var init := offsets[..|offsets| - 1];
      RingHoldsLatest(init);
      var r := AddAll(EMPTY_RING, offsets);
      forall i | |offsets| - r.count <= i < |offsets| ensures r.offsets[i % 16] == offsets[i] {
        if i < |init| {
          assert i % 16 != |init| % 16;
          assert init[i] == offsets[i];
        }
      }
    }
  }

  lemma AddAllStep(ring: Ring, offsets: seq<nat>)
    ensures AddAll(ring, []) == ring
    ensures offsets != [] ==>
              AddAll(ring, offsets) == AddAll(ring, offsets[..|offsets| - 1]).Add(offsets[|offsets| - 1])
  {
  }

  lemma {:induction false} FindFinds(b: seq<byte>, ring: Ring, k: nat, j: nat, wanted: seq<Label>)
    requires k <= j < ring.count && ring.offsets[j] < |b| && Match(b, ring.offsets[j], wanted)
    ensures FindFrom(b, ring, k, wanted).Some?
    decreases ring.count - k
  {
    hide Match;
    if k < j { FindFinds(b, ring, k + 1, j, wanted); }
  }

  /** A hit is the first entry in table order that matches: no earlier one does. */
  lemma {:induction false} HitIsFirst(b: seq<byte>, ring: Ring, k: nat, wanted: seq<Label>) returns (i: nat)
    requires k <= ring.count
    ensures var f := FindFrom(b, ring, k, wanted);
      if f.None? then forall j | k <= j < ring.count :: ring.offsets[j] < |b| ==> !Match(b, ring.offsets[j], wanted)
      else k <= i < ring.count && ring.offsets[i] == f.value < |b| && Match(b, f.value, wanted)
           && forall j | k <= j < i :: ring.offsets[j] < |b| ==> !Match(b, ring.offsets[j], wanted)
    decreases ring.count - k
  {
    hide Match;
    i := k;
    if k < ring.count && !(ring.offsets[k] < |b| && Match(b, ring.offsets[k], wanted)) {
      i := HitIsFirst(b, ring, k + 1, wanted);
    }
  }

  /** How many additions ago a slot was filled. */
  function SlotAge(ring: Ring, j: nat): nat
    requires j < 16
  {
    if j < ring.next then ring.next - 1 - j else ring.next + 15 - j
  }

  ghost predicate Holds(ring: Option<Ring>, j: nat, e: nat, adds: nat) {
    ring.Some? && j < ring.value.count && ring.value.offsets[j] == e && SlotAge(ring.value, j) + adds < 16
  }

  lemma AddKeeps(ring: Ring, j: nat, e: nat, adds: nat, offset: nat)
    requires Holds(Some(ring), j, e, adds) && adds > 0
    ensures Holds(Some(ring.Add(offset)), j, e, adds - 1)
  {
  }

  lemma {:induction false} WritingKeeps(w: Writer, labels: seq<Label>, j: nat, e: nat)
    requires Holds(w.ring, j, e, |labels|) && PutLabels(w, labels).Done?
    ensures Holds(PutLabels(w, labels).w.ring, j, e, 0)
    decreases |labels|
  {
    hide Find, PutLabels, RingData.Add;
    if labels == [] {
      PutNothing(w);
    } else {
      var l, rest := labels[0], labels[1..];
      assert [l] + rest == labels;
      PutStep(w, l, rest);
      if Find(w, labels).None? {
        AddKeeps(w.ring.value, j, e, |labels|, w.pos);
        WritingKeeps(PutLabel(w, l), rest, j, e);
      }
    }
  }

  lemma NewestHolds(ring: Ring, offset: nat, adds: nat)
    requires adds < 16
    ensures Holds(Some(ring.Add(offset)), ring.next, offset, adds)
  {
  }

  lemma SpelledIsFound(w: Writer, j: nat, e: nat, labels: seq<Label>)
    requires Holds(w.ring, j, e, 0) && e < w.pos && R.Spells(w.Out(), e, labels)
    ensures Find(w, labels).Some?
  {
    hide Match, FindFrom, SlotAge, R.Spells;
    R.SpellsStable(w.Out(), w.buf, e, labels);
    R.MatchIsPrefix(w.buf, e, labels, labels);
    FindFinds(w.buf, w.ring.value, 0, j, labels);
  }

  /** COMPRESSION: a name of at most sixteen labels that was whole when it was written takes two bytes when it is
      written again right behind. */
  lemma AgainIsTwoBytes(w: Writer, labels: seq<Label>)
    requires R.Good(w, R.ANY_NAME) && w.ring.Some? && 1 <= |labels| <= 16
    requires PutLabels(w, labels).Done? && R.Whole(w, labels)
    ensures var v := PutLabels(w, labels).w;
      |v.buf| - v.pos >= 2 ==> PutLabels(v, labels).Done? && PutLabels(v, labels).w.pos == v.pos + 2
  {
    hide PutLabels, Find, R.Good, R.Spells, Holds, R.HitsWhole, R.AllSpellable;
    var v := PutLabels(w, labels).w;
    var l, rest := labels[0], labels[1..];
    assert [l] + rest == labels;
    PutStep(w, l, rest);
    WrittenSpells(w, labels);
    if Find(w, labels).Some? {
      R.RingUnchanged(w, labels);
      StillFound(w, labels);
    } else {
      NewestHolds(w.ring.value, w.pos, |rest|);
      WritingKeeps(PutLabel(w, l), rest, w.ring.value.next, w.pos);
      SpelledIsFound(v, w.ring.value.next, w.pos, labels);
    }
    PutStep(v, l, rest);
  }

  lemma WrittenSpells(w: Writer, labels: seq<Label>)
    requires R.Good(w, R.ANY_NAME) && PutLabels(w, labels).Done? && R.Whole(w, labels)
    ensures R.Spells(PutLabels(w, labels).w.Out(), w.pos, labels)
  {
    hide PutLabels, R.Good, R.Spells, R.HitsWhole, R.Writing, R.Carries;
    var b := PutLabels(w, labels).w.Out();
    R.StartsHere(w, R.ANY_NAME);
    R.PrefixCarries(b, b, w.pos, w.pos);
    R.ReadsBackIff(w, w.pos, w.pos, [], R.ANY_NAME, labels, b);
  }

  /** A hit stays a hit when only a reference was written behind it. */
  lemma StillFound(w: Writer, labels: seq<Label>)
    requires w.ring.Some? && Find(w, labels).Some? && labels != [] && PutLabels(w, labels).Done? && R.Whole(w, labels)
    ensures PutLabels(w, labels).w.ring == w.ring
    ensures Find(PutLabels(w, labels).w, labels).Some?
  {
    hide Match, R.Spells;
    var t, v := Find(w, labels).value, PutLabels(w, labels).w;
    var ring := w.ring.value;
    R.RingUnchanged(w, labels);
    R.FindInRing(w.buf, ring, 0, labels);
    var j :| 0 <= j < ring.count && ring.offsets[j] == t;
    assert R.Spells(w.Out()[..w.pos], t, labels) && w.Out()[..w.pos] <= v.buf;
    R.SpellsStable(w.Out()[..w.pos], v.buf, t, labels);
    R.MatchIsPrefix(v.buf, t, labels, labels);
    FindFinds(v.buf, ring, 0, j, labels);
  }
}
