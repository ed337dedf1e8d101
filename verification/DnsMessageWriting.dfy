/** Writing a whole multicast response: section by section, then the message, and exactly when its records stand in
    it. */
module DnsMessageWriting {
  import opened Bytes
  import N = DnsNames
  import opened DnsCompression
  import R = DnsRoundTrip
  import opened DnsAnswers
  import opened DnsResponse
  import M = DnsMessages

  type Label = N.Label

  // ---------- chains of records ----------

  /** From one offset to another the message holds exactly these records, back to back. */
  ghost predicate ChainAt(b: seq<byte>, from: nat, to: nat, items: seq<Item>)
    decreases |items|
  {
    if items == [] then from == to
    else ItemAt(b, from, EndOf(b, from), items[0]) && ChainAt(b, EndOf(b, from), to, items[1..])
  }

  lemma ItemEnds(b: seq<byte>, from: nat, to: nat, item: Item)
    requires ItemAt(b, from, to, item)
    ensures EndOf(b, from) == to && from + M.FIXED_SIZE < to <= |b|
  {
    hide N.Skip, N.Name, LabelsOf, DataAt;
    var s := N.Skip(b, from).value;
    FixedFields(b, s, ItemType(item), item.rclass, item.ttl, to - (s + M.FIXED_SIZE));
    M.SkipAdvances(b, from);
    assert M.SkipOrStay(b, from) == s;
  }

  /** Every record takes more than its ten fixed bytes, so a message cannot hold more than it has bytes. */
  lemma {:induction false} ChainLength(b: seq<byte>, from: nat, to: nat, items: seq<Item>)
    requires ChainAt(b, from, to, items)
    ensures from + |items| <= to && (from <= |b| ==> to <= |b|)
    decreases |items|
  {
    hide ItemAt, EndOf;
    if items != [] {
      ItemEnds(b, from, EndOf(b, from), items[0]);
      ChainLength(b, EndOf(b, from), to, items[1..]);
    }
  }

  // ---------- writing a section ----------

  function PlainItems(rs: seq<Record>, rclass: uint16, ttl: uint32): seq<Item> {
    if rs == [] then []
    else (if rs[0].data.Text? then [] else [ItemOf(Update(rs[0], rclass, ttl))]) + PlainItems(rs[1..], rclass, ttl)
  }

  /** A section in the message: its records in order, then one record for all its TXT strings. */
  function SectionItems(rs: seq<Record>, rclass: uint16, ttl: uint32): seq<Item> {
    PlainItems(rs, rclass, ttl) + if HasText(rs) then [TxtItem(rs, rclass, ttl)] else []
  }

  ghost predicate SectionIn(rs: seq<Record>, family: iset<seq<Label>>) { forall r <- rs :: RecordIn(r, family) }

  /** Every record in turn has whole names. */
  ghost predicate RecordsWhole(w: Writer, rs: seq<Record>, rclass: uint16, ttl: uint32)
    requires PutRecords(w, rs, rclass, ttl).Done?
    decreases |rs|
  {
    rs == [] ||
    var r := Update(rs[0], rclass, ttl);
    (r.data.Text? || RecordWhole(w, r)) && RecordsWhole(PutRecord(w, r).w, rs[1..], rclass, ttl)
  }

  /** And then the name of the first TXT record, which stands for all of them. */
  ghost predicate SectionWhole(w: Writer, rs: seq<Record>, rclass: uint16, ttl: uint32)
    requires PutSection(w, rs, rclass, ttl).Done?
  {
    RecordsWhole(w, rs, rclass, ttl) &&
    (HasText(rs) ==>
      var w1 := PutRecords(w, rs, rclass, ttl).w;
      PutLabels(w1, LabelsOf(FirstText(rs).name)).Done? && R.Whole(w1, LabelsOf(FirstText(rs).name)))
  }

  lemma RecordGrows(w: Writer, r: Record)
    requires PutRecord(w, r).Done?
    ensures w.Out() <= PutRecord(w, r).w.Out() && |PutRecord(w, r).w.buf| == |w.buf|
  {
    hide LabelsOf, PutLabels, PutData, PutHeader, FixedPart, Patch;
    if !r.data.Text? {
      RecordStep(w, r);
      var n := PutLabels(w, LabelsOf(r.name)).w;
      var x := PutBytes(n, FixedOf(r, 0));
      var y := PutData(x, r.data).w;
      DataGrows(x, r.data);
      PatchCarries(n, r, y, (y.pos - x.pos) % 0x1_0000, PutRecord(w, r).w.Out());
    }
  }

  lemma {:induction false} RecordsGrow(w: Writer, rs: seq<Record>, rclass: uint16, ttl: uint32)
    requires PutRecords(w, rs, rclass, ttl).Done?
    ensures w.Out() <= PutRecords(w, rs, rclass, ttl).w.Out()
    decreases |rs|
  {
    hide PutRecord, Update;
    if rs != [] {
      RecordGrows(w, Update(rs[0], rclass, ttl));
      RecordsGrow(PutRecord(w, Update(rs[0], rclass, ttl)).w, rs[1..], rclass, ttl);
    }
  }

  lemma TxtGrows(w: Writer, rs: seq<Record>, rclass: uint16, ttl: uint32)
    requires PutTxtRecord(w, rs, rclass, ttl).Done?
    ensures w.Out() <= PutTxtRecord(w, rs, rclass, ttl).w.Out()
  {
    hide LabelsOf, PutLabels, FixedPart, HasText, PairsBytes, PairsOf, Patch, PutTxtRecord;
    if HasText(rs) {
      TxtStep(w, rs, rclass, ttl);
      var r := Update(FirstText(rs), rclass, ttl);
      var n := PutLabels(w, LabelsOf(r.name)).w;
      var p := PairsBytes(PairsOf(rs));
      PatchCarries(n, r, PutBytes(PutBytes(n, FixedOf(r, 0)), p), |p| % 0x1_0000, PutTxtRecord(w, rs, rclass, ttl).w.Out());
    } else {
      NoTxtPut(w, rs, rclass, ttl);
    }
  }

  lemma SectionGrows(w: Writer, rs: seq<Record>, rclass: uint16, ttl: uint32)
    requires PutSection(w, rs, rclass, ttl).Done?
    ensures PutRecords(w, rs, rclass, ttl).w.Out() <= PutSection(w, rs, rclass, ttl).w.Out()
    ensures w.Out() <= PutSection(w, rs, rclass, ttl).w.Out()
  {
    hide PutRecords, PutTxtRecord;
    RecordsGrow(w, rs, rclass, ttl);
    TxtGrows(PutRecords(w, rs, rclass, ttl).w, rs, rclass, ttl);
  }

  lemma ChainHead(b: seq<byte>, from: nat, to: nat, item: Item, more: seq<Item>)
    ensures ChainAt(b, from, to, [item] + more) <==>
            ItemAt(b, from, EndOf(b, from), item) && ChainAt(b, EndOf(b, from), to, more)
  {
    hide ItemAt, EndOf;
    assert ([item] + more)[1..] == more;
  }

  lemma GoodIs(v: Writer, w: Writer, family: iset<seq<Label>>)
    requires R.Good(w, family) && |v.buf| == |w.buf| && R.RingFinished(v.ring, v.Out(), family)
    ensures R.Good(v, family)
  {
    hide R.RingFinished;
  }

  /** A message goes on with a record and more exactly if the record is whole and the message goes on with more. */
  lemma RecordThenIff(w: Writer, r: Record, family: iset<seq<Label>>, b: seq<byte>, to: nat, more: seq<Item>)
    requires R.Good(w, family) && !r.data.Text? && PutRecord(w, r).Done? && RecordIn(r, family)
    requires PutRecord(w, r).w.Out() <= b
    ensures ChainAt(b, w.pos, to, [ItemOf(r)] + more) <==>
            RecordWhole(w, r) && ChainAt(b, PutRecord(w, r).w.pos, to, more)
    ensures RecordWhole(w, r) ==> R.Good(PutRecord(w, r).w, family)
  {
    hide R.Good, R.RingFinished, R.Whole, PutRecord, PutHeader, DataWhole, ItemAt, EndOf, ChainAt, RecordIn, N.Name,
      LabelsOf;
    var w' := PutRecord(w, r).w;
    RecordStep(w, r);
    ChainHead(b, w.pos, to, ItemOf(r), more);
    RecordReadsIff(w, r, family, b);
    RecordGrows(w, r);
    if !R.Whole(w, LabelsOf(r.name)) {
      NotThisItem(b, w.pos, EndOf(b, w.pos), ItemOf(r));
    } else if RecordWhole(w, r) {
      RecordReadsIff(w, r, family, w'.Out());
      GoodIs(w', w, family);
    }
  }

  lemma {:induction false} RecordsThenIff(w: Writer, rs: seq<Record>, rclass: uint16, ttl: uint32,
                                          family: iset<seq<Label>>, b: seq<byte>, to: nat, more: seq<Item>)
    requires R.Good(w, family) && SectionIn(rs, family) && PutRecords(w, rs, rclass, ttl).Done?
    requires PutRecords(w, rs, rclass, ttl).w.Out() <= b
    ensures ChainAt(b, w.pos, to, PlainItems(rs, rclass, ttl) + more) <==>
            RecordsWhole(w, rs, rclass, ttl) && ChainAt(b, PutRecords(w, rs, rclass, ttl).w.pos, to, more)
    ensures RecordsWhole(w, rs, rclass, ttl) ==> R.Good(PutRecords(w, rs, rclass, ttl).w, family)
    decreases |rs|
  {
    hide R.Good, PutRecord, ChainAt, RecordIn, RecordWhole, Update;
    if rs == [] {
      assert [] + more == more;
    } else {
      var r := Update(rs[0], rclass, ttl);
      UpdateKeeps(rs[0], rclass, ttl, family);
      assert SectionIn(rs[1..], family);
      var w1, rest := PutRecord(w, r).w, PlainItems(rs[1..], rclass, ttl);
      if r.data.Text? {
        TextPutsNothing(w, r);
        assert PlainItems(rs, rclass, ttl) == rest;
        RecordsThenIff(w, rs[1..], rclass, ttl, family, b, to, more);
      } else {
        RecordsGrow(w1, rs[1..], rclass, ttl);
        assert PlainItems(rs, rclass, ttl) + more == [ItemOf(r)] + (rest + more);
        RecordThenIff(w, r, family, b, to, rest + more);
        if RecordWhole(w, r) { RecordsThenIff(w1, rs[1..], rclass, ttl, family, b, to, more); }
      }
    }
  }

  lemma TextPutsNothing(w: Writer, r: Record)
    requires r.data.Text?
    ensures PutRecord(w, r) == Done(w)
  {
  }

  lemma UpdateKeeps(r: Record, rclass: uint16, ttl: uint32, family: iset<seq<Label>>)
    ensures Update(r, rclass, ttl).data == r.data && Update(r, rclass, ttl).name == r.name
    ensures RecordIn(r, family) ==> RecordIn(Update(r, rclass, ttl), family)
  {
    hide LabelsOf;
  }

  lemma TxtThenIff(w: Writer, rs: seq<Record>, rclass: uint16, ttl: uint32, family: iset<seq<Label>>, b: seq<byte>,
                   to: nat, more: seq<Item>)
    requires R.Good(w, family) && SectionIn(rs, family) && HasText(rs) && PutTxtRecord(w, rs, rclass, ttl).Done?
    requires PutTxtRecord(w, rs, rclass, ttl).w.Out() <= b
    ensures var w', labels := PutTxtRecord(w, rs, rclass, ttl).w, LabelsOf(FirstText(rs).name);
      PutLabels(w, labels).Done?
      && (ChainAt(b, w.pos, to, [TxtItem(rs, rclass, ttl)] + more) <==>
          R.Whole(w, labels) && ChainAt(b, w'.pos, to, more))
      && (R.Whole(w, labels) ==> R.Good(w', family))
  {
    hide R.Good, R.RingFinished, R.Whole, PutTxtRecord, PutLabels, ItemAt, EndOf, ChainAt, N.Name, LabelsOf, HasText,
      DataIn, EndingsIn;
    var w', i := PutTxtRecord(w, rs, rclass, ttl).w, TxtItem(rs, rclass, ttl);
    assert RecordIn(FirstText(rs), family);
    ChainHead(b, w.pos, to, i, more);
    TxtReadsIff(w, rs, rclass, ttl, family, b);
    if R.Whole(w, LabelsOf(FirstText(rs).name)) {
      TxtReadsIff(w, rs, rclass, ttl, family, w'.Out());
      TxtKeepsSize(w, rs, rclass, ttl);
      GoodIs(w', w, family);
    } else {
      NotThisItem(b, w.pos, EndOf(b, w.pos), i);
    }
  }

  lemma TxtKeepsSize(w: Writer, rs: seq<Record>, rclass: uint16, ttl: uint32)
    requires PutTxtRecord(w, rs, rclass, ttl).Done?
    ensures |PutTxtRecord(w, rs, rclass, ttl).w.buf| == |w.buf|
  {
  }

  /** A SECTION, exactly: a message goes on with its records, its one TXT record and more if and only if the names
      written for it are whole and the message goes on with more behind it. */
  lemma SectionThenIff(w: Writer, rs: seq<Record>, rclass: uint16, ttl: uint32, family: iset<seq<Label>>, b: seq<byte>,
                       to: nat, more: seq<Item>)
    requires R.Good(w, family) && SectionIn(rs, family) && PutSection(w, rs, rclass, ttl).Done?
    requires PutSection(w, rs, rclass, ttl).w.Out() <= b
    ensures ChainAt(b, w.pos, to, SectionItems(rs, rclass, ttl) + more) <==>
            SectionWhole(w, rs, rclass, ttl) && ChainAt(b, PutSection(w, rs, rclass, ttl).w.pos, to, more)
    ensures SectionWhole(w, rs, rclass, ttl) ==> R.Good(PutSection(w, rs, rclass, ttl).w, family)
  {
    hide R.Good, R.Whole, PutRecords, PutTxtRecord, PutLabels, ChainAt, HasText, PlainItems, TxtItem, RecordsWhole,
      SectionIn, LabelsOf;
    var w1, plain := PutRecords(w, rs, rclass, ttl).w, PlainItems(rs, rclass, ttl);
    SectionGrows(w, rs, rclass, ttl);
    if HasText(rs) {
      var txt := [TxtItem(rs, rclass, ttl)];
      assert SectionItems(rs, rclass, ttl) + more == plain + (txt + more);
      RecordsThenIff(w, rs, rclass, ttl, family, b, to, txt + more);
      if RecordsWhole(w, rs, rclass, ttl) { TxtThenIff(w1, rs, rclass, ttl, family, b, to, more); }
    } else {
      NoTxtPut(w1, rs, rclass, ttl);
      assert SectionItems(rs, rclass, ttl) + more == plain + more;
      RecordsThenIff(w, rs, rclass, ttl, family, b, to, more);
    }
  }

  lemma NoTxtPut(w: Writer, rs: seq<Record>, rclass: uint16, ttl: uint32)
    requires !HasText(rs) && PutTxtRecord(w, rs, rclass, ttl).Done?
    ensures PutTxtRecord(w, rs, rclass, ttl) == Done(w)
  {
    hide HasText, PutTexts;
    TextsStart(w, rs, rclass, ttl);
  }

  lemma {:induction false} CountIsItems(rs: seq<Record>, rclass: uint16, ttl: uint32)
    ensures |PlainItems(rs, rclass, ttl)| == Plain(rs)
    decreases |rs|
  {
    if rs != [] { CountIsItems(rs[1..], rclass, ttl); }
  }

  // ---------- the whole message ----------

  /** The three lists of records a response carries. */
  function AnswerItems(answer: Record, rclass: uint16, ttl: uint32): seq<Item> {
    if answer.data.Text? then [] else [ItemOf(Update(answer, rclass, ttl))]
  }

  /** All of them, in the order of the message. */
  function ResponseItems(answer: Record, authority: seq<Record>, additional: seq<Record>, rclass: uint16, ttl: uint32)
    : seq<Item>
  {
    AnswerItems(answer, rclass, ttl) + (SectionItems(authority, rclass, ttl) + SectionItems(additional, rclass, ttl))
  }

  lemma CountFits(rs: seq<Record>, rclass: uint16, ttl: uint32)
    requires |SectionItems(rs, rclass, ttl)| < 0x1_0000
    ensures RecordCount(rs) == |SectionItems(rs, rclass, ttl)|
  {
    hide HasText, Update, FirstText, PairsOf;
    CountIsItems(rs, rclass, ttl);
  }

  function Started(buf: seq<byte>, authority: seq<Record>, additional: seq<Record>): Writer
    requires M.HEADER_SIZE <= |buf|
  {
    PutBytes(Writer(buf, 0, Some(EMPTY_RING)), Header(authority, additional))
  }

  ghost predicate AnswerWhole(w: Writer, r: Record)
    requires PutRecord(w, r).Done?
  {
    r.data.Text? || RecordWhole(w, r)
  }

  /** The condition of the round trip: every name written for the response is whole when it is written. */
  ghost predicate ResponseWhole(buf: seq<byte>, answer: Record, authority: seq<Record>, additional: seq<Record>,
                                rclass: uint16, ttl: uint32)
    requires Answer(buf, answer, authority, additional, rclass, ttl).Some?
  {
    var w, r := Started(buf, authority, additional), Update(answer, rclass, ttl);
    var w1 := PutRecord(w, r).w;
    var w2 := PutSection(w1, authority, rclass, ttl).w;
    AnswerWhole(w, r) && SectionWhole(w1, authority, rclass, ttl) && SectionWhole(w2, additional, rclass, ttl)
  }

  /** The three writing stages of a response. */
  lemma AnswerStages(buf: seq<byte>, answer: Record, authority: seq<Record>, additional: seq<Record>, rclass: uint16,
                     ttl: uint32) returns (w: Writer, w1: Writer, w2: Writer, w3: Writer)
    requires |buf| <= REF_LIMIT && Answer(buf, answer, authority, additional, rclass, ttl).Some?
    ensures M.HEADER_SIZE <= |buf| && w == Started(buf, authority, additional)
    ensures PutRecord(w, Update(answer, rclass, ttl)) == Done(w1)
    ensures PutSection(w1, authority, rclass, ttl) == Done(w2) && PutSection(w2, additional, rclass, ttl) == Done(w3)
    ensures Answer(buf, answer, authority, additional, rclass, ttl) == Some(w3.Out())
    ensures w.pos == M.HEADER_SIZE && w.Out() == Header(authority, additional)
    ensures w.Out() <= w1.Out() <= w2.Out() <= w3.Out() && |w3.Out()| <= REF_LIMIT
    ensures R.Good(w, iset{})
    ensures ResponseWhole(buf, answer, authority, additional, rclass, ttl) <==>
            AnswerWhole(w, Update(answer, rclass, ttl)) && SectionWhole(w1, authority, rclass, ttl)
            && SectionWhole(w2, additional, rclass, ttl)
  {
    hide PutRecord, PutSection, Header, Update, AnswerWhole, SectionWhole;
    w := Started(buf, authority, additional);
    w1 := PutRecord(w, Update(answer, rclass, ttl)).w;
    w2 := PutSection(w1, authority, rclass, ttl).w;
    w3 := PutSection(w2, additional, rclass, ttl).w;
    RecordGrows(w, Update(answer, rclass, ttl));
    SectionGrows(w1, authority, rclass, ttl);
    SectionGrows(w2, additional, rclass, ttl);
  }

  lemma AnyFamily(w: Writer, family: iset<seq<Label>>)
    requires R.Good(w, iset{})
    ensures R.Good(w, family)
  {
    hide R.Spells;
  }

  lemma AnyRecordIn(r: Record)
    ensures RecordIn(r, R.ANY_NAME)
  {
    hide LabelsOf;
    forall name: Name ensures EndingsIn(name, R.ANY_NAME) { R.AllSuffixes(LabelsOf(name)); }
  }

  lemma AnySectionIn(rs: seq<Record>)
    ensures SectionIn(rs, R.ANY_NAME)
  {
    hide RecordIn;
    forall r <- rs ensures RecordIn(r, R.ANY_NAME) { AnyRecordIn(r); }
  }

  /** The answer first, unless it is TXT: then nothing is written for it. */
  lemma AnswerThenIff(w: Writer, answer: Record, rclass: uint16, ttl: uint32, family: iset<seq<Label>>, b: seq<byte>,
                      to: nat, more: seq<Item>)
    requires R.Good(w, family) && PutRecord(w, Update(answer, rclass, ttl)).Done? && RecordIn(answer, family)
    requires PutRecord(w, Update(answer, rclass, ttl)).w.Out() <= b
    ensures var r := Update(answer, rclass, ttl);
      && (ChainAt(b, w.pos, to, AnswerItems(answer, rclass, ttl) + more) <==>
          AnswerWhole(w, r) && ChainAt(b, PutRecord(w, r).w.pos, to, more))
      && (AnswerWhole(w, r) ==> R.Good(PutRecord(w, r).w, family))
  {
    hide R.Good, RecordWhole, PutRecord, ChainAt, Update, RecordIn;
    var r := Update(answer, rclass, ttl);
    UpdateKeeps(answer, rclass, ttl, family);
    if answer.data.Text? {
      TextPutsNothing(w, r);
      assert AnswerItems(answer, rclass, ttl) + more == more;
    } else {
      RecordThenIff(w, r, family, b, to, more);
    }
  }

  /** A RESPONSE, exactly: behind the header the message holds its records, back to back and nothing else, if and only
      if the names written for them are whole. */
  lemma ResponseStandsIff(buf: seq<byte>, answer: Record, authority: seq<Record>, additional: seq<Record>,
                          rclass: uint16, ttl: uint32)
    requires |buf| <= REF_LIMIT && Answer(buf, answer, authority, additional, rclass, ttl).Some?
    ensures var b := Answer(buf, answer, authority, additional, rclass, ttl).value;
      ChainAt(b, M.HEADER_SIZE, |b|, ResponseItems(answer, authority, additional, rclass, ttl)) <==>
      ResponseWhole(buf, answer, authority, additional, rclass, ttl)
  {
    hide R.Good, Answer, PutRecord, PutSection, ChainAt, Update, SectionItems, AnswerItems, Started, AnswerWhole,
      SectionWhole, ResponseWhole, RecordIn, SectionIn;
    var w, w1, w2, w3 := AnswerStages(buf, answer, authority, additional, rclass, ttl);
    var b := w3.Out();
    var x, y := SectionItems(authority, rclass, ttl), SectionItems(additional, rclass, ttl);
    AnyFamily(w, R.ANY_NAME);
    AnyRecordIn(answer); AnySectionIn(authority); AnySectionIn(additional);
    AnswerThenIff(w, answer, rclass, ttl, R.ANY_NAME, b, |b|, x + y);
    if AnswerWhole(w, Update(answer, rclass, ttl)) {
      SectionThenIff(w1, authority, rclass, ttl, R.ANY_NAME, b, |b|, y);
      if SectionWhole(w1, authority, rclass, ttl) {
        SectionThenIff(w2, additional, rclass, ttl, R.ANY_NAME, b, |b|, []);
        assert y + [] == y;
        ChainNone(b, |b|);
      }
    }
  }

  lemma ChainNone(b: seq<byte>, at: nat)
    ensures ChainAt(b, at, at, [])
  {
  }

  /** Where the sections of a response with whole names end. */
  lemma SectionsStand(buf: seq<byte>, answer: Record, authority: seq<Record>, additional: seq<Record>,
                      rclass: uint16, ttl: uint32) returns (p1: nat, p2: nat)
    requires |buf| <= REF_LIMIT && Answer(buf, answer, authority, additional, rclass, ttl).Some?
    requires ResponseWhole(buf, answer, authority, additional, rclass, ttl)
    ensures var b := Answer(buf, answer, authority, additional, rclass, ttl).value;
      && M.HEADER_SIZE <= p1 <= p2 <= |b|
      && ChainAt(b, M.HEADER_SIZE, p1, AnswerItems(answer, rclass, ttl))
      && ChainAt(b, p1, p2, SectionItems(authority, rclass, ttl))
      && ChainAt(b, p2, |b|, SectionItems(additional, rclass, ttl))
  {
    hide R.Good, Answer, PutRecord, PutSection, ChainAt, Update, SectionItems, AnswerItems, Started, AnswerWhole,
      SectionWhole, ResponseWhole, RecordIn, SectionIn;
    var w, w1, w2, w3 := AnswerStages(buf, answer, authority, additional, rclass, ttl);
    var b := w3.Out();
    p1, p2 := w1.pos, w2.pos;
    AnyFamily(w, R.ANY_NAME);
    AnyRecordIn(answer); AnySectionIn(authority); AnySectionIn(additional);
    ChainNone(b, p1); ChainNone(b, p2); ChainNone(b, |b|);
    AnswerThenIff(w, answer, rclass, ttl, R.ANY_NAME, b, p1, []);
    SectionThenIff(w1, authority, rclass, ttl, R.ANY_NAME, b, p2, []);
    SectionThenIff(w2, additional, rclass, ttl, R.ANY_NAME, b, |b|, []);
    assert AnswerItems(answer, rclass, ttl) + [] == AnswerItems(answer, rclass, ttl);
    assert SectionItems(authority, rclass, ttl) + [] == SectionItems(authority, rclass, ttl);
    assert SectionItems(additional, rclass, ttl) + [] == SectionItems(additional, rclass, ttl);
  }

  lemma HeaderStands(buf: seq<byte>, answer: Record, authority: seq<Record>, additional: seq<Record>,
                     rclass: uint16, ttl: uint32)
    requires |buf| <= REF_LIMIT && Answer(buf, answer, authority, additional, rclass, ttl).Some?
    ensures var b := Answer(buf, answer, authority, additional, rclass, ttl).value;
      && M.HEADER_SIZE <= |b| <= REF_LIMIT
      && GetU16BE(b, 0) == 0 && GetU16BE(b, 2) == 0x8400 && GetU16BE(b, 4) == 0 && GetU16BE(b, 6) == 1
      && GetU16BE(b, 8) == RecordCount(authority) && GetU16BE(b, 10) == RecordCount(additional)
  {
    hide Answer, PutRecord, PutSection, Update, Started, AnswerWhole, SectionWhole, ResponseWhole, R.Good, Header,
      GetU16BE, RecordCount;
    var w, w1, w2, w3 := AnswerStages(buf, answer, authority, additional, rclass, ttl);
    var b := w3.Out();
    assert b[..M.HEADER_SIZE] == w.Out();
    HeaderRead(b, authority, additional);
  }

  lemma HeaderRead(b: seq<byte>, authority: seq<Record>, additional: seq<Record>)
    requires M.HEADER_SIZE <= |b| && b[..M.HEADER_SIZE] == Header(authority, additional)
    ensures GetU16BE(b, 0) == 0 && GetU16BE(b, 2) == 0x8400 && GetU16BE(b, 4) == 0 && GetU16BE(b, 6) == 1
    ensures GetU16BE(b, 8) == RecordCount(authority) && GetU16BE(b, 10) == RecordCount(additional)
  {
    hide RecordCount;
    var x, y := RecordCount(authority), RecordCount(additional);
    var h := Header(authority, additional);
    assert h == [0, 0, 0x84, 0, 0, 0, 0, 1] + U16BE(x) + U16BE(y);
    assert forall i | 0 <= i < 12 :: b[i] == b[..M.HEADER_SIZE][i] == h[i];
    assert b[8] == U16BE(x)[0] && b[9] == U16BE(x)[1] && b[10] == U16BE(y)[0] && b[11] == U16BE(y)[1];
    assert b[8..10] == U16BE(x) && b[10..12] == U16BE(y);
    ReadU16BE(b, 8, x);
    ReadU16BE(b, 10, y);
  }
}
