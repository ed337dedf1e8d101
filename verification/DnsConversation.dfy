/** Sender and receiver of a multicast response put together: what is built is what is handed to the record callback. */
module DnsConversation {
  import opened Bytes
  import N = DnsNames
  import opened DnsCompression
  import R = DnsRoundTrip
  import opened DnsAnswers
  import opened DnsResponse
  import opened DnsMessageWriting
  import M = DnsMessages

  type Label = N.Label

  // ---------- receiving ----------

  /** What the record callback makes of an entry, with its own buffer sizes. */
  datatype SeenData =
    | SeenName(text: seq<byte>)
    | SeenSrv(srv: M.Srv)
    | SeenAddress(addr: seq<byte>)
    | SeenTxt(strings: seq<M.Txt>)
    | SeenNothing

  datatype Seen = Seen(section: M.Section, name: Option<seq<Label>>, rtype: uint16, rclass: uint16, ttl: uint32,
                       data: SeenData)

  function DecodedData(b: seq<byte>, e: M.Entry, capacity: nat, strings: nat): SeenData {
    if e.rtype == M.TYPE_PTR then SeenName(M.ParsePtr(b, e.offset, e.length, capacity))
    else if e.rtype == M.TYPE_SRV then SeenSrv(M.ParseSrv(b, e.offset, e.length, capacity))
    else if e.rtype == M.TYPE_A then SeenAddress(M.ParseAddress(b, e.offset, e.length, 4))
    else if e.rtype == M.TYPE_AAAA then SeenAddress(M.ParseAddress(b, e.offset, e.length, 16))
    else if e.rtype == M.TYPE_TXT then SeenTxt(M.ParseTxt(b, e.offset, e.length, strings))
    else SeenNothing
  }

  function Decoded(b: seq<byte>, e: M.Entry, capacity: nat, strings: nat): Seen {
    Seen(e.section, N.Name(b, e.nameOffset), e.rtype, e.rclass, e.ttl, DecodedData(b, e, capacity, strings))
  }

  function TextOf(name: Name, capacity: nat): seq<byte> { N.Take(N.Dotted(LabelsOf(name)), capacity) }

  /** What the sender meant by a record. */
  function Meant(i: Item, capacity: nat, strings: nat): SeenData {
    match i.data
    case One(Ptr(target)) => SeenName(TextOf(target, capacity))
    case One(Srv(p, q, port, host)) => SeenSrv(M.Srv(p, q, port, TextOf(host, capacity)))
    case One(A(addr)) => SeenAddress(addr)
    case One(Aaaa(addr)) => SeenAddress(addr)
    case One(Text(_, _)) => SeenNothing
    case One(Other(_)) => SeenNothing
    case Texts(ps) => SeenTxt(MeantStrings(ps, strings))
  }

  function MeantStrings(ps: seq<Pair>, strings: nat): seq<M.Txt> {
    if ps == [] || strings == 0 then []
    else [M.Txt(ps[0].key, Some(ps[0].value))] + MeantStrings(ps[1..], strings - 1)
  }

  function Expected(section: M.Section, i: Item, capacity: nat, strings: nat): Seen {
    Seen(section, Some(LabelsOf(i.name)), ItemType(i), i.rclass, i.ttl, Meant(i, capacity, strings))
  }

  /** Section 6.4 of RFC 6763: a key is printable, has no '=' and is not empty; a string has 255 bytes. */
  predicate ProperPair(p: Pair) {
    p.key != [] && (forall c <- p.key :: 0x20 <= c <= 0x7E && c != 61) && |p.key| + |p.value| + 1 <= 255
  }

  /** As many strings as the receiver has room for. */
  predicate ProperTo(ps: seq<Pair>, strings: nat) { forall i | 0 <= i < |ps| && i < strings :: ProperPair(ps[i]) }

  predicate ProperItem(i: Item, strings: nat) { i.data.Texts? ==> ProperTo(i.data.pairs, strings) }

  lemma {:induction false} KeyEnds(key: seq<byte>, value: seq<byte>, c: nat)
    requires c <= |key| && forall x <- key :: 0x20 <= x <= 0x7E && x != 61
    ensures M.Separator(key + [M.EQUALS] + value, c) == |key|
    decreases |key| - c
  {
    var s := key + [M.EQUALS] + value;
    if c < |key| {
      assert s[c] == key[c] && key[c] in key;
      KeyEnds(key, value, c + 1);
    }
  }

  lemma PairParsed(p: Pair)
    requires ProperPair(p)
    ensures M.TxtOf(p.key + [M.EQUALS] + p.value) == Some(M.Txt(p.key, Some(p.value)))
  {
    KeyEnds(p.key, p.value, 0);
    var s := p.key + [M.EQUALS] + p.value;
    assert s[..|p.key|] == p.key && s[|p.key| + 1..] == p.value;
  }

  lemma {:induction false} SeparatorIsKey(s: seq<byte>, c: nat)
    requires c <= |s|
    ensures var k := M.Separator(s, c);
      k != 0 ==>
        c <= k && (k < |s| ==> s[k] == M.EQUALS) && forall i | c <= i < k :: M.Printable(s[i]) && s[i] != M.EQUALS
    decreases |s| - c
  {
    if c < |s| { SeparatorIsKey(s, c + 1); }
  }

  predicate ProperTxt(t: M.Txt) { t.value.Some? ==> ProperPair(Pair(t.key, t.value.value)) }

  lemma TxtIsProper(s: seq<byte>)
    requires |s| <= 255 && M.TxtOf(s).Some?
    ensures ProperTxt(M.TxtOf(s).value)
  {
    SeparatorIsKey(s, 0);
  }

  predicate AllProperTxt(ts: seq<M.Txt>) { forall t <- ts :: ProperTxt(t) }

  /** Whatever the bytes are, only proper pairs come out. */
  lemma {:induction false} ParsedAreProper(b: seq<byte>, from: nat, to: nat, strings: nat)
    requires to <= |b|
    ensures AllProperTxt(M.ParseTxtFrom(b, from, to, strings))
    decreases if from < to then to - from else 0
  {
    hide M.TxtOf, ProperTxt, M.ParseTxtFrom;
    if from >= to || strings == 0 {
      M.TxtEnd(b, from, to, strings);
    } else {
      M.TxtStep(b, from, to, strings);
      if b[from] < to - from {
        var next := from + b[from] + 1;
        var s := b[from + 1..next];
        if M.TxtOf(s).Some? {
          TxtIsProper(s);
          ParsedAreProper(b, next, to, strings - 1);
        } else {
          ParsedAreProper(b, next, to, strings);
        }
      }
    }
  }

  lemma ProperStep(ps: seq<Pair>, strings: nat)
    ensures ps == [] || strings == 0 ==> ProperTo(ps, strings) && MeantStrings(ps, strings) == []
    ensures ps == [] ==> PairsBytes(ps) == []
    ensures ps != [] && strings > 0 ==>
      && MeantStrings(ps, strings) == [M.Txt(ps[0].key, Some(ps[0].value))] + MeantStrings(ps[1..], strings - 1)
      && (ProperTo(ps, strings) <==> ProperPair(ps[0]) && ProperTo(ps[1..], strings - 1))
  {
    hide ProperPair;
    if ps != [] && strings > 0 && ProperPair(ps[0]) && ProperTo(ps[1..], strings - 1) {
      forall i | 0 <= i < |ps| && i < strings ensures ProperPair(ps[i]) {
        if i > 0 { assert ps[1..][i - 1] == ps[i]; }
      }
    }
  }

  lemma ImproperIsNotParsed(b: seq<byte>, from: nat, to: nat, strings: nat, p: Pair, rest: seq<M.Txt>)
    requires to <= |b| && !ProperPair(p)
    ensures M.ParseTxtFrom(b, from, to, strings) != [M.Txt(p.key, Some(p.value))] + rest
  {
    hide ProperPair, M.ParseTxtFrom;
    ParsedAreProper(b, from, to, strings);
    var t := M.Txt(p.key, Some(p.value));
    assert Pair(t.key, t.value.value) == p;
    assert !ProperTxt(t) && t in [t] + rest;
  }

  /** The strings of a TXT record are read as they were meant if and only if those there is room for are proper. */
  lemma {:induction false} TextsParsedIff(b: seq<byte>, from: nat, to: nat, ps: seq<Pair>, strings: nat)
    requires from <= to <= |b| && b[from..to] == PairsBytes(ps)
    ensures M.ParseTxtFrom(b, from, to, strings) == MeantStrings(ps, strings) <==> ProperTo(ps, strings)
    decreases |ps|
  {
    hide M.TxtOf, ProperPair, M.ParseTxtFrom, ProperTo, MeantStrings, PairsBytes;
    ProperStep(ps, strings);
    if ps == [] || strings == 0 {
      M.TxtEnd(b, from, to, strings);
    } else if ProperPair(ps[0]) {
      var p := ps[0];
      var s := p.key + [M.EQUALS] + p.value;
      StringAhead(b, from, to, ps);
      PairParsed(p);
      M.TxtStep(b, from, to, strings);
      var next := from + 1 + |s|;
      TextsParsedIff(b, next, to, ps[1..], strings - 1);
      SameTail(M.Txt(p.key, Some(p.value)), M.ParseTxtFrom(b, next, to, strings - 1), MeantStrings(ps[1..], strings - 1));
    } else {
      ImproperIsNotParsed(b, from, to, strings, ps[0], MeantStrings(ps[1..], strings - 1));
    }
  }

  lemma SameTail(t: M.Txt, x: seq<M.Txt>, y: seq<M.Txt>)
    ensures [t] + x == [t] + y <==> x == y
  {
    assert ([t] + x)[1..] == x && ([t] + y)[1..] == y;
  }

  lemma StringAhead(b: seq<byte>, from: nat, to: nat, ps: seq<Pair>)
    requires from <= to <= |b| && b[from..to] == PairsBytes(ps) && ps != [] && ProperPair(ps[0])
    ensures var s := ps[0].key + [M.EQUALS] + ps[0].value;
      && from + 1 + |s| <= to && b[from] == |s| && b[from + 1..from + 1 + |s|] == s
      && b[from + 1 + |s|..to] == PairsBytes(ps[1..])
  {
    hide M.Printable, PairsBytes;
    var s := ps[0].key + [M.EQUALS] + ps[0].value;
    PairsUnfold(ps);
    assert TextBytes(ps[0].key, ps[0].value) == [|s| as byte] + s;
    PrefixedAhead(b, from, to, |s|, s, PairsBytes(ps[1..]));
  }

  lemma PairsUnfold(ps: seq<Pair>)
    requires ps != []
    ensures PairsBytes(ps) == TextBytes(ps[0].key, ps[0].value) + PairsBytes(ps[1..])
  {
  }

  lemma PrefixedAhead(b: seq<byte>, from: nat, to: nat, x: byte, s: seq<byte>, rest: seq<byte>)
    requires from <= to <= |b| && b[from..to] == [x] + s + rest
    ensures from + 1 + |s| <= to && b[from] == x && b[from + 1..from + 1 + |s|] == s && b[from + 1 + |s|..to] == rest
  {
    var all := b[from..to];
    assert |all| == 1 + |s| + |rest|;
    forall i | 0 <= i < |all| ensures b[from + i] == all[i] { }
    assert b[from] == all[0];
    assert forall i | 0 <= i < |s| :: b[from + 1 + i] == all[1 + i] == s[i];
    assert forall i | 0 <= i < |rest| :: b[from + 1 + |s| + i] == all[1 + |s| + i] == rest[i];
  }

  /** The data of one record is decoded to what was meant, if its strings are proper and not otherwise. */
  lemma DataDecodes(b: seq<byte>, from: nat, to: nat, item: Item, e: M.Entry, capacity: nat, strings: nat)
    requires DataAt(b, from, to, item.data)
    requires e.rtype == ItemType(item) && e.offset == from && e.length == to - from
    ensures DecodedData(b, e, capacity, strings) == Meant(item, capacity, strings) <==> ProperItem(item, strings)
  {
    hide N.Name, LabelsOf, ProperTo, PairsBytes, N.Take, N.Dotted;
    match item.data
    case One(Srv(p, q, port, host)) =>
      var six := b[from..from + 6];
      var x, y, z := U16BE(p), U16BE(q), U16BE(port);
      assert six == x + y + z;
      assert six[0] == x[0] && six[1] == x[1] && six[2] == y[0] && six[3] == y[1] && six[4] == z[0] && six[5] == z[1];
      assert b[from..from + 2] == x && b[from + 2..from + 4] == y && b[from + 4..from + 6] == z;
      ReadU16BE(b, from, p);
      ReadU16BE(b, from + 2, q);
      ReadU16BE(b, from + 4, port);
    case Texts(ps) => TextsParsedIff(b, from, to, ps, strings);
    case One(A(addr)) => assert b[from..from + 4] == b[from..to];
    case One(Aaaa(addr)) => assert b[from..from + 16] == b[from..to];
    case _ =>
  }

  /** A record of the message is handed over as one entry that ends where the next record begins. */
  lemma ItemHandedOver(b: seq<byte>, from: nat, to: nat, item: Item, section: M.Section, id: uint16)
    requires ItemAt(b, from, to, item)
    ensures from <= M.SkipOrStay(b, from) && M.SkipOrStay(b, from) + M.FIXED_SIZE <= |b|
    ensures var e := M.EntryAt(b, from, section, id);
      && e.nameOffset == from && e.offset + e.length == to <= |b|
      && N.Skip(b, from) == Some(e.offset - M.FIXED_SIZE)
      && e.section == section && e.rtype == ItemType(item) && e.rclass == item.rclass && e.ttl == item.ttl
  {
    hide N.Name, N.Skip, LabelsOf, DataAt;
    var s := N.Skip(b, from).value;
    M.SkipAdvances(b, from);
    assert M.SkipOrStay(b, from) == s;
    FixedFields(b, s, ItemType(item), item.rclass, item.ttl, to - (s + M.FIXED_SIZE));
  }

  /** And the callback makes of it what was meant, if its strings are proper and not otherwise. */
  lemma ItemParsed(b: seq<byte>, from: nat, to: nat, item: Item, section: M.Section, id: uint16,
                   capacity: nat, strings: nat)
    requires ItemAt(b, from, to, item)
    ensures from <= M.SkipOrStay(b, from) && M.SkipOrStay(b, from) + M.FIXED_SIZE <= |b|
    ensures var e := M.EntryAt(b, from, section, id);
      e.nameOffset == from && e.offset + e.length == to <= |b|
      && (Decoded(b, e, capacity, strings) == Expected(section, item, capacity, strings) <==> ProperItem(item, strings))
  {
    hide N.Name, N.Skip, LabelsOf, DataAt, ProperItem, DecodedData, Meant;
    ItemHandedOver(b, from, to, item, section, id);
    var e := M.EntryAt(b, from, section, id);
    DataDecodes(b, e.offset, to, item, e, capacity, strings);
  }

  /** Entries that tile the message from one offset to another: every length field is exact. */
  predicate Tiles(es: seq<M.Entry>, from: nat, to: nat) {
    if es == [] then from == to
    else es[0].nameOffset == from && Tiles(es[1..], es[0].offset + es[0].length, to)
  }

  ghost predicate SeenAs(b: seq<byte>, es: seq<M.Entry>, section: M.Section, items: seq<Item>,
                         capacity: nat, strings: nat)
  {
    |es| == |items| &&
    forall k | 0 <= k < |es| :: Decoded(b, es[k], capacity, strings) == Expected(section, items[k], capacity, strings)
  }

  predicate AllProper(items: seq<Item>, strings: nat) { forall i <- items :: ProperItem(i, strings) }

  lemma SeenCons(b: seq<byte>, e: M.Entry, es: seq<M.Entry>, section: M.Section, i: Item, items: seq<Item>,
                 capacity: nat, strings: nat)
    ensures SeenAs(b, [e] + es, section, [i] + items, capacity, strings) <==>
            Decoded(b, e, capacity, strings) == Expected(section, i, capacity, strings)
            && SeenAs(b, es, section, items, capacity, strings)
  {
    hide Decoded, Expected;
    if SeenAs(b, [e] + es, section, [i] + items, capacity, strings) {
      assert ([e] + es)[0] == e && ([i] + items)[0] == i;
      forall k | 0 <= k < |es|
        ensures Decoded(b, es[k], capacity, strings) == Expected(section, items[k], capacity, strings)
      {
        assert ([e] + es)[k + 1] == es[k] && ([i] + items)[k + 1] == items[k];
      }
    }
  }

  lemma ProperCons(i: Item, items: seq<Item>, strings: nat)
    ensures AllProper([i] + items, strings) <==> ProperItem(i, strings) && AllProper(items, strings)
  {
    hide ProperItem;
    assert forall j <- items :: j in [i] + items;
    assert i in [i] + items;
  }

  lemma {:induction false} ChainParsedIff(b: seq<byte>, from: nat, to: nat, items: seq<Item>, section: M.Section,
                                          id: uint16, capacity: nat, strings: nat)
    requires ChainAt(b, from, to, items)
    ensures var p := M.ParseRecords(b, from, section, id, |items|);
      p.next == to && |p.entries| == |items| && Tiles(p.entries, from, to)
      && (SeenAs(b, p.entries, section, items, capacity, strings) <==> AllProper(items, strings))
    decreases |items|
  {
    hide ItemAt, EndOf, M.ParseRecords, M.EntryAt, M.SkipOrStay, Decoded, Expected, ProperItem, SeenAs, AllProper;
    if items == [] {
      M.ParseEnd(b, from, section, id);
      NothingSeen(b, section, capacity, strings);
    } else {
      var mid := EndOf(b, from);
      ItemParsed(b, from, mid, items[0], section, id, capacity, strings);
      ItemEnds(b, from, mid, items[0]);
      M.ParseStep(b, from, section, id, |items|);
      ChainParsedIff(b, mid, to, items[1..], section, id, capacity, strings);
      var e, rest := M.EntryAt(b, from, section, id), M.ParseRecords(b, mid, section, id, |items| - 1).entries;
      SeenCons(b, e, rest, section, items[0], items[1..], capacity, strings);
      ProperCons(items[0], items[1..], strings);
      assert [items[0]] + items[1..] == items;
      assert ([e] + rest)[1..] == rest;
    }
  }

  lemma NothingSeen(b: seq<byte>, section: M.Section, capacity: nat, strings: nat)
    ensures SeenAs(b, [], section, [], capacity, strings) && AllProper([], strings)
  {
  }

  // ---------- the whole message ----------

  lemma {:induction false} TilesConcat(x: seq<M.Entry>, y: seq<M.Entry>, from: nat, mid: nat, to: nat)
    requires Tiles(x, from, mid) && Tiles(y, mid, to)
    ensures Tiles(x + y, from, to)
    decreases |x|
  {
    if x == [] {
      assert x + y == y;
    } else {
      assert (x + y)[1..] == x[1..] + y;
      TilesConcat(x[1..], y, x[0].offset + x[0].length, mid, to);
    }
  }

  /** Three sections one behind the other are received as three lists of entries. */
  lemma SectionsParsed(b: seq<byte>, id: uint16, p0: nat, p1: nat, p2: nat, p3: nat,
                       x: seq<Item>, y: seq<Item>, z: seq<Item>, capacity: nat, strings: nat)
    requires ChainAt(b, p0, p1, x) && ChainAt(b, p1, p2, y) && ChainAt(b, p2, p3, z)
    ensures var es := M.Sections(b, p0, id, |x|, |y|, |z|);
      && |es| == |x| + |y| + |z| && Tiles(es, p0, p3)
      && (SeenAs(b, es[..|x|], M.Answer, x, capacity, strings) <==> AllProper(x, strings))
      && (SeenAs(b, es[|x|..|x| + |y|], M.Authority, y, capacity, strings) <==> AllProper(y, strings))
      && (SeenAs(b, es[|x| + |y|..], M.Additional, z, capacity, strings) <==> AllProper(z, strings))
  {
    hide ChainAt, AllProper, M.ParseRecords, M.Sections, Tiles, SeenAs;
    M.SectionsStep(b, p0, id, |x|, |y|, |z|);
    ChainParsedIff(b, p0, p1, x, M.Answer, id, capacity, strings);
    ChainParsedIff(b, p1, p2, y, M.Authority, id, capacity, strings);
    ChainParsedIff(b, p2, p3, z, M.Additional, id, capacity, strings);
    var p := M.ParseRecords(b, p0, M.Answer, id, |x|).entries;
    var q := M.ParseRecords(b, p1, M.Authority, id, |y|).entries;
    var r := M.ParseRecords(b, p2, M.Additional, id, |z|).entries;
    var es := M.Sections(b, p0, id, |x|, |y|, |z|);
    assert es == p + q + r;
    assert es[..|x|] == p && es[|x|..|x| + |y|] == q && es[|x| + |y|..] == r;
    TilesConcat(p, q, p0, p1, p2);
    TilesConcat(p + q, r, p0, p2, p3);
  }

  lemma {:induction false} PlainProper(rs: seq<Record>, rclass: uint16, ttl: uint32, strings: nat)
    ensures AllProper(PlainItems(rs, rclass, ttl), strings)
    decreases |rs|
  {
    hide Update;
    if rs != [] { PlainProper(rs[1..], rclass, ttl, strings); }
  }

  lemma SectionProperIff(rs: seq<Record>, rclass: uint16, ttl: uint32, strings: nat)
    ensures AllProper(SectionItems(rs, rclass, ttl), strings) <==> ProperTo(PairsOf(rs), strings)
  {
    hide ProperTo, PairsOf, PlainItems, Update, FirstText;
    PlainProper(rs, rclass, ttl, strings);
    if HasText(rs) {
      assert TxtItem(rs, rclass, ttl) in SectionItems(rs, rclass, ttl);
    } else {
      NoPairs(rs);
    }
  }

  lemma {:induction false} NoPairs(rs: seq<Record>)
    requires !HasText(rs)
    ensures PairsOf(rs) == [] && forall strings: nat :: ProperTo(PairsOf(rs), strings)
    decreases |rs|
  {
    if rs != [] {
      assert forall i | 0 <= i < |rs[1..]| :: rs[1..][i] == rs[i + 1];
      NoPairs(rs[1..]);
    }
  }

  /** WHAT A RESPONSE MEANS TO ITS RECEIVER: if its names are whole, whatever the answer builder sends, starting from
      any buffer contents, is received as its records in order, the TXT records of a section as one, announced by exact
      counts and exact lengths that tile the message; and the callback makes of them what was meant -- names, types,
      classes, times to live and data -- if and only if the TXT strings it has room for are proper. */
  lemma ResponseReadsBack(buf: seq<byte>, answer: Record, authority: seq<Record>, additional: seq<Record>,
                          rclass: uint16, ttl: uint32, received: seq<byte>, onlyId: int, capacity: nat, strings: nat)
    requires |buf| <= REF_LIMIT && !answer.data.Text? && onlyId <= 0
    requires Answer(buf, answer, authority, additional, rclass, ttl).Some?
    requires ResponseWhole(buf, answer, authority, additional, rclass, ttl)
    requires Answer(buf, answer, authority, additional, rclass, ttl).value <= received
    ensures var b := Answer(buf, answer, authority, additional, rclass, ttl).value;
      M.HEADER_SIZE <= |b| &&
      var es := M.QueryRecv(received, |b|, onlyId);
      var x, y := SectionItems(authority, rclass, ttl), SectionItems(additional, rclass, ttl);
      && GetU16BE(b, 6) == 1 && GetU16BE(b, 8) == |x| && GetU16BE(b, 10) == |y|
      && |es| == 1 + |x| + |y| && Tiles(es, M.HEADER_SIZE, |b|)
      && SeenAs(b, es[..1], M.Answer, AnswerItems(answer, rclass, ttl), capacity, strings)
      && (SeenAs(b, es[1..1 + |x|], M.Authority, x, capacity, strings) <==> ProperTo(PairsOf(authority), strings))
      && (SeenAs(b, es[1 + |x|..], M.Additional, y, capacity, strings) <==> ProperTo(PairsOf(additional), strings))
  {
    hide Answer, ChainAt, M.Sections, M.QueryRecv, Tiles, SeenAs, SectionItems, AllProper, RecordCount,
      GetU16BE, ResponseWhole, ProperTo;
    var b := Answer(buf, answer, authority, additional, rclass, ttl).value;
    HeaderStands(buf, answer, authority, additional, rclass, ttl);
    var p1, p2 := SectionsStand(buf, answer, authority, additional, rclass, ttl);
    var x, y := SectionItems(authority, rclass, ttl), SectionItems(additional, rclass, ttl);
    ChainLength(b, p1, p2, x);
    ChainLength(b, p2, |b|, y);
    CountFits(authority, rclass, ttl);
    CountFits(additional, rclass, ttl);
    SectionProperIff(authority, rclass, ttl, strings);
    SectionProperIff(additional, rclass, ttl, strings);
    AnswerProper(answer, rclass, ttl, strings);
    SectionsParsed(b, 0, M.HEADER_SIZE, p1, p2, |b|, AnswerItems(answer, rclass, ttl), x, y, capacity, strings);
    SameHeader(b, received);
    M.WithoutQuestions(received, |b|, onlyId);
  }

  lemma AnswerProper(answer: Record, rclass: uint16, ttl: uint32, strings: nat)
    ensures AllProper(AnswerItems(answer, rclass, ttl), strings)
  {
    hide Update;
  }

  lemma SameHeader(b: seq<byte>, received: seq<byte>)
    requires b <= received && M.HEADER_SIZE <= |b|
    ensures received[..|b|] == b
    ensures forall i: nat | i + 2 <= M.HEADER_SIZE :: GetU16BE(received, i) == GetU16BE(b, i)
  {
  }

  // ---------- received at all ----------

  /** The entries are these records, one for one, and leave no gap. */
  ghost predicate Conveys(b: seq<byte>, es: seq<M.Entry>, from: nat, to: nat, items: seq<Item>)
    decreases |items|
  {
    |es| == |items| &&
    if items == [] then from == to
    else es[0].nameOffset == from && ItemAt(b, from, es[0].offset + es[0].length, items[0])
         && Conveys(b, es[1..], es[0].offset + es[0].length, to, items[1..])
  }

  lemma {:induction false} ConveyedIsChain(b: seq<byte>, es: seq<M.Entry>, from: nat, to: nat, items: seq<Item>)
    requires Conveys(b, es, from, to, items)
    ensures ChainAt(b, from, to, items)
    decreases |items|
  {
    hide ItemAt, EndOf;
    if items != [] {
      var mid := es[0].offset + es[0].length;
      ItemEnds(b, from, mid, items[0]);
      ConveyedIsChain(b, es[1..], mid, to, items[1..]);
    }
  }

  lemma {:induction false} ConveysConcat(b: seq<byte>, x: seq<M.Entry>, y: seq<M.Entry>, from: nat, mid: nat, to: nat,
                                         p: seq<Item>, q: seq<Item>)
    requires Conveys(b, x, from, mid, p) && Conveys(b, y, mid, to, q)
    ensures Conveys(b, x + y, from, to, p + q)
    decreases |p|
  {
    hide ItemAt;
    if p == [] {
      assert x + y == y && p + q == q;
    } else {
      assert (x + y)[1..] == x[1..] + y && (p + q)[1..] == p[1..] + q;
      ConveysConcat(b, x[1..], y, x[0].offset + x[0].length, mid, to, p[1..], q);
    }
  }

  lemma NothingBehind(b: seq<byte>, section: M.Section, id: uint16, n: nat)
    ensures M.ParseRecords(b, |b|, section, id, n) == M.Parsed([], |b|)
  {
    assert N.NextSubstring(b, |b|).Bad?;
    assert N.Skip(b, |b|).None?;
  }

  function Least(n: nat, m: nat): nat { if n < m then n else m }

  /** A section that asks for more records than the message has left gets those and no more. */
  lemma {:induction false} ChainHandedOver(b: seq<byte>, from: nat, items: seq<Item>, section: M.Section,
                                           id: uint16, n: nat)
    requires ChainAt(b, from, |b|, items)
    ensures var p := M.ParseRecords(b, from, section, id, n);
      var k := Least(n, |items|);
      Conveys(b, p.entries, from, p.next, items[..k]) && ChainAt(b, p.next, |b|, items[k..])
    decreases n
  {
    hide ItemAt, EndOf, ChainAt, Conveys, M.ParseRecords, M.EntryAt, M.SkipOrStay;
    ChainNext(b, from, |b|, items);
    ConveysNone(b, from);
    if n == 0 {
      M.ParseEnd(b, from, section, id);
      assert items[0..] == items;
    } else if items == [] {
      NothingBehind(b, section, id, n);
    } else {
      var mid := EndOf(b, from);
      ItemEnds(b, from, mid, items[0]);
      ItemHandedOver(b, from, mid, items[0], section, id);
      M.ParseStep(b, from, section, id, n);
      ChainHandedOver(b, mid, items[1..], section, id, n - 1);
      var k := Least(n - 1, |items[1..]|);
      FirstAndMore(items, k);
      var rest := M.ParseRecords(b, mid, section, id, n - 1);
      ConveysCons(b, M.EntryAt(b, from, section, id), rest.entries, from, mid, rest.next, items[0], items[1..][..k]);
    }
  }

  lemma FirstAndMore(items: seq<Item>, k: nat)
    requires k < |items|
    ensures items[1..][k..] == items[k + 1..] && items[..k + 1] == [items[0]] + items[1..][..k]
  {
    assert forall i | 0 <= i < k :: items[1..][i] == items[i + 1];
  }

  lemma ChainNext(b: seq<byte>, from: nat, to: nat, items: seq<Item>)
    requires ChainAt(b, from, to, items)
    ensures if items == [] then from == to
            else ItemAt(b, from, EndOf(b, from), items[0]) && ChainAt(b, EndOf(b, from), to, items[1..])
  {
    hide ItemAt, EndOf;
  }

  lemma ConveysNone(b: seq<byte>, at: nat)
    ensures Conveys(b, [], at, at, [])
  {
  }

  lemma ConveysCons(b: seq<byte>, e: M.Entry, es: seq<M.Entry>, from: nat, mid: nat, to: nat,
                    item: Item, items: seq<Item>)
    requires e.nameOffset == from && e.offset + e.length == mid && ItemAt(b, from, mid, item)
    requires Conveys(b, es, mid, to, items)
    ensures Conveys(b, [e] + es, from, to, [item] + items)
  {
    hide ItemAt;
    assert ([e] + es)[1..] == es && ([item] + items)[1..] == items;
  }

  lemma SectionsHandedOver(b: seq<byte>, id: uint16, from: nat, items: seq<Item>, n1: nat, n2: nat, n3: nat)
    requires ChainAt(b, from, |b|, items) && |items| <= n1 + n2 + n3
    ensures Conveys(b, M.Sections(b, from, id, n1, n2, n3), from, |b|, items)
  {
    hide ChainAt, Conveys, M.ParseRecords, M.Sections;
    M.SectionsStep(b, from, id, n1, n2, n3);
    ChainHandedOver(b, from, items, M.Answer, id, n1);
    var k := Least(n1, |items|);
    var p, rest := M.ParseRecords(b, from, M.Answer, id, n1), items[k..];
    ConveyedLength(b, p.entries, from, p.next, items[..k]);
    if k < n1 {
      AllConveyed(b, p.entries, from, p.next, items, k);
    } else {
      TwoHandedOver(b, id, p.next, rest, n2, n3);
      assert items[..k] + rest == items;
      var q := M.ParseRecords(b, p.next, M.Authority, id, n2);
      var r := M.ParseRecords(b, q.next, M.Additional, id, n3);
      var two := if |q.entries| != n2 then q.entries else q.entries + r.entries;
      ConveysConcat(b, p.entries, two, from, p.next, |b|, items[..k], rest);
      assert p.entries + (q.entries + r.entries) == p.entries + q.entries + r.entries;
    }
  }

  lemma TwoHandedOver(b: seq<byte>, id: uint16, from: nat, items: seq<Item>, n2: nat, n3: nat)
    requires ChainAt(b, from, |b|, items) && |items| <= n2 + n3
    ensures var q := M.ParseRecords(b, from, M.Authority, id, n2);
      var r := M.ParseRecords(b, q.next, M.Additional, id, n3);
      Conveys(b, if |q.entries| != n2 then q.entries else q.entries + r.entries, from, |b|, items)
  {
    hide ChainAt, Conveys, M.ParseRecords;
    ChainHandedOver(b, from, items, M.Authority, id, n2);
    var k := Least(n2, |items|);
    var q, rest := M.ParseRecords(b, from, M.Authority, id, n2), items[k..];
    ConveyedLength(b, q.entries, from, q.next, items[..k]);
    if k < n2 {
      AllConveyed(b, q.entries, from, q.next, items, k);
    } else {
      ChainHandedOver(b, q.next, rest, M.Additional, id, n3);
      var r := M.ParseRecords(b, q.next, M.Additional, id, n3);
      AllConveyed(b, r.entries, q.next, r.next, rest, |rest|);
      assert items[..k] + rest == items;
      ConveysConcat(b, q.entries, r.entries, from, q.next, |b|, items[..k], rest);
    }
  }

  lemma ConveyedLength(b: seq<byte>, es: seq<M.Entry>, from: nat, to: nat, items: seq<Item>)
    requires Conveys(b, es, from, to, items)
    ensures |es| == |items|
  {
    hide ItemAt;
  }

  lemma AllConveyed(b: seq<byte>, es: seq<M.Entry>, from: nat, to: nat, items: seq<Item>, k: nat)
    requires k == |items| && Conveys(b, es, from, to, items[..k]) && ChainAt(b, to, |b|, items[k..])
    ensures Conveys(b, es, from, |b|, items)
  {
    hide ItemAt, EndOf;
    assert items[..k] == items;
  }

  /** THE ROUND TRIP OF A RESPONSE, exactly: any answer, any sections, any buffer contents, any receiver. The
      records are handed over one for one, without a gap, if and only if every name was whole when it was written
      and the receiver does not wait for another identifier. */
  lemma ResponseReadsBackIff(buf: seq<byte>, answer: Record, authority: seq<Record>, additional: seq<Record>,
                             rclass: uint16, ttl: uint32, received: seq<byte>, onlyId: int)
    requires |buf| <= REF_LIMIT && Answer(buf, answer, authority, additional, rclass, ttl).Some?
    requires Answer(buf, answer, authority, additional, rclass, ttl).value <= received
    ensures var b := Answer(buf, answer, authority, additional, rclass, ttl).value;
      var items := ResponseItems(answer, authority, additional, rclass, ttl);
      M.HEADER_SIZE <= |b| &&
      (Conveys(b, M.QueryRecv(received, |b|, onlyId), M.HEADER_SIZE, |b|, items) <==>
       ResponseWhole(buf, answer, authority, additional, rclass, ttl) && (onlyId <= 0 || items == []))
  {
    hide Answer, ChainAt, Conveys, M.Sections, M.QueryRecv, SectionItems, AnswerItems, RecordCount, GetU16BE,
      ResponseWhole;
    var b := Answer(buf, answer, authority, additional, rclass, ttl).value;
    var items := ResponseItems(answer, authority, additional, rclass, ttl);
    HeaderStands(buf, answer, authority, additional, rclass, ttl);
    var es := M.QueryRecv(received, |b|, onlyId);
    ResponseStandsIff(buf, answer, authority, additional, rclass, ttl);
    SameHeader(b, received);
    M.WithoutQuestions(received, |b|, onlyId);
    if Conveys(b, es, M.HEADER_SIZE, |b|, items) {
      ConveyedIsChain(b, es, M.HEADER_SIZE, |b|, items);
      ConveyedLength(b, es, M.HEADER_SIZE, |b|, items);
    }
    if ResponseWhole(buf, answer, authority, additional, rclass, ttl) {
      if onlyId <= 0 {
        CountsSuffice(b, answer, authority, additional, rclass, ttl);
        SectionsHandedOver(b, 0, M.HEADER_SIZE, items, 1, RecordCount(authority), RecordCount(additional));
      } else if items == [] {
        ChainNext(b, M.HEADER_SIZE, |b|, items);
        ConveysNone(b, |b|);
      }
    }
  }

  lemma CountsSuffice(b: seq<byte>, answer: Record, authority: seq<Record>, additional: seq<Record>, rclass: uint16,
                      ttl: uint32)
    requires M.HEADER_SIZE <= |b| < 0x1_0000
    requires ChainAt(b, M.HEADER_SIZE, |b|, ResponseItems(answer, authority, additional, rclass, ttl))
    ensures RecordCount(authority) == |SectionItems(authority, rclass, ttl)|
    ensures RecordCount(additional) == |SectionItems(additional, rclass, ttl)|
    ensures |AnswerItems(answer, rclass, ttl)| == if answer.data.Text? then 0 else 1
  {
    hide ChainAt, SectionItems, Update, RecordCount;
    ChainLength(b, M.HEADER_SIZE, |b|, ResponseItems(answer, authority, additional, rclass, ttl));
    CountFits(authority, rclass, ttl);
    CountFits(additional, rclass, ttl);
  }

  /** Every record announced is received if and only if the answer is not TXT: a TXT answer is announced by the
      header, but left for the end of a section that the answer does not have. */
  lemma AnnouncedAreReceivedIff(buf: seq<byte>, answer: Record, authority: seq<Record>, additional: seq<Record>,
                                rclass: uint16, ttl: uint32)
    requires |buf| <= REF_LIMIT && Answer(buf, answer, authority, additional, rclass, ttl).Some?
    requires ResponseWhole(buf, answer, authority, additional, rclass, ttl)
    ensures var b := Answer(buf, answer, authority, additional, rclass, ttl).value;
      M.HEADER_SIZE <= |b| &&
      var es := M.QueryRecv(b, |b|, 0);
      var announced := GetU16BE(b, 6) as int + GetU16BE(b, 8) + GetU16BE(b, 10);
      && |es| == announced - (if answer.data.Text? then 1 else 0)
      && (|es| == announced <==> !answer.data.Text?)
  {
    hide Answer, ChainAt, Conveys, M.QueryRecv, SectionItems, RecordCount, GetU16BE, ResponseWhole, Update;
    var b := Answer(buf, answer, authority, additional, rclass, ttl).value;
    var items := ResponseItems(answer, authority, additional, rclass, ttl);
    HeaderStands(buf, answer, authority, additional, rclass, ttl);
    ResponseStandsIff(buf, answer, authority, additional, rclass, ttl);
    CountsSuffice(b, answer, authority, additional, rclass, ttl);
    ResponseReadsBackIff(buf, answer, authority, additional, rclass, ttl, b, 0);
    ConveyedLength(b, M.QueryRecv(b, |b|, 0), M.HEADER_SIZE, |b|, items);
  }
}
