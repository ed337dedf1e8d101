/** One record in a message, plain or the coalesced TXT record of a section: what it looks like, and exactly when the
    answer builder, which fills in its length last, leaves it there. */
module DnsResponse {
  import opened Bytes
  import N = DnsNames
  import opened DnsCompression
  import R = DnsRoundTrip
  import opened DnsAnswers
  import M = DnsMessages

  type Label = N.Label

  datatype Pair = Pair(key: seq<byte>, value: seq<byte>)

  /** A record as it appears in the message: the TXT records of a section are one record there. */
  datatype ItemData = One(d: RData) | Texts(pairs: seq<Pair>)

  datatype Item = Item(name: Name, data: ItemData, rclass: uint16, ttl: uint32)

  function ItemType(i: Item): uint16 {
    match i.data case One(d) => TypeOf(d) case Texts(_) => M.TYPE_TXT
  }

  function PairsBytes(ps: seq<Pair>): seq<byte> {
    if ps == [] then [] else TextBytes(ps[0].key, ps[0].value) + PairsBytes(ps[1..])
  }

  ghost predicate DataAt(b: seq<byte>, from: nat, to: nat, data: ItemData) {
    from <= to <= |b| &&
    match data
    case One(Ptr(target)) => to - from >= 2 && N.Name(b, from) == Some(LabelsOf(target))
    case One(Srv(priority, weight, port, host)) =>
      to - from >= 8 && b[from..from + 6] == U16BE(priority) + U16BE(weight) + U16BE(port)
      && N.Name(b, from + 6) == Some(LabelsOf(host))
    case One(A(addr)) => b[from..to] == addr
    case One(Aaaa(addr)) => b[from..to] == addr
    case One(Text(_, _)) => false
    case One(Other(_)) => from == to
    case Texts(ps) => b[from..to] == PairsBytes(ps)
  }

  ghost predicate ItemAt(b: seq<byte>, from: nat, to: nat, item: Item) {
    N.Name(b, from) == Some(LabelsOf(item.name)) && N.Skip(b, from).Some? &&
    var s := N.Skip(b, from).value;
    var d := s + M.FIXED_SIZE;
    d <= to <= |b| && to - d < 0x1_0000
    && b[s..d] == FixedPart(ItemType(item), item.rclass, item.ttl, to - d)
    && DataAt(b, d, to, item.data)
  }

  /** Where the record at from ends, by its own length field. */
  function EndOf(b: seq<byte>, from: nat): nat {
    match N.Skip(b, from)
    case None => from
    case Some(s) => if s + M.FIXED_SIZE <= |b| then s + M.FIXED_SIZE + GetU16BE(b, s + 8) else from
  }

  lemma FixedFields(b: seq<byte>, s: nat, rtype: uint16, rclass: uint16, ttl: uint32, length: uint16)
    requires s + M.FIXED_SIZE <= |b| && b[s..s + M.FIXED_SIZE] == FixedPart(rtype, rclass, ttl, length)
    ensures GetU16BE(b, s) == rtype && GetU16BE(b, s + 2) == rclass
         && GetU32BE(b, s + 4) == ttl && GetU16BE(b, s + 8) == length
  {
    var f := b[s..s + M.FIXED_SIZE];
    var c, t, l := U16BE(rclass), U32BE(ttl), U16BE(length);
    assert f == U16BE(rtype) + c + t + l;
    assert f[2] == c[0] && f[3] == c[1] && f[4] == t[0] && f[5] == t[1] && f[6] == t[2] && f[7] == t[3];
    assert b[s..s + 2] == f[0..2] == U16BE(rtype);
    assert b[s + 2..s + 4] == f[2..4] == c;
    assert b[s + 4..s + 8] == f[4..8] == t;
    assert b[s + 8..s + 10] == f[8..10] == l;
    ReadU16BE(b, s, rtype);
    ReadU16BE(b, s + 2, rclass);
    ReadU32BE(b, s + 4, ttl);
    ReadU16BE(b, s + 8, length);
  }

  // ---------- what a record's names need ----------

  /** Every ending of the name is a name of the family. */
  ghost predicate EndingsIn(name: Name, family: iset<seq<Label>>) {
    forall j | 0 <= j < |LabelsOf(name)| :: LabelsOf(name)[j..] in family
  }

  ghost predicate DataIn(d: RData, family: iset<seq<Label>>) {
    (d.Ptr? ==> EndingsIn(d.target, family)) && (d.Srv? ==> EndingsIn(d.host, family))
  }

  function SixOf(priority: uint16, weight: uint16, port: uint16): (six: seq<byte>)
    ensures |six| == 6
  {
    U16BE(priority) + U16BE(weight) + U16BE(port)
  }

  function FixedOf(r: Record, length: uint16): (b: seq<byte>)
    ensures |b| == M.FIXED_SIZE
  {
    FixedPart(TypeOf(r.data), r.rclass, r.ttl, length)
  }

  /** A name in the data must be whole; the receiver wants it longer than the root name, too. */
  ghost predicate DataWhole(x: Writer, d: RData)
    requires PutData(x, d).Done?
  {
    match d
    case Ptr(target) => LabelsOf(target) != [] && R.Whole(x, LabelsOf(target))
    case Srv(p, q, port, host) => LabelsOf(host) != [] && R.Whole(PutBytes(x, SixOf(p, q, port)), LabelsOf(host))
    case _ => true
  }

  ghost predicate RecordWhole(w: Writer, r: Record)
    requires !r.data.Text? && PutRecord(w, r).Done?
  {
    R.Whole(w, LabelsOf(r.name)) && DataWhole(PutHeader(w, r).w, r.data)
  }

  // ---------- writing one record ----------

  lemma NameTakesTwo(w: Writer, labels: seq<Label>)
    requires PutLabels(w, labels).Done?
    ensures labels == [] ==> PutLabels(w, labels).w.pos == w.pos + 1
    ensures labels != [] && R.AllSpellable(labels) ==> PutLabels(w, labels).w.pos >= w.pos + 2
  {
    if labels != [] {
      var l, rest := labels[0], labels[1..];
      assert [l] + rest == labels;
      PutStep(w, l, rest);
    }
  }

  lemma NoOwnEntries(x: Writer, o: nat, family: iset<seq<Label>>, b: seq<byte>)
    requires R.Writing(x, o, x.pos, [], family) && o <= |b| && b[..o] == x.Out()[..o]
    ensures R.RingFinished(x.ring, b, family)
  {
    hide R.Finished;
    if x.ring.Some? {
      forall k | 0 <= k < x.ring.value.count ensures R.Finished(b, x.ring.value.offsets[k], family) {
        assert R.Entry(x, o, x.pos, [], family, x.ring.value.offsets[k]);
        R.FinishedStable(x.Out()[..o], b, x.ring.value.offsets[k], family);
      }
    }
  }

  /** Fixed fields in front of the name: the next name may still only refer to names before o. */
  lemma WritingMore(x: Writer, o: nat, data: seq<byte>, family: iset<seq<Label>>)
    requires R.Writing(x, o, x.pos, [], family) && x.pos + |data| <= |x.buf|
    ensures R.Writing(PutBytes(x, data), o, x.pos + |data|, [], family)
  {
    hide R.Finished;
    var y := PutBytes(x, data);
    assert y.Out()[..o] == x.Out()[..o];
    if x.ring.Some? {
      forall k | 0 <= k < x.ring.value.count ensures R.Entry(y, o, y.pos, [], family, y.ring.value.offsets[k]) {
        assert R.Entry(x, o, x.pos, [], family, x.ring.value.offsets[k]);
      }
    }
  }

  lemma CarriesBehind(b: seq<byte>, a: seq<byte>, o: nat, base: nat, next: nat)
    requires R.Carries(b, a, o, base) && base <= next <= |a|
    ensures R.Carries(b, a, o, next)
  {
    assert a[next..] == a[base..][next - base..];
    assert b[next..|a|] == b[base..|a|][next - base..];
  }

  /** A name behind fields that may be filled in later. */
  lemma NameBehind(x: Writer, o: nat, name: Name, family: iset<seq<Label>>, b: seq<byte>)
    requires R.Writing(x, o, x.pos, [], family) && PutLabels(x, LabelsOf(name)).Done? && EndingsIn(name, family)
    requires R.Carries(b, PutLabels(x, LabelsOf(name)).w.Out(), o, x.pos)
    ensures var y := PutLabels(x, LabelsOf(name)).w;
      && (N.Name(b, x.pos) == Some(LabelsOf(name)) <==> R.Whole(x, LabelsOf(name)))
      && (R.Whole(x, LabelsOf(name)) ==> R.RingFinished(y.ring, b, family))
      && (R.Whole(x, LabelsOf(name)) && LabelsOf(name) != [] ==> y.pos >= x.pos + 2)
      && (LabelsOf(name) == [] ==> y.pos == x.pos + 1)
  {
    hide LabelsOf, PutLabels, R.Writing, R.Carries, R.HitsWhole, R.RingFinished, N.Name;
    R.NameReadsBackIff(x, o, family, LabelsOf(name), b);
    NameTakesTwo(x, LabelsOf(name));
  }

  /** The data of a record stands in the message, and the table stays good, exactly if its name is whole. */
  lemma DataReadsIff(x: Writer, o: nat, d: RData, family: iset<seq<Label>>, b: seq<byte>)
    requires R.Writing(x, o, x.pos, [], family) && !d.Text? && PutData(x, d).Done? && DataIn(d, family)
    requires R.Carries(b, PutData(x, d).w.Out(), o, x.pos)
    ensures DataAt(b, x.pos, PutData(x, d).w.pos, One(d)) <==> DataWhole(x, d)
    ensures DataWhole(x, d) ==> R.RingFinished(PutData(x, d).w.ring, b, family)
  {
    hide LabelsOf, PutLabels, R.Writing, R.Carries, R.Whole, R.RingFinished, N.Name, EndingsIn;
    var a := PutData(x, d).w.Out();
    R.CarriedBytes(b, a, o, x.pos);
    match d
    case Ptr(target) => NameBehind(x, o, target, family, b);
    case Srv(p, q, port, host) =>
      var six := SixOf(p, q, port);
      WritingMore(x, o, six, family);
      CarriesBehind(b, a, o, x.pos, x.pos + 6);
      var y := PutBytes(x, six);
      NameBehind(y, o, host, family, b);
      assert b[x.pos..x.pos + 6] == a[x.pos..x.pos + 6] == y.Out()[x.pos..] == six;
    case A(addr) => PlainData(x, o, addr, family, b);
    case Aaaa(addr) => PlainData(x, o, addr, family, b);
    case Other(_) => PlainData(x, o, [], family, b);
  }

  lemma PlainData(x: Writer, o: nat, data: seq<byte>, family: iset<seq<Label>>, b: seq<byte>)
    requires R.Writing(x, o, x.pos, [], family) && x.pos + |data| <= |x.buf|
    requires R.Carries(b, PutBytes(x, data).Out(), o, x.pos) || (data == [] && R.Carries(b, x.Out(), o, x.pos))
    ensures x.pos + |data| <= |b| && b[x.pos..x.pos + |data|] == data && R.RingFinished(x.ring, b, family)
  {
    hide R.Writing, R.RingFinished;
    var a := PutBytes(x, data).Out();
    assert a == x.Out() + data;
    R.CarriedBytes(b, a, o, x.pos);
    assert a[..o] == x.Out()[..o] by { R.WritingBase(x, o, x.pos, [], family); }
    NoOwnEntries(x, o, family, b);
    assert a[x.pos..x.pos + |data|] == data;
  }

  /** The length filled in last: everything else stays, and the fixed part is as if the length had been known. */
  lemma PatchCarries(n: Writer, r: Record, y: Writer, length: uint16, b: seq<byte>)
    requires n.pos + M.FIXED_SIZE <= |n.buf| && |y.buf| == |n.buf| && PutBytes(n, FixedOf(r, 0)).Out() <= y.Out()
    requires Patch(y, n.pos + 8, length).Out() <= b
    ensures R.Carries(b, y.Out(), n.pos, n.pos + M.FIXED_SIZE) && n.Out() <= b
    ensures b[n.pos..n.pos + M.FIXED_SIZE] == FixedOf(r, length)
  {
    var o, s := n.pos, n.pos + M.FIXED_SIZE;
    var a, c := y.Out(), Patch(y, o + 8, length).Out();
    var first := U16BE(TypeOf(r.data)) + U16BE(r.rclass) + U32BE(r.ttl);
    assert FixedOf(r, 0) == first + U16BE(0) && FixedOf(r, length) == first + U16BE(length);
    assert a[..s] == n.Out() + (first + U16BE(0));
    assert c == a[..o + 8] + U16BE(length) + a[s..];
    assert a[..o + 8] == a[..s][..o + 8] == n.Out() + first;
    assert c == n.Out() + first + U16BE(length) + a[s..];
    assert c[..o] == n.Out() && c[o..s] == first + U16BE(length) && c[s..] == a[s..];
    assert b[o..s] == c[o..s] && b[..o] == c[..o] && b[s..|a|] == c[s..];
    assert a[..o] == a[..s][..o];
  }

  lemma RecordStep(w: Writer, r: Record)
    requires !r.data.Text? && PutRecord(w, r).Done?
    ensures PutLabels(w, LabelsOf(r.name)).Done?
    ensures var n := PutLabels(w, LabelsOf(r.name)).w;
      n.pos + M.FIXED_SIZE <= |n.buf| && |n.buf| == |w.buf| &&
      var x := PutBytes(n, FixedOf(r, 0));
      PutHeader(w, r) == Done(x) && PutData(x, r.data).Done? &&
      var y := PutData(x, r.data).w;
      |y.buf| == |w.buf| && x.pos <= y.pos && PutRecord(w, r).w == Patch(y, n.pos + 8, (y.pos - x.pos) % 0x1_0000)
  {
    hide PutLabels, PutData, FixedPart;
  }

  lemma DataGrows(x: Writer, d: RData)
    requires PutData(x, d).Done?
    ensures x.Out() <= PutData(x, d).w.Out()
  {
    hide PutLabels;
  }

  function ItemOf(r: Record): Item { Item(r.name, One(r.data), r.rclass, r.ttl) }

  ghost predicate RecordIn(r: Record, family: iset<seq<Label>>) {
    EndingsIn(r.name, family) && DataIn(r.data, family)
  }

  lemma NotThisItem(b: seq<byte>, from: nat, to: nat, item: Item)
    requires N.Name(b, from) != Some(LabelsOf(item.name))
    ensures !ItemAt(b, from, to, item)
  {
    hide N.Name, LabelsOf;
  }

  /** With its name and its fixed part in place, a record stands there exactly if its data does. */
  lemma ItemIfData(b: seq<byte>, from: nat, s: nat, length: uint16, r: Record, item: Item)
    requires N.Name(b, from) == Some(LabelsOf(r.name)) && N.Skip(b, from) == Some(s)
    requires s + M.FIXED_SIZE + length <= |b| && b[s..s + M.FIXED_SIZE] == FixedOf(r, length)
    requires item.name == r.name && ItemType(item) == TypeOf(r.data) && item.rclass == r.rclass && item.ttl == r.ttl
    ensures var d := s + M.FIXED_SIZE;
      && (ItemAt(b, from, d + length, item) <==> DataAt(b, d, d + length, item.data))
      && EndOf(b, from) == d + length
  {
    hide N.Name, N.Skip, LabelsOf, DataAt, FixedPart;
    FixedFields(b, s, TypeOf(r.data), r.rclass, r.ttl, length);
  }

  /** A name, the fixed part with length zero, data up to y, and then the length: what is left of a record to ask. */
  lemma FilledIn(w: Writer, r: Record, y: Writer, item: Item, family: iset<seq<Label>>, b: seq<byte>)
    requires R.Good(w, family) && EndingsIn(r.name, family) && PutLabels(w, LabelsOf(r.name)).Done?
    requires var n := PutLabels(w, LabelsOf(r.name)).w;
      n.pos + M.FIXED_SIZE <= |n.buf| && |y.buf| == |n.buf| && PutBytes(n, FixedOf(r, 0)).Out() <= y.Out() &&
      Patch(y, n.pos + 8, (y.pos - n.pos - M.FIXED_SIZE) % 0x1_0000).Out() <= b
    requires item.name == r.name && ItemType(item) == TypeOf(r.data) && item.rclass == r.rclass && item.ttl == r.ttl
    ensures N.Name(b, w.pos) == Some(LabelsOf(r.name)) <==> R.Whole(w, LabelsOf(r.name))
    ensures !R.Whole(w, LabelsOf(r.name)) ==> !ItemAt(b, w.pos, y.pos, item)
    ensures R.Whole(w, LabelsOf(r.name)) ==>
      var n := PutLabels(w, LabelsOf(r.name)).w;
      var x := PutBytes(n, FixedOf(r, 0));
      && R.Writing(x, n.pos, x.pos, [], family) && R.Carries(b, y.Out(), n.pos, x.pos)
      && EndOf(b, w.pos) == y.pos && (ItemAt(b, w.pos, y.pos, item) <==> DataAt(b, x.pos, y.pos, item.data))
  {
    hide LabelsOf, PutLabels, R.Good, R.Whole, R.Writing, R.Carries, N.Name, N.Skip, FixedOf, DataAt, EndingsIn, EndOf,
      ItemAt, Patch;
    var n := PutLabels(w, LabelsOf(r.name)).w;
    var length := y.pos - n.pos - M.FIXED_SIZE;
    GoodRoom(w, family);
    PatchCarries(n, r, y, length, b);
    OwnName(w, r.name, family, b);
    if R.Whole(w, LabelsOf(r.name)) {
      R.StartsWriting(n, FixedOf(r, 0), family);
      CarriedIsLong(b, y.Out(), n.pos, n.pos + M.FIXED_SIZE);
      ItemIfData(b, w.pos, n.pos, length, r, item);
    } else {
      NotThisItem(b, w.pos, y.pos, item);
    }
  }

  lemma CarriedIsLong(b: seq<byte>, a: seq<byte>, o: nat, base: nat)
    requires R.Carries(b, a, o, base)
    ensures |a| <= |b|
  {
  }

  /** ONE RECORD, exactly: what the builder leaves, its length filled in last, stands in any message that goes on from
      it as that record if and only if its names are whole; then the table stays good. If only its own name is whole,
      the record still ends where its writing ended. */
  lemma RecordReadsIff(w: Writer, r: Record, family: iset<seq<Label>>, b: seq<byte>)
    requires R.Good(w, family) && !r.data.Text? && PutRecord(w, r).Done? && RecordIn(r, family)
    requires PutRecord(w, r).w.Out() <= b
    ensures var w' := PutRecord(w, r).w;
      && (ItemAt(b, w.pos, w'.pos, ItemOf(r)) <==> RecordWhole(w, r))
      && (N.Name(b, w.pos) == Some(LabelsOf(r.name)) <==> R.Whole(w, LabelsOf(r.name)))
      && (R.Whole(w, LabelsOf(r.name)) ==> EndOf(b, w.pos) == w'.pos)
      && (RecordWhole(w, r) ==> R.RingFinished(w'.ring, b, family))
  {
    hide LabelsOf, PutLabels, PutData, R.Good, R.Whole, R.Writing, R.Carries, R.RingFinished, N.Name, PutRecord,
      PutHeader, FixedOf, DataAt, DataWhole, EndingsIn, DataIn, EndOf, ItemAt;
    RecordStep(w, r);
    var n := PutLabels(w, LabelsOf(r.name)).w;
    var x := PutBytes(n, FixedOf(r, 0));
    DataGrows(x, r.data);
    FilledIn(w, r, PutData(x, r.data).w, ItemOf(r), family, b);
    if R.Whole(w, LabelsOf(r.name)) { DataReadsIff(x, n.pos, r.data, family, b); }
  }

  lemma GoodRoom(w: Writer, family: iset<seq<Label>>)
    requires R.Good(w, family)
    ensures |w.buf| <= REF_LIMIT
  {
  }

  lemma OwnName(w: Writer, name: Name, family: iset<seq<Label>>, b: seq<byte>)
    requires R.Good(w, family) && PutLabels(w, LabelsOf(name)).Done? && EndingsIn(name, family)
    requires PutLabels(w, LabelsOf(name)).w.Out() <= b
    ensures N.Name(b, w.pos) == Some(LabelsOf(name)) <==> R.Whole(w, LabelsOf(name))
    ensures R.Whole(w, LabelsOf(name)) ==>
              N.Skip(b, w.pos) == Some(PutLabels(w, LabelsOf(name)).w.pos) && R.Good(PutLabels(w, LabelsOf(name)).w, family)
  {
    hide LabelsOf, PutLabels, R.Good, R.Whole, N.Name, N.Skip;
    R.NextNameReadsBackIff(w, family, LabelsOf(name), b);
  }

  // ---------- writing the coalesced TXT record ----------

  function PairsOf(rs: seq<Record>): seq<Pair> {
    if rs == [] then []
    else (if rs[0].data.Text? then [Pair(rs[0].data.key, rs[0].data.value)] else []) + PairsOf(rs[1..])
  }

  /** The TXT record that gives the coalesced one its name, class and time to live. */
  function FirstText(rs: seq<Record>): (r: Record)
    requires HasText(rs)
    ensures r in rs && r.data.Text?
  {
    if rs[0].data.Text? then rs[0] else FirstText(rs[1..])
  }

  lemma PutTwice(w: Writer, x: seq<byte>, y: seq<byte>)
    requires w.pos + |x| + |y| <= |w.buf|
    ensures PutBytes(PutBytes(w, x), y) == PutBytes(w, x + y)
  {
    var a, b := PutBytes(PutBytes(w, x), y).buf, PutBytes(w, x + y).buf;
    var o := w.pos + |x|;
    assert PutBytes(w, x).buf[..o] == w.buf[..w.pos] + x;
    assert PutBytes(w, x).buf[o + |y|..] == w.buf[o + |y|..];
    assert a == w.buf[..w.pos] + x + y + w.buf[o + |y|..];
  }

  lemma TextsStep(w: Writer, rs: seq<Record>, data: Option<nat>, rclass: uint16, ttl: uint32)
    requires rs != [] && rs[0].data.Text? && (data.Some? ==> M.FIXED_SIZE <= data.value <= w.pos)
    requires PutTexts(w, rs, data, rclass, ttl).TxtDone?
    ensures data.None? ==> PutHeader(w, Update(rs[0], rclass, ttl)).Done?
    ensures var start := if data.Some? then w else PutHeader(w, Update(rs[0], rclass, ttl)).w;
      var t := TextBytes(rs[0].data.key, rs[0].data.value);
      start.pos + |t| <= |start.buf| && |start.buf| == |w.buf| && M.FIXED_SIZE <= start.pos &&
      PutTexts(w, rs, data, rclass, ttl) ==
        PutTexts(PutBytes(start, t), rs[1..], Some(if data.Some? then data.value else start.pos), rclass, ttl)
  {
  }

  lemma {:induction false} TextsAppend(w: Writer, rs: seq<Record>, from: nat, rclass: uint16, ttl: uint32)
    requires M.FIXED_SIZE <= from <= w.pos && PutTexts(w, rs, Some(from), rclass, ttl).TxtDone?
    ensures var p := PairsBytes(PairsOf(rs));
      w.pos + |p| <= |w.buf| && PutTexts(w, rs, Some(from), rclass, ttl) == TxtDone(PutBytes(w, p), Some(from))
    decreases |rs|
  {
    hide PutHeader, Update, TextBytes, PutBytes;
    if rs == [] {
      NothingPut(w);
    } else if rs[0].data.Text? {
      TextsStep(w, rs, Some(from), rclass, ttl);
      var t := TextBytes(rs[0].data.key, rs[0].data.value);
      TextsAppend(PutBytes(w, t), rs[1..], from, rclass, ttl);
      var rest := PairsOf(rs[1..]);
      assert PairsOf(rs)[1..] == rest;
      PutTwice(w, t, PairsBytes(rest));
    } else {
      assert PairsOf(rs) == PairsOf(rs[1..]);
      TextsAppend(w, rs[1..], from, rclass, ttl);
    }
  }

  lemma NothingPut(w: Writer)
    ensures PutBytes(w, []) == w
  {
  }

  lemma {:induction false} TextsStart(w: Writer, rs: seq<Record>, rclass: uint16, ttl: uint32)
    requires PutTexts(w, rs, None, rclass, ttl).TxtDone?
    ensures !HasText(rs) ==> PutTexts(w, rs, None, rclass, ttl) == TxtDone(w, None)
    ensures HasText(rs) ==>
      PutHeader(w, Update(FirstText(rs), rclass, ttl)).Done? &&
      var x := PutHeader(w, Update(FirstText(rs), rclass, ttl)).w;
      var p := PairsBytes(PairsOf(rs));
      x.pos + |p| <= |x.buf| && PutTexts(w, rs, None, rclass, ttl) == TxtDone(PutBytes(x, p), Some(x.pos))
    decreases |rs|
  {
    hide PutHeader, Update, TextBytes, PutBytes;
    if rs != [] {
      if rs[0].data.Text? {
        TextsStep(w, rs, None, rclass, ttl);
        var x := PutHeader(w, Update(rs[0], rclass, ttl)).w;
        var t := TextBytes(rs[0].data.key, rs[0].data.value);
        TextsAppend(PutBytes(x, t), rs[1..], x.pos, rclass, ttl);
        var rest := PairsOf(rs[1..]);
        assert PairsOf(rs)[1..] == rest;
        PutTwice(x, t, PairsBytes(rest));
      } else {
        assert PairsOf(rs) == PairsOf(rs[1..]);
        assert HasText(rs) ==> HasText(rs[1..]) by {
          if HasText(rs) { var i :| 0 <= i < |rs| && rs[i].data.Text?; assert rs[1..][i - 1].data.Text?; }
        }
        assert HasText(rs[1..]) ==> HasText(rs) by {
          if HasText(rs[1..]) { var i :| 0 <= i < |rs[1..]| && rs[1..][i].data.Text?; assert rs[i + 1].data.Text?; }
        }
        TextsStart(w, rs[1..], rclass, ttl);
      }
    }
  }

  function TxtItem(rs: seq<Record>, rclass: uint16, ttl: uint32): Item
    requires HasText(rs)
  {
    var r := Update(FirstText(rs), rclass, ttl);
    Item(r.name, Texts(PairsOf(rs)), r.rclass, r.ttl)
  }

  lemma TxtStep(w: Writer, rs: seq<Record>, rclass: uint16, ttl: uint32)
    requires HasText(rs) && PutTxtRecord(w, rs, rclass, ttl).Done?
    ensures var r := Update(FirstText(rs), rclass, ttl);
      PutLabels(w, LabelsOf(r.name)).Done? &&
      var n := PutLabels(w, LabelsOf(r.name)).w;
      n.pos + M.FIXED_SIZE <= |n.buf| && |n.buf| == |w.buf| &&
      var x := PutBytes(n, FixedOf(r, 0));
      var p := PairsBytes(PairsOf(rs));
      x.pos + |p| <= |x.buf| && PutTxtRecord(w, rs, rclass, ttl).w == Patch(PutBytes(x, p), n.pos + 8, |p| % 0x1_0000)
  {
    hide PutLabels, FixedPart, PutTexts, HasText;
    TextsStart(w, rs, rclass, ttl);
  }

  /** THE TXT RECORD OF A SECTION, exactly: all its strings stand in the message as one record if and only if the name
      of the first is whole. */
  lemma TxtReadsIff(w: Writer, rs: seq<Record>, rclass: uint16, ttl: uint32, family: iset<seq<Label>>, b: seq<byte>)
    requires R.Good(w, family) && HasText(rs) && PutTxtRecord(w, rs, rclass, ttl).Done?
    requires EndingsIn(FirstText(rs).name, family) && PutTxtRecord(w, rs, rclass, ttl).w.Out() <= b
    ensures var w' := PutTxtRecord(w, rs, rclass, ttl).w;
      var labels := LabelsOf(FirstText(rs).name);
      PutLabels(w, labels).Done?
      && (ItemAt(b, w.pos, w'.pos, TxtItem(rs, rclass, ttl)) <==> R.Whole(w, labels))
      && (N.Name(b, w.pos) == Some(labels) <==> R.Whole(w, labels))
      && (R.Whole(w, labels) ==> EndOf(b, w.pos) == w'.pos && R.RingFinished(w'.ring, b, family))
  {
    hide LabelsOf, PutLabels, R.Good, R.Whole, R.Writing, R.Carries, R.RingFinished, N.Name, PutTxtRecord, FixedOf,
      HasText, PairsBytes, PairsOf, EndingsIn, EndOf, ItemAt, FirstText;
    TxtStep(w, rs, rclass, ttl);
    var r := Update(FirstText(rs), rclass, ttl);
    var n := PutLabels(w, LabelsOf(r.name)).w;
    var x := PutBytes(n, FixedOf(r, 0));
    var p := PairsBytes(PairsOf(rs));
    FilledIn(w, r, PutBytes(x, p), TxtItem(rs, rclass, ttl), family, b);
    if R.Whole(w, LabelsOf(r.name)) { PlainData(x, n.pos, p, family, b); }
  }
}
