/** Messages that repeat their questions, as the replies to a query from an ephemeral port do: the questions are passed
    over and every record behind them is handed over. */
module DnsQuestions {
  import opened Bytes
  import N = DnsNames
  import opened DnsResponse
  import opened DnsMessageWriting
  import opened DnsConversation
  import M = DnsMessages

  /** From one offset to another: so many readable names, each with the two bytes of a type and of a class behind it. */
  ghost predicate QuestionsAt(b: seq<byte>, from: nat, n: nat, to: nat)
    decreases n
  {
    if n == 0 then from == to
    else N.Name(b, from).Some? && N.Skip(b, from).Some?
         && N.Skip(b, from).value + 4 <= |b| && QuestionsAt(b, N.Skip(b, from).value + 4, n - 1, to)
  }

  lemma {:induction false} QuestionsAreSkipped(b: seq<byte>, from: nat, n: nat, to: nat)
    requires QuestionsAt(b, from, n, to) && from <= |b|
    ensures M.SkipQuestions(b, from, n) == Some(to) && to <= |b|
    decreases n
  {
    hide N.Name, N.Skip, M.SkipQuestions;
    M.QuestionStep(b, from, n);
    if n > 0 { QuestionsAreSkipped(b, N.Skip(b, from).value + 4, n - 1, to); }
  }

  lemma {:induction false} EntriesAreTagged(b: seq<byte>, offset: nat, section: M.Section, id: uint16, n: nat)
    ensures forall e <- M.ParseRecords(b, offset, section, id, n).entries :: e.section == section && e.queryId == id
    decreases n
  {
    hide M.ParseRecords, M.SkipOrStay;
    if n == 0 {
      M.ParseEnd(b, offset, section, id);
    } else {
      M.ParseStep(b, offset, section, id, n);
      if M.SkipOrStay(b, offset) + M.FIXED_SIZE <= |b| {
        var e := M.EntryAt(b, offset, section, id);
        EntriesAreTagged(b, e.offset + e.length, section, id, n - 1);
      }
    }
  }

  lemma SectionsAreTagged(b: seq<byte>, offset: nat, id: uint16, n1: nat, n2: nat, n3: nat)
    ensures forall e <- M.Sections(b, offset, id, n1, n2, n3) :: e.queryId == id
  {
    hide M.ParseRecords, M.Sections;
    M.SectionsStep(b, offset, id, n1, n2, n3);
    var p := M.ParseRecords(b, offset, M.Answer, id, n1);
    var q := M.ParseRecords(b, p.next, M.Authority, id, n2);
    EntriesAreTagged(b, offset, M.Answer, id, n1);
    EntriesAreTagged(b, p.next, M.Authority, id, n2);
    EntriesAreTagged(b, q.next, M.Additional, id, n3);
  }

  /** What the receiver of any message gets: nothing if it waits for another identifier, otherwise the sections
      behind the questions. */
  lemma BehindQuestions(b: seq<byte>, received: seq<byte>, onlyId: int, q: nat)
    requires M.HEADER_SIZE <= |b| && b <= received && QuestionsAt(b, M.HEADER_SIZE, GetU16BE(b, 4), q)
    ensures M.QueryRecv(received, |b|, onlyId) ==
      if onlyId > 0 && onlyId != GetU16BE(b, 0) then []
      else M.Sections(b, q, GetU16BE(b, 0), GetU16BE(b, 6), GetU16BE(b, 8), GetU16BE(b, 10))
  {
    hide M.SectionsUntil, GetU16BE, QuestionsAt;
    SameHeader(b, received);
    QuestionsAreSkipped(b, M.HEADER_SIZE, GetU16BE(b, 4), q);
  }

  /** ANY MESSAGE, QUESTIONS AND ALL: behind any number of questions every record announced is handed over, in order and
      without a gap, under the message's identifier, unless the receiver waits for another one. */
  lemma RecordsBehindQuestionsAreReceived(b: seq<byte>, received: seq<byte>, onlyId: int, q: nat, items: seq<Item>)
    requires M.HEADER_SIZE <= |b| && b <= received && QuestionsAt(b, M.HEADER_SIZE, GetU16BE(b, 4), q)
    requires ChainAt(b, q, |b|, items) && |items| <= GetU16BE(b, 6) as int + GetU16BE(b, 8) + GetU16BE(b, 10)
    ensures var es := M.QueryRecv(received, |b|, onlyId);
      if onlyId > 0 && onlyId != GetU16BE(b, 0) then es == []
      else Conveys(b, es, q, |b|, items) && forall e <- es :: e.queryId == GetU16BE(b, 0)
  {
    hide M.QueryRecv, M.Sections, GetU16BE, QuestionsAt, ChainAt, Conveys;
    BehindQuestions(b, received, onlyId, q);
    var n1, n2, n3 := GetU16BE(b, 6), GetU16BE(b, 8), GetU16BE(b, 10);
    SectionsHandedOver(b, GetU16BE(b, 0), q, items, n1, n2, n3);
    SectionsAreTagged(b, q, GetU16BE(b, 0), n1, n2, n3);
  }

  /** With exact counts they are handed over section by section, and mean what was meant exactly when their TXT strings
      are proper. */
  lemma SectionsBehindQuestionsAreUnderstood(b: seq<byte>, received: seq<byte>, onlyId: int, q: nat, p1: nat, p2: nat,
                                             x: seq<Item>, y: seq<Item>, z: seq<Item>, capacity: nat, strings: nat)
    requires M.HEADER_SIZE <= |b| && b <= received && QuestionsAt(b, M.HEADER_SIZE, GetU16BE(b, 4), q)
    requires ChainAt(b, q, p1, x) && ChainAt(b, p1, p2, y) && ChainAt(b, p2, |b|, z)
    requires GetU16BE(b, 6) == |x| && GetU16BE(b, 8) == |y| && GetU16BE(b, 10) == |z|
    requires onlyId <= 0 || onlyId == GetU16BE(b, 0)
    ensures var es := M.QueryRecv(received, |b|, onlyId);
      && |es| == |x| + |y| + |z| && Tiles(es, q, |b|)
      && (SeenAs(b, es[..|x|], M.Answer, x, capacity, strings) <==> AllProper(x, strings))
      && (SeenAs(b, es[|x|..|x| + |y|], M.Authority, y, capacity, strings) <==> AllProper(y, strings))
      && (SeenAs(b, es[|x| + |y|..], M.Additional, z, capacity, strings) <==> AllProper(z, strings))
  {
    hide M.QueryRecv, M.Sections, GetU16BE, QuestionsAt, ChainAt, Tiles, SeenAs, AllProper;
    BehindQuestions(b, received, onlyId, q);
    SectionsParsed(b, GetU16BE(b, 0), q, p1, p2, |b|, x, y, z, capacity, strings);
  }

  // ---------- a callback that stops ----------

  /** How many entries were announced for a section. */
  function Announced(section: M.Section, n1: nat, n2: nat, n3: nat): nat {
    match section case Answer => n1 case Authority => n2 case Additional => n3
  }

  function CountOf(es: seq<M.Entry>, section: M.Section): nat {
    if es == [] then 0 else (if es[0].section == section then 1 else 0) + CountOf(es[1..], section)
  }

  lemma {:induction false} CountOfConcat(x: seq<M.Entry>, y: seq<M.Entry>, section: M.Section)
    ensures CountOf(x + y, section) == CountOf(x, section) + CountOf(y, section)
    decreases |x|
  {
    if x == [] {
      assert x + y == y;
    } else {
      assert (x + y)[1..] == x[1..] + y;
      CountOfConcat(x[1..], y, section);
    }
  }

  lemma {:induction false} CountOfSame(es: seq<M.Entry>, own: M.Section, section: M.Section)
    requires forall e <- es :: e.section == own
    ensures CountOf(es, section) == if section == own then |es| else 0
    decreases |es|
  {
    if es != [] {
      assert es[0] in es;
      CountOfSame(es[1..], own, section);
    }
  }

  lemma UntilIsTagged(b: seq<byte>, offset: nat, section: M.Section, id: uint16, n: nat, stop: M.Entry -> bool)
    ensures var seen := M.ParseUntil(b, offset, section, id, n, stop).entries;
      && (forall e <- seen :: e.section == section) && |seen| <= n
      && forall i | 0 <= i < |seen| - 1 :: !stop(seen[i])
  {
    hide M.ParseUntil, M.ParseRecords, M.Ordered;
    M.StoppedIsPrefix(b, offset, section, id, n, stop);
    EntriesAreTagged(b, offset, section, id, n);
    M.RecordsInOrder(b, offset, section, id, n);
    var seen := M.ParseUntil(b, offset, section, id, n, stop).entries;
    var all := M.ParseRecords(b, offset, section, id, n).entries;
    forall e | e in seen ensures e.section == section {
      var i :| 0 <= i < |seen| && seen[i] == e;
      assert all[i] == e;
    }
  }

  /** The entry at which the callback stops is the last one, unless it is the last announced of its section: then
      the next section is still read. */
  lemma StopEndsTheMessage(b: seq<byte>, offset: nat, id: uint16, n1: nat, n2: nat, n3: nat,
                           stop: M.Entry -> bool, i: nat)
    requires var es := M.SectionsUntil(b, offset, id, n1, n2, n3, stop);
      i < |es| - 1 && stop(es[i])
    ensures var es := M.SectionsUntil(b, offset, id, n1, n2, n3, stop);
      CountOf(es[..i + 1], es[i].section) == Announced(es[i].section, n1, n2, n3)
  {
    hide M.ParseUntil, CountOf;
    var p := M.ParseUntil(b, offset, M.Answer, id, n1, stop);
    var q := M.ParseUntil(b, p.next, M.Authority, id, n2, stop);
    var r := M.ParseUntil(b, q.next, M.Additional, id, n3, stop);
    var es := M.SectionsUntil(b, offset, id, n1, n2, n3, stop);
    UntilIsTagged(b, offset, M.Answer, id, n1, stop);
    UntilIsTagged(b, p.next, M.Authority, id, n2, stop);
    UntilIsTagged(b, q.next, M.Additional, id, n3, stop);
    if i < |p.entries| {
      assert es[i] == p.entries[i] && i == |p.entries| - 1 && |p.entries| == n1;
      assert es[..i + 1] == p.entries;
      CountOfSame(p.entries, M.Answer, M.Answer);
    } else {
      assert |p.entries| == n1;
      StopInLast(p.entries, q.entries, r.entries, es, i, stop, n2);
      assert i == |p.entries| + |q.entries| - 1 && |q.entries| == n2;
      assert es[..i + 1] == p.entries + q.entries;
      CountOfConcat(p.entries, q.entries, M.Authority);
      CountOfSame(p.entries, M.Answer, M.Authority);
      CountOfSame(q.entries, M.Authority, M.Authority);
    }
  }

  lemma StopInLast(p: seq<M.Entry>, q: seq<M.Entry>, r: seq<M.Entry>, es: seq<M.Entry>, i: nat,
                   stop: M.Entry -> bool, n2: nat)
    requires es == (if |q| != n2 then p + q else p + q + r) && |p| <= i < |es| - 1 && stop(es[i])
    requires forall k | 0 <= k < |r| - 1 :: !stop(r[k])
    ensures i < |p| + |q| && es[i] == q[i - |p|]
  {
    assert |q| == n2 ==> forall k | 0 <= k < |r| :: es[|p| + |q| + k] == r[k];
  }
}
