/** The names of one service family are whole in every response, so every such response reads back. */
module DnsFamilies {
  import opened Bytes
  import N = DnsNames
  import opened DnsCompression
  import R = DnsRoundTrip
  import opened DnsAnswers
  import opened DnsResponse
  import opened DnsMessageWriting

  type Label = N.Label

  predicate FamilyName(name: Name, root: Label) {
    R.Rooted(LabelsOf(name), root) && |LabelsOf(name)| <= N.MAX_SUBSTRINGS
  }

  predicate FamilyRecord(r: Record, root: Label) {
    && FamilyName(r.name, root)
    && (r.data.Ptr? ==> FamilyName(r.data.target, root)) && (r.data.Srv? ==> FamilyName(r.data.host, root))
  }

  predicate FamilySection(rs: seq<Record>, root: Label) { forall r <- rs :: FamilyRecord(r, root) }

  lemma FamilyNameIsWhole(w: Writer, o: nat, name: Name, root: Label)
    requires R.Writing(w, o, w.pos, [], R.Family(root)) && FamilyName(name, root) && PutLabels(w, LabelsOf(name)).Done?
    ensures R.Whole(w, LabelsOf(name)) && LabelsOf(name) != []
  {
    hide LabelsOf, PutLabels, R.Writing, R.Whole;
    R.RootedIsWhole(w, o, root, LabelsOf(name));
  }

  lemma FamilyIn(r: Record, root: Label)
    requires FamilyRecord(r, root)
    ensures RecordIn(r, R.Family(root))
  {
    hide LabelsOf;
    forall name: Name | FamilyName(name, root) ensures EndingsIn(name, R.Family(root)) {
      assert [] + LabelsOf(name) == LabelsOf(name);
      R.RootedTail([], LabelsOf(name), root);
    }
  }

  lemma FamilyDataIsWhole(x: Writer, o: nat, r: Record, root: Label)
    requires R.Writing(x, o, x.pos, [], R.Family(root)) && FamilyRecord(r, root) && PutData(x, r.data).Done?
    ensures DataWhole(x, r.data)
  {
    hide LabelsOf, PutLabels, R.Writing, R.Whole, FamilyName;
    match r.data
    case Ptr(target) => FamilyNameIsWhole(x, o, target, root);
    case Srv(p, q, port, host) =>
      WritingMore(x, o, SixOf(p, q, port), R.Family(root));
      FamilyNameIsWhole(PutBytes(x, SixOf(p, q, port)), o, host, root);
    case _ =>
  }

  lemma FamilyRecordIsWhole(w: Writer, r: Record, root: Label)
    requires R.Good(w, R.Family(root)) && FamilyRecord(r, root) && !r.data.Text? && PutRecord(w, r).Done?
    ensures RecordWhole(w, r) && R.Good(PutRecord(w, r).w, R.Family(root))
  {
    hide LabelsOf, PutLabels, PutData, PutRecord, PutHeader, R.Good, R.Writing, R.Whole, FamilyName, DataWhole, RecordIn,
      FixedPart, ChainAt;
    RecordStep(w, r);
    var n := PutLabels(w, LabelsOf(r.name)).w;
    R.StartsHere(w, R.Family(root));
    FamilyNameIsWhole(w, w.pos, r.name, root);
    FamilyIn(r, root);
    FamilyOwnName(w, r, root);
    R.StartsWriting(n, FixedOf(r, 0), R.Family(root));
    FamilyDataIsWhole(PutBytes(n, FixedOf(r, 0)), n.pos, r, root);
    RecordThenIff(w, r, R.Family(root), PutRecord(w, r).w.Out(), 0, []);
  }

  lemma FamilyOwnName(w: Writer, r: Record, root: Label)
    requires R.Good(w, R.Family(root)) && PutLabels(w, LabelsOf(r.name)).Done? && RecordIn(r, R.Family(root))
    requires R.Whole(w, LabelsOf(r.name))
    ensures R.Good(PutLabels(w, LabelsOf(r.name)).w, R.Family(root))
  {
    hide LabelsOf, PutLabels, R.Good, R.Whole;
    OwnName(w, r.name, R.Family(root), PutLabels(w, LabelsOf(r.name)).w.Out());
  }

  lemma {:induction false} FamilyRecordsAreWhole(w: Writer, rs: seq<Record>, root: Label, rclass: uint16, ttl: uint32)
    requires R.Good(w, R.Family(root)) && FamilySection(rs, root) && PutRecords(w, rs, rclass, ttl).Done?
    ensures RecordsWhole(w, rs, rclass, ttl) && R.Good(PutRecords(w, rs, rclass, ttl).w, R.Family(root))
    decreases |rs|
  {
    hide R.Good, PutRecord, Update, FamilyRecord, RecordWhole;
    if rs != [] {
      var r := Update(rs[0], rclass, ttl);
      UpdateKeepsFamily(rs[0], rclass, ttl, root);
      if r.data.Text? { TextPutsNothing(w, r); } else { FamilyRecordIsWhole(w, r, root); }
      FamilyRecordsAreWhole(PutRecord(w, r).w, rs[1..], root, rclass, ttl);
    }
  }

  lemma UpdateKeepsFamily(r: Record, rclass: uint16, ttl: uint32, root: Label)
    ensures FamilyRecord(r, root) ==> FamilyRecord(Update(r, rclass, ttl), root)
  {
    hide FamilyName;
  }

  lemma FamilySectionIsWhole(w: Writer, rs: seq<Record>, root: Label, rclass: uint16, ttl: uint32)
    requires R.Good(w, R.Family(root)) && FamilySection(rs, root) && PutSection(w, rs, rclass, ttl).Done?
    ensures SectionWhole(w, rs, rclass, ttl) && R.Good(PutSection(w, rs, rclass, ttl).w, R.Family(root))
  {
    hide R.Good, R.Whole, R.Writing, PutRecords, PutTxtRecord, PutLabels, HasText, RecordsWhole, LabelsOf, FamilyName,
      RecordIn, ChainAt, SectionItems;
    FamilyRecordsAreWhole(w, rs, root, rclass, ttl);
    var w1 := PutRecords(w, rs, rclass, ttl).w;
    if HasText(rs) {
      TxtStep(w1, rs, rclass, ttl);
      assert FamilyRecord(FirstText(rs), root);
      R.StartsHere(w1, R.Family(root));
      FamilyNameIsWhole(w1, w1.pos, FirstText(rs).name, root);
    }
    forall r <- rs ensures RecordIn(r, R.Family(root)) { FamilyIn(r, root); }
    SectionThenIff(w, rs, rclass, ttl, R.Family(root), PutSection(w, rs, rclass, ttl).w.Out(), 0, []);
  }

  /** The names of one family, as service names ending in `local` are, are whole in every response. */
  lemma FamilyResponseIsWhole(buf: seq<byte>, answer: Record, authority: seq<Record>, additional: seq<Record>,
                              rclass: uint16, ttl: uint32, root: Label)
    requires |buf| <= REF_LIMIT && Answer(buf, answer, authority, additional, rclass, ttl).Some?
    requires (answer.data.Text? || FamilyRecord(answer, root)) && FamilySection(authority, root)
          && FamilySection(additional, root)
    ensures ResponseWhole(buf, answer, authority, additional, rclass, ttl)
  {
    hide R.Good, Answer, PutRecord, PutSection, Update, Started, SectionWhole, RecordWhole, ResponseWhole, FamilyRecord,
      FamilySection;
    var w, w1, w2, w3 := AnswerStages(buf, answer, authority, additional, rclass, ttl);
    var r := Update(answer, rclass, ttl);
    AnyFamily(w, R.Family(root));
    UpdateKeepsFamily(answer, rclass, ttl, root);
    UpdateKeeps(answer, rclass, ttl, R.ANY_NAME);
    if r.data.Text? { TextPutsNothing(w, r); } else { FamilyRecordIsWhole(w, r, root); }
    FamilySectionIsWhole(w1, authority, root, rclass, ttl);
    FamilySectionIsWhole(w2, additional, root, rclass, ttl);
  }
}
