/** What every run of the video server keeps: exact accounting of outstanding bytes, a bound on droppable
    ones, and well-formed bytes on every connection. */
module VideoServerRuns {
  import opened Bytes
  import opened Avcc
  import opened VideoServer

  /** A send of the class is a run of events. */
  lemma {:induction false} CompletionsAreSteps(s: Server, ks: seq<nat>, rest: seq<Event>)
    ensures Run(s, Completions(ks) + rest) == Run(CompleteAll(s, ks), rest)
    decreases |ks|
  {
    hide DoCompleted;
    if ks == [] {
      assert Completions(ks) + rest == rest;
    } else {
      var es := Completions(ks) + rest;
      assert es[0] == Completed(ks[0]) && es[1..] == Completions(ks[1..]) + rest;
      CompletionsAreSteps(DoCompleted(s, ks[0]), ks[1..], rest);
    }
  }

  function Completions(ks: seq<nat>): seq<Event> {
    if ks == [] then [] else [Completed(ks[0])] + Completions(ks[1..])
  }

  lemma SendIsARun(s: Server, nal: WireNal, header: StreamHeader, vital: bool, completed: seq<nat>)
    ensures var t := DoBegin(s, nal, header, vital);
      SendSteps(s, nal, header, vital, completed) ==
        Run(s, [Begin(nal, header, vital)] + if t.sending.None? then [] else Completions(completed) + [Commit])
  {
    hide DoBegin, DoCommit, CompleteAll;
    var t := DoBegin(s, nal, header, vital);
    var es := [Begin(nal, header, vital)] + if t.sending.None? then [] else Completions(completed) + [Commit];
    assert Run(s, es) == Run(t, es[1..]);
    if t.sending.Some? {
      assert es[1..] == Completions(completed) + [Commit];
      CompletionsAreSteps(t, completed, [Commit]);
      assert [Commit][1..] == [];
    }
  }

  // ---------- accounting ----------

  function Sum(fs: seq<Flight>): nat { if fs == [] then 0 else fs[0].size + Sum(fs[1..]) }

  /** The part of the outstanding bytes that belongs to droppable NALs. */
  function Droppable(fs: seq<Flight>): nat {
    if fs == [] then 0 else (if fs[0].vital then 0 else fs[0].size) + Droppable(fs[1..])
  }

  lemma {:induction false} SumSnoc(fs: seq<Flight>, f: Flight)
    ensures Sum(fs + [f]) == Sum(fs) + f.size
    ensures Droppable(fs + [f]) == Droppable(fs) + if f.vital then 0 else f.size
    decreases |fs|
  {
    if fs == [] {
      assert fs + [f] == [f] && [f][1..] == [];
    } else {
      assert (fs + [f])[1..] == fs[1..] + [f];
      SumSnoc(fs[1..], f);
    }
  }

  lemma {:induction false} SumRemove(fs: seq<Flight>, k: nat)
    requires k < |fs|
    ensures Sum(fs[..k] + fs[k + 1..]) == Sum(fs) - fs[k].size
    ensures Droppable(fs[..k] + fs[k + 1..]) == Droppable(fs) - if fs[k].vital then 0 else fs[k].size
    decreases |fs|
  {
    if k == 0 {
      assert fs[..0] + fs[1..] == fs[1..];
    } else {
      var rest := fs[1..];
      assert (fs[..k] + fs[k + 1..])[1..] == rest[..k - 1] + rest[k..];
      SumRemove(rest, k - 1);
    }
  }

  lemma {:induction false} DroppableIsPart(fs: seq<Flight>)
    ensures Droppable(fs) <= Sum(fs)
    decreases |fs|
  {
    if fs != [] { DroppableIsPart(fs[1..]); }
  }

  predicate Accounted(s: Server, limit: nat) {
    && s.pending == Sum(s.inFlight)
    && Droppable(s.inFlight) <= HIGH_WATER_MARK + HEADER_SIZE + 4 + limit
    && (s.sending.Some? && !s.sending.value.vital ==>
          Droppable(s.inFlight) <= HIGH_WATER_MARK && |s.sending.value.nal| <= limit)
  }

  /** Every droppable NAL has at most this many bytes. */
  predicate Limited(e: Event, limit: nat) { e.Begin? && !e.vital ==> |e.nal| <= limit }

  lemma StepAccounts(s: Server, e: Event, limit: nat)
    requires Accounted(s, limit) && Limited(e, limit)
    ensures Accounted(Step(s, e), limit)
  {
    hide Encode, Frame, Sum, Droppable;
    match e
    case Begin(_, _, _) => DroppableIsPart(s.inFlight);
    case Commit =>
      if s.sending.Some? {
        var p := s.sending.value;
        PayloadSize(s, p);
        SumSnoc(s.inFlight, Flight(|Payload(s, p)|, p.vital));
      }
    case Completed(k) => if k < |s.inFlight| { SumRemove(s.inFlight, k); }
    case _ =>
  }

  lemma PayloadSize(s: Server, p: Sending)
    ensures |Payload(s, p)| <= HEADER_SIZE + 4 + |p.nal|
  {
  }

  lemma {:induction false} RunAccounts(s: Server, es: seq<Event>, limit: nat)
    requires Accounted(s, limit) && forall e <- es :: Limited(e, limit)
    ensures Accounted(Run(s, es), limit)
    decreases |es|
  {
    hide Step, Accounted, Limited;
    if es != [] {
      StepAccounts(s, es[0], limit);
      RunAccounts(Step(s, es[0]), es[1..], limit);
    }
  }

  /** In every reachable state, wherever completions strike, pendingSendBytes is the sum of what is in flight,
      and the droppable part never exceeds the mark by more than one largest payload. */
  lemma OutstandingBytesAreExactAndBounded(es: seq<Event>, limit: nat)
    requires forall e <- es :: Limited(e, limit)
    ensures var s := Run(INITIAL, es);
      && s.pending == Sum(s.inFlight)
      && Droppable(s.inFlight) <= 4194304 + 15 + limit
  {
    hide Step, Run;
    RunAccounts(INITIAL, es, limit);
  }

  // ---------- the bytes of each connection ----------

  function Kept(os: seq<Offer>): seq<Offer>
    decreases |os|
  {
    if os == [] then [] else
    Kept(os[..|os| - 1]) + if os[|os| - 1].dropped then [] else [os[|os| - 1]]
  }

  function Nals(os: seq<Offer>): (ns: seq<Nal>)
    ensures |ns| == |os| && forall n <- ns :: |n| < 0x1_0000_0000
  {
    if os == [] then [] else [os[0].nal] + Nals(os[1..])
  }

  /** One header, that of the first NAL kept, then every NAL kept, framed, in order. */
  function Wire(kept: seq<Offer>): seq<byte> {
    if kept == [] then [] else Encode(kept[0].header) + Frames(Nals(kept))
  }

  lemma {:induction false} FramesSnoc(os: seq<Offer>, o: Offer)
    ensures Frames(Nals(os + [o])) == Frames(Nals(os)) + Frame(o.nal)
    decreases |os|
  {
    hide Frame;
    if os == [] {
      assert os + [o] == [o] && [o][1..] == [];
      assert Nals([o]) == [o.nal] && [o.nal][1..] == [];
      assert Frames([o.nal]) == Frame(o.nal) + Frames([]);
    } else {
      assert (os + [o])[1..] == os[1..] + [o];
      FramesSnoc(os[1..], o);
      assert Nals(os)[1..] == Nals(os[1..]) && Nals(os + [o])[1..] == Nals(os[1..] + [o]);
    }
  }

  lemma WireSnoc(kept: seq<Offer>, o: Offer)
    ensures Wire(kept + [o]) == Wire(kept) + (if kept == [] then Encode(o.header) else []) + Frame(o.nal)
  {
    hide Encode, Frame;
    FramesSnoc(kept, o);
    assert Nals([]) == [] && Frames([]) == [];
  }

  lemma KeptSnoc(os: seq<Offer>, o: Offer)
    ensures Kept(os + [o]) == Kept(os) + if o.dropped then [] else [o]
  {
    assert (os + [o])[..|os|] == os;
  }

  /** A connection's bytes are those of the NALs kept for it; only droppable NALs are missing. */
  predicate WellFormed(stream: seq<byte>, os: seq<Offer>) {
    stream == Wire(Kept(os)) && forall o <- os :: o.vital ==> !o.dropped
  }

  predicate Orderly(s: Server) {
    && s.streams.Keys == s.offers.Keys
    && (forall c <- s.streams :: WellFormed(s.streams[c], s.offers[c]))
    && (s.active.Some? ==> s.active.value in s.streams
                           && (s.headerSent <==> Kept(s.offers[s.active.value]) != []))
    && (s.sending.Some? ==> s.sending.value.conn in s.streams)
  }

  /** No reset strikes between the two steps of a send: each write finds its connection still active. */
  predicate Steady(s: Server, es: seq<Event>)
    decreases |es|
  {
    es == [] || (SteadyStep(s, es[0]) && Steady(Step(s, es[0]), es[1..]))
  }

  predicate SteadyStep(s: Server, e: Event) {
    e.Commit? && s.sending.Some? ==> s.active == Some(s.sending.value.conn)
  }

  lemma CommitKeepsOrder(s: Server)
    requires Orderly(s) && s.sending.Some? && s.active == Some(s.sending.value.conn)
    ensures Orderly(DoCommit(s))
  {
    hide Encode, Frame, WellFormed, Kept, Payload;
    var p := s.sending.value;
    var os := s.offers[p.conn];
    WriteIsSoundIffFlagIsRight(s, p, os);
  }

  /** A write keeps its connection well-formed exactly when headerSent tells the truth about that very
      connection. */
  lemma WriteIsSoundIffFlagIsRight(s: Server, p: Sending, os: seq<Offer>)
    requires WellFormed(StreamOf(s, p.conn), os)
    ensures var os' := os + [Offer(p.nal, p.header, p.vital, false)];
      && Kept(os') != []
      && (WellFormed(StreamOf(s, p.conn) + Payload(s, p), os') <==> (s.headerSent <==> Kept(os) != []))
  {
    hide Encode, Frame, Wire;
    var o := Offer(p.nal, p.header, p.vital, false);
    KeptSnoc(os, o);
    WireSnoc(Kept(os), o);
    assert |Wire(Kept(os) + [o])| ==
      |Wire(Kept(os))| + (if Kept(os) == [] then HEADER_SIZE else 0) + |Frame(o.nal)|;
  }

  lemma BeginKeepsOrder(s: Server, nal: WireNal, header: StreamHeader, vital: bool)
    requires Orderly(s)
    ensures Orderly(DoBegin(s, nal, header, vital))
  {
    hide Wire, Kept;
    if s.sending.None? && s.active.Some? && s.pending > HIGH_WATER_MARK && !vital {
      var c := s.active.value;
      var o := Offer(nal, header, vital, true);
      KeptSnoc(s.offers[c], o);
      assert Kept(s.offers[c] + [o]) == Kept(s.offers[c]);
      assert WellFormed(s.streams[c], s.offers[c]);
      assert WellFormed(s.streams[c], s.offers[c] + [o]);
    }
  }

  lemma IncomingKeepsOrder(s: Server, c: Conn)
    requires Orderly(s)
    ensures Orderly(DoIncoming(s, c))
  {
    hide WellFormed, Kept;
    NothingIsWellFormed();
  }

  lemma NothingIsWellFormed()
    ensures WellFormed([], []) && Kept([]) == []
  {
  }

  lemma StepKeepsOrder(s: Server, e: Event)
    requires Orderly(s) && SteadyStep(s, e)
    ensures Orderly(Step(s, e))
  {
    hide WellFormed, Kept, DoCommit, DoBegin, DoIncoming;
    match e
    case Begin(nal, header, vital) => BeginKeepsOrder(s, nal, header, vital);
    case Commit => if s.sending.Some? { CommitKeepsOrder(s); } else { NothingToCommit(s); }
    case Incoming(c) => IncomingKeepsOrder(s, c);
    case _ =>
  }

  lemma NothingToCommit(s: Server)
    requires s.sending.None?
    ensures DoCommit(s) == s
  {
  }

  lemma {:induction false} SteadyFlagsAreRight(s: Server, es: seq<Event>)
    requires Orderly(s) && Steady(s, es)
    ensures FlagsRight(s, es)
    decreases |es|
  {
    hide Step, Orderly, SteadyStep, FlagRight;
    if es != [] {
      SteadyFlagIsRight(s, es[0]);
      StepKeepsOrder(s, es[0]);
      SteadyFlagsAreRight(Step(s, es[0]), es[1..]);
    }
  }

  lemma SteadyFlagIsRight(s: Server, e: Event)
    requires Orderly(s) && SteadyStep(s, e)
    ensures FlagRight(s, e)
  {
    hide Kept, WellFormed;
  }

  // ---------- exactly which runs are sound ----------

  /** The guard of a write: the flag it finds tells the truth about the connection it writes to. */
  predicate FlagRight(s: Server, e: Event) {
    e.Commit? && s.sending.Some? ==>
      (s.headerSent <==> Kept(OffersOf(s, s.sending.value.conn)) != [])
  }

  predicate FlagsRight(s: Server, es: seq<Event>)
    decreases |es|
  {
    es == [] || (FlagRight(s, es[0]) && FlagsRight(Step(s, es[0]), es[1..]))
  }

  predicate AllSound(s: Server) { forall c <- s.streams :: WellFormed(StreamOf(s, c), OffersOf(s, c)) }

  /** Every connection is sound now and after every event. */
  predicate AlwaysSound(s: Server, es: seq<Event>)
    decreases |es|
  {
    AllSound(s) && (es == [] || AlwaysSound(Step(s, es[0]), es[1..]))
  }

  /** The connections that are active or being written to are known. */
  predicate Known(s: Server) {
    && s.streams.Keys == s.offers.Keys
    && (s.active.Some? ==> s.active.value in s.streams)
    && (s.sending.Some? ==> s.sending.value.conn in s.streams)
  }

  lemma StepKeepsKnown(s: Server, e: Event)
    requires Known(s)
    ensures Known(Step(s, e))
  {
    hide Payload;
  }

  lemma CommitIsSoundIff(s: Server)
    requires Known(s) && AllSound(s) && s.sending.Some?
    ensures AllSound(DoCommit(s)) <==> FlagRight(s, Commit)
  {
    hide Encode, Frame, WellFormed, Kept, Payload;
    var p := s.sending.value;
    var t := DoCommit(s);
    WriteIsSoundIffFlagIsRight(s, p, OffersOf(s, p.conn));
    assert WellFormed(StreamOf(t, p.conn), OffersOf(t, p.conn)) <==> FlagRight(s, Commit);
    forall c | c in t.streams && c != p.conn ensures WellFormed(StreamOf(t, c), OffersOf(t, c)) {
      assert c in s.streams;
    }
  }

  lemma BeginIsSound(s: Server, nal: WireNal, header: StreamHeader, vital: bool)
    requires Known(s) && AllSound(s)
    ensures AllSound(DoBegin(s, nal, header, vital))
  {
    hide Wire, Kept;
    if s.sending.None? && s.active.Some? && s.pending > HIGH_WATER_MARK && !vital {
      var a, o := s.active.value, Offer(nal, header, vital, true);
      var t := DoBegin(s, nal, header, vital);
      KeptSnoc(OffersOf(s, a), o);
      assert Kept(OffersOf(s, a) + [o]) == Kept(OffersOf(s, a));
      forall c | c in t.streams ensures WellFormed(StreamOf(t, c), OffersOf(t, c)) {
        assert WellFormed(StreamOf(s, c), OffersOf(s, c));
      }
    }
  }

  lemma IncomingIsSound(s: Server, c: Conn)
    requires Known(s) && AllSound(s)
    ensures AllSound(DoIncoming(s, c))
  {
    hide WellFormed;
    NothingIsWellFormed();
  }

  /** From a sound state an event leads to a sound state exactly when its flag is right. */
  lemma StepIsSoundIff(s: Server, e: Event)
    requires Known(s) && AllSound(s)
    ensures AllSound(Step(s, e)) <==> FlagRight(s, e)
  {
    hide WellFormed, Kept, DoCommit, DoBegin, DoIncoming;
    match e
    case Begin(nal, header, vital) => BeginIsSound(s, nal, header, vital);
    case Commit => if s.sending.Some? { CommitIsSoundIff(s); } else { NothingToCommit(s); }
    case Incoming(c) => IncomingIsSound(s, c);
    case _ =>
  }

  lemma {:induction false} SoundIffFlagsRight(s: Server, es: seq<Event>)
    requires Known(s) && AllSound(s)
    ensures AlwaysSound(s, es) <==> FlagsRight(s, es)
    decreases |es|
  {
    hide Step, AllSound, FlagRight, Known;
    if es != [] {
      StepIsSoundIff(s, es[0]);
      StepKeepsKnown(s, es[0]);
      if AllSound(Step(s, es[0])) { SoundIffFlagsRight(Step(s, es[0]), es[1..]); }
    }
  }

  /** EXACTLY which runs keep every connection sound throughout: those in which every write finds headerSent
      telling the truth about the connection it writes to. */
  lemma StreamsAreSoundIffFlagsAreRight(es: seq<Event>)
    ensures AlwaysSound(INITIAL, es) <==> FlagsRight(INITIAL, es)
  {
    hide Step, AlwaysSound, FlagsRight;
    SoundIffFlagsRight(INITIAL, es);
  }

  lemma {:induction false} RunEndsSound(s: Server, es: seq<Event>)
    requires AlwaysSound(s, es)
    ensures AllSound(Run(s, es))
    decreases |es|
  {
    hide Step, AllSound;
    if es != [] { RunEndsSound(Step(s, es[0]), es[1..]); }
  }

  lemma {:induction false} RunKeepsKnown(s: Server, es: seq<Event>)
    requires Known(s)
    ensures Known(Run(s, es))
    decreases |es|
  {
    hide Step, Known;
    if es != [] {
      StepKeepsKnown(s, es[0]);
      RunKeepsKnown(Step(s, es[0]), es[1..]);
    }
  }

  /** In such a run every connection carries nothing, or one header and then exactly the NALs that were not
      refused, in order. */
  lemma EveryStreamIsWellFormed(es: seq<Event>, c: Conn)
    requires FlagsRight(INITIAL, es) && c in Run(INITIAL, es).streams
    ensures var s := Run(INITIAL, es); c in s.offers && WellFormed(s.streams[c], s.offers[c])
  {
    hide Step, Run, FlagsRight, AlwaysSound, WellFormed;
    StreamsAreSoundIffFlagsAreRight(es);
    RunEndsSound(INITIAL, es);
    RunKeepsKnown(INITIAL, es);
  }

  /** The sufficient case: runs in which no reset strikes between the two steps of a send. */
  lemma SteadyRunsAreSound(es: seq<Event>)
    requires Steady(INITIAL, es)
    ensures FlagsRight(INITIAL, es) && AlwaysSound(INITIAL, es)
  {
    hide Step, Steady, FlagsRight, AlwaysSound;
    SteadyFlagsAreRight(INITIAL, es);
    StreamsAreSoundIffFlagsAreRight(es);
  }

  // ---------- parameter sets and keyframes ----------

  predicate VitalKept(s: Server) { forall c <- s.offers :: forall o <- s.offers[c] :: o.vital ==> !o.dropped }

  lemma StepKeepsVital(s: Server, e: Event)
    requires VitalKept(s)
    ensures VitalKept(Step(s, e))
  {
    hide Payload;
  }

  /** Whatever happens, resets inside a send included, only droppable NALs are refused. */
  lemma {:induction false} RunKeepsVital(s: Server, es: seq<Event>)
    requires VitalKept(s)
    ensures VitalKept(Run(s, es))
    decreases |es|
  {
    hide Step, VitalKept;
    if es != [] {
      StepKeepsVital(s, es[0]);
      RunKeepsVital(Step(s, es[0]), es[1..]);
    }
  }

  /** The connection is replaced between the two steps of a send. */
  function Race(n: WireNal, h: StreamHeader): seq<Event> {
    [Incoming(1), Begin(n, h, true), Ended(1), Incoming(2), Commit, Begin(n, h, true), Commit]
  }

  /** Runs do go wrong: the connection that took over gets its first NAL without a header. */
  lemma ResetDuringSendLosesHeader(n: WireNal, h: StreamHeader)
    ensures var s := Run(INITIAL, Race(n, h));
      s.active == Some(2) && 2 in s.streams && s.streams[2] == Frame(n)
  {
    hide Step, Frame, Encode;
    var es := Race(n, h);
    var s1, s2, s3, s4 := Accepted(n, h);
    var s5 := Step(s4, Commit);
    var s6 := Step(s5, Begin(n, h, true));
    CommitLate(s4, n, h);
    RunFrom(INITIAL, es, 0); RunFrom(s1, es, 1); RunFrom(s2, es, 2); RunFrom(s3, es, 3);
    RunFrom(s4, es, 4); RunFrom(s5, es, 5); RunFrom(s6, es, 6);
    assert es[0..] == es && es[7..] == [];
  }

  lemma Accepted(n: WireNal, h: StreamHeader) returns (s1: Server, s2: Server, s3: Server, s4: Server)
    ensures s1 == Step(INITIAL, Incoming(1)) && s2 == Step(s1, Begin(n, h, true))
    ensures s3 == Step(s2, Ended(1)) && s4 == Step(s3, Incoming(2))
    ensures s4.active == Some(2) && !s4.headerSent && s4.sending == Some(Sending(1, n, h, true))
    ensures 2 in s4.streams && s4.streams[2] == []
  {
    hide Encode, Frame;
    s1 := Step(INITIAL, Incoming(1));
    s2 := Step(s1, Begin(n, h, true));
    s3 := Step(s2, Ended(1));
    s4 := Step(s3, Incoming(2));
  }

  lemma CommitLate(s: Server, n: WireNal, h: StreamHeader)
    requires s.active == Some(2) && s.sending == Some(Sending(1, n, h, true)) && 2 in s.streams && s.streams[2] == []
    ensures var t := Step(Step(Step(s, Commit), Begin(n, h, true)), Commit);
      t.active == Some(2) && 2 in t.streams && t.streams[2] == Frame(n)
  {
    hide Encode, Frame;
    var s5 := DoCommit(s);
    assert s5.headerSent && s5.streams[2] == [];
    var s6 := DoBegin(s5, n, h, true);
    assert s6.sending == Some(Sending(2, n, h, true)) && s6.streams == s5.streams && s6.headerSent;
  }

  lemma RunFrom(s: Server, es: seq<Event>, k: nat)
    requires k < |es|
    ensures Run(s, es[k..]) == Run(Step(s, es[k]), es[k + 1..])
  {
    hide Step;
    assert es[k..][1..] == es[k + 1..];
  }
}
