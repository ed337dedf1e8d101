/** What the video server owes its caller: which NALs it takes and which it refuses, for whom, and when it has room
    again. */
module VideoBackpressure {
  import opened Bytes
  import opened Avcc
  import opened VideoServer
  import opened VideoServerRuns

  predicate Counted(s: Server) { s.pending == Sum(s.inFlight) }

  lemma StepKeepsCount(s: Server, e: Event)
    requires Counted(s)
    ensures Counted(Step(s, e))
  {
    hide Payload, Sum;
    match e
    case Commit =>
      if s.sending.Some? { SumSnoc(s.inFlight, Flight(|Payload(s, s.sending.value)|, s.sending.value.vital)); }
    case Completed(k) => if k < |s.inFlight| { SumRemove(s.inFlight, k); }
    case _ =>
  }

  lemma {:induction false} RunKeepsCount(s: Server, es: seq<Event>)
    requires Counted(s)
    ensures Counted(Run(s, es))
    decreases |es|
  {
    hide Step, Counted;
    if es != [] {
      StepKeepsCount(s, es[0]);
      RunKeepsCount(Step(s, es[0]), es[1..]);
    }
  }

  // ---------- one NAL ----------

  /** In every reachable state with an active connection and no send under way, a NAL is refused if and only if it
      may be dropped and more than four mebibytes are outstanding. A refused one is only noted; one that is taken
      is on its way to that connection, itself and under its own header. */
  lemma RefusedIff(es: seq<Event>, nal: WireNal, header: StreamHeader, vital: bool)
    requires var s := Run(INITIAL, es); s.active.Some? && s.sending.None?
    ensures var s := Run(INITIAL, es);
      var t, c := Step(s, Begin(nal, header, vital)), s.active.value;
      && (t.sending.None? <==> !vital && Sum(s.inFlight) > 4194304)
      && (t.sending.None? ==> t == s.(offers := t.offers)
                              && OffersOf(t, c) == OffersOf(s, c) + [Offer(nal, header, vital, true)])
      && (t.sending.Some? ==> t == s.(sending := Some(Sending(c, nal, header, vital))))
  {
    hide Run, Sum;
    NothingCounts();
    RunKeepsCount(INITIAL, es);
  }

  lemma NothingCounts()
    ensures Counted(INITIAL)
  {
  }

  /** And while no connection is active, or while another send is under way, a NAL changes nothing. */
  lemma NobodyToSendTo(s: Server, nal: WireNal, header: StreamHeader, vital: bool)
    requires s.active.None? || s.sending.Some?
    ensures Step(s, Begin(nal, header, vital)) == s
  {
  }

  // ---------- every NAL of a run ----------

  datatype Asked = Asked(nal: WireNal, header: StreamHeader, vital: bool)

  /** The NALs that the caller offered while a connection was active and no other send was under way. */
  function Begun(s: Server, es: seq<Event>, c: Conn): seq<Asked>
    decreases |es|
  {
    if es == [] then [] else
    (if es[0].Begin? && s.active == Some(c) && s.sending.None?
     then [Asked(es[0].nal, es[0].header, es[0].vital)] else []) + Begun(Step(s, es[0]), es[1..], c)
  }

  function AskedOf(os: seq<Offer>): seq<Asked>
    decreases |os|
  {
    if os == [] then [] else
    AskedOf(os[..|os| - 1]) + [Asked(os[|os| - 1].nal, os[|os| - 1].header, os[|os| - 1].vital)]
  }

  /** Noted for a connection, or under way to it. */
  function Noted(s: Server, c: Conn): seq<Asked> {
    AskedOf(OffersOf(s, c)) +
    if s.sending.Some? && s.sending.value.conn == c
    then [Asked(s.sending.value.nal, s.sending.value.header, s.sending.value.vital)] else []
  }

  lemma AskedSnoc(os: seq<Offer>, o: Offer)
    ensures AskedOf(os + [o]) == AskedOf(os) + [Asked(o.nal, o.header, o.vital)]
  {
    assert (os + [o])[..|os|] == os;
  }

  lemma BeginNotes(s: Server, nal: WireNal, header: StreamHeader, vital: bool, c: Conn)
    ensures Noted(DoBegin(s, nal, header, vital), c) == Noted(s, c) +
      if s.active == Some(c) && s.sending.None? then [Asked(nal, header, vital)] else []
  {
    hide AskedOf;
    AskedSnoc(OffersOf(s, c), Offer(nal, header, vital, true));
  }

  lemma CommitNotes(s: Server, c: Conn)
    ensures Noted(DoCommit(s), c) == Noted(s, c)
  {
    hide AskedOf, Payload;
    if s.sending.Some? {
      var p := s.sending.value;
      AskedSnoc(OffersOf(s, c), Offer(p.nal, p.header, p.vital, false));
    }
  }

  lemma IncomingNotes(s: Server, d: Conn, c: Conn)
    requires Known(s)
    ensures Noted(DoIncoming(s, d), c) == Noted(s, c)
  {
    hide AskedOf;
    assert d !in s.streams ==> OffersOf(s, d) == [];
  }

  lemma StepNotes(s: Server, e: Event, c: Conn)
    requires Known(s)
    ensures Noted(Step(s, e), c) == Noted(s, c) +
      if e.Begin? && s.active == Some(c) && s.sending.None? then [Asked(e.nal, e.header, e.vital)] else []
  {
    hide AskedOf, DoBegin, DoCommit, DoIncoming, Known;
    match e
    case Begin(nal, header, vital) => BeginNotes(s, nal, header, vital, c);
    case Commit => CommitNotes(s, c);
    case Incoming(d) => IncomingNotes(s, d, c);
    case _ =>
  }

  lemma NothingAsked()
    ensures AskedOf([]) == []
  {
  }

  lemma {:induction false} RunNotes(s: Server, es: seq<Event>, c: Conn)
    requires Known(s)
    ensures Noted(Run(s, es), c) == Noted(s, c) + Begun(s, es, c)
    decreases |es|
  {
    hide Step, Noted, Known;
    if es != [] {
      StepKeepsKnown(s, es[0]);
      StepNotes(s, es[0], c);
      RunNotes(Step(s, es[0]), es[1..], c);
    }
  }

  /** On every run: what was noted for a connection is what the caller offered it, in order and unchanged. */
  lemma OffersAreWhatWasAsked(es: seq<Event>, c: Conn)
    ensures var s := Run(INITIAL, es);
      Noted(s, c) == Begun(INITIAL, es, c) && (s.sending.None? ==> AskedOf(OffersOf(s, c)) == Begun(INITIAL, es, c))
  {
    hide Run, Begun, AskedOf;
    NothingNoted(c);
    RunNotes(INITIAL, es, c);
    assert [] + Begun(INITIAL, es, c) == Begun(INITIAL, es, c);
  }

  lemma NothingNoted(c: Conn)
    ensures Known(INITIAL) && Noted(INITIAL, c) == []
  {
  }

  // ---------- when nothing is dropped ----------

  /** A NAL that may be dropped comes at a moment at which there is room. */
  predicate HasRoom(s: Server, e: Event) {
    e.Begin? && !e.vital && s.active.Some? && s.sending.None? ==> Sum(s.inFlight) <= 4194304
  }

  predicate Roomy(s: Server, es: seq<Event>)
    decreases |es|
  {
    es == [] || (HasRoom(s, es[0]) && Roomy(Step(s, es[0]), es[1..]))
  }

  predicate NoneDropped(s: Server) { forall c <- s.offers :: forall o <- s.offers[c] :: !o.dropped }

  lemma StepDropsIff(s: Server, e: Event)
    requires Counted(s) && Known(s)
    ensures NoneDropped(Step(s, e)) <==> NoneDropped(s) && HasRoom(s, e)
  {
    hide Payload, Sum;
    match e
    case Begin(nal, header, vital) =>
      if s.active.Some? && s.sending.None? {
        var c := s.active.value;
        var o := Offer(nal, header, vital, true);
        BeginDropsIff(s, c, o);
      }
    case Commit =>
      if s.sending.Some? {
        var p := s.sending.value;
        OneMoreOffer(s.offers, p.conn, Offer(p.nal, p.header, p.vital, false));
      }
    case Incoming(c) => if c !in s.streams { FreshOffers(s.offers, c); }
    case _ =>
  }

  lemma BeginDropsIff(s: Server, c: Conn, o: Offer)
    requires Counted(s) && Known(s) && s.active == Some(c) && s.sending.None? && o.dropped
    ensures NoneDropped(Step(s, Begin(o.nal, o.header, o.vital))) <==>
            NoneDropped(s) && HasRoom(s, Begin(o.nal, o.header, o.vital))
  {
    hide Sum;
    OneMoreOffer(s.offers, c, o);
  }

  predicate NoneDroppedIn(offers: map<Conn, seq<Offer>>) { forall c <- offers :: forall o <- offers[c] :: !o.dropped }

  lemma OneMoreOffer(offers: map<Conn, seq<Offer>>, c: Conn, o: Offer)
    requires c in offers
    ensures NoneDroppedIn(offers[c := offers[c] + [o]]) <==> NoneDroppedIn(offers) && !o.dropped
  {
    var more := offers[c := offers[c] + [o]];
    if NoneDroppedIn(more) {
      assert o in more[c];
      forall d, p | d in offers && p in offers[d] ensures !p.dropped { assert p in more[d]; }
    }
  }

  lemma FreshOffers(offers: map<Conn, seq<Offer>>, c: Conn)
    requires c !in offers
    ensures NoneDroppedIn(offers[c := []]) <==> NoneDroppedIn(offers)
  {
    var more := offers[c := []];
    if NoneDroppedIn(more) {
      forall d, p | d in offers && p in offers[d] ensures !p.dropped { assert p in more[d]; }
    }
  }

  lemma {:induction false} RunDropsIff(s: Server, es: seq<Event>)
    requires Counted(s) && Known(s)
    ensures NoneDropped(Run(s, es)) <==> NoneDropped(s) && Roomy(s, es)
    decreases |es|
  {
    hide Step, Counted, Known, NoneDropped, HasRoom;
    if es != [] {
      StepKeepsCount(s, es[0]);
      StepKeepsKnown(s, es[0]);
      StepDropsIff(s, es[0]);
      RunDropsIff(Step(s, es[0]), es[1..]);
    }
  }

  lemma {:induction false} KeptIsAll(os: seq<Offer>)
    requires forall o <- os :: !o.dropped
    ensures Kept(os) == os
    decreases |os|
  {
    if os != [] {
      var init, last := os[..|os| - 1], os[|os| - 1];
      assert os == init + [last];
      KeptIsAll(init);
    }
  }

  lemma NothingDropped()
    ensures NoneDropped(INITIAL) && Known(INITIAL) && Counted(INITIAL)
  {
  }

  /** EXACTLY when nothing is dropped: on every run, no NAL of any connection is missing if and only if whenever
      one that may be dropped was offered at most four mebibytes were outstanding. */
  lemma NothingIsDroppedIff(es: seq<Event>)
    ensures var s := Run(INITIAL, es);
      && (NoneDropped(s) <==> Roomy(INITIAL, es))
      && (Roomy(INITIAL, es) ==> forall c :: Kept(OffersOf(s, c)) == OffersOf(s, c))
  {
    hide Run, Roomy, Kept;
    NothingDropped();
    RunDropsIff(INITIAL, es);
    var s := Run(INITIAL, es);
    if NoneDropped(s) {
      forall c ensures Kept(OffersOf(s, c)) == OffersOf(s, c) { KeptIsAll(OffersOf(s, c)); }
    }
  }

  // ---------- room again ----------

  function Drain(n: nat): seq<Event> { if n == 0 then [] else [Completed(0)] + Drain(n - 1) }

  lemma {:induction false} DrainEmpties(s: Server, n: nat)
    requires Counted(s) && n == |s.inFlight|
    ensures var t := Run(s, Drain(n));
      t.inFlight == [] && t.pending == 0 && t.active == s.active && t.sending == s.sending
    decreases n
  {
    hide Sum;
    if n == 0 {
      EmptySum();
    } else {
      var t := Step(s, Completed(0));
      StepKeepsCount(s, Completed(0));
      assert Drain(n)[1..] == Drain(n - 1);
      assert |t.inFlight| == n - 1;
      DrainEmpties(t, n - 1);
    }
  }

  lemma EmptySum()
    ensures Sum([]) == 0
  {
  }

  /** In every reachable state, once every payload in flight has been processed nothing is outstanding, and the
      next NAL is taken, whatever it is. */
  lemma ProcessedPayloadsMakeRoom(es: seq<Event>, nal: WireNal, header: StreamHeader, vital: bool)
    ensures var s := Run(INITIAL, es);
      var t := Run(s, Drain(|s.inFlight|));
      && t.pending == 0
      && (t.active.Some? && t.sending.None? ==>
            Step(t, Begin(nal, header, vital)).sending == Some(Sending(t.active.value, nal, header, vital)))
  {
    hide Run, Sum, Drain;
    NothingCounts();
    RunKeepsCount(INITIAL, es);
    var s := Run(INITIAL, es);
    DrainEmpties(s, |s.inFlight|);
  }

  // ---------- connections ----------

  /** A connection that comes while another is active is turned away for good. */
  predicate TurnedAway(s: Server, c: Conn) {
    && c in s.streams && s.streams[c] == [] && OffersOf(s, c) == []
    && s.active != Some(c) && (s.sending.Some? ==> s.sending.value.conn != c)
  }

  lemma StepLeavesAway(s: Server, e: Event, c: Conn)
    requires TurnedAway(s, c)
    ensures TurnedAway(Step(s, e), c)
  {
    hide Payload;
  }

  lemma {:induction false} RunLeavesAway(s: Server, es: seq<Event>, c: Conn)
    requires TurnedAway(s, c)
    ensures TurnedAway(Run(s, es), c)
    decreases |es|
  {
    hide Step, TurnedAway;
    if es != [] {
      StepLeavesAway(s, es[0], c);
      RunLeavesAway(Step(s, es[0]), es[1..], c);
    }
  }

  /** One viewer at a time: on every run, a connection that came while another was active is never sent a byte, whatever
      happens later. */
  lemma SecondConnectionGetsNothing(es: seq<Event>, c: Conn, more: seq<Event>)
    requires var s := Run(INITIAL, es); s.active.Some? && c !in s.streams
    ensures var t := Run(Step(Run(INITIAL, es), Incoming(c)), more); StreamOf(t, c) == [] && t.active != Some(c)
  {
    hide Run;
    var s := Run(INITIAL, es);
    NothingDropped();
    RunKeepsKnown(INITIAL, es);
    RunLeavesAway(Step(s, Incoming(c)), more, c);
  }

  /** The end of a connection or a stop makes room for the next one, which starts with a header to come; a stop also
      ends the listening, while an end returns to it. */
  lemma EveryEndMakesRoom(s: Server, e: Event, c: Conn)
    requires e.Ended? || e.Stop?
    requires c !in s.streams
    ensures var t := Step(s, e);
      && t.active.None?
      && t.pending == s.pending && t.streams == s.streams && t.sending == s.sending
      && (t.listening <==> s.listening && !e.Stop?)
      && t.state == (if t.listening then Listening else Stopped)
      && Step(t, Incoming(c)).active == Some(c) && !Step(t, Incoming(c)).headerSent
  {
  }

  /** Whatever happened before, a late write to an ended connection included, the next connection starts without a
      header, so its first NAL brings one. */
  lemma NewConnectionGetsHeader(s: Server, c: Conn, nal: WireNal, header: StreamHeader, vital: bool)
    requires s.active.None? && s.sending.None? && c !in s.streams
    ensures var t := Step(s, Incoming(c));
      && t.active == Some(c) && !t.headerSent && StreamOf(t, c) == []
      && (vital || s.pending <= 4194304 ==>
            StreamOf(Step(Step(t, Begin(nal, header, vital)), Commit), c) == Encode(header) + Frame(nal))
  {
    hide Encode, Frame;
    assert [] + (Encode(header) + Frame(nal)) == Encode(header) + Frame(nal);
  }

  /** The state that is shown follows the listener and the connections; sends leave it alone. */
  lemma StateFollows(s: Server, e: Event)
    ensures var t := Step(s, e).state;
      match e
      case ListenerReady => t == Listening
      case ListenerFailed => t == Failed
      case ListenerCancelled => t == Stopped
      case Stop => t == Stopped
      case Ready(_) => t == Streaming
      case Ended(_) => t == if s.listening then Listening else Stopped
      case _ => t == s.state
  {
    hide Payload;
  }
}
