/** Phone to PC: the bytes of any connection of any run of the server, cut into any fragments, and what the
    receiver makes of them. */
module VideoPath {
  import opened Bytes
  import opened Avcc
  import opened VideoServer
  import opened VideoServerRuns
  import opened VideoBackpressure
  import V = VideoReceiver

  /** The NALs in front of the first one the receiver refuses (empty, or over 16 MiB). */
  function GoodRun(ns: seq<Nal>): seq<Nal> {
    if ns == [] || !V.GoodSize(|ns[0]|) then [] else [ns[0]] + GoodRun(ns[1..])
  }

  lemma {:induction false} GoodRunIsAllIff(ns: seq<Nal>)
    ensures GoodRun(ns) == ns <==> forall n <- ns :: 1 <= |n| <= 16777216
    ensures GoodRun(ns) <= ns
    decreases |ns|
  {
    if ns != [] {
      GoodRunIsAllIff(ns[1..]);
      assert ns == [ns[0]] + ns[1..];
      if GoodRun(ns) == ns { assert GoodRun(ns)[1..] == ns[1..]; }
    }
  }

  lemma FrameAhead(n: Nal, rest: seq<byte>)
    requires |n| < 0x1_0000_0000
    ensures var s := Frame(n) + rest;
      && |s| == 4 + |n| + |rest| && GetU32BE(s, 0) == |n| && s[4..4 + |n|] == n && s[4 + |n|..] == rest
  {
    var s := Frame(n) + rest;
    assert s[0..4] == U32BE(|n|);
    ReadU32BE(s, 0, |n|);
  }

  /** The receiver takes framed NALs apart again, up to the first it refuses. */
  lemma {:induction false} FramesTakenApart(ns: seq<Nal>)
    requires forall n <- ns :: |n| < 0x1_0000_0000
    ensures V.Units(Frames(ns)) == GoodRun(ns)
    decreases |ns|
  {
    hide Frame;
    if ns != [] {
      FrameAhead(ns[0], Frames(ns[1..]));
      FramesTakenApart(ns[1..]);
    }
  }

  /** What has been read of a stream so far yields the first units of the whole stream. */
  lemma {:induction false} PrefixYieldsPrefix(p: seq<byte>, s: seq<byte>)
    requires p <= s
    ensures V.Units(p) <= V.Units(s)
    decreases |p|
  {
    if V.UnitAhead(p) {
      assert GetU32BE(p, 0) == GetU32BE(s, 0);
      assert V.Unit(p) == V.Unit(s);
      assert V.Behind(p) <= V.Behind(s);
      PrefixYieldsPrefix(V.Behind(p), V.Behind(s));
    }
  }

  lemma {:induction false} AnnexBPrefix(a: seq<Nal>, b: seq<Nal>)
    requires a <= b
    ensures V.AnnexBAll(a) <= V.AnnexBAll(b)
  {
  }

  function InfoOf(h: StreamHeader): V.Info { V.Info(CodecByte(h.codec), h.width, h.height, h.fps) }

  /** The eleven bytes, one by one. */
  lemma HeaderByByte(h: StreamHeader)
    ensures Encode(h) == [0x56, 0x43, 0x4D, 0x44, 1, if h.codec == H264 then 1 else 2,
                          h.width / 256, h.width % 256, h.height / 256, h.height % 256, h.fps]
  {
    assert U32BE(MAGIC) == [0x56, 0x43, 0x4D, 0x44];
  }

  lemma HeaderReadBack(h: StreamHeader, s: seq<byte>)
    requires Encode(h) <= s
    ensures V.ParseHeader(s) == Some(InfoOf(h)) && |s| >= V.HEADER_SIZE
  {
    hide Encode;
    var e := Encode(h);
    var w, x := U16BE(h.width), U16BE(h.height);
    HeaderByByte(h);
    assert w == [e[6], e[7]] && x == [e[8], e[9]];
    assert forall i | 0 <= i < HEADER_SIZE :: s[i] == e[i];
    assert s[..4] == [0x56, 0x43, 0x4D, 0x44];
    assert s[6..8] == w && s[8..10] == x;
    ReadU16BE(s, 6, h.width);
    ReadU16BE(s, 8, h.height);
  }

  /** The receiver accepts a header, and reads it so, if and only if its eleven bytes are there and say so: the magic
      number, version 1, any codec byte, size and rate. */
  lemma HeaderAcceptedIff(s: seq<byte>, i: V.Info)
    ensures V.ParseHeader(s) == Some(i) <==>
      |s| >= 11 && s[..11] == [0x56, 0x43, 0x4D, 0x44, 1, i.codec,
                               i.width / 256, i.width % 256, i.height / 256, i.height % 256, i.fps]
  {
    if |s| >= 11 {
      var t := s[..11];
      assert forall k | 0 <= k < 11 :: t[k] == s[k];
      assert s[..4] == [s[0], s[1], s[2], s[3]];
      assert t == [s[0], s[1], s[2], s[3], s[4], s[5], s[6], s[7], s[8], s[9], s[10]];
    }
  }

  /** What a connection's bytes are worth to the receiver. */
  lemma WireTakenApart(kept: seq<Offer>, delivered: seq<byte>)
    requires kept != [] && delivered <= Wire(kept) && |delivered| >= HEADER_SIZE
    ensures V.ParseHeader(delivered) == Some(InfoOf(kept[0].header))
    ensures V.Units(delivered[HEADER_SIZE..]) <= GoodRun(Nals(kept))
    ensures delivered == Wire(kept) ==> V.Units(delivered[HEADER_SIZE..]) == GoodRun(Nals(kept))
  {
    hide Encode, Frames, Nals, GoodRun, V.Units, V.ParseHeader, Frame;
    var e, f := Encode(kept[0].header), Frames(Nals(kept));
    assert Wire(kept) == e + f;
    assert e <= delivered by { assert delivered[..HEADER_SIZE] == (e + f)[..HEADER_SIZE] == e; }
    HeaderReadBack(kept[0].header, delivered);
    FramesTakenApart(Nals(kept));
    var d := delivered[HEADER_SIZE..];
    assert Wire(kept)[HEADER_SIZE..] == f;
    assert d <= f;
    PrefixYieldsPrefix(d, f);
  }

  /** END TO END: take any run of the server in which the flags are right and any connection that was sent
      something; deliver any part of its bytes, cut anywhere.  The receiver accepts the header of the first NAL
      kept as soon as it is there, and hands the decoder, each behind a start code, the kept NALs in order: a
      prefix of them if Stop strikes, those whose bytes were delivered otherwise, up to the first refused
      size. */
  method Transmit(ghost es: seq<Event>, c: Conn, chunks: seq<seq<byte>>, polls: nat)
    returns (info: Option<V.Info>, emitted: seq<seq<byte>>, left: nat)
    requires FlagsRight(INITIAL, es) && c in Run(INITIAL, es).streams
    requires Kept(OffersOf(Run(INITIAL, es), c)) != []
    requires Flatten(chunks) <= Run(INITIAL, es).streams[c]
    ensures var kept := Kept(OffersOf(Run(INITIAL, es), c));
      var all := V.AnnexBAll(GoodRun(Nals(kept)));
      && (info.Some? ==> info == Some(InfoOf(kept[0].header)))
      && emitted <= all
      && (left > 0 && |Flatten(chunks)| >= HEADER_SIZE ==>
            info.Some? && emitted == V.AnnexBAll(V.Units(Flatten(chunks)[HEADER_SIZE..])))
      && (left > 0 && Flatten(chunks) == Run(INITIAL, es).streams[c] ==> info.Some? && emitted == all)
    ensures Roomy(INITIAL, es) && Run(INITIAL, es).sending.None? && left > 0
            && Flatten(chunks) == Run(INITIAL, es).streams[c]
            && (forall a <- Begun(INITIAL, es, c) :: 1 <= |a.nal| <= 16777216) ==>
              emitted == Played(Begun(INITIAL, es, c))
  {
    hide Begun, Played, Roomy, AskedOf, Run, FlagsRight, Kept, Wire, V.Units, V.AnnexBAll, Flatten,
      V.ParseHeader, GoodRun, Nals, Encode;
    ghost var delivered := Flatten(chunks);
    ghost var kept := Kept(OffersOf(Run(INITIAL, es), c));
    EveryStreamIsWellFormed(es, c);
    WireHasHeader(kept);
    var receiver := new V.Receiver(chunks, polls);
    assert receiver.Ahead() == delivered;
    info := receiver.Worker();
    emitted, left := receiver.emitted, receiver.polls;
    if |delivered| >= HEADER_SIZE {
      WireTakenApart(kept, delivered);
      AnnexBPrefix(V.Units(delivered[HEADER_SIZE..]), GoodRun(Nals(kept)));
    }
    if Roomy(INITIAL, es) && Run(INITIAL, es).sending.None? {
      NothingIsDroppedIff(es);
      OffersAreWhatWasAsked(es, c);
      if forall a <- Begun(INITIAL, es, c) :: 1 <= |a.nal| <= 16777216 { AllPlayed(OffersOf(Run(INITIAL, es), c)); }
    }
  }

  /** What the decoder is handed for a list of NALs: each behind its start code. */
  function Played(asked: seq<Asked>): seq<seq<byte>>
    decreases |asked|
  {
    if asked == [] then [] else Played(asked[..|asked| - 1]) + [[0, 0, 0, 1] + asked[|asked| - 1].nal]
  }

  lemma {:induction false} NalsSnoc(os: seq<Offer>, o: Offer)
    ensures Nals(os + [o]) == Nals(os) + [o.nal]
    decreases |os|
  {
    if os == [] {
      assert os + [o] == [o] && [o][1..] == [];
    } else {
      assert (os + [o])[1..] == os[1..] + [o];
      NalsSnoc(os[1..], o);
    }
  }

  lemma {:induction false} PlayedIsAnnexB(os: seq<Offer>)
    ensures V.AnnexBAll(Nals(os)) == Played(AskedOf(os))
    decreases |os|
  {
    if os != [] {
      var init, last := os[..|os| - 1], os[|os| - 1];
      assert os == init + [last];
      NalsSnoc(init, last);
      AskedSnoc(init, last);
      PlayedIsAnnexB(init);
      assert AskedOf(os)[..|AskedOf(os)| - 1] == AskedOf(init);
    }
  }

  lemma {:induction false} NalsAreAsked(os: seq<Offer>)
    requires forall a <- AskedOf(os) :: 1 <= |a.nal| <= 16777216
    ensures forall n <- Nals(os) :: 1 <= |n| <= 16777216
    decreases |os|
  {
    if os != [] {
      var init, last := os[..|os| - 1], os[|os| - 1];
      assert os == init + [last];
      NalsSnoc(init, last);
      AskedSnoc(init, last);
      assert Asked(last.nal, last.header, last.vital) in AskedOf(os);
      assert forall a <- AskedOf(init) :: a in AskedOf(os);
      NalsAreAsked(init);
    }
  }

  lemma AllPlayed(os: seq<Offer>)
    requires forall a <- AskedOf(os) :: 1 <= |a.nal| <= 16777216
    ensures V.AnnexBAll(GoodRun(Nals(os))) == Played(AskedOf(os))
  {
    hide V.AnnexBAll, Played, AskedOf, Nals, GoodRun;
    NalsAreAsked(os);
    GoodRunIsAllIff(Nals(os));
    PlayedIsAnnexB(os);
  }

  lemma WireHasHeader(kept: seq<Offer>)
    requires kept != []
    ensures |Wire(kept)| >= HEADER_SIZE
  {
  }

  lemma {:induction false} KeptAreOffered(os: seq<Offer>)
    ensures forall o :: o in Kept(os) <==> o in os && !o.dropped
    decreases |os|
  {
    if os != [] {
      var init, last := os[..|os| - 1], os[|os| - 1];
      KeptAreOffered(init);
      assert os == init + [last];
    }
  }

  /** In every run, no parameter set or keyframe that was offered to a connection is missing from what was
      kept for it. */
  lemma VitalNalsAreKept(es: seq<Event>, c: Conn, o: Offer)
    requires o in OffersOf(Run(INITIAL, es), c) && o.vital
    ensures o in Kept(OffersOf(Run(INITIAL, es), c))
  {
    hide Run, Kept;
    RunKeepsVital(INITIAL, es);
    KeptAreOffered(OffersOf(Run(INITIAL, es), c));
  }
}
