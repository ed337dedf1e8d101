/** The PC's raw-TCP receiver (windows/src/streaming/rawtcpreceiver.cpp): exact reads over a socket that
    delivers arbitrary fragments, the stream header, and the loop that turns every framed NAL unit into
    Annex B form.  Stop may strike before any read. */
module VideoReceiver {
  import opened Bytes
  import opened Avcc

  const MAX_NAL := 16 * 1024 * 1024
  const HEADER_SIZE := 11

  datatype Info = Info(codec: byte, width: uint16, height: uint16, fps: byte)

  /** Annex B of ITU-T H.264: start code and unit. */
  function AnnexB(nal: Nal): seq<byte> { [0, 0, 0, 1] + nal }

  // ---------- what a byte stream says ----------

  function ParseHeader(s: seq<byte>): Option<Info> {
    if |s| < HEADER_SIZE || s[..4] != [0x56, 0x43, 0x4D, 0x44] || s[4] != 1 then None
    else Some(Info(s[5], GetU16BE(s, 6), GetU16BE(s, 8), s[10]))
  }

  predicate GoodSize(n: nat) { 0 < n <= MAX_NAL }

  /** Is a whole acceptable unit at the front? */
  predicate UnitAhead(s: seq<byte>) {
    4 <= |s| && GoodSize(GetU32BE(s, 0)) && 4 + GetU32BE(s, 0) <= |s|
  }

  /** The units up to the first refused or incomplete one. */
  function Units(s: seq<byte>): seq<Nal>
    decreases |s|
  {
    if !UnitAhead(s) then [] else [Unit(s)] + Units(Behind(s))
  }

  function Unit(s: seq<byte>): Nal
    requires UnitAhead(s)
  {
    s[4..4 + GetU32BE(s, 0)]
  }

  function Behind(s: seq<byte>): (r: seq<byte>)
    requires UnitAhead(s)
    ensures |r| < |s|
  {
    s[4 + GetU32BE(s, 0)..]
  }

  function AnnexBAll(ns: seq<Nal>): (r: seq<seq<byte>>)
    ensures |r| == |ns| && forall i | 0 <= i < |ns| :: r[i] == AnnexB(ns[i])
  {
    if ns == [] then [] else [AnnexB(ns[0])] + AnnexBAll(ns[1..])
  }

  // ---------- the receiver ----------

  class Receiver {
    /** The fragments still to come, in order; no more of them means the peer has closed. */
    var chunks: seq<seq<byte>>
    /** How many more times the worker will still see isRunning as true. */
    var polls: nat
    /** What was handed to the decoder. */
    var emitted: seq<seq<byte>>

    ghost function Ahead(): seq<byte> reads this { Flatten(chunks) }

    constructor (chunks: seq<seq<byte>>, polls: nat)
      ensures this.chunks == chunks && this.polls == polls && emitted == []
    {
      this.chunks, this.polls, emitted := chunks, polls, [];
    }

    method IsRunning() returns (b: bool)
      modifies this`polls
      ensures b == (old(polls) > 0) && polls == if b then old(polls) - 1 else 0
    {
      b := polls > 0;
      if b { polls := polls - 1; }
    }

    /** read_some: whatever part of the next fragment fits; nothing means closed or failed. */
    method ReadSome(max: nat) returns (got: seq<byte>)
      requires max > 0
      modifies this`chunks
      ensures |got| <= max && old(Ahead()) == got + Ahead()
      ensures got == [] ==> Ahead() == []
      decreases |chunks|
    {
      hide Flatten;
      FlattenStep(chunks);
      if chunks == [] { return []; }
      var c := chunks[0];
      if c == [] { chunks := chunks[1..]; got := ReadSome(max); return; }
      got := if |c| <= max then c else c[..max];
      if |c| <= max {
        chunks := chunks[1..];
      } else {
        chunks := [c[max..]] + chunks[1..];
        FlattenStep(chunks);
        assert chunks[1..] == old(chunks)[1..];
        assert c == c[..max] + c[max..];
      }
    }

    method ReadExact(size: nat) returns (ok: bool, dst: seq<byte>)
      modifies this`chunks, this`polls
      ensures old(Ahead()) == dst + Ahead() && |dst| <= size && polls <= old(polls)
      ensures ok <==> |dst| == size
      ensures !ok && polls > 0 ==> |old(Ahead())| < size
    {
      dst := [];
      var run := true;
      while |dst| < size
        invariant old(Ahead()) == dst + Ahead() && |dst| <= size && polls <= old(polls)
        decreases size - |dst|
      {
        run := IsRunning();
        if !run { return false, dst; }
        var got := ReadSome(size - |dst|);
        if got == [] { return false, dst; }
        dst := dst + got;
      }
      return true, dst;
    }

    method ReadHeader() returns (info: Option<Info>)
      modifies this`chunks, this`polls
      ensures polls <= old(polls)
      ensures info.Some? ==> info == ParseHeader(old(Ahead())) && |old(Ahead())| >= HEADER_SIZE
                             && Ahead() == old(Ahead())[HEADER_SIZE..]
      ensures info.None? && polls > 0 ==> ParseHeader(old(Ahead())) == None
    {
      ghost var s := Ahead();
      var ok, hdr := ReadExact(HEADER_SIZE);
      if !ok { return None; }
      assert s[..HEADER_SIZE] == hdr && Ahead() == s[HEADER_SIZE..];
      assert s[..4] == hdr[..4];
      if hdr[0] != 0x56 || hdr[1] != 0x43 || hdr[2] != 0x4D || hdr[3] != 0x44 { return None; }
      if hdr[4] != 1 { return None; }
      return Some(Info(hdr[5], GetU16BE(hdr, 6), GetU16BE(hdr, 8), hdr[10]));
    }

    method ReadNalUnit() returns (annexB: Option<seq<byte>>)
      modifies this`chunks, this`polls
      ensures polls <= old(polls)
      ensures annexB.Some? ==>
        && UnitAhead(old(Ahead()))
        && annexB.value == AnnexB(Unit(old(Ahead()))) && Ahead() == Behind(old(Ahead()))
      ensures annexB.None? && polls > 0 ==> !UnitAhead(old(Ahead()))
    {
      ghost var s := Ahead();
      var ok, lengthBytes := ReadExact(4);
      if !ok { return None; }
      assert s[..4] == lengthBytes;
      var nalSize := GetU32BE(lengthBytes, 0);
      if nalSize == 0 || nalSize > MAX_NAL { return None; }
      ghost var t := Ahead();
      assert t == s[4..];
      var nal;
      ok, nal := ReadExact(nalSize);
      if !ok { return None; }
      assert t[..nalSize] == nal == s[4..4 + nalSize];
      assert t[nalSize..] == s[4 + nalSize..];
      return Some([0, 0, 0, 1] + nal);
    }

    /** WorkerFunc after the connect, without decoding. */
    method Worker() returns (info: Option<Info>)
      requires emitted == []
      modifies this
      ensures info.None? ==> emitted == [] && (polls > 0 ==> ParseHeader(old(Ahead())) == None)
      ensures info.Some? ==>
        && info == ParseHeader(old(Ahead())) && |old(Ahead())| >= HEADER_SIZE
        && emitted <= AnnexBAll(Units(old(Ahead())[HEADER_SIZE..]))
        && (polls > 0 ==> emitted == AnnexBAll(Units(old(Ahead())[HEADER_SIZE..])))
    {
      hide Units, AnnexBAll, UnitAhead, ParseHeader, Flatten, AnnexB, Unit, Behind;
      info := ReadHeader();
      if info.None? { return; }
      ghost var body := Ahead();
      while true
        invariant AnnexBAll(Units(body)) == emitted + AnnexBAll(Units(Ahead()))
        decreases |Ahead()|
      {
        var run := IsRunning();
        if !run { return; }
        UnitsStep(Ahead());
        var annexB := ReadNalUnit();
        if annexB.None? { return; }
        emitted := emitted + [annexB.value];
      }
    }
  }

  lemma FlattenStep(chunks: seq<seq<byte>>)
    ensures Flatten(chunks) == if chunks == [] then [] else chunks[0] + Flatten(chunks[1..])
  {
  }

  lemma UnitsStep(s: seq<byte>)
    ensures !UnitAhead(s) ==> AnnexBAll(Units(s)) == []
    ensures UnitAhead(s) ==> AnnexBAll(Units(s)) == [AnnexB(Unit(s))] + AnnexBAll(Units(Behind(s)))
  {
    hide AnnexB;
    if UnitAhead(s) { assert Units(s)[1..] == Units(Behind(s)); }
  }
}
