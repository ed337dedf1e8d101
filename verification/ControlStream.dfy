/** Many packets: draining a buffer, and what fragmentation does to a control connection. */
module ControlStream {
  import opened Bytes
  import ByteIO
  import opened Control

  type Drained = Result<(seq<Command>, seq<byte>), Error>

  function Prepend(cs: seq<Command>, r: Drained): Drained {
    if r.Err? then r else Ok((cs + r.value.0, r.value.1))
  }

  /** Commands from the head of the buffer until it is empty; one bad packet spoils them all. */
  function DecodeAll(data: seq<byte>, utf8: ByteIO.Utf8): Drained
    decreases |data|
  {
    var step :- DecodeOne(data, utf8);
    if step.None? then Ok(([], data))
    else Prepend([step.value.0], DecodeAll(data[step.value.1..], utf8))
  }

  method DrainAll(data: seq<byte>, utf8: ByteIO.Utf8) returns (r: Drained)
    ensures r == DecodeAll(data, utf8)
  {
    hide DecodeOne;
    var buffer, out := data, [];
    assert Prepend([], DecodeAll(data, utf8)) == DecodeAll(data, utf8) by { PrependNothing(DecodeAll(data, utf8)); }
    while buffer != []
      invariant DecodeAll(data, utf8) == Prepend(out, DecodeAll(buffer, utf8))
      decreases |buffer|
    {
      var step :- DecodeOne(buffer, utf8);
      if step.None? { break; }
      PrependTwice(out, [step.value.0], DecodeAll(buffer[step.value.1..], utf8));
      out := out + [step.value.0];
      buffer := buffer[step.value.1..];
    }
    NothingDecodes(utf8);
    assert out + [] == out;
    return Ok((out, buffer));
  }

  lemma PrependNothing(r: Drained)
    ensures Prepend([], r) == r
  {
    if r.Ok? { assert [] + r.value.0 == r.value.0; }
  }

  lemma PrependTwice(a: seq<Command>, b: seq<Command>, r: Drained)
    ensures Prepend(a, Prepend(b, r)) == Prepend(a + b, r)
  {
    if r.Ok? { assert a + (b + r.value.0) == a + b + r.value.0; }
  }

  // ---------- packets in a row ----------

  function EncodeAll(calls: seq<Call>): seq<byte> {
    if calls == [] then [] else Encode(calls[0]) + EncodeAll(calls[1..])
  }

  function SentAll(calls: seq<Call>): (cs: seq<Command>)
    ensures |cs| == |calls|
  {
    if calls == [] then [] else [Sent(calls[0])] + SentAll(calls[1..])
  }

  predicate AllPackable(calls: seq<Call>, utf8: ByteIO.Utf8) { forall c <- calls :: Packable(c, utf8) }

  /** Decoding distributes over a packet boundary: whatever follows, the packets in front are read as sent. */
  lemma {:induction false} PacketsReadBack(calls: seq<Call>, rest: seq<byte>, utf8: ByteIO.Utf8)
    requires AllPackable(calls, utf8)
    ensures DecodeAll(EncodeAll(calls) + rest, utf8) == Prepend(SentAll(calls), DecodeAll(rest, utf8))
    decreases |calls|
  {
    hide DecodeOne, Packable, Encode, Sent, Prepend;
    if calls == [] {
      assert EncodeAll(calls) + rest == rest;
      PrependNothing(DecodeAll(rest, utf8));
    } else {
      var more := EncodeAll(calls[1..]) + rest;
      assert EncodeAll(calls) + rest == Encode(calls[0]) + more;
      CallReadsBack(calls[0], more, utf8);
      assert (Encode(calls[0]) + more)[|Encode(calls[0])|..] == more;
      PacketsReadBack(calls[1..], rest, utf8);
      PrependTwice([Sent(calls[0])], SentAll(calls[1..]), DecodeAll(rest, utf8));
    }
  }

  /** Any list of calls, concatenated, is decoded to that list with nothing left over. */
  lemma CommandsReadBack(calls: seq<Call>, utf8: ByteIO.Utf8)
    requires AllPackable(calls, utf8)
    ensures DecodeAll(EncodeAll(calls), utf8) == Ok((SentAll(calls), []))
  {
    hide DecodeOne, Packable, EncodeAll, SentAll;
    PacketsReadBack(calls, [], utf8);
    assert EncodeAll(calls) + [] == EncodeAll(calls);
    NothingDecodes(utf8);
    assert SentAll(calls) + [] == SentAll(calls);
  }

  lemma NothingDecodes(utf8: ByteIO.Utf8)
    ensures DecodeAll([], utf8) == Ok(([], []))
  {
  }

  /** A drain that succeeds leaves nothing: partial packets are never kept for later. */
  lemma {:induction false} NothingIsKept(data: seq<byte>, utf8: ByteIO.Utf8)
    ensures DecodeAll(data, utf8).Ok? ==> DecodeAll(data, utf8).value.1 == []
    decreases |data|
  {
    hide DecodeOne;
    var step := DecodeOne(data, utf8);
    if step.Ok? && step.value.Some? { NothingIsKept(data[step.value.value.1..], utf8); }
  }

  // ---------- a packet cut short ----------

  /** Not an activation and not an unknown opcode, which swallow the whole buffer. */
  predicate Plain(d: Command) { !d.Activate? && !d.Unknown? }

  function PacketSize(d: Command): nat
    requires Plain(d)
  {
    match d
    case SwapCamera => 1
    case SnapshotRequest => 1
    case ResetCameraToAuto => 1
    case SetBitrate(_) => 3
    case SetPortraitMode(_, _) => 3
    case SetResolution(_, _) => 5
    case SetAdaptiveBitrate(_, _) => 5
    case SetZoom(_) => 5
    case SetLensZoom(_) => 5
    case SetExposureCompensation(_) => 5
    case SetFocusLock(_) => 5
    case SetExposure(_, _) => 9
    case SetWhiteBalance(_, _) => 9
    case TapToFocus(_, _) => 9
    case CorrectionFilter(name, _) => 3 + |name|
    case EffectFilter(name) => 2 + |name|
    case _ => 2
  }

  /** What one step decoded, if anything. */
  predicate Decodes(data: seq<byte>, utf8: ByteIO.Utf8, d: Command, n: nat) {
    DecodeOne(data, utf8) == Ok(Some((d, n)))
  }

  /** On any bytes, the size of a packet can be told from the command it was read as. */
  lemma SizeOfPacket(data: seq<byte>, utf8: ByteIO.Utf8, d: Command, n: nat)
    requires Decodes(data, utf8, d, n) && Plain(d)
    ensures n == PacketSize(d)
  {
    hide Activation.Decode, ReadName, ReadU8, ReadU16, ReadU32;
  }

  lemma NameCut(b: seq<byte>, p: seq<byte>, utf8: ByteIO.Utf8)
    requires p <= b && ReadName(b, utf8).Ok?
    ensures var name := ReadName(b, utf8).value;
      if |p| < 1 + |name| then ReadName(p, utf8).Err? else ReadName(p, utf8) == Ok(name)
  {
    var name := ReadName(b, utf8).value;
    if |p| >= 1 + |name| { assert p[1..1 + |name|] == b[1..1 + |name|]; }
  }

  /** On any bytes: a packet cut short is an error, never a wait for more. */
  lemma CutPacketFails(data: seq<byte>, p: seq<byte>, utf8: ByteIO.Utf8, d: Command, n: nat)
    requires Decodes(data, utf8, d, n) && Plain(d) && p <= data && 0 < |p| < n
    ensures DecodeOne(p, utf8).Err?
  {
    hide Activation.Decode, ReadName, OneByteCommand, OneWordCommand, TwoWordCommand, GetU32LE, GetU16LE;
    var body := data[1..];
    assert p[0] == data[0] && p[1..] <= body;
    if ReadName(body, utf8).Ok? { NameCut(body, p[1..], utf8); }
  }

  lemma SentIsPlain(c: Call, utf8: ByteIO.Utf8)
    requires Packable(c, utf8)
    ensures Plain(Sent(c)) && PacketSize(Sent(c)) == |Encode(c)| > 0
    ensures Decodes(Encode(c), utf8, Sent(c), |Encode(c)|)
  {
    hide DecodeOne, Encode, PacketSize, Packable, U32LE, Low, High;
    CallReadsBack(c, [], utf8);
    assert Encode(c) + [] == Encode(c);
    SizeOfPacket(Encode(c), utf8, Sent(c), |Encode(c)|);
  }

  /** A buffer that ends inside a packet loses every command in it, the whole ones too. */
  lemma PartialPacketLosesBatch(calls: seq<Call>, c: Call, k: nat, utf8: ByteIO.Utf8)
    requires AllPackable(calls, utf8) && Packable(c, utf8) && 0 < k < |Encode(c)|
    ensures DecodeAll(EncodeAll(calls) + Encode(c)[..k], utf8).Err?
    ensures Delivered(EncodeAll(calls) + Encode(c)[..k], utf8) == []
  {
    hide DecodeOne, Encode, EncodeAll, SentAll, Packable, Sent;
    SentIsPlain(c, utf8);
    CutPacketFails(Encode(c), Encode(c)[..k], utf8, Sent(c), |Encode(c)|);
    PacketsReadBack(calls, Encode(c)[..k], utf8);
  }

  /** A filter's packet is read as one whole packet exactly when its name is at most 255 bytes of UTF-8. */
  lemma OnePacketIffNameFits(c: Call, utf8: ByteIO.Utf8)
    ensures Decodes(Encode(c), utf8, Sent(c), |Encode(c)|) <==> Packable(c, utf8)
  {
    hide DecodeOne, Low, High, PacketSize, U32LE;
    if Packable(c, utf8) {
      SentIsPlain(c, utf8);
    } else {
      NameMustFit(c, utf8);
    }
  }

  lemma NameMustFit(c: Call, utf8: ByteIO.Utf8)
    requires !Packable(c, utf8)
    ensures !Decodes(Encode(c), utf8, Sent(c), |Encode(c)|)
  {
    hide Activation.Decode, ReadName;
    var body := Encode(c)[1..];
    assert body[0] == Low(|c.name|);
    if Decodes(Encode(c), utf8, Sent(c), |Encode(c)|) {
      NameIsUtf8(body, utf8);
      assert false;
    }
  }

  lemma NameIsUtf8(b: seq<byte>, utf8: ByteIO.Utf8)
    requires ReadName(b, utf8).Ok?
    ensures utf8(ReadName(b, utf8).value)
  {
  }

  // ---------- the channel ----------

  /** What draining a buffer hands to the command handler. */
  function Delivered(data: seq<byte>, utf8: ByteIO.Utf8): seq<Command> {
    var r := DecodeAll(data, utf8);
    if r.Ok? then r.value.0 else []
  }

  function DeliveredAll(chunks: seq<seq<byte>>, utf8: ByteIO.Utf8): seq<Command> {
    if chunks == [] then [] else Delivered(chunks[0], utf8) + DeliveredAll(chunks[1..], utf8)
  }

  class ControlChannel {
    var inboundBuffer: seq<byte>
    const utf8: ByteIO.Utf8

    constructor (utf8: ByteIO.Utf8)
      ensures inboundBuffer == [] && this.utf8 == utf8
    {
      inboundBuffer := [];
      this.utf8 := utf8;
    }

    method DrainInboundBuffer() returns (commands: seq<Command>)
      modifies this
      ensures inboundBuffer == []
      ensures commands == Delivered(old(inboundBuffer), utf8)
    {
      hide DecodeAll;
      var drained := DrainAll(inboundBuffer, utf8);
      NothingIsKept(inboundBuffer, utf8);
      if drained.Ok? {
        inboundBuffer := drained.value.1;
        commands := drained.value.0;
      } else {
        inboundBuffer := [];
        commands := [];
      }
    }

    /** Whatever arrives, cut as it may be, is drained chunk by chunk, and the buffer is empty in between. */
    method ReceiveLoop(chunks: seq<seq<byte>>) returns (commands: seq<Command>)
      requires inboundBuffer == []
      modifies this
      ensures inboundBuffer == []
      ensures commands == DeliveredAll(chunks, utf8)
    {
      hide DecodeAll, Delivered;
      commands := [];
      var i: nat := 0;
      while i < |chunks|
        invariant i <= |chunks| && inboundBuffer == []
        invariant commands + DeliveredAll(chunks[i..], utf8) == DeliveredAll(chunks, utf8)
      {
        var data := chunks[i];
        NoneFromNothing(utf8);
        ghost var before := commands;
        if data != [] {
          inboundBuffer := inboundBuffer + data;
          var more := DrainInboundBuffer();
          assert [] + data == data;
          commands := commands + more;
        }
        assert chunks[i..][1..] == chunks[i + 1..];
        assert commands == before + Delivered(data, utf8);
        Regroup3(before, Delivered(data, utf8), DeliveredAll(chunks[i + 1..], utf8));
        i := i + 1;
      }
    }
  }

  lemma NoneFromNothing(utf8: ByteIO.Utf8)
    ensures Delivered([], utf8) == []
  {
  }

  // ---------- fragmentation ----------

  /** Every chunk is a run of whole packets. */
  predicate Aligned(chunks: seq<seq<byte>>, calls: seq<Call>)
    decreases |chunks|
  {
    if chunks == [] then calls == []
    else exists k | 0 <= k <= |calls| :: chunks[0] == EncodeAll(calls[..k]) && Aligned(chunks[1..], calls[k..])
  }

  lemma {:induction false} SentSplits(calls: seq<Call>, k: nat)
    requires k <= |calls|
    ensures SentAll(calls) == SentAll(calls[..k]) + SentAll(calls[k..])
    decreases k
  {
    hide Sent;
    if k == 0 {
      assert calls[0..] == calls && SentAll([]) == [];
    } else {
      SentSplits(calls[1..], k - 1);
      assert calls[..k][1..] == calls[1..][..k - 1] && calls[1..][k - 1..] == calls[k..];
      Regroup3([Sent(calls[0])], SentAll(calls[..k][1..]), SentAll(calls[k..]));
    }
  }

  lemma {:induction false} EncodingSplits(calls: seq<Call>, k: nat)
    requires k <= |calls|
    ensures EncodeAll(calls) == EncodeAll(calls[..k]) + EncodeAll(calls[k..])
    decreases k
  {
    hide Encode;
    if k == 0 {
      assert calls[0..] == calls && EncodeAll([]) == [];
    } else {
      EncodingSplits(calls[1..], k - 1);
      assert calls[..k][1..] == calls[1..][..k - 1] && calls[1..][k - 1..] == calls[k..];
      Regroup3(Encode(calls[0]), EncodeAll(calls[..k][1..]), EncodeAll(calls[k..]));
    }
  }

  lemma {:induction false} AlignedDelivers(chunks: seq<seq<byte>>, calls: seq<Call>, utf8: ByteIO.Utf8)
    requires AllPackable(calls, utf8) && Aligned(chunks, calls)
    ensures DeliveredAll(chunks, utf8) == SentAll(calls)
    decreases |chunks|
  {
    hide DecodeAll, EncodeAll, SentAll, Packable;
    if chunks != [] {
      var k :| 0 <= k <= |calls| && chunks[0] == EncodeAll(calls[..k]) && Aligned(chunks[1..], calls[k..]);
      SentSplits(calls, k);
      CommandsReadBack(calls[..k], utf8);
      AlignedDelivers(chunks[1..], calls[k..], utf8);
    }
  }

  predicate AllPlain(cs: seq<Command>) { forall d <- cs :: Plain(d) }

  function TotalSize(cs: seq<Command>): nat
    requires AllPlain(cs)
  {
    if cs == [] then 0 else PacketSize(cs[0]) + TotalSize(cs[1..])
  }

  lemma {:induction false} TotalSizeAdds(a: seq<Command>, b: seq<Command>)
    requires AllPlain(a) && AllPlain(b)
    ensures AllPlain(a + b) && TotalSize(a + b) == TotalSize(a) + TotalSize(b)
    decreases |a|
  {
    hide Plain, PacketSize;
    if a == [] {
      assert a + b == b;
    } else {
      assert (a + b)[1..] == a[1..] + b;
      TotalSizeAdds(a[1..], b);
    }
  }

  lemma {:induction false} SizeOfSent(calls: seq<Call>, utf8: ByteIO.Utf8)
    requires AllPackable(calls, utf8)
    ensures AllPlain(SentAll(calls)) && TotalSize(SentAll(calls)) == |EncodeAll(calls)|
    decreases |calls|
  {
    hide Plain, PacketSize, Packable, Encode, Sent;
    if calls != [] {
      SentIsPlain(calls[0], utf8);
      SizeOfSent(calls[1..], utf8);
      assert SentAll(calls)[1..] == SentAll(calls[1..]);
    }
  }

  /** Plain commands account for every byte of a buffer that decodes. */
  lemma {:induction false} SizeOfDecoded(data: seq<byte>, utf8: ByteIO.Utf8)
    requires DecodeAll(data, utf8).Ok? && AllPlain(DecodeAll(data, utf8).value.0)
    ensures TotalSize(DecodeAll(data, utf8).value.0) == |data|
    decreases |data|
  {
    hide DecodeOne, Plain, PacketSize;
    if data != [] {
      var step := DecodeOne(data, utf8).value.value;
      var rest := data[step.1..];
      var cs := DecodeAll(rest, utf8).value.0;
      var all := DecodeAll(data, utf8).value.0;
      assert all == [step.0] + cs && all[0] == step.0 && all[1..] == cs;
      SizeOfPacket(data, utf8, step.0, step.1);
      SizeOfDecoded(rest, utf8);
    }
  }

  predicate AllDecode(chunks: seq<seq<byte>>, utf8: ByteIO.Utf8) { forall b <- chunks :: DecodeAll(b, utf8).Ok? }

  lemma {:induction false} SizeOfDelivered(chunks: seq<seq<byte>>, utf8: ByteIO.Utf8)
    requires AllPlain(DeliveredAll(chunks, utf8))
    ensures TotalSize(DeliveredAll(chunks, utf8)) <= |Flatten(chunks)|
    ensures TotalSize(DeliveredAll(chunks, utf8)) == |Flatten(chunks)| ==> AllDecode(chunks, utf8)
    decreases |chunks|
  {
    hide DecodeAll, Plain, PacketSize;
    if chunks != [] {
      var first, rest := Delivered(chunks[0], utf8), DeliveredAll(chunks[1..], utf8);
      assert DeliveredAll(chunks, utf8) == first + rest;
      assert AllPlain(first) by { assert forall i | 0 <= i < |first| :: first[i] == (first + rest)[i]; }
      assert AllPlain(rest) by { assert forall i | 0 <= i < |rest| :: rest[i] == (first + rest)[|first| + i]; }
      TotalSizeAdds(first, rest);
      SizeOfDelivered(chunks[1..], utf8);
      NothingDecodes(utf8);
      if DecodeAll(chunks[0], utf8).Ok? { SizeOfDecoded(chunks[0], utf8); }
    }
  }

  lemma {:induction false} DecodingPrefixIsPackets(p: seq<byte>, calls: seq<Call>, utf8: ByteIO.Utf8) returns (k: nat)
    requires AllPackable(calls, utf8) && p <= EncodeAll(calls) && DecodeAll(p, utf8).Ok?
    ensures k <= |calls| && p == EncodeAll(calls[..k])
    decreases |calls|
  {
    hide DecodeOne, Encode, Sent, Packable;
    if p == [] {
      k := 0;
    } else {
      var e, rest := Encode(calls[0]), EncodeAll(calls[1..]);
      assert EncodeAll(calls) == e + rest;
      SentIsPlain(calls[0], utf8);
      if |p| < |e| {
        assert p == (e + rest)[..|p|] == e[..|p|];
        CutPacketFails(e, p, utf8, Sent(calls[0]), |e|);
        assert false;
      }
      var q := p[|e|..];
      assert p == e + q && q <= rest;
      CallReadsBack(calls[0], q, utf8);
      assert DecodeAll(p, utf8) == Prepend([Sent(calls[0])], DecodeAll(q, utf8));
      var j := DecodingPrefixIsPackets(q, calls[1..], utf8);
      k := j + 1;
      assert calls[..k][1..] == calls[1..][..j];
    }
  }

  lemma {:induction false} DecodingIsAligned(chunks: seq<seq<byte>>, calls: seq<Call>, utf8: ByteIO.Utf8)
    requires AllPackable(calls, utf8) && Flatten(chunks) == EncodeAll(calls) && AllDecode(chunks, utf8)
    ensures Aligned(chunks, calls)
    decreases |chunks|
  {
    hide DecodeAll, Packable, Encode;
    if chunks == [] {
      if calls != [] { SentIsPlain(calls[0], utf8); }
    } else {
      assert chunks[0] <= Flatten(chunks);
      var k := DecodingPrefixIsPackets(chunks[0], calls, utf8);
      EncodingSplits(calls, k);
      assert Flatten(chunks[1..]) == Flatten(chunks)[|chunks[0]|..] == EncodeAll(calls[k..]);
      DecodingIsAligned(chunks[1..], calls[k..], utf8);
    }
  }

  /** Cut a run of packets into chunks anywhere: the phone ends up with exactly the commands sent if and only
      if no cut falls inside a packet. */
  lemma DeliveredIffAligned(chunks: seq<seq<byte>>, calls: seq<Call>, utf8: ByteIO.Utf8)
    requires AllPackable(calls, utf8) && Flatten(chunks) == EncodeAll(calls)
    ensures DeliveredAll(chunks, utf8) == SentAll(calls) <==> Aligned(chunks, calls)
  {
    hide DeliveredAll, SentAll, EncodeAll, Aligned, Flatten, AllPackable, AllDecode, AllPlain, TotalSize;
    if Aligned(chunks, calls) {
      AlignedDelivers(chunks, calls, utf8);
    } else if DeliveredAll(chunks, utf8) == SentAll(calls) {
      SizeOfSent(calls, utf8);
      SizeOfDelivered(chunks, utf8);
      DecodingIsAligned(chunks, calls, utf8);
      assert false;
    }
  }
}
