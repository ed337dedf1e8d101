/** PC to phone: the ACTIVATION packet from the manager's choice of a device to the command the phone carries out,
    and what the control stream makes of opcodes it does not know. */
module ActivationPath {
  import opened Bytes
  import A = Activation
  import ByteIO
  import opened Control
  import opened ControlStream
  import opened DeviceLists

  type Name = seq<byte>

  function Packet(o: A.StreamOptions, order: seq<Name>): seq<byte>
    requires A.Enumerates(order, o.filters)
  {
    [0x02] + A.Body(o, order)
  }

  lemma PacketStep(body: seq<byte>, utf8: ByteIO.Utf8)
    ensures DecodeOne([0x02] + body, utf8) ==
      match A.Decode(body, utf8)
      case Ok(c) => Ok(Some((Activate(c), 1 + |body|)))
      case Err(e) => Err(BadActivation(e))
  {
    hide A.Decode;
    assert ([0x02] + body)[1..] == body;
  }

  /** The phone decodes the packet as one command that takes all of it and says what the options say if and only if
      every integer fits 32 unsigned bits, there are fewer than 65536 filters, and every string is UTF-8 of fewer
      than 65536 bytes. */
  lemma ActivationArrivesIff(o: A.StreamOptions, order: seq<Name>, utf8: ByteIO.Utf8)
    requires A.Enumerates(order, o.filters)
    ensures var p := Packet(o, order);
      var r := DecodeOne(p, utf8);
      && (r.Ok? ==> r.value.Some? && r.value.value.0.Activate? && r.value.value.1 == |p|)
      && (r.Ok? && A.SaysTheSame(r.value.value.0.configuration, o) <==> A.InRange(o) && A.Writable(o, utf8))
  {
    hide A.Decode, A.Body, DecodeOne, A.SaysTheSame, A.InRange, A.Writable;
    PacketStep(A.Body(o, order), utf8);
    A.ActivationReadsBackIff(o, order, utf8);
  }

  /** Any commands followed by an activation are carried out, the activation last. */
  lemma CommandsThenActivation(calls: seq<Call>, o: A.StreamOptions, order: seq<Name>, utf8: ByteIO.Utf8)
    returns (c: A.StreamConfiguration)
    requires AllPackable(calls, utf8) && A.Enumerates(order, o.filters) && A.InRange(o) && A.Writable(o, utf8)
    ensures A.SaysTheSame(c, o)
    ensures DecodeAll(EncodeAll(calls) + Packet(o, order), utf8) == Ok((SentAll(calls) + [Activate(c)], []))
  {
    hide A.Body, DecodeOne, A.SaysTheSame, A.InRange, A.Writable, EncodeAll, SentAll, Packable;
    var p := Packet(o, order);
    ActivationArrivesIff(o, order, utf8);
    c := DecodeOne(p, utf8).value.value.0.configuration;
    PacketsReadBack(calls, p, utf8);
    WholeBuffer(p, utf8);
  }

  lemma WholeBuffer(data: seq<byte>, utf8: ByteIO.Utf8)
    requires data != [] && DecodeOne(data, utf8).Ok? && DecodeOne(data, utf8).value.value.1 == |data|
    ensures DecodeAll(data, utf8) == Ok(([DecodeOne(data, utf8).value.value.0], []))
  {
    hide DecodeOne;
    NothingDecodes(utf8);
    var d := DecodeOne(data, utf8).value.value;
    assert data[d.1..] == [];
    assert DecodeAll(data, utf8) == Prepend([d.0], DecodeAll([], utf8));
    assert [d.0] + [] == [d.0];
  }

  /** Cut anywhere it is an error, and of the part that has arrived nothing is carried out. */
  lemma CutActivationFails(o: A.StreamOptions, order: seq<Name>, k: nat, utf8: ByteIO.Utf8)
    requires A.Enumerates(order, o.filters) && A.Writable(o, utf8) && 0 < k < |Packet(o, order)|
    ensures DecodeOne(Packet(o, order)[..k], utf8) == Err(BadActivation(A.Truncated))
    ensures Delivered(Packet(o, order)[..k], utf8) == []
  {
    hide A.Decode, A.Body, A.Writable;
    A.EveryPrefixIsTruncated(o, order, k - 1, utf8);
    var cut := A.Body(o, order)[..k - 1];
    assert Packet(o, order)[..k] == [0x02] + cut;
    PacketStep(cut, utf8);
  }

  /** SELECT, SEND, CARRY OUT: when the user selects a device, the packet that leaves is for its connection, and
      the phone at the other end, idle so far, carries out one command: the activation with the options that were
      chosen. */
  method SelectAndActivate(manager: Manager, k: nat, o: A.StreamOptions, order: seq<Name>, override: Option<Name>,
                           channel: ControlChannel, ghost chosen: Option<Device>)
    returns (target: Device, commands: seq<Command>)
    requires k < |manager.descriptors| && manager.descriptors[k].Live? && A.Enumerates(order, o.filters)
    requires Possible(manager.Seen(chosen), Selected(k))
    requires channel.inboundBuffer == [] && A.InRange(o) && A.Writable(o, channel.utf8)
    modifies manager`receiver, manager`streamingDevice, channel
    ensures target == old(manager.server.connections)[k]
    ensures |commands| == 1 && commands[0].Activate? && A.SaysTheSame(commands[0].configuration, o)
    ensures channel.inboundBuffer == [] && manager.streamingDevice == k
  {
    hide A.Body, DecodeOne, A.SaysTheSame, A.InRange, A.Writable, DecodeAll, Kept;
    var sent := manager.Connect2Stream(k, o, order, override, chosen);
    target := sent.value.0;
    assert sent.value.1 == Packet(o, order);
    commands := channel.ReceiveLoop([sent.value.1]);
    ghost var c := CommandsThenActivation([], o, order, channel.utf8);
    OneChunk(Packet(o, order), channel.utf8);
    NoCalls(Packet(o, order));
  }

  lemma OneChunk(data: seq<byte>, utf8: ByteIO.Utf8)
    ensures DeliveredAll([data], utf8) == Delivered(data, utf8)
  {
    hide Delivered;
    assert [data][1..] == [] && DeliveredAll([], utf8) == [];
    assert Delivered(data, utf8) + [] == Delivered(data, utf8);
  }

  lemma NoCalls(data: seq<byte>)
    ensures EncodeAll([]) + data == data
  {
    assert EncodeAll([]) == [];
  }

  // ---------- unknown opcodes ----------

  /** The opcodes the phone knows; 0x01 to 0x10 but 0x04, and 0x20 to 0x2B. */
  predicate KnownOpcode(op: byte) { (1 <= op <= 16 && op != 4) || 32 <= op <= 43 }

  /** Any other first byte makes the whole buffer one unknown command, which keeps the bytes behind it; nothing else is
      ever read as unknown. */
  lemma UnknownIff(data: seq<byte>, utf8: ByteIO.Utf8)
    requires data != []
    ensures !KnownOpcode(data[0]) ==> DecodeOne(data, utf8) == Ok(Some((Unknown(data[0], data[1..]), |data|)))
    ensures KnownOpcode(data[0]) ==> DecodeOne(data, utf8).Err? || !DecodeOne(data, utf8).value.value.0.Unknown?
  {
    hide A.Decode, ReadName, ReadU8, ReadU16, ReadU32;
  }

  /** So commands in front of one are carried out, and whatever is behind it is swallowed. */
  lemma UnknownSwallowsTheRest(calls: seq<Call>, op: byte, rest: seq<byte>, utf8: ByteIO.Utf8)
    requires AllPackable(calls, utf8) && !KnownOpcode(op)
    ensures DecodeAll(EncodeAll(calls) + ([op] + rest), utf8) == Ok((SentAll(calls) + [Unknown(op, rest)], []))
  {
    hide DecodeOne, EncodeAll, SentAll, Packable;
    var data := [op] + rest;
    assert data[1..] == rest;
    UnknownIff(data, utf8);
    PacketsReadBack(calls, data, utf8);
    WholeBuffer(data, utf8);
  }
}
