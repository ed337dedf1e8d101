/** The phone's video server (ios/VCamdroidiOS/Sources/VCamdroidiOS/Networking/VideoStreamServer.swift): one
    active connection, a header before the first NAL of each connection, droppable NALs refused while too
    many bytes are outstanding.  Handlers are atomic; a send is two steps with anything in between: it looks
    at the connection and the outstanding bytes first, and writes later. */
module VideoServer {
  import opened Bytes
  import opened Avcc
  import opened ByteIO

  datatype Codec = H264 | H265

  datatype StreamHeader = StreamHeader(codec: Codec, width: uint16, height: uint16, fps: byte)

  const MAGIC: uint32 := 0x5643_4D44
  const VERSION: byte := 1
  const HEADER_SIZE := 11

  function CodecByte(c: Codec): byte { match c case H264 => 1 case H265 => 2 }

  function Encode(h: StreamHeader): (b: seq<byte>)
    ensures |b| == HEADER_SIZE
  {
    U32BE(MAGIC) + [VERSION] + [CodecByte(h.codec)] + U16BE(h.width) + U16BE(h.height) + [h.fps]
  }

  /** VideoStreamHeader.encode */
  method EncodeHeader(h: StreamHeader) returns (data: seq<byte>)
    ensures data == Encode(h)
  {
    var writer := new ByteWriter();
    writer.AppendUInt32BE(MAGIC);
    writer.AppendUInt8(VERSION);
    writer.AppendUInt8(CodecByte(h.codec));
    writer.AppendUInt16BE(h.width);
    writer.AppendUInt16BE(h.height);
    writer.AppendUInt8(h.fps);
    data := writer.bytes;
  }

  // ---------- the state machine ----------

  const HIGH_WATER_MARK: nat := 4 * 1024 * 1024

  type Conn = nat

  /** A NAL whose length fits the frame's length field. */
  type WireNal = n: Nal | |n| < 0x1_0000_0000 witness []

  datatype Phase = Stopped | Listening | Streaming | Failed

  /** A payload handed to the socket and not yet reported as processed. */
  datatype Flight = Flight(size: nat, vital: bool)

  /** A NAL offered while a connection was active; vital ones are parameter sets and keyframes. */
  datatype Offer = Offer(nal: WireNal, header: StreamHeader, vital: bool, dropped: bool)

  /** A send between its two steps. */
  datatype Sending = Sending(conn: Conn, nal: WireNal, header: StreamHeader, vital: bool)

  datatype Server = Server(state: Phase, listening: bool, active: Option<Conn>, headerSent: bool, pending: int,
                           inFlight: seq<Flight>, sending: Option<Sending>,
                           streams: map<Conn, seq<byte>>, offers: map<Conn, seq<Offer>>)

  const INITIAL := Server(Stopped, false, None, false, 0, [], None, map[], map[])

  datatype Event =
    | Start | ListenerReady | ListenerFailed | ListenerCancelled | Stop
    | Incoming(conn: Conn) | Ready(conn: Conn) | Ended(conn: Conn)
    | Begin(nal: WireNal, header: StreamHeader, vital: bool) | Commit | Completed(index: nat)

  function Payload(s: Server, p: Sending): seq<byte> {
    (if s.headerSent then [] else Encode(p.header)) + Frame(p.nal)
  }

  function StreamOf(s: Server, c: Conn): seq<byte> { if c in s.streams then s.streams[c] else [] }

  function OffersOf(s: Server, c: Conn): seq<Offer> { if c in s.offers then s.offers[c] else [] }

  function DoBegin(s: Server, nal: WireNal, header: StreamHeader, vital: bool): Server {
    if s.sending.Some? || s.active.None? then s else
    var c := s.active.value;
    if s.pending > HIGH_WATER_MARK && !vital
    then s.(offers := s.offers[c := OffersOf(s, c) + [Offer(nal, header, vital, true)]])
    else s.(sending := Some(Sending(c, nal, header, vital)))
  }

  function DoCommit(s: Server): Server {
    if s.sending.None? then s else
    var p := s.sending.value;
    var payload := Payload(s, p);
    s.(headerSent := true, pending := s.pending + |payload|,
       inFlight := s.inFlight + [Flight(|payload|, p.vital)], sending := None,
       streams := s.streams[p.conn := StreamOf(s, p.conn) + payload],
       offers := s.offers[p.conn := OffersOf(s, p.conn) + [Offer(p.nal, p.header, p.vital, false)]])
  }

  /** A connection already known is not new: every accepted or refused one has an entry. */
  function DoIncoming(s: Server, c: Conn): Server {
    if c in s.streams then s else
    var t := s.(streams := s.streams[c := []], offers := s.offers[c := []]);
    if s.active.Some? then t else t.(active := Some(c), headerSent := false)
  }

  function DoTearDown(s: Server): Server {
    s.(active := None, headerSent := false, state := if s.listening then Listening else Stopped)
  }

  function DoCompleted(s: Server, k: nat): Server {
    if k >= |s.inFlight| then s
    else s.(pending := s.pending - s.inFlight[k].size, inFlight := s.inFlight[..k] + s.inFlight[k + 1..])
  }

  function Step(s: Server, e: Event): Server {
    match e
    case Start => s.(listening := true)
    case ListenerReady => s.(state := Listening)
    case ListenerFailed => s.(state := Failed)
    case ListenerCancelled => s.(state := Stopped)
    case Stop => s.(active := None, listening := false, headerSent := false, state := Stopped)
    case Incoming(c) => DoIncoming(s, c)
    case Ready(_) => s.(state := Streaming)
    case Ended(_) => DoTearDown(s)
    case Begin(nal, header, vital) => DoBegin(s, nal, header, vital)
    case Commit => DoCommit(s)
    case Completed(k) => DoCompleted(s, k)
  }

  function Run(s: Server, es: seq<Event>): Server
    decreases |es|
  {
    if es == [] then s else Run(Step(s, es[0]), es[1..])
  }

  // ---------- the server as a class ----------

  class VideoStreamServer {
    var state: Phase
    var listening: bool
    var activeConnection: Option<Conn>
    var headerSent: bool
    var pendingSendBytes: int
    /** What the network has been handed: payloads still in flight and every connection's bytes so far. */
    var inFlight: seq<Flight>
    var streams: map<Conn, seq<byte>>
    ghost var offers: map<Conn, seq<Offer>>

    ghost function View(): Server
      reads this
    {
      Server(state, listening, activeConnection, headerSent, pendingSendBytes, inFlight, None, streams, offers)
    }

    constructor ()
      ensures View() == INITIAL
    {
      state, listening, activeConnection, headerSent := Stopped, false, None, false;
      pendingSendBytes, inFlight, streams, offers := 0, [], map[], map[];
    }

    method StartListening()
      modifies this
      ensures View() == Step(old(View()), Start)
    {
      if listening { return; }
      listening := true;
    }

    method StopListening()
      modifies this
      ensures View() == Step(old(View()), Stop)
    {
      activeConnection := None;
      listening := false;
      headerSent := false;
      state := Stopped;
    }

    method HandleIncoming(conn: Conn)
      requires conn !in streams
      modifies this
      ensures View() == Step(old(View()), Incoming(conn))
    {
      streams := streams[conn := []];
      offers := offers[conn := []];
      if activeConnection.Some? { return; }
      activeConnection := Some(conn);
      headerSent := false;
    }

    /** The connection's state handler on failure or cancellation; it does not ask whose end it is. */
    method TearDown(conn: Conn)
      modifies this
      ensures View() == Step(old(View()), Ended(conn))
    {
      activeConnection := None;
      headerSent := false;
      state := if listening then Listening else Stopped;
    }

    /** The contentProcessed completion of one payload. */
    method SendCompleted(k: nat)
      requires k < |inFlight|
      modifies this
      ensures View() == Step(old(View()), Completed(k))
    {
      pendingSendBytes := pendingSendBytes - inFlight[k].size;
      inFlight := inFlight[..k] + inFlight[k + 1..];
    }

    /** Completions striking while a send is under way. */
    method Complete(completed: seq<nat>, ghost sending: Option<Sending>)
      modifies this
      ensures View().(sending := sending) == CompleteAll(old(View()).(sending := sending), completed)
    {
      hide Frame;
      var i := 0;
      ghost var s := View().(sending := sending);
      while i < |completed|
        invariant 0 <= i <= |completed|
        invariant CompleteAll(s, completed) == CompleteAll(View().(sending := sending), completed[i..])
      {
        assert completed[i..][1..] == completed[i + 1..];
        if completed[i] < |inFlight| { SendCompleted(completed[i]); }
        i := i + 1;
      }
    }

    /** The second half of send: header if needed, frame, accounting, hand-over. */
    method Write(conn: Conn, nal: WireNal, header: StreamHeader, vital: bool)
      modifies this
      ensures View() == DoCommit(old(View()).(sending := Some(Sending(conn, nal, header, vital))))
    {
      hide Encode, Frame;
      var payload: seq<byte> := [];
      if !headerSent {
        payload := EncodeHeader(header);
        headerSent := true;
      }
      var f := FrameNal(nal);
      payload := payload + f;
      pendingSendBytes := pendingSendBytes + |payload|;
      inFlight := inFlight + [Flight(|payload|, vital)];
      streams := streams[conn := (if conn in streams then streams[conn] else []) + payload];
      offers := offers[conn := (if conn in offers then offers[conn] else []) + [Offer(nal, header, vital, false)]];
    }

    /** send(nal:header:isParameterSet:isKeyframe:); completed lists the completions that strike between the
        look at the outstanding bytes and the write. */
    method Send(nal: WireNal, header: StreamHeader, isParameterSet: bool, isKeyframe: bool, completed: seq<nat>)
      modifies this
      ensures View() == SendSteps(old(View()), nal, header, isParameterSet || isKeyframe, completed)
    {
      hide DoCommit, CompleteAll;
      if activeConnection.None? { return; }
      var conn := activeConnection.value;
      var outstanding := pendingSendBytes;
      var vital := isParameterSet || isKeyframe;
      if outstanding > HIGH_WATER_MARK && !vital {
        offers := offers[conn := (if conn in offers then offers[conn] else []) + [Offer(nal, header, vital, true)]];
        return;
      }
      ghost var sending := Some(Sending(conn, nal, header, vital));
      SendingStays(View().(sending := sending), completed);
      Complete(completed, sending);
      Write(conn, nal, header, vital);
    }
  }

  lemma {:induction false} SendingStays(s: Server, ks: seq<nat>)
    ensures CompleteAll(s, ks).sending == s.sending
    decreases |ks|
  {
    if ks != [] { SendingStays(DoCompleted(s, ks[0]), ks[1..]); }
  }

  function CompleteAll(s: Server, ks: seq<nat>): Server
    decreases |ks|
  {
    if ks == [] then s else CompleteAll(DoCompleted(s, ks[0]), ks[1..])
  }

  /** One whole send: begin, completions, and commit if the NAL was not refused. */
  function SendSteps(s: Server, nal: WireNal, header: StreamHeader, vital: bool, completed: seq<nat>): Server {
    var t := DoBegin(s, nal, header, vital);
    if t.sending.None? then t else DoCommit(CompleteAll(t, completed))
  }
}
