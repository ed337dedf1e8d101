/** Writing DNS names with compression (mdns_string_table_find/add and mdns_string_make,
    windows/3rdparty/mdns/mdns.h): the bytes written, and the ring of 16 earlier label offsets. */
module DnsCompression {
  import opened Bytes
  import opened DnsNames

  const RING_SIZE := 16
  const REF_LIMIT := 0x4000

  /** mdns_string_table_t. */
  datatype RingData = Ring(offsets: seq<nat>, count: nat, next: nat) {
    /** Until the ring is full the next free slot is the one behind the last entry. */
    predicate Shaped() {
      |offsets| == RING_SIZE && count <= RING_SIZE && next < RING_SIZE && (count < RING_SIZE ==> next == count)
    }

    function Add(offset: nat): Ring
      requires Shaped()
    {
      Ring(offsets[next := offset],
           if count + 1 > RING_SIZE then RING_SIZE else count + 1,
           if next + 1 >= RING_SIZE then 0 else next + 1)
    }
  }

  const EMPTY := Ring([0, 0, 0, 0, 0, 0, 0, 0, 0, 0, 0, 0, 0, 0, 0, 0], 0, 0)

  type Ring = r: RingData | r.Shaped() witness EMPTY

  const EMPTY_RING: Ring := EMPTY

  /** The whole buffer, the write position, and the table (None when the caller passes none). */
  datatype WriterData = Writer(buf: seq<byte>, pos: nat, ring: Option<Ring>) {
    function Out(): seq<byte>
      requires pos <= |buf|
    {
      buf[..pos]
    }
  }

  type Writer = w: WriterData | w.pos <= |w.buf| witness Writer([], 0, None)

  datatype Outcome = Done(w: Writer) | Full(w: Writer)

  function PutBytes(w: Writer, data: seq<byte>): (r: Writer)
    requires w.pos + |data| <= |w.buf|
    ensures |r.buf| == |w.buf| && r.pos == w.pos + |data| && r.ring == w.ring
    ensures r.Out() == w.Out() + data
  {
    Writer(w.buf[..w.pos] + data + w.buf[w.pos + |data|..], w.pos + |data|, w.ring)
  }

  function Remember(w: Writer, offset: nat): Writer {
    match w.ring
    case None => w
    case Some(r) => Writer(w.buf, w.pos, Some(r.Add(offset)))
  }

  // ---------- dotted text ----------

  function IndexOf(s: seq<byte>, c: byte): (r: Option<nat>)
    ensures r.Some? ==> r.value < |s| && s[r.value] == c && c !in s[..r.value]
    ensures r.None? ==> c !in s
  {
    if s == [] then None
    else if s[0] == c then Some(0)
    else match IndexOf(s[1..], c)
      case None => None
      case Some(i) => assert s[..i + 1] == [s[0]] + s[1..][..i]; Some(i + 1)
  }

  function Head(s: seq<byte>): Label {
    match IndexOf(s, DOT) case None => s case Some(p) => s[..p]
  }

  function Rest(s: seq<byte>): (r: seq<byte>)
    ensures s != [] ==> |r| < |s|
  {
    match IndexOf(s, DOT) case None => [] case Some(p) => s[p + 1..]
  }

  function Split(s: seq<byte>): seq<Label>
    decreases |s|
  {
    if s == [] then [] else [Head(s)] + Split(Rest(s))
  }

  /** The labels of a C name: one trailing dot is dropped, then the text is cut at its dots. */
  function LabelsOf(name: seq<byte>): seq<Label>
    requires name != []
  {
    Split(if name[|name| - 1] == DOT then name[..|name| - 1] else name)
  }

  // ---------- the encoder ----------

  /** The labels stored at cur begin with the wanted ones (the loop of mdns_string_table_find). */
  predicate Match(b: seq<byte>, cur: nat, wanted: seq<Label>)
    decreases |wanted|
  {
    wanted == [] ||
    var s := NextSubstring(b, cur);
    s.Sub? && s.length > 0 && b[s.offset..s.offset + s.length] == wanted[0]
    && Match(b, s.offset + s.length, wanted[1..])
  }

  function FindFrom(b: seq<byte>, ring: Ring, k: nat, wanted: seq<Label>): Option<nat>
    requires k <= ring.count
    decreases ring.count - k
  {
    if k == ring.count then None
    else if ring.offsets[k] < |b| && Match(b, ring.offsets[k], wanted) then Some(ring.offsets[k])
    else FindFrom(b, ring, k + 1, wanted)
  }

  function Find(w: Writer, wanted: seq<Label>): Option<nat> {
    if w.ring.None? then None else FindFrom(w.buf, w.ring.value, 0, wanted)
  }

  function LabelBytes(l: Label): seq<byte> { [|l| % 0x100] + l }

  /** 0xC000 | (uint16_t)target, big-endian. */
  function RefBytes(target: nat): seq<byte> { U16BE(0xC000 + target % REF_LIMIT) }

  function PutLabel(w: Writer, l: Label): (r: Writer)
    requires w.pos + |l| + 1 <= |w.buf|
    ensures |r.buf| == |w.buf| && r.pos == w.pos + |l| + 1
    ensures r.Out() == w.Out() + LabelBytes(l)
  {
    Remember(PutBytes(w, LabelBytes(l)), w.pos)
  }

  /** mdns_string_make on the labels still to be written. */
  function PutLabels(w: Writer, labels: seq<Label>): (r: Outcome)
    ensures |r.w.buf| == |w.buf| && w.pos <= r.w.pos && w.Out() <= r.w.Out()
    decreases |labels|
  {
    if labels == [] then
      if w.pos == |w.buf| then Full(w) else Done(PutBytes(w, [0]))
    else match Find(w, labels)
      case Some(target) =>
        if |w.buf| - w.pos < 2 then Full(w) else Done(PutBytes(w, RefBytes(target)))
      case None =>
        if |w.buf| - w.pos <= |labels[0]| + 1 then Full(w)
        else PutLabels(PutLabel(w, labels[0]), labels[1..])
  }

  lemma PutStep(w: Writer, l: Label, rest: seq<Label>)
    ensures PutLabels(w, [l] + rest) == match Find(w, [l] + rest)
      case Some(target) => if |w.buf| - w.pos < 2 then Full(w) else Done(PutBytes(w, RefBytes(target)))
      case None => if |w.buf| - w.pos <= |l| + 1 then Full(w) else PutLabels(PutLabel(w, l), rest)
  {
    assert ([l] + rest)[1..] == rest;
  }

  lemma PutNothing(w: Writer)
    ensures PutLabels(w, []) == if w.pos == |w.buf| then Full(w) else Done(PutBytes(w, [0]))
  {
  }
}
