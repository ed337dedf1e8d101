/** The ACTIVATION packet: the stream options the PC serializes and the configuration the phone reads.
    Integers go out as their low 32 bits, booleans as 32-bit words. */
module Activation {
  import opened Bytes
  import ByteIO

  type Name = seq<byte>

  datatype StreamOptions = StreamOptions(
    fps: int, width: int, height: int, backCamera: bool, adaptive: bool,
    bitrate: int, minBitrate: int, maxBitrate: int, stabilization: bool, flash: bool, h265: bool,
    filters: map<Name, int>, effect: Name)

  datatype StreamConfiguration = StreamConfiguration(
    fps: uint32, width: uint32, height: uint32, backCamera: bool, adaptive: bool,
    bitrate: uint32, minBitrate: uint32, maxBitrate: uint32, stabilization: bool, flash: bool, h265: bool,
    filters: map<Name, uint32>, effect: Option<Name>)

  datatype Error = Truncated | MalformedString

  const OPCODE: byte := 0x02
  const WORDS: nat := 11

  // ---------- the serializer ----------

  function Wrap(x: int): uint32 { x % 0x1_0000_0000 }

  function Bit(b: bool): uint32 { if b then 1 else 0 }

  function Words(o: StreamOptions): (ws: seq<uint32>)
    ensures |ws| == WORDS
  {
    [Wrap(o.fps), Wrap(o.width), Wrap(o.height), Bit(o.backCamera), Bit(o.adaptive),
     Wrap(o.bitrate), Wrap(o.minBitrate), Wrap(o.maxBitrate), Bit(o.stabilization), Bit(o.flash), Bit(o.h265)]
  }

  function WordBytes(ws: seq<uint32>): (b: seq<byte>)
    ensures |b| == 4 * |ws|
  {
    if ws == [] then [] else WordBytes(ws[..|ws| - 1]) + U32BE(ws[|ws| - 1])
  }

  function FilterBytes(order: seq<Name>, filters: map<Name, int>): seq<byte>
    requires forall n <- order :: n in filters
  {
    if order == [] then [] else
    StringBytes(order[0]) + U32BE(Wrap(filters[order[0]])) + FilterBytes(order[1..], filters)
  }

  /** `order`: the order in which the map is walked, each key once. */
  predicate Enumerates(order: seq<Name>, filters: map<Name, int>) {
    && (forall n <- order :: n in filters)
    && (forall n <- filters :: n in order)
    && (forall i, j :: 0 <= i < j < |order| ==> order[i] != order[j])
  }

  function Body(o: StreamOptions, order: seq<Name>): seq<byte>
    requires Enumerates(order, o.filters)
  {
    WordBytes(Words(o)) + (U16BE(|order| % 0x1_0000) + (FilterBytes(order, o.filters) + StringBytes(o.effect)))
  }

  method WriteInt32(buffer: seq<byte>, value: int) returns (r: seq<byte>)
    ensures r == buffer + U32BE(Wrap(value))
  {
    var v := Wrap(value);
    r := buffer + [v / 0x100_0000];
    r := r + [v / 0x1_0000 % 0x100];
    r := r + [v / 0x100 % 0x100];
    r := r + [v % 0x100];
  }

  method WriteString(buffer: seq<byte>, s: Name) returns (r: seq<byte>)
    ensures r == buffer + StringBytes(s)
  {
    r := buffer + [|s| % 0x1_0000 / 0x100];
    r := r + [|s| % 0x100];
    assert |s| % 0x1_0000 % 0x100 == |s| % 0x100;
    r := r + s;
  }

  method WriteWord(buffer: seq<byte>, value: int, ghost ws: seq<uint32>, ghost i: nat) returns (r: seq<byte>)
    requires i < |ws| && Wrap(value) == ws[i] && buffer == [0] + WordBytes(ws[..i])
    ensures r == [0] + WordBytes(ws[..i + 1])
  {
    hide U32BE, Wrap;
    r := WriteInt32(buffer, value);
    assert ws[..i + 1][..i] == ws[..i];
  }

  method WriteHead(o: StreamOptions) returns (buffer: seq<byte>)
    ensures buffer == [0] + WordBytes(Words(o))
  {
    hide WordBytes, Wrap, Bit, Words;
    ghost var ws := Words(o);
    WordsAre(o);
    NoWords(ws);
    buffer := WriteWord([0], o.fps, ws, 0);
    buffer := WriteWord(buffer, o.width, ws, 1);
    buffer := WriteWord(buffer, o.height, ws, 2);
    buffer := WriteWord(buffer, Bit(o.backCamera), ws, 3);
    buffer := WriteWord(buffer, Bit(o.adaptive), ws, 4);
    buffer := WriteWord(buffer, o.bitrate, ws, 5);
    buffer := WriteWord(buffer, o.minBitrate, ws, 6);
    buffer := WriteWord(buffer, o.maxBitrate, ws, 7);
    buffer := WriteWord(buffer, Bit(o.stabilization), ws, 8);
    buffer := WriteWord(buffer, Bit(o.flash), ws, 9);
    buffer := WriteWord(buffer, Bit(o.h265), ws, 10);
    assert ws[..WORDS] == ws;
  }

  lemma WordsAre(o: StreamOptions)
    ensures var ws := Words(o);
      && Wrap(o.fps) == ws[0] && Wrap(o.width) == ws[1] && Wrap(o.height) == ws[2]
      && Wrap(Bit(o.backCamera)) == ws[3] && Wrap(Bit(o.adaptive)) == ws[4]
      && Wrap(o.bitrate) == ws[5] && Wrap(o.minBitrate) == ws[6] && Wrap(o.maxBitrate) == ws[7]
      && Wrap(Bit(o.stabilization)) == ws[8] && Wrap(Bit(o.flash)) == ws[9] && Wrap(Bit(o.h265)) == ws[10]
  {
  }

  lemma NoWords(ws: seq<uint32>)
    ensures [0] + WordBytes(ws[..0]) == [0]
  {
  }

  /** The packet, its first byte still the placeholder. */
  method SerializeStreamOptions(o: StreamOptions, order: seq<Name>) returns (buffer: seq<byte>)
    requires Enumerates(order, o.filters)
    ensures buffer == [0] + Body(o, order)
  {
    hide WordBytes, Words, StringBytes, U16BE, Enumerates, FilterBytes;
    assert forall n <- order :: n in o.filters by { Walks(order, o.filters); }
    buffer := WriteHead(o);
    ghost var head := WordBytes(Words(o));
    buffer := buffer + U16BE(|order| % 0x1_0000);
    buffer := WriteFilters(buffer, o, order);
    buffer := WriteString(buffer, o.effect);
    Regroup5([0], head, U16BE(|order| % 0x1_0000), FilterBytes(order, o.filters), StringBytes(o.effect));
  }

  lemma Walks(order: seq<Name>, filters: map<Name, int>)
    requires Enumerates(order, filters)
    ensures forall n <- order :: n in filters
  {
  }

  method WriteFilters(buffer: seq<byte>, o: StreamOptions, order: seq<Name>) returns (r: seq<byte>)
    requires forall n <- order :: n in o.filters
    ensures r == buffer + FilterBytes(order, o.filters)
  {
    hide StringBytes, U32BE, Wrap;
    r := buffer;
    var i: nat := 0;
    while i < |order|
      invariant i <= |order|
      invariant r + FilterBytes(order[i..], o.filters) == buffer + FilterBytes(order, o.filters)
    {
      ghost var done := r;
      r := WriteString(r, order[i]);
      r := WriteInt32(r, o.filters[order[i]]);
      assert order[i..][1..] == order[i + 1..];
      Regroup4(done, StringBytes(order[i]), U32BE(Wrap(o.filters[order[i]])), FilterBytes(order[i + 1..], o.filters));
      i := i + 1;
    }
  }

  // ---------- the decoder ----------

  function Present<T>(o: Option<T>): Result<T, Error> { if o.None? then Err(Truncated) else Ok(o.value) }

  function TakeU32(b: seq<byte>): Result<(uint32, seq<byte>), Error> {
    if |b| < 4 then Err(Truncated) else Ok((GetU32BE(b, 0), b[4..]))
  }

  function TakeName(b: seq<byte>, utf8: ByteIO.Utf8): (r: Result<(Name, seq<byte>), Error>)
    ensures r.Ok? ==> |r.value.1| < |b|
  {
    var s :- Present(TakeString(b));
    if utf8(s.0) then Ok(s) else Err(MalformedString)
  }

  function TakeFilters(b: seq<byte>, n: nat, filters: map<Name, uint32>, utf8: ByteIO.Utf8)
    : (r: Result<(map<Name, uint32>, seq<byte>), Error>)
    ensures r.Ok? ==> |r.value.1| <= |b|
  {
    if n == 0 then Ok((filters, b)) else
    var name :- TakeName(b, utf8);
    var value :- TakeU32(name.1);
    TakeFilters(value.1, n - 1, filters[name.0 := value.0], utf8)
  }

  function Configuration(head: seq<byte>, filters: map<Name, uint32>, effect: Name): StreamConfiguration
    requires |head| >= 4 * WORDS
  {
    StreamConfiguration(
      GetU32BE(head, 0), GetU32BE(head, 4), GetU32BE(head, 8), GetU32BE(head, 12) != 0, GetU32BE(head, 16) != 0,
      GetU32BE(head, 20), GetU32BE(head, 24), GetU32BE(head, 28),
      GetU32BE(head, 32) != 0, GetU32BE(head, 36) != 0, GetU32BE(head, 40) != 0,
      filters, if effect == [] then None else Some(effect))
  }

  function Decode(body: seq<byte>, utf8: ByteIO.Utf8): Result<StreamConfiguration, Error> {
    if |body| < 4 * WORDS then Err(Truncated) else
    var n :- Present(TakeU16(body[4 * WORDS..]));
    var filters :- TakeFilters(n.1, n.0, map[], utf8);
    var effect :- TakeName(filters.1, utf8);
    Ok(Configuration(body, filters.0, effect.0))
  }

  /** ByteReader's errors as the decoder reports them. */
  function Reported(e: ByteIO.Error): Error { if e.InvalidUTF8? then MalformedString else Truncated }

  method ReadWord(reader: ByteIO.ByteReader) returns (r: Result<uint32, Error>)
    requires reader.Valid()
    modifies reader
    ensures reader.Valid()
    ensures if old(reader.offset) + 4 <= |reader.bytes|
            then r == Ok(GetU32BE(reader.bytes, old(reader.offset))) && reader.offset == old(reader.offset) + 4
            else r == Err(Truncated)
  {
    var word := reader.ReadUInt32BE();
    if word.Err? { return Err(Reported(word.error)); }
    return Ok(word.value);
  }

  method ReadName(reader: ByteIO.ByteReader, utf8: ByteIO.Utf8) returns (r: Result<Name, Error>)
    requires reader.Valid()
    modifies reader
    ensures reader.Valid()
    ensures if r.Ok? then TakeName(old(reader.Rest()), utf8) == Ok((r.value, reader.Rest()))
            else TakeName(old(reader.Rest()), utf8) == Err(r.error)
  {
    ghost var b, o := reader.Rest(), reader.offset;
    var name := reader.ReadLengthPrefixedStringBE(utf8);
    if |b| >= 2 {
      ghost var n: nat := GetU16BE(b, 0);
      if 2 + n <= |b| { assert b[2..2 + n] == b[2..][..n]; }
    }
    if name.Err? { return Err(Reported(name.error)); }
    assert b[2..][|name.value|..] == reader.Rest();
    return Ok(name.value);
  }

  method ReadFilters(reader: ByteIO.ByteReader, count: nat, utf8: ByteIO.Utf8)
    returns (r: Result<map<Name, uint32>, Error>)
    requires reader.Valid()
    modifies reader
    ensures reader.Valid()
    ensures if r.Ok? then TakeFilters(old(reader.Rest()), count, map[], utf8) == Ok((r.value, reader.Rest()))
            else TakeFilters(old(reader.Rest()), count, map[], utf8) == Err(r.error)
  {
    hide TakeName, GetU32BE;
    var filters: map<Name, uint32> := map[];
    var i: nat := 0;
    while i < count
      invariant i <= count && reader.Valid()
      invariant TakeFilters(reader.Rest(), count - i, filters, utf8) ==
                TakeFilters(old(reader.Rest()), count, map[], utf8)
    {
      var name :- ReadName(reader, utf8);
      ghost var b := reader.Rest();
      ghost var at := reader.offset;
      var value :- ReadWord(reader);
      WordHere(reader.bytes, at);
      filters := filters[name := value];
      i := i + 1;
    }
    return Ok(filters);
  }

  lemma WordHere(b: seq<byte>, at: nat)
    requires at + 4 <= |b|
    ensures GetU32BE(b[at..], 0) == GetU32BE(b, at) && b[at..][4..] == b[at + 4..]
  {
  }

  method ReadHead(reader: ByteIO.ByteReader) returns (r: Result<StreamConfiguration, Error>)
    requires reader.Valid() && reader.offset == 0
    modifies reader
    ensures reader.Valid()
    ensures if |reader.bytes| < 4 * WORDS then r == Err(Truncated)
            else r == Ok(Configuration(reader.bytes, map[], [])) && reader.offset == 4 * WORDS
  {
    hide GetU32BE;
    var fps :- ReadWord(reader);
    var width :- ReadWord(reader);
    var height :- ReadWord(reader);
    var backCamera :- ReadWord(reader);
    var adaptive :- ReadWord(reader);
    var bitrate :- ReadWord(reader);
    var minBitrate :- ReadWord(reader);
    var maxBitrate :- ReadWord(reader);
    var stabilization :- ReadWord(reader);
    var flash :- ReadWord(reader);
    var h265 :- ReadWord(reader);
    return Ok(StreamConfiguration(
      fps, width, height, backCamera != 0, adaptive != 0, bitrate, minBitrate, maxBitrate,
      stabilization != 0, flash != 0, h265 != 0, map[], None));
  }

  method DecodeActivation(body: seq<byte>, utf8: ByteIO.Utf8) returns (r: Result<StreamConfiguration, Error>)
    ensures r == Decode(body, utf8)
  {
    hide GetU32BE, TakeFilters, TakeName;
    var reader := new ByteIO.ByteReader(body);
    var head :- ReadHead(reader);
    assert reader.Rest() == body[4 * WORDS..];
    var count := reader.ReadUInt16BE();
    if count.Err? { return Err(Reported(count.error)); }
    assert reader.Rest() == body[4 * WORDS..][2..];
    var filters :- ReadFilters(reader, count.value, utf8);
    var effect :- ReadName(reader, utf8);
    return Ok(head.(filters := filters, effect := if effect == [] then None else Some(effect)));
  }

  // ---------- what was written is what is read ----------

  lemma {:induction false} WordAt(ws: seq<uint32>, i: nat)
    requires i < |ws|
    ensures GetU32BE(WordBytes(ws), 4 * i) == ws[i]
    decreases |ws|
  {
    hide GetU32BE;
    var init, last := ws[..|ws| - 1], ws[|ws| - 1];
    var b := WordBytes(init) + U32BE(last);
    if i == |ws| - 1 {
      assert b[4 * i..4 * i + 4] == U32BE(last);
      ReadU32BE(b, 4 * i, last);
    } else {
      WordAt(init, i);
      SameWord(WordBytes(init), b, 4 * i);
    }
  }

  lemma SameWord(a: seq<byte>, b: seq<byte>, i: nat)
    requires i + 4 <= |a| && a <= b
    ensures GetU32BE(a, i) == GetU32BE(b, i)
  {
  }

  predicate FitsString(s: Name, utf8: ByteIO.Utf8) { |s| < 0x1_0000 && utf8(s) }

  lemma NameTaken(s: Name, rest: seq<byte>, utf8: ByteIO.Utf8)
    requires FitsString(s, utf8)
    ensures TakeName(StringBytes(s) + rest, utf8) == Ok((s, rest))
  {
    hide StringBytes, TakeString;
    StringTaken(s, rest);
  }

  lemma U32Taken(x: uint32, rest: seq<byte>)
    ensures TakeU32(U32BE(x) + rest) == Ok((x, rest))
  {
    var b := U32BE(x) + rest;
    assert b[0..4] == U32BE(x);
    ReadU32BE(b, 0, x);
  }

  /** The map with the remaining entries of the walk filled in. */
  function Filled(acc: map<Name, uint32>, order: seq<Name>, filters: map<Name, int>): map<Name, uint32>
    requires forall n <- order :: n in filters
    decreases |order|
  {
    if order == [] then acc else Filled(acc[order[0] := Wrap(filters[order[0]])], order[1..], filters)
  }

  lemma {:induction false} FiltersTaken(acc: map<Name, uint32>, order: seq<Name>, filters: map<Name, int>,
                                        rest: seq<byte>, utf8: ByteIO.Utf8)
    requires forall n <- order :: n in filters && FitsString(n, utf8)
    ensures TakeFilters(FilterBytes(order, filters) + rest, |order|, acc, utf8) ==
            Ok((Filled(acc, order, filters), rest))
    decreases |order|
  {
    hide StringBytes, TakeName, TakeU32, U32BE, FitsString, Wrap;
    if order == [] {
      assert FilterBytes(order, filters) + rest == rest;
    } else {
      var v := Wrap(filters[order[0]]);
      var more := FilterBytes(order[1..], filters) + rest;
      assert FilterBytes(order, filters) + rest == StringBytes(order[0]) + (U32BE(v) + more);
      NameTaken(order[0], U32BE(v) + more, utf8);
      U32Taken(v, more);
      FiltersTaken(acc[order[0] := v], order[1..], filters, rest, utf8);
    }
  }

  lemma {:induction false} FilledHolds(acc: map<Name, uint32>, order: seq<Name>, filters: map<Name, int>)
    requires forall n <- order :: n in filters
    ensures forall n :: n in Filled(acc, order, filters) <==> n in acc || n in order
    ensures forall n <- order :: Filled(acc, order, filters)[n] == Wrap(filters[n])
    ensures forall n <- acc :: n !in order ==> Filled(acc, order, filters)[n] == acc[n]
    decreases |order|
  {
    hide Wrap;
    if order != [] {
      FilledHolds(acc[order[0] := Wrap(filters[order[0]])], order[1..], filters);
    }
  }

  predicate Writable(o: StreamOptions, utf8: ByteIO.Utf8) {
    |o.filters| < 0x1_0000 && FitsString(o.effect, utf8) && forall n <- o.filters :: FitsString(n, utf8)
  }

  lemma {:induction false} DistinctLength(order: seq<Name>, names: set<Name>)
    requires forall n :: n in names <==> n in order
    requires forall i, j :: 0 <= i < j < |order| ==> order[i] != order[j]
    ensures |order| == |names|
    decreases |order|
  {
    if order == [] {
      assert names == {};
    } else {
      DistinctLength(order[1..], names - {order[0]});
    }
  }

  /** The configuration the phone arrives at. */
  function Received(o: StreamOptions): StreamConfiguration {
    StreamConfiguration(
      Wrap(o.fps), Wrap(o.width), Wrap(o.height), o.backCamera, o.adaptive,
      Wrap(o.bitrate), Wrap(o.minBitrate), Wrap(o.maxBitrate), o.stabilization, o.flash, o.h265,
      map n | n in o.filters :: Wrap(o.filters[n]), if o.effect == [] then None else Some(o.effect))
  }

  lemma HeadRead(o: StreamOptions, body: seq<byte>, i: nat)
    requires WordBytes(Words(o)) <= body && i < WORDS
    ensures GetU32BE(body, 4 * i) == Words(o)[i]
  {
    hide GetU32BE, Words, WordBytes;
    WordAt(Words(o), i);
    SameWord(WordBytes(Words(o)), body, 4 * i);
  }

  lemma ConfigurationRead(o: StreamOptions, body: seq<byte>)
    requires WordBytes(Words(o)) <= body
    ensures Configuration(body, map n | n in o.filters :: Wrap(o.filters[n]), o.effect) == Received(o)
  {
    hide GetU32BE, WordBytes, Wrap;
    HeadRead(o, body, 0); HeadRead(o, body, 1); HeadRead(o, body, 2); HeadRead(o, body, 3);
    HeadRead(o, body, 4); HeadRead(o, body, 5); HeadRead(o, body, 6); HeadRead(o, body, 7);
    HeadRead(o, body, 8); HeadRead(o, body, 9); HeadRead(o, body, 10);
  }

  lemma ActivationReadsBack(o: StreamOptions, order: seq<Name>, utf8: ByteIO.Utf8)
    requires Enumerates(order, o.filters) && Writable(o, utf8)
    ensures Decode(Body(o, order), utf8) == Ok(Received(o))
  {
    hide WordBytes, Words, StringBytes, TakeName, TakeFilters, Configuration, Received, Filled, FitsString;
    var body := Body(o, order);
    DistinctLength(order, o.filters.Keys);
    var tail := FilterBytes(order, o.filters) + StringBytes(o.effect);
    assert body[4 * WORDS..] == U16BE(|order|) + tail;
    U16Taken(|order|, tail);
    FiltersTaken(map[], order, o.filters, StringBytes(o.effect), utf8);
    NameTaken(o.effect, [], utf8);
    assert StringBytes(o.effect) + [] == StringBytes(o.effect);
    FilledHolds(map[], order, o.filters);
    assert Filled(map[], order, o.filters) == map n | n in o.filters :: Wrap(o.filters[n]);
    ConfigurationRead(o, body);
  }

  /** The phone's configuration says what the PC's options say. */
  predicate SaysTheSame(c: StreamConfiguration, o: StreamOptions) {
    && c.fps == o.fps && c.width == o.width && c.height == o.height
    && c.backCamera == o.backCamera && c.adaptive == o.adaptive
    && c.bitrate == o.bitrate && c.minBitrate == o.minBitrate && c.maxBitrate == o.maxBitrate
    && c.stabilization == o.stabilization && c.flash == o.flash && c.h265 == o.h265
    && c.filters.Keys == o.filters.Keys && (forall n <- o.filters :: c.filters[n] == o.filters[n])
    && c.effect == (if o.effect == [] then None else Some(o.effect))
  }

  predicate Unsigned32(x: int) { 0 <= x < 0x1_0000_0000 }

  predicate InRange(o: StreamOptions) {
    && Unsigned32(o.fps) && Unsigned32(o.width) && Unsigned32(o.height)
    && Unsigned32(o.bitrate) && Unsigned32(o.minBitrate) && Unsigned32(o.maxBitrate)
    && forall n <- o.filters :: Unsigned32(o.filters[n])
  }

  lemma WrapKeeps(x: int)
    requires Unsigned32(x)
    ensures Wrap(x) == x
  {
  }

  /** Whatever decodes has names of at most 16-bit length that are UTF-8, and no more than a count allows. */
  lemma {:induction false} TakenFiltersFit(b: seq<byte>, n: nat, acc: map<Name, uint32>, utf8: ByteIO.Utf8)
    requires TakeFilters(b, n, acc, utf8).Ok? && forall k <- acc :: FitsString(k, utf8)
    ensures var m := TakeFilters(b, n, acc, utf8).value.0;
      |m| <= |acc| + n && forall k <- m :: FitsString(k, utf8)
    decreases n
  {
    hide TakeName, TakeU32, FitsString;
    if n != 0 {
      var name := TakeName(b, utf8).value;
      var value := TakeU32(name.1).value;
      TakenNameFits(b, utf8);
      OneMoreKey(acc, name.0, value.0);
      TakenFiltersFit(value.1, n - 1, acc[name.0 := value.0], utf8);
    }
  }

  lemma TakenNameFits(b: seq<byte>, utf8: ByteIO.Utf8)
    requires TakeName(b, utf8).Ok?
    ensures FitsString(TakeName(b, utf8).value.0, utf8)
  {
    hide TakeString;
  }

  lemma OneMoreKey(m: map<Name, uint32>, k: Name, v: uint32)
    ensures |m[k := v]| <= |m| + 1
  {
    assert m[k := v].Keys == m.Keys + {k};
    assert |m.Keys + {k}| <= |m.Keys| + 1;
    assert |m[k := v]| == |m[k := v].Keys| && |m| == |m.Keys|;
  }

  lemma DecodedFits(body: seq<byte>, utf8: ByteIO.Utf8)
    requires Decode(body, utf8).Ok?
    ensures var c := Decode(body, utf8).value;
      && |c.filters| < 0x1_0000 && (forall k <- c.filters :: FitsString(k, utf8))
      && exists effect :: FitsString(effect, utf8) && c.effect == if effect == [] then None else Some(effect)
  {
    hide TakeName, TakeFilters, GetU32BE, FitsString;
    var n := TakeU16(body[4 * WORDS..]).value;
    TakenFiltersFit(n.1, n.0, map[], utf8);
    var filters := TakeFilters(n.1, n.0, map[], utf8).value;
    TakenNameFits(filters.1, utf8);
    var effect := TakeName(filters.1, utf8).value.0;
    assert FitsString(effect, utf8);
  }

  lemma SameFits(c: StreamConfiguration, o: StreamOptions, utf8: ByteIO.Utf8)
    requires SaysTheSame(c, o)
    requires |c.filters| < 0x1_0000 && forall k <- c.filters :: FitsString(k, utf8)
    requires exists effect :: FitsString(effect, utf8) && c.effect == if effect == [] then None else Some(effect)
    ensures InRange(o) && Writable(o, utf8)
  {
    hide FitsString;
    assert |o.filters| == |o.filters.Keys| && |c.filters| == |c.filters.Keys|;
  }

  /** Any activation at all is read back as what it says if and only if every integer in it fits 32 unsigned
      bits, there are fewer than 65536 filters, and every string is UTF-8 of fewer than 65536 bytes. */
  lemma ActivationReadsBackIff(o: StreamOptions, order: seq<Name>, utf8: ByteIO.Utf8)
    requires Enumerates(order, o.filters)
    ensures var r := Decode(Body(o, order), utf8);
      r.Ok? && SaysTheSame(r.value, o) <==> InRange(o) && Writable(o, utf8)
  {
    hide Decode, Body, Wrap, FitsString;
    if InRange(o) && Writable(o, utf8) {
      ActivationReadsBack(o, order, utf8);
      WrapKeeps(o.fps); WrapKeeps(o.width); WrapKeeps(o.height);
      WrapKeeps(o.bitrate); WrapKeeps(o.minBitrate); WrapKeeps(o.maxBitrate);
      forall n | n in o.filters ensures Wrap(o.filters[n]) == o.filters[n] { WrapKeeps(o.filters[n]); }
    }
    var r := Decode(Body(o, order), utf8);
    if r.Ok? && SaysTheSame(r.value, o) {
      DecodedFits(Body(o, order), utf8);
      SameFits(r.value, o, utf8);
    }
  }

  // ---------- strings that are no UTF-8 ----------

  lemma NameRefused(s: Name, rest: seq<byte>, utf8: ByteIO.Utf8)
    requires |s| < 0x1_0000 && !utf8(s)
    ensures TakeName(StringBytes(s) + rest, utf8) == Err(MalformedString)
  {
    hide StringBytes, TakeString;
    StringTaken(s, rest);
  }

  lemma {:induction false} FiltersRefused(acc: map<Name, uint32>, order: seq<Name>, filters: map<Name, int>,
                                          rest: seq<byte>, utf8: ByteIO.Utf8)
    requires (forall n <- order :: n in filters && |n| < 0x1_0000) && exists n <- order :: !utf8(n)
    ensures TakeFilters(FilterBytes(order, filters) + rest, |order|, acc, utf8) == Err(MalformedString)
    decreases |order|
  {
    hide StringBytes, TakeName, TakeU32, U32BE, Wrap;
    var v := Wrap(filters[order[0]]);
    var more := FilterBytes(order[1..], filters) + rest;
    assert FilterBytes(order, filters) + rest == StringBytes(order[0]) + (U32BE(v) + more);
    if utf8(order[0]) {
      NameTaken(order[0], U32BE(v) + more, utf8);
      U32Taken(v, more);
      FiltersRefused(acc[order[0] := v], order[1..], filters, rest, utf8);
    } else {
      NameRefused(order[0], U32BE(v) + more, utf8);
    }
  }

  /** Where every length fits, a string that is no UTF-8 is the one thing the phone complains of, by its own error. */
  lemma MalformedIff(o: StreamOptions, order: seq<Name>, utf8: ByteIO.Utf8)
    requires Enumerates(order, o.filters)
    requires |o.filters| < 0x1_0000 && |o.effect| < 0x1_0000 && forall n <- o.filters :: |n| < 0x1_0000
    ensures var r := Decode(Body(o, order), utf8);
      && (r == Err(MalformedString) <==> !utf8(o.effect) || exists n <- o.filters :: !utf8(n))
      && (r.Ok? <==> utf8(o.effect) && forall n <- o.filters :: utf8(n))
  {
    hide WordBytes, Words, StringBytes, TakeName, TakeFilters, Configuration, Filled;
    var body := Body(o, order);
    DistinctLength(order, o.filters.Keys);
    var tail := FilterBytes(order, o.filters) + StringBytes(o.effect);
    assert body[4 * WORDS..] == U16BE(|order|) + tail;
    U16Taken(|order|, tail);
    if n :| n in order && !utf8(n) {
      FiltersRefused(map[], order, o.filters, StringBytes(o.effect), utf8);
    } else {
      FiltersTaken(map[], order, o.filters, StringBytes(o.effect), utf8);
      assert StringBytes(o.effect) + [] == StringBytes(o.effect);
      if utf8(o.effect) { NameTaken(o.effect, [], utf8); } else { NameRefused(o.effect, [], utf8); }
    }
  }

  // ---------- a body cut short ----------

  lemma NameCut(b: seq<byte>, p: seq<byte>, utf8: ByteIO.Utf8)
    requires p <= b && TakeName(b, utf8).Ok?
    ensures var (s, rest) := TakeName(b, utf8).value;
      if |p| < |b| - |rest| then TakeName(p, utf8) == Err(Truncated)
      else TakeName(p, utf8) == Ok((s, p[|b| - |rest|..])) && p[|b| - |rest|..] <= rest
  {
    hide TakeString;
    StringCut(b, p);
  }

  lemma {:induction false} FiltersCut(b: seq<byte>, p: seq<byte>, n: nat, acc: map<Name, uint32>, utf8: ByteIO.Utf8)
    requires p <= b && TakeFilters(b, n, acc, utf8).Ok?
    ensures var rest := TakeFilters(b, n, acc, utf8).value.1;
      && |rest| <= |b|
      && (if |p| < |b| - |rest| then TakeFilters(p, n, acc, utf8) == Err(Truncated)
          else TakeFilters(p, n, acc, utf8).Ok?
               && TakeFilters(p, n, acc, utf8).value.0 == TakeFilters(b, n, acc, utf8).value.0
               && TakeFilters(p, n, acc, utf8).value.1 == p[|b| - |rest|..] <= rest)
    decreases n
  {
    hide TakeName, TakeFilters, GetU32BE;
    if n == 0 {
      NoFilters(b, acc, utf8);
      NoFilters(p, acc, utf8);
    } else {
      FilterAhead(b, n, acc, utf8);
      FilterAhead(p, n, acc, utf8);
      NameCut(b, p, utf8);
      var name := TakeName(b, utf8).value;
      if |p| >= |b| - |name.1| {
        var q := p[|b| - |name.1|..];
        if |q| >= 4 {
          SameWord(q, name.1, 0);
          FiltersCut(name.1[4..], q[4..], n - 1, acc[name.0 := GetU32BE(name.1, 0)], utf8);
        }
      }
    }
  }

  lemma NoFilters(b: seq<byte>, acc: map<Name, uint32>, utf8: ByteIO.Utf8)
    ensures TakeFilters(b, 0, acc, utf8) == Ok((acc, b))
  {
  }

  lemma FilterAhead(b: seq<byte>, n: nat, acc: map<Name, uint32>, utf8: ByteIO.Utf8)
    requires n > 0
    ensures var name := TakeName(b, utf8);
      TakeFilters(b, n, acc, utf8) ==
        if name.Err? then Err(name.error)
        else if |name.value.1| < 4 then Err(Truncated)
        else TakeFilters(name.value.1[4..], n - 1, acc[name.value.0 := GetU32BE(name.value.1, 0)], utf8)
  {
    hide TakeName, GetU32BE;
  }

  /** Where a body that decodes ends; what follows is ignored. */
  function End(body: seq<byte>, utf8: ByteIO.Utf8): nat
    requires Decode(body, utf8).Ok?
  {
    var n := TakeU16(body[4 * WORDS..]).value;
    var filters := TakeFilters(n.1, n.0, map[], utf8).value;
    var rest := TakeName(filters.1, utf8).value.1;
    |body| - |rest|
  }

  /** On any bytes: a body that decodes, cut anywhere before its end, is refused as truncated. */
  lemma CutIsTruncated(body: seq<byte>, p: seq<byte>, utf8: ByteIO.Utf8)
    requires Decode(body, utf8).Ok? && p <= body && |p| < End(body, utf8)
    ensures Decode(p, utf8) == Err(Truncated)
  {
    hide TakeName, TakeFilters, Configuration;
    if |p| >= 4 * WORDS + 2 {
      var b, q := body[4 * WORDS..], p[4 * WORDS..];
      assert q <= b && GetU16BE(q, 0) == GetU16BE(b, 0);
      var n := TakeU16(b).value;
      FiltersCut(n.1, q[2..], n.0, map[], utf8);
      var filters := TakeFilters(n.1, n.0, map[], utf8).value;
      if |q[2..]| >= |n.1| - |filters.1| {
        NameCut(filters.1, q[2..][|n.1| - |filters.1|..], utf8);
      }
    }
  }

  /** Every proper prefix of an encoding is refused as truncated. */
  lemma EveryPrefixIsTruncated(o: StreamOptions, order: seq<Name>, k: nat, utf8: ByteIO.Utf8)
    requires Enumerates(order, o.filters) && Writable(o, utf8) && k < |Body(o, order)|
    ensures Decode(Body(o, order)[..k], utf8) == Err(Truncated)
  {
    hide Decode, Body, End;
    ActivationReadsBack(o, order, utf8);
    BodyEnds(o, order, utf8);
    CutIsTruncated(Body(o, order), Body(o, order)[..k], utf8);
  }

  lemma BodyEnds(o: StreamOptions, order: seq<Name>, utf8: ByteIO.Utf8)
    requires Enumerates(order, o.filters) && Writable(o, utf8)
    requires Decode(Body(o, order), utf8).Ok?
    ensures End(Body(o, order), utf8) == |Body(o, order)|
  {
    hide WordBytes, Words, StringBytes, TakeName, TakeFilters, Configuration, Filled, FitsString;
    var body := Body(o, order);
    DistinctLength(order, o.filters.Keys);
    var tail := FilterBytes(order, o.filters) + StringBytes(o.effect);
    assert body[4 * WORDS..] == U16BE(|order|) + tail;
    U16Taken(|order|, tail);
    FiltersTaken(map[], order, o.filters, StringBytes(o.effect), utf8);
    NameTaken(o.effect, [], utf8);
    assert StringBytes(o.effect) + [] == StringBytes(o.effect);
  }
}
