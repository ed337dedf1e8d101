/** The device descriptor a phone introduces itself with: the two phones' encoders and the PC's parser. */
module Descriptors {
  import opened Bytes
  import ByteIO

  type Name = seq<byte>

  datatype Resolution = Resolution(width: int, height: int)
  datatype Filter = Filter(name: Name, category: byte)

  datatype PhoneDescriptor = PhoneDescriptor(
    name: Name, url: Name, front: seq<Resolution>, back: seq<Resolution>, filters: seq<Filter>)

  datatype DeviceType = Android | IOS
  datatype Transport = Rtsp | RawTcp
  datatype Protocol = Udp | Tcp

  datatype HostDescriptor = HostDescriptor(
    name: Name, url: Name, protocol: Protocol, deviceType: DeviceType, transport: Transport,
    front: seq<Resolution>, back: seq<Resolution>, filters: map<byte, seq<Name>>)

  // ---------- the wire form ----------

  function Short(x: int): uint16 { x % 0x1_0000 }

  function ResolutionBytes(rs: seq<Resolution>): (b: seq<byte>)
    ensures |b| == 4 * |rs|
  {
    if rs == [] then [] else U16BE(Short(rs[0].width)) + U16BE(Short(rs[0].height)) + ResolutionBytes(rs[1..])
  }

  function FilterBytes(fs: seq<Filter>): seq<byte> {
    if fs == [] then [] else StringBytes(fs[0].name) + [fs[0].category] + FilterBytes(fs[1..])
  }

  /** A list of resolutions behind its length. */
  function ResolutionList(rs: seq<Resolution>): (b: seq<byte>)
    ensures |b| == 2 + 4 * |rs|
  {
    U16BE(Short(|rs|)) + ResolutionBytes(rs)
  }

  function FilterList(fs: seq<Filter>): seq<byte> { U16BE(Short(|fs|)) + FilterBytes(fs) }

  function WireBytes(d: PhoneDescriptor): seq<byte> {
    StringBytes(d.name) + (StringBytes(d.url) +
    (ResolutionList(d.front) + (ResolutionList(d.back) + FilterList(d.filters))))
  }

  // ---------- the iOS encoder ----------

  predicate Unsigned16(x: int) { 0 <= x < 0x1_0000 }

  predicate DimsFit(rs: seq<Resolution>) { forall r <- rs :: Unsigned16(r.width) && Unsigned16(r.height) }

  /** Every length fits its 16-bit prefix. */
  predicate Sized(d: PhoneDescriptor) {
    && |d.name| < 0x1_0000 && |d.url| < 0x1_0000
    && |d.front| < 0x1_0000 && |d.back| < 0x1_0000 && |d.filters| < 0x1_0000
    && forall f <- d.filters :: |f.name| < 0x1_0000
  }

  method WriteResolutions(writer: ByteIO.ByteWriter, rs: seq<Resolution>)
    requires |rs| < 0x1_0000 && DimsFit(rs)
    modifies writer
    ensures writer.bytes == old(writer.bytes) + ResolutionList(rs)
  {
    hide U16BE;
    writer.AppendUInt16BE(|rs|);
    ghost var head := writer.bytes;
    var i: nat := 0;
    while i < |rs|
      invariant i <= |rs|
      invariant writer.bytes + ResolutionBytes(rs[i..]) == head + ResolutionBytes(rs)
    {
      ghost var before := writer.bytes;
      assert rs[i] in rs;
      writer.AppendUInt16BE(rs[i].width);
      writer.AppendUInt16BE(rs[i].height);
      assert rs[i..][1..] == rs[i + 1..];
      Regroup4(before, U16BE(rs[i].width), U16BE(rs[i].height), ResolutionBytes(rs[i + 1..]));
      i := i + 1;
    }
    assert writer.bytes == head + ResolutionBytes(rs);
  }

  method WriteFilters(writer: ByteIO.ByteWriter, fs: seq<Filter>)
    requires |fs| < 0x1_0000 && forall f <- fs :: |f.name| < 0x1_0000
    modifies writer
    ensures writer.bytes == old(writer.bytes) + FilterList(fs)
  {
    hide U16BE;
    writer.AppendUInt16BE(|fs|);
    ghost var head := writer.bytes;
    var i: nat := 0;
    while i < |fs|
      invariant i <= |fs|
      invariant writer.bytes + FilterBytes(fs[i..]) == head + FilterBytes(fs)
    {
      ghost var before := writer.bytes;
      assert fs[i] in fs;
      writer.AppendLengthPrefixedStringBE(fs[i].name);
      assert writer.bytes == before + StringBytes(fs[i].name);
      writer.AppendUInt8(fs[i].category);
      assert fs[i..][1..] == fs[i + 1..];
      Regroup4(before, StringBytes(fs[i].name), [fs[i].category], FilterBytes(fs[i + 1..]));
      i := i + 1;
    }
    assert writer.bytes == head + FilterBytes(fs);
  }

  /** The iOS encoder traps on numbers that do not fit. */
  method Encode(d: PhoneDescriptor) returns (r: seq<byte>)
    requires Sized(d) && DimsFit(d.front) && DimsFit(d.back)
    ensures r == WireBytes(d)
  {
    hide ResolutionList, FilterList, U16BE;
    var writer := new ByteIO.ByteWriter();
    writer.AppendLengthPrefixedStringBE(d.name);
    writer.AppendLengthPrefixedStringBE(d.url);
    assert writer.bytes == StringBytes(d.name) + StringBytes(d.url);
    WriteResolutions(writer, d.front);
    WriteResolutions(writer, d.back);
    WriteFilters(writer, d.filters);
    r := writer.bytes;
    Regroup5(StringBytes(d.name), StringBytes(d.url), ResolutionList(d.front), ResolutionList(d.back),
             FilterList(d.filters));
  }

  // ---------- the Android encoder ----------

  /** A buffer of fixed capacity; putting past its end would throw. */
  class ByteBuffer {
    const hb: array<byte>
    var position: nat

    predicate Valid() reads this { position <= hb.Length }

    ghost function Written(): (s: seq<byte>)
      requires Valid()
      reads this, hb
      ensures |s| == position
    {
      hb[..position]
    }

    constructor (capacity: nat)
      ensures Valid() && fresh(hb) && hb.Length == capacity && Written() == []
    {
      hb := new byte[capacity](_ => 0);
      position := 0;
    }

    method Put(b: byte)
      requires Valid() && position < hb.Length
      modifies this, hb
      ensures Valid() && Written() == old(Written()) + [b]
    {
      hb[position] := b;
      position := position + 1;
    }

    method PutShort(x: int)
      requires Valid() && position + 2 <= hb.Length
      modifies this, hb
      ensures Valid() && Written() == old(Written()) + U16BE(Short(x))
    {
      Put(Short(x) / 0x100);
      Put(Short(x) % 0x100);
    }

    method PutBytes(s: seq<byte>)
      requires Valid() && position + |s| <= hb.Length
      modifies this, hb
      ensures Valid() && Written() == old(Written()) + s
    {
      ghost var before := Written();
      var p := position;
      forall i | 0 <= i < |s| { hb[p + i] := s[i]; }
      position := p + |s|;
      assert hb[..p] == before && hb[p..position] == s;
    }

    method PutString(s: Name)
      requires Valid() && position + 2 + |s| <= hb.Length
      modifies this, hb
      ensures Valid() && Written() == old(Written()) + StringBytes(s)
    {
      hide U16BE;
      ghost var before := Written();
      PutShort(|s|);
      PutBytes(s);
      assert Written() == before + StringBytes(s);
    }

    method PutResolutions(rs: seq<Resolution>)
      requires Valid() && position + |ResolutionList(rs)| <= hb.Length
      modifies this, hb
      ensures Valid() && Written() == old(Written()) + ResolutionList(rs)
    {
      hide U16BE, Short;
      PutShort(|rs|);
      ghost var head := Written();
      var i: nat := 0;
      while i < |rs|
        invariant i <= |rs| && Valid()
        invariant Written() + ResolutionBytes(rs[i..]) == head + ResolutionBytes(rs)
      {
        ghost var before := Written();
        assert position + 4 * (|rs| - i) == |head| + 4 * |rs|;
        PutShort(rs[i].width);
        PutShort(rs[i].height);
        assert rs[i..][1..] == rs[i + 1..];
        Regroup4(before, U16BE(Short(rs[i].width)), U16BE(Short(rs[i].height)), ResolutionBytes(rs[i + 1..]));
        i := i + 1;
      }
      assert Written() == head + ResolutionBytes(rs);
    }

    method PutFilters(fs: seq<Filter>)
      requires Valid() && position + |FilterList(fs)| <= hb.Length
      modifies this, hb
      ensures Valid() && Written() == old(Written()) + FilterList(fs)
    {
      hide U16BE, Short;
      PutShort(|fs|);
      ghost var head := Written();
      var i: nat := 0;
      while i < |fs|
        invariant i <= |fs| && Valid()
        invariant Written() + FilterBytes(fs[i..]) == head + FilterBytes(fs)
      {
        ghost var before := Written();
        assert |Written() + FilterBytes(fs[i..])| == |head + FilterBytes(fs)|;
        FilterAhead(fs[i..]);
        PutString(fs[i].name);
        Put(fs[i].category);
        assert fs[i..][1..] == fs[i + 1..];
        Regroup4(before, StringBytes(fs[i].name), [fs[i].category], FilterBytes(fs[i + 1..]));
        i := i + 1;
      }
      assert Written() == head + FilterBytes(fs);
    }
  }

  lemma FilterAhead(fs: seq<Filter>)
    requires fs != []
    ensures |FilterBytes(fs)| == 3 + |fs[0].name| + |FilterBytes(fs[1..])|
  {
  }

  method RequiredSize(d: PhoneDescriptor) returns (size: nat)
    ensures size == |WireBytes(d)|
  {
    hide ResolutionList, FilterBytes, StringBytes;
    size := 0;
    size := size + 2 + |d.name|;
    size := size + 2 + |d.url|;
    size := size + 2 + |d.front| * 4;
    size := size + 2 + |d.back| * 4;
    size := size + 2;
    var names := SumOfNames(d.filters);
    size := size + names;
    StringSize(d.name);
    StringSize(d.url);
  }

  /** The size computed beforehand is filled exactly: nothing overflows, and no byte of the buffer is left. */
  method Serialize(d: PhoneDescriptor) returns (buffer: array<byte>)
    ensures buffer[..] == WireBytes(d)
  {
    hide ResolutionList, FilterList, StringBytes;
    var requiredSize := RequiredSize(d);
    StringSize(d.name);
    StringSize(d.url);
    var bb := new ByteBuffer(requiredSize);
    bb.PutString(d.name);
    bb.PutString(d.url);
    bb.PutResolutions(d.front);
    bb.PutResolutions(d.back);
    bb.PutFilters(d.filters);
    Regroup5(StringBytes(d.name), StringBytes(d.url), ResolutionList(d.front), ResolutionList(d.back),
             FilterList(d.filters));
    FromNothing(StringBytes(d.name));
    assert bb.Written() == WireBytes(d);
    buffer := bb.hb;
  }

  lemma FromNothing(s: seq<byte>) ensures [] + s == s {}

  lemma StringSize(s: Name) ensures |StringBytes(s)| == 2 + |s| {}

  method SumOfNames(fs: seq<Filter>) returns (sum: nat)
    ensures sum == |FilterBytes(fs)|
  {
    sum := 0;
    var i: nat := 0;
    while i < |fs|
      invariant i <= |fs|
      invariant sum + |FilterBytes(fs[i..])| == |FilterBytes(fs)|
    {
      FilterAhead(fs[i..]);
      assert fs[i..][1..] == fs[i + 1..];
      sum := sum + 2 + |fs[i].name| + 1;
      i := i + 1;
    }
  }

  // ---------- the PC's parser ----------

  // The parser never looks at the size it is given; None stands for a read past the end of the bytes.

  function TakeResolutions(b: seq<byte>, n: nat): (r: Option<(seq<Resolution>, seq<byte>)>)
    ensures r.Some? <==> 4 * n <= |b|
    ensures r.Some? ==> |r.value.0| == n && r.value.1 == b[4 * n..]
  {
    if n == 0 then Some(([], b)) else
    if |b| < 4 then None else
    var rest :- TakeResolutions(b[4..], n - 1);
    Some(([Resolution(GetU16BE(b, 0), GetU16BE(b, 2))] + rest.0, rest.1))
  }

  function TakeResolutionList(b: seq<byte>): Option<(seq<Resolution>, seq<byte>)> {
    var n :- TakeU16(b);
    TakeResolutions(n.1, n.0)
  }

  function TakeFilters(b: seq<byte>, n: nat): (r: Option<(seq<Filter>, seq<byte>)>)
    ensures r.Some? ==> |r.value.1| <= |b|
  {
    if n == 0 then Some(([], b)) else
    var name :- TakeString(b);
    if |name.1| < 1 then None else
    var rest :- TakeFilters(name.1[1..], n - 1);
    Some(([Filter(name.0, name.1[0])] + rest.0, rest.1))
  }

  function TakeFilterList(b: seq<byte>): Option<(seq<Filter>, seq<byte>)> {
    var n :- TakeU16(b);
    TakeFilters(n.1, n.0)
  }

  /** filters[category].push_back(name). */
  function Push(m: map<byte, seq<Name>>, f: Filter): map<byte, seq<Name>> {
    m[f.category := (if f.category in m then m[f.category] else []) + [f.name]]
  }

  function Grouped(fs: seq<Filter>): map<byte, seq<Name>>
    decreases |fs|
  {
    if fs == [] then map[] else Push(Grouped(fs[..|fs| - 1]), fs[|fs| - 1])
  }

  const LOOPBACK: seq<byte> := [0x31, 0x32, 0x37, 0x2E, 0x30, 0x2E, 0x30, 0x2E, 0x31]

  predicate MatchesAt(s: seq<byte>, pattern: seq<byte>, i: nat) {
    i + |pattern| <= |s| && s[i..i + |pattern|] == pattern
  }

  predicate Contains(s: seq<byte>, pattern: seq<byte>) {
    exists i | 0 <= i <= |s| :: MatchesAt(s, pattern, i)
  }

  /** The URL begins with vcmd://, in either case. */
  predicate IsVcmd(url: Name) {
    && |url| >= 7
    && url[0] in {0x76, 0x56} && url[1] in {0x63, 0x43} && url[2] in {0x6D, 0x4D} && url[3] in {0x64, 0x44}
    && url[4] == 0x3A && url[5] == 0x2F && url[6] == 0x2F
  }

  function Hosted(name: Name, url: Name, front: seq<Resolution>, back: seq<Resolution>, filters: seq<Filter>)
    : HostDescriptor
  {
    HostDescriptor(name, url, ProtocolOf(url), if IsVcmd(url) then IOS else Android, TransportOf(url),
                   front, back, Grouped(filters))
  }

  function ProtocolOf(url: Name): Protocol { if IsVcmd(url) || Contains(url, LOOPBACK) then Tcp else Udp }

  function TransportOf(url: Name): Transport { if IsVcmd(url) then RawTcp else Rtsp }

  function Parse(b: seq<byte>): Option<HostDescriptor> {
    var name :- TakeString(b);
    var url :- TakeString(name.1);
    var front :- TakeResolutionList(url.1);
    var back :- TakeResolutionList(front.1);
    var filters :- TakeFilterList(back.1);
    Some(Hosted(name.0, url.0, front.0, back.0, filters.0))
  }

  method ReadString(b: seq<byte>, offset: nat) returns (s: Name, next: nat)
    requires offset <= |b| && TakeString(b[offset..]).Some?
    ensures next <= |b| && TakeString(b[offset..]) == Some((s, b[next..]))
  {
    var size: nat := GetU16BE(b, offset);
    next := offset + 2 + size;
    s := b[offset + 2..next];
    assert b[offset..][2..][..size] == s && b[offset..][2..][size..] == b[next..];
  }

  method ReadResolutions(b: seq<byte>, offset: nat) returns (rs: seq<Resolution>, next: nat)
    requires offset <= |b| && TakeResolutionList(b[offset..]).Some?
    ensures next <= |b| && TakeResolutionList(b[offset..]) == Some((rs, b[next..]))
  {
    hide GetU16BE, TakeResolutions;
    WordsHere(b, offset);
    var count: nat := GetU16BE(b, offset);
    next := offset + 2;
    rs := [];
    var i: nat := 0;
    ghost var whole := TakeResolutions(b[offset + 2..], count).value;
    while i < count
      invariant i <= count && next == offset + 2 + 4 * i && 4 * (count - i) <= |b| - next
      invariant rs + TakeResolutions(b[next..], count - i).value.0 == whole.0
    {
      ResolutionHere(b, next, count - i);
      var w := GetU16BE(b, next);
      var h := GetU16BE(b, next + 2);
      rs := rs + [Resolution(w, h)];
      next := next + 4;
      i := i + 1;
    }
    NoneTaken(b[next..]);
    assert rs + [] == rs;
    assert b[offset + 2..][4 * count..] == b[next..];
    assert whole == (rs, b[next..]);
  }

  lemma NoneTaken(b: seq<byte>)
    ensures TakeResolutions(b, 0) == Some(([], b))
  {
  }

  lemma ResolutionHere(b: seq<byte>, at: nat, n: nat)
    requires at <= |b| && 0 < n && 4 * n <= |b| - at
    ensures TakeResolutions(b[at..], n).value.0 ==
            [Resolution(GetU16BE(b, at), GetU16BE(b, at + 2))] + TakeResolutions(b[at + 4..], n - 1).value.0
  {
    assert b[at..][4..] == b[at + 4..];
  }

  method ReadFilters(b: seq<byte>, offset: nat) returns (filters: map<byte, seq<Name>>, ghost read: seq<Filter>)
    requires offset <= |b| && TakeFilterList(b[offset..]).Some?
    ensures TakeFilterList(b[offset..]).value.0 == read && filters == Grouped(read)
  {
    hide GetU16BE, TakeString, Push, TakeFilters, Grouped;
    WordsHere(b, offset);
    NothingGrouped();
    var count: nat := GetU16BE(b, offset);
    var at: nat := offset + 2;
    filters, read := map[], [];
    var i: nat := 0;
    ghost var whole := TakeFilters(b[offset + 2..], count).value;
    while i < count
      invariant i <= count && at <= |b| && TakeFilters(b[at..], count - i).Some?
      invariant read + TakeFilters(b[at..], count - i).value.0 == whole.0
      invariant filters == Grouped(read)
    {
      FilterHere(b, at, count - i);
      var name, next := ReadString(b, at);
      assert b[next..][1..] == b[next + 1..];
      var f := Filter(name, b[next]);
      filters := Push(filters, f);
      GroupedSnoc(read, f);
      read := read + [f];
      at := next + 1;
      i := i + 1;
    }
    NoFiltersTaken(b[at..]);
    assert read + [] == read;
  }

  lemma NothingGrouped()
    ensures Grouped([]) == map[]
  {
  }

  lemma GroupedSnoc(fs: seq<Filter>, f: Filter)
    ensures Grouped(fs + [f]) == Push(Grouped(fs), f)
  {
    hide Push;
    assert (fs + [f])[..|fs|] == fs;
  }

  /** A filter that can be taken is a string and a byte. */
  lemma FilterHere(b: seq<byte>, at: nat, n: nat)
    requires at <= |b| && n > 0 && TakeFilters(b[at..], n).Some?
    ensures TakeString(b[at..]).Some?
    ensures var name := TakeString(b[at..]).value;
      && name.1 != [] && TakeFilters(name.1[1..], n - 1).Some?
      && TakeFilters(b[at..], n).value.0 == [Filter(name.0, name.1[0])] + TakeFilters(name.1[1..], n - 1).value.0
  {
    hide TakeString;
  }

  /** The parser is only defined where it stays inside its bytes. */
  method DeserializeDeviceDescriptor(b: seq<byte>) returns (r: HostDescriptor)
    requires Parse(b).Some?
    ensures Some(r) == Parse(b)
  {
    hide TakeString, TakeResolutionList, TakeFilterList, Grouped, Contains;
    assert b[0..] == b;
    var name, offset := ReadString(b, 0);
    var url, afterUrl := ReadString(b, offset);
    offset := afterUrl;
    var isVcmd := IsVcmd(url);
    var deviceType := if isVcmd then IOS else Android;
    var transport := if isVcmd then RawTcp else Rtsp;
    var protocol := if isVcmd then Tcp else Udp;
    var local := Find(url, LOOPBACK);
    if !isVcmd && local { protocol := Tcp; }
    var front, afterFront := ReadResolutions(b, offset);
    var back, afterBack := ReadResolutions(b, afterFront);
    var filters, read := ReadFilters(b, afterBack);
    r := HostDescriptor(name, url, protocol, deviceType, transport, front, back, filters);
  }

  method Find(s: seq<byte>, pattern: seq<byte>) returns (found: bool)
    ensures found == Contains(s, pattern)
  {
    var i: nat := 0;
    while i + |pattern| <= |s|
      invariant forall j | 0 <= j < i :: !MatchesAt(s, pattern, j)
      decreases |s| - i
    {
      if MatchesAt(s, pattern, i) { return true; }
      i := i + 1;
    }
    return false;
  }

  // ---------- grouping keeps each category's order ----------

  function NamesOf(fs: seq<Filter>, category: byte): seq<Name>
    decreases |fs|
  {
    if fs == [] then [] else
    var last := fs[|fs| - 1];
    NamesOf(fs[..|fs| - 1], category) + if last.category == category then [last.name] else []
  }

  lemma {:induction false} GroupedInOrder(fs: seq<Filter>, category: byte)
    ensures category in Grouped(fs) <==> exists f :: f in fs && f.category == category
    ensures category in Grouped(fs) <==> NamesOf(fs, category) != []
    ensures category in Grouped(fs) ==> Grouped(fs)[category] == NamesOf(fs, category)
    decreases |fs|
  {
    if fs != [] {
      var init, last := fs[..|fs| - 1], fs[|fs| - 1];
      assert fs == init + [last];
      GroupedInOrder(init, category);
      assert last in fs;
    }
  }

  // ---------- what was written is what is read ----------

  function Narrow(rs: seq<Resolution>): (ns: seq<Resolution>)
    ensures |ns| == |rs|
  {
    if rs == [] then [] else [Resolution(Short(rs[0].width), Short(rs[0].height))] + Narrow(rs[1..])
  }

  lemma {:induction false} NarrowIsSameIff(rs: seq<Resolution>)
    ensures Narrow(rs) == rs <==> DimsFit(rs)
    decreases |rs|
  {
    if rs != [] {
      NarrowIsSameIff(rs[1..]);
      assert rs == [rs[0]] + rs[1..];
      assert Narrow(rs)[1..] == Narrow(rs[1..]);
      assert Narrow(rs)[0] == rs[0] <==> Unsigned16(rs[0].width) && Unsigned16(rs[0].height);
      if DimsFit(rs) { assert rs[0] in rs; }
    }
  }

  lemma PairRead(w: uint16, h: uint16, rest: seq<byte>)
    ensures var b := U16BE(w) + U16BE(h) + rest;
      GetU16BE(b, 0) == w && GetU16BE(b, 2) == h && b[4..] == rest
  {
    var b := U16BE(w) + U16BE(h) + rest;
    assert b[0..2] == U16BE(w) && b[2..4] == U16BE(h);
    ReadU16BE(b, 0, w);
    ReadU16BE(b, 2, h);
  }

  lemma {:induction false} ResolutionsTaken(rs: seq<Resolution>, rest: seq<byte>)
    ensures TakeResolutions(ResolutionBytes(rs) + rest, |rs|) == Some((Narrow(rs), rest))
    decreases |rs|
  {
    hide U16BE, GetU16BE, Short;
    if rs == [] {
      assert ResolutionBytes(rs) + rest == rest;
    } else {
      var w, h := Short(rs[0].width), Short(rs[0].height);
      var more := ResolutionBytes(rs[1..]) + rest;
      assert ResolutionBytes(rs) + rest == U16BE(w) + U16BE(h) + more;
      PairRead(w, h, more);
      ResolutionsTaken(rs[1..], rest);
    }
  }

  lemma ResolutionListTaken(rs: seq<Resolution>, rest: seq<byte>)
    requires |rs| < 0x1_0000
    ensures TakeResolutionList(ResolutionList(rs) + rest) == Some((Narrow(rs), rest))
  {
    hide U16BE, TakeU16, ResolutionBytes, TakeResolutions, Narrow;
    var more := ResolutionBytes(rs) + rest;
    assert ResolutionList(rs) + rest == U16BE(|rs|) + more;
    U16Taken(|rs|, more);
    ResolutionsTaken(rs, rest);
  }

  lemma {:induction false} FiltersTaken(fs: seq<Filter>, rest: seq<byte>)
    requires forall f <- fs :: |f.name| < 0x1_0000
    ensures TakeFilters(FilterBytes(fs) + rest, |fs|) == Some((fs, rest))
    decreases |fs|
  {
    hide StringBytes, TakeFilters;
    if fs == [] {
      assert FilterBytes(fs) + rest == rest;
      NoFiltersTaken(rest);
    } else {
      var more := FilterBytes(fs[1..]) + rest;
      assert FilterBytes(fs) + rest == StringBytes(fs[0].name) + ([fs[0].category] + more);
      FilterTaken(fs[0], more, |fs|);
      FiltersTaken(fs[1..], rest);
      assert [fs[0]] + fs[1..] == fs;
    }
  }

  lemma NoFiltersTaken(b: seq<byte>)
    ensures TakeFilters(b, 0) == Some(([], b))
  {
  }

  lemma FilterTaken(f: Filter, more: seq<byte>, n: nat)
    requires |f.name| < 0x1_0000 && 0 < n
    ensures var r, rest := TakeFilters(StringBytes(f.name) + ([f.category] + more), n), TakeFilters(more, n - 1);
      if rest.None? then r.None? else r == Some(([f] + rest.value.0, rest.value.1))
  {
    hide StringBytes, TakeString;
    StringTaken(f.name, [f.category] + more);
    assert ([f.category] + more)[1..] == more;
  }

  lemma FilterListTaken(fs: seq<Filter>)
    requires |fs| < 0x1_0000 && forall f <- fs :: |f.name| < 0x1_0000
    ensures TakeFilterList(FilterList(fs)) == Some((fs, []))
  {
    hide U16BE, TakeU16, FilterBytes, TakeFilters;
    U16Taken(|fs|, FilterBytes(fs));
    FiltersTaken(fs, []);
    assert FilterBytes(fs) + [] == FilterBytes(fs);
  }

  lemma DescriptorTaken(d: PhoneDescriptor)
    requires Sized(d)
    ensures Parse(WireBytes(d)) == Some(Hosted(d.name, d.url, Narrow(d.front), Narrow(d.back), d.filters))
  {
    hide StringBytes, ResolutionList, FilterList, TakeString, TakeResolutionList, TakeFilterList, Narrow, Hosted;
    var afterBack := FilterList(d.filters);
    var afterFront := ResolutionList(d.back) + afterBack;
    var afterUrl := ResolutionList(d.front) + afterFront;
    StringTaken(d.name, StringBytes(d.url) + afterUrl);
    StringTaken(d.url, afterUrl);
    ResolutionListTaken(d.front, afterFront);
    ResolutionListTaken(d.back, afterBack);
    FilterListTaken(d.filters);
  }

  lemma {:induction false} TakenFiltersFit(b: seq<byte>, n: nat)
    requires TakeFilters(b, n).Some?
    ensures var fs := TakeFilters(b, n).value.0; |fs| == n && forall f <- fs :: |f.name| < 0x1_0000
    decreases n
  {
    hide TakeString;
    if n != 0 { TakenFiltersFit(TakeString(b).value.1[1..], n - 1); }
  }

  /** Whatever parses has lengths that fit their prefixes. */
  lemma ParsedFits(b: seq<byte>) returns (fs: seq<Filter>)
    requires Parse(b).Some?
    ensures var h := Parse(b).value;
      && |h.name| < 0x1_0000 && |h.url| < 0x1_0000 && |h.front| < 0x1_0000 && |h.back| < 0x1_0000
      && h.filters == Grouped(fs) && |fs| < 0x1_0000 && forall f <- fs :: |f.name| < 0x1_0000
  {
    hide TakeString, TakeResolutions, TakeFilters, Grouped, IsVcmd, Contains;
    var name := TakeString(b).value;
    var url := TakeString(name.1).value;
    var front := TakeResolutionList(url.1).value;
    var back := TakeResolutionList(front.1).value;
    var n := TakeU16(back.1).value;
    fs := TakeFilterList(back.1).value.0;
    TakenFiltersFit(n.1, n.0);
  }

  lemma {:induction false} NamedInGroup(fs: seq<Filter>, f: Filter)
    ensures f in fs <==> f.name in NamesOf(fs, f.category)
    decreases |fs|
  {
    if fs != [] {
      var init, last := fs[..|fs| - 1], fs[|fs| - 1];
      assert fs == init + [last];
      NamedInGroup(init, f);
    }
  }

  /** How many filters are in the groups below a category. */
  function InGroups(fs: seq<Filter>, below: nat): nat
    requires below <= 0x100
  {
    if below == 0 then 0 else InGroups(fs, below - 1) + |NamesOf(fs, below - 1)|
  }

  lemma {:induction false} OneMoreInGroups(fs: seq<Filter>, f: Filter, below: nat)
    requires below <= 0x100
    ensures InGroups(fs + [f], below) == InGroups(fs, below) + if f.category < below then 1 else 0
    decreases below, |fs|
  {
    if below > 0 {
      OneMoreInGroups(fs, f, below - 1);
      assert (fs + [f])[..|fs|] == fs;
    }
  }

  lemma {:induction false} NoneInGroups(below: nat)
    requires below <= 0x100
    ensures InGroups([], below) == 0
    decreases below, 0
  {
    if below > 0 { NoneInGroups(below - 1); }
  }

  lemma {:induction false} GroupsHoldAll(fs: seq<Filter>)
    ensures InGroups(fs, 0x100) == |fs|
    decreases |fs|
  {
    hide InGroups;
    if fs == [] {
      NoneInGroups(0x100);
    } else {
      var init, last := fs[..|fs| - 1], fs[|fs| - 1];
      assert fs == init + [last];
      GroupsHoldAll(init);
      OneMoreInGroups(init, last, 0x100);
    }
  }

  lemma SameGroups(fs: seq<Filter>, gs: seq<Filter>, category: byte)
    requires Grouped(fs) == Grouped(gs)
    ensures NamesOf(fs, category) == NamesOf(gs, category)
  {
    hide Grouped, NamesOf;
    GroupedInOrder(fs, category);
    GroupedInOrder(gs, category);
  }

  lemma {:induction false} SameInGroups(fs: seq<Filter>, gs: seq<Filter>, below: nat)
    requires Grouped(fs) == Grouped(gs) && below <= 0x100
    ensures InGroups(fs, below) == InGroups(gs, below)
    decreases below, |fs|
  {
    hide Grouped, NamesOf;
    if below > 0 {
      SameGroups(fs, gs, below - 1);
      SameInGroups(fs, gs, below - 1);
    }
  }

  /** The registry tells how many filters there were, and which. */
  lemma RegistryTells(fs: seq<Filter>, gs: seq<Filter>)
    requires Grouped(fs) == Grouped(gs)
    ensures |fs| == |gs| && forall f :: f in fs <==> f in gs
  {
    hide Grouped, NamesOf, InGroups;
    GroupsHoldAll(fs);
    GroupsHoldAll(gs);
    SameInGroups(fs, gs, 0x100);
    forall f: Filter ensures f in fs <==> f in gs {
      SameGroups(fs, gs, f.category);
      NamedInGroup(fs, f);
      NamedInGroup(gs, f);
    }
  }

  lemma RecoveredIsSized(d: PhoneDescriptor)
    requires Parse(WireBytes(d)) == Some(Hosted(d.name, d.url, d.front, d.back, d.filters))
    ensures Sized(d)
  {
    hide Parse, WireBytes, Grouped, IsVcmd, Contains;
    var fs := ParsedFits(WireBytes(d));
    RegistryTells(d.filters, fs);
  }

  /** The PC recovers a descriptor, any that the Android encoder accepts, if and only if every length and every
      resolution fits 16 bits. */
  lemma DescriptorReadsBackIff(d: PhoneDescriptor)
    ensures Parse(WireBytes(d)) == Some(Hosted(d.name, d.url, d.front, d.back, d.filters)) <==>
            Sized(d) && DimsFit(d.front) && DimsFit(d.back)
  {
    hide Parse, WireBytes, IsVcmd, Contains, Grouped, Narrow, DimsFit, Sized;
    if Sized(d) {
      DescriptorTaken(d);
      NarrowIsSameIff(d.front);
      NarrowIsSameIff(d.back);
    } else if Parse(WireBytes(d)) == Some(Hosted(d.name, d.url, d.front, d.back, d.filters)) {
      RecoveredIsSized(d);
    }
  }

  /** The URL begins with "vcmd://", each letter in either case. */
  predicate SaysVcmd(url: Name) {
    |url| >= 7 && forall i | 0 <= i < 7 ::
      url[i] == [0x76, 0x63, 0x6D, 0x64, 0x3A, 0x2F, 0x2F][i] || url[i] == [0x56, 0x43, 0x4D, 0x44, 0x3A, 0x2F, 0x2F][i]
  }

  /** The text "127.0.0.1" stands somewhere in the URL. */
  predicate SaysLoopback(url: Name) {
    exists i | 0 <= i <= |url| - 9 :: url[i..][..9] == [0x31, 0x32, 0x37, 0x2E, 0x30, 0x2E, 0x30, 0x2E, 0x31]
  }

  lemma UrlSays(url: Name)
    ensures TransportOf(url) == if SaysVcmd(url) then RawTcp else Rtsp
    ensures ProtocolOf(url) == if SaysVcmd(url) || SaysLoopback(url) then Tcp else Udp
  {
    if Contains(url, LOOPBACK) {
      var i :| 0 <= i <= |url| && MatchesAt(url, LOOPBACK, i);
      assert 0 <= i <= |url| - 9 && url[i..][..9] == url[i..i + 9] == LOOPBACK;
    }
    if SaysLoopback(url) {
      var i :| 0 <= i <= |url| - 9 && url[i..][..9] == [0x31, 0x32, 0x37, 0x2E, 0x30, 0x2E, 0x30, 0x2E, 0x31];
      assert url[i..i + 9] == url[i..][..9];
      assert MatchesAt(url, LOOPBACK, i);
    }
  }

  /** FIELD BY FIELD: the PC's descriptor of a phone has the phone's name, URL, front list and back list, and every
      filter under its category and no other; the URL alone says what kind of device it is and how it is reached. */
  lemma DescriptorSays(d: PhoneDescriptor, f: Filter)
    requires Sized(d) && DimsFit(d.front) && DimsFit(d.back)
    ensures var p := Parse(WireBytes(d));
      p.Some? &&
      var r := p.value;
      && r.name == d.name && r.url == d.url && r.front == d.front && r.back == d.back
      && (f in d.filters <==> f.category in r.filters && f.name in r.filters[f.category])
      && r.deviceType == (if SaysVcmd(d.url) then IOS else Android)
      && r.transport == (if SaysVcmd(d.url) then RawTcp else Rtsp)
      && r.protocol == (if SaysVcmd(d.url) || SaysLoopback(d.url) then Tcp else Udp)
  {
    hide Parse, WireBytes, IsVcmd, Contains, Grouped, NamesOf, DimsFit, Sized, SaysVcmd, SaysLoopback;
    DescriptorReadsBackIff(d);
    UrlSays(d.url);
    GroupedInOrder(d.filters, f.category);
    NamedInGroup(d.filters, f);
  }

  // ---------- a descriptor cut short ----------

  lemma ResolutionListCut(b: seq<byte>, p: seq<byte>)
    requires p <= b && TakeResolutionList(b).Some?
    ensures var rest := TakeResolutionList(b).value.1;
      && |rest| <= |b|
      && (if |p| < |b| - |rest| then TakeResolutionList(p).None?
          else TakeResolutionList(p).Some? && TakeResolutionList(p).value.1 == p[|b| - |rest|..] <= rest)
  {
    if |p| >= 2 {
      var n: nat := GetU16BE(b, 0);
      assert GetU16BE(p, 0) == n;
      assert b[2..][4 * n..] == b[2 + 4 * n..];
      if |p| >= 2 + 4 * n { assert p[2..][4 * n..] == p[2 + 4 * n..]; }
    }
  }

  lemma {:induction false} FiltersCut(b: seq<byte>, p: seq<byte>, n: nat)
    requires p <= b && TakeFilters(b, n).Some? && |p| < |b| - |TakeFilters(b, n).value.1|
    ensures TakeFilters(p, n).None?
    decreases n
  {
    hide TakeString;
    if n != 0 {
      StringCut(b, p);
      var name := TakeString(b).value;
      if |p| >= |b| - |name.1| {
        var q := p[|b| - |name.1|..];
        if |q| >= 1 { FiltersCut(name.1[1..], q[1..], n - 1); }
      }
    }
  }

  lemma FilterListCut(b: seq<byte>, p: seq<byte>)
    requires p <= b && TakeFilterList(b).Some? && |p| < |b| - |TakeFilterList(b).value.1|
    ensures TakeFilterList(p).None?
  {
    if |p| >= 2 {
      assert GetU16BE(p, 0) == GetU16BE(b, 0);
      FiltersCut(b[2..], p[2..], GetU16BE(b, 0));
    }
  }

  /** Cut anywhere, the parse of a descriptor runs past the bytes it was given. */
  lemma CutDescriptorOverruns(d: PhoneDescriptor, k: nat)
    requires Sized(d) && k < |WireBytes(d)|
    ensures Parse(WireBytes(d)[..k]).None?
  {
    hide StringBytes, ResolutionList, FilterList, TakeString, TakeResolutionList, TakeFilterList, Hosted;
    var b, p := WireBytes(d), WireBytes(d)[..k];
    var b4 := FilterList(d.filters);
    var b3 := ResolutionList(d.back) + b4;
    var b2 := ResolutionList(d.front) + b3;
    var b1 := StringBytes(d.url) + b2;
    StringTaken(d.name, b1);
    StringTaken(d.url, b2);
    ResolutionListTaken(d.front, b3);
    ResolutionListTaken(d.back, b4);
    FilterListTaken(d.filters);
    StringCut(b, p);
    if TakeString(p).Some? {
      var p1 := TakeString(p).value.1;
      StringCut(b1, p1);
      if TakeString(p1).Some? {
        var p2 := TakeString(p1).value.1;
        ResolutionListCut(b2, p2);
        if TakeResolutionList(p2).Some? {
          var p3 := TakeResolutionList(p2).value.1;
          ResolutionListCut(b3, p3);
          if TakeResolutionList(p3).Some? { FilterListCut(b4, TakeResolutionList(p3).value.1); }
        }
      }
    }
  }

  /** The PC reads the handshake once, into a buffer of 512 bytes: the descriptor in it is whole exactly when
      it is no longer than that. */
  lemma HandshakeIsWholeIff(d: PhoneDescriptor)
    requires Sized(d)
    ensures var b := WireBytes(d);
      Parse(if |b| <= 512 then b else b[..512]).Some? <==> |b| <= 512
  {
    hide Parse, WireBytes, Hosted;
    DescriptorTaken(d);
    if |WireBytes(d)| > 512 { CutDescriptorOverruns(d, 512); }
  }

  // ---------- error reports ----------

  datatype ErrorReport = ErrorReport(severity: byte, title: Name, description: Name)

  function ReportBytes(r: ErrorReport): seq<byte> {
    [r.severity] + (StringBytes(r.title) + StringBytes(r.description))
  }

  function ParseReport(b: seq<byte>): Option<ErrorReport> {
    if |b| < 1 then None else
    var title :- TakeString(b[1..]);
    var description :- TakeString(title.1);
    Some(ErrorReport(b[0], title.0, description.0))
  }

  method EncodeReport(r: ErrorReport) returns (b: seq<byte>)
    requires |r.title| < 0x1_0000 && |r.description| < 0x1_0000
    ensures b == ReportBytes(r)
  {
    hide U16BE;
    var writer := new ByteIO.ByteWriter();
    writer.AppendUInt8(r.severity);
    writer.AppendLengthPrefixedStringBE(r.title);
    assert writer.bytes == [r.severity] + StringBytes(r.title);
    writer.AppendLengthPrefixedStringBE(r.description);
    b := writer.bytes;
  }

  method DeserializeErrorReport(b: seq<byte>) returns (r: ErrorReport)
    requires ParseReport(b).Some?
    ensures Some(r) == ParseReport(b)
  {
    hide TakeString;
    var severity := b[0];
    var title, offset := ReadString(b, 1);
    var description, end := ReadString(b, offset);
    r := ErrorReport(severity, title, description);
  }

  /** A report of any content reads back; cut anywhere, its parse runs past the bytes. */
  lemma ReportReadsBack(r: ErrorReport, k: nat)
    requires |r.title| < 0x1_0000 && |r.description| < 0x1_0000
    ensures ParseReport(ReportBytes(r)) == Some(r)
    ensures k < |ReportBytes(r)| ==> ParseReport(ReportBytes(r)[..k]).None?
  {
    hide StringBytes, TakeString;
    var b := ReportBytes(r);
    var rest := StringBytes(r.title) + StringBytes(r.description);
    assert b[1..] == rest;
    StringTaken(r.title, StringBytes(r.description));
    StringTaken(r.description, []);
    assert StringBytes(r.description) + [] == StringBytes(r.description);
    if 1 <= k < |b| {
      var p := b[..k][1..];
      assert p <= rest;
      StringCut(rest, p);
      if TakeString(p).Some? { StringCut(StringBytes(r.description), TakeString(p).value.1); }
    }
  }

  /** The PC reads reports into 255 bytes: one that is read in one piece is whole exactly when it fits. */
  lemma ReportIsWholeIff(r: ErrorReport)
    requires |r.title| < 0x1_0000 && |r.description| < 0x1_0000
    ensures var b := ReportBytes(r);
      ParseReport(if |b| <= 255 then b else b[..255]).Some? <==> |b| <= 255
  {
    hide ReportBytes, ParseReport;
    ReportReadsBack(r, 255);
  }
}
