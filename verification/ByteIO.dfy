/** The mutable byte writer and the cursor reader of the iOS app
    (ios/VCamdroidiOS/Sources/VCamdroidiOS/Networking/ByteWriter.swift, ByteReader.swift). */
module ByteIO {
  import opened Bytes

  datatype Error = UnexpectedEndOfStream(needed: nat, available: nat) | InvalidUTF8

  class ByteWriter {
    var bytes: seq<byte>

    constructor ()
      ensures bytes == []
    {
      bytes := [];
    }

    method AppendUInt8(value: byte)
      modifies this
      ensures bytes == old(bytes) + [value]
    {
      bytes := bytes + [value];
    }

    method AppendUInt16BE(value: uint16)
      modifies this
      ensures bytes == old(bytes) + U16BE(value)
    {
      bytes := bytes + [value / 0x100 % 0x100];
      bytes := bytes + [value % 0x100];
    }

    method AppendUInt32BE(value: uint32)
      modifies this
      ensures bytes == old(bytes) + U32BE(value)
    {
      bytes := bytes + [value / 0x100_0000 % 0x100];
      bytes := bytes + [value / 0x1_0000 % 0x100];
      bytes := bytes + [value / 0x100 % 0x100];
      bytes := bytes + [value % 0x100];
    }

    method AppendLengthPrefixedStringBE(s: seq<byte>)
      requires |s| <= 0xFFFF
      modifies this
      ensures bytes == old(bytes) + U16BE(|s|) + s
    {
      AppendUInt16BE(|s|);
      bytes := bytes + s;
    }

    method Append(raw: seq<byte>)
      modifies this
      ensures bytes == old(bytes) + raw
    {
      bytes := bytes + raw;
    }
  }

  /** Which byte strings are UTF-8; what the decoded text is does not matter here. */
  type Utf8 = seq<byte> -> bool

  class ByteReader {
    const bytes: seq<byte>
    var offset: nat

    predicate Valid() reads this { offset <= |bytes| }

    ghost function Rest(): seq<byte>
      requires Valid()
      reads this
    {
      bytes[offset..]
    }

    constructor (data: seq<byte>)
      ensures Valid() && bytes == data && offset == 0
    {
      bytes := data;
      offset := 0;
    }

    /** The shape of every read: on success it hands over the next n bytes, a short rest is an error that
        leaves the cursor where it is. */
    method ReadBytes(n: nat) returns (r: Result<seq<byte>, Error>)
      requires Valid()
      modifies this
      ensures Valid()
      ensures if n <= |old(Rest())| then r == Ok(old(Rest())[..n]) && offset == old(offset) + n
              else r == Err(UnexpectedEndOfStream(n, |old(Rest())|)) && offset == old(offset)
    {
      if |bytes| - offset < n { return Err(UnexpectedEndOfStream(n, |bytes| - offset)); }
      r := Ok(bytes[offset..offset + n]);
      assert bytes[offset..][..n] == bytes[offset..offset + n];
      offset := offset + n;
    }

    method ReadUInt8() returns (r: Result<byte, Error>)
      requires Valid()
      modifies this
      ensures Valid()
      ensures if 1 <= |old(Rest())| then r == Ok(old(Rest())[0]) && offset == old(offset) + 1
              else r == Err(UnexpectedEndOfStream(1, 0)) && offset == old(offset)
    {
      var raw := ReadBytes(1);
      r := if raw.Ok? then Ok(raw.value[0]) else Err(raw.error);
    }

    method ReadUInt16BE() returns (r: Result<uint16, Error>)
      requires Valid()
      modifies this
      ensures Valid()
      ensures if 2 <= |old(Rest())| then r == Ok(GetU16BE(old(Rest()), 0)) && offset == old(offset) + 2
              else r == Err(UnexpectedEndOfStream(2, |old(Rest())|)) && offset == old(offset)
    {
      var raw := ReadBytes(2);
      r := if raw.Ok? then Ok(GetU16BE(raw.value, 0)) else Err(raw.error);
    }

    method ReadUInt32BE() returns (r: Result<uint32, Error>)
      requires Valid()
      modifies this
      ensures Valid()
      ensures if 4 <= |old(Rest())| then r == Ok(GetU32BE(old(Rest()), 0)) && offset == old(offset) + 4
              else r == Err(UnexpectedEndOfStream(4, |old(Rest())|)) && offset == old(offset)
    {
      var raw := ReadBytes(4);
      r := if raw.Ok? then Ok(GetU32BE(raw.value, 0)) else Err(raw.error);
    }

    method ReadUInt16LE() returns (r: Result<uint16, Error>)
      requires Valid()
      modifies this
      ensures Valid()
      ensures if 2 <= |old(Rest())| then r == Ok(GetU16LE(old(Rest()), 0)) && offset == old(offset) + 2
              else r == Err(UnexpectedEndOfStream(2, |old(Rest())|)) && offset == old(offset)
    {
      var raw := ReadBytes(2);
      r := if raw.Ok? then Ok(GetU16LE(raw.value, 0)) else Err(raw.error);
    }

    method ReadUInt32LE() returns (r: Result<uint32, Error>)
      requires Valid()
      modifies this
      ensures Valid()
      ensures if 4 <= |old(Rest())| then r == Ok(GetU32LE(old(Rest()), 0)) && offset == old(offset) + 4
              else r == Err(UnexpectedEndOfStream(4, |old(Rest())|)) && offset == old(offset)
    {
      var raw := ReadBytes(4);
      r := if raw.Ok? then Ok(GetU32LE(raw.value, 0)) else Err(raw.error);
    }

    /** A string behind a 16-bit length. */
    method ReadLengthPrefixedStringBE(utf8: Utf8) returns (r: Result<seq<byte>, Error>)
      requires Valid()
      modifies this
      ensures Valid()
      ensures r == PrefixedString(old(Rest()), 2, utf8)
      ensures offset == old(offset) + PrefixedTaken(old(Rest()), 2)
      ensures r.Ok? ==> offset == old(offset) + 2 + |r.value|
    {
      ghost var b := Rest();
      var length :- ReadUInt16BE();
      assert Rest() == b[2..];
      var raw :- ReadBytes(length);
      assert raw == b[2..2 + |raw|];
      if !utf8(raw) { return Err(InvalidUTF8); }
      return Ok(raw);
    }

    /** A string behind an 8-bit length. */
    method ReadShortPrefixedString(utf8: Utf8) returns (r: Result<seq<byte>, Error>)
      requires Valid()
      modifies this
      ensures Valid()
      ensures r == PrefixedString(old(Rest()), 1, utf8)
      ensures offset == old(offset) + PrefixedTaken(old(Rest()), 1)
      ensures r.Ok? ==> offset == old(offset) + 1 + |r.value|
    {
      ghost var b := Rest();
      var length :- ReadUInt8();
      assert Rest() == b[1..];
      var raw :- ReadBytes(length);
      assert raw == b[1..1 + |raw|];
      if !utf8(raw) { return Err(InvalidUTF8); }
      return Ok(raw);
    }
  }

  /** The string at the head of some bytes, behind a length of one or two bytes. */
  function PrefixedString(b: seq<byte>, prefix: nat, utf8: Utf8): Result<seq<byte>, Error>
    requires prefix == 1 || prefix == 2
  {
    if |b| < prefix then Err(UnexpectedEndOfStream(prefix, |b|)) else
    var n: nat := if prefix == 1 then b[0] else GetU16BE(b, 0);
    if |b| - prefix < n then Err(UnexpectedEndOfStream(n, |b| - prefix))
    else if !utf8(b[prefix..prefix + n]) then Err(InvalidUTF8)
    else Ok(b[prefix..prefix + n])
  }

  /** How far such a read moves the cursor, whether it succeeds or not: over the length, and over the string if
      all of it is there. */
  function PrefixedTaken(b: seq<byte>, prefix: nat): nat
    requires prefix == 1 || prefix == 2
  {
    if |b| < prefix then 0 else
    var n: nat := if prefix == 1 then b[0] else GetU16BE(b, 0);
    if |b| - prefix < n then prefix else prefix + n
  }
}
