/** Bytes on the wire: 8-bit values, and the fixed-width integers both ends of every VCamdroid
    protocol build from them.  Shifts and masks of the sources are written as the division and
    remainder they compute. */
module Bytes {
  type byte = x: int | 0 <= x < 0x100
  type uint16 = x: int | 0 <= x < 0x1_0000
  type uint32 = x: int | 0 <= x < 0x1_0000_0000

  datatype Option<+T> = None | Some(value: T) {
    predicate IsFailure() { None? }

    function PropagateFailure<U>(): Option<U>
      requires None?
    {
      None
    }

    function Extract(): T
      requires Some?
    {
      value
    }
  }

  datatype Result<+T, +E> = Ok(value: T) | Err(error: E) {
    predicate IsFailure() { Err? }

    function PropagateFailure<U>(): Result<U, E>
      requires Err?
    {
      Err(error)
    }

    function Extract(): T
      requires Ok?
    {
      value
    }
  }

  // ---------- big-endian ----------

  function U16BE(x: uint16): (b: seq<byte>)
    ensures |b| == 2
  {
    [x / 0x100, x % 0x100]
  }

  function U32BE(x: uint32): (b: seq<byte>)
    ensures |b| == 4
  {
    [x / 0x100_0000, x / 0x1_0000 % 0x100, x / 0x100 % 0x100, x % 0x100]
  }

  function GetU16BE(b: seq<byte>, i: nat): uint16
    requires i + 2 <= |b|
  {
    0x100 * (b[i] as int) + b[i + 1]
  }

  function GetU32BE(b: seq<byte>, i: nat): uint32
    requires i + 4 <= |b|
  {
    0x100_0000 * (b[i] as int) + 0x1_0000 * (b[i + 1] as int) + 0x100 * (b[i + 2] as int) + b[i + 3]
  }

  // ---------- little-endian ----------

  function U32LE(x: uint32): (b: seq<byte>)
    ensures |b| == 4
  {
    [x % 0x100, x / 0x100 % 0x100, x / 0x1_0000 % 0x100, x / 0x100_0000]
  }

  function GetU16LE(b: seq<byte>, i: nat): uint16
    requires i + 2 <= |b|
  {
    b[i] as int + 0x100 * (b[i + 1] as int)
  }

  function GetU32LE(b: seq<byte>, i: nat): uint32
    requires i + 4 <= |b|
  {
    b[i] as int + 0x100 * (b[i + 1] as int) + 0x1_0000 * (b[i + 2] as int) + 0x100_0000 * (b[i + 3] as int)
  }

  // ---------- strings ----------

  /** A string behind its length, of which 16 bits are written whatever the string's size. */
  function StringBytes(s: seq<byte>): seq<byte> { U16BE(|s| % 0x1_0000) + s }

  /** What arrives in pieces. */
  function Flatten(chunks: seq<seq<byte>>): seq<byte> {
    if chunks == [] then [] else chunks[0] + Flatten(chunks[1..])
  }

  // ---------- slices of slices ----------

  lemma SliceOfPrefix<T>(s: seq<T>, n: nat, i: nat, j: nat)
    requires i <= j <= n <= |s|
    ensures s[..n][i..j] == s[i..j]
  {
  }

  lemma SliceOfSuffix<T>(s: seq<T>, n: nat, i: nat, j: nat)
    requires i <= j && n + j <= |s|
    ensures s[n..][i..j] == s[n + i..n + j]
  {
  }

  // ---------- concatenations, regrouped ----------

  lemma Regroup3<T>(a: seq<T>, b: seq<T>, c: seq<T>)
    ensures a + (b + c) == a + b + c
  {
  }

  lemma Regroup4<T>(a: seq<T>, b: seq<T>, c: seq<T>, d: seq<T>)
    ensures a + (b + c + d) == a + b + c + d
  {
  }

  lemma Regroup5<T>(a: seq<T>, b: seq<T>, c: seq<T>, d: seq<T>, e: seq<T>)
    ensures a + b + c + d + e == a + (b + (c + (d + e)))
  {
  }

  // ---------- what was written at position i is what is read there ----------

  lemma ReadU16BE(b: seq<byte>, i: nat, x: uint16)
    requires i + 2 <= |b| && b[i..i + 2] == U16BE(x)
    ensures GetU16BE(b, i) == x
  {
    assert b[i] == b[i..i + 2][0] && b[i + 1] == b[i..i + 2][1];
  }

  lemma ReadU32BE(b: seq<byte>, i: nat, x: uint32)
    requires i + 4 <= |b| && b[i..i + 4] == U32BE(x)
    ensures GetU32BE(b, i) == x
  {
    var c := b[i..i + 4];
    assert b[i] == c[0] && b[i + 1] == c[1] && b[i + 2] == c[2] && b[i + 3] == c[3];
    FourDigits(x);
  }

  lemma ReadU32LE(b: seq<byte>, i: nat, x: uint32)
    requires i + 4 <= |b| && b[i..i + 4] == U32LE(x)
    ensures GetU32LE(b, i) == x
  {
    var c := b[i..i + 4];
    assert b[i] == c[0] && b[i + 1] == c[1] && b[i + 2] == c[2] && b[i + 3] == c[3];
    FourDigits(x);
  }

  lemma FourDigits(x: uint32)
    ensures x == x / 0x100_0000 * 0x100_0000 + x / 0x1_0000 % 0x100 * 0x1_0000 + x / 0x100 % 0x100 * 0x100 + x % 0x100
  {
    var y := x / 0x100;
    assert x / 0x1_0000 == y / 0x100 && x / 0x100_0000 == y / 0x100 / 0x100;
  }

  /** Which byte weighs what: big-endian with the heaviest in front, little-endian with the lightest. */
  lemma ByteWeights(a: byte, b: byte, c: byte, d: byte)
    ensures U16BE(256 * (a as int) + b) == [a, b]
    ensures U32BE(256 * (256 * (256 * (a as int) + b) + c) + d) == [a, b, c, d]
    ensures U32LE(256 * (256 * (256 * (a as int) + b) + c) + d) == [d, c, b, a]
  {
    hide U32BE, U32LE;
    var z := 256 * (a as int) + b;
    var y := 256 * z + c;
    LastByte(a, b);
    LastByte(z, c);
    LastByte(y, d);
    OneByOne(256 * y + d, a, b, c, d);
  }

  lemma LastByte(q: nat, r: byte)
    ensures (256 * q + r) / 256 == q && (256 * q + r) % 256 == r
  {
  }

  lemma OneByOne(x: uint32, a: byte, b: byte, c: byte, d: byte)
    requires x % 256 == d && x / 256 % 256 == c && x / 256 / 256 % 256 == b && x / 256 / 256 / 256 == a
    ensures U32BE(x) == [a, b, c, d] && U32LE(x) == [d, c, b, a]
  {
    assert x / 0x1_0000 == x / 256 / 256 && x / 0x100_0000 == x / 256 / 256 / 256;
  }

  // ---------- reading from the front ----------

  /** What is read and what is left; None when the bytes run out. */
  function TakeU16(b: seq<byte>): Option<(uint16, seq<byte>)> {
    if |b| < 2 then None else Some((GetU16BE(b, 0), b[2..]))
  }

  function TakeString(b: seq<byte>): (r: Option<(seq<byte>, seq<byte>)>)
    ensures r.Some? ==> |r.value.1| == |b| - 2 - |r.value.0| && |r.value.0| < 0x1_0000
  {
    var n :- TakeU16(b);
    if |n.1| < n.0 then None else Some((n.1[..n.0], n.1[n.0..]))
  }

  lemma U16Taken(x: uint16, rest: seq<byte>)
    ensures TakeU16(U16BE(x) + rest) == Some((x, rest))
  {
    var b := U16BE(x) + rest;
    assert b[0..2] == U16BE(x);
    ReadU16BE(b, 0, x);
  }

  lemma StringTaken(s: seq<byte>, rest: seq<byte>)
    requires |s| < 0x1_0000
    ensures TakeString(StringBytes(s) + rest) == Some((s, rest))
  {
    hide U16BE, TakeU16;
    U16Taken(|s|, s + rest);
    assert StringBytes(s) + rest == U16BE(|s|) + (s + rest);
    assert (s + rest)[..|s|] == s && (s + rest)[|s|..] == rest;
  }

  lemma StringCut(b: seq<byte>, p: seq<byte>)
    requires p <= b && TakeString(b).Some?
    ensures var (s, rest) := TakeString(b).value;
      if |p| < |b| - |rest| then TakeString(p).None?
      else TakeString(p) == Some((s, p[|b| - |rest|..])) && p[|b| - |rest|..] <= rest
  {
    if |p| >= 2 {
      var n: nat := GetU16BE(b, 0);
      assert GetU16BE(p, 0) == n;
      if |p| >= 2 + n {
        assert p[2..][..n] == b[2..][..n];
        assert p[2..][n..] == p[2 + n..] <= b[2 + n..] == b[2..][n..];
      }
    }
  }

  lemma WordsHere(b: seq<byte>, at: nat)
    requires at + 2 <= |b|
    ensures GetU16BE(b[at..], 0) == GetU16BE(b, at) && b[at..][2..] == b[at + 2..]
  {
  }
}
