/** Splitting AVCC sample data into NAL units (NALUnitExtractor.splitAVCC) and framing them for the wire
    (NALFraming.frame): two length-prefixed forms of the same list. */
module Avcc {
  import opened Bytes
  import opened ByteIO

  type Nal = seq<byte>

  // ---------- big-endian numbers of any width ----------

  function Pow256(n: nat): nat
    ensures Pow256(n) >= 1
  {
    if n == 0 then 1 else 0x100 * Pow256(n - 1)
  }

  /** nalSize = (nalSize << 8) | byte, over all length bytes. */
  function Number(b: seq<byte>): nat {
    if b == [] then 0 else Number(b[..|b| - 1]) * 0x100 + b[|b| - 1]
  }

  function Prefix(x: nat, n: nat): (b: seq<byte>)
    ensures |b| == n
  {
    if n == 0 then [] else Prefix(x / 0x100, n - 1) + [x % 0x100]
  }

  lemma {:induction false} NumberOfPrefix(x: nat, n: nat)
    requires x < Pow256(n)
    ensures Number(Prefix(x, n)) == x
  {
    if n > 0 {
      NumberOfPrefix(x / 0x100, n - 1);
      assert Prefix(x, n)[..n - 1] == Prefix(x / 0x100, n - 1);
    }
  }

  lemma {:induction false} PrefixOfNumber(b: seq<byte>)
    ensures Number(b) < Pow256(|b|) && Prefix(Number(b), |b|) == b
    decreases |b|
  {
    if b != [] {
      var init, last := b[..|b| - 1], b[|b| - 1];
      PrefixOfNumber(init);
      assert b == init + [last];
      assert Number(b) / 0x100 == Number(init) && Number(b) % 0x100 == last;
    }
  }

  // ---------- splitting ----------

  /** Is a whole unit, length field and all, at the front? */
  predicate HasUnit(b: seq<byte>, n: nat) { n <= |b| && n + Number(b[..n]) <= |b| }

  function Split(b: seq<byte>, n: nat): seq<Nal>
    requires n > 0
    decreases |b|
  {
    if !HasUnit(b, n) then [] else
    var size := Number(b[..n]);
    [b[n..n + size]] + Split(b[n + size..], n)
  }

  function Join(nals: seq<Nal>, n: nat): seq<byte> {
    if nals == [] then [] else Prefix(|nals[0]|, n) + nals[0] + Join(nals[1..], n)
  }

  /** What is left behind the last whole unit. */
  function Tail(b: seq<byte>, n: nat): seq<byte>
    requires n > 0
    decreases |b|
  {
    if !HasUnit(b, n) then b else Tail(b[n + Number(b[..n])..], n)
  }

  method SplitAvcc(base: seq<byte>, lengthSize: nat) returns (out: seq<Nal>)
    requires 1 <= lengthSize <= 4
    ensures out == Split(base, lengthSize)
  {
    hide Split, Number;
    out := [];
    var offset: nat := 0;
    assert base[0..] == base;
    while offset + lengthSize <= |base|
      invariant offset <= |base|
      invariant Split(base, lengthSize) == out + Split(base[offset..], lengthSize)
      decreases |base| - offset
    {
      ghost var rest := base[offset..];
      SplitStep(rest, lengthSize);
      assert rest[..lengthSize] == base[offset..offset + lengthSize];
      var nalSize := ReadLength(base[offset..offset + lengthSize]);
      offset := offset + lengthSize;
      if offset + nalSize > |base| { return; }
      SliceOfSuffix(base, offset - lengthSize, lengthSize, lengthSize + nalSize);
      assert rest[lengthSize + nalSize..] == base[offset + nalSize..];
      out := out + [base[offset..offset + nalSize]];
      offset := offset + nalSize;
    }
    SplitStep(base[offset..], lengthSize);
  }

  method ReadLength(field: seq<byte>) returns (nalSize: nat)
    ensures nalSize == Number(field)
  {
    nalSize := 0;
    var i := 0;
    while i < |field|
      invariant 0 <= i <= |field| && nalSize == Number(field[..i])
    {
      assert field[..i + 1][..i] == field[..i];
      nalSize := nalSize * 0x100 + field[i];
      i := i + 1;
    }
    assert field[..i] == field;
  }

  lemma SplitStep(b: seq<byte>, n: nat)
    requires n > 0
    ensures HasUnit(b, n) ==>
      && n <= |b| && n + Number(b[..n]) <= |b|
      && Split(b, n) == [b[n..n + Number(b[..n])]] + Split(b[n + Number(b[..n])..], n)
      && Tail(b, n) == Tail(b[n + Number(b[..n])..], n)
    ensures !HasUnit(b, n) ==> (n <= |b| ==> n + Number(b[..n]) > |b|) && Split(b, n) == [] && Tail(b, n) == b
  {
    hide Number, Split, Tail;
    SplitUnfold(b, n);
    TailUnfold(b, n);
  }

  lemma SplitUnfold(b: seq<byte>, n: nat)
    requires n > 0
    ensures Split(b, n) ==
      if HasUnit(b, n) then [b[n..n + Number(b[..n])]] + Split(b[n + Number(b[..n])..], n) else []
  {
    hide Number;
  }

  lemma TailUnfold(b: seq<byte>, n: nat)
    requires n > 0
    ensures Tail(b, n) == if HasUnit(b, n) then Tail(b[n + Number(b[..n])..], n) else b
  {
    hide Number;
  }

  /** Lossless and maximal: the units, prefixed again, are a prefix of the input, and the rest holds no
      whole unit. */
  lemma {:induction false} SplitIsMaximal(b: seq<byte>, n: nat)
    requires n > 0
    ensures b == Join(Split(b, n), n) + Tail(b, n) && !HasUnit(Tail(b, n), n)
    decreases |b|
  {
    hide *;
    SplitStep(b, n);
    if HasUnit(b, n) {
      var size := Number(b[..n]);
      var u, rest := b[n..n + size], b[n + size..];
      SplitIsMaximal(rest, n);
      PrefixOfNumber(b[..n]);
      JoinStep(u, Split(rest, n), n);
      Pieces(b, n, n + size);
      RegroupPairs(b[..n], u, Join(Split(rest, n), n), Tail(rest, n));
    } else {
      JoinNothing(n);
    }
  }

  lemma Pieces(b: seq<byte>, i: nat, j: nat)
    requires i <= j <= |b|
    ensures b == b[..i] + b[i..j] + b[j..]
  {
  }

  lemma RegroupPairs(p: seq<byte>, u: seq<byte>, x: seq<byte>, y: seq<byte>)
    ensures p + u + (x + y) == p + u + x + y
  {
  }

  lemma JoinNothing(n: nat)
    ensures Join([], n) == []
  {
  }

  lemma JoinStep(u: Nal, us: seq<Nal>, n: nat)
    ensures Join([u] + us, n) == Prefix(|u|, n) + u + Join(us, n)
  {
    assert ([u] + us)[1..] == us;
  }

  /** Splitting any joined list gives the list back, whatever incomplete unit follows. */
  lemma {:induction false} SplitJoin(nals: seq<Nal>, rest: seq<byte>, n: nat)
    requires n > 0 && !HasUnit(rest, n) && forall u <- nals :: |u| < Pow256(n)
    ensures Split(Join(nals, n) + rest, n) == nals && Tail(Join(nals, n) + rest, n) == rest
    decreases |nals|
  {
    if nals == [] {
      assert Join(nals, n) + rest == rest;
    } else {
      var u := nals[0];
      var p := Prefix(|u|, n);
      var behind := Join(nals[1..], n) + rest;
      var b := Join(nals, n) + rest;
      assert b == p + u + behind;
      NumberOfPrefix(|u|, n);
      assert b[..n] == p && b[n..n + |u|] == u && b[n + |u|..] == behind;
      SplitJoin(nals[1..], rest, n);
      SplitStep(b, n);
    }
  }

  // ---------- framing ----------

  function Frame(nal: Nal): seq<byte>
    requires |nal| < 0x1_0000_0000
  {
    U32BE(|nal|) + nal
  }

  function Frames(nals: seq<Nal>): seq<byte>
    requires forall u <- nals :: |u| < 0x1_0000_0000
  {
    if nals == [] then [] else Frame(nals[0]) + Frames(nals[1..])
  }

  /** NALFraming.frame */
  method FrameNal(nal: Nal) returns (data: seq<byte>)
    requires |nal| < 0x1_0000_0000
    ensures data == Frame(nal)
  {
    var writer := new ByteWriter();
    writer.AppendUInt32BE(|nal|);
    writer.Append(nal);
    data := writer.bytes;
  }

  lemma PrefixOfFour(x: uint32)
    ensures Prefix(x, 4) == U32BE(x)
  {
    var a, b, c := x / 0x100, x / 0x100 / 0x100, x / 0x100 / 0x100 / 0x100;
    assert Prefix(c, 1) == Prefix(c / 0x100, 0) + [c % 0x100] == [c % 0x100];
    assert Prefix(b, 2) == [c % 0x100, b % 0x100];
    assert Prefix(a, 3) == [c % 0x100, b % 0x100, a % 0x100];
    assert b == x / 0x1_0000 && c == x / 0x100_0000;
  }

  /** With four length bytes the wire carries the sample data itself, up to its last whole unit. */
  lemma {:induction false} FramesAreJoin(nals: seq<Nal>)
    requires forall u <- nals :: |u| < 0x1_0000_0000
    ensures Frames(nals) == Join(nals, 4)
  {
    if nals != [] {
      FramesAreJoin(nals[1..]);
      PrefixOfFour(|nals[0]|);
    }
  }

  lemma FramesReproduceSample(b: seq<byte>)
    requires |b| < 0x1_0000_0000
    ensures forall u <- Split(b, 4) :: |u| < 0x1_0000_0000
    ensures b == Frames(Split(b, 4)) + Tail(b, 4)
  {
    UnitsAreShorter(b, 4);
    SplitIsMaximal(b, 4);
    FramesAreJoin(Split(b, 4));
  }

  lemma {:induction false} UnitsAreShorter(b: seq<byte>, n: nat)
    requires n > 0
    ensures forall u <- Split(b, n) :: |u| <= |b|
    decreases |b|
  {
    if HasUnit(b, n) { UnitsAreShorter(b[n + Number(b[..n])..], n); }
  }
}
