/** Reading DNS names out of a received message (windows/3rdparty/mdns/mdns.h).

    The functions say what each walker computes on a message; the methods are the C loops, proved
    against them; the lemmas relate the walkers to each other on arbitrary bytes. */
module DnsNames {
  import opened Bytes

  type Label = seq<byte>

  const DOT: byte := 46
  const MAX_SUBSTRINGS := 64
  const MAX_HOPS := 16

  /** Where the next label of a name lies, or Bad for MDNS_INVALID_POS. */
  datatype Substring = Bad | Sub(offset: nat, length: nat, ref: bool)

  predicate IsRef(x: byte) { x >= 0xC0 }

  function Target(b: seq<byte>, offset: nat): nat
    requires offset + 2 <= |b|
  {
    GetU16BE(b, offset) % 0x4000
  }

  function NextSubstring(b: seq<byte>, offset: nat): (s: Substring)
    ensures s.Sub? ==> s.offset + s.length <= |b|
    ensures s.Sub? && s.ref ==> offset + 2 <= |b| && IsRef(b[offset])
    ensures s.Sub? && !s.ref && s.length == 0 ==> s.offset == offset < |b| && b[offset] == 0
    ensures s.Sub? && !s.ref && s.length > 0 ==> s.offset == offset + 1 && s.length == b[offset]
  {
    if offset >= |b| then Bad
    else if b[offset] == 0 then Sub(offset, 0, false)
    else FollowRefs(b, offset, 0)
  }

  function FollowRefs(b: seq<byte>, offset: nat, hops: nat): (s: Substring)
    requires offset < |b| && hops <= MAX_HOPS
    ensures s.Sub? ==> s.offset + s.length <= |b|
    ensures s.Sub? && s.ref && hops == 0 ==> offset + 2 <= |b| && IsRef(b[offset])
    ensures s.Sub? && !s.ref ==> hops == 0 && s.offset == offset + 1 && s.length == b[offset]
    decreases MAX_HOPS - hops, b
  {
    if IsRef(b[offset]) then
      if |b| < offset + 2 || Target(b, offset) >= |b| || hops == MAX_HOPS then Bad
      else FollowRefs(b, Target(b, offset), hops + 1)
    else if |b| < offset + 1 + b[offset] then Bad
    else Sub(offset + 1, b[offset], hops > 0)
  }

  /** The labels of the name at cur, if it ends within the given number of substrings. */
  function Decode(b: seq<byte>, cur: nat, fuel: nat): (r: Option<seq<Label>>)
    decreases fuel
  {
    if fuel == 0 then None else
    match NextSubstring(b, cur)
    case Bad => None
    case Sub(off, len, _) =>
      if len == 0 then Some([]) else
      match Decode(b, off + len, fuel - 1)
      case None => None
      case Some(rest) => Some([b[off..off + len]] + rest)
  }

  /** The offset just behind the name at cur in the message itself (a reference takes two bytes). */
  function SkipEnd(b: seq<byte>, cur: nat, fuel: nat): (r: Option<nat>)
    decreases fuel
  {
    if fuel == 0 then None else
    match NextSubstring(b, cur)
    case Bad => None
    case Sub(off, len, ref) =>
      if ref then Some(cur + 2)
      else if len == 0 then Some(off + 1)
      else SkipEnd(b, off + len, fuel - 1)
  }

  function Name(b: seq<byte>, offset: nat): Option<seq<Label>> {
    Decode(b, offset, MAX_SUBSTRINGS + 1)
  }

  function Skip(b: seq<byte>, offset: nat): Option<nat> {
    SkipEnd(b, offset, MAX_SUBSTRINGS + 1)
  }

  /** The text form: every label followed by a dot. */
  function Dotted(labels: seq<Label>): seq<byte> {
    if labels == [] then [] else labels[0] + [DOT] + Dotted(labels[1..])
  }

  function Take(s: seq<byte>, n: nat): seq<byte> { if |s| <= n then s else s[..n] }

  // ---------- the walkers as loops ----------

  method GetNextSubstring(buffer: array<byte>, size: nat, start: nat) returns (s: Substring)
    requires size <= buffer.Length
    ensures s == NextSubstring(buffer[..size], start)
    ensures s.Sub? ==>
      buffer[s.offset..s.offset + s.length] == buffer[..size][s.offset..s.offset + s.length]
  {
    var offset: nat := start;
    if offset >= size { return Bad; }
    if buffer[offset] == 0 { return Sub(offset, 0, false); }
    var recursion := 0;
    while IsRef(buffer[offset])
      invariant 0 <= recursion <= MAX_HOPS && offset < size
      invariant FollowRefs(buffer[..size], offset, recursion) == FollowRefs(buffer[..size], start, 0)
      decreases MAX_HOPS - recursion
    {
      if size < offset + 2 { return Bad; }
      offset := GetU16BE(buffer[offset..offset + 2], 0) % 0x4000;
      if offset >= size { return Bad; }
      recursion := recursion + 1;
      if recursion > MAX_HOPS { return Bad; }
    }
    var length := buffer[offset];
    offset := offset + 1;
    if size < offset + length { return Bad; }
    return Sub(offset, length, recursion > 0);
  }

  method StringSkip(buffer: array<byte>, size: nat, offset: nat) returns (ok: bool, next: nat)
    requires size <= buffer.Length
    ensures ok == Skip(buffer[..size], offset).Some?
    ensures next == if ok then Skip(buffer[..size], offset).value else offset
  {
    var cur: nat := offset;
    var counter := 0;
    next := offset;
    while true
      invariant 0 <= counter <= MAX_SUBSTRINGS + 1 && next == offset
      invariant Skip(buffer[..size], offset) == SkipEnd(buffer[..size], cur, MAX_SUBSTRINGS + 1 - counter)
      decreases MAX_SUBSTRINGS + 1 - counter
    {
      var sub := GetNextSubstring(buffer, size, cur);
      if sub.Bad? || counter > MAX_SUBSTRINGS { return false, offset; }
      counter := counter + 1;
      if sub.ref { return true, cur + 2; }
      cur := sub.offset + sub.length;
      if sub.length == 0 { return true, cur + 1; }
    }
  }

  /** mdns_string_extract: the dotted name, cut at capacity; a failure leaves the offset alone. */
  method StringExtract(buffer: array<byte>, size: nat, offset: nat, str: array<byte>, capacity: nat)
    returns (next: nat, length: nat)
    requires size <= buffer.Length && capacity <= str.Length && str != buffer
    modifies str
    ensures var name := Name(buffer[..size], offset);
      if name.None? then next == offset && length == 0
      else
        && Skip(buffer[..size], offset) == Some(next)
        && length <= capacity && str[..length] == Take(Dotted(name.value), capacity)
    ensures str[capacity..] == old(str[capacity..])
  {
    var cur: nat := offset;
    var end: Option<nat> := None;
    var counter := 0;
    var remain := capacity;
    ghost var b := buffer[..size];
    ghost var done: seq<byte> := [];
    WalkStart(b, offset, capacity);
    hide *;
    while true
      invariant 0 <= counter <= MAX_SUBSTRINGS + 1 && 0 <= remain <= capacity
      invariant buffer[..size] == b && str[capacity..] == old(str[capacity..])
      invariant str[..capacity - remain] == Take(done, capacity)
      invariant Walked(b, offset, cur, counter, done) && EndKnown(b, offset, cur, counter, end)
      decreases MAX_SUBSTRINGS + 1 - counter
    {
      var sub := GetNextSubstring(buffer, size, cur);
      WalkedStep(b, offset, cur, counter, done);
      if sub.Bad? || counter > MAX_SUBSTRINGS { return offset, 0; }
      EndStep(b, offset, cur, counter, end);
      counter := counter + 1;
      if sub.ref && end.None? { end := Some(cur + 2); }
      cur := sub.offset + sub.length;
      if sub.length == 0 { break; }
      ghost var word := b[sub.offset..sub.offset + sub.length];
      remain := CopyLabel(buffer, sub.offset, sub.length, str, capacity, remain, done, word);
      done := done + word + [DOT];
    }
    return if end.None? then cur + 1 else end.value, capacity - remain;
  }

  /** Loop invariant of StringExtract: the name is what was copied plus what is still ahead. */
  ghost predicate Walked(b: seq<byte>, offset: nat, cur: nat, counter: nat, done: seq<byte>) {
    counter <= MAX_SUBSTRINGS + 1 &&
    var rest := Decode(b, cur, MAX_SUBSTRINGS + 1 - counter);
    var name := Name(b, offset);
    (rest.None? <==> name.None?) && (rest.Some? ==> Dotted(name.value) == done + Dotted(rest.value))
  }

  lemma WalkStart(b: seq<byte>, offset: nat, capacity: nat)
    ensures Walked(b, offset, offset, 0, []) && EndKnown(b, offset, offset, 0, None)
    ensures Take([], capacity) == []
  {
  }

  lemma WalkedStep(b: seq<byte>, offset: nat, cur: nat, counter: nat, done: seq<byte>)
    requires Walked(b, offset, cur, counter, done) && counter <= MAX_SUBSTRINGS + 1
    ensures var s := NextSubstring(b, cur);
      if s.Bad? || counter > MAX_SUBSTRINGS then Name(b, offset).None?
      else if s.length == 0 then Name(b, offset).Some? && Dotted(Name(b, offset).value) == done
      else Walked(b, offset, s.offset + s.length, counter + 1,
                  done + b[s.offset..s.offset + s.length] + [DOT])
  {
    var s := NextSubstring(b, cur);
    if s.Bad? || counter > MAX_SUBSTRINGS { return; }
    var fuel := MAX_SUBSTRINGS + 1 - counter;
    var rest := Decode(b, cur, fuel);
    if s.length == 0 {
      assert rest == Some([]);
      assert done + Dotted([]) == done;
    } else {
      var tail := Decode(b, s.offset + s.length, fuel - 1);
      if tail.Some? {
        var word := b[s.offset..s.offset + s.length];
        assert rest.value == [word] + tail.value;
        assert rest.value[1..] == tail.value;
        assert done + Dotted(rest.value) == done + word + [DOT] + Dotted(tail.value);
      }
    }
  }

  /** The same for the end offset: fixed at the first reference, else still ahead. */
  ghost predicate EndKnown(b: seq<byte>, offset: nat, cur: nat, counter: nat, end: Option<nat>) {
    counter <= MAX_SUBSTRINGS + 1 &&
    Skip(b, offset) == if end.Some? then end else SkipEnd(b, cur, MAX_SUBSTRINGS + 1 - counter)
  }

  lemma EndStep(b: seq<byte>, offset: nat, cur: nat, counter: nat, end: Option<nat>)
    requires EndKnown(b, offset, cur, counter, end) && counter <= MAX_SUBSTRINGS
    requires NextSubstring(b, cur).Sub?
    ensures var s := NextSubstring(b, cur);
      var end' := if s.ref && end.None? then Some(cur + 2) else end;
      if s.length == 0 then Skip(b, offset) == Some(if end'.None? then s.offset + 1 else end'.value)
      else EndKnown(b, offset, s.offset + s.length, counter + 1, end')
  {
  }

  lemma TakeWord(done: seq<byte>, word: Label, capacity: nat)
    ensures var room := capacity - |Take(done, capacity)|;
      Take(done + word + [DOT], capacity) ==
        if room == 0 then Take(done, capacity)
        else if |word| < room then Take(done, capacity) + word + [DOT]
        else Take(done, capacity) + word[..room]
  {
  }

  method CopyLabel(buffer: array<byte>, from: nat, length: nat, str: array<byte>, capacity: nat,
                   remain0: nat, ghost done: seq<byte>, ghost word: Label) returns (remain: nat)
    requires from + length <= buffer.Length && str != buffer && word == buffer[from..from + length]
    requires remain0 <= capacity <= str.Length && str[..capacity - remain0] == Take(done, capacity)
    modifies str
    ensures remain <= capacity
    ensures str[..capacity - remain] == Take(done + word + [DOT], capacity)
    ensures str[capacity..] == old(str[capacity..])
  {
    var at := capacity - remain0;
    var toCopy := if length < remain0 then length else remain0;
    forall i | 0 <= i < toCopy { str[at + i] := buffer[from + i]; }
    assert str[..at] == Take(done, capacity);
    assert str[at..at + toCopy] == word[..toCopy] by {
      assert forall i | 0 <= i < toCopy :: str[at + i] == word[i];
    }
    at := at + toCopy;
    remain := remain0 - toCopy;
    assert str[..at] == Take(done, capacity) + word[..toCopy];
    if remain > 0 {
      str[at] := DOT;
      remain := remain - 1;
      assert str[..at + 1] == str[..at] + [DOT];
    }
    TakeWord(done, word, capacity);
  }

  // ---------- case-insensitive comparison ----------

  function Lower(x: byte): byte { if 65 <= x <= 90 then x + 32 else x }

  /** strncasecmp(...) == 0 on two stretches of equal length: a NUL ends the comparison. */
  predicate CaseEqual(a: Label, c: Label)
    requires |a| == |c|
  {
    a == [] || (Lower(a[0]) == Lower(c[0]) && (a[0] == 0 || CaseEqual(a[1..], c[1..])))
  }

  predicate SameNames(x: seq<Label>, y: seq<Label>) {
    |x| == |y| && forall i | 0 <= i < |x| :: |x[i]| == |y[i]| && CaseEqual(x[i], y[i])
  }

  /** What mdns_string_equal decides, substring by substring. */
  predicate EqualFrom(l: seq<byte>, i: nat, r: seq<byte>, j: nat, fuel: nat)
    decreases fuel
  {
    fuel > 0 &&
    var s := NextSubstring(l, i);
    var t := NextSubstring(r, j);
    s.Sub? && t.Sub? && s.length == t.length &&
    CaseEqual(r[t.offset..t.offset + t.length], l[s.offset..s.offset + s.length]) &&
    (s.length == 0 || EqualFrom(l, s.offset + s.length, r, t.offset + t.length, fuel - 1))
  }

  ghost predicate Undecided(l: seq<byte>, lofs: nat, lcur: nat, r: seq<byte>, rofs: nat, rcur: nat, counter: nat) {
    counter <= MAX_SUBSTRINGS + 1 &&
    EqualFrom(l, lofs, r, rofs, MAX_SUBSTRINGS + 1) == EqualFrom(l, lcur, r, rcur, MAX_SUBSTRINGS + 1 - counter)
  }

  lemma EqualStep(l: seq<byte>, lofs: nat, lcur: nat, r: seq<byte>, rofs: nat, rcur: nat, counter: nat)
    requires Undecided(l, lofs, lcur, r, rofs, rcur, counter) && counter <= MAX_SUBSTRINGS
    requires NextSubstring(l, lcur).Sub? && NextSubstring(r, rcur).Sub?
    ensures var s, t := NextSubstring(l, lcur), NextSubstring(r, rcur);
      var here := s.length == t.length
        && CaseEqual(r[t.offset..t.offset + t.length], l[s.offset..s.offset + s.length]);
      if !here then !EqualFrom(l, lofs, r, rofs, MAX_SUBSTRINGS + 1)
      else if s.length == 0 then EqualFrom(l, lofs, r, rofs, MAX_SUBSTRINGS + 1)
      else Undecided(l, lofs, s.offset + s.length, r, rofs, t.offset + t.length, counter + 1)
  {
  }

  method StringEqual(lhs: array<byte>, lsize: nat, lofs: nat, rhs: array<byte>, rsize: nat, rofs: nat)
    returns (ok: bool, lnext: nat, rnext: nat)
    requires lsize <= lhs.Length && rsize <= rhs.Length
    ensures ok == EqualFrom(lhs[..lsize], lofs, rhs[..rsize], rofs, MAX_SUBSTRINGS + 1)
    ensures if ok
      then Skip(lhs[..lsize], lofs) == Some(lnext) && Skip(rhs[..rsize], rofs) == Some(rnext)
      else lnext == lofs && rnext == rofs
  {
    hide CaseEqual, SkipEnd, NextSubstring, FollowRefs;
    ghost var l, r := lhs[..lsize], rhs[..rsize];
    var lcur: nat, rcur: nat := lofs, rofs;
    var lend: Option<nat>, rend: Option<nat> := None, None;
    var counter := 0;
    while true
      invariant 0 <= counter <= MAX_SUBSTRINGS + 1
      invariant Undecided(l, lofs, lcur, r, rofs, rcur, counter)
      invariant EndKnown(l, lofs, lcur, counter, lend) && EndKnown(r, rofs, rcur, counter, rend)
      decreases MAX_SUBSTRINGS + 1 - counter
    {
      var s := GetNextSubstring(lhs, lsize, lcur);
      var t := GetNextSubstring(rhs, rsize, rcur);
      if s.Bad? || t.Bad? || counter > MAX_SUBSTRINGS { return false, lofs, rofs; }
      EndStep(l, lofs, lcur, counter, lend);
      EndStep(r, rofs, rcur, counter, rend);
      EqualStep(l, lofs, lcur, r, rofs, rcur, counter);
      counter := counter + 1;
      if s.length != t.length { return false, lofs, rofs; }
      var p, q := rhs[t.offset..t.offset + t.length], lhs[s.offset..s.offset + s.length];
      if !CaseEqual(p, q) { return false, lofs, rofs; }
      if s.ref && lend.None? { lend := Some(lcur + 2); }
      if t.ref && rend.None? { rend := Some(rcur + 2); }
      lcur := s.offset + s.length;
      rcur := t.offset + t.length;
      if s.length == 0 { break; }
    }
    return true, if lend.None? then lcur + 1 else lend.value, if rend.None? then rcur + 1 else rend.value;
  }

  // ---------- the walkers agree ----------

  /** A name that can be extracted can be skipped, to an end inside the message. */
  lemma {:induction false} ExtractImpliesSkip(b: seq<byte>, cur: nat, fuel: nat)
    requires Decode(b, cur, fuel).Some?
    ensures SkipEnd(b, cur, fuel).Some? && cur < SkipEnd(b, cur, fuel).value <= |b|
    decreases fuel
  {
    var s := NextSubstring(b, cur);
    if !s.ref && s.length > 0 {
      ExtractImpliesSkip(b, s.offset + s.length, fuel - 1);
    }
  }

  /** A skip always advances and never leaves the message. */
  lemma {:induction false} SkipInBounds(b: seq<byte>, cur: nat, fuel: nat)
    requires SkipEnd(b, cur, fuel).Some?
    ensures cur < SkipEnd(b, cur, fuel).value <= |b|
    decreases fuel
  {
    var s := NextSubstring(b, cur);
    if !s.ref && s.length > 0 {
      SkipInBounds(b, s.offset + s.length, fuel - 1);
    }
  }

  lemma {:induction false} CaseEqualSymmetric(a: Label, c: Label)
    requires |a| == |c|
    ensures CaseEqual(a, c) == CaseEqual(c, a)
  {
    if a != [] { CaseEqualSymmetric(a[1..], c[1..]); }
  }

  /** Two names compare equal exactly when both can be extracted and agree label by label. */
  lemma {:induction false} EqualIffSameNames(l: seq<byte>, i: nat, r: seq<byte>, j: nat, fuel: nat)
    ensures EqualFrom(l, i, r, j, fuel) <==>
      && Decode(l, i, fuel).Some? && Decode(r, j, fuel).Some?
      && SameNames(Decode(l, i, fuel).value, Decode(r, j, fuel).value)
    decreases fuel
  {
    hide EqualFrom, Decode, SameNames, CaseEqual, NextSubstring;
    if fuel == 0 {
      NoFuel(l, i, r, j);
    } else {
      DecodeUnfold(l, i, fuel);
      DecodeUnfold(r, j, fuel);
      EqualUnfold(l, i, r, j, fuel);
      NoLabels();
      var s, t := NextSubstring(l, i), NextSubstring(r, j);
      if s.Sub? && t.Sub? {
        var p, q := l[s.offset..s.offset + s.length], r[t.offset..t.offset + t.length];
        if |p| == |q| { CaseEqualSymmetric(p, q); }
        if s.length == 0 && t.length == 0 {
          assert p == [] && q == [];
        } else if s.length > 0 && t.length > 0 {
          var i', j' := s.offset + s.length, t.offset + t.length;
          EqualIffSameNames(l, i', r, j', fuel - 1);
          var xs, ys := Decode(l, i', fuel - 1), Decode(r, j', fuel - 1);
          if xs.Some? && ys.Some? { SameNamesCons(p, xs.value, q, ys.value); }
        } else if s.length > 0 {
          if Decode(l, i, fuel).Some? { OneMoreLabel(Decode(l, i, fuel).value); }
        } else if t.length > 0 {
          if Decode(r, j, fuel).Some? { OneMoreLabel(Decode(r, j, fuel).value); }
        }
      }
    }
  }

  lemma NoFuel(l: seq<byte>, i: nat, r: seq<byte>, j: nat)
    ensures !EqualFrom(l, i, r, j, 0) && Decode(l, i, 0).None?
  {
  }

  lemma NoLabels()
    ensures SameNames([], []) && CaseEqual([], [])
  {
  }

  lemma OneMoreLabel(x: seq<Label>)
    requires x != []
    ensures !SameNames(x, []) && !SameNames([], x)
  {
  }

  lemma DecodeUnfold(b: seq<byte>, cur: nat, fuel: nat)
    requires fuel > 0
    ensures var s := NextSubstring(b, cur);
      if s.Bad? then Decode(b, cur, fuel).None?
      else if s.length == 0 then Decode(b, cur, fuel) == Some([])
      else var rest := Decode(b, s.offset + s.length, fuel - 1);
        if rest.None? then Decode(b, cur, fuel).None?
        else Decode(b, cur, fuel) == Some([b[s.offset..s.offset + s.length]] + rest.value)
  {
    hide NextSubstring;
  }

  lemma EqualUnfold(l: seq<byte>, i: nat, r: seq<byte>, j: nat, fuel: nat)
    requires fuel > 0
    ensures var s, t := NextSubstring(l, i), NextSubstring(r, j);
      EqualFrom(l, i, r, j, fuel) ==
        (s.Sub? && t.Sub? && s.length == t.length
         && CaseEqual(r[t.offset..t.offset + t.length], l[s.offset..s.offset + s.length])
         && (s.length == 0 || EqualFrom(l, s.offset + s.length, r, t.offset + t.length, fuel - 1)))
  {
    hide NextSubstring, CaseEqual;
  }

  lemma SameNamesCons(p: Label, xs: seq<Label>, q: Label, ys: seq<Label>)
    ensures SameNames([p] + xs, [q] + ys) <==> |p| == |q| && CaseEqual(p, q) && SameNames(xs, ys)
  {
    var x, y := [p] + xs, [q] + ys;
    if SameNames(x, y) {
      assert x[0] == p && y[0] == q;
      forall k | 0 <= k < |xs| ensures |xs[k]| == |ys[k]| && CaseEqual(xs[k], ys[k]) {
        assert x[k + 1] == xs[k] && y[k + 1] == ys[k];
      }
    }
  }

  /** Without NUL bytes the comparison is letter by letter, ignoring case. */
  lemma {:induction false} CaseEqualPointwise(a: Label, c: Label)
    requires |a| == |c| && 0 !in a
    ensures CaseEqual(a, c) <==> forall k :: 0 <= k < |a| ==> Lower(a[k]) == Lower(c[k])
  {
    if a != [] {
      CaseEqualPointwise(a[1..], c[1..]);
      if CaseEqual(a[1..], c[1..]) && Lower(a[0]) == Lower(c[0]) {
        forall k | 0 <= k < |a| ensures Lower(a[k]) == Lower(c[k]) {
          if k > 0 { assert a[k] == a[1..][k - 1] && c[k] == c[1..][k - 1]; }
        }
      }
      if forall k :: 0 <= k < |a| ==> Lower(a[k]) == Lower(c[k]) {
        forall k | 0 <= k < |a[1..]| ensures Lower(a[1..][k]) == Lower(c[1..][k]) {
          assert a[1..][k] == a[k + 1] && c[1..][k] == c[k + 1];
        }
      }
    }
  }

  // ---------- chains of references ----------

  /** So many two-byte references, one leading to the next, and a label at the end. */
  predicate Chain(b: seq<byte>, offset: nat, n: nat)
    decreases n
  {
    offset < |b| &&
    if n == 0 then b[offset] < 192
    else b[offset] >= 192 && offset + 2 <= |b| && Chain(b, (256 * (b[offset] as int) + b[offset + 1]) % 16384, n - 1)
  }

  function ChainEnd(b: seq<byte>, offset: nat, n: nat): (end: nat)
    requires Chain(b, offset, n)
    ensures end < |b|
    decreases n
  {
    if n == 0 then offset else ChainEnd(b, (256 * (b[offset] as int) + b[offset + 1]) % 16384, n - 1)
  }

  lemma {:induction false} ChainFollowed(b: seq<byte>, offset: nat, n: nat, hops: nat)
    requires Chain(b, offset, n) && hops <= 16
    ensures var e := ChainEnd(b, offset, n);
      FollowRefs(b, offset, hops) ==
        if hops + n <= 16 && e + 1 + b[e] <= |b| then Sub(e + 1, b[e], hops + n > 0) else Bad
    decreases n
  {
    if n > 0 {
      var next := (256 * (b[offset] as int) + b[offset + 1]) % 16384;
      assert Target(b, offset) == next;
      if hops < 16 { ChainFollowed(b, next, n - 1, hops + 1); }
    }
  }

  /** A label behind references is found if and only if there are at most sixteen of them and it lies in the message. */
  lemma ChainFoundIff(b: seq<byte>, offset: nat, n: nat)
    requires Chain(b, offset, n) && b[offset] != 0
    ensures var e := ChainEnd(b, offset, n);
      NextSubstring(b, offset) == if n <= 16 && e + 1 + b[e] <= |b| then Sub(e + 1, b[e], n > 0) else Bad
  {
    hide FollowRefs;
    ChainFollowed(b, offset, n, 0);
  }
}
