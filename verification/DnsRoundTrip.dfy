/** Compressed writing and pointer-following reading are inverse: when they are (an if-and-only-if for
    one name), and that they always are for families of names that end in one common label. */
module DnsRoundTrip {
  import opened Bytes
  import opened DnsNames
  import opened DnsCompression

  /** A label the wire can carry: RFC 1035 allows 63 bytes, this reader anything below the pointer tag. */
  predicate Spellable(l: Label) { 1 <= |l| < 0xC0 }

  predicate AllSpellable(labels: seq<Label>) { forall l <- labels :: Spellable(l) }

  /** Reading at off yields exactly these labels. */
  ghost predicate Spells(b: seq<byte>, off: nat, labels: seq<Label>)
    decreases |labels|
  {
    var s := NextSubstring(b, off);
    s.Sub? &&
    if labels == [] then s.length == 0
    else s.length == |labels[0]| > 0 && b[s.offset..s.offset + s.length] == labels[0]
         && Spells(b, s.offset + s.length, labels[1..])
  }

  /** b[from..to] holds these labels written out, with nothing behind the last one. */
  ghost predicate Literal(b: seq<byte>, from: nat, to: nat, labels: seq<Label>)
    decreases |labels|
  {
    to <= |b| &&
    if labels == [] then from == to
    else from + 1 + |labels[0]| <= to && Spellable(labels[0])
         && b[from] == |labels[0]| && b[from + 1..from + 1 + |labels[0]|] == labels[0]
         && Literal(b, from + 1 + |labels[0]|, to, labels[1..])
  }

  // ---------- reading is stable and unambiguous ----------

  lemma {:induction false} FollowStable(a: seq<byte>, b: seq<byte>, off: nat, hops: nat)
    requires a <= b && off < |a| && hops <= MAX_HOPS && FollowRefs(a, off, hops).Sub?
    ensures FollowRefs(b, off, hops) == FollowRefs(a, off, hops)
    decreases MAX_HOPS - hops
  {
    if IsRef(a[off]) { FollowStable(a, b, Target(a, off), hops + 1); }
  }

  lemma NextStable(a: seq<byte>, b: seq<byte>, off: nat)
    requires a <= b && NextSubstring(a, off).Sub?
    ensures NextSubstring(b, off) == NextSubstring(a, off)
  {
    if a[off] != 0 { FollowStable(a, b, off, 0); }
  }

  /** Bytes written behind a name do not change what it reads as. */
  lemma {:induction false} SpellsStable(a: seq<byte>, b: seq<byte>, off: nat, labels: seq<Label>)
    requires a <= b && Spells(a, off, labels)
    ensures Spells(b, off, labels)
    decreases |labels|
  {
    NextStable(a, b, off);
    if labels != [] {
      var s := NextSubstring(a, off);
      assert b[s.offset..s.offset + s.length] == a[s.offset..s.offset + s.length];
      SpellsStable(a, b, s.offset + s.length, labels[1..]);
    }
  }

  lemma {:induction false} SpellsUnique(b: seq<byte>, off: nat, x: seq<Label>, y: seq<Label>)
    requires Spells(b, off, x) && Spells(b, off, y)
    ensures x == y
    decreases |x|
  {
    if x != [] && y != [] {
      var s := NextSubstring(b, off);
      SpellsUnique(b, s.offset + s.length, x[1..], y[1..]);
      assert x == [x[0]] + x[1..] && y == [y[0]] + y[1..];
    }
  }

  /** mdns_string_extract reads a name exactly when it has at most 64 labels. */
  lemma {:induction false} DecodeSpells(b: seq<byte>, off: nat, labels: seq<Label>, fuel: nat)
    requires Spells(b, off, labels)
    ensures Decode(b, off, fuel) == if |labels| < fuel then Some(labels) else None
    decreases |labels|
  {
    if labels != [] && fuel > 0 {
      var s := NextSubstring(b, off);
      DecodeSpells(b, s.offset + s.length, labels[1..], fuel - 1);
      assert labels == [labels[0]] + labels[1..];
    }
  }

  lemma {:induction false} SpellsDecoded(b: seq<byte>, off: nat, fuel: nat)
    requires Decode(b, off, fuel).Some?
    ensures Spells(b, off, Decode(b, off, fuel).value)
    decreases fuel
  {
    var s := NextSubstring(b, off);
    if s.length > 0 {
      SpellsDecoded(b, s.offset + s.length, fuel - 1);
      var rest := Decode(b, s.offset + s.length, fuel - 1).value;
      var x := Decode(b, off, fuel).value;
      assert x == [b[s.offset..s.offset + s.length]] + rest && x[1..] == rest;
    }
  }

  // ---------- literal runs ----------

  lemma LiteralNext(b: seq<byte>, from: nat, to: nat, labels: seq<Label>)
    requires Literal(b, from, to, labels) && labels != []
    ensures NextSubstring(b, from) == Sub(from + 1, |labels[0]|, false)
  {
  }

  lemma {:induction false} LiteralStable(a: seq<byte>, b: seq<byte>, from: nat, to: nat, labels: seq<Label>)
    requires a <= b && Literal(a, from, to, labels)
    ensures Literal(b, from, to, labels)
    decreases |labels|
  {
    if labels != [] {
      var n := from + 1 + |labels[0]|;
      assert b[from + 1..n] == a[from + 1..n];
      LiteralStable(a, b, n, to, labels[1..]);
    }
  }

  lemma {:induction false} LiteralSnoc(b: seq<byte>, from: nat, mid: nat, to: nat, labels: seq<Label>, l: Label)
    requires Literal(b, from, mid, labels) && Literal(b, mid, to, [l])
    ensures Literal(b, from, to, labels + [l])
    decreases |labels|
  {
    if labels == [] {
      assert labels + [l] == [l];
    } else {
      LiteralSnoc(b, from + 1 + |labels[0]|, mid, to, labels[1..], l);
      assert (labels + [l])[1..] == labels[1..] + [l];
    }
  }

  /** A literal run in front of a name: reading from its start puts its labels in front. */
  lemma {:induction false} LiteralThen(b: seq<byte>, from: nat, to: nat, labels: seq<Label>, rest: seq<Label>)
    requires Literal(b, from, to, labels)
    ensures Spells(b, to, rest) ==> Spells(b, from, labels + rest)
    decreases |labels|
  {
    if labels == [] {
      assert labels + rest == rest;
    } else {
      LiteralNext(b, from, to, labels);
      LiteralThen(b, from + 1 + |labels[0]|, to, labels[1..], rest);
      assert (labels + rest)[1..] == labels[1..] + rest;
    }
  }

  lemma {:induction false} LiteralStrip(b: seq<byte>, from: nat, to: nat, labels: seq<Label>, x: seq<Label>)
    requires Literal(b, from, to, labels) && Spells(b, from, x)
    ensures |labels| <= |x| && Spells(b, to, x[|labels|..])
    decreases |labels|
  {
    if labels == [] {
      assert x[0..] == x;
    } else {
      LiteralNext(b, from, to, labels);
      LiteralStrip(b, from + 1 + |labels[0]|, to, labels[1..], x[1..]);
      assert x[1..][|labels[1..]|..] == x[|labels|..];
    }
  }

  /** A reference to a written-out label reads as what stands at its target. */
  lemma RefReads(b: seq<byte>, p: nat, target: nat, x: seq<Label>)
    requires target < p && p + 2 <= |b| && target < REF_LIMIT
    requires b[p..p + 2] == RefBytes(target) && 1 <= b[target] < 0xC0
    ensures Spells(b, p, x) <==> Spells(b, target, x)
    ensures NextSubstring(b, p).Sub? ==> NextSubstring(b, p).ref
  {
    ReadU16BE(b, p, 0xC000 + target);
    assert b[p] == RefBytes(target)[0];
    assert FollowRefs(b, p, 0) == FollowRefs(b, target, 1);
    var s, t := NextSubstring(b, p), NextSubstring(b, target);
    assert t.Sub? <==> s.Sub?;
    if t.Sub? { assert s == Sub(t.offset, t.length, true); }
  }

  // ---------- the table ----------

  /** Where an entry may point: at a written-out label of a finished name of the family, or at one of
      the labels done so far of the name now being written at base. */
  ghost predicate Finished(b: seq<byte>, e: nat, family: iset<seq<Label>>) {
    e < |b| && 1 <= b[e] < 0xC0 && exists n :: n in family && n != [] && Spells(b, e, n)
  }

  ghost predicate Own(b: seq<byte>, base: nat, e: nat, done: seq<Label>) {
    base <= e < |b| && exists j | 0 <= j < |done| :: Literal(b, e, |b|, done[j..])
  }

  /** A name being written at base: earlier names are finished before o, its own labels are `done`. */
  ghost predicate Writing(w: Writer, o: nat, base: nat, done: seq<Label>, family: iset<seq<Label>>) {
    |w.buf| <= REF_LIMIT && o <= base <= w.pos &&
    (w.ring.Some? ==> forall k | 0 <= k < w.ring.value.count ::
       Entry(w, o, base, done, family, w.ring.value.offsets[k]))
  }

  ghost predicate Entry(w: Writer, o: nat, base: nat, done: seq<Label>, family: iset<seq<Label>>, e: nat) {
    o <= w.pos && (Finished(w.Out()[..o], e, family) || Own(w.Out(), base, e, done))
  }

  /** Every entry points at a finished name of the family. */
  ghost predicate Good(w: Writer, family: iset<seq<Label>>) {
    |w.buf| <= REF_LIMIT && RingFinished(w.ring, w.Out(), family)
  }

  ghost predicate RingFinished(ring: Option<Ring>, b: seq<byte>, family: iset<seq<Label>>) {
    ring.Some? ==> forall k | 0 <= k < ring.value.count :: Finished(b, ring.value.offsets[k], family)
  }

  lemma FinishedStable(a: seq<byte>, b: seq<byte>, e: nat, family: iset<seq<Label>>)
    requires a <= b && Finished(a, e, family)
    ensures Finished(b, e, family)
  {
    var n :| n in family && n != [] && Spells(a, e, n);
    SpellsStable(a, b, e, n);
  }

  /** Fixed fields between the earlier names and the next one. */
  lemma StartsWriting(w: Writer, data: seq<byte>, family: iset<seq<Label>>)
    requires Good(w, family) && w.pos + |data| <= |w.buf|
    ensures Writing(PutBytes(w, data), w.pos, w.pos + |data|, [], family)
  {
    hide Finished;
    assert PutBytes(w, data).Out()[..w.pos] == w.Out();
  }

  lemma StartsHere(w: Writer, family: iset<seq<Label>>)
    requires Good(w, family)
    ensures Writing(w, w.pos, w.pos, [], family)
  {
    hide Finished;
    assert w.Out()[..w.pos] == w.Out();
  }

  lemma {:induction false} FindInRing(b: seq<byte>, ring: Ring, k: nat, wanted: seq<Label>)
    requires k <= ring.count
    ensures var f := FindFrom(b, ring, k, wanted);
      f.Some? ==> (exists i | k <= i < ring.count :: ring.offsets[i] == f.value) && Match(b, f.value, wanted)
    decreases ring.count - k
  {
    if k < ring.count { FindInRing(b, ring, k + 1, wanted); }
  }

  lemma {:induction false} MatchIsPrefix(b: seq<byte>, off: nat, n: seq<Label>, wanted: seq<Label>)
    requires Spells(b, off, n)
    ensures Match(b, off, wanted) <==> wanted <= n
    decreases |wanted|
  {
    if wanted != [] && n != [] {
      var s := NextSubstring(b, off);
      MatchIsPrefix(b, s.offset + s.length, n[1..], wanted[1..]);
      if wanted[0] == n[0] && wanted[1..] <= n[1..] {
        assert wanted == [wanted[0]] + wanted[1..] && n == [n[0]] + n[1..];
      }
      if wanted <= n { assert wanted[1..] <= n[1..]; }
    }
  }

  lemma OwnStep(a: seq<byte>, b: seq<byte>, base: nat, e: nat, done: seq<Label>, l: Label)
    requires Own(a, base, e, done) && a <= b && Literal(b, |a|, |b|, [l])
    ensures Own(b, base, e, done + [l])
  {
    var j :| 0 <= j < |done| && Literal(a, e, |a|, done[j..]);
    LiteralStable(a, b, e, |a|, done[j..]);
    LiteralSnoc(b, e, |a|, |b|, done[j..], l);
    assert done[j..] + [l] == (done + [l])[j..];
  }

  lemma LabelIsLiteral(w: Writer, l: Label)
    requires Spellable(l) && w.pos + |l| + 1 <= |w.buf|
    ensures var b := PutLabel(w, l).Out(); Literal(b, w.pos, |b|, [l])
  {
    var b := PutLabel(w, l).Out();
    assert b[w.pos + 1..] == l;
    assert Literal(b, |b|, |b|, [l][1..]);
  }

  /** Writing one more label keeps the invariant of the name being written. */
  lemma WriteLabel(w: Writer, o: nat, base: nat, done: seq<Label>, family: iset<seq<Label>>, l: Label)
    requires Writing(w, o, base, done, family) && Spellable(l) && w.pos + |l| + 1 <= |w.buf|
    ensures Writing(PutLabel(w, l), o, base, done + [l], family)
  {
    hide Finished;
    var w' := PutLabel(w, l);
    var a, b := w.Out(), w'.Out();
    assert a[..o] == b[..o];
    LabelIsLiteral(w, l);
    if w.ring.Some? {
      forall k | 0 <= k < w'.ring.value.count ensures Entry(w', o, base, done + [l], family, w'.ring.value.offsets[k]) {
        var e := w'.ring.value.offsets[k];
        if k == w.ring.value.next {
          assert (done + [l])[|done|..] == [l];
        } else {
          assert Entry(w, o, base, done, family, w.ring.value.offsets[k]);
          if Own(a, base, e, done) { OwnStep(a, b, base, e, done, l); }
        }
      }
    }
  }

  // ---------- what is filled in later ----------

  /** b goes on from a, except that bytes between o and base may have been filled in since. */
  ghost predicate Carries(b: seq<byte>, a: seq<byte>, o: nat, base: nat) {
    o <= base <= |a| <= |b| && b[..o] == a[..o] && b[base..|a|] == a[base..]
  }

  lemma PrefixCarries(b: seq<byte>, a: seq<byte>, o: nat, base: nat)
    requires a <= b && o <= base <= |a|
    ensures Carries(b, a, o, base)
  {
    assert a[base..] == b[base..|a|];
  }

  lemma CarriesLess(b: seq<byte>, a: seq<byte>, c: seq<byte>, o: nat, base: nat)
    requires Carries(b, a, o, base) && c <= a && base <= |c|
    ensures Carries(b, c, o, base)
  {
    assert c[base..] == a[base..][..|c| - base] == b[base..|a|][..|c| - base] == b[base..|c|];
    assert c[..o] == a[..o];
  }

  lemma CarriedBytes(b: seq<byte>, a: seq<byte>, o: nat, base: nat)
    requires Carries(b, a, o, base)
    ensures base <= |a| <= |b|
    ensures forall i | 0 <= i < o || base <= i < |a| :: b[i] == a[i]
    ensures forall i, j | base <= i <= j <= |a| :: b[i..j] == a[i..j]
  {
    assert forall i | 0 <= i < o :: b[i] == b[..o][i] && a[i] == a[..o][i];
    assert forall i | base <= i < |a| :: b[i] == b[base..|a|][i - base] && a[i] == a[base..][i - base];
  }

  lemma {:induction false} CarriedLiteral(b: seq<byte>, a: seq<byte>, o: nat, base: nat, from: nat, labels: seq<Label>)
    requires Carries(b, a, o, base) && base <= from && Literal(a, from, |a|, labels)
    ensures Literal(b, from, |a|, labels)
    decreases |labels|
  {
    hide Carries;
    CarriedBytes(b, a, o, base);
    if labels != [] { CarriedLiteral(b, a, o, base, from + 1 + |labels[0]|, labels[1..]); }
  }

  // ---------- one name ----------

  /** The condition of the round trip: the first table hit, if there is one, is an entry made before this
      name (base), and the name stored there is all that is still wanted, not just the start of it. */
  ghost predicate HitsWhole(w: Writer, base: nat, labels: seq<Label>)
    requires base <= w.pos && PutLabels(w, labels).Done?
    decreases |labels|
  {
    labels == [] ||
    match Find(w, labels)
    case Some(target) => target < base && Spells(w.Out()[..base], target, labels)
    case None => HitsWhole(PutLabel(w, labels[0]), base, labels[1..])
  }

  /** The target of a table hit is a written-out label in front of o or behind base. */
  lemma HitTarget(w: Writer, o: nat, base: nat, done: seq<Label>, family: iset<seq<Label>>, labels: seq<Label>)
    requires Writing(w, o, base, done, family) && Find(w, labels).Some?
    ensures var t := Find(w, labels).value;
      && Entry(w, o, base, done, family, t)
      && t < w.pos && (t < o || base <= t) && 1 <= w.Out()[t] < 0xC0
  {
    var t := Find(w, labels).value;
    FindInRing(w.buf, w.ring.value, 0, labels);
    assert Entry(w, o, base, done, family, t);
    if Own(w.Out(), base, t, done) {
      var j :| 0 <= j < |done| && Literal(w.Out(), t, w.pos, done[j..]);
      assert w.Out()[t] == |done[j..][0]|;
    } else {
      assert w.Out()[..o][t] == w.Out()[t];
    }
  }

  /** A reference reads as what its target reads as. */
  lemma RefWritten(w: Writer, o: nat, base: nat, labels: seq<Label>, target: nat, b: seq<byte>)
    requires labels != [] && Find(w, labels) == Some(target) && PutLabels(w, labels).Done?
    requires |w.buf| <= REF_LIMIT && target < w.pos && (target < o || base <= target) && 1 <= w.Out()[target] < 0xC0
    requires base <= w.pos && Carries(b, PutLabels(w, labels).w.Out(), o, base)
    ensures PutLabels(w, labels).w.pos == w.pos + 2 && PutLabels(w, labels).w.ring == w.ring
    ensures NextSubstring(b, w.pos).Sub? ==> NextSubstring(b, w.pos).ref
    ensures forall x :: Spells(b, w.pos, x) <==> Spells(b, target, x)
  {
    hide Carries;
    var a := PutLabels(w, labels).w.Out();
    CarriedBytes(b, a, o, base);
    assert a == w.Out() + RefBytes(target);
    assert b[w.pos..w.pos + 2] == a[w.pos..w.pos + 2] == RefBytes(target);
    assert b[target] == a[target] == w.Out()[target];
    forall x ensures Spells(b, w.pos, x) <==> Spells(b, target, x) {
      RefReads(b, w.pos, target, x);
    }
    RefReads(b, w.pos, target, []);
  }

  /** A reference to a label of the very name being written never reads back, however the message goes on: it
      loops. */
  lemma OwnRefLoops(w: Writer, o: nat, base: nat, done: seq<Label>, labels: seq<Label>, target: nat, x: seq<Label>,
                    b: seq<byte>)
    requires labels != [] && Find(w, labels) == Some(target) && PutLabels(w, labels).Done?
    requires |w.buf| <= REF_LIMIT && o <= base <= w.pos && Own(w.Out(), base, target, done)
    requires Carries(b, PutLabels(w, labels).w.Out(), o, base)
    ensures !Spells(b, w.pos, x)
  {
    hide Carries, Find;
    var a := w.Out();
    var j :| 0 <= j < |done| && Literal(a, target, |a|, done[j..]);
    assert a[target] == |done[j..][0]|;
    RefWritten(w, o, base, labels, target, b);
    if Spells(b, w.pos, x) {
      assert Spells(b, target, x);
      CarriesLess(b, PutLabels(w, labels).w.Out(), a, o, base);
      CarriedLiteral(b, a, o, base, target, done[j..]);
      LiteralStrip(b, target, w.pos, done[j..], x);
      SpellsUnique(b, w.pos, x, x[|done[j..]|..]);
    }
  }

  lemma HitReadsIff(w: Writer, o: nat, base: nat, done: seq<Label>, family: iset<seq<Label>>, labels: seq<Label>,
                    b: seq<byte>)
    requires Writing(w, o, base, done, family) && PutLabels(w, labels).Done?
    requires labels != [] && Find(w, labels).Some? && Carries(b, PutLabels(w, labels).w.Out(), o, base)
    ensures Spells(b, w.pos, labels) <==> HitsWhole(w, base, labels)
  {
    hide Find, NextSubstring;
    var target := Find(w, labels).value;
    HitTarget(w, o, base, done, family, labels);
    if Own(w.Out(), base, target, done) {
      OwnRefLoops(w, o, base, done, labels, target, labels, b);
    } else {
      RefWritten(w, o, base, labels, target, b);
      var a := w.Out()[..o];
      var n :| n in family && n != [] && Spells(a, target, n);
      assert a == b[..o] && a <= w.Out()[..base];
      SpellsStable(a, b, target, n);
      SpellsStable(a, w.Out()[..base], target, n);
      if Spells(b, target, labels) { SpellsUnique(b, target, labels, n); }
      if HitsWhole(w, base, labels) { SpellsUnique(w.Out()[..base], target, labels, n); }
    }
  }

  lemma LabelReadsIff(w: Writer, o: nat, base: nat, l: Label, b: seq<byte>, rest: seq<Label>)
    requires Spellable(l) && w.pos + |l| + 1 <= |w.buf| && base <= w.pos && Carries(b, PutLabel(w, l).Out(), o, base)
    ensures NextSubstring(b, w.pos) == Sub(w.pos + 1, |l|, false)
    ensures Spells(b, w.pos, [l] + rest) <==> Spells(b, w.pos + |l| + 1, rest)
  {
    LabelIsLiteral(w, l);
    var to := w.pos + |l| + 1;
    CarriedLiteral(b, PutLabel(w, l).Out(), o, base, w.pos, [l]);
    LiteralNext(b, w.pos, to, [l]);
    assert ([l] + rest)[1..] == rest;
  }

  lemma LabelStep(w: Writer, base: nat, labels: seq<Label>)
    requires labels != [] && Find(w, labels).None? && base <= w.pos && AllSpellable(labels)
    requires PutLabels(w, labels).Done?
    ensures Spellable(labels[0]) && AllSpellable(labels[1..]) && [labels[0]] + labels[1..] == labels
    ensures w.pos + |labels[0]| + 1 <= |w.buf|
    ensures PutLabels(w, labels) == PutLabels(PutLabel(w, labels[0]), labels[1..])
    ensures HitsWhole(w, base, labels) == HitsWhole(PutLabel(w, labels[0]), base, labels[1..])
  {
  }

  lemma WritingBase(w: Writer, o: nat, base: nat, done: seq<Label>, family: iset<seq<Label>>)
    requires Writing(w, o, base, done, family)
    ensures o <= base <= w.pos
  {
  }

  lemma SkipStep(b: seq<byte>, off: nat, fuel: nat)
    requires fuel > 0
    requires NextSubstring(b, off).Sub?
    ensures var s := NextSubstring(b, off);
      SkipEnd(b, off, fuel) == if s.ref then Some(off + 2)
        else if s.length == 0 then Some(s.offset + 1) else SkipEnd(b, s.offset + s.length, fuel - 1)
  {
  }

  lemma EndReads(w: Writer, o: nat, base: nat, b: seq<byte>)
    requires PutLabels(w, []).Done? && base <= w.pos && Carries(b, PutLabels(w, []).w.Out(), o, base)
    ensures Spells(b, w.pos, []) && HitsWhole(w, base, [])
    ensures PutLabels(w, []).w.pos == w.pos + 1
    ensures forall fuel: nat | fuel > 0 :: SkipEnd(b, w.pos, fuel) == Some(w.pos + 1)
  {
    CarriedBytes(b, PutLabels(w, []).w.Out(), o, base);
    assert PutLabels(w, []).w.Out()[w.pos] == 0;
  }

  lemma LabelCarried(w: Writer, o: nat, base: nat, labels: seq<Label>, b: seq<byte>)
    requires labels != [] && Find(w, labels).None? && base <= w.pos && AllSpellable(labels)
    requires PutLabels(w, labels).Done? && Carries(b, PutLabels(w, labels).w.Out(), o, base)
    ensures w.pos + |labels[0]| + 1 <= |w.buf| && Carries(b, PutLabel(w, labels[0]).Out(), o, base)
  {
    hide Carries, Find, PutLabel;
    CarriesLess(b, PutLabels(w, labels).w.Out(), PutLabel(w, labels[0]).Out(), o, base);
  }

  /** A name reads back as what was asked for, whatever is filled in between o and base and however the message
      goes on, exactly when its first table hit was whole. */
  lemma {:induction false} ReadsBackIff(w: Writer, o: nat, base: nat, done: seq<Label>, family: iset<seq<Label>>,
                                        labels: seq<Label>, b: seq<byte>)
    requires Writing(w, o, base, done, family) && AllSpellable(labels) && PutLabels(w, labels).Done?
    requires Carries(b, PutLabels(w, labels).w.Out(), o, base)
    ensures Spells(b, w.pos, labels) <==> HitsWhole(w, base, labels)
    decreases |labels|
  {
    hide *;
    WritingBase(w, o, base, done, family);
    if labels == [] {
      EndReads(w, o, base, b);
    } else if Find(w, labels).Some? {
      HitReadsIff(w, o, base, done, family, labels, b);
    } else {
      LabelStep(w, base, labels);
      WriteLabel(w, o, base, done, family, labels[0]);
      ReadsBackIff(PutLabel(w, labels[0]), o, base, done + [labels[0]], family, labels[1..], b);
      LabelCarried(w, o, base, labels, b);
      LabelReadsIff(w, o, base, labels[0], b, labels[1..]);
    }
  }

  lemma HitSkips(w: Writer, o: nat, base: nat, done: seq<Label>, family: iset<seq<Label>>, labels: seq<Label>,
                 b: seq<byte>)
    requires Writing(w, o, base, done, family) && PutLabels(w, labels).Done?
    requires labels != [] && Find(w, labels).Some? && Carries(b, PutLabels(w, labels).w.Out(), o, base)
    requires Spells(b, w.pos, labels)
    ensures PutLabels(w, labels).w.pos == w.pos + 2 && NextSubstring(b, w.pos).Sub? && NextSubstring(b, w.pos).ref
  {
    hide Find, NextSubstring;
    HitTarget(w, o, base, done, family, labels);
    RefWritten(w, o, base, labels, Find(w, labels).value, b);
  }

  /** Skipping a name that reads back leads to where its writing ended. */
  lemma {:induction false} SkipsWritten(w: Writer, o: nat, base: nat, done: seq<Label>, family: iset<seq<Label>>,
                                        labels: seq<Label>, fuel: nat, b: seq<byte>)
    requires Writing(w, o, base, done, family) && AllSpellable(labels) && PutLabels(w, labels).Done?
    requires Carries(b, PutLabels(w, labels).w.Out(), o, base) && Spells(b, w.pos, labels) && |labels| < fuel
    ensures SkipEnd(b, w.pos, fuel) == Some(PutLabels(w, labels).w.pos)
    decreases |labels|
  {
    hide *;
    WritingBase(w, o, base, done, family);
    if labels == [] {
      EndReads(w, o, base, b);
    } else if Find(w, labels).Some? {
      HitSkips(w, o, base, done, family, labels, b);
      SkipStep(b, w.pos, fuel);
    } else {
      LabelStep(w, base, labels);
      LabelCarried(w, o, base, labels, b);
      LabelReadsIff(w, o, base, labels[0], b, labels[1..]);
      WriteLabel(w, o, base, done, family, labels[0]);
      SkipsWritten(PutLabel(w, labels[0]), o, base, done + [labels[0]], family, labels[1..], fuel - 1, b);
      SkipStep(b, w.pos, fuel);
    }
  }

  /** Behind a name that reads back every table entry points at a finished name again, new ones included. */
  lemma {:induction false} StaysGood(w: Writer, o: nat, base: nat, done: seq<Label>, family: iset<seq<Label>>,
                                     labels: seq<Label>, b: seq<byte>)
    requires Writing(w, o, base, done, family) && AllSpellable(labels) && PutLabels(w, labels).Done?
    requires Carries(b, PutLabels(w, labels).w.Out(), o, base) && Spells(b, w.pos, labels)
    requires forall j | 0 <= j < |done| + |labels| :: (done + labels)[j..] in family
    ensures RingFinished(PutLabels(w, labels).w.ring, b, family)
    decreases |labels|
  {
    hide *;
    WritingBase(w, o, base, done, family);
    if labels == [] || Find(w, labels).Some? {
      RingUnchanged(w, labels);
      EntriesFinished(w, o, base, done, family, labels, b);
    } else {
      LabelStep(w, base, labels);
      LabelCarried(w, o, base, labels, b);
      LabelReadsIff(w, o, base, labels[0], b, labels[1..]);
      WriteLabel(w, o, base, done, family, labels[0]);
      assert done + [labels[0]] + labels[1..] == done + labels;
      StaysGood(PutLabel(w, labels[0]), o, base, done + [labels[0]], family, labels[1..], b);
    }
  }

  lemma RingUnchanged(w: Writer, labels: seq<Label>)
    requires PutLabels(w, labels).Done? && (labels == [] || Find(w, labels).Some?)
    ensures PutLabels(w, labels).w.ring == w.ring && w.Out() <= PutLabels(w, labels).w.Out()
  {
  }

  lemma EntriesFinished(w: Writer, o: nat, base: nat, done: seq<Label>, family: iset<seq<Label>>, labels: seq<Label>,
                        b: seq<byte>)
    requires Writing(w, o, base, done, family) && PutLabels(w, labels).Done?
    requires Carries(b, PutLabels(w, labels).w.Out(), o, base) && Spells(b, w.pos, labels)
    requires forall j | 0 <= j < |done| + |labels| :: (done + labels)[j..] in family
    ensures RingFinished(w.ring, b, family)
  {
    hide Finished, Entry, Carries, Spells, PutLabels;
    CarriesLess(b, PutLabels(w, labels).w.Out(), w.Out(), o, base);
    if w.ring.Some? {
      forall k | 0 <= k < w.ring.value.count ensures Finished(b, w.ring.value.offsets[k], family) {
        EntryFinished(w, o, base, done, family, labels, b, w.ring.value.offsets[k]);
      }
    }
  }

  lemma EntryFinished(w: Writer, o: nat, base: nat, done: seq<Label>, family: iset<seq<Label>>, labels: seq<Label>,
                      b: seq<byte>, e: nat)
    requires base <= w.pos && Carries(b, w.Out(), o, base) && Spells(b, w.pos, labels)
    requires Entry(w, o, base, done, family, e)
    requires forall j | 0 <= j < |done| + |labels| :: (done + labels)[j..] in family
    ensures Finished(b, e, family)
  {
    hide FollowRefs, NextSubstring;
    var a := w.Out();
    if Finished(a[..o], e, family) {
      FinishedStable(a[..o], b, e, family);
    } else {
      var j :| 0 <= j < |done| && Literal(a, e, |a|, done[j..]);
      CarriedLiteral(b, a, o, base, e, done[j..]);
      LiteralThen(b, e, |a|, done[j..], labels);
      assert done[j..] + labels == (done + labels)[j..];
      assert b[e] == |done[j..][0]|;
    }
  }

  ghost const ANY_NAME: iset<seq<Label>> := iset n: seq<Label> | n != []

  /** What reads as labels at all reads as labels of 1 to 191 bytes. */
  lemma {:induction false} SpelledIsSpellable(b: seq<byte>, off: nat, labels: seq<Label>)
    requires Spells(b, off, labels)
    ensures AllSpellable(labels)
    decreases |labels|
  {
    if labels != [] {
      var s := NextSubstring(b, off);
      LengthIsSpellable(b, off);
      SpelledIsSpellable(b, s.offset + s.length, labels[1..]);
      assert labels == [labels[0]] + labels[1..];
    }
  }

  lemma LengthIsSpellable(b: seq<byte>, off: nat)
    requires NextSubstring(b, off).Sub?
    ensures NextSubstring(b, off).length < 0xC0
  {
    if b[off] != 0 { FollowedIsSpellable(b, off, 0); }
  }

  lemma {:induction false} FollowedIsSpellable(b: seq<byte>, off: nat, hops: nat)
    requires off < |b| && hops <= MAX_HOPS && FollowRefs(b, off, hops).Sub?
    ensures FollowRefs(b, off, hops).length < 0xC0
    decreases MAX_HOPS - hops
  {
    if IsRef(b[off]) { FollowedIsSpellable(b, Target(b, off), hops + 1); }
  }

  /** The condition for one name: labels of 1 to 191 bytes, at most 64 of them, and a whole first hit. */
  ghost predicate Whole(w: Writer, labels: seq<Label>)
    requires PutLabels(w, labels).Done?
  {
    AllSpellable(labels) && |labels| <= 64 && HitsWhole(w, w.pos, labels)
  }

  /** THE ROUND TRIP OF ONE NAME, exactly: with a table of names finished before o, what mdns_string_make wrote is
      read back by mdns_string_extract, in any message that goes on from it and has any bytes between o and the name,
      if and only if the name is whole; then a skip leads to its end and the table stays good. */
  lemma NameReadsBackIff(w: Writer, o: nat, family: iset<seq<Label>>, labels: seq<Label>, b: seq<byte>)
    requires Writing(w, o, w.pos, [], family) && PutLabels(w, labels).Done?
    requires Carries(b, PutLabels(w, labels).w.Out(), o, w.pos)
    ensures Name(b, w.pos) == Some(labels) <==> Whole(w, labels)
    ensures Whole(w, labels) ==> Skip(b, w.pos) == Some(PutLabels(w, labels).w.pos)
    ensures Whole(w, labels) && (forall j | 0 <= j < |labels| :: labels[j..] in family) ==>
              RingFinished(PutLabels(w, labels).w.ring, b, family)
  {
    hide HitsWhole, Spells, NextSubstring, FollowRefs, Decode, SkipEnd, PutLabels, Writing, Carries, RingFinished;
    if Name(b, w.pos) == Some(labels) {
      SpellsDecoded(b, w.pos, MAX_SUBSTRINGS + 1);
      SpelledIsSpellable(b, w.pos, labels);
    }
    if AllSpellable(labels) {
      ReadsBackIff(w, o, w.pos, [], family, labels, b);
      if HitsWhole(w, w.pos, labels) {
        DecodeSpells(b, w.pos, labels, MAX_SUBSTRINGS + 1);
        if |labels| <= MAX_SUBSTRINGS { SkipsWritten(w, o, w.pos, [], family, labels, MAX_SUBSTRINGS + 1, b); }
        assert [] + labels == labels;
        if forall j | 0 <= j < |labels| :: labels[j..] in family { StaysGood(w, o, w.pos, [], family, labels, b); }
      }
    }
  }

  /** The same for a name written right behind the earlier ones. */
  lemma NextNameReadsBackIff(w: Writer, family: iset<seq<Label>>, labels: seq<Label>, b: seq<byte>)
    requires Good(w, family) && PutLabels(w, labels).Done? && PutLabels(w, labels).w.Out() <= b
    ensures Name(b, w.pos) == Some(labels) <==> Whole(w, labels)
    ensures Whole(w, labels) ==> Skip(b, w.pos) == Some(PutLabels(w, labels).w.pos)
    ensures Whole(w, labels) && (forall j | 0 <= j < |labels| :: labels[j..] in family) ==>
              Good(PutLabels(w, labels).w, family)
  {
    hide Whole, Writing, Carries, RingFinished, PutLabels, Name, Skip;
    var a := PutLabels(w, labels).w.Out();
    StartsHere(w, family);
    PrefixCarries(b, a, w.pos, w.pos);
    PrefixCarries(a, a, w.pos, w.pos);
    NameReadsBackIff(w, w.pos, family, labels, b);
    NameReadsBackIff(w, w.pos, family, labels, a);
    GoodIs(PutLabels(w, labels).w, w, family);
  }

  lemma GoodIs(v: Writer, w: Writer, family: iset<seq<Label>>)
    requires Good(w, family) && |v.buf| == |w.buf|
    ensures RingFinished(v.ring, v.Out(), family) ==> Good(v, family)
  {
    hide RingFinished;
  }

  const FRESH: Writer := Writer([0, 0, 0, 0, 0, 0, 0, 0, 0, 0, 0, 0, 0, 0, 0, 0], 0, Some(EMPTY_RING))
  const LABEL_A: Label := [97]
  const LABEL_B: Label := [98]

  /** After "a" was written first, the table finds it for every wanted name that starts so, and only then. */
  lemma FirstEntry(w: Writer, l: Label, wanted: seq<Label>)
    requires |l| == 1 && |wanted| == 1 && w == PutLabel(FRESH, l)
    ensures Find(w, wanted) == if wanted[0] == l then Some(0) else None
  {
    LabelIsLiteral(FRESH, l);
    LiteralStable(w.Out(), w.buf, 0, 2, [l]);
    LiteralNext(w.buf, 0, 2, [l]);
    assert w.buf[1..2] == l && wanted[1..] == [];
    assert w.ring.value.count == 1 && w.ring.value.offsets[0] == 0;
    assert FindFrom(w.buf, w.ring.value, 1, wanted) == None;
    assert Match(w.buf, 0, wanted) == (wanted[0] == l);
    assert FindFrom(w.buf, w.ring.value, 0, wanted) == if wanted[0] == l then Some(0) else None;
  }

  lemma FirstTwo()
    ensures var o := PutLabels(FRESH, [LABEL_A, LABEL_B]);
      o.Done? && HitsWhole(FRESH, 0, [LABEL_A, LABEL_B]) && o.w.pos == 5 && |o.w.buf| == 16
      && o.w.ring == PutLabel(PutLabel(FRESH, LABEL_A), LABEL_B).ring && o.w.Out()[0] == 1
  {
    hide PutLabels, HitsWhole, Match, PutLabel, Carries;
    var w0 := PutLabel(FRESH, LABEL_A);
    var w1 := PutLabel(w0, LABEL_B);
    FirstEntry(w0, LABEL_A, [LABEL_B]);
    assert [LABEL_A] + [LABEL_B] == [LABEL_A, LABEL_B] && [LABEL_B] + [] == [LABEL_B];
    PutStep(FRESH, LABEL_A, [LABEL_B]);
    PutStep(w0, LABEL_B, []);
    PutNothing(w1);
    LabelStep(FRESH, 0, [LABEL_A, LABEL_B]);
    LabelStep(w0, 0, [LABEL_B]);
    var b := PutLabels(w1, []).w.Out();
    PrefixCarries(b, b, 0, 0);
    EndReads(w1, 0, 0, b);
    assert w0.Out()[0] == 1;
    assert b[..2] == w0.Out();
  }

  /** The failing family, first kind: after "a.b" the name "a" is written as a reference to "a.b". */
  lemma PrefixReadsWrong()
    ensures var w := PutLabels(FRESH, [LABEL_A, LABEL_B]).w;
      PutLabels(w, [LABEL_A]).Done? && Name(PutLabels(w, [LABEL_A]).w.Out(), w.pos) == Some([LABEL_A, LABEL_B])
  {
    hide PutLabels, HitsWhole, Spells, Decode;
    FirstTwo();
    var w := PutLabels(FRESH, [LABEL_A, LABEL_B]).w;
    NextNameReadsBackIff(FRESH, ANY_NAME, [LABEL_A, LABEL_B], w.Out());
    SpellsDecoded(w.Out(), 0, MAX_SUBSTRINGS + 1);
    PrefixHit(w);
  }

  lemma PrefixHit(w: Writer)
    requires Spells(w.Out(), 0, [LABEL_A, LABEL_B])
    requires w.ring.Some? && w.ring.value.count > 0 && w.ring.value.offsets[0] == 0
    requires 2 <= |w.buf| - w.pos && |w.buf| <= REF_LIMIT && w.pos > 0 && w.Out()[0] == 1
    ensures PutLabels(w, [LABEL_A]).Done? && Name(PutLabels(w, [LABEL_A]).w.Out(), w.pos) == Some([LABEL_A, LABEL_B])
  {
    SpellsStable(w.Out(), w.buf, 0, [LABEL_A, LABEL_B]);
    MatchIsPrefix(w.buf, 0, [LABEL_A, LABEL_B], [LABEL_A]);
    assert Find(w, [LABEL_A]) == Some(0);
    var o := PutLabels(w, [LABEL_A]).w.Out();
    RefWritten(w, 0, 0, [LABEL_A], 0, o);
    SpellsStable(w.Out(), o, 0, [LABEL_A, LABEL_B]);
    DecodeSpells(o, w.pos, [LABEL_A, LABEL_B], MAX_SUBSTRINGS + 1);
  }

  /** The failing family, second kind: "a.a" refers to itself and cannot be read at all. */
  lemma RepeatedLabelLoops()
    ensures PutLabels(FRESH, [LABEL_A, LABEL_A]).Done? && Name(PutLabels(FRESH, [LABEL_A, LABEL_A]).w.Out(), 0) == None
  {
    var w0 := PutLabel(FRESH, LABEL_A);
    FirstEntry(w0, LABEL_A, [LABEL_A]);
    assert [LABEL_A, LABEL_A][1..] == [LABEL_A];
    assert PutLabels(FRESH, [LABEL_A, LABEL_A]) == PutLabels(w0, [LABEL_A]);
    var o := PutLabels(w0, [LABEL_A]).w.Out();
    if Name(o, 0).Some? {
      var x := Name(o, 0).value;
      SpellsDecoded(o, 0, MAX_SUBSTRINGS + 1);
      LabelIsLiteral(FRESH, LABEL_A);
      assert [LABEL_A][0..] == [LABEL_A];
      LiteralStable(w0.Out(), o, 0, 2, [LABEL_A]);
      LiteralStrip(o, 0, 2, [LABEL_A], x);
      OwnRefLoops(w0, 0, 0, [LABEL_A], [LABEL_A], 0, x[1..], o);
    }
  }

  // ---------- families of names under one root ----------

  predicate Distinct(labels: seq<Label>) {
    forall i, j | 0 <= i < j < |labels| :: labels[i] != labels[j]
  }

  /** Names as in "phone._vcamdroid._tcp.local": distinct labels, the last one the common root. */
  predicate Rooted(labels: seq<Label>, root: Label) {
    labels != [] && labels[|labels| - 1] == root && Distinct(labels) && AllSpellable(labels)
  }

  ghost function Family(root: Label): iset<seq<Label>> { iset n: seq<Label> | Rooted(n, root) }

  lemma RootedPrefix(n: seq<Label>, wanted: seq<Label>, root: Label)
    requires Rooted(n, root) && Rooted(wanted, root) && wanted <= n
    ensures wanted == n
  {
    assert n[|wanted| - 1] == root && n[|n| - 1] == root;
  }

  /** An own entry starts with a label that is already done, so a distinct name never matches it. */
  lemma OwnNeverMatches(w: Writer, base: nat, e: nat, done: seq<Label>, labels: seq<Label>)
    requires Own(w.Out(), base, e, done) && labels != [] && Distinct(done + labels)
    ensures !Match(w.buf, e, labels)
  {
    var a := w.Out();
    var j :| 0 <= j < |done| && Literal(a, e, |a|, done[j..]);
    LiteralStable(a, w.buf, e, |a|, done[j..]);
    LiteralNext(w.buf, e, |a|, done[j..]);
    assert done[j..][0] == (done + labels)[j] && labels[0] == (done + labels)[|done|];
  }

  lemma RootedHit(w: Writer, o: nat, base: nat, done: seq<Label>, root: Label, labels: seq<Label>)
    requires Writing(w, o, base, done, Family(root)) && Rooted(labels, root) && Distinct(done + labels)
    requires PutLabels(w, labels).Done? && Find(w, labels).Some?
    ensures HitsWhole(w, base, labels)
  {
    var target := Find(w, labels).value;
    FindInRing(w.buf, w.ring.value, 0, labels);
    assert Entry(w, o, base, done, Family(root), target);
    if Own(w.Out(), base, target, done) {
      OwnNeverMatches(w, base, target, done, labels);
    } else {
      var a := w.Out()[..o];
      var n :| n in Family(root) && Spells(a, target, n);
      assert a <= w.Out()[..base] && a <= w.buf;
      SpellsStable(a, w.buf, target, n);
      SpellsStable(a, w.Out()[..base], target, n);
      MatchIsPrefix(w.buf, target, n, labels);
      RootedPrefix(n, labels, root);
    }
  }

  lemma {:induction false} RootedHitsWhole(w: Writer, o: nat, base: nat, done: seq<Label>, root: Label,
                                           labels: seq<Label>)
    requires Writing(w, o, base, done, Family(root)) && AllSpellable(labels)
    requires labels != [] ==> Rooted(labels, root) && Distinct(done + labels)
    requires PutLabels(w, labels).Done?
    ensures HitsWhole(w, base, labels)
    decreases |labels|
  {
    hide *;
    WritingBase(w, o, base, done, Family(root));
    if labels == [] {
      EndHitsWhole(w, base);
    } else if Find(w, labels).Some? {
      RootedHit(w, o, base, done, root, labels);
    } else {
      LabelStep(w, base, labels);
      WriteLabel(w, o, base, done, Family(root), labels[0]);
      RootedTail(done, labels, root);
      RootedHitsWhole(PutLabel(w, labels[0]), o, base, done + [labels[0]], root, labels[1..]);
    }
  }

  lemma EndHitsWhole(w: Writer, base: nat)
    requires PutLabels(w, []).Done? && base <= w.pos
    ensures HitsWhole(w, base, [])
  {
  }

  lemma RootedTail(done: seq<Label>, labels: seq<Label>, root: Label)
    requires Rooted(labels, root) && Distinct(done + labels)
    ensures labels[1..] != [] ==> Rooted(labels[1..], root)
    ensures done + [labels[0]] + labels[1..] == done + labels
    ensures forall j | 0 <= j < |labels| :: Rooted(labels[j..], root)
  {
  }

  /** A name of a family is always whole, and so are its own endings for later ones. */
  lemma RootedIsWhole(w: Writer, o: nat, root: Label, labels: seq<Label>)
    requires Writing(w, o, w.pos, [], Family(root)) && Rooted(labels, root) && |labels| <= MAX_SUBSTRINGS
    requires PutLabels(w, labels).Done?
    ensures Whole(w, labels)
    ensures forall j | 0 <= j < |labels| :: labels[j..] in Family(root)
  {
    hide HitsWhole, PutLabels, Writing;
    assert [] + labels == labels;
    RootedHitsWhole(w, o, w.pos, [], root, labels);
    RootedTail([], labels, root);
  }

  // ---------- any number of names through one table ----------

  datatype Written = Written(w: Writer, starts: seq<nat>)

  function PutNames(w: Writer, names: seq<seq<Label>>): (r: Option<Written>)
    ensures r.Some? ==> |r.value.starts| == |names| && w.pos <= r.value.w.pos && w.Out() <= r.value.w.Out()
    decreases |names|
  {
    if names == [] then Some(Written(w, []))
    else match PutLabels(w, names[0])
      case Full(_) => None
      case Done(w1) =>
        match PutNames(w1, names[1..])
        case None => None
        case Some(r) => Some(Written(r.w, [w.pos] + r.starts))
  }

  /** The k-th name reads back at its own offset, and skipping it leads to the next one or to the end. */
  ghost predicate ReadsAt(r: Written, names: seq<seq<Label>>, k: nat)
    requires k < |names| == |r.starts|
  {
    && Name(r.w.Out(), r.starts[k]) == Some(names[k])
    && Skip(r.w.Out(), r.starts[k]) == Some(if k + 1 < |names| then r.starts[k + 1] else r.w.pos)
  }

  /** Each name in turn is whole. */
  ghost predicate AllWhole(w: Writer, names: seq<seq<Label>>)
    requires PutNames(w, names).Some?
    decreases |names|
  {
    names == [] || (Whole(w, names[0]) && AllWhole(PutLabels(w, names[0]).w, names[1..]))
  }

  lemma AllSuffixes(labels: seq<Label>)
    ensures forall j | 0 <= j < |labels| :: labels[j..] in ANY_NAME
  {
  }

  /** THE ROUND TRIP OF A MESSAGE'S NAMES, exactly: any list of names written through one table, over any earlier
      buffer contents and through every wrap-around of the ring, reads back, every one of them at its own offset with
      the next behind it, if and only if each in turn is whole. */
  lemma {:induction false} NamesReadBackIff(w: Writer, names: seq<seq<Label>>)
    requires Good(w, ANY_NAME) && PutNames(w, names).Some?
    ensures (forall k | 0 <= k < |names| :: ReadsAt(PutNames(w, names).value, names, k)) <==> AllWhole(w, names)
    decreases |names|
  {
    hide Whole, PutLabels, Good, AllSpellable, Name, Skip;
    if names != [] {
      NamesStep(w, names);
      var w1, rest := PutLabels(w, names[0]).w, names[1..];
      var r, r1 := PutNames(w, names).value, PutNames(w1, rest).value;
      AllSuffixes(names[0]);
      NextNameReadsBackIff(w, ANY_NAME, names[0], r.w.Out());
      if Whole(w, names[0]) {
        NamesReadBackIff(w1, rest);
        FirstStart(w1, rest);
        forall k | 0 <= k < |rest| ensures ReadsAt(r, names, k + 1) <==> ReadsAt(r1, rest, k) {}
        assert ReadsAt(r, names, 0);
        if forall k | 0 <= k < |names| :: ReadsAt(r, names, k) {
          forall k | 0 <= k < |rest| ensures ReadsAt(r1, rest, k) { assert ReadsAt(r, names, k + 1); }
        }
        if forall k | 0 <= k < |rest| :: ReadsAt(r1, rest, k) {
          forall k | 0 <= k < |names| ensures ReadsAt(r, names, k) {
            if k > 0 { assert ReadsAt(r1, rest, k - 1); }
          }
        }
      } else {
        assert !ReadsAt(r, names, 0);
      }
    }
  }

  /** Names of one family are whole, however many there are. */
  lemma {:induction false} FamilyIsAllWhole(w: Writer, root: Label, names: seq<seq<Label>>)
    requires Good(w, Family(root)) && PutNames(w, names).Some?
    requires forall n <- names :: Rooted(n, root) && |n| <= MAX_SUBSTRINGS
    ensures AllWhole(w, names)
    decreases |names|
  {
    hide Whole, PutLabels, Good, Writing, Rooted, Name, Skip;
    if names != [] {
      NamesStep(w, names);
      StartsHere(w, Family(root));
      RootedIsWhole(w, w.pos, root, names[0]);
      NextNameReadsBackIff(w, Family(root), names[0], PutLabels(w, names[0]).w.Out());
      FamilyIsAllWhole(PutLabels(w, names[0]).w, root, names[1..]);
    }
  }

  lemma NamesStep(w: Writer, names: seq<seq<Label>>)
    requires PutNames(w, names).Some?
    ensures names == [] ==> PutNames(w, names).value.w == w
    ensures names != [] ==>
      && PutLabels(w, names[0]).Done?
      && PutNames(PutLabels(w, names[0]).w, names[1..]).Some?
      && PutNames(w, names).value.w == PutNames(PutLabels(w, names[0]).w, names[1..]).value.w
  {
  }

  lemma FirstStart(w: Writer, names: seq<seq<Label>>)
    requires PutNames(w, names).Some?
    ensures names == [] ==> PutNames(w, names).value.w == w
    ensures names != [] ==> PutNames(w, names).value.starts[0] == w.pos
  {
  }

  /** What could be read stays readable, with the same end, when the message grows. */
  lemma NameStable(a: seq<byte>, b: seq<byte>, off: nat)
    requires a <= b && Name(a, off).Some?
    ensures Name(b, off) == Name(a, off) && Skip(b, off) == Skip(a, off)
  {
    DecodeStable(a, b, off, MAX_SUBSTRINGS + 1);
  }

  lemma {:induction false} DecodeStable(a: seq<byte>, b: seq<byte>, off: nat, fuel: nat)
    requires a <= b && Decode(a, off, fuel).Some?
    ensures Decode(b, off, fuel) == Decode(a, off, fuel) && SkipEnd(b, off, fuel) == SkipEnd(a, off, fuel)
    decreases fuel
  {
    hide NextSubstring, FollowRefs;
    NextStable(a, b, off);
    var s := NextSubstring(a, off);
    if s.length > 0 {
      assert a[s.offset..s.offset + s.length] == b[s.offset..s.offset + s.length];
      DecodeStable(a, b, s.offset + s.length, fuel - 1);
    }
  }
}
