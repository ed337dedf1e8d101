/** Names as text: how a dotted name and its labels correspond, and what writing a name and extracting it gives back. */
module DnsText {
  import opened Bytes
  import opened DnsNames
  import opened DnsCompression
  import opened DnsEncoder
  import R = DnsRoundTrip

  /** A label as it can stand between two dots. */
  predicate Plain(l: Label) { l != [] && 46 !in l }

  lemma {:induction false} IndexAfter(a: seq<byte>, rest: seq<byte>)
    requires 46 !in a
    ensures IndexOf(a, 46) == None && IndexOf(a + [46] + rest, 46) == Some(|a|)
    decreases |a|
  {
    var s := a + [46] + rest;
    if a != [] {
      assert a[0] in a && s[1..] == a[1..] + [46] + rest;
      IndexAfter(a[1..], rest);
    }
  }

  lemma HeadAndRest(l: Label, rest: seq<byte>)
    requires Plain(l)
    ensures Split(l) == [l] && Split(l + [46] + rest) == [l] + Split(rest)
  {
    IndexAfter(l, rest);
    var s := l + [46] + rest;
    assert s[..|l|] == l && s[|l| + 1..] == rest;
    assert Rest(l) == [] && Split([]) == [];
  }

  lemma {:induction false} SplitDotted(ls: seq<Label>)
    requires ls != [] && forall l <- ls :: Plain(l)
    ensures var d := Dotted(ls); d != [] && d[|d| - 1] == 46 && Split(d[..|d| - 1]) == ls
    decreases |ls|
  {
    hide Split, Plain;
    var l, more := ls[0], ls[1..];
    assert l in ls && ls == [l] + more;
    if more == [] {
      assert Dotted(ls) == l + [46] && Dotted(ls)[..|l|] == l;
      HeadAndRest(l, []);
    } else {
      SplitDotted(more);
      var d := Dotted(more);
      var t := d[..|d| - 1];
      assert Dotted(ls) == l + [46] + d && (l + [46] + d)[..|l| + |d|] == l + [46] + t;
      HeadAndRest(l, t);
    }
  }

  /** Labels, dotted, are cut into the same labels. */
  lemma LabelsOfDotted(ls: seq<Label>)
    requires ls != [] && forall l <- ls :: Plain(l)
    ensures Dotted(ls) != [] && LabelsOf(Dotted(ls)) == ls
  {
    SplitDotted(ls);
  }

  lemma SplitStep(s: seq<byte>) returns (h: seq<byte>, t: seq<byte>)
    requires s != []
    ensures Split(s) == [h] + Split(t) && |t| < |s|
    ensures s == h + [46] + t || (s == h && t == [] && s[|s| - 1] != 46)
  {
    h, t := Head(s), Rest(s);
    match IndexOf(s, 46)
    case None => assert s[|s| - 1] in s;
    case Some(p) => assert s[..p] + [46] + s[p + 1..] == s;
  }

  lemma {:induction false} DottedSplit(s: seq<byte>)
    ensures Dotted(Split(s)) == if s == [] || s[|s| - 1] == 46 then s else s + [46]
    decreases |s|
  {
    hide Dotted, Split;
    DottedNothing();
    if s != [] {
      var h, t := SplitStep(s);
      DottedSplit(t);
      DottedCons(h, Split(t));
      if t == [] { assert h + [46] + [] == h + [46]; } else { assert s[|s| - 1] == t[|t| - 1]; }
    }
  }

  lemma DottedNothing()
    ensures Dotted([]) == [] && Split([]) == []
  {
  }

  lemma DottedCons(l: Label, ls: seq<Label>)
    ensures Dotted([l] + ls) == l + [46] + Dotted(ls)
  {
    assert ([l] + ls)[1..] == ls;
  }

  /** The name as text with one trailing dot; the root name is empty, and of several trailing dots one is dropped. */
  function Canonical(name: seq<byte>): seq<byte>
    requires name != []
  {
    if name == [46] then []
    else if |name| >= 2 && name[|name| - 1] == 46 && name[|name| - 2] == 46 then name[..|name| - 1]
    else if name[|name| - 1] == 46 then name
    else name + [46]
  }

  /** And the labels of any name, dotted, are the name again with one trailing dot. */
  lemma DottedLabelsOf(name: seq<byte>)
    requires name != []
    ensures Dotted(LabelsOf(name)) == Canonical(name)
  {
    hide Split, Dotted;
    var s := if name[|name| - 1] == 46 then name[..|name| - 1] else name;
    DottedSplit(s);
  }

  /** TEXT IN, TEXT OUT: a name made and then extracted is the same text with one trailing dot, cut at the capacity, and
      extraction stops where making did, if and only if the name is whole. */
  method MakeThenExtract(buffer: array<byte>, start: nat, name: seq<byte>, table: StringTable, str: array<byte>)
    returns (made: Option<nat>, next: nat, length: nat)
    requires start <= buffer.Length && name != [] && table.Valid() && str != buffer
    requires table.offset as object != buffer && table.offset as object != str
    requires R.Good(View(buffer, start, table), R.ANY_NAME)
    modifies buffer, table, table.offset, str
    ensures made.Some? <==> PutLabels(old(View(buffer, start, table)), LabelsOf(name)).Done?
    ensures made.Some? && R.Whole(old(View(buffer, start, table)), LabelsOf(name)) ==>
              next == made.value && length <= str.Length && str[..length] == Take(Canonical(name), str.Length)
    ensures made.Some? && made.value <= buffer.Length && !R.Whole(old(View(buffer, start, table)), LabelsOf(name)) ==>
              Name(buffer[..made.value], start) != Some(LabelsOf(name))
  {
    hide PutLabels, LabelsOf, R.Good, R.Whole, Name, Skip, Canonical;
    ghost var w := View(buffer, start, table);
    made := StringMake(buffer, start, name, table);
    next, length := start, 0;
    if made.Some? {
      ghost var v := PutLabels(w, LabelsOf(name)).w;
      assert buffer[..made.value] == v.Out();
      R.NextNameReadsBackIff(w, R.ANY_NAME, LabelsOf(name), v.Out());
      DottedLabelsOf(name);
      next, length := StringExtract(buffer, made.value, start, str, str.Length);
    }
  }
}
