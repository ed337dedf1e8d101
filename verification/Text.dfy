/** Text as the settings file needs it: lines, decimal integers, and the order in which a std::map is walked. */
module Text {
  import opened Bytes

  // ---------- lines ----------

  /** The first position of a character, or the length. */
  function Find(s: string, c: char): (i: nat)
    ensures i <= |s| && c !in s[..i]
    ensures i < |s| ==> s[i] == c
  {
    if s == [] || s[0] == c then 0 else
    var i := 1 + Find(s[1..], c);
    assert s[..i] == [s[0]] + s[1..][..i - 1];
    i
  }

  predicate HasPrefix(s: string, p: string) { |p| <= |s| && s[..|p|] == p }

  predicate Contains(s: string, p: string) { exists i | 0 <= i <= |s| :: HasPrefix(s[i..], p) }

  /** What getline yields until the end of the file. */
  function Lines(text: string): (ls: seq<string>)
    ensures forall l <- ls :: '\n' !in l
    decreases |text|
  {
    if text == [] then [] else
    var i := Find(text, '\n');
    [text[..i]] + if i < |text| then Lines(text[i + 1..]) else []
  }

  function Unlines(ls: seq<string>): string {
    if ls == [] then [] else ls[0] + "\n" + Unlines(ls[1..])
  }

  lemma {:induction false} FindAfter(a: string, c: char, rest: string)
    requires c !in a
    ensures Find(a + [c] + rest, c) == |a|
    decreases |a|
  {
    var s := a + [c] + rest;
    if a != [] {
      assert s[1..] == a[1..] + [c] + rest;
      assert a[0] in a;
      FindAfter(a[1..], c, rest);
    }
  }

  lemma {:induction false} LinesOfUnlines(ls: seq<string>)
    requires forall l <- ls :: '\n' !in l
    ensures Lines(Unlines(ls)) == ls
    decreases |ls|
  {
    hide Find;
    if ls != [] {
      var rest := Unlines(ls[1..]);
      FindAfter(ls[0], '\n', rest);
      var t := ls[0] + "\n" + rest;
      assert t[..|ls[0]|] == ls[0] && t[|ls[0]| + 1..] == rest;
      LinesOfUnlines(ls[1..]);
    }
  }

  /** A last line without a newline behind it is a line too, and an empty one is none. */
  lemma {:induction false} LastLineCounts(ls: seq<string>, last: string)
    requires (forall l <- ls :: '\n' !in l) && '\n' !in last
    ensures Lines(Unlines(ls) + last) == if last == "" then ls else ls + [last]
    decreases |ls|
  {
    hide Lines;
    if ls == [] {
      assert Unlines(ls) + last == last;
      LinesOfOne(last);
    } else {
      var rest := Unlines(ls[1..]) + last;
      assert Unlines(ls) + last == ls[0] + "\n" + rest;
      LinesCons(ls[0], rest);
      LastLineCounts(ls[1..], last);
      if last == "" { assert [ls[0]] + ls[1..] == ls; } else { assert [ls[0]] + (ls[1..] + [last]) == ls + [last]; }
    }
  }

  lemma LinesOfOne(last: string)
    requires '\n' !in last
    ensures Lines(last) == if last == "" then [] else [last]
  {
    NothingFound(last, '\n');
    assert last[..|last|] == last;
  }

  lemma LinesCons(l: string, rest: string)
    requires '\n' !in l
    ensures Lines(l + "\n" + rest) == [l] + Lines(rest)
  {
    hide Find;
    var t := l + "\n" + rest;
    FindAfter(l, '\n', rest);
    assert t[..|l|] == l && t[|l| + 1..] == rest;
  }

  lemma NothingFound(s: string, c: char)
    requires c !in s
    ensures Find(s, c) == |s|
  {
    assert forall i | 0 <= i < |s| :: s[i] in s;
  }

  // ---------- integers ----------

  predicate IsDigit(c: char) { '0' <= c <= '9' }

  function DigitChar(d: nat): (c: char)
    requires d < 10
    ensures IsDigit(c) && c as int - '0' as int == d
  {
    '0' + d as char
  }

  function Digits(n: nat): (s: string)
    ensures s != [] && forall c <- s :: IsDigit(c)
  {
    if n < 10 then [DigitChar(n)] else Digits(n / 10) + [DigitChar(n % 10)]
  }

  /** An int as a stream prints it. */
  function Itoa(x: int): (s: string)
    ensures s != [] && forall c <- s :: IsDigit(c) || c == '-'
  {
    if x < 0 then "-" + Digits(-x) else Digits(x)
  }

  function Leading(s: string, acc: nat): nat {
    if s == [] || !IsDigit(s[0]) then acc
    else Leading(s[1..], 10 * acc + (s[0] as int - '0' as int))
  }

  predicate IsSpace(c: char) { c == ' ' || '\t' <= c <= '\r' }

  /** atoi: blanks, a sign, digits; whatever follows is ignored. */
  function Atoi(s: string): int {
    if s == [] then 0
    else if IsSpace(s[0]) then Atoi(s[1..])
    else if s[0] == '-' then 0 - Leading(s[1..], 0)
    else if s[0] == '+' then Leading(s[1..], 0)
    else Leading(s, 0)
  }

  lemma {:induction false} DigitsRead(n: nat, rest: string)
    ensures Leading(Digits(n) + rest, 0) == Leading(rest, n)
    decreases n
  {
    if n < 10 {
      var s := [DigitChar(n)] + rest;
      assert s[1..] == rest;
    } else {
      var d := [DigitChar(n % 10)];
      assert Digits(n) + rest == Digits(n / 10) + (d + rest);
      DigitsRead(n / 10, d + rest);
      assert (d + rest)[1..] == rest;
    }
  }

  lemma AtoiOfItoa(x: int)
    ensures Atoi(Itoa(x)) == x
  {
    var n: nat := if x < 0 then -x else x;
    DigitsRead(n, []);
    assert Digits(n) + [] == Digits(n);
    if x < 0 { assert ("-" + Digits(n))[1..] == Digits(n); } else { assert IsDigit(Digits(n)[0]); }
  }

  lemma LeadingStops(rest: string, n: nat)
    requires rest == [] || !IsDigit(rest[0])
    ensures Leading(rest, n) == n
  {
  }

  lemma DigitsStart(m: nat, rest: string)
    ensures var t := Digits(m) + rest; t != [] && IsDigit(t[0])
  {
    hide Digits;
    assert (Digits(m) + rest)[0] == Digits(m)[0] && Digits(m)[0] in Digits(m);
  }

  lemma AtoiOfDigits(t: string)
    requires t != [] && IsDigit(t[0])
    ensures Atoi(t) == Leading(t, 0) && Atoi(['+'] + t) == Leading(t, 0) && Atoi(['-'] + t) == -(Leading(t, 0) as int)
  {
    hide Leading;
    assert (['+'] + t)[1..] == t && (['-'] + t)[1..] == t;
  }

  /** A number, with or without its sign, is read up to the first character that is no digit. */
  lemma AtoiReads(n: int, rest: string)
    requires rest == [] || !('0' <= rest[0] <= '9')
    ensures Atoi(Itoa(n) + rest) == n
    ensures n >= 0 ==> Atoi(['+'] + (Itoa(n) + rest)) == n
  {
    hide Leading, Digits, Atoi;
    var m: nat := if n < 0 then -n else n;
    var t := Digits(m) + rest;
    DigitsRead(m, rest);
    LeadingStops(rest, m);
    DigitsStart(m, rest);
    AtoiOfDigits(t);
    if n < 0 { assert Itoa(n) + rest == ['-'] + t; }
  }

  /** Blanks in front do not matter, and what is no number is zero. */
  lemma AtoiOtherwise(c: char, s: string)
    ensures c == ' ' || '\t' <= c <= '\r' ==> Atoi([c] + s) == Atoi(s)
    ensures c !in {' ', '+', '-'} && !('\t' <= c <= '\r') && !('0' <= c <= '9') ==> Atoi([c] + s) == 0
    ensures Atoi([]) == 0
  {
    assert ([c] + s)[1..] == s;
  }

  // ---------- the order of a std::map ----------

  predicate Below(a: string, b: string) {
    a == [] || (b != [] && (a[0] < b[0] || (a[0] == b[0] && Below(a[1..], b[1..]))))
  }

  lemma {:induction false} BelowIsTotal(a: string, b: string)
    ensures Below(a, b) || Below(b, a)
    decreases |a|
  {
    if a != [] && b != [] { BelowIsTotal(a[1..], b[1..]); }
  }

  lemma {:induction false} BelowIsAntisymmetric(a: string, b: string)
    requires Below(a, b) && Below(b, a)
    ensures a == b
    decreases |a|
  {
    if a != [] && b != [] {
      BelowIsAntisymmetric(a[1..], b[1..]);
      assert a == [a[0]] + a[1..] && b == [b[0]] + b[1..];
    }
  }

  lemma {:induction false} BelowIsTransitive(a: string, b: string, c: string)
    requires Below(a, b) && Below(b, c)
    ensures Below(a, c)
    decreases |a|
  {
    if a != [] && a[0] == b[0] == c[0] { BelowIsTransitive(a[1..], b[1..], c[1..]); }
  }

  predicate Least(m: string, s: set<string>) { m in s && forall x <- s :: Below(m, x) }

  lemma {:induction false} LeastExists(s: set<string>) returns (m: string)
    requires s != {}
    ensures Least(m, s)
    decreases |s|
  {
    hide Below;
    var k :| k in s;
    var rest := s - {k};
    BelowIsTotal(k, k);
    if rest == {} {
      m := k;
      assert s == {k};
    } else {
      var j := LeastExists(rest);
      BelowIsTotal(k, j);
      m := if Below(k, j) then k else j;
      forall x | x in s ensures Below(m, x) {
        if x != k && m == k { BelowIsTransitive(k, j, x); }
      }
    }
  }

  lemma LeastIsUnique(s: set<string>)
    ensures forall m, n :: Least(m, s) && Least(n, s) ==> m == n
  {
    hide Below;
    forall m, n | Least(m, s) && Least(n, s) ensures m == n { BelowIsAntisymmetric(m, n); }
  }

  /** The keys in increasing order, each once. */
  function Sorted(s: set<string>): (r: seq<string>)
    ensures forall x :: x in s <==> x in r
    ensures forall i, j :: 0 <= i < j < |r| ==> r[i] != r[j]
    decreases |s|
  {
    if s == {} then [] else
    var _ := SomeLeast(s);
    var m :| Least(m, s);
    [m] + Sorted(s - {m})
  }

  function SomeLeast(s: set<string>): (u: ())
    requires s != {}
    ensures exists m :: Least(m, s)
    ensures forall m, n :: Least(m, s) && Least(n, s) ==> m == n
  {
    LeastIsUnique(s);
    Witnessed(s);
    ()
  }

  lemma Witnessed(s: set<string>)
    requires s != {}
    ensures exists m :: Least(m, s)
  {
    var m := LeastExists(s);
  }

  lemma NothingSorted()
    ensures Sorted({}) == []
  {
  }

  lemma SortedUnfold(s: set<string>) returns (m: string)
    requires s != {}
    ensures Least(m, s) && Sorted(s) == [m] + Sorted(s - {m})
  {
    hide Below;
    m := Sorted(s)[0];
  }

  lemma {:induction false} SortedIsSorted(s: set<string>, i: nat, j: nat)
    requires i < j < |Sorted(s)|
    ensures Below(Sorted(s)[i], Sorted(s)[j])
    decreases |s|
  {
    hide Below, Sorted;
    if s == {} {
      NothingSorted();
      assert false;
    } else {
      var m := SortedUnfold(s);
      if i == 0 { assert Sorted(s)[j] in Sorted(s); } else { SortedIsSorted(s - {m}, i - 1, j - 1); }
    }
  }

  // ---------- a map, filled in key by key ----------

  function Fill<V>(acc: map<string, V>, order: seq<string>, m: map<string, V>): map<string, V>
    requires forall k <- order :: k in m
    decreases |order|
  {
    if order == [] then acc else Fill(acc[order[0] := m[order[0]]], order[1..], m)
  }

  lemma {:induction false} FillHolds<V>(acc: map<string, V>, order: seq<string>, m: map<string, V>)
    requires forall k <- order :: k in m
    ensures forall k :: k in Fill(acc, order, m) <==> k in acc || k in order
    ensures forall k <- order :: Fill(acc, order, m)[k] == m[k]
    decreases |order|
  {
    if order != [] {
      FillHolds(acc[order[0] := m[order[0]]], order[1..], m);
      if order[0] !in order[1..] { FillKeeps(acc[order[0] := m[order[0]]], order[1..], m, order[0]); }
    }
  }

  lemma {:induction false} FillKeeps<V>(acc: map<string, V>, order: seq<string>, m: map<string, V>, k: string)
    requires (forall k <- order :: k in m) && k in acc && k !in order
    ensures k in Fill(acc, order, m) && Fill(acc, order, m)[k] == acc[k]
    decreases |order|
  {
    if order != [] { FillKeeps(acc[order[0] := m[order[0]]], order[1..], m, k); }
  }

  lemma FillIsWhole<V>(m: map<string, V>)
    ensures Fill(map[], Sorted(m.Keys), m) == m
  {
    hide Sorted;
    FillHolds(map[], Sorted(m.Keys), m);
  }
}
