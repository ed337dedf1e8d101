/** The phone's list of recently used hosts. */
module RecentHosts {
  const MAX_COUNT: nat := 8

  /** Which characters are whitespace or newlines. */
  type Blank = char -> bool

  function TrimFront(s: string, blank: Blank): string {
    if s == [] || !blank(s[0]) then s else TrimFront(s[1..], blank)
  }

  function TrimBack(s: string, blank: Blank): string
    decreases |s|
  {
    if s == [] || !blank(s[|s| - 1]) then s else TrimBack(s[..|s| - 1], blank)
  }

  function Trim(s: string, blank: Blank): string { TrimBack(TrimFront(s, blank), blank) }

  function Drop(hosts: seq<string>, host: string): (r: seq<string>)
    ensures |r| <= |hosts| && host !in r
    ensures forall h :: h in r <==> h in hosts && h != host
  {
    if hosts == [] then [] else (if hosts[0] == host then [] else [hosts[0]]) + Drop(hosts[1..], host)
  }

  function First(hosts: seq<string>): seq<string> { if |hosts| > MAX_COUNT then hosts[..MAX_COUNT] else hosts }

  /** The stored array under the store's key. */
  class RecentHostsStore {
    var stored: seq<string>

    constructor ()
      ensures stored == []
    {
      stored := [];
    }

    method Load() returns (hosts: seq<string>)
      ensures hosts == Drop(stored, "")
    {
      hosts := Filter(stored, "");
    }

    method Remember(host: string, blank: Blank)
      modifies this
      ensures stored == Remembered(old(stored), Trim(host, blank))
    {
      var trimmed := Trim(host, blank);
      if trimmed == "" { return; }
      var loaded := Load();
      var hosts := Filter(loaded, trimmed);
      hosts := [trimmed] + hosts;
      if |hosts| > MAX_COUNT { hosts := hosts[..MAX_COUNT]; }
      stored := hosts;
    }

    /** A whole history, oldest first. */
    method RememberAll(history: seq<string>, blank: Blank)
      requires stored == []
      modifies this
      ensures stored == First(Distinct(Recent(history, blank)))
    {
      hide Trim, Distinct, First, Remembered;
      var i: nat := 0;
      ListIsRecentHistory([], blank);
      NothingStored(blank);
      while i < |history|
        invariant i <= |history| && stored == Store(history[..i], blank)
      {
        Remember(history[i], blank);
        assert history[..i + 1][..i] == history[..i];
        i := i + 1;
      }
      assert history[..i] == history;
      ListIsRecentHistory(history, blank);
    }
  }

  method Filter(hosts: seq<string>, host: string) returns (r: seq<string>)
    ensures r == Drop(hosts, host)
  {
    hide Drop;
    r := [];
    var i: nat := 0;
    while i < |hosts|
      invariant i <= |hosts| && r + Drop(hosts[i..], host) == Drop(hosts, host)
    {
      DropAt(hosts, i, host);
      if hosts[i] != host { r := r + [hosts[i]]; }
      i := i + 1;
    }
    DropsNothing(host);
    assert hosts[i..] == [] && r + [] == r;
  }

  lemma DropAt(hosts: seq<string>, i: nat, host: string)
    requires i < |hosts|
    ensures Drop(hosts[i..], host) == (if hosts[i] == host then [] else [hosts[i]]) + Drop(hosts[i + 1..], host)
  {
    assert hosts[i..][1..] == hosts[i + 1..];
  }

  lemma DropsNothing(host: string)
    ensures Drop([], host) == []
  {
  }

  /** The array after a trimmed host was remembered. */
  function Remembered(stored: seq<string>, trimmed: string): seq<string> {
    if trimmed == "" then stored else First([trimmed] + Drop(Drop(stored, ""), trimmed))
  }

  function Store(history: seq<string>, blank: Blank): seq<string>
    decreases |history|
  {
    if history == [] then []
    else Remembered(Store(history[..|history| - 1], blank), Trim(history[|history| - 1], blank))
  }

  lemma NothingStored(blank: Blank)
    ensures Store([], blank) == []
  {
  }

  // ---------- the full history ----------

  /** The trimmed hosts that are not blank, latest first. */
  function Recent(history: seq<string>, blank: Blank): (r: seq<string>)
    ensures "" !in r
    decreases |history|
  {
    if history == [] then [] else
    var t := Trim(history[|history| - 1], blank);
    (if t == "" then [] else [t]) + Recent(history[..|history| - 1], blank)
  }

  /** Every host once, where it comes first. */
  function Distinct(hosts: seq<string>): (r: seq<string>)
    ensures forall h :: h in r <==> h in hosts
    decreases |hosts|
  {
    if hosts == [] then [] else [hosts[0]] + Drop(Distinct(hosts[1..]), hosts[0])
  }

  lemma {:induction false} DropNothing(hosts: seq<string>, host: string)
    requires host !in hosts
    ensures Drop(hosts, host) == hosts
    decreases |hosts|
  {
    if hosts != [] {
      assert hosts[0] in hosts;
      DropNothing(hosts[1..], host);
    }
  }

  predicate NoRepeats(hosts: seq<string>) { forall i, j | 0 <= i < j < |hosts| :: hosts[i] != hosts[j] }

  lemma {:induction false} DropKeepsNoRepeats(hosts: seq<string>, host: string)
    requires NoRepeats(hosts)
    ensures NoRepeats(Drop(hosts, host))
    decreases |hosts|
  {
    if hosts != [] {
      var rest := Drop(hosts[1..], host);
      DropKeepsNoRepeats(hosts[1..], host);
      forall j | 0 <= j < |rest| ensures rest[j] != hosts[0] {
        assert rest[j] in hosts[1..];
        var k :| 0 <= k < |hosts[1..]| && hosts[1..][k] == rest[j];
        assert hosts[k + 1] != hosts[0];
      }
    }
  }

  lemma {:induction false} DistinctHasNoRepeats(hosts: seq<string>)
    ensures NoRepeats(Distinct(hosts))
    decreases |hosts|
  {
    if hosts != [] {
      DistinctHasNoRepeats(hosts[1..]);
      DropKeepsNoRepeats(Distinct(hosts[1..]), hosts[0]);
    }
  }

  /** Dropping a host from a list without repeats costs at most one place: the first n of the short list come
      from the first n + 1 of the long one. */
  lemma {:induction false} DropFromPrefix(hosts: seq<string>, host: string, n: nat)
    requires NoRepeats(hosts) && n < |hosts|
    ensures |Drop(hosts[..n + 1], host)| >= n
    ensures |Drop(hosts, host)| >= n && Drop(hosts[..n + 1], host)[..n] == Drop(hosts, host)[..n]
    decreases |hosts|
  {
    var rest := hosts[1..];
    assert hosts[..n + 1][1..] == rest[..n];
    if hosts[0] == host {
      assert host !in rest;
      DropNothing(rest, host);
      assert host !in rest[..n];
      DropNothing(rest[..n], host);
    } else if n > 0 {
      DropFromPrefix(rest, host, n - 1);
      var a, b := Drop(rest[..n], host), Drop(rest, host);
      assert ([hosts[0]] + a)[..n] == [hosts[0]] + a[..n - 1];
      assert ([hosts[0]] + b)[..n] == [hosts[0]] + b[..n - 1];
    }
  }

  /** Remembering on the shortened list is remembering on the full one, then shortening. */
  lemma RememberCommutes(full: seq<string>, t: string)
    requires NoRepeats(full)
    ensures First([t] + Drop(First(full), t)) == First([t] + Drop(full, t))
  {
    hide Drop, NoRepeats;
    if |full| > MAX_COUNT {
      DropFromPrefix(full, t, MAX_COUNT - 1);
      var a, b := Drop(full[..MAX_COUNT], t), Drop(full, t);
      assert ([t] + a)[..MAX_COUNT] == [t] + a[..MAX_COUNT - 1];
      assert ([t] + b)[..MAX_COUNT] == [t] + b[..MAX_COUNT - 1];
    }
  }

  /** After any history the list is the first eight of the full history's distinct hosts, latest first. */
  lemma {:induction false} ListIsRecentHistory(history: seq<string>, blank: Blank)
    ensures Store(history, blank) == First(Distinct(Recent(history, blank)))
    decreases |history|
  {
    hide Trim, First, NoRepeats;
    if history == [] {
      NothingIsFirst();
    } else {
      var before := history[..|history| - 1];
      var t := Trim(history[|history| - 1], blank);
      ListIsRecentHistory(before, blank);
      var full := Distinct(Recent(before, blank));
      if t == "" {
        assert [] + Recent(before, blank) == Recent(before, blank);
      } else {
        FirstHasNoBlank(full);
        DropNothing(First(full), "");
        DistinctHasNoRepeats(Recent(before, blank));
        RememberCommutes(full, t);
        DistinctCons(t, Recent(before, blank));
      }
    }
  }

  lemma NothingIsFirst() ensures First([]) == [] {}

  lemma FirstHasNoBlank(full: seq<string>)
    requires "" !in full
    ensures "" !in First(full)
  {
  }

  lemma DistinctCons(t: string, hosts: seq<string>)
    ensures Distinct([t] + hosts) == [t] + Drop(Distinct(hosts), t)
  {
    assert ([t] + hosts)[1..] == hosts;
  }

  // ---------- what the list is ----------

  /** Trimmed: some of the front and of the back is gone, all of it blank, and neither end is blank any more. */
  predicate TrimmedTo(s: string, t: string, i: nat, j: nat, blank: Blank) {
    && i <= j <= |s| && t == s[i..j]
    && (forall k | 0 <= k < i :: blank(s[k])) && (forall k | j <= k < |s| :: blank(s[k]))
    && (t != "" ==> !blank(t[0]) && !blank(t[|t| - 1]))
  }

  lemma {:induction false} TrimFrontMeans(s: string, blank: Blank) returns (i: nat)
    ensures i <= |s| && TrimFront(s, blank) == s[i..] && (forall k | 0 <= k < i :: blank(s[k]))
    ensures i < |s| ==> !blank(s[i])
    decreases |s|
  {
    if s == [] || !blank(s[0]) {
      i := 0;
    } else {
      var j := TrimFrontMeans(s[1..], blank);
      i := j + 1;
      assert s[1..][j..] == s[i..];
      forall k | 0 <= k < i ensures blank(s[k]) { if k > 0 { assert s[k] == s[1..][k - 1]; } }
    }
  }

  lemma {:induction false} TrimBackMeans(s: string, blank: Blank) returns (j: nat)
    ensures j <= |s| && TrimBack(s, blank) == s[..j] && (forall k | j <= k < |s| :: blank(s[k]))
    ensures j > 0 ==> !blank(s[j - 1])
    decreases |s|
  {
    if s == [] || !blank(s[|s| - 1]) {
      j := |s|;
    } else {
      var init := s[..|s| - 1];
      j := TrimBackMeans(init, blank);
      assert init[..j] == s[..j];
      forall k | j <= k < |s| ensures blank(s[k]) { if k < |init| { assert s[k] == init[k]; } }
    }
  }

  lemma TrimMeans(s: string, blank: Blank) returns (i: nat, j: nat)
    ensures TrimmedTo(s, Trim(s, blank), i, j, blank)
  {
    hide TrimFront, TrimBack;
    i := TrimFrontMeans(s, blank);
    var front := s[i..];
    var k := TrimBackMeans(front, blank);
    j := i + k;
    assert front[..k] == s[i..j];
    assert forall n | j <= n < |s| :: s[n] == front[n - i];
    if k > 0 { assert s[i..j][0] == front[0] && s[i..j][k - 1] == front[k - 1]; }
  }

  /** Where a host was last remembered, counted from the end of the history. */
  ghost predicate LastAt(history: seq<string>, blank: Blank, host: string, p: nat) {
    p < |history| && Trim(history[p], blank) == host && forall q | p < q < |history| :: Trim(history[q], blank) != host
  }

  lemma {:induction false} RecentIsLast(history: seq<string>, blank: Blank, host: string) returns (p: nat)
    requires host in Recent(history, blank)
    ensures LastAt(history, blank, host, p)
    decreases |history|
  {
    hide Trim;
    var init, last := history[..|history| - 1], history[|history| - 1];
    if Trim(last, blank) == host {
      p := |init|;
    } else {
      assert host in Recent(init, blank);
      p := RecentIsLast(init, blank, host);
      assert history[p] == init[p];
      forall q | p < q < |history| ensures Trim(history[q], blank) != host {
        if q < |init| { assert history[q] == init[q]; }
      }
    }
  }

  lemma {:induction false} DropKeepsOrder(hosts: seq<string>, h: string, i: nat, j: nat) returns (m: nat, n: nat)
    requires i < j < |Drop(hosts, h)|
    ensures m < n < |hosts| && hosts[m] == Drop(hosts, h)[i] && hosts[n] == Drop(hosts, h)[j]
    decreases |hosts|
  {
    var rest := Drop(hosts[1..], h);
    if hosts[0] == h {
      m, n := DropKeepsOrder(hosts[1..], h, i, j);
      m, n := m + 1, n + 1;
    } else if i > 0 {
      m, n := DropKeepsOrder(hosts[1..], h, i - 1, j - 1);
      m, n := m + 1, n + 1;
    } else {
      assert rest[j - 1] in hosts[1..];
      var k :| 0 <= k < |hosts[1..]| && hosts[1..][k] == rest[j - 1];
      m, n := 0, k + 1;
    }
  }

  /** THE LIST, in the user's terms: at most eight hosts, none blank, none twice; each is one that was remembered,
      trimmed, and the one remembered later stands in front. */
  lemma ListIsByRecency(history: seq<string>, blank: Blank, i: nat, j: nat) returns (p: nat, q: nat)
    requires i < j < |Store(history, blank)|
    ensures var hosts := Store(history, blank);
      && |hosts| <= 8 && hosts[i] != "" && hosts[j] != "" && hosts[i] != hosts[j]
      && LastAt(history, blank, hosts[i], p) && LastAt(history, blank, hosts[j], q) && q < p
  {
    hide Trim, NoRepeats;
    ListIsRecentHistory(history, blank);
    var recent := Recent(history, blank);
    var all := Distinct(recent);
    var hosts := Store(history, blank);
    assert hosts[i] == all[i] && hosts[j] == all[j];
    DistinctHasNoRepeats(recent);
    DifferentPlaces(all, i, j);
    p := RecentIsLast(history, blank, all[i]);
    q := RecentIsLast(history, blank, all[j]);
    DistinctIsByRecency(history, blank, i, j, p, q);
  }

  lemma DifferentPlaces(hosts: seq<string>, i: nat, j: nat)
    requires NoRepeats(hosts) && i < j < |hosts|
    ensures hosts[i] != hosts[j]
  {
  }

  /** The distinct hosts after one more. */
  lemma DistinctStep(history: seq<string>, blank: Blank)
    requires history != []
    ensures var before := Distinct(Recent(history[..|history| - 1], blank));
      var t := Trim(history[|history| - 1], blank);
      Distinct(Recent(history, blank)) == if t == "" then before else [t] + Drop(before, t)
  {
    hide Trim, Distinct;
    var init := history[..|history| - 1];
    var t := Trim(history[|history| - 1], blank);
    if t == "" { assert [] + Recent(init, blank) == Recent(init, blank); } else { DistinctCons(t, Recent(init, blank)); }
  }

  lemma {:induction false} DistinctIsByRecency(history: seq<string>, blank: Blank, i: nat, j: nat, p: nat, q: nat)
    requires i < j < |Distinct(Recent(history, blank))|
    requires "" !in Distinct(Recent(history, blank))
    requires LastAt(history, blank, Distinct(Recent(history, blank))[i], p)
    requires LastAt(history, blank, Distinct(Recent(history, blank))[j], q)
    ensures q < p
    decreases |history|
  {
    hide Trim, Distinct, Recent, Drop, LastAt;
    LastIsInside(history, blank, Distinct(Recent(history, blank))[i], p);
    var init := history[..|history| - 1];
    var t := Trim(history[|history| - 1], blank);
    var all, before := Distinct(Recent(history, blank)), Distinct(Recent(init, blank));
    DistinctStep(history, blank);
    var rest := Drop(before, t);
    if t == "" {
      Shorter(history, blank, all[i], p);
      Shorter(history, blank, all[j], q);
      DistinctIsByRecency(init, blank, i, j, p, q);
    } else {
      assert all[j] == rest[j - 1] && rest[j - 1] in rest;
      Shorter(history, blank, all[j], q);
      if i == 0 {
        LastOne(history, blank, t, p);
        LastIsInside(init, blank, all[j], q);
      } else {
        var m, n := DropKeepsOrder(before, t, i - 1, j - 1);
        assert all[i] == rest[i - 1] && rest[i - 1] in rest;
        Shorter(history, blank, all[i], p);
        NoBlankBefore(history, blank);
        DistinctIsByRecency(init, blank, m, n, p, q);
      }
    }
  }

  lemma NoBlankBefore(history: seq<string>, blank: Blank)
    ensures "" !in Distinct(Recent(history[..if history == [] then 0 else |history| - 1], blank))
  {
  }

  lemma LastIsInside(history: seq<string>, blank: Blank, host: string, p: nat)
    requires LastAt(history, blank, host, p)
    ensures p < |history|
  {
  }

  lemma LastOne(history: seq<string>, blank: Blank, host: string, p: nat)
    requires LastAt(history, blank, host, p) && Trim(history[|history| - 1], blank) == host
    ensures p == |history| - 1
  {
    hide Trim;
  }

  /** A host that is not the last one remembered was remembered before. */
  lemma Shorter(history: seq<string>, blank: Blank, host: string, p: nat)
    requires LastAt(history, blank, host, p) && Trim(history[|history| - 1], blank) != host
    ensures LastAt(history[..|history| - 1], blank, host, p)
  {
    hide Trim;
  }

  /** And it is not short of any: while it holds fewer than eight, it holds every host that was ever remembered. */
  lemma NothingIsForgottenEarly(history: seq<string>, blank: Blank, k: nat)
    requires k < |history| && Trim(history[k], blank) != "" && |Store(history, blank)| < 8
    ensures Trim(history[k], blank) in Store(history, blank)
  {
    hide Trim;
    ListIsRecentHistory(history, blank);
    RememberedIsRecent(history, blank, k);
  }

  lemma {:induction false} RememberedIsRecent(history: seq<string>, blank: Blank, k: nat)
    requires k < |history| && Trim(history[k], blank) != ""
    ensures Trim(history[k], blank) in Recent(history, blank)
    decreases |history|
  {
    hide Trim;
    if k < |history| - 1 { RememberedIsRecent(history[..|history| - 1], blank, k); }
  }
}
