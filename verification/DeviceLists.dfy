/** The two lists a device is in on the PC: the server's connections and the manager's descriptors, and the
    index into both that says which device is streaming. */
module DeviceLists {
  import opened Bytes
  import Activation
  import Control
  import Descriptors

  /** A connected phone; the serial tells apart phones that call themselves the same. */
  datatype Device = Device(name: seq<byte>, url: seq<byte>, serial: nat)

  /** A place in the descriptor vector; a moved-from descriptor is the same as no device. */
  datatype Slot = Live(device: Device) | Moved

  /** Descriptors compare by name and URL. */
  predicate Same(s: Slot, d: Device) { s.Live? && s.device.name == d.name && s.device.url == d.url }

  predicate NoMatch(v: seq<Slot>, d: Device) { forall s <- v :: !Same(s, d) }
  predicate AllMatch(v: seq<Slot>, d: Device) { forall s <- v :: Same(s, d) }

  /** What std::remove moves to the front. */
  function Kept(v: seq<Slot>, d: Device): (r: seq<Slot>)
    ensures |r| <= |v|
    decreases |v|
  {
    if v == [] then [] else
    Kept(v[..|v| - 1], d) + if Same(v[|v| - 1], d) then [] else [v[|v| - 1]]
  }

  /** The vector as std::remove leaves it: behind the kept elements, matches stay and the others were moved
      from. */
  function Removed(v: seq<Slot>, d: Device): (r: seq<Slot>)
    ensures |r| == |v|
  {
    var n := |Kept(v, d)|;
    Kept(v, d) + seq(|v| - n, i requires 0 <= i < |v| - n => if Same(v[n + i], d) then v[n + i] else Moved)
  }

  /** The manager then erases one element, the first behind the kept ones. */
  function Erased(v: seq<Slot>, d: Device): seq<Slot>
    requires |Kept(v, d)| < |v|
  {
    var n := |Kept(v, d)|;
    Removed(v, d)[..n] + Removed(v, d)[n + 1..]
  }

  function Without<T>(v: seq<T>, i: nat): seq<T>
    requires i < |v|
  {
    v[..i] + v[i + 1..]
  }

  /** The index of the first match, or the size. */
  function FirstMatch(v: seq<Slot>, d: Device): (i: nat)
    ensures i <= |v| && NoMatch(v[..i], d) && (i < |v| ==> Same(v[i], d))
  {
    if v == [] || Same(v[0], d) then 0 else
    var i := 1 + FirstMatch(v[1..], d);
    assert forall s <- v[..i] :: s == v[0] || s in v[1..][..i - 1];
    i
  }

  // ---------- what erasing one element gets right ----------

  lemma {:induction false} KeptAppend(a: seq<Slot>, b: seq<Slot>, d: Device)
    ensures Kept(a + b, d) == Kept(a, d) + Kept(b, d)
    decreases |b|
  {
    if b == [] {
      assert a + b == a;
    } else {
      var init, last := b[..|b| - 1], b[|b| - 1];
      assert (a + b)[..|a + b| - 1] == a + init && (a + b)[|a + b| - 1] == last;
      KeptAppend(a, init, d);
    }
  }

  lemma {:induction false} KeptAll(v: seq<Slot>, d: Device)
    requires NoMatch(v, d)
    ensures Kept(v, d) == v
    decreases |v|
  {
    if v != [] {
      var init, last := v[..|v| - 1], v[|v| - 1];
      assert v == init + [last] && last in v;
      KeptAll(init, d);
    }
  }

  lemma {:induction false} KeptNone(v: seq<Slot>, d: Device)
    requires AllMatch(v, d)
    ensures Kept(v, d) == []
    decreases |v|
  {
    if v != [] { KeptNone(v[..|v| - 1], d); assert v[|v| - 1] in v; }
  }

  lemma {:induction false} KeptShrinksIff(v: seq<Slot>, d: Device)
    ensures |Kept(v, d)| == |v| <==> NoMatch(v, d)
    decreases |v|
  {
    if v != [] {
      var init, last := v[..|v| - 1], v[|v| - 1];
      assert v == init + [last];
      KeptShrinksIff(init, d);
      assert last in v;
    }
  }

  lemma KeptOfLast(init: seq<Slot>, last: Slot, d: Device)
    ensures Kept(init + [last], d) == Kept(init, d) + if Same(last, d) then [] else [last]
  {
    assert (init + [last])[..|init|] == init;
  }

  /** All but one kept: there is one match. */
  lemma {:induction false} OneMissing(v: seq<Slot>, d: Device) returns (p: nat)
    requires |Kept(v, d)| == |v| - 1
    ensures p < |v| && Same(v[p], d) && NoMatch(v[..p], d) && NoMatch(v[p + 1..], d)
    ensures Kept(v, d) == Without(v, p)
    decreases |v|
  {
    hide Same, NoMatch, Kept, Without;
    var init, last := v[..|v| - 1], v[|v| - 1];
    assert v == init + [last];
    KeptOfLast(init, last, d);
    if Same(last, d) {
      p := |init|;
      KeptShrinksIff(init, d);
      KeptAll(init, d);
      LastMatches(init, last, d);
    } else {
      p := OneMissing(init, d);
      OneMoreToKeep(init, p, last, d);
    }
  }

  lemma LastMatches(init: seq<Slot>, last: Slot, d: Device)
    ensures var v := init + [last]; v[..|init|] == init && NoMatch(v[|init| + 1..], d) && Without(v, |init|) == init
  {
  }

  lemma OneMoreToKeep(init: seq<Slot>, p: nat, last: Slot, d: Device)
    requires p < |init| && NoMatch(init[p + 1..], d) && !Same(last, d)
    ensures var v := init + [last];
      v[..p] == init[..p] && NoMatch(v[p + 1..], d) && Without(v, p) == Without(init, p) + [last]
  {
    var v := init + [last];
    assert v[p + 1..] == init[p + 1..] + [last];
  }

  /** The condition: no match in front of the device, and those behind it, if any, close the list. */
  predicate MatchesClose(v: seq<Slot>, d: Device, i: nat)
    requires i < |v|
  {
    NoMatch(v[..i], d) && exists m | i < m <= |v| :: NoMatch(v[i + 1..m], d) && AllMatch(v[m..], d)
  }

  predicate Distinct(v: seq<Slot>) { forall i, j | 0 <= i < j < |v| :: v[i] != v[j] }

  lemma KeptOfClosing(a: seq<Slot>, x: Slot, b: seq<Slot>, c: seq<Slot>, d: Device)
    requires NoMatch(a, d) && Same(x, d) && NoMatch(b, d) && AllMatch(c, d)
    ensures Kept(a + [x] + (b + c), d) == a + b
  {
    hide Kept, NoMatch, Same, AllMatch;
    KeptAppend(a + [x], b + c, d);
    KeptAppend(a, [x], d);
    KeptAppend(b, c, d);
    KeptAll(a, d);
    KeptAll(b, d);
    KeptNone(c, d);
    OneIsNotKept(x, d);
    assert a + [] + (b + []) == a + b;
  }

  lemma OneIsNotKept(x: Slot, d: Device)
    requires Same(x, d)
    ensures Kept([x], d) == []
  {
    assert [x][..0] == [];
  }

  lemma ClosingMatchesErase(v: seq<Slot>, d: Device, i: nat, m: nat)
    requires i < m <= |v| && Same(v[i], d) && NoMatch(v[..i], d) && NoMatch(v[i + 1..m], d) && AllMatch(v[m..], d)
    ensures |Kept(v, d)| < |v| && Erased(v, d) == Without(v, i)
  {
    hide Kept, Removed, Erased, NoMatch, AllMatch;
    var a, b, c := v[..i], v[i + 1..m], v[m..];
    assert v == a + [v[i]] + (b + c);
    KeptOfClosing(a, v[i], b, c, d);
    assert Without(v[..m], i) == a + b;
    ErasedIs(v, d, i);
  }

  /** The manager's list loses exactly the device at index i, if and only if the condition holds. */
  lemma RemovalIsRightIff(v: seq<Slot>, d: Device, i: nat)
    requires i < |v| && Same(v[i], d) && Distinct(v) && forall s <- v :: s.Live?
    ensures |Kept(v, d)| < |v| && (Erased(v, d) == Without(v, i) <==> MatchesClose(v, d, i))
  {
    KeptShrinksIff(v, d);
    assert v[i] in v;
    if MatchesClose(v, d, i) {
      var m :| i < m <= |v| && NoMatch(v[i + 1..m], d) && AllMatch(v[m..], d);
      ClosingMatchesErase(v, d, i, m);
    } else if Erased(v, d) == Without(v, i) {
      RightRemovalCloses(v, d, i);
      assert false;
    }
  }

  lemma RightRemovalCloses(v: seq<Slot>, d: Device, i: nat)
    requires i < |v| && Same(v[i], d) && Distinct(v) && forall s <- v :: s.Live?
    requires |Kept(v, d)| < |v| && Erased(v, d) == Without(v, i)
    ensures MatchesClose(v, d, i)
  {
    var n := |Kept(v, d)|;
    var front, back := v[..n + 1], v[n + 1..];
    BackMatches(v, d, i);
    KeptNone(back, d);
    assert v == front + back;
    KeptAppend(front, back, d);
    var p := OneMissing(front, d);
    ErasedIs(v, d, p);
    SameHole(v, p, i);
    assert v[..i] == front[..i] && v[i + 1..n + 1] == front[i + 1..];
    assert i < n + 1 <= |v| && NoMatch(v[i + 1..n + 1], d) && AllMatch(v[n + 1..], d);
  }

  /** Nothing moved from is left, so everything behind the erased element matches. */
  lemma BackMatches(v: seq<Slot>, d: Device, i: nat)
    requires i < |v| && forall s <- v :: s.Live?
    requires |Kept(v, d)| < |v| && Erased(v, d) == Without(v, i)
    ensures AllMatch(v[|Kept(v, d)| + 1..], d)
  {
    var n := |Kept(v, d)|;
    forall j | n + 1 <= j < |v| ensures Same(v[j], d) {
      var e := Erased(v, d);
      assert e[j - 1] == Removed(v, d)[j] == if Same(v[j], d) then v[j] else Moved;
      assert Without(v, i)[j - 1] in v;
    }
  }

  lemma ErasedIs(v: seq<Slot>, d: Device, p: nat)
    requires var n := |Kept(v, d)|; n < |v| && p <= n && AllMatch(v[n + 1..], d) && Kept(v, d) == Without(v[..n + 1], p)
    ensures Erased(v, d) == Without(v, p)
  {
    hide Kept, Removed, Without, AllMatch, Same;
    MatchesStay(v, d);
    HoleInFront(v, |Kept(v, d)| + 1, p);
  }

  /** Behind the kept elements std::remove leaves the matches where they are. */
  lemma MatchesStay(v: seq<Slot>, d: Device)
    requires var n := |Kept(v, d)|; n < |v| && AllMatch(v[n + 1..], d)
    ensures var n := |Kept(v, d)|; Removed(v, d)[..n] == Kept(v, d) && Removed(v, d)[n + 1..] == v[n + 1..]
  {
    hide Kept, Same;
    var n := |Kept(v, d)|;
    forall j | n + 1 <= j < |v| ensures Removed(v, d)[j] == v[j] { assert v[n + 1..][j - (n + 1)] == v[j]; }
  }

  lemma HoleInFront(v: seq<Slot>, n: nat, p: nat)
    requires p < n <= |v|
    ensures Without(v, p) == Without(v[..n], p) + v[n..]
  {
  }

  lemma SameHole(v: seq<Slot>, p: nat, i: nat)
    requires p < |v| && i < |v| && Distinct(v) && Without(v, p) == Without(v, i)
    ensures p == i
  {
    hide Without;
    if p < i {
      WithoutAt(v, p, p);
      WithoutAt(v, i, p);
    } else if i < p {
      WithoutAt(v, p, i);
      WithoutAt(v, i, i);
    }
  }

  lemma WithoutAt(v: seq<Slot>, p: nat, j: nat)
    requires p < |v| && j < |v| - 1
    ensures |Without(v, p)| == |v| - 1 && Without(v, p)[j] == if j < p then v[j] else v[j + 1]
  {
  }

  // ---------- the two lists over a run ----------

  /** `chosen` is what the user selected last; the program has no such field. */
  datatype Desk = Desk(connections: seq<Device>, descriptors: seq<Slot>, streaming: int, chosen: Option<Device>)

  const EMPTY: Desk := Desk([], [], -1, None)

  datatype Event = Connected(device: Device) | Disconnected(index: nat) | Selected(index: nat) | Stopped

  function AllLive(ds: seq<Device>): (v: seq<Slot>)
    ensures |v| == |ds| && forall i | 0 <= i < |ds| :: v[i] == Live(ds[i])
  {
    seq(|ds|, i requires 0 <= i < |ds| => Live(ds[i]))
  }

  /** RemoveDescriptor's adjustment of the streaming index. */
  function AfterRemoval(streaming: int, removed: nat): int {
    if streaming == removed then -1 else if streaming > removed then streaming - 1 else streaming
  }

  /** What can happen next: only what is there can leave or be selected, and erasing needs a match. */
  predicate Possible(s: Desk, e: Event) {
    match e
    case Connected(_) => true
    case Disconnected(k) => k < |s.connections| && |Kept(s.descriptors, s.connections[k])| < |s.descriptors|
    case Selected(k) => k < |s.descriptors| && k < |s.connections|
    case Stopped => true
  }

  function Step(s: Desk, e: Event): Desk
    requires Possible(s, e)
  {
    match e
    case Connected(d) => s.(connections := s.connections + [d], descriptors := s.descriptors + [Live(d)])
    case Disconnected(k) =>
      var d := s.connections[k];
      Desk(Without(s.connections, k), Erased(s.descriptors, d),
           AfterRemoval(s.streaming, FirstMatch(s.descriptors, d)),
           if s.chosen == Some(d) then None else s.chosen)
    case Selected(k) => s.(streaming := k, chosen := Some(s.connections[k]))
    case Stopped => s.(streaming := -1, chosen := None)
  }

  predicate DistinctDevices(ds: seq<Device>) {
    forall i, j | 0 <= i < j < |ds| :: !Same(Live(ds[i]), ds[j])
  }

  /** The lists are parallel, and the index names the chosen device. */
  predicate Parallel(s: Desk) {
    && s.descriptors == AllLive(s.connections)
    && DistinctDevices(s.connections)
    && (if s.chosen.None? then s.streaming == -1
        else 0 <= s.streaming < |s.connections| && s.connections[s.streaming] == s.chosen.value)
  }

  /** Nobody connects under the name and URL of a device that is already there. */
  predicate NoTwin(s: Desk, e: Event) {
    e.Connected? ==> forall d <- s.connections :: d.name != e.device.name || d.url != e.device.url
  }

  /** The only match is the device itself. */
  lemma OnlyMatch(ds: seq<Device>, k: nat)
    requires k < |ds| && DistinctDevices(ds)
    ensures var v := AllLive(ds);
      && NoMatch(v[..k], ds[k]) && NoMatch(v[k + 1..], ds[k]) && FirstMatch(v, ds[k]) == k
  {
    var v := AllLive(ds);
    forall i | 0 <= i < |v| && i != k ensures !Same(v[i], ds[k]) {
      if i < k { assert !Same(Live(ds[i]), ds[k]); } else { assert !Same(Live(ds[k]), ds[i]); }
    }
    FirstMatchIs(v, ds[k], k);
  }

  lemma {:induction false} FirstMatchIs(v: seq<Slot>, d: Device, k: nat)
    requires k < |v| && Same(v[k], d) && NoMatch(v[..k], d)
    ensures FirstMatch(v, d) == k
    decreases k
  {
    if k > 0 {
      assert v[0] == v[..k][0];
      assert v[1..][..k - 1] == v[..k][1..];
      FirstMatchIs(v[1..], d, k - 1);
    }
  }

  lemma WithoutKeepsParallel(ds: seq<Device>, k: nat)
    requires k < |ds| && DistinctDevices(ds)
    ensures Erased.requires(AllLive(ds), ds[k])
    ensures Erased(AllLive(ds), ds[k]) == AllLive(Without(ds, k)) && DistinctDevices(Without(ds, k))
  {
    hide FirstMatch, Kept, Removed, Erased;
    var v := AllLive(ds);
    OnlyMatch(ds, k);
    ClosingMatchesErase(v, ds[k], k, |v|);
    assert AllLive(Without(ds, k)) == Without(v, k);
    DistinctWithout(ds, k);
  }

  lemma DistinctWithout(ds: seq<Device>, k: nat)
    requires k < |ds| && DistinctDevices(ds)
    ensures DistinctDevices(Without(ds, k))
  {
    var w := Without(ds, k);
    forall i, j | 0 <= i < j < |w| ensures !Same(Live(w[i]), w[j]) {
      var i', j' := if i < k then i else i + 1, if j < k then j else j + 1;
      assert w[i] == ds[i'] && w[j] == ds[j'] && !Same(Live(ds[i']), ds[j']);
    }
  }

  lemma StepKeepsParallel(s: Desk, e: Event)
    requires Parallel(s) && Possible(s, e) && NoTwin(s, e)
    ensures Parallel(Step(s, e))
  {
    hide FirstMatch, Kept, Removed, Erased;
    match e
    case Connected(d) =>
      assert AllLive(s.connections + [d]) == AllLive(s.connections) + [Live(d)];
      ConnectKeepsDistinct(s.connections, d);
    case Disconnected(k) =>
      OnlyMatch(s.connections, k);
      WithoutKeepsParallel(s.connections, k);
      if s.chosen.Some? && s.streaming != k { NotTheSame(s.connections, s.streaming, k); }
    case Selected(k) =>
    case Stopped =>
  }

  lemma NotTheSame(ds: seq<Device>, i: nat, k: nat)
    requires i < |ds| && k < |ds| && i != k && DistinctDevices(ds)
    ensures ds[i] != ds[k]
  {
    if i < k { assert !Same(Live(ds[i]), ds[k]); } else { assert !Same(Live(ds[k]), ds[i]); }
  }

  lemma ConnectKeepsDistinct(ds: seq<Device>, d: Device)
    requires DistinctDevices(ds) && forall e <- ds :: e.name != d.name || e.url != d.url
    ensures DistinctDevices(ds + [d])
  {
    forall i, j | 0 <= i < j < |ds + [d]| ensures !Same(Live((ds + [d])[i]), (ds + [d])[j]) {
      if j == |ds| { assert ds[i] in ds; }
    }
  }

  predicate PossibleRun(s: Desk, es: seq<Event>)
    decreases |es|
  {
    es == [] || (Possible(s, es[0]) && PossibleRun(Step(s, es[0]), es[1..]))
  }

  predicate TwinFree(s: Desk, es: seq<Event>)
    requires PossibleRun(s, es)
    decreases |es|
  {
    es == [] || (NoTwin(s, es[0]) && TwinFree(Step(s, es[0]), es[1..]))
  }

  function Run(s: Desk, es: seq<Event>): Desk
    requires PossibleRun(s, es)
    decreases |es|
  {
    if es == [] then s else Run(Step(s, es[0]), es[1..])
  }

  lemma {:induction false} RunKeepsParallel(s: Desk, es: seq<Event>)
    requires Parallel(s) && PossibleRun(s, es) && TwinFree(s, es)
    ensures Parallel(Run(s, es))
    decreases |es|
  {
    hide Step, Parallel, Possible, NoTwin;
    if es != [] {
      StepKeepsParallel(s, es[0]);
      RunKeepsParallel(Step(s, es[0]), es[1..]);
    }
  }

  /** Which connection a command goes to: the manager checks its own list, the server its own. */
  function Target(s: Desk): Option<Device> {
    if 0 <= s.streaming < |s.descriptors| && s.streaming < |s.connections| then Some(s.connections[s.streaming])
    else None
  }

  /** What each event does to who is commanded: a selection decides it, a stop ends it, an arrival leaves it, and
      so does a departure, except of the device commanded, which leaves nobody. */
  lemma WhoIsCommanded(s: Desk, e: Event)
    requires Parallel(s) && Possible(s, e) && NoTwin(s, e)
    ensures match e
      case Connected(d) => Target(Step(s, e)) == Target(s) && Step(s, e).connections == s.connections + [d]
      case Disconnected(k) =>
        && Step(s, e).connections == s.connections[..k] + s.connections[k + 1..]
        && Target(Step(s, e)) == if Target(s) == Some(s.connections[k]) then None else Target(s)
      case Selected(k) => Target(Step(s, e)) == Some(s.connections[k]) && Step(s, e).connections == s.connections
      case Stopped => Target(Step(s, e)) == None && Step(s, e).connections == s.connections
  {
    hide FirstMatch, Kept, Removed, Erased, DistinctDevices, NoMatch;
    StepKeepsParallel(s, e);
    TargetIsChosen(s);
    TargetIsChosen(Step(s, e));
  }

  lemma TargetIsChosen(s: Desk)
    requires Parallel(s)
    ensures Target(s) == s.chosen
  {
    hide DistinctDevices;
  }

  /** In parallel lists a disconnect always finds its descriptor. */
  lemma DisconnectIsPossible(s: Desk, k: nat)
    requires Parallel(s) && k < |s.connections|
    ensures Possible(s, Disconnected(k))
  {
    hide FirstMatch, Kept, Removed, Erased;
    WithoutKeepsParallel(s.connections, k);
  }

  /** Only what is connected can leave, and only what is listed can be selected. */
  predicate Present(s: Desk, e: Event) {
    match e
    case Disconnected(k) => k < |s.connections|
    case Selected(k) => k < |s.descriptors| && k < |s.connections|
    case _ => true
  }

  /** A run of devices that differ, said without asking whether an erasure is defined. */
  predicate DistinctRun(s: Desk, es: seq<Event>)
    decreases |es|
  {
    es == [] || (Present(s, es[0]) && NoTwin(s, es[0]) && (Possible(s, es[0]) ==> DistinctRun(Step(s, es[0]), es[1..])))
  }

  lemma PresentIsPossible(s: Desk, e: Event)
    requires Parallel(s) && Present(s, e)
    ensures Possible(s, e)
  {
    hide Parallel, Kept;
    if e.Disconnected? { DisconnectIsPossible(s, e.index); }
  }

  lemma {:induction false} DistinctRunIsPossible(s: Desk, es: seq<Event>)
    requires Parallel(s) && DistinctRun(s, es)
    ensures PossibleRun(s, es) && TwinFree(s, es)
    decreases |es|
  {
    hide Step, Parallel, Possible, NoTwin, Present;
    if es != [] {
      PresentIsPossible(s, es[0]);
      StepKeepsParallel(s, es[0]);
      DistinctRunIsPossible(Step(s, es[0]), es[1..]);
    }
  }

  /** In every run of devices that differ, each erasure is defined, the lists stay parallel, and commands reach the
      device that was selected, if it is still there, and nobody else. */
  lemma CommandsReachTheChosenDevice(es: seq<Event>)
    requires DistinctRun(EMPTY, es)
    ensures PossibleRun(EMPTY, es)
    ensures var s := Run(EMPTY, es);
      && s.descriptors == AllLive(s.connections)
      && (s.streaming == -1 || 0 <= s.streaming < |s.connections|)
      && Target(s) == s.chosen
  {
    hide Run, PossibleRun, Step, Possible, TwinFree, DistinctRun;
    assert Parallel(EMPTY);
    DistinctRunIsPossible(EMPTY, es);
    RunKeepsParallel(EMPTY, es);
  }

  /** Twins: when the second of two devices with one name and URL leaves, the manager drops the descriptor of
      the first, so its list names a device that is no longer connected. */
  lemma TwinsAreConfused(a: Device, b: Device)
    requires a.name == b.name && a.url == b.url && a != b
    ensures var v := [Live(a), Live(b)];
      && |Kept(v, b)| < |v|
      && Erased(v, b) == [Live(b)] != AllLive(Without([a, b], 1))
      && !MatchesClose(v, b, 1)
  {
    var v := [Live(a), Live(b)];
    assert Same(v[0], b) && Same(v[1], b);
    assert AllMatch(v[1..], b);
    ClosingMatchesErase(v, b, 0, 1);
    assert Without(v, 0) == [Live(b)];
    assert Without([a, b], 1) == [a];
    assert v[..1][0] == Live(a);
  }

  // ---------- the classes ----------

  /** What a receiver is started with; the transport says which of the two receivers it is. */
  datatype Receiver = Receiver(transport: Descriptors.Transport, url: seq<byte>, protocol: Descriptors.Protocol,
                               width: int, height: int)

  function ReceiverFor(d: Device, streamUrlOverride: Option<seq<byte>>, o: Activation.StreamOptions): Receiver {
    Receiver(Descriptors.TransportOf(d.url),
             if streamUrlOverride.Some? && streamUrlOverride.value != [] then streamUrlOverride.value else d.url,
             Descriptors.ProtocolOf(d.url), o.width, o.height)
  }

  /** A receiver is of the kind the device's own URL says, is pointed at the other URL if one is given and is not empty,
      and expects the size that was chosen. */
  lemma ReceiverSays(d: Device, streamUrlOverride: Option<seq<byte>>, o: Activation.StreamOptions)
    ensures var r := ReceiverFor(d, streamUrlOverride, o);
      && r.transport == (if Descriptors.SaysVcmd(d.url) then Descriptors.RawTcp else Descriptors.Rtsp)
      && r.protocol == (if Descriptors.SaysVcmd(d.url) || Descriptors.SaysLoopback(d.url) then Descriptors.Tcp
                        else Descriptors.Udp)
      && r.width == o.width && r.height == o.height
      && (streamUrlOverride == None || streamUrlOverride == Some([]) ==> r.url == d.url)
      && (streamUrlOverride.Some? && streamUrlOverride.value != [] ==> r.url == streamUrlOverride.value)
  {
    hide Descriptors.TransportOf, Descriptors.ProtocolOf, Descriptors.SaysVcmd, Descriptors.SaysLoopback;
    Descriptors.UrlSays(d.url);
  }

  /** A packet and whom it is sent to, if anyone. */
  type Sending = Option<(Device, seq<byte>)>

  class Server {
    var connections: seq<Device>

    constructor ()
      ensures connections == []
    {
      connections := [];
    }

    method Accepted(d: Device, listener: Manager, ghost chosen: Option<Device>)
      requires listener.server == this
      modifies this, listener`descriptors
      ensures listener.Seen(chosen) == Step(old(listener.Seen(chosen)), Connected(d))
    {
      connections := connections + [d];
      listener.AddDescriptor(d);
    }

    method OnConnectionDisconnected(k: nat, listener: Manager, ghost chosen: Option<Device>)
      requires listener.server == this && Possible(listener.Seen(chosen), Disconnected(k))
      modifies this, listener
      ensures var s := Step(old(listener.Seen(chosen)), Disconnected(k)); listener.Seen(s.chosen) == s
    {
      hide Kept, Removed, FirstMatch;
      var d := connections[k];
      connections := connections[..k] + connections[k + 1..];
      listener.RemoveDescriptor(d);
    }

    method Send(id: int, bytes: seq<byte>) returns (sent: Sending)
      ensures sent == if 0 <= id < |connections| then Some((connections[id], bytes)) else None
    {
      if id >= 0 && id < |connections| { return Some((connections[id], bytes)); }
      return None;
    }
  }

  class Manager {
    const server: Server
    var descriptors: seq<Slot>
    var streamingDevice: int
    var receiver: Option<Receiver>

    function Seen(chosen: Option<Device>): Desk
      reads this, server
    {
      Desk(server.connections, descriptors, streamingDevice, chosen)
    }

    constructor (server: Server)
      ensures this.server == server && descriptors == [] && streamingDevice == -1 && receiver == None
    {
      this.server := server;
      descriptors, streamingDevice, receiver := [], -1, None;
    }

    method AddDescriptor(d: Device)
      modifies this`descriptors
      ensures descriptors == old(descriptors) + [Live(d)]
    {
      descriptors := descriptors + [Live(d)];
    }

    method FindDescriptor(d: Device) returns (i: nat)
      ensures i == FirstMatch(descriptors, d)
    {
      i := 0;
      while i < |descriptors|
        invariant i <= |descriptors|
        invariant i + FirstMatch(descriptors[i..], d) == FirstMatch(descriptors, d)
      {
        if Same(descriptors[i], d) { return; }
        assert descriptors[i..][1..] == descriptors[i + 1..];
        i := i + 1;
      }
    }

    /** Erasing is only defined if there is something to erase. */
    method RemoveDescriptor(d: Device)
      requires |Kept(descriptors, d)| < |descriptors|
      modifies this
      ensures descriptors == Erased(old(descriptors), d)
      ensures streamingDevice == AfterRemoval(old(streamingDevice), FirstMatch(old(descriptors), d))
      ensures receiver == if old(streamingDevice) == FirstMatch(old(descriptors), d) then None else old(receiver)
    {
      hide Kept, Removed;
      var removedIndex := FindDescriptor(d);
      descriptors := Erased(descriptors, d);
      if streamingDevice == removedIndex {
        StopAll();
      } else if streamingDevice > removedIndex {
        streamingDevice := streamingDevice - 1;
      }
    }

    method StopAll()
      modifies this`receiver, this`streamingDevice
      ensures receiver == None && streamingDevice == -1
    {
      if receiver.Some? { receiver := None; }
      streamingDevice := -1;
    }

    predicate HasValidStreamingDevice() reads this { 0 <= streamingDevice < |descriptors| }

    method SendToActiveDevice(bytes: seq<byte>, ghost chosen: Option<Device>) returns (sent: Sending)
      ensures sent == if Target(Seen(chosen)).Some? then Some((Target(Seen(chosen)).value, bytes)) else None
    {
      if !HasValidStreamingDevice() { return None; }
      sent := server.Send(streamingDevice, bytes);
    }

    method SendCommand(c: Control.Call, ghost chosen: Option<Device>) returns (sent: Sending)
      ensures sent == if Target(Seen(chosen)).Some? then Some((Target(Seen(chosen)).value, Control.Encode(c))) else None
    {
      var packet := Control.BuildPacket(c);
      sent := SendToActiveDevice(packet, chosen);
    }

    /** `order`: the order in which the filters of the options are walked. */
    method Connect2Stream(k: nat, o: Activation.StreamOptions, order: seq<seq<byte>>,
                          streamUrlOverride: Option<seq<byte>>, ghost chosen: Option<Device>)
      returns (sent: Sending)
      requires k < |descriptors| && descriptors[k].Live? && Activation.Enumerates(order, o.filters)
      modifies this`receiver, this`streamingDevice
      ensures receiver == Some(ReceiverFor(descriptors[k].device, streamUrlOverride, o))
      ensures streamingDevice == k
      ensures Possible(old(Seen(chosen)), Selected(k)) ==>
                var s := Step(old(Seen(chosen)), Selected(k));
                && Seen(s.chosen) == s
                && sent == Some((s.chosen.value, [Activation.OPCODE] + Activation.Body(o, order)))
      ensures k >= |server.connections| ==> sent == None
    {
      hide Activation.Body, Activation.Enumerates, Kept;
      streamingDevice := k;
      var d := descriptors[k].device;
      var url := if streamUrlOverride.Some? && streamUrlOverride.value != [] then streamUrlOverride.value else d.url;
      if receiver.Some? { receiver := None; }
      var serializedOptions := Activation.SerializeStreamOptions(o, order);
      serializedOptions := serializedOptions[0 := Activation.OPCODE];
      assert serializedOptions == [Activation.OPCODE] + Activation.Body(o, order);
      sent := SendToActiveDevice(serializedOptions, chosen);
      var transport := CreateReceiverFor(d);
      receiver := Some(Receiver(transport, url, Descriptors.ProtocolOf(d.url), o.width, o.height));
    }

    method CreateReceiverFor(d: Device) returns (transport: Descriptors.Transport)
      ensures transport == Descriptors.TransportOf(d.url)
    {
      match Descriptors.TransportOf(d.url)
      case RawTcp => transport := Descriptors.RawTcp;
      case Rtsp => transport := Descriptors.Rtsp;
    }
  }
}
