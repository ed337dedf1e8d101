/** The mDNS browser's device list: the reconcile step of MdnsBrowser::WorkerLoop and Stop
    (windows/src/discovery/mdnsdiscovery.cpp).  The miss counters are a compact form of a window: a device
    is known exactly while one of the last three cycles has seen it. */
module Discovery {
  import opened Bytes
  import Text

  const MISSED_CYCLES_BEFORE_REMOVAL := 3

  /** BrowseAccumulator::PendingRecord, in the map's iteration order. */
  datatype Pending = Pending(instanceName: string, host: string, port: uint16, txt: map<string, string>)

  /** RawDiscoveryRecord */
  datatype Device = Device(instanceName: string, host: string, controlPort: uint16, videoPort: uint16,
                           txtRecords: map<string, string>)
  {
    /** What a change of address is judged by; TXT records are not compared. */
    function Address(): (string, uint16, uint16) { (host, controlPort, videoPort) }
  }

  datatype Event = Found(device: Device) | Removed(name: string)

  // ---------- std::stoi ----------

  /** None for either exception std::stoi throws. */
  function Stoi(s: string): Option<int>
    decreases |s|
  {
    if s != [] && Text.IsSpace(s[0]) then Stoi(s[1..]) else
    var negative := s != [] && s[0] == '-';
    var t := if s != [] && (s[0] == '-' || s[0] == '+') then s[1..] else s;
    if t == [] || !Text.IsDigit(t[0]) then None else
    var v: int := if negative then 0 - Text.Leading(t, 0) else Text.Leading(t, 0);
    if -0x8000_0000 <= v < 0x8000_0000 then Some(v) else None
  }

  function PortOf(txt: map<string, string>, key: string, default: uint16): uint16 {
    if key !in txt then default else
    match Stoi(txt[key]) case None => default case Some(v) => v % 0x1_0000
  }

  // ---------- one cycle ----------

  predicate Complete(p: Pending) { p.instanceName != "" && p.host != "" }

  /** The SRV port is authoritative over the TXT one. */
  function DeviceOf(p: Pending): Device {
    Device(p.instanceName, p.host, if p.port > 0 then p.port else PortOf(p.txt, "ctl", 6969),
           PortOf(p.txt, "vid", 8554), p.txt)
  }

  datatype State = State(known: map<string, Device>, missed: map<string, nat>)

  const START := State(map[], map[])

  function Sight(st: State, p: Pending): State {
    if !Complete(p) then st else
    var d := DeviceOf(p);
    var same := p.instanceName in st.known && st.known[p.instanceName].Address() == d.Address();
    State(if same then st.known else st.known[p.instanceName := d], st.missed - {p.instanceName})
  }

  function SightAll(st: State, ps: seq<Pending>): State
    decreases |ps|
  {
    if ps == [] then st else Sight(SightAll(st, ps[..|ps| - 1]), ps[|ps| - 1])
  }

  function SeenNames(ps: seq<Pending>): set<string> { set p | p in ps && Complete(p) :: p.instanceName }

  function MissesOf(st: State, name: string): nat { if name in st.missed then st.missed[name] else 0 }

  function Gone(st: State, seen: set<string>): set<string> {
    set n | n in st.known && n !in seen && MissesOf(st, n) + 1 >= MISSED_CYCLES_BEFORE_REMOVAL
  }

  /** The counters once the listed names have been gone through. */
  function Counted(st: State, seen: set<string>, names: set<string>): map<string, nat> {
    st.missed + map n | n in names - seen :: MissesOf(st, n) + 1
  }

  function Prune(st: State, seen: set<string>): State {
    State(st.known - Gone(st, seen), Counted(st, seen, st.known.Keys) - Gone(st, seen))
  }

  function Cycle(st: State, ps: seq<Pending>): State { Prune(SightAll(st, ps), SeenNames(ps)) }

  function Run(cycles: seq<seq<Pending>>): State
    decreases |cycles|
  {
    if cycles == [] then START else Cycle(Run(cycles[..|cycles| - 1]), cycles[|cycles| - 1])
  }

  /** What the application rebuilds from the callbacks (windows/src/application.cpp). */
  function Replay(events: seq<Event>): map<string, Device>
    decreases |events|
  {
    if events == [] then map[] else Apply(Replay(events[..|events| - 1]), events[|events| - 1])
  }

  function Apply(m: map<string, Device>, e: Event): map<string, Device> {
    match e case Found(d) => m[d.instanceName := d] case Removed(n) => m - {n}
  }

  lemma ReplaySnoc(events: seq<Event>, e: Event)
    ensures Replay(events + [e]) == Apply(Replay(events), e)
  {
    assert (events + [e])[..|events|] == events;
  }

  /** A callback that tells the application something: a device that is new or has moved, or one it knows that is
      gone. */
  predicate News(m: map<string, Device>, e: Event) {
    match e
    case Found(d) =>
      d.instanceName !in m ||
      var k := m[d.instanceName];
      k.host != d.host || k.controlPort != d.controlPort || k.videoPort != d.videoPort
    case Removed(n) => n in m
  }

  /** Every callback told something when it fired. */
  ghost predicate Terse(events: seq<Event>)
    decreases |events|
  {
    events == [] ||
    var init := events[..|events| - 1];
    Terse(init) && News(Replay(init), events[|events| - 1])
  }

  lemma TerseSnoc(events: seq<Event>, e: Event)
    requires Terse(events) && News(Replay(events), e)
    ensures Terse(events + [e])
  {
    assert (events + [e])[..|events|] == events;
  }

  // ---------- the browser ----------

  class MdnsBrowser {
    var knownDevices: map<string, Device>
    var missedCycles: map<string, nat>
    /** Every callback fired so far. */
    var callbacks: seq<Event>
    var running: bool

    ghost function View(): State reads this { State(knownDevices, missedCycles) }

    /** Between calls: the callbacks agree, and a browser that is not running knows nothing. */
    ghost predicate Valid() reads this { Told() && (running || View() == START) }

    /** The callbacks so far tell what is known, and each of them told something new. */
    ghost predicate Told() reads this { Replay(callbacks) == knownDevices && Terse(callbacks) }

    constructor ()
      ensures View() == START && callbacks == [] && !running && Valid()
    {
      knownDevices, missedCycles, callbacks, running := map[], map[], [], false;
    }

    /** A second start does nothing; a worker that gets no socket ends at once. */
    method Start(socketOpens: bool)
      requires Valid()
      modifies this`running
      ensures Valid() && running == (old(running) || socketOpens)
    {
      if running { return; }
      running := true;
      if !socketOpens { running := false; }
    }

    /** The reconcile block: what the cycle accumulated meets what is known. */
    method Reconcile(pending: seq<Pending>)
      requires Told()
      modifies this`knownDevices, this`missedCycles, this`callbacks
      ensures View() == Cycle(old(View()), pending)
      ensures Told() && old(callbacks) <= callbacks
    {
      var seenThisCycle: set<string> := {};
      var i := 0;
      hide Sight, DeviceOf, Complete, Replay, Terse, SeenNames, Prune;
      CompleteMeans();
      SeenSnoc([], Pending("", "", 0, map[]));
      while i < |pending|
        invariant 0 <= i <= |pending|
        invariant View() == SightAll(old(View()), pending[..i]) && seenThisCycle == SeenNames(pending[..i])
        invariant Told() && old(callbacks) <= callbacks
      {
        var p := pending[i];
        assert pending[..i + 1][..i] == pending[..i] && pending[..i + 1][i] == p;
        assert pending[..i + 1] == pending[..i] + [p];
        SeenSnoc(pending[..i], p);
        i := i + 1;
        SightOnly(old(View()), pending[..i]);
        if p.instanceName == "" || p.host == "" { continue; }
        seenThisCycle := seenThisCycle + {p.instanceName};
        SeeDevice(p);
      }
      assert pending[..i] == pending;
      CountMisses(seenThisCycle);
    }

    /** The body of the loop over the pending records. */
    method SeeDevice(p: Pending)
      requires Complete(p) && Told()
      modifies this`knownDevices, this`missedCycles, this`callbacks
      ensures View() == Sight(old(View()), p)
      ensures Told() && old(callbacks) <= callbacks
    {
      hide Terse, Replay, DeviceOf;
      var record := DeviceOf(p);
      NamedAsSeen(p);
      ReplaySnoc(callbacks, Found(record));
      if News(knownDevices, Found(record)) { TerseSnoc(callbacks, Found(record)); }
      if record.instanceName !in knownDevices {
        knownDevices := knownDevices[record.instanceName := record];
        missedCycles := missedCycles - {record.instanceName};
        callbacks := callbacks + [Found(record)];
      } else {
        var existing := knownDevices[record.instanceName];
        var changed := existing.host != record.host
                    || existing.controlPort != record.controlPort
                    || existing.videoPort != record.videoPort;
        if changed {
          knownDevices := knownDevices[record.instanceName := record];
          callbacks := callbacks + [Found(record)];
        }
        missedCycles := missedCycles - {record.instanceName};
      }
    }

    /** The two closing loops: count the misses, then remove what has been missed three times. */
    method CountMisses(seen: set<string>)
      requires Told()
      modifies this`knownDevices, this`missedCycles, this`callbacks
      ensures View() == Prune(old(View()), seen)
      ensures Told() && old(callbacks) <= callbacks
    {
      hide Counted, Gone, MissesOf, Replay, Terse;
      ghost var st := View();
      var toRemove: set<string> := {};
      var names := knownDevices.Keys;
      NoneCounted(st, seen);
      while names != {}
        invariant names <= knownDevices.Keys
        invariant knownDevices == st.known && callbacks == old(callbacks)
        invariant missedCycles == Counted(st, seen, st.known.Keys - names)
        invariant toRemove == Gone(st, seen) - names
        decreases names
      {
        var name :| name in names;
        CountedStep(st, seen, st.known.Keys - names, name);
        assert st.known.Keys - (names - {name}) == st.known.Keys - names + {name};
        names := names - {name};
        if name !in seen {
          var misses := (if name in missedCycles then missedCycles[name] else 0) + 1;
          missedCycles := missedCycles[name := misses];
          if misses >= MISSED_CYCLES_BEFORE_REMOVAL { toRemove := toRemove + {name}; }
        }
      }
      assert st.known.Keys - names == st.known.Keys;
      Forget(toRemove);
    }

    method Forget(gone: set<string>)
      requires Told() && gone <= knownDevices.Keys
      modifies this`knownDevices, this`missedCycles, this`callbacks
      ensures knownDevices == old(knownDevices) - gone && missedCycles == old(missedCycles) - gone
      ensures Told() && old(callbacks) <= callbacks
    {
      hide Terse, Replay;
      var names := gone;
      while names != {}
        invariant names <= gone
        invariant knownDevices == old(knownDevices) - (gone - names)
        invariant missedCycles == old(missedCycles) - (gone - names)
        invariant Told() && old(callbacks) <= callbacks
        decreases names
      {
        var name :| name in names;
        names := names - {name};
        ReplaySnoc(callbacks, Removed(name));
        TerseSnoc(callbacks, Removed(name));
        knownDevices := knownDevices - {name};
        missedCycles := missedCycles - {name};
        callbacks := callbacks + [Removed(name)];
      }
    }

    /** A browser that is not running is left alone.  Otherwise the worker finishes the cycle it may be in, and
        then every known device is reported as removed. */
    method Stop(finishing: Option<seq<Pending>>)
      requires Valid()
      modifies this
      ensures Valid() && !running && View() == START && old(callbacks) <= callbacks
      ensures !old(running) ==> callbacks == old(callbacks)
    {
      if !running { return; }
      running := false;
      if finishing.Some? { Reconcile(finishing.value); }
      ReportRemoved();
      knownDevices, missedCycles := map[], map[];
    }

    method ReportRemoved()
      requires Told()
      modifies this`callbacks
      ensures Replay(callbacks) == map[] && Terse(callbacks) && old(callbacks) <= callbacks
    {
      hide Terse, Replay;
      var names := knownDevices.Keys;
      while names != {}
        invariant names <= knownDevices.Keys && knownDevices == old(knownDevices)
        invariant Replay(callbacks) == knownDevices - (knownDevices.Keys - names)
        invariant Terse(callbacks) && old(callbacks) <= callbacks
        decreases names
      {
        var name :| name in names;
        names := names - {name};
        ReplaySnoc(callbacks, Removed(name));
        TerseSnoc(callbacks, Removed(name));
        callbacks := callbacks + [Removed(name)];
      }
    }
  }

  lemma NamedAsSeen(p: Pending)
    ensures DeviceOf(p).instanceName == p.instanceName
  {
  }

  lemma CompleteMeans()
    ensures forall p: Pending :: Complete(p) <==> p.instanceName != "" && p.host != ""
  {
  }

  lemma SightOnly(st: State, ps: seq<Pending>)
    requires ps != []
    ensures SightAll(st, ps) == Sight(SightAll(st, ps[..|ps| - 1]), ps[|ps| - 1])
    ensures !Complete(ps[|ps| - 1]) ==> SightAll(st, ps) == SightAll(st, ps[..|ps| - 1])
  {
  }

  lemma NoneCounted(st: State, seen: set<string>)
    ensures Counted(st, seen, st.known.Keys - st.known.Keys) == st.missed
    ensures Gone(st, seen) - st.known.Keys == {}
  {
  }

  lemma CountedStep(st: State, seen: set<string>, done: set<string>, name: string)
    requires name in st.known && name !in done
    ensures var m := Counted(st, seen, done);
      var misses := (if name in m then m[name] else 0) + 1;
      && Counted(st, seen, done + {name}) == (if name in seen then m else m[name := misses])
      && (name in Gone(st, seen) <==> name !in seen && misses >= MISSED_CYCLES_BEFORE_REMOVAL)
      && Gone(st, seen) <= st.known.Keys
  {
  }

  lemma SeenSnoc(ps: seq<Pending>, p: Pending)
    ensures SeenNames(ps + [p]) == SeenNames(ps) + if Complete(p) then {p.instanceName} else {}
    ensures SeenNames([]) == {}
  {
    var s := SeenNames(ps + [p]);
    forall n | n in SeenNames(ps) ensures n in s {
      var q :| q in ps && Complete(q) && q.instanceName == n;
      assert q in ps + [p];
    }
    if Complete(p) { assert p in ps + [p]; }
  }

  // ---------- the window ----------

  /** Cycles since the name was last seen. */
  function Age(cycles: seq<seq<Pending>>, name: string): Option<nat>
    decreases |cycles|
  {
    if cycles == [] then None
    else if name in SeenNames(cycles[|cycles| - 1]) then Some(0)
    else match Age(cycles[..|cycles| - 1], name) case None => None case Some(a) => Some(a + 1)
  }

  function LastIn(ps: seq<Pending>, name: string): Pending
    requires name in SeenNames(ps)
    decreases |ps|
  {
    var p := ps[|ps| - 1];
    assert ps == ps[..|ps| - 1] + [p];
    SeenSnoc(ps[..|ps| - 1], p);
    if Complete(p) && p.instanceName == name then p else LastIn(ps[..|ps| - 1], name)
  }

  function LatestSighting(cycles: seq<seq<Pending>>, name: string): Device
    requires Age(cycles, name).Some?
    decreases |cycles|
  {
    var last := cycles[|cycles| - 1];
    if name in SeenNames(last) then DeviceOf(LastIn(last, name)) else LatestSighting(cycles[..|cycles| - 1], name)
  }

  /** One of the last three cycles saw the name with a host to go with it. */
  ghost predicate InWindow(cycles: seq<seq<Pending>>, name: string) {
    exists i, p | |cycles| - 3 <= i < |cycles| ::
      0 <= i && p in cycles[i] && p.instanceName == name != "" && p.host != ""
  }

  lemma {:induction false} AgeMeans(cycles: seq<seq<Pending>>, name: string, k: nat)
    ensures Age(cycles, name).Some? && Age(cycles, name).value < k <==>
            exists i | |cycles| - k <= i < |cycles| :: 0 <= i && name in SeenNames(cycles[i])
    decreases |cycles|
  {
    if cycles != [] && k > 0 {
      var init := cycles[..|cycles| - 1];
      AgeMeans(init, name, k - 1);
      if name !in SeenNames(cycles[|cycles| - 1]) {
        if i :| |init| - (k - 1) <= i < |init| && 0 <= i && name in SeenNames(init[i]) {
          assert cycles[i] == init[i];
        }
        if i :| |cycles| - k <= i < |cycles| && 0 <= i && name in SeenNames(cycles[i]) {
          assert init[i] == cycles[i];
        }
      }
    }
  }

  /** The state agrees with the ages: the loop invariant of any number of cycles. */
  ghost predicate Agrees(st: State, cycles: seq<seq<Pending>>, name: string) {
    var age := Age(cycles, name);
    && (name in st.known <==> age.Some? && age.value < MISSED_CYCLES_BEFORE_REMOVAL)
    && (name in st.known ==>
          && st.known[name].instanceName == name
          && st.known[name].Address() == LatestSighting(cycles, name).Address())
    && (name in st.missed <==> name in st.known && age.value > 0)
    && (name in st.missed ==> st.missed[name] == age.value)
  }

  lemma {:induction false} Sighted(st: State, ps: seq<Pending>, name: string)
    requires name in st.known ==> st.known[name].instanceName == name
    ensures var s := SightAll(st, ps);
      if name in SeenNames(ps)
      then name in s.known && name !in s.missed && s.known[name].instanceName == name
           && s.known[name].Address() == DeviceOf(LastIn(ps, name)).Address()
      else (name in s.known <==> name in st.known) && (name in s.missed <==> name in st.missed)
           && (name in st.known ==> s.known[name] == st.known[name])
           && (name in st.missed ==> s.missed[name] == st.missed[name])
    decreases |ps|
  {
    if ps == [] {
      SeenSnoc([], Pending("", "", 0, map[]));
    } else {
      var init, p := ps[..|ps| - 1], ps[|ps| - 1];
      assert ps == init + [p];
      SeenSnoc(init, p);
      Sighted(st, init, name);
    }
  }

  lemma {:induction false} EveryCycleAgrees(cycles: seq<seq<Pending>>, name: string)
    ensures Agrees(Run(cycles), cycles, name)
    decreases |cycles|
  {
    if cycles != [] {
      var init, last := cycles[..|cycles| - 1], cycles[|cycles| - 1];
      EveryCycleAgrees(init, name);
      Sighted(Run(init), last, name);
    }
  }

  lemma InWindowMeans(cycles: seq<seq<Pending>>, name: string)
    ensures InWindow(cycles, name) <==>
            exists i | |cycles| - MISSED_CYCLES_BEFORE_REMOVAL <= i < |cycles| :: 0 <= i && name in SeenNames(cycles[i])
  {
    if InWindow(cycles, name) {
      var i, p :|
        |cycles| - 3 <= i < |cycles| && 0 <= i && p in cycles[i] && p.instanceName == name != "" && p.host != "";
      assert name in SeenNames(cycles[i]);
    }
    if i :| |cycles| - MISSED_CYCLES_BEFORE_REMOVAL <= i < |cycles| && 0 <= i && name in SeenNames(cycles[i]) {
      var p :| p in cycles[i] && Complete(p) && p.instanceName == name;
    }
  }

  /** THE WINDOW: after any number of cycles a device is known exactly if one of the last three cycles saw it;
      its host and ports are those of the latest sighting; only known devices have a counter, of 1 or 2. */
  lemma KnownIffSeenInWindow(cycles: seq<seq<Pending>>, name: string)
    ensures var st := Run(cycles);
      && (name in st.known <==> InWindow(cycles, name))
      && (name in st.known ==>
            Age(cycles, name).Some? &&
            var k, d := st.known[name], LatestSighting(cycles, name);
            k.instanceName == name && k.host == d.host && k.controlPort == d.controlPort && k.videoPort == d.videoPort)
      && (name in st.missed ==> name in st.known && 1 <= st.missed[name] <= 2)
  {
    EveryCycleAgrees(cycles, name);
    AgeMeans(cycles, name, MISSED_CYCLES_BEFORE_REMOVAL);
    InWindowMeans(cycles, name);
  }

  // ---------- ports ----------

  lemma StoiOfDigits(t: string)
    requires t != [] && Text.IsDigit(t[0])
    ensures Stoi(t) == if Text.Leading(t, 0) < 0x8000_0000 then Some(Text.Leading(t, 0)) else None
    ensures Stoi(['-'] + t) == if Text.Leading(t, 0) <= 0x8000_0000 then Some(-(Text.Leading(t, 0) as int)) else None
  {
    hide Text.Leading;
    assert (['-'] + t)[1..] == t;
  }

  /** A decimal number with anything but a digit behind it is read as that number if it fits 32 bits. */
  lemma StoiReads(n: int, rest: string)
    requires rest == [] || !Text.IsDigit(rest[0])
    ensures Stoi(Text.Itoa(n) + rest) == if -2147483648 <= n <= 2147483647 then Some(n) else None
  {
    hide Text.Leading, Text.Digits, Text.IsDigit, Stoi;
    var m: nat := if n < 0 then -n else n;
    var t := Text.Digits(m) + rest;
    Text.DigitsRead(m, rest);
    Text.LeadingStops(rest, m);
    Text.DigitsStart(m, rest);
    StoiOfDigits(t);
    if n < 0 { assert Text.Itoa(n) + rest == ['-'] + t; }
  }

  /** What starts with no digit, sign or blank is no number. */
  lemma StoiRefuses(s: string)
    requires s == [] || (s[0] !in {'+', '-', ' '} && !('\t' <= s[0] <= '\r') && !('0' <= s[0] <= '9'))
    ensures Stoi(s) == None
  {
  }

  /** What a sighting says of a device: its host; the port of the SRV record, if there is one, as the control port,
      and otherwise that of the TXT entry ctl, cut to 16 bits; the video port of the TXT entry vid; 6969 and 8554
      where there is no such entry or no number in it. */
  lemma DeviceSays(p: Pending, n: int, rest: string)
    requires (rest == [] || !Text.IsDigit(rest[0])) && -2147483648 <= n <= 2147483647
    ensures var d, number := DeviceOf(p), Text.Itoa(n) + rest;
      && d.instanceName == p.instanceName && d.host == p.host && d.txtRecords == p.txt
      && (p.port > 0 ==> d.controlPort == p.port)
      && (p.port == 0 && "ctl" !in p.txt ==> d.controlPort == 6969)
      && (p.port == 0 && "ctl" in p.txt && p.txt["ctl"] == number ==> d.controlPort == n % 65536)
      && (p.port == 0 && "ctl" in p.txt && Stoi(p.txt["ctl"]).None? ==> d.controlPort == 6969)
      && ("vid" !in p.txt ==> d.videoPort == 8554)
      && ("vid" in p.txt && p.txt["vid"] == number ==> d.videoPort == n % 65536)
      && ("vid" in p.txt && Stoi(p.txt["vid"]).None? ==> d.videoPort == 8554)
  {
    hide Stoi, Text.Itoa;
    StoiReads(n, rest);
  }
}
