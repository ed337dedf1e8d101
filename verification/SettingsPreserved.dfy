/** Device states not saved: what load, save and load again keep of the file. */
module SettingsPreserved {
  import opened Bytes
  import opened Text
  import opened SettingsFile
  import opened SettingsRoundTrip

  /** The two readers tell a device's section by different tests; on this line they agree. */
  predicate Agreed(line: string) {
    line != [] && line[0] == '[' ==> IsHeader(line) && (Contains(line, DEVICE) <==> IsDeviceHeader(line))
  }

  /** A line of a device's section: its header, or one that is no header at all. */
  predicate Sectional(line: string) { line != [] && (line[0] == '[' ==> IsDeviceHeader(line)) }

  predicate Sections(ls: seq<string>) {
    (forall l <- ls :: Sectional(l)) && (ls != [] ==> IsDeviceHeader(ls[0]))
  }

  /** After the same lines: what Load has, and what it would have had from the preserved lines alone. */
  predicate Related(st: Reading, c: Caching) {
    && Sound(st)
    && Sections(c.kept)
    && (var d := LoadLines(NOTHING_READ, c.kept);
        && d.settings == map[] && d.devices == st.devices
        && (if c.inside then st.current.Some? && d.current == st.current else st.current.None?))
  }

  lemma LoadSnoc(st: Reading, ls: seq<string>, line: string)
    requires Sound(st)
    ensures LoadLines(st, ls + [line]) == LoadLine(LoadLines(st, ls), line)
  {
    hide LoadLine, LoadLines;
    LoadAppend(st, ls, [line]);
    LoadOne(LoadLines(st, ls), line);
  }

  lemma HeaderContainsDevice(line: string)
    requires IsDeviceHeader(line)
    ensures Contains(line, DEVICE)
  {
    assert HasPrefix(line[1..], DEVICE) by {
      assert line[1..][..|DEVICE|] == Section(line)[..|DEVICE|];
    }
  }

  lemma SectionsGrow(kept: seq<string>, line: string)
    requires Sections(kept) && Sectional(line) && (kept == [] ==> IsDeviceHeader(line))
    ensures Sections(kept + [line])
  {
    hide IsDeviceHeader, Sectional;
  }

  lemma HeaderKeepsRelation(st: Reading, c: Caching, line: string)
    requires Related(st, c) && Agreed(line) && line != [] && line[0] == '['
    ensures Related(LoadLine(st, line), CacheLine(c, line))
  {
    hide LoadLines, Contains, DEFAULTS, Sections;
    if IsDeviceHeader(line) {
      LoadSnoc(NOTHING_READ, c.kept, line);
      SectionsGrow(c.kept, line);
    }
  }

  lemma PlainKeepsRelation(st: Reading, c: Caching, line: string)
    requires Related(st, c) && line != [] && line[0] != '['
    ensures Related(LoadLine(st, line), CacheLine(c, line))
  {
    hide LoadLines, Contains, DEFAULTS, ParseDeviceLine, FieldOf, Atoi, Find, Sections;
    if c.inside {
      LoadSnoc(NOTHING_READ, c.kept, line);
      InsideIsNotEmpty(c.kept);
      SectionsGrow(c.kept, line);
    }
  }

  lemma InsideIsNotEmpty(kept: seq<string>)
    requires LoadLines(NOTHING_READ, kept).current.Some?
    ensures kept != []
  {
  }

  lemma {:induction false} RelationHolds(st: Reading, c: Caching, ls: seq<string>)
    requires Related(st, c) && forall l <- ls :: Agreed(l)
    ensures Related(LoadLines(st, ls), CacheLines(c, ls))
    decreases |ls|
  {
    hide LoadLine, CacheLine, Related, Agreed;
    RelatedIsSound(st, c);
    if ls != [] {
      assert ls[0] in ls;
      LineKeepsRelation(st, c, ls[0]);
      RelationHolds(LoadLine(st, ls[0]), CacheLine(c, ls[0]), ls[1..]);
    }
  }

  lemma RelatedIsSound(st: Reading, c: Caching)
    requires Related(st, c)
    ensures Sound(st)
  {
  }

  lemma LineKeepsRelation(st: Reading, c: Caching, line: string)
    requires Related(st, c) && Agreed(line)
    ensures Sound(st) && Related(LoadLine(st, line), CacheLine(c, line))
  {
    hide LoadLines, Contains, IsHeader, IsDeviceHeader;
    if line == [] {
    } else if line[0] == '[' {
      HeaderKeepsRelation(st, c, line);
    } else {
      PlainKeepsRelation(st, c, line);
    }
  }

  /** Preserved lines leave the global settings alone, whatever these are. */
  lemma {:induction false} SectionsLeaveGlobals(st: Reading, ls: seq<string>, g: Globals)
    requires Sound(st) && (forall l <- ls :: Sectional(l)) && (st.current.None? && ls != [] ==> IsDeviceHeader(ls[0]))
    ensures LoadLines(st.(settings := g), ls) == LoadLines(st, ls).(settings := g)
    decreases |ls|
  {
    hide LoadLine, IsDeviceHeader, Sectional;
    if ls != [] {
      assert ls[0] in ls;
      SectionLine(st, ls[0], g);
      SectionsLeaveGlobals(LoadLine(st, ls[0]), ls[1..], g);
    }
  }

  lemma SectionLine(st: Reading, line: string, g: Globals)
    requires Sound(st) && Sectional(line) && (st.current.None? ==> IsDeviceHeader(line))
    ensures LoadLine(st.(settings := g), line) == LoadLine(st, line).(settings := g)
    ensures LoadLine(st, line).current.Some?
  {
    hide ParseDeviceLine, FieldOf, Atoi, DEFAULTS;
  }

  // ---------- the global settings ----------

  predicate GlobalKey(k: string) { OneLine(k) && '=' !in k && (k != [] ==> k[0] != '[') }

  predicate GlobalKeys(m: Globals) { forall k <- m :: GlobalKey(k) }

  lemma LineKeepsKeys(st: Reading, line: string)
    requires Sound(st) && GlobalKeys(st.settings) && Agreed(line) && OneLine(line)
    ensures GlobalKeys(LoadLine(st, line).settings)
  {
    hide ParseDeviceLine, FieldOf, Atoi, DEFAULTS, Contains;
  }

  lemma {:induction false} KeysHold(st: Reading, ls: seq<string>)
    requires Sound(st) && GlobalKeys(st.settings) && forall l <- ls :: Agreed(l) && OneLine(l)
    ensures GlobalKeys(LoadLines(st, ls).settings)
    decreases |ls|
  {
    hide LoadLine, Agreed, GlobalKeys, OneLine;
    if ls != [] {
      assert ls[0] in ls;
      LineKeepsKeys(st, ls[0]);
      KeysHold(LoadLine(st, ls[0]), ls[1..]);
    }
  }

  lemma {:induction false} GlobalLinesOpenNothing(order: seq<string>, m: Globals)
    requires forall k <- order :: k in m && GlobalKey(k)
    ensures forall l <- GlobalLines(order, m) :: !Opens(l)
    decreases |order|
  {
    hide KeyValue, Itoa, Opens, GlobalKey;
    if order != [] {
      assert order[0] in order;
      GlobalLineOpensNothing(order[0], m[order[0]]);
      GlobalLinesOpenNothing(order[1..], m);
    }
  }

  lemma GlobalLineOpensNothing(k: string, x: int)
    requires GlobalKey(k)
    ensures !Opens(KeyValue(k, Itoa(x)))
  {
    hide Itoa, Contains;
    assert KeyValue(k, Itoa(x))[0] == if k == [] then '=' else k[0];
  }

  // ---------- what is kept ----------

  /** CachePreservedLines takes this line for the start of a device's section. */
  predicate Opens(line: string) { line != [] && line[0] == '[' && Contains(line, DEVICE) }

  predicate Keepable(line: string) { line != [] && (line[0] == '[' ==> Opens(line)) }

  /** Lines as CachePreservedLines leaves them: sections and nothing else, by its own test. */
  predicate KeptForm(ls: seq<string>) { (forall l <- ls :: Keepable(l)) && (ls != [] ==> Opens(ls[0])) }

  lemma CacheLineKeepsForm(c: Caching, line: string)
    requires KeptForm(c.kept) && (c.inside ==> c.kept != [])
    ensures var d := CacheLine(c, line); KeptForm(d.kept) && (d.inside ==> d.kept != [])
  {
    hide Contains;
  }

  lemma {:induction false} KeptHasForm(c: Caching, ls: seq<string>)
    requires KeptForm(c.kept) && (c.inside ==> c.kept != [])
    ensures KeptForm(CacheLines(c, ls).kept)
    decreases |ls|
  {
    hide CacheLine, KeptForm;
    if ls != [] {
      CacheLineKeepsForm(c, ls[0]);
      KeptHasForm(CacheLine(c, ls[0]), ls[1..]);
    }
  }

  /** Kept lines are kept again, in order, wherever they come. */
  lemma {:induction false} FormIsKept(c: Caching, ls: seq<string>)
    requires (forall l <- ls :: Keepable(l)) && (!c.inside && ls != [] ==> Opens(ls[0]))
    ensures CacheLines(c, ls).kept == c.kept + ls
    decreases |ls|
  {
    hide CacheLine, Opens, Keepable;
    if ls != [] {
      assert ls[0] in ls;
      KeptLine(c, ls[0]);
      FormIsKept(CacheLine(c, ls[0]), ls[1..]);
      Regroup3(c.kept, [ls[0]], ls[1..]);
    }
  }

  lemma KeptLine(c: Caching, line: string)
    requires Keepable(line) && (!c.inside ==> Opens(line))
    ensures CacheLine(c, line) == Caching(true, c.kept + [line])
  {
    hide Contains;
  }

  lemma {:induction false} KeptGrows(c: Caching, ls: seq<string>)
    ensures c.kept <= CacheLines(c, ls).kept
    decreases |ls|
  {
    hide Contains;
    if ls != [] { KeptGrows(CacheLine(c, ls[0]), ls[1..]); }
  }

  /** Nothing is kept exactly when no line opens a section. */
  lemma {:induction false} NothingKeptIff(ls: seq<string>)
    ensures CacheLines(Caching(false, []), ls).kept == [] <==> forall l <- ls :: !Opens(l)
    decreases |ls|
  {
    hide CacheLine, Opens;
    if ls != [] {
      var c := CacheLine(Caching(false, []), ls[0]);
      FirstKept(ls[0]);
      KeptGrows(c, ls[1..]);
      NothingKeptIff(ls[1..]);
      assert forall l :: l in ls <==> l == ls[0] || l in ls[1..];
    }
  }

  lemma FirstKept(line: string)
    ensures CacheLine(Caching(false, []), line) == if Opens(line) then Caching(true, [line]) else Caching(false, [])
  {
    hide Contains;
  }

  // ---------- the file ----------

  lemma {:induction false} KeptAreLines(c: Caching, ls: seq<string>)
    requires forall l <- c.kept :: OneLine(l)
    requires forall l <- ls :: OneLine(l)
    ensures forall l <- CacheLines(c, ls).kept :: OneLine(l)
    decreases |ls|
  {
    hide OneLine, Contains;
    if ls != [] {
      assert ls[0] in ls;
      KeptAreLines(CacheLine(c, ls[0]), ls[1..]);
    }
  }

  /** What a load leaves behind when device states are not saved. */
  lemma LoadedOff(text: string)
    requires !Saving(LoadText(text)) && forall l <- Lines(text) :: Agreed(l)
    ensures var s := LoadText(text);
      && Sections(s.preserved) && GlobalKeys(s.settings)
      && (forall l <- s.preserved :: OneLine(l))
      && LoadLines(NOTHING_READ, s.preserved).settings == map[]
      && LoadLines(NOTHING_READ, s.preserved).devices == s.devices
  {
    hide LoadLines, CacheLines, Lines, Agreed, Get, Sections, GlobalKeys;
    var c := Caching(false, []);
    StartIsRelated();
    RelationHolds(NOTHING_READ, c, Lines(text));
    KeysHold(NOTHING_READ, Lines(text));
    KeptAreLines(c, Lines(text));
  }

  lemma StartIsRelated()
    ensures Related(NOTHING_READ, Caching(false, [])) && GlobalKeys(NOTHING_READ.settings)
  {
  }

  lemma BlankKeepsNothing(c: Caching)
    ensures CacheLines(c, [""]) == c
  {
    assert [""][1..] == [];
  }

  /** What a caller can look at before saving: no global setting prints as the start of a section, and the
      preserved lines, read behind the globals, give the devices and leave the globals alone. */
  predicate Quiet(s: Store) {
    && (forall l <- GlobalLines(Sorted(s.settings.Keys), s.settings) :: !Opens(l))
    && var st := LoadLines(Reading(s.settings, map[], None), s.preserved);
       st.settings == s.settings && st.devices == s.devices
  }

  /** The file of a store whose device states are not saved, read line by line. */
  lemma SavedLinesRead(s: Store)
    requires !Saving(s) && (forall k <- s.settings :: KeyLike(k)) && forall l <- s.preserved :: OneLine(l)
    ensures Lines(SaveText(s)) == SaveLines(s)
    ensures LoadLines(NOTHING_READ, SaveLines(s)) == LoadLines(Reading(s.settings, map[], None), s.preserved)
  {
    hide LoadLines, Lines, Unlines, GlobalLines, Sorted, Fill, Get;
    var gs := GlobalLines(Sorted(s.settings.Keys), s.settings);
    GlobalLinesAreLines(Sorted(s.settings.Keys), s.settings);
    LinesOfUnlines(SaveLines(s));
    LoadAppend(NOTHING_READ, gs, [""] + s.preserved);
    GlobalsRead(map[], map[], Sorted(s.settings.Keys), s.settings);
    FillIsWhole(s.settings);
    var st := Reading(s.settings, map[], None);
    LoadAppend(st, [""], s.preserved);
    LoadOne(st, "");
    BlankLine(st);
  }

  lemma SavedLinesKept(s: Store)
    requires !Saving(s) && KeptForm(s.preserved)
    ensures CacheLines(Caching(false, []), SaveLines(s)).kept == s.preserved <==>
            forall l <- GlobalLines(Sorted(s.settings.Keys), s.settings) :: !Opens(l)
  {
    hide CacheLines, GlobalLines, Sorted, Get, Opens, Keepable;
    var gs := GlobalLines(Sorted(s.settings.Keys), s.settings);
    var c := CacheLines(Caching(false, []), gs);
    CacheAppend(Caching(false, []), gs, [""] + s.preserved);
    CacheAppend(c, [""], s.preserved);
    BlankKeepsNothing(c);
    FormIsKept(c, s.preserved);
    NothingKeptIff(gs);
    if c.kept == [] { assert [] + s.preserved == s.preserved; }
  }

  lemma ReloadIff(s: Store)
    requires !Saving(s) && (forall k <- s.settings :: KeyLike(k))
    requires KeptForm(s.preserved) && forall l <- s.preserved :: OneLine(l)
    ensures LoadText(SaveText(s)) == s <==> Quiet(s)
  {
    hide LoadLines, CacheLines, Lines, SaveText, SaveLines, GlobalLines, Sorted, Get, KeptForm;
    SavedLinesRead(s);
    SavedLinesKept(s);
  }

  lemma LoadedStore(text: string)
    requires !Saving(LoadText(text))
    ensures var s := LoadText(text);
      && (forall k <- s.settings :: KeyLike(k))
      && KeptForm(s.preserved) && forall l <- s.preserved :: OneLine(l)
  {
    hide LoadLines, CacheLines, Lines, Get, CleanDevice;
    LoadedIsClean(NOTHING_READ, Lines(text));
    KeptHasForm(Caching(false, []), Lines(text));
    KeptAreLines(Caching(false, []), Lines(text));
  }

  /** With device states not saved, and for every file: Load after Save brings back the very same globals,
      devices and preserved lines if and only if the loaded store is quiet; then a second Save prints the same
      file. */
  lemma OffIsAFixpointIff(text: string)
    requires !Saving(LoadText(text))
    ensures var s := LoadText(text);
      && (LoadText(SaveText(s)) == s <==> Quiet(s))
      && (Quiet(s) ==> SaveText(LoadText(SaveText(s))) == SaveText(s))
  {
    hide LoadText, SaveText, Saving, Quiet, KeptForm;
    LoadedStore(text);
    ReloadIff(LoadText(text));
  }

  /** The case that can be seen in the file itself: every line on which the two section tests agree. */
  lemma AgreedFilesAreFixpoints(text: string)
    requires !Saving(LoadText(text)) && forall l <- Lines(text) :: Agreed(l)
    ensures var s := LoadText(text);
      Quiet(s) && LoadText(SaveText(s)) == s && SaveText(LoadText(SaveText(s))) == SaveText(s)
  {
    hide LoadText, SaveText, Saving, LoadLines, GlobalLines, Sorted, Agreed, Lines, Opens, GlobalKey,
      Sectional, IsDeviceHeader;
    var s := LoadText(text);
    LoadedOff(text);
    GlobalLinesOpenNothing(Sorted(s.settings.Keys), s.settings);
    SectionsLeaveGlobals(NOTHING_READ, s.preserved, s.settings);
    assert NOTHING_READ.(settings := s.settings) == Reading(s.settings, map[], None);
    OffIsAFixpointIff(text);
  }

  // ---------- the files the program writes ----------

  lemma {:induction false} GlobalLinesAgreeIff(order: seq<string>, m: Globals)
    requires forall k <- order :: k in m
    ensures (forall l <- GlobalLines(order, m) :: Agreed(l)) <==> forall k <- order :: k == [] || k[0] != '['
    decreases |order|
  {
    hide KeyValue, Itoa, Agreed;
    if order != [] {
      GlobalLineAgreesIff(order[0], m[order[0]]);
      GlobalLinesAgreeIff(order[1..], m);
      assert forall k :: k in order <==> k == order[0] || k in order[1..];
      var ls := GlobalLines(order, m);
      assert ls[1..] == GlobalLines(order[1..], m);
      assert forall l :: l in ls <==> l == ls[0] || l in ls[1..];
    }
  }

  lemma GlobalLineAgreesIff(k: string, x: int)
    ensures Agreed(KeyValue(k, Itoa(x))) <==> k == [] || k[0] != '['
  {
    hide Itoa, Contains, IsDeviceHeader;
    var line, s := KeyValue(k, Itoa(x)), Itoa(x);
    assert line[0] == if k == [] then '=' else k[0];
    assert line[|line| - 1] == s[|s| - 1] && s[|s| - 1] in s;
  }

  lemma {:induction false} EntriesAgree(es: seq<Entry>)
    requires GoodEntries(es)
    ensures forall l <- Rendered(es) :: Agreed(l)
    decreases |es|
  {
    hide KeyOf, FieldOf, Agreed, GoodField;
    if es != [] {
      assert es[0] in es;
      EntryAgrees(es[0].0, es[0].1);
      EntriesAgree(es[1..]);
    }
  }

  lemma EntryAgrees(field: Field, val: string)
    requires GoodField(field)
    ensures Agreed(KeyValue(KeyOf(field), val))
  {
    hide KeyOf, FieldOf, Contains;
    KeyOfField(field);
    assert KeyValue(KeyOf(field), val)[0] == KeyOf(field)[0];
  }

  lemma DeviceLinesAgree(name: string, o: StreamOptions)
    requires CleanDevice(o)
    ensures forall l <- DeviceLines(name, o) :: Agreed(l)
  {
    hide DeviceEntries, Rendered, GoodEntries, Contains, DEFAULTS;
    HeaderRead(map[], map[], None, name);
    HeaderContainsDevice(Header(name));
    EntriesAreGood(o);
    EntriesAgree(DeviceEntries(o));
  }

  lemma {:induction false} AllDeviceLinesAgree(order: seq<string>, m: Devices)
    requires forall k <- order :: k in m && CleanDevice(m[k])
    ensures forall l <- AllDeviceLines(order, m) :: Agreed(l)
    decreases |order|
  {
    hide DeviceLines, Agreed, CleanDevice;
    if order != [] {
      DeviceLinesAgree(order[0], m[order[0]]);
      AllDeviceLinesAgree(order[1..], m);
    }
  }

  /** In a file written with device states saved the two tests agree on every line exactly when no global
      setting's name begins with a bracket. */
  lemma WrittenFilesAgreeIff(s: Store)
    requires Saving(s) && Clean(s.settings, s.devices)
    ensures (forall l <- Lines(SaveText(s)) :: Agreed(l)) <==> forall k <- s.settings :: k == [] || k[0] != '['
  {
    hide Agreed, GlobalLines, AllDeviceLines, Sorted, Get, CleanDevice, Lines, Unlines;
    var gs := GlobalLines(Sorted(s.settings.Keys), s.settings);
    var ds := AllDeviceLines(Sorted(s.devices.Keys), s.devices);
    GlobalLinesAreLines(Sorted(s.settings.Keys), s.settings);
    AllDeviceLinesAreLines(Sorted(s.devices.Keys), s.devices);
    BlankAgrees();
    LinesOfUnlines(gs + ([""] + ds));
    GlobalLinesAgreeIff(Sorted(s.settings.Keys), s.settings);
    AllDeviceLinesAgree(Sorted(s.devices.Keys), s.devices);
    assert forall l :: l in gs + ([""] + ds) <==> l in gs || l == "" || l in ds;
  }

  lemma BlankAgrees()
    ensures Agreed("") && '\n' !in ""
  {
  }

  // ---------- a session ----------

  predicate CleanDevices(devices: Devices) { forall d <- devices :: OneLine(d) && CleanDevice(devices[d]) }

  /** Start, use, leave, start again.  With device states saved, the next start hands back the states this one
      left if and only if their names and effects can be written down; not saved, neither start hands any out,
      what was left changes nothing in the file, and the file stays as it is exactly when the store was quiet. */
  lemma SessionHandsBackStates(text: string, current: Devices)
    ensures var s := LoadText(text);
      var t := Updated(s, current);
      var u := LoadText(SaveText(t));
      if Saving(s) then States(u) == current <==> CleanDevices(current)
      else States(s) == map[] && SaveText(t) == SaveText(s) && (u == s <==> Quiet(s))
  {
    hide LoadLines, CacheLines, Lines, SaveText, Get, Quiet, CleanDevice;
    var s := LoadText(text);
    if Saving(s) {
      var t := s.(devices := current);
      LoadedIsClean(NOTHING_READ, Lines(text));
      LoadedIsClean(NOTHING_READ, Lines(SaveText(t)));
      if CleanDevices(current) { SaveThenLoad(t); }
    } else {
      OffIsAFixpointIff(text);
    }
  }

  // ---------- a file that changes ----------

  /** Where the tests disagree the file changes: an open bracket makes CachePreservedLines keep a global line,
      which the next Load then reads behind the global settings. */
  const TORN: seq<string> := ["[x DEVICE:", "k=1", "[o]", "k=2"]

  lemma TornFileChanges()
    ensures var s := LoadText(Unlines(TORN));
      && !Saving(s) && s.settings == map["k" := 2] && s.preserved == ["[x DEVICE:", "k=1"]
      && LoadText(SaveText(s)).settings == map["k" := 1]
  {
    hide Lines, Unlines, LoadLines, CacheLines, LoadLine, CacheLine, Sorted;
    var s := LoadText(Unlines(TORN));
    LinesOfUnlines(TORN);
    TornLoaded();
    TornCached();
    NotSaved();
    var back := ["k=2", "", "[x DEVICE:", "k=1"];
    OneKey(s.settings);
    LinesOfUnlines(back);
    assert SaveLines(s) == back;
    TornReloaded();
  }

  lemma NotSaved()
    ensures Get(map["k" := 2], SAVE_STATES) == -1 && Get(map["k" := 1], SAVE_STATES) == -1
  {
    assert |SAVE_STATES| != |"k"|;
  }

  lemma OneKey(m: Globals)
    requires m == map["k" := 2]
    ensures GlobalLines(Sorted(m.Keys), m) == ["k=2"]
  {
    var order := Sorted(m.Keys);
    assert m.Keys == {"k"};
    var least := SortedUnfold({"k"});
    assert {"k"} - {least} == {};
    NothingSorted();
    assert order == ["k"] && order[1..] == [];
    Spelled();
    assert GlobalLines(order, m) == [KeyValue("k", Itoa(2))] + GlobalLines(order[1..], m);
  }

  lemma KLine(st: Reading, x: int)
    requires st.current.None?
    requires 0 <= x < 10
    ensures LoadLine(st, KeyValue("k", Itoa(x))) == st.(settings := st.settings["k" := x])
  {
    GlobalLineRead(st.settings, st.devices, "k", x);
  }

  lemma BracketLine(st: Reading)
    requires Sound(st)
    ensures LoadLine(st, "[x DEVICE:") == st
  {
    var line := "[x DEVICE:";
    assert line[|line| - 1] == ':';
    assert '=' !in line;
  }

  lemma SectionO(st: Reading)
    requires Sound(st)
    ensures LoadLine(st, "[o]") == st.(current := None)
  {
    assert Section("[o]") == "o";
  }

  lemma Unrolled4(st: Reading, a: string, b: string, c: string, d: string)
    requires Sound(st)
    ensures LoadLines(st, [a, b, c, d]) == LoadLine(LoadLine(LoadLine(LoadLine(st, a), b), c), d)
  {
    hide LoadLine, LoadLines;
    LoadSnoc(st, [a, b, c], d);
    assert [a, b, c] + [d] == [a, b, c, d];
    LoadSnoc(st, [a, b], c);
    assert [a, b] + [c] == [a, b, c];
    LoadSnoc(st, [a], b);
    assert [a] + [b] == [a, b];
    LoadOne(st, a);
  }

  lemma Spelled()
    ensures KeyValue("k", Itoa(1)) == "k=1" && KeyValue("k", Itoa(2)) == "k=2"
  {
  }

  lemma TornLoaded()
    ensures LoadLines(NOTHING_READ, TORN) == Reading(map["k" := 2], map[], None)
  {
    hide LoadLine, LoadLines, KeyValue, Itoa;
    Spelled();
    Unrolled4(NOTHING_READ, "[x DEVICE:", "k=1", "[o]", "k=2");
    BracketLine(NOTHING_READ);
    KLine(NOTHING_READ, 1);
    var st := Reading(map["k" := 1], map[], None);
    SectionO(st);
    KLine(st, 2);
    assert map["k" := 1]["k" := 2] == map["k" := 2];
  }

  lemma TornReloaded()
    ensures LoadLines(NOTHING_READ, ["k=2", "", "[x DEVICE:", "k=1"]) == Reading(map["k" := 1], map[], None)
  {
    hide LoadLine, LoadLines, KeyValue, Itoa;
    Spelled();
    Unrolled4(NOTHING_READ, "k=2", "", "[x DEVICE:", "k=1");
    KLine(NOTHING_READ, 2);
    var st := Reading(map["k" := 2], map[], None);
    BlankLine(st);
    BracketLine(st);
    KLine(st, 1);
    assert map["k" := 2]["k" := 1] == map["k" := 1];
  }

  lemma TornCached()
    ensures CacheLines(Caching(false, []), TORN).kept == ["[x DEVICE:", "k=1"]
  {
    hide CacheLine;
    var c0, c1 := Caching(false, []), Caching(true, ["[x DEVICE:"]);
    var c2 := Caching(true, ["[x DEVICE:", "k=1"]);
    TornCacheSteps();
    assert TORN[1..] == ["k=1", "[o]", "k=2"] && TORN[1..][1..] == ["[o]", "k=2"];
    assert ["[o]", "k=2"][1..] == ["k=2"] && ["k=2"][1..] == [];
    assert CacheLines(c0, TORN) == CacheLines(c1, ["k=1", "[o]", "k=2"]);
    assert CacheLines(c1, ["k=1", "[o]", "k=2"]) == CacheLines(c2, ["[o]", "k=2"]);
    assert CacheLines(c2, ["[o]", "k=2"]) == CacheLines(c2.(inside := false), ["k=2"]);
  }

  lemma TornCacheSteps()
    ensures CacheLine(Caching(false, []), "[x DEVICE:") == Caching(true, ["[x DEVICE:"])
    ensures CacheLine(Caching(true, ["[x DEVICE:"]), "k=1") == Caching(true, ["[x DEVICE:", "k=1"])
    ensures CacheLine(Caching(true, ["[x DEVICE:", "k=1"]), "[o]") == Caching(false, ["[x DEVICE:", "k=1"])
    ensures CacheLine(Caching(false, ["[x DEVICE:", "k=1"]), "k=2") == Caching(false, ["[x DEVICE:", "k=1"])
  {
    hide Contains;
    TornContains();
  }

  lemma TornContains()
    ensures Contains("[x DEVICE:", DEVICE) && !Contains("[o]", DEVICE)
  {
    var line := "[x DEVICE:";
    assert line[3..] == DEVICE;
    assert HasPrefix(line[3..], DEVICE);
    assert |DEVICE| == 7;
  }
}
