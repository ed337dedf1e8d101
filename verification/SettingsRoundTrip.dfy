/** Load after Save: when it restores everything, and what it keeps when device states are not saved. */
module SettingsRoundTrip {
  import opened Bytes
  import opened Text
  import opened SettingsFile

  predicate OneLine(s: string) { '\n' !in s }
  predicate KeyLike(s: string) { '\n' !in s && '=' !in s }

  predicate CleanDevice(o: StreamOptions) { OneLine(o.effect) && forall k <- o.sliders :: KeyLike(k) }

  /** No newline anywhere, no '=' in the name of a global setting or of a filter. */
  predicate Clean(settings: Globals, devices: Devices) {
    && (forall k <- settings :: KeyLike(k))
    && (forall d <- devices :: OneLine(d) && CleanDevice(devices[d]))
  }

  // ---------- folds ----------

  lemma {:induction false} LoadAppend(st: Reading, a: seq<string>, b: seq<string>)
    requires Sound(st)
    ensures LoadLines(st, a + b) == LoadLines(LoadLines(st, a), b)
    decreases |a|
  {
    hide LoadLine;
    if a == [] {
      assert a + b == b;
    } else {
      assert (a + b)[1..] == a[1..] + b;
      LoadAppend(LoadLine(st, a[0]), a[1..], b);
    }
  }

  lemma {:induction false} CacheAppend(c: Caching, a: seq<string>, b: seq<string>)
    ensures CacheLines(c, a + b) == CacheLines(CacheLines(c, a), b)
    decreases |a|
  {
    hide CacheLine;
    if a == [] {
      assert a + b == b;
    } else {
      assert (a + b)[1..] == a[1..] + b;
      CacheAppend(CacheLine(c, a[0]), a[1..], b);
    }
  }

  lemma LoadOne(st: Reading, line: string)
    requires Sound(st)
    ensures LoadLines(st, [line]) == LoadLine(st, line)
  {
    hide LoadLine;
    assert [line][1..] == [];
  }

  // ---------- one key, one value ----------

  lemma KeySplits(key: string, val: string)
    requires '=' !in key
    ensures var line := KeyValue(key, val); var pos := Find(line, '=');
      line != [] && pos < |line| && line[..pos] == key && line[pos + 1..] == val
  {
    FindAfter(key, '=', val);
    assert KeyValue(key, val) == key + ['='] + val;
  }

  /** A number ends in a digit, so its line is no header. */
  lemma GlobalLineRead(g: Globals, devices: Devices, key: string, x: int)
    requires '=' !in key
    ensures LoadLine(Reading(g, devices, None), KeyValue(key, Itoa(x))) == Reading(g[key := x], devices, None)
  {
    hide Itoa, Atoi, Find;
    var line := KeyValue(key, Itoa(x));
    KeySplits(key, Itoa(x));
    AtoiOfItoa(x);
    var s := Itoa(x);
    assert line[|line| - 1] == s[|s| - 1] && s[|s| - 1] in s;
  }

  lemma {:induction false} GlobalsRead(g: Globals, devices: Devices, order: seq<string>, m: Globals)
    requires forall k <- order :: k in m && '=' !in k
    ensures LoadLines(Reading(g, devices, None), GlobalLines(order, m)) == Reading(Fill(g, order, m), devices, None)
    decreases |order|
  {
    hide LoadLine, KeyValue, Itoa;
    if order != [] {
      GlobalLineRead(g, devices, order[0], m[order[0]]);
      GlobalsRead(g[order[0] := m[order[0]]], devices, order[1..], m);
      assert GlobalLines(order, m)[1..] == GlobalLines(order[1..], m);
    }
  }

  // ---------- one device ----------

  function At(g: Globals, devices: Devices, name: string, o: StreamOptions): Reading {
    Reading(g, devices[name := o], Some(name))
  }

  lemma FieldRead(g: Globals, devices: Devices, name: string, o: StreamOptions, key: string, val: string)
    requires GoodKey(key)
    ensures LoadLine(At(g, devices, name, o), KeyValue(key, val)) ==
            At(g, devices, name, ParseDeviceLine(o, FieldOf(key), val))
  {
    hide ParseDeviceLine, FieldOf, Find;
    KeySplits(key, val);
    assert KeyValue(key, val)[0] == key[0];
    var o' := ParseDeviceLine(o, FieldOf(key), val);
    assert devices[name := o][name := o'] == devices[name := o'];
  }

  lemma HeaderRead(g: Globals, devices: Devices, current: Option<string>, name: string)
    requires name !in devices && Sound(Reading(g, devices, current))
    ensures LoadLine(Reading(g, devices, current), Header(name)) == At(g, devices, name, DEFAULTS)
    ensures IsDeviceHeader(Header(name)) && DeviceName(Header(name)) == name
  {
    hide DEFAULTS;
    var line := Header(name);
    assert line == ['['] + (DEVICE + name) + [']'];
    assert Section(line) == DEVICE + name;
  }

  predicate GoodKey(key: string) { key != [] && key[0] != '[' && '=' !in key }

  /** The key a field is printed under is read as that field. */
  lemma KeyOfField(field: Field)
    requires field != Other && (field.Slider? ==> '=' !in field.name)
    ensures FieldOf(KeyOf(field)) == field && GoodKey(KeyOf(field))
  {
    if field.Slider? { SliderKey(field.name); }
    else if field.Effect? { EffectKey(); }
    else if field.ExposureMode? || field.WhiteBalanceMode? || field.StabilizationMode? { ModeKey(field); }
    else { PlainKey(field); }
  }

  lemma SliderKey(k: string)
    requires '=' !in k
    ensures FieldOf("C:" + k) == Slider(k) && GoodKey("C:" + k)
  {
    var key := "C:" + k;
    assert key[0] == 'C' && key[..2] == "C:" && key[2..] == k;
  }

  lemma EffectKey()
    ensures FieldOf("E:") == Effect && GoodKey("E:")
  {
    assert "E:"[..2] == "E:" && "E:"[0] == 'E' && "C:"[0] == 'C';
  }

  lemma ModeKey(field: Field)
    requires field.ExposureMode? || field.WhiteBalanceMode? || field.StabilizationMode?
    ensures FieldOf(KeyOf(field)) == field && GoodKey(KeyOf(field))
  {
    var key := KeyOf(field);
    assert key[0] == 'i' && key[..2][0] == 'i' && "E:"[0] == 'E' && "C:"[0] == 'C';
  }

  lemma PlainKey(field: Field)
    requires field != Other && !field.Slider? && !field.Effect?
    requires !field.ExposureMode? && !field.WhiteBalanceMode? && !field.StabilizationMode?
    ensures FieldOf(KeyOf(field)) == field && GoodKey(KeyOf(field))
  {
    hide HasPrefix;
  }

  predicate GoodField(field: Field) { field != Other && (field.Slider? ==> '=' !in field.name) }

  predicate GoodEntries(es: seq<Entry>) { forall e <- es :: GoodField(e.0) }

  /** The entries of a section, read in turn. */
  function Feed(o: StreamOptions, es: seq<Entry>): StreamOptions
    decreases |es|
  {
    if es == [] then o else Feed(ParseDeviceLine(o, es[0].0, es[0].1), es[1..])
  }

  lemma AtIsSound(g: Globals, devices: Devices, name: string, o: StreamOptions)
    ensures Sound(At(g, devices, name, o))
  {
  }

  lemma {:induction false} EntriesRead(g: Globals, devices: Devices, name: string, o: StreamOptions, es: seq<Entry>)
    requires GoodEntries(es)
    ensures Sound(At(g, devices, name, o))
    ensures LoadLines(At(g, devices, name, o), Rendered(es)) == At(g, devices, name, Feed(o, es))
    decreases |es|
  {
    hide LoadLine, KeyValue, KeyOf, FieldOf, ParseDeviceLine, At, GoodKey;
    AtIsSound(g, devices, name, o);
    if es != [] {
      var f, val := es[0].0, es[0].1;
      assert es[0] in es;
      KeyOfField(f);
      FieldRead(g, devices, name, o, KeyOf(f), val);
      EntriesRead(g, devices, name, ParseDeviceLine(o, f, val), es[1..]);
      assert Rendered(es)[1..] == Rendered(es[1..]);
    }
  }

  lemma {:induction false} FeedAppend(o: StreamOptions, a: seq<Entry>, b: seq<Entry>)
    ensures Feed(o, a + b) == Feed(Feed(o, a), b)
    decreases |a|
  {
    hide ParseDeviceLine;
    if a == [] {
      assert a + b == b;
    } else {
      assert (a + b)[1..] == a[1..] + b;
      FeedAppend(ParseDeviceLine(o, a[0].0, a[0].1), a[1..], b);
    }
  }

  lemma FeedAt(o: StreamOptions, es: seq<Entry>, k: nat)
    requires k < |es|
    ensures Feed(o, es[k..]) == Feed(ParseDeviceLine(o, es[k].0, es[k].1), es[k + 1..])
  {
    hide ParseDeviceLine;
    assert es[k..][1..] == es[k + 1..];
  }

  lemma FeedEnd(o: StreamOptions, es: seq<Entry>)
    ensures Feed(o, es[|es|..]) == o && es[0..] == es
  {
  }

  lemma StabilizationModeRead(o: StreamOptions, x: int)
    ensures ParseDeviceLine(o, StabilizationMode, Itoa(x)) == o.(stabilizationMode := x)
  {
    hide Itoa, Atoi;
    AtoiOfItoa(x);
  }

  lemma ModeRead(o: StreamOptions, b: bool)
    ensures ParseDeviceLine(o, ExposureMode, Mode(b)) == o.(manualExposure := b)
    ensures ParseDeviceLine(o, WhiteBalanceMode, Mode(b)) == o.(manualWhiteBalance := b)
  {
    hide Itoa, Atoi;
    AtoiOfItoa(if b then 1 else 0);
  }

  lemma ResolutionRead(o: StreamOptions, w: int, h: int)
    ensures ParseDeviceLine(o, Resolution, Itoa(w) + "x" + Itoa(h)) == o.(width := w, height := h)
  {
    hide Itoa, Atoi, Find;
    var val := Itoa(w) + "x" + Itoa(h);
    assert 'x' !in Itoa(w);
    FindAfter(Itoa(w), 'x', Itoa(h));
    assert val == Itoa(w) + ['x'] + Itoa(h);
    assert val[..|Itoa(w)|] == Itoa(w) && val[|Itoa(w)| + 1..] == Itoa(h);
    AtoiOfItoa(w);
    AtoiOfItoa(h);
  }

  lemma EffectRead(o: StreamOptions, effect: string)
    ensures ParseDeviceLine(o, Effect, effect) == o.(effect := effect)
  {
  }

  lemma FlagIs(b: bool) ensures (Flagged(b) == "1") == b {}

  lemma SizesFed(o: StreamOptions, s: StreamOptions)
    ensures Feed(o, SizeEntries(s)) == o.(fps := s.fps, width := s.width, height := s.height, backCamera := s.backCamera)
  {
    hide Feed, Itoa, Atoi, Find, Flagged;
    var es := SizeEntries(s);
    var o1 := o.(fps := s.fps);
    var o2 := o1.(width := s.width, height := s.height);
    AtoiOfItoa(s.fps);
    FlagIs(s.backCamera);
    ResolutionRead(o1, s.width, s.height);
    FeedAt(o, es, 0);
    FeedAt(o1, es, 1);
    FeedAt(o2, es, 2);
    FeedEnd(o2.(backCamera := s.backCamera), es);
  }

  lemma BitratesFed(o: StreamOptions, s: StreamOptions)
    ensures Feed(o, BitrateEntries(s)) ==
            o.(adaptive := s.adaptive, bitrate := s.bitrate, minBitrate := s.minBitrate, maxBitrate := s.maxBitrate)
  {
    hide Feed, Itoa, Atoi, Find, Flagged;
    var es := BitrateEntries(s);
    var o1 := o.(adaptive := s.adaptive);
    var o2 := o1.(bitrate := s.bitrate);
    var o3 := o2.(minBitrate := s.minBitrate);
    AtoiOfItoa(s.bitrate);
    AtoiOfItoa(s.minBitrate);
    AtoiOfItoa(s.maxBitrate);
    FlagIs(s.adaptive);
    FeedAt(o, es, 0);
    FeedAt(o1, es, 1);
    FeedAt(o2, es, 2);
    FeedAt(o3, es, 3);
    FeedEnd(o3.(maxBitrate := s.maxBitrate), es);
  }

  lemma SwitchesFed(o: StreamOptions, s: StreamOptions)
    ensures Feed(o, SwitchEntries(s)) ==
            o.(stabilization := s.stabilization, flash := s.flash, h265 := s.h265, focus := s.focus)
  {
    hide Feed, Itoa, Atoi, Find, Flagged;
    var es := SwitchEntries(s);
    var o1 := o.(stabilization := s.stabilization);
    var o2 := o1.(flash := s.flash);
    var o3 := o2.(h265 := s.h265);
    AtoiOfItoa(s.focus);
    FlagIs(s.stabilization);
    FlagIs(s.flash);
    FlagIs(s.h265);
    FeedAt(o, es, 0);
    FeedAt(o1, es, 1);
    FeedAt(o2, es, 2);
    FeedAt(o3, es, 3);
    FeedEnd(o3.(focus := s.focus), es);
  }

  lemma TailFed(s: StreamOptions)
    ensures var o := s.(effect := "", manualExposure := false, manualWhiteBalance := false, stabilizationMode := 1);
      Feed(o, TailEntries(s)) == s
  {
    hide Feed, ParseDeviceLine, Itoa, Mode;
    var es := TailEntries(s);
    var o0 := s.(effect := "", manualExposure := false, manualWhiteBalance := false, stabilizationMode := 1);
    var o1 := o0.(effect := s.effect);
    var o2 := o1.(manualExposure := s.manualExposure);
    var o3 := o2.(manualWhiteBalance := s.manualWhiteBalance);
    FeedAt(o0, es, 0); EffectRead(o0, s.effect);
    FeedAt(o1, es, 1); ModeRead(o1, s.manualExposure);
    FeedAt(o2, es, 2); ModeRead(o2, s.manualWhiteBalance);
    FeedAt(o3, es, 3); StabilizationModeRead(o3, s.stabilizationMode);
    FeedEnd(s, es);
  }

  lemma {:induction false} SlidersFed(o: StreamOptions, order: seq<string>, m: map<string, int>)
    requires forall k <- order :: k in m
    ensures Feed(o, SliderEntries(order, m)) == o.(sliders := Fill(o.sliders, order, m))
    decreases |order|
  {
    hide Itoa, Atoi;
    if order == [] {
      assert o.(sliders := o.sliders) == o;
    } else {
      var k := order[0];
      AtoiOfItoa(m[k]);
      SlidersFed(o.(sliders := o.sliders[k := m[k]]), order[1..], m);
      assert SliderEntries(order, m)[1..] == SliderEntries(order[1..], m);
    }
  }

  lemma {:induction false} SlidersAreGood(order: seq<string>, m: map<string, int>)
    requires forall k <- order :: k in m && '=' !in k
    ensures GoodEntries(SliderEntries(order, m))
    decreases |order|
  {
    hide Itoa;
    if order != [] { SlidersAreGood(order[1..], m); }
  }

  lemma GoodAppend(a: seq<Entry>, b: seq<Entry>)
    requires GoodEntries(a) && GoodEntries(b)
    ensures GoodEntries(a + b)
  {
  }

  lemma FixedAreGood(s: StreamOptions)
    ensures GoodEntries(SizeEntries(s)) && GoodEntries(BitrateEntries(s))
    ensures GoodEntries(SwitchEntries(s)) && GoodEntries(TailEntries(s))
  {
    hide Itoa, Flagged, Mode, GoodField;
    FixedFieldsAreGood();
  }

  lemma FixedFieldsAreGood()
    ensures forall f: Field :: !f.Slider? && !f.Other? ==> GoodField(f)
  {
  }

  lemma EntriesAreGood(s: StreamOptions)
    requires CleanDevice(s)
    ensures GoodEntries(DeviceEntries(s))
  {
    hide SliderEntries, Sorted, SizeEntries, BitrateEntries, SwitchEntries, TailEntries, GoodEntries;
    FixedAreGood(s);
    SlidersAreGood(Sorted(s.sliders.Keys), s.sliders);
    var b4 := SliderEntries(Sorted(s.sliders.Keys), s.sliders) + TailEntries(s);
    GoodAppend(SliderEntries(Sorted(s.sliders.Keys), s.sliders), TailEntries(s));
    GoodAppend(SwitchEntries(s), b4);
    GoodAppend(BitrateEntries(s), SwitchEntries(s) + b4);
    GoodAppend(SizeEntries(s), BitrateEntries(s) + (SwitchEntries(s) + b4));
  }

  /** A section's entries lead from the defaults to the options they were printed from. */
  lemma EntriesFed(s: StreamOptions)
    ensures Feed(DEFAULTS, DeviceEntries(s)) == s
  {
    hide Feed, SizeEntries, BitrateEntries, SwitchEntries, TailEntries, SliderEntries, Sorted, Fill;
    var sliders := SliderEntries(Sorted(s.sliders.Keys), s.sliders);
    var b4 := sliders + TailEntries(s);
    var b3 := SwitchEntries(s) + b4;
    var o1 := DEFAULTS.(fps := s.fps, width := s.width, height := s.height, backCamera := s.backCamera);
    var o2 := o1.(adaptive := s.adaptive, bitrate := s.bitrate, minBitrate := s.minBitrate, maxBitrate := s.maxBitrate);
    var o3 := o2.(stabilization := s.stabilization, flash := s.flash, h265 := s.h265, focus := s.focus);
    FeedAppend(DEFAULTS, SizeEntries(s), BitrateEntries(s) + b3);
    SizesFed(DEFAULTS, s);
    FeedAppend(o1, BitrateEntries(s), b3);
    BitratesFed(o1, s);
    FeedAppend(o2, SwitchEntries(s), b4);
    SwitchesFed(o2, s);
    FeedAppend(o3, sliders, TailEntries(s));
    SlidersFed(o3, Sorted(s.sliders.Keys), s.sliders);
    FillIsWhole(s.sliders);
    TailFed(s);
  }

  lemma BlankLine(st: Reading)
    requires Sound(st)
    ensures LoadLine(st, "") == st
  {
  }

  lemma DeviceRead(g: Globals, devices: Devices, current: Option<string>, name: string, s: StreamOptions)
    requires name !in devices && Sound(Reading(g, devices, current)) && CleanDevice(s)
    ensures LoadLines(Reading(g, devices, current), DeviceLines(name, s)) == At(g, devices, name, s)
  {
    hide LoadLine, LoadLines, DeviceEntries, Rendered, Header, At, DEFAULTS, Feed, GoodEntries;
    var st0 := Reading(g, devices, current);
    var entries := Rendered(DeviceEntries(s));
    HeaderRead(g, devices, current, name);
    LoadAppend(st0, [Header(name)], entries + [""]);
    LoadOne(st0, Header(name));
    EntriesAreGood(s);
    EntriesRead(g, devices, name, DEFAULTS, DeviceEntries(s));
    EntriesFed(s);
    LoadAppend(At(g, devices, name, DEFAULTS), entries, [""]);
    AtIsSound(g, devices, name, s);
    LoadOne(At(g, devices, name, s), "");
    BlankLine(At(g, devices, name, s));
  }

  lemma {:induction false} DevicesRead(g: Globals, acc: Devices, current: Option<string>, order: seq<string>, m: Devices)
    requires Sound(Reading(g, acc, current))
    requires forall k <- order :: k in m && CleanDevice(m[k]) && k !in acc
    requires forall i, j :: 0 <= i < j < |order| ==> order[i] != order[j]
    ensures var st := LoadLines(Reading(g, acc, current), AllDeviceLines(order, m));
      st.settings == g && st.devices == Fill(acc, order, m)
    decreases |order|
  {
    hide LoadLine, LoadLines, DeviceLines, CleanDevice;
    if order == [] {
      NothingLoaded(Reading(g, acc, current));
    } else {
      var name := order[0];
      DeviceRead(g, acc, current, name, m[name]);
      LoadAppend(Reading(g, acc, current), DeviceLines(name, m[name]), AllDeviceLines(order[1..], m));
      DevicesRead(g, acc[name := m[name]], Some(name), order[1..], m);
    }
  }

  lemma NothingLoaded(st: Reading)
    requires Sound(st)
    ensures LoadLines(st, []) == st
  {
  }

  // ---------- the whole file, device states saved ----------

  lemma {:induction false} GlobalLinesAreLines(order: seq<string>, m: Globals)
    requires forall k <- order :: k in m && OneLine(k)
    ensures forall l <- GlobalLines(order, m) :: OneLine(l)
    decreases |order|
  {
    hide Itoa, KeyValue, OneLine;
    if order != [] {
      assert order[0] in order;
      GlobalLineIsLine(order[0], m[order[0]]);
      GlobalLinesAreLines(order[1..], m);
    }
  }

  lemma GlobalLineIsLine(key: string, x: int)
    requires OneLine(key)
    ensures OneLine(KeyValue(key, Itoa(x)))
  {
    hide Itoa;
  }

  predicate LineEntries(es: seq<Entry>) {
    forall e <- es :: OneLine(e.1) && (e.0.Slider? ==> OneLine(e.0.name))
  }

  lemma KeyIsLine(field: Field)
    requires field.Slider? ==> OneLine(field.name)
    ensures OneLine(KeyOf(field))
  {
  }

  lemma {:induction false} RenderedAreLines(es: seq<Entry>)
    requires LineEntries(es)
    ensures forall l <- Rendered(es) :: OneLine(l)
    decreases |es|
  {
    hide KeyOf;
    if es != [] {
      assert es[0] in es;
      KeyIsLine(es[0].0);
      RenderedAreLines(es[1..]);
    }
  }

  lemma {:induction false} SlidersAreLines(order: seq<string>, m: map<string, int>)
    requires forall k <- order :: k in m && OneLine(k)
    ensures LineEntries(SliderEntries(order, m))
    decreases |order|
  {
    hide Itoa;
    if order != [] { SlidersAreLines(order[1..], m); }
  }

  lemma FixedAreLines(s: StreamOptions)
    requires OneLine(s.effect)
    ensures LineEntries(SizeEntries(s)) && LineEntries(BitrateEntries(s))
    ensures LineEntries(SwitchEntries(s)) && LineEntries(TailEntries(s))
  {
    hide Itoa;
  }

  lemma LinesAppend(a: seq<Entry>, b: seq<Entry>)
    requires LineEntries(a) && LineEntries(b)
    ensures LineEntries(a + b)
  {
    hide OneLine;
  }

  lemma DeviceLinesAreLines(name: string, o: StreamOptions)
    requires OneLine(name) && CleanDevice(o)
    ensures forall l <- DeviceLines(name, o) :: OneLine(l)
  {
    hide SliderEntries, Sorted, SizeEntries, BitrateEntries, SwitchEntries, TailEntries, Rendered, LineEntries;
    FixedAreLines(o);
    SlidersAreLines(Sorted(o.sliders.Keys), o.sliders);
    var b4 := SliderEntries(Sorted(o.sliders.Keys), o.sliders) + TailEntries(o);
    LinesAppend(SliderEntries(Sorted(o.sliders.Keys), o.sliders), TailEntries(o));
    LinesAppend(SwitchEntries(o), b4);
    LinesAppend(BitrateEntries(o), SwitchEntries(o) + b4);
    LinesAppend(SizeEntries(o), BitrateEntries(o) + (SwitchEntries(o) + b4));
    RenderedAreLines(DeviceEntries(o));
  }

  lemma {:induction false} AllDeviceLinesAreLines(order: seq<string>, m: Devices)
    requires forall k <- order :: k in m && OneLine(k) && CleanDevice(m[k])
    ensures forall l <- AllDeviceLines(order, m) :: OneLine(l)
    decreases |order|
  {
    hide DeviceLines, OneLine, CleanDevice;
    if order != [] {
      DeviceLinesAreLines(order[0], m[order[0]]);
      AllDeviceLinesAreLines(order[1..], m);
    }
  }

  lemma SaveThenLoad(s: Store)
    requires Saving(s) && Clean(s.settings, s.devices)
    ensures LoadText(SaveText(s)) == s.(preserved := [])
  {
    hide LoadLine, LoadLines, Lines, Unlines, GlobalLines, AllDeviceLines, Sorted, Get, CleanDevice, Fill;
    var gs := GlobalLines(Sorted(s.settings.Keys), s.settings);
    var ds := AllDeviceLines(Sorted(s.devices.Keys), s.devices);
    GlobalLinesAreLines(Sorted(s.settings.Keys), s.settings);
    AllDeviceLinesAreLines(Sorted(s.devices.Keys), s.devices);
    LinesOfUnlines(gs + ([""] + ds));
    LoadAppend(NOTHING_READ, gs, [""] + ds);
    GlobalsRead(map[], map[], Sorted(s.settings.Keys), s.settings);
    FillIsWhole(s.settings);
    var st := Reading(s.settings, map[], None);
    LoadAppend(st, [""], ds);
    LoadOne(st, "");
    BlankLine(st);
    DevicesRead(s.settings, map[], None, Sorted(s.devices.Keys), s.devices);
    FillIsWhole(s.devices);
  }

  lemma LineLoadsClean(st: Reading, line: string)
    requires Sound(st) && Clean(st.settings, st.devices) && OneLine(line)
    ensures Clean(LoadLine(st, line).settings, LoadLine(st, line).devices)
  {
    hide Atoi, FieldOf, ParseDeviceLine;
    if line != [] && IsHeader(line) {
      DefaultsAreClean();
    } else if line != [] && Find(line, '=') < |line| && st.current.Some? {
      var pos := Find(line, '=');
      FieldIsClean(st.devices[st.current.value], line[..pos], line[pos + 1..]);
    }
  }

  lemma DefaultsAreClean() ensures CleanDevice(DEFAULTS) {}

  lemma FieldIsClean(o: StreamOptions, key: string, val: string)
    requires CleanDevice(o) && KeyLike(key) && OneLine(val)
    ensures CleanDevice(ParseDeviceLine(o, FieldOf(key), val))
  {
    hide Atoi, FieldOf, ParseDeviceLine, KeyLike;
    SliderIsKeyLike(key);
    ParseKeeps(o, FieldOf(key), val);
  }

  lemma ParseKeeps(o: StreamOptions, field: Field, val: string)
    ensures var r := ParseDeviceLine(o, field, val);
      && (r.sliders == o.sliders || (field.Slider? && r.sliders == o.sliders[field.name := Atoi(val)]))
      && (r.effect == o.effect || r.effect == val)
  {
    hide Atoi, Find;
  }

  lemma SliderIsKeyLike(key: string)
    requires KeyLike(key)
    ensures FieldOf(key).Slider? ==> KeyLike(FieldOf(key).name)
  {
    if HasPrefix(key, "C:") { assert forall c <- key[2..] :: c in key; }
  }

  lemma {:induction false} LoadedIsClean(st: Reading, ls: seq<string>)
    requires Sound(st) && Clean(st.settings, st.devices) && forall l <- ls :: OneLine(l)
    ensures Clean(LoadLines(st, ls).settings, LoadLines(st, ls).devices)
    decreases |ls|
  {
    hide LoadLine, Clean, OneLine;
    if ls != [] {
      LineLoadsClean(st, ls[0]);
      LoadedIsClean(LoadLine(st, ls[0]), ls[1..]);
    }
  }

  /** With device states saved, Load after Save restores every global setting and every persisted field of
      every device exactly when no name or effect holds a newline and no key holds an '='. */
  lemma SaveThenLoadIff(s: Store)
    requires Saving(s)
    ensures LoadText(SaveText(s)) == s.(preserved := []) <==> Clean(s.settings, s.devices)
  {
    hide LoadLines, SaveText, Get, CacheLines;
    if Clean(s.settings, s.devices) {
      SaveThenLoad(s);
    } else {
      LoadedIsClean(NOTHING_READ, Lines(SaveText(s)));
    }
  }
}
