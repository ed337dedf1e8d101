/** The settings file: what Save prints and what Load makes of any text. */
module SettingsFile {
  import opened Bytes
  import opened Text

  /** The persisted options of a device, without its floats. */
  datatype StreamOptions = StreamOptions(
    fps: int, width: int, height: int, backCamera: bool, adaptive: bool,
    bitrate: int, minBitrate: int, maxBitrate: int, stabilization: bool, flash: bool, h265: bool, focus: int,
    sliders: map<string, int>, effect: string,
    manualExposure: bool, manualWhiteBalance: bool, stabilizationMode: int)

  const DEFAULTS: StreamOptions :=
    StreamOptions(30, 640, 480, true, false, 4000, 2000, 12000, false, false, false, 0, map[], "", false, false, 1)

  type Globals = map<string, int>
  type Devices = map<string, StreamOptions>

  const SAVE_STATES: string := "SAVE_DEVICE_STATES"

  function Get(settings: Globals, name: string): int { if name in settings then settings[name] else -1 }

  // ---------- reading ----------

  /** Where Load stands: the entry it is filling in, if it is inside a device's section. */
  datatype Reading = Reading(settings: Globals, devices: Devices, current: Option<string>)

  const NOTHING_READ: Reading := Reading(map[], map[], None)

  predicate IsHeader(line: string) { line != [] && line[0] == '[' && line[|line| - 1] == ']' }

  function Section(line: string): string
    requires IsHeader(line)
  {
    line[1..|line| - 1]
  }

  const DEVICE: string := "DEVICE:"

  predicate IsDeviceHeader(line: string) { IsHeader(line) && HasPrefix(Section(line), DEVICE) }

  function DeviceName(line: string): string
    requires IsDeviceHeader(line)
  {
    Section(line)[|DEVICE|..]
  }

  function EnterSection(st: Reading, line: string): Reading
    requires IsHeader(line)
  {
    if !IsDeviceHeader(line) then st.(current := None) else
    var name := DeviceName(line);
    st.(current := Some(name),
        devices := if name in st.devices then st.devices else st.devices[name := DEFAULTS])
  }

  /** What the value of a key is for. */
  datatype Field = Fps | BackCamera | Resolution | Adaptive | Bitrate | MinBitrate | MaxBitrate | Stabilization
                 | Flash | H265 | Focus | Slider(name: string) | Effect | ExposureMode | WhiteBalanceMode
                 | StabilizationMode | Other

  function FieldOf(key: string): Field {
    if key == "fps" then Fps
    else if key == "back_cam" then BackCamera
    else if key == "res" then Resolution
    else if key == "adaptive_br" then Adaptive
    else if key == "bitrate" then Bitrate
    else if key == "min_br" then MinBitrate
    else if key == "max_br" then MaxBitrate
    else if key == "stab" then Stabilization
    else if key == "flash" then Flash
    else if key == "h265" then H265
    else if key == "focus" then Focus
    else if HasPrefix(key, "C:") then Slider(key[2..])
    else if HasPrefix(key, "E:") then Effect
    else if key == "ios_exp_mode" then ExposureMode
    else if key == "ios_wb_mode" then WhiteBalanceMode
    else if key == "ios_stab_mode" then StabilizationMode
    else Other
  }

  function ParseDeviceLine(o: StreamOptions, field: Field, val: string): StreamOptions {
    match field
    case Fps => o.(fps := Atoi(val))
    case BackCamera => o.(backCamera := val == "1")
    case Resolution =>
      var x := Find(val, 'x');
      if x < |val| then o.(width := Atoi(val[..x]), height := Atoi(val[x + 1..])) else o
    case Adaptive => o.(adaptive := val == "1")
    case Bitrate => o.(bitrate := Atoi(val))
    case MinBitrate => o.(minBitrate := Atoi(val))
    case MaxBitrate => o.(maxBitrate := Atoi(val))
    case Stabilization => o.(stabilization := val == "1")
    case Flash => o.(flash := val == "1")
    case H265 => o.(h265 := val == "1")
    case Focus => o.(focus := Atoi(val))
    case Slider(name) => o.(sliders := o.sliders[name := Atoi(val)])
    case Effect => o.(effect := val)
    case ExposureMode => o.(manualExposure := Atoi(val) == 1)
    case WhiteBalanceMode => o.(manualWhiteBalance := Atoi(val) == 1)
    case StabilizationMode => o.(stabilizationMode := Atoi(val))
    case Other => o
  }

  /** The pointer into the map of devices always points at an entry. */
  predicate Sound(st: Reading) { st.current.Some? ==> st.current.value in st.devices }

  function Assign(st: Reading, key: string, val: string): Reading
    requires Sound(st)
  {
    if st.current.Some? then
      var name := st.current.value;
      st.(devices := st.devices[name := ParseDeviceLine(st.devices[name], FieldOf(key), val)])
    else st.(settings := st.settings[key := Atoi(val)])
  }

  function LoadLine(st: Reading, line: string): (r: Reading)
    requires Sound(st)
    ensures Sound(r)
  {
    if line == [] then st
    else if IsHeader(line) then EnterSection(st, line)
    else
      var pos := Find(line, '=');
      if pos == |line| then st else Assign(st, line[..pos], line[pos + 1..])
  }

  function LoadLines(st: Reading, ls: seq<string>): (r: Reading)
    requires Sound(st)
    ensures Sound(r)
    decreases |ls|
  {
    if ls == [] then st else LoadLines(LoadLine(st, ls[0]), ls[1..])
  }

  /** CachePreservedLines, line by line: is it inside a device section, and what has it kept. */
  datatype Caching = Caching(inside: bool, kept: seq<string>)

  function CacheLine(c: Caching, line: string): Caching {
    if line == [] then c
    else if line[0] == '[' then
      if Contains(line, DEVICE) then Caching(true, c.kept + [line]) else Caching(false, c.kept)
    else if c.inside then Caching(true, c.kept + [line])
    else c
  }

  function CacheLines(c: Caching, ls: seq<string>): Caching
    decreases |ls|
  {
    if ls == [] then c else CacheLines(CacheLine(c, ls[0]), ls[1..])
  }

  datatype Store = Store(settings: Globals, devices: Devices, preserved: seq<string>)

  function LoadText(text: string): Store {
    var st := LoadLines(NOTHING_READ, Lines(text));
    Store(st.settings, st.devices,
          if Get(st.settings, SAVE_STATES) != 1 then CacheLines(Caching(false, []), Lines(text)).kept else [])
  }

  // ---------- printing ----------

  function KeyValue(key: string, val: string): string { key + "=" + val }

  function Flagged(b: bool): string { if b then "1" else "0" }

  function Mode(b: bool): string { Itoa(if b then 1 else 0) }

  function GlobalLines(order: seq<string>, m: Globals): seq<string>
    requires forall k <- order :: k in m
  {
    if order == [] then [] else [KeyValue(order[0], Itoa(m[order[0]]))] + GlobalLines(order[1..], m)
  }

  function Header(name: string): string { "[" + DEVICE + name + "]" }

  /** The key that a field is printed under. */
  function KeyOf(field: Field): string {
    match field
    case Fps => "fps"
    case Resolution => "res"
    case BackCamera => "back_cam"
    case Adaptive => "adaptive_br"
    case Bitrate => "bitrate"
    case MinBitrate => "min_br"
    case MaxBitrate => "max_br"
    case Stabilization => "stab"
    case Flash => "flash"
    case H265 => "h265"
    case Focus => "focus"
    case Slider(name) => "C:" + name
    case Effect => "E:"
    case ExposureMode => "ios_exp_mode"
    case WhiteBalanceMode => "ios_wb_mode"
    case StabilizationMode => "ios_stab_mode"
    case Other => ""
  }

  type Entry = (Field, string)

  function SizeEntries(o: StreamOptions): (es: seq<Entry>)
    ensures |es| == 3
  {
    [(Fps, Itoa(o.fps)), (Resolution, Itoa(o.width) + "x" + Itoa(o.height)), (BackCamera, Flagged(o.backCamera))]
  }

  function BitrateEntries(o: StreamOptions): (es: seq<Entry>)
    ensures |es| == 4
  {
    [(Adaptive, Flagged(o.adaptive)), (Bitrate, Itoa(o.bitrate)),
     (MinBitrate, Itoa(o.minBitrate)), (MaxBitrate, Itoa(o.maxBitrate))]
  }

  function SwitchEntries(o: StreamOptions): (es: seq<Entry>)
    ensures |es| == 4
  {
    [(Stabilization, Flagged(o.stabilization)), (Flash, Flagged(o.flash)), (H265, Flagged(o.h265)),
     (Focus, Itoa(o.focus))]
  }

  function SliderEntries(order: seq<string>, m: map<string, int>): seq<Entry>
    requires forall k <- order :: k in m
  {
    if order == [] then [] else [(Slider(order[0]), Itoa(m[order[0]]))] + SliderEntries(order[1..], m)
  }

  function TailEntries(o: StreamOptions): (es: seq<Entry>)
    ensures |es| == 4
  {
    [(Effect, o.effect), (ExposureMode, Mode(o.manualExposure)), (WhiteBalanceMode, Mode(o.manualWhiteBalance)),
     (StabilizationMode, Itoa(o.stabilizationMode))]
  }

  function DeviceEntries(o: StreamOptions): seq<Entry> {
    SizeEntries(o) + (BitrateEntries(o) + (SwitchEntries(o) +
    (SliderEntries(Sorted(o.sliders.Keys), o.sliders) + TailEntries(o))))
  }

  function Rendered(es: seq<Entry>): seq<string> {
    if es == [] then [] else [KeyValue(KeyOf(es[0].0), es[0].1)] + Rendered(es[1..])
  }

  function DeviceLines(name: string, o: StreamOptions): seq<string> {
    [Header(name)] + (Rendered(DeviceEntries(o)) + [""])
  }

  function AllDeviceLines(order: seq<string>, m: Devices): seq<string>
    requires forall k <- order :: k in m
  {
    if order == [] then [] else DeviceLines(order[0], m[order[0]]) + AllDeviceLines(order[1..], m)
  }

  function SaveLines(s: Store): seq<string> {
    GlobalLines(Sorted(s.settings.Keys), s.settings) + ([""] +
    (if Get(s.settings, SAVE_STATES) == 1 then AllDeviceLines(Sorted(s.devices.Keys), s.devices) else s.preserved))
  }

  function SaveText(s: Store): string { Unlines(SaveLines(s)) }

  // ---------- device states over a session ----------

  predicate Saving(s: Store) { Get(s.settings, SAVE_STATES) == 1 }

  /** What the program starts from, and what it leaves to be saved. */
  function States(s: Store): Devices { if Saving(s) then s.devices else map[] }
  function Updated(s: Store, current: Devices): Store { if Saving(s) then s.(devices := current) else s }

  // ---------- the class ----------

  class Settings {
    var settings: Globals
    var loadedDeviceStates: Devices
    var preservedDeviceLines: seq<string>

    function Stored(): Store reads this { Store(settings, loadedDeviceStates, preservedDeviceLines) }

    constructor ()
      ensures Stored() == Store(map[], map[], [])
    {
      settings, loadedDeviceStates, preservedDeviceLines := map[], map[], [];
    }

    method Set(name: string, value: int)
      modifies this
      ensures Stored() == old(Stored()).(settings := old(settings)[name := value])
    {
      settings := settings[name := value];
    }

    method GetDeviceStates() returns (states: Devices)
      ensures states == States(Stored())
    {
      if Get(settings, SAVE_STATES) == 1 { return loadedDeviceStates; }
      return map[];
    }

    method UpdateDeviceStates(current: Devices)
      modifies this
      ensures Stored() == Updated(old(Stored()), current)
    {
      if Get(settings, SAVE_STATES) == 1 { loadedDeviceStates := current; }
    }

    /** A file that cannot be opened changes nothing. */
    method Load(file: Option<string>)
      modifies this
      ensures Stored() == if file.Some? then LoadText(file.value) else old(Stored())
    {
      hide LoadLine, CacheLine;
      if file.None? { return; }
      settings, loadedDeviceStates, preservedDeviceLines := map[], map[], [];
      var lines := Lines(file.value);
      var current: Option<string> := None;
      var i: nat := 0;
      while i < |lines|
        invariant i <= |lines| && preservedDeviceLines == []
        invariant var st := Reading(settings, loadedDeviceStates, current);
          Sound(st) && LoadLines(st, lines[i..]) == LoadLines(NOTHING_READ, lines)
      {
        current := TakeLine(lines[i], current);
        assert lines[i..][1..] == lines[i + 1..];
        i := i + 1;
      }
      if Get(settings, SAVE_STATES) != 1 { CachePreservedLines(lines); }
    }

    method TakeLine(line: string, current: Option<string>) returns (next: Option<string>)
      requires Sound(Reading(settings, loadedDeviceStates, current))
      modifies this`settings, this`loadedDeviceStates
      ensures Reading(settings, loadedDeviceStates, next) ==
              LoadLine(Reading(old(settings), old(loadedDeviceStates), current), line)
    {
      next := current;
      if line == [] { return; }
      if line[0] == '[' && line[|line| - 1] == ']' {
        var section := line[1..|line| - 1];
        if HasPrefix(section, DEVICE) {
          var name := section[|DEVICE|..];
          if name !in loadedDeviceStates { loadedDeviceStates := loadedDeviceStates[name := DEFAULTS]; }
          next := Some(name);
        } else {
          next := None;
        }
        return;
      }
      var pos := Find(line, '=');
      if pos == |line| { return; }
      var key, val := line[..pos], line[pos + 1..];
      if current.Some? {
        var o := ParseDeviceLine(loadedDeviceStates[current.value], FieldOf(key), val);
        loadedDeviceStates := loadedDeviceStates[current.value := o];
      } else {
        settings := settings[key := Atoi(val)];
      }
    }

    method CachePreservedLines(lines: seq<string>)
      modifies this`preservedDeviceLines
      ensures preservedDeviceLines == CacheLines(Caching(false, old(preservedDeviceLines)), lines).kept
    {
      var inside := false;
      var i: nat := 0;
      while i < |lines|
        invariant i <= |lines|
        invariant CacheLines(Caching(inside, preservedDeviceLines), lines[i..]) ==
                  CacheLines(Caching(false, old(preservedDeviceLines)), lines)
      {
        var line := lines[i];
        ghost var c := Caching(inside, preservedDeviceLines);
        assert lines[i..][1..] == lines[i + 1..];
        if line != [] {
          var skip := false;
          if line[0] == '[' && Contains(line, DEVICE) { inside := true; }
          else if line[0] == '[' && !Contains(line, DEVICE) { inside := false; }
          else if !inside && Find(line, '=') < |line| { skip := true; }
          if !skip && inside { preservedDeviceLines := preservedDeviceLines + [line]; }
        }
        assert Caching(inside, preservedDeviceLines) == CacheLine(c, line);
        i := i + 1;
      }
    }

    method Save() returns (text: string)
      ensures text == SaveText(Stored())
    {
      hide Sorted, Unlines, GlobalLines, AllDeviceLines, Get;
      var keys := Sorted(settings.Keys);
      var lines := PrintGlobals(keys, settings);
      lines := lines + [""];
      if Get(settings, SAVE_STATES) == 1 {
        var names := Sorted(loadedDeviceStates.Keys);
        var devices := PrintDevices(names, loadedDeviceStates);
        lines := lines + devices;
      } else {
        var i: nat := 0;
        ghost var head := lines;
        while i < |preservedDeviceLines|
          invariant i <= |preservedDeviceLines| && lines == head + preservedDeviceLines[..i]
        {
          lines := lines + [preservedDeviceLines[i]];
          i := i + 1;
        }
      }
      assert lines == SaveLines(Stored());
      text := Unlines(lines);
    }
  }

  method PrintGlobals(order: seq<string>, m: Globals) returns (lines: seq<string>)
    requires forall k <- order :: k in m
    ensures lines == GlobalLines(order, m)
  {
    hide Itoa;
    lines := [];
    var i: nat := 0;
    while i < |order|
      invariant i <= |order| && lines + GlobalLines(order[i..], m) == GlobalLines(order, m)
    {
      assert order[i..][1..] == order[i + 1..];
      ghost var was := lines;
      lines := lines + [KeyValue(order[i], Itoa(m[order[i]]))];
      assert was + GlobalLines(order[i..], m) == lines + GlobalLines(order[i + 1..], m);
      i := i + 1;
    }
  }

  method PrintEntries(es: seq<Entry>) returns (lines: seq<string>)
    ensures lines == Rendered(es)
  {
    hide KeyOf;
    lines := [];
    var i: nat := 0;
    while i < |es|
      invariant i <= |es| && lines + Rendered(es[i..]) == Rendered(es)
    {
      assert es[i..][1..] == es[i + 1..];
      ghost var was := lines;
      lines := lines + [KeyValue(KeyOf(es[i].0), es[i].1)];
      assert was + Rendered(es[i..]) == lines + Rendered(es[i + 1..]);
      i := i + 1;
    }
  }

  method PrintDevices(order: seq<string>, m: Devices) returns (lines: seq<string>)
    requires forall k <- order :: k in m
    ensures lines == AllDeviceLines(order, m)
  {
    hide DeviceEntries, Header, Rendered, KeyOf;
    lines := [];
    var i: nat := 0;
    while i < |order|
      invariant i <= |order| && lines + AllDeviceLines(order[i..], m) == AllDeviceLines(order, m)
    {
      assert order[i..][1..] == order[i + 1..];
      ghost var was := lines;
      var name, o := order[i], m[order[i]];
      var entries := PrintEntries(DeviceEntries(o));
      lines := lines + ([Header(name)] + (entries + [""]));
      Regroup3(was, DeviceLines(name, o), AllDeviceLines(order[i + 1..], m));
      i := i + 1;
    }
  }
}
