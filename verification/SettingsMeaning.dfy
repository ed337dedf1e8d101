/** What the lines of a settings file mean, said of any file: the last word of a name counts, sections are entered and
    left, and every key has its field. */
module SettingsMeaning {
  import opened Bytes
  import opened Text
  import opened SettingsFile
  import opened SettingsRoundTrip

  // ---------- lines ----------

  /** Where Load stands after some lines. */
  function After(ls: seq<string>): (st: Reading)
    ensures Sound(st)
  {
    LoadLines(NOTHING_READ, ls)
  }

  lemma OneMore(ls: seq<string>, line: string)
    ensures After(ls + [line]) == LoadLine(After(ls), line)
  {
    hide LoadLine;
    LoadAppend(NOTHING_READ, ls, [line]);
    LoadOne(After(ls), line);
  }

  /** Outside the devices' sections a pair sets a global, whatever was set before. */
  lemma GlobalPair(ls: seq<string>, key: string, val: string)
    requires After(ls).current.None? && '=' !in key && (key == [] || key[0] != '[')
    ensures After(ls + [key + "=" + val]) == After(ls).(settings := After(ls).settings[key := Atoi(val)])
  {
    hide LoadLines, Find, Atoi;
    OneMore(ls, key + "=" + val);
    KeySplits(key, val);
    assert (key + "=" + val)[0] == if key == [] then '=' else key[0];
  }

  /** The header of a device opens its section: the options read for it so far, or the defaults. */
  lemma DeviceHeader(ls: seq<string>, name: string)
    ensures var st, t := After(ls), After(ls + ["[DEVICE:" + name + "]"]);
      && t.settings == st.settings && t.current == Some(name)
      && t.devices == st.devices[name := if name in st.devices then st.devices[name] else
           StreamOptions(30, 640, 480, true, false, 4000, 2000, 12000, false, false, false, 0, map[], "", false, false, 1)]
  {
    hide LoadLines;
    var line := "[DEVICE:" + name + "]";
    OneMore(ls, line);
    assert line == ['['] + (DEVICE + name) + [']'];
    assert Section(line) == DEVICE + name;
  }

  /** Any other header closes it. */
  lemma OtherHeader(ls: seq<string>, section: string)
    requires |section| < 7 || section[..7] != "DEVICE:"
    ensures After(ls + ["[" + section + "]"]) == After(ls).(current := None)
  {
    hide LoadLines;
    var line := "[" + section + "]";
    OneMore(ls, line);
    assert Section(line) == section;
  }

  /** Inside it a pair changes the device whose section it is, and nothing else. */
  lemma DevicePair(ls: seq<string>, key: string, val: string)
    requires After(ls).current.Some? && '=' !in key && (key == [] || key[0] != '[')
    ensures var st := After(ls);
      var name := st.current.value;
      name in st.devices &&
      After(ls + [key + "=" + val]) ==
        st.(devices := st.devices[name := ParseDeviceLine(st.devices[name], FieldOf(key), val)])
  {
    hide LoadLines, Find, ParseDeviceLine, FieldOf;
    OneMore(ls, key + "=" + val);
    KeySplits(key, val);
    assert (key + "=" + val)[0] == if key == [] then '=' else key[0];
  }

  /** A line that is no header and holds no pair is passed over. */
  lemma OtherLine(ls: seq<string>, line: string)
    requires '=' !in line && (line == [] || line[0] != '[' || line[|line| - 1] != ']')
    ensures After(ls + [line]) == After(ls)
  {
    hide LoadLines;
    OneMore(ls, line);
    NothingFound(line, '=');
  }

  /** Device states are saved if and only if the file says so with a one. */
  lemma SavedIff(s: Store)
    ensures Saving(s) <==> "SAVE_DEVICE_STATES" in s.settings && s.settings["SAVE_DEVICE_STATES"] == 1
    ensures States(s) == if Saving(s) then s.devices else map[]
  {
  }

  // ---------- fields ----------

  function Set(o: StreamOptions, key: string, val: string): StreamOptions { ParseDeviceLine(o, FieldOf(key), val) }

  /** The key that each field has in the file. */
  lemma Keys()
    ensures FieldOf("fps") == Fps && FieldOf("bitrate") == Bitrate && FieldOf("min_br") == MinBitrate
    ensures FieldOf("max_br") == MaxBitrate && FieldOf("focus") == Focus && FieldOf("back_cam") == BackCamera
    ensures FieldOf("adaptive_br") == Adaptive && FieldOf("stab") == Stabilization && FieldOf("flash") == Flash
    ensures FieldOf("h265") == H265
  {
    hide FieldOf;
    KeyOfField(Fps); KeyOfField(Bitrate); KeyOfField(MinBitrate); KeyOfField(MaxBitrate); KeyOfField(Focus);
    KeyOfField(BackCamera); KeyOfField(Adaptive); KeyOfField(Stabilization); KeyOfField(Flash); KeyOfField(H265);
  }

  lemma ModeKeys()
    ensures FieldOf("ios_stab_mode") == StabilizationMode
    ensures FieldOf("ios_exp_mode") == ExposureMode && FieldOf("ios_wb_mode") == WhiteBalanceMode
  {
    hide FieldOf;
    KeyOfField(StabilizationMode); KeyOfField(ExposureMode); KeyOfField(WhiteBalanceMode);
  }

  /** The numbers. */
  lemma NumberKeys(o: StreamOptions, n: int)
    ensures Set(o, "fps", Itoa(n)) == o.(fps := n)
    ensures Set(o, "bitrate", Itoa(n)) == o.(bitrate := n)
    ensures Set(o, "min_br", Itoa(n)) == o.(minBitrate := n)
    ensures Set(o, "max_br", Itoa(n)) == o.(maxBitrate := n)
    ensures Set(o, "focus", Itoa(n)) == o.(focus := n)
  {
    hide Itoa, Atoi, FieldOf;
    AtoiOfItoa(n);
    Keys();
  }

  /** The modes, manual for exactly 1. */
  lemma ModesSet(o: StreamOptions, n: int)
    ensures Set(o, "ios_stab_mode", Itoa(n)) == o.(stabilizationMode := n)
    ensures Set(o, "ios_exp_mode", Itoa(n)) == o.(manualExposure := n == 1)
    ensures Set(o, "ios_wb_mode", Itoa(n)) == o.(manualWhiteBalance := n == 1)
  {
    hide Itoa, Atoi, FieldOf;
    AtoiOfItoa(n);
    ModeKeys();
  }

  /** The switches: on for exactly "1". */
  lemma SwitchKeys(o: StreamOptions, val: string)
    ensures Set(o, "back_cam", val) == o.(backCamera := val == "1")
    ensures Set(o, "adaptive_br", val) == o.(adaptive := val == "1")
    ensures Set(o, "stab", val) == o.(stabilization := val == "1")
    ensures Set(o, "flash", val) == o.(flash := val == "1")
    ensures Set(o, "h265", val) == o.(h265 := val == "1")
  {
    hide FieldOf;
    Keys();
  }

  /** The size, the filters by name, and the effect. */
  lemma OtherKeys(o: StreamOptions, w: int, h: int, filter: string, val: string)
    ensures Set(o, "res", Itoa(w) + "x" + Itoa(h)) == o.(width := w, height := h)
    ensures Set(o, "C:" + filter, Itoa(w)) == o.(sliders := o.sliders[filter := w])
    ensures Set(o, "E:" + filter, val) == o.(effect := val)
  {
    hide Itoa, Atoi, Find, ParseDeviceLine, FieldOf;
    AtoiOfItoa(w);
    Keyed(filter);
    ResolutionRead(o, w, h);
    Parsed(o, filter, val, Itoa(w));
    SizeKey();
  }

  lemma SizeKey() ensures FieldOf("res") == Resolution {}

  lemma Keyed(filter: string)
    ensures FieldOf("C:" + filter) == Slider(filter) && FieldOf("E:" + filter) == Effect
  {
    var c, e := "C:" + filter, "E:" + filter;
    assert c[0] == 'C' && c[1] == ':' && e[0] == 'E' && e[1] == ':';
    assert c[2..] == filter && c[..2] == "C:" && e[..2] == "E:";
  }

  lemma Parsed(o: StreamOptions, filter: string, val: string, number: string)
    ensures ParseDeviceLine(o, Slider(filter), number) == o.(sliders := o.sliders[filter := Atoi(number)])
    ensures ParseDeviceLine(o, Effect, val) == o.(effect := val)
  {
  }
}
