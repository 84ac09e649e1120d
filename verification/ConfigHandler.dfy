/** The line handler and the loader as they run: they change a configuration in place, line by line and pass by pass. */
module ConfigHandler {
  import opened CNumbers
  import opened Sequences
  import opened Ini
  import opened IniReaders
  import opened Config
  import opened ConfigFile

  lemma DelimiterSkipped(s: string, delimiter: char)
    requires s != "" && s[0] == delimiter
    ensures Tokens(s, delimiter) == Tokens(s[1..], delimiter)
  {
    assert s[0 + 1..] == s[1..];
    if |s| == 1 {
      assert s[1..] == "";
    }
  }

  lemma TokenTaken(s: string, delimiter: char, rest: string)
    requires s != "" && s[0] != delimiter
    requires rest == if FirstIndex(s, delimiter) == |s| then "" else s[FirstIndex(s, delimiter) + 1..]
    ensures Tokens(s, delimiter) == [s[..FirstIndex(s, delimiter)]] + Tokens(rest, delimiter)
  {
  }

  /** The next piece before a delimiter, and what is behind it. */
  method NextToken(s: string, delimiter: char) returns (found: bool, token: string, rest: string)
    ensures found <==> Tokens(s, delimiter) != []
    ensures found ==> Tokens(s, delimiter) == [token] + Tokens(rest, delimiter) && |rest| < |s|
  {
    rest := s;
    while rest != "" && rest[0] == delimiter
      invariant Tokens(s, delimiter) == Tokens(rest, delimiter) && |rest| <= |s|
      decreases |rest|
    {
      DelimiterSkipped(rest, delimiter);
      rest := rest[1..];
    }
    if rest == "" {
      return false, "", "";
    }
    var n := FirstIndex(rest, delimiter);
    found, token := true, rest[..n];
    TokenTaken(rest, delimiter, if n == |rest| then "" else rest[n + 1..]);
    rest := if n == |rest| then "" else rest[n + 1..];
  }

  method ParseBinding(value: string) returns (pins: Pins, analog: AnalogConfig)
    ensures pins == BindingOf(value).pins && analog == BindingOf(value).analog
  {
    var count := 0;
    pins, analog := Pins(0, 0), AnalogConfig(0, 0);
    var found, token, rest := NextToken(value, ',');
    while found
      invariant BindingOf(value) ==
                BindTokens(Binding(pins, count, analog), if found then [token] + Tokens(rest, ',') else [])
      decreases found, |rest|
    {
      ghost var before := Binding(pins, count, analog);
      if IsNumber(token) {
        var pin := Atoi(token);
        if count < 2 {
          if pin < MAX_PINS {
            pins := if count == 0 then Pins(ToByte(pin), pins.second) else Pins(pins.first, ToByte(pin));
            count := count + 1;
          }
        }
      } else {
        analog := AnalogOf(token);
      }
      assert Binding(pins, count, analog) == BindToken(before, token);
      assert ([token] + Tokens(rest, ','))[1..] == Tokens(rest, ',');
      found, token, rest := NextToken(rest, ',');
    }
  }

  method ParseHotKey(value: string, b: RealButton) returns (combo: Combo)
    ensures combo == ComboOf(b, value)
  {
    combo := Combo(b, 0, 0);
    var found, token, rest := NextToken(value, '+');
    if found {
      combo := combo.(first := ButtonOf(token));
      ghost var keys := Tokens(rest, '+');
      found, token, rest := NextToken(rest, '+');
      if found {
        combo := combo.(second := ButtonOf(token));
      }
    }
  }

  class ConfigBox {
    var config: ControllerConfig

    constructor (config: ControllerConfig)
      ensures this.config == config
    {
      this.config := config;
    }
  }

  class ConfigIniData {
    const iniSection: string
    const target: ConfigBox
    var iniSectionFound: bool

    constructor (section: string, target: ConfigBox)
      ensures iniSection == Lower(section) && this.target == target && !iniSectionFound
    {
      iniSection := Lower(section);
      this.target := target;
      iniSectionFound := false;
    }

    method AddSimulated(b: RealButton, value: string)
      requires target.config.WellFormed()
      modifies target
      ensures target.config == old(target.config).(combos := AddCombo(old(target.config).combos, ComboOf(b, value)))
    {
      var combos := target.config.combos;
      for i := 0 to |combos|
        invariant combos == target.config.combos == old(target.config).combos && target.config == old(target.config)
        invariant FirstFree(combos) >= i
      {
        if combos[i].simulated != 0 {
          continue;
        }
        var combo := ParseHotKey(value, b);
        target.config := target.config.(combos := combos[i := combo]);
        return;
      }
    }

    /** Handles one event; lines of other sections are passed over, and every line is a success. */
    method ParseControllerConfigLine(section: string, name: string, value: string) returns (success: int)
      requires target.config.WellFormed()
      modifies this`iniSectionFound, target
      ensures success == 1 && target.config.WellFormed()
      ensures target.config == PassLine(old(target.config), iniSection, LineOf(Event(section, name, value)))
      ensures iniSectionFound == (old(iniSectionFound) || Lower(section) == iniSection)
    {
      if iniSection != Lower(section) {
        return 1;
      }
      iniSectionFound := true;
      Handle(KeyOf(Lower(name)), value);
      return 1;
    }

    method Handle(key: Key, value: string)
      requires target.config.WellFormed()
      modifies target
      ensures target.config == Apply(old(target.config), key, value)
    {
      var cfg := target.config;
      match key
      case Ignored =>
      case ButtonKey(b) =>
        var pins, analog := ParseBinding(value);
        target.config := cfg.(analogUsed := true, pins := cfg.pins[b := pins], analog := cfg.analog[b := analog]);
      case Driver => target.config := cfg.(driver := Lower(value));
      case Profile => target.config := cfg.(profile := Lower(value));
      case InputSize => target.config := cfg.(inputMaxPacketSize := ToU32(Atoi(value)));
      case OutputSize => target.config := cfg.(outputMaxPacketSize := ToU32(Atoi(value)));
      case Type => target.config := cfg.(controllerType := Lookup(TYPE_NAMES, value));
      case Simulate(b) => AddSimulated(b, value);
      case Deadzone(a) => target.config := cfg.(deadzone := cfg.deadzone[a := ToByte(Atoi(value))]);
      case Factor(a) => target.config := cfg.(factor := cfg.factor[a := ToByte(Atoi(value))]);
      case Color(i) =>
        if i < COLORS {
          target.config := cfg.(colors := cfg.colors[i := ColorOf(value)]);
        }
    }

    /** Parses the file for this section. */
    method ReadFromConfig(text: string) returns (rc: int)
      requires target.config.WellFormed()
      modifies this`iniSectionFound, target
      ensures rc == ParsedFile(text).error && target.config.WellFormed()
      ensures target.config == Pass(old(target.config), iniSection, FileLines(text))
      ensures iniSectionFound == (old(iniSectionFound) || Found(iniSection, FileLines(text)))
    {
      var parser := ParseStream(File, text);
      var events := parser.state.events;
      rc := parser.state.error;
      HandleAll(events);
    }

    /** The handler's calls, in the order of the events. */
    method HandleAll(events: seq<Event>)
      requires target.config.WellFormed()
      modifies this`iniSectionFound, target
      ensures target.config.WellFormed()
      ensures target.config == Pass(old(target.config), iniSection, LinesOf(events))
      ensures iniSectionFound == (old(iniSectionFound) || Found(iniSection, LinesOf(events)))
    {
      ghost var lines := LinesOf(events);
      for i := 0 to |events|
        invariant target.config.WellFormed() && target.config == Pass(old(target.config), iniSection, lines[..i])
        invariant iniSectionFound == (old(iniSectionFound) || Found(iniSection, lines[..i]))
      {
        OneMore(iniSection, lines, i);
        OneMorePassed(old(target.config), iniSection, lines, i);
        assert lines[i] == LineOf(events[i]);
        var _ := ParseControllerConfigLine(events[i].section, events[i].name, events[i].value);
      }
      assert lines[..|events|] == lines;
    }
  }

  lemma OneMorePassed(cfg: ControllerConfig, section: string, lines: seq<Line>, i: nat)
    requires i < |lines| && cfg.WellFormed()
    ensures Pass(cfg, section, lines[..i + 1]) == PassLine(Pass(cfg, section, lines[..i]), section, lines[i])
  {
    assert lines[..i + 1][..i] == lines[..i];
  }

  lemma OneMore(section: string, lines: seq<Line>, i: nat)
    requires i < |lines|
    ensures lines[..i + 1][..i] == lines[..i] && lines[..i + 1][i] == lines[i]
    ensures Found(section, lines[..i + 1]) <==> Found(section, lines[..i]) || lines[i].section == section
  {
    var more := lines[..i + 1];
    if Found(section, lines[..i]) {
      var j :| 0 <= j < i && lines[..i][j].section == section;
      assert more[j].section == section;
    }
    if lines[i].section == section {
      assert more[i].section == section;
    }
    if Found(section, more) {
      var j :| 0 <= j < i + 1 && more[j].section == section;
      assert j < i ==> lines[..i][j].section == section;
    }
  }

  class ConfigText {
    var text: string

    constructor (text: string)
      ensures this.text == text
    {
      this.text := text;
    }
  }

  /** The passes of a load; q.section is in lower case already, as printed ids are. */
  method LoadControllerConfig(file: ConfigText, target: ConfigBox, q: Request) returns (rc: int)
    requires target.config.WellFormed() && Lower(q.section) == q.section
    modifies file, target
    ensures target.config.WellFormed()
    ensures Loaded(rc, target.config, file.text) == Load(old(file.text), old(target.config), q)
  {
    var cfgDefault := new ConfigIniData("default", target);
    assert cfgDefault.iniSection == "default";
    var cfgController := new ConfigIniData(q.section, target);
    rc := cfgDefault.ReadFromConfig(file.text);
    if rc != 0 {
      return;
    }
    rc := cfgController.ReadFromConfig(file.text);
    if rc != 0 {
      return;
    }
    if !cfgController.iniSectionFound && q.autoAdd {
      if !q.appends {
        return -1;
      }
      file.text := file.text + q.block;
      rc := cfgController.ReadFromConfig(file.text);
      if rc != 0 {
        return;
      }
    }
    if |target.config.profile| > 0 {
      var cfgProfile := new ConfigIniData(target.config.profile, target);
      rc := cfgProfile.ReadFromConfig(file.text);
      if rc != 0 {
        return;
      }
      rc := cfgController.ReadFromConfig(file.text);
    }
  }
}
