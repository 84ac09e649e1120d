/** From the lines of a configuration file to the way a stick moves. */
module StickConfig {
  import opened Chars
  import opened Axis
  import opened Ini
  import opened IniLines
  import opened Config
  import opened ConfigFile
  import ConfigNames
  import InputMap

  /** The keys of the two directions of each stick axis. */
  const FIRST_KEYS: seq<string> := ["lstick_left", "lstick_up", "rstick_left", "rstick_up"]
  const SECOND_KEYS: seq<string> := ["lstick_right", "lstick_down", "rstick_right", "rstick_down"]

  lemma DirectionNames(k: nat)
    requires k < InputMap.STICK_AXES
    ensures BUTTON_NAMES[InputMap.Lower(k).button] == FIRST_KEYS[k]
    ensures BUTTON_NAMES[InputMap.Upper(k).button] == SECOND_KEYS[k]
  {
  }

  lemma DirectionKeys(k: nat)
    requires k < InputMap.STICK_AXES
    ensures ButtonOf(FIRST_KEYS[k]) == InputMap.Lower(k).button
    ensures ButtonOf(SECOND_KEYS[k]) == InputMap.Upper(k).button
  {
    var first, second := InputMap.Lower(k).button, InputMap.Upper(k).button;
    DirectionNames(k);
    ConfigNames.ButtonNamesDiffer(first);
    ConfigNames.ButtonNamesDiffer(second);
    ConfigNames.FoundAt(BUTTON_NAMES, BUTTON_NAMES[first], first);
    ConfigNames.FoundAt(BUTTON_NAMES, BUTTON_NAMES[second], second);
  }

  /** Left and down are the negative ends of a stick. */
  lemma DirectionSigns(k: nat)
    requires k < InputMap.STICK_AXES
    ensures InputMap.Lower(k).sign == (if k % 2 == 0 then -1.0 else 1.0)
    ensures InputMap.Upper(k).sign == (if k % 2 == 0 then 1.0 else -1.0)
  {
  }

  /** What decides the binding of the button a key names. */
  function Decides(text: string, cfg: ControllerConfig, q: Request, name: string): Decision
    requires cfg.WellFormed()
  {
    var lines := FileLines(Load(text, cfg, q).text);
    LoadBinding(FileLines(text), q.section, ProfileUsed(text, cfg, q, lines), lines, ButtonOf(name))
  }

  predicate Names(name: string, a: AxisId) {
    Config.Lower(name) == AXIS_NAMES[a]
  }

  /** The lines that decide stick axis k bind axis a with one sign to left or up, and with the other one to right or down. */
  ghost predicate BindsStick(text: string, cfg: ControllerConfig, q: Request, k: nat, sign: char, a: AxisId)
    requires cfg.WellFormed() && k < InputMap.STICK_AXES
  {
    exists first, second ::
      && Names(first, a) && Decides(text, cfg, q, FIRST_KEYS[k]) == Bound([sign] + first)
      && Names(second, a) && Decides(text, cfg, q, SECOND_KEYS[k]) == Bound([if sign == '-' then '+' else '-'] + second)
  }

  /** The sense in which the stick axis takes the axis, right and up being positive. */
  function Sense(k: nat, sign: char): int {
    if (k % 2 == 0) == (sign == '-') then 1 else -1
  }

  lemma BoundSticksOppose(text: string, cfg: ControllerConfig, q: Request, k: nat, sign: char, a: AxisId, raw: seq<bool>)
    requires cfg.WellFormed() && Load(text, cfg, q).rc == 0 && InputMap.Usable(Load(text, cfg, q).cfg)
    requires k < InputMap.STICK_AXES && a > 0 && (sign == '-' || sign == '+') && BindsStick(text, cfg, q, k, sign, a)
    requires |raw| == InputMap.MAX_BUTTONS && !raw[0]
    ensures InputMap.Opposed(Load(text, cfg, q).cfg, raw, k, a, Sense(k, sign))
  {
    var other := if sign == '-' then '+' else '-';
    var first, second :|
      && Names(first, a) && Decides(text, cfg, q, FIRST_KEYS[k]) == Bound([sign] + first)
      && Names(second, a) && Decides(text, cfg, q, SECOND_KEYS[k]) == Bound([other] + second);
    DirectionKeys(k);
    DirectionSigns(k);
    LoadBinds(text, cfg, q, InputMap.Lower(k).button);
    LoadBinds(text, cfg, q, InputMap.Upper(k).button);
    ConfigNames.SignedAxisBinds(sign, first, a);
    ConfigNames.SignedAxisBinds(other, second, a);
  }

  /**
   A file whose lines bind an axis to the two directions of a stick makes that
   stick follow the axis, by its dead zone and its factor: as it reads where left or
   up has the minus sign, and turned round where it has the plus sign.
   */
  lemma FileDrivesStick(text: string, cfg: ControllerConfig, q: Request, k: nat, sign: char, a: AxisId,
                        raw: seq<bool>, analog: seq<real>, reading: int, min: int, max: int)
    requires cfg.WellFormed() && Load(text, cfg, q).rc == 0 && InputMap.Usable(Load(text, cfg, q).cfg)
    requires k < InputMap.STICK_AXES && a > 0 && (sign == '-' || sign == '+') && BindsStick(text, cfg, q, k, sign, a)
    requires |raw| == InputMap.MAX_BUTTONS && !raw[0] && |analog| == AXES
    requires min < Half(max + min) < max && analog[a] == Normalize(reading, min, max)
    ensures var loaded := Load(text, cfg, q).cfg;
            var position := ConvertX(AxisValue(reading, min, max, loaded.deadzone[a], loaded.factor[a]));
            InputMap.Position(loaded, raw, analog, k) == if sign == '-' then position else -position
  {
    BoundSticksOppose(text, cfg, q, k, sign, a, raw);
    InputMap.ReadingDrivesStick(Load(text, cfg, q).cfg, raw, analog, k, a, Sense(k, sign), reading, min, max);
  }

  // ---------------------------------------------------------------- a line in the file

  predicate LettersOnly(s: string) {
    forall i :: 0 <= i < |s| ==> 'a' <= s[i] <= 'z' || s[i] == '_'
  }

  lemma ButtonNamesAreLetters(b: RealButton)
    ensures LettersOnly(BUTTON_NAMES[b]) && BUTTON_NAMES[b] != ""
  {
  }

  lemma LettersArePlain(name: string)
    requires LettersOnly(Config.Lower(name)) && name != ""
    ensures PlainName(name)
  {
    forall i | 0 <= i < |name|
      ensures !IsSpace(name[i]) && name[i] !in "=:;#["
    {
      assert 'a' <= Config.Lower(name)[i] <= 'z' || Config.Lower(name)[i] == '_';
    }
  }

  /**
   A line that names a button in either case, with a clean value, is handed to the
   loader as that button's binding, whatever blanks and comments are around.
   */
  lemma BindingLineReads(p: Parser, b: RealButton, name: string, gap: string, separator: char,
                         before: string, v: string, tail: string)
    requires Config.Lower(name) == BUTTON_NAMES[b] && Blank(gap) && IsSeparator(separator) && p.lineno > 0
    requires Blank(before) && Clean(v) && v != "" && (before != "" ==> v[0] != ';') && Tail(tail)
    ensures ParseLine(p, name + gap + [separator] + (before + v + tail)).events == p.events + [Event(p.section, name, v)]
    ensures LineOf(Event(p.section, name, v)) == Line(Config.Lower(p.section), ButtonKey(b), v)
  {
    ButtonNamesAreLetters(b);
    LettersArePlain(name);
    assert "" + name == name;
    PairReads(p, "", name, gap, separator, before, v, tail);
    ConfigNames.ButtonNameIsKey(b);
  }
}
