/**
 Loading a controller's configuration: the file is parsed again and again, each
 time for another section, and a controller that has no section gets one appended.
 */
module ConfigFile {
  import opened Sequences
  import opened Ini
  import opened IniReaders
  import opened Config

  /** An event as the line handler sees it: section and name in lower case, the name looked up. */
  datatype Line = Line(section: string, key: Key, value: string)

  function LineOf(e: Event): Line {
    Line(Lower(e.section), KeyOf(Lower(e.name)), e.value)
  }

  function LinesOf(events: seq<Event>): seq<Line> {
    Map(LineOf, events)
  }

  // ---------------------------------------------------------------- one pass

  /** What the handler for a section (in lower case) makes of the lines of a file. */
  function Pass(cfg: ControllerConfig, section: string, lines: seq<Line>): (r: ControllerConfig)
    requires cfg.WellFormed()
    ensures r.WellFormed()
  {
    if lines == [] then cfg
    else
      var n := |lines| - 1;
      PassLine(Pass(cfg, section, lines[..n]), section, lines[n])
  }

  function PassLine(cfg: ControllerConfig, section: string, line: Line): (r: ControllerConfig)
    requires cfg.WellFormed()
    ensures r.WellFormed()
  {
    if line.section == section then Apply(cfg, line.key, line.value) else cfg
  }

  predicate Found(section: string, lines: seq<Line>) {
    exists i :: 0 <= i < |lines| && lines[i].section == section
  }

  /** What the lines of a section write in the end, field by field. */
  function PassWrites(section: string, lines: seq<Line>): map<Field, Content> {
    if lines == [] then map[]
    else
      var n := |lines| - 1;
      PassWrites(section, lines[..n]) + LineWrites(section, lines[n])
  }

  function LineWrites(section: string, line: Line): map<Field, Content> {
    if line.section == section then Writes(line.key, line.value) else map[]
  }

  /** The combos of a section's lines, in order. */
  function PassCombos(section: string, lines: seq<Line>): seq<Combo> {
    if lines == [] then []
    else
      var n := |lines| - 1;
      PassCombos(section, lines[..n]) + LineCombos(section, lines[n])
  }

  function LineCombos(section: string, line: Line): seq<Combo> {
    if line.section == section && line.key.Simulate? then [ComboOf(line.key.b, line.value)] else []
  }

  lemma PassLineIsOver(cfg: ControllerConfig, section: string, line: Line, f: Field)
    requires cfg.WellFormed()
    ensures Get(PassLine(cfg, section, line), f) == Over(cfg, LineWrites(section, line), f)
  {
    ApplyWrites(cfg, line.key, line.value, f);
  }

  lemma {:induction false} PassIsOver(cfg: ControllerConfig, section: string, lines: seq<Line>, f: Field)
    requires cfg.WellFormed()
    ensures Get(Pass(cfg, section, lines), f) == Over(cfg, PassWrites(section, lines), f)
  {
    if lines != [] {
      var n := |lines| - 1;
      PassIsOver(cfg, section, lines[..n], f);
      PassLineIsOver(Pass(cfg, section, lines[..n]), section, lines[n], f);
    }
  }

  /** Line i is the last of a section that writes f; -1 if there is none. */
  ghost predicate IsLast(section: string, lines: seq<Line>, f: Field, i: int) {
    && -1 <= i < |lines|
    && (i >= 0 ==> f in LineWrites(section, lines[i]))
    && forall j :: i < j < |lines| ==> f !in LineWrites(section, lines[j])
  }

  /** A field a section writes holds what its last line for that field says. */
  lemma {:induction false} LastLineWins(section: string, lines: seq<Line>, f: Field) returns (i: int)
    ensures IsLast(section, lines, f, i)
    ensures f in PassWrites(section, lines) <==> i >= 0
    ensures i >= 0 ==> PassWrites(section, lines)[f] == LineWrites(section, lines[i])[f]
  {
    if lines == [] {
      i := -1;
    } else {
      var n := |lines| - 1;
      PassWritesLast(section, lines, f);
      if f in LineWrites(section, lines[n]) {
        i := n;
      } else {
        i := LastLineWins(section, lines[..n], f);
        LastBefore(section, lines, f, i);
      }
    }
  }

  lemma LastBefore(section: string, lines: seq<Line>, f: Field, i: int)
    requires lines != [] && IsLast(section, lines[..|lines| - 1], f, i)
    requires f !in LineWrites(section, lines[|lines| - 1])
    ensures IsLast(section, lines, f, i)
  {
    forall j | i < j < |lines|
      ensures f !in LineWrites(section, lines[j])
    {
      assert j < |lines| - 1 ==> lines[..|lines| - 1][j] == lines[j];
    }
  }

  lemma PassWritesLast(section: string, lines: seq<Line>, f: Field)
    requires lines != []
    ensures var before, last := PassWrites(section, lines[..|lines| - 1]), LineWrites(section, lines[|lines| - 1]);
            && (f in PassWrites(section, lines) <==> f in before || f in last)
            && (f in last ==> PassWrites(section, lines)[f] == last[f])
            && (f in before && f !in last ==> PassWrites(section, lines)[f] == before[f])
  {
  }

  /** What a loaded configuration always satisfies. */
  ghost predicate Sound(cfg: ControllerConfig) {
    cfg.WellFormed() && Prefixed(cfg.combos)
  }

  lemma CappedTwice(a: seq<Combo>, b: seq<Combo>, c: seq<Combo>)
    requires |a| <= MAX_COMBOS && |c| <= 1
    ensures Capped(Capped(a + b) + c) == Capped(a + (b + c))
  {
    assert (a + b) + c == a + (b + c);
  }

  lemma PassLineKeepsSound(cfg: ControllerConfig, section: string, line: Line)
    requires Sound(cfg)
    ensures Sound(PassLine(cfg, section, line))
    ensures Used(PassLine(cfg, section, line).combos) == Capped(Used(cfg.combos) + LineCombos(section, line))
  {
    ApplyKeeps(cfg, line.key, line.value);
    assert Used(cfg.combos) + [] == Used(cfg.combos);
  }

  /** Every pass keeps combos in front, and appends the section's combos while there is room. */
  lemma {:induction false} PassKeepsSound(cfg: ControllerConfig, section: string, lines: seq<Line>)
    requires Sound(cfg)
    ensures Sound(Pass(cfg, section, lines))
    ensures Used(Pass(cfg, section, lines).combos) == Capped(Used(cfg.combos) + PassCombos(section, lines))
  {
    if lines == [] {
      assert Used(cfg.combos) + [] == Used(cfg.combos);
    } else {
      var n := |lines| - 1;
      PassKeepsSound(cfg, section, lines[..n]);
      PassLineKeepsSound(Pass(cfg, section, lines[..n]), section, lines[n]);
      CappedTwice(Used(cfg.combos), PassCombos(section, lines[..n]), LineCombos(section, lines[n]));
    }
  }

  // ---------------------------------------------------------------- which pins are stored

  /** What decides a button's pins: nothing, or a line's value. */
  datatype Decision = Kept | Bound(value: string)

  /** The last line of a section for a button. */
  function LastBinding(section: string, lines: seq<Line>, b: Button): Decision {
    if lines == [] then Kept
    else
      var n := |lines| - 1;
      if lines[n].section == section && lines[n].key.ButtonKey? && lines[n].key.b == b then Bound(lines[n].value)
      else LastBinding(section, lines[..n], b)
  }

  function PinsAfter(d: Decision, before: Pins): Pins {
    match d
    case Kept => before
    case Bound(value) => BindingOf(value).pins
  }

  function AnalogAfter(d: Decision, before: AnalogConfig): AnalogConfig {
    match d
    case Kept => before
    case Bound(value) => BindingOf(value).analog
  }

  predicate ReadsWell(d: Decision) {
    d.Bound? ==> PinsReadWell(d.value)
  }

  lemma {:induction false} PassBinds(cfg: ControllerConfig, section: string, lines: seq<Line>, b: Button)
    requires cfg.WellFormed()
    ensures Pass(cfg, section, lines).pins[b] == PinsAfter(LastBinding(section, lines, b), cfg.pins[b])
    ensures Pass(cfg, section, lines).analog[b] == AnalogAfter(LastBinding(section, lines, b), cfg.analog[b])
  {
    if lines != [] {
      PassBinds(cfg, section, lines[..|lines| - 1], b);
    }
  }

  /** One for each button. */
  function LastBindings(section: string, lines: seq<Line>): (r: seq<Decision>)
    ensures |r| == BUTTONS
  {
    seq(BUTTONS, b requires 0 <= b < BUTTONS => LastBinding(section, lines, b))
  }

  ghost predicate Decided(before: seq<Pins>, decisions: seq<Decision>, after: seq<Pins>) {
    && |before| == |decisions| == |after|
    && forall b :: 0 <= b < |after| ==> after[b] == PinsAfter(decisions[b], before[b])
  }

  /** Pins that were real stay real over a pass exactly when no button's last line binds a misread token. */
  lemma PassKeepsPins(cfg: ControllerConfig, section: string, lines: seq<Line>)
    requires cfg.WellFormed() && PinsInRange(cfg)
    ensures PinsInRange(Pass(cfg, section, lines)) <==> forall d :: d in LastBindings(section, lines) ==> ReadsWell(d)
  {
    var r, decisions := Pass(cfg, section, lines), LastBindings(section, lines);
    forall b | 0 <= b < BUTTONS
      ensures r.pins[b] == PinsAfter(decisions[b], cfg.pins[b])
    {
      PassBinds(cfg, section, lines, b);
    }
    DecidedPins(cfg.pins, decisions, r.pins);
  }

  lemma DecidedPins(before: seq<Pins>, decisions: seq<Decision>, after: seq<Pins>)
    requires Decided(before, decisions, after) && forall b :: 0 <= b < |before| ==> InRange(before[b])
    ensures (forall b :: 0 <= b < |after| ==> InRange(after[b])) <==> forall d :: d in decisions ==> ReadsWell(d)
  {
    forall b | 0 <= b < |after|
      ensures InRange(after[b]) <==> ReadsWell(decisions[b])
    {
      if decisions[b].Bound? {
        BindingInRange(decisions[b].value);
      }
    }
  }

  // ---------------------------------------------------------------- loading

  function ParsedFile(text: string): Parser {
    Parse(START, CallbackLines(text))
  }

  function FileLines(text: string): seq<Line> {
    LinesOf(ParsedFile(text).events)
  }

  /** A request to load: what to append for an unknown controller, and whether the file can be appended to. */
  datatype Request = Request(section: string, autoAdd: bool, block: string, appends: bool)

  datatype Loaded = Loaded(rc: int, cfg: ControllerConfig, text: string)

  /** The profile, if there is one, and the controller's section again on top of it. */
  function WithProfile(cfg: ControllerConfig, section: string, lines: seq<Line>): (r: ControllerConfig)
    requires cfg.WellFormed()
    ensures r.WellFormed()
  {
    if cfg.profile == "" then cfg else Pass(Pass(cfg, Lower(cfg.profile), lines), section, lines)
  }

  function Load(text: string, cfg: ControllerConfig, q: Request): (r: Loaded)
    requires cfg.WellFormed()
    ensures r.cfg.WellFormed()
  {
    var lines := FileLines(text);
    var cfg1 := Pass(cfg, "default", lines);
    if ParsedFile(text).error != 0 then Loaded(ParsedFile(text).error, cfg1, text)
    else
      var cfg2 := Pass(cfg1, q.section, lines);
      if Found(q.section, lines) || !q.autoAdd then Loaded(0, WithProfile(cfg2, q.section, lines), text)
      else if !q.appends then Loaded(-1, cfg2, text)
      else
        var text' := text + q.block;
        var cfg3 := Pass(cfg2, q.section, FileLines(text'));
        if ParsedFile(text').error != 0 then Loaded(ParsedFile(text').error, cfg3, text')
        else Loaded(0, WithProfile(cfg3, q.section, FileLines(text')), text')
  }

  // ---------------------------------------------------------------- the override order

  /** A lookup through layers, the first one on top. */
  function Layered(top: map<Field, Content>, middle: map<Field, Content>, bottom: map<Field, Content>,
                   cfg: ControllerConfig, f: Field): Content
    requires cfg.WellFormed()
  {
    if f in top then top[f] else if f in middle then middle[f] else Over(cfg, bottom, f)
  }

  /** The lines the default section was read from, and those of the final text. */
  ghost predicate Passes(r: Loaded, text: string, cfg: ControllerConfig, q: Request, cfg2: ControllerConfig)
    requires cfg.WellFormed() && cfg2.WellFormed()
  {
    && cfg2 == Pass(Pass(cfg, "default", FileLines(text)), q.section, FileLines(r.text))
    && r.cfg == WithProfile(cfg2, q.section, FileLines(r.text))
  }

  /** A pass for a section that no line belongs to changes nothing. */
  lemma {:induction false} NotFoundChangesNothing(cfg: ControllerConfig, section: string, lines: seq<Line>)
    requires cfg.WellFormed() && !Found(section, lines)
    ensures Pass(cfg, section, lines) == cfg
  {
    if lines != [] {
      var n := |lines| - 1;
      assert lines[n].section != section;
      assert forall i :: 0 <= i < n ==> lines[..n][i] == lines[i];
      NotFoundChangesNothing(cfg, section, lines[..n]);
    }
  }

  /** An unknown controller is to be added. */
  predicate Adds(text: string, q: Request) {
    ParsedFile(text).error == 0 && !Found(q.section, FileLines(text)) && q.autoAdd
  }

  /**
   A load fails with the line of the file's first error, with -1 where the file
   cannot be added to, and with the first error of the longer text; the text grows
   exactly when a section is added.
   */
  lemma LoadStatus(text: string, cfg: ControllerConfig, q: Request)
    requires cfg.WellFormed()
    ensures var r, longer := Load(text, cfg, q), text + q.block;
            && (ParsedFile(text).error != 0 ==> r.rc == ParsedFile(text).error)
            && (Adds(text, q) && !q.appends ==> r.rc == -1)
            && (Adds(text, q) && q.appends ==> r.rc == ParsedFile(longer).error)
            && (ParsedFile(text).error == 0 && !Adds(text, q) ==> r.rc == 0)
            && r.text == if Adds(text, q) && q.appends then longer else text
  {
  }

  /** A load that fails leaves what the passes before the failure made: [default] and, unless the first one failed, the section. */
  lemma FailedLoadKeeps(text: string, cfg: ControllerConfig, q: Request)
    requires cfg.WellFormed() && Load(text, cfg, q).rc != 0
    ensures ParsedFile(text).error != 0 ==> Load(text, cfg, q).cfg == Pass(cfg, "default", FileLines(text))
    ensures ParsedFile(text).error == 0 ==>
              Load(text, cfg, q).cfg == Pass(Pass(cfg, "default", FileLines(text)), q.section, FileLines(Load(text, cfg, q).text))
  {
    var defaults := Pass(cfg, "default", FileLines(text));
    if ParsedFile(text).error == 0 {
      LoadStatus(text, cfg, q);
      NotFoundChangesNothing(defaults, q.section, FileLines(text));
    }
  }

  lemma LoadPasses(text: string, cfg: ControllerConfig, q: Request) returns (cfg2: ControllerConfig)
    requires cfg.WellFormed() && Load(text, cfg, q).rc == 0
    ensures cfg2.WellFormed() && Passes(Load(text, cfg, q), text, cfg, q, cfg2)
  {
    var r := Load(text, cfg, q);
    var cfg1 := Pass(cfg, "default", FileLines(text));
    cfg2 := Pass(cfg1, q.section, FileLines(r.text));
    if !Found(q.section, FileLines(text)) {
      NotFoundChangesNothing(cfg1, q.section, FileLines(text));
    }
  }

  /** Reading a section, another one and the first again is reading the other one and then the first. */
  lemma RereadingOverrides(cfg: ControllerConfig, section: string, profile: string, lines: seq<Line>, f: Field)
    requires cfg.WellFormed()
    ensures var direct := Pass(Pass(cfg, profile, lines), section, lines);
            && Get(Pass(Pass(Pass(cfg, section, lines), profile, lines), section, lines), f) == Get(direct, f)
            && Get(direct, f) == Layered(PassWrites(section, lines), PassWrites(profile, lines), map[], cfg, f)
  {
    var cfg2 := Pass(cfg, section, lines);
    PassIsOver(cfg, section, lines, f);
    PassIsOver(cfg2, profile, lines, f);
    PassIsOver(Pass(cfg2, profile, lines), section, lines, f);
    PassIsOver(cfg, profile, lines, f);
    PassIsOver(Pass(cfg, profile, lines), section, lines, f);
  }

  /** Field f of a configuration read from default, profile and controller section, each on top of the one before. */
  function Overridden(cfg: ControllerConfig, defaults: seq<Line>, section: string, profile: string, lines: seq<Line>,
                      f: Field): Content
    requires cfg.WellFormed()
  {
    Layered(PassWrites(section, lines), if profile == "" then map[] else PassWrites(profile, lines),
            PassWrites("default", defaults), cfg, f)
  }

  lemma WithProfileOverrides(cfg: ControllerConfig, section: string, lines: seq<Line>, f: Field)
    requires cfg.WellFormed()
    ensures var cfg2 := Pass(cfg, section, lines);
            Get(WithProfile(cfg2, section, lines), f)
            == Layered(PassWrites(section, lines), if cfg2.profile == "" then map[] else PassWrites(Lower(cfg2.profile), lines),
                       map[], cfg, f)
  {
    var cfg2 := Pass(cfg, section, lines);
    if cfg2.profile == "" {
      PassIsOver(cfg, section, lines, f);
    } else {
      RereadingOverrides(cfg, section, Lower(cfg2.profile), lines, f);
    }
  }

  lemma PassesOverride(cfg: ControllerConfig, defaults: seq<Line>, section: string, lines: seq<Line>, f: Field)
    requires cfg.WellFormed()
    ensures var cfg2 := Pass(Pass(cfg, "default", defaults), section, lines);
            Get(WithProfile(cfg2, section, lines), f)
            == Overridden(cfg, defaults, section, Lower(cfg2.profile), lines, f)
  {
    var cfg1 := Pass(cfg, "default", defaults);
    var cfg2 := Pass(cfg1, section, lines);
    PassIsOver(cfg, "default", defaults, f);
    WithProfileOverrides(cfg1, section, lines, f);
  }

  /** The profile a load uses: the one set after [default] and the controller's section. */
  function ProfileUsed(text: string, cfg: ControllerConfig, q: Request, lines: seq<Line>): string
    requires cfg.WellFormed()
  {
    Lower(Pass(Pass(cfg, "default", FileLines(text)), q.section, lines).profile)
  }

  /**
   After a successful load every field but the combos holds what the controller's
   own section says last, else what the profile says last, else what [default]
   says last, else what it held before.
   */
  lemma LoadOverrides(text: string, cfg: ControllerConfig, q: Request, f: Field)
    requires cfg.WellFormed() && Load(text, cfg, q).rc == 0
    ensures var r := Load(text, cfg, q);
            var lines := FileLines(r.text);
            Get(r.cfg, f) == Overridden(cfg, FileLines(text), q.section, ProfileUsed(text, cfg, q, lines), lines, f)
  {
    var _ := LoadPasses(text, cfg, q);
    PassesOverride(cfg, FileLines(text), q.section, FileLines(Load(text, cfg, q).text), f);
  }

  /** What the controller's own section says wins. */
  lemma OwnSectionWins(text: string, cfg: ControllerConfig, q: Request, f: Field, own: map<Field, Content>)
    requires cfg.WellFormed() && Load(text, cfg, q).rc == 0
    requires own == PassWrites(q.section, FileLines(Load(text, cfg, q).text)) && f in own
    ensures Get(Load(text, cfg, q).cfg, f) == own[f]
  {
    LoadOverrides(text, cfg, q, f);
  }

  function Later(d: Decision, later: Decision): Decision {
    if later.Bound? then later else d
  }

  /** What decides a button's pins in a load: the section, else the profile, else [default]. */
  function LoadBinding(defaults: seq<Line>, section: string, profile: string, lines: seq<Line>, b: Button): Decision {
    Later(Later(LastBinding("default", defaults, b), if profile == "" then Kept else LastBinding(profile, lines, b)),
          LastBinding(section, lines, b))
  }

  function LoadBindings(defaults: seq<Line>, section: string, profile: string, lines: seq<Line>): (r: seq<Decision>)
    ensures |r| == BUTTONS
  {
    seq(BUTTONS, b requires 0 <= b < BUTTONS => LoadBinding(defaults, section, profile, lines, b))
  }

  lemma PassesBind(cfg: ControllerConfig, defaults: seq<Line>, section: string, lines: seq<Line>, b: Button)
    requires cfg.WellFormed()
    ensures var cfg2 := Pass(Pass(cfg, "default", defaults), section, lines);
            var d := LoadBinding(defaults, section, Lower(cfg2.profile), lines, b);
            && WithProfile(cfg2, section, lines).pins[b] == PinsAfter(d, cfg.pins[b])
            && WithProfile(cfg2, section, lines).analog[b] == AnalogAfter(d, cfg.analog[b])
  {
    var cfg1 := Pass(cfg, "default", defaults);
    var cfg2 := Pass(cfg1, section, lines);
    PassBinds(cfg, "default", defaults, b);
    PassBinds(cfg1, section, lines, b);
    PassBinds(cfg2, Lower(cfg2.profile), lines, b);
    PassBinds(Pass(cfg2, Lower(cfg2.profile), lines), section, lines, b);
  }

  lemma PassesKeepPins(cfg: ControllerConfig, defaults: seq<Line>, section: string, lines: seq<Line>)
    requires cfg.WellFormed() && PinsInRange(cfg)
    ensures var cfg2 := Pass(Pass(cfg, "default", defaults), section, lines);
            PinsInRange(WithProfile(cfg2, section, lines))
            <==> forall d :: d in LoadBindings(defaults, section, Lower(cfg2.profile), lines) ==> ReadsWell(d)
  {
    var cfg2 := Pass(Pass(cfg, "default", defaults), section, lines);
    var decisions, r := LoadBindings(defaults, section, Lower(cfg2.profile), lines), WithProfile(cfg2, section, lines);
    forall b | 0 <= b < BUTTONS
      ensures r.pins[b] == PinsAfter(decisions[b], cfg.pins[b])
    {
      PassesBind(cfg, defaults, section, lines, b);
    }
    DecidedPins(cfg.pins, decisions, r.pins);
  }

  /** What a load binds to a button is what the line that decides it says. */
  lemma LoadBinds(text: string, cfg: ControllerConfig, q: Request, b: Button)
    requires cfg.WellFormed() && Load(text, cfg, q).rc == 0
    ensures var r := Load(text, cfg, q);
            var lines := FileLines(r.text);
            var d := LoadBinding(FileLines(text), q.section, ProfileUsed(text, cfg, q, lines), lines, b);
            r.cfg.pins[b] == PinsAfter(d, cfg.pins[b]) && r.cfg.analog[b] == AnalogAfter(d, cfg.analog[b])
  {
    var _ := LoadPasses(text, cfg, q);
    PassesBind(cfg, FileLines(text), q.section, FileLines(Load(text, cfg, q).text), b);
  }

  /** After a load all stored pins are real ones exactly when no line that decides a button's pins binds a misread token. */
  lemma LoadedPins(text: string, cfg: ControllerConfig, q: Request)
    requires cfg.WellFormed() && PinsInRange(cfg) && Load(text, cfg, q).rc == 0
    ensures var r := Load(text, cfg, q);
            var lines := FileLines(r.text);
            var profile := ProfileUsed(text, cfg, q, lines);
            PinsInRange(r.cfg)
            <==> forall d :: d in LoadBindings(FileLines(text), q.section, profile, lines) ==> ReadsWell(d)
  {
    var _ := LoadPasses(text, cfg, q);
    PassesKeepPins(cfg, FileLines(text), q.section, FileLines(Load(text, cfg, q).text));
  }

  /** The combos of a list of passes, each behind those before it. */
  function Stacked(used: seq<Combo>, defaults: seq<Combo>, own: seq<Combo>, profile: seq<Combo>, again: seq<Combo>): seq<Combo> {
    Capped(Capped(Capped(Capped(used + defaults) + own) + profile) + again)
  }

  lemma ProfileCombos(cfg: ControllerConfig, section: string, lines: seq<Line>)
    requires Sound(cfg)
    ensures var r := WithProfile(cfg, section, lines);
            var profile := Lower(cfg.profile);
            && Sound(r)
            && Used(r.combos) == Capped(Capped(Used(cfg.combos) + (if profile == "" then [] else PassCombos(profile, lines)))
                                        + (if profile == "" then [] else PassCombos(section, lines)))
  {
    var profile := Lower(cfg.profile);
    if profile != "" {
      PassKeepsSound(cfg, profile, lines);
      PassKeepsSound(Pass(cfg, profile, lines), section, lines);
    } else {
      assert Used(cfg.combos) + [] == Used(cfg.combos);
    }
  }

  lemma PassesCombos(cfg: ControllerConfig, defaults: seq<Line>, section: string, lines: seq<Line>)
    requires Sound(cfg)
    ensures var cfg2 := Pass(Pass(cfg, "default", defaults), section, lines);
            var profile, own := Lower(cfg2.profile), PassCombos(section, lines);
            && Sound(WithProfile(cfg2, section, lines))
            && Used(WithProfile(cfg2, section, lines).combos)
               == Stacked(Used(cfg.combos), PassCombos("default", defaults), own,
                          if profile == "" then [] else PassCombos(profile, lines), if profile == "" then [] else own)
  {
    PassKeepsSound(cfg, "default", defaults);
    PassKeepsSound(Pass(cfg, "default", defaults), section, lines);
    ProfileCombos(Pass(Pass(cfg, "default", defaults), section, lines), section, lines);
  }

  /**
   The combos, which lines append, are those of [default], the controller's
   section, the profile and, if there is a profile, the controller's section once
   more, as many as fit, and used combo slots come first.
   */
  lemma LoadedCombos(text: string, cfg: ControllerConfig, q: Request)
    requires Sound(cfg) && Load(text, cfg, q).rc == 0
    ensures var r := Load(text, cfg, q);
            var lines := FileLines(r.text);
            var profile, own := ProfileUsed(text, cfg, q, lines), PassCombos(q.section, lines);
            && Sound(r.cfg)
            && Used(r.cfg.combos)
               == Stacked(Used(cfg.combos), PassCombos("default", FileLines(text)), own,
                          if profile == "" then [] else PassCombos(profile, lines), if profile == "" then [] else own)
  {
    var _ := LoadPasses(text, cfg, q);
    PassesCombos(cfg, FileLines(text), q.section, FileLines(Load(text, cfg, q).text));
  }
}
