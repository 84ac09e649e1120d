/**
 The section that is appended for an unknown controller, and what parsing the
 longer file gives: everything the old text gave, then exactly the new lines.
 */
module ConfigAppend {
  import opened Chars
  import opened Sequences
  import opened Ini
  import opened IniLines
  import opened IniReaders
  import opened Config
  import opened ConfigFile
  import ConfigNames
  import VidPid

  datatype Pair = Pair(name: string, value: string)

  const DEFAULT_PAIRS: seq<Pair> := [
    Pair("b", "1"), Pair("a", "2"), Pair("x", "3"), Pair("y", "4"), Pair("l", "5"), Pair("r", "6"),
    Pair("zl", "7"), Pair("zr", "8"), Pair("minus", "9"), Pair("plus", "10"), Pair("capture", "11"), Pair("home", "12")]

  /** The default profile if there is one, twelve buttons otherwise. */
  function BodyPairs(profile: string): seq<Pair> {
    if profile != "" then [Pair("profile", profile)] else DEFAULT_PAIRS
  }

  function PairText(pair: Pair): string {
    pair.name + "=" + pair.value
  }

  function HeaderLine(section: string, date: string): string {
    "[" + section + "] ; Automatically added on " + date
  }

  function PairTexts(pairs: seq<Pair>): seq<string> {
    if pairs == [] then [] else [PairText(pairs[0])] + PairTexts(pairs[1..])
  }

  /** The lines with a newline behind each. */
  function Ended(lines: seq<string>): string {
    if lines == [] then "" else lines[0] + "\n" + Ended(lines[1..])
  }

  function Block(section: string, profile: string, date: string): string {
    "\n" + Ended([HeaderLine(section, date)] + PairTexts(BodyPairs(profile)))
  }

  // ---------------------------------------------------------------- lines that come back as they were written

  predicate OneLine(s: string) {
    '\n' !in s && NUL !in s && |s| < MAX_LINE
  }

  lemma {:induction false} EndedLines(lines: seq<string>)
    requires forall i :: 0 <= i < |lines| ==> OneLine(lines[i])
    ensures CallbackLines(Ended(lines)) == lines
    decreases |lines|
  {
    if lines != [] {
      var line, rest := lines[0], Ended(lines[1..]);
      var text := line + "\n" + rest;
      assert text[|line|] == '\n' && text[..|line|] == line && text[|line| + 1..] == rest;
      IndexIsFirst(text, '\n', |line|);
      NulFree(line);
      EndedLines(lines[1..]);
      assert CallbackLines(text) == [line] + CallbackLines(rest);
    }
  }

  lemma {:induction false} ParseCounts(p: Parser, lines: seq<string>)
    ensures Parse(p, lines).lineno == p.lineno + |lines|
    decreases |lines|
  {
    if lines != [] {
      ParseCounts(ParseLine(p, lines[0]), lines[1..]);
    }
  }

  /** No bracket, no comment, and short enough for the parser's buffer. */
  predicate PlainSection(s: string) {
    |s| < MAX_SECTION && forall i :: 0 <= i < |s| ==> s[i] != ']' && s[i] != ';'
  }

  /** The header switches to the section, whatever the date behind it says. */
  lemma HeaderParses(p: Parser, section: string, date: string)
    requires p.lineno >= 1 && PlainSection(section)
    ensures ParseLine(p, HeaderLine(section, date))
            == p.(lineno := p.lineno + 1, section := section, prevName := "")
  {
    var behind := " ; Automatically added on " + date;
    assert HeaderLine(section, date) == "[" + section + [']'] + behind;
    HeaderReads(p, section, behind);
  }

  /** A name that the parser takes as it is and remembers whole. */
  predicate ShortName(s: string) {
    PlainName(s) && |s| < MAX_NAME
  }

  /** What is read back of a value, once the line's trailing blanks are gone. */
  function ReadBack(pair: Pair): string {
    var text := RStrip(PairText(pair));
    if |text| > |pair.name| then ValueOf(text[|pair.name| + 1..]) else ""
  }

  lemma PairParses(p: Parser, pair: Pair)
    requires p.lineno >= 1 && ShortName(pair.name)
    ensures ParseLine(p, PairText(pair))
            == p.(lineno := p.lineno + 1, prevName := pair.name,
                  events := p.events + [Event(p.section, pair.name, ReadBack(pair))])
  {
    var name, right := pair.name, pair.value;
    assert PairText(pair) == name + "" + ['='] + right;
    var n := StripKeeps(name, '=', right);
    assert RStrip(PairText(pair)) == name + "" + ['='] + right[..n];
    LineTrimmed(p, PairText(pair), "", name + "" + ['='] + right[..n]);
    PairIsCut(p.(lineno := p.lineno + 1), name, "", '=', right[..n], 0);
    assert RStrip(PairText(pair))[|name| + 1..] == right[..n];
  }

  // ---------------------------------------------------------------- which values survive

  lemma ValueOfShorter(s: string)
    ensures |ValueOf(s)| <= Find(s, "", 0, false) <= |s|
    ensures ValueOf(s) != "" ==> !IsSpace(ValueOf(s)[0]) && !IsSpace(ValueOf(s)[|ValueOf(s)| - 1])
  {
    var t := LSkip(s[..Find(s, "", 0, false)]);
    if ValueOf(s) != "" {
      assert ValueOf(s)[0] == t[0];
    }
  }

  lemma TextOfPair(pair: Pair) returns (t: string)
    ensures ReadBack(pair) == ValueOf(t)
    ensures |t| <= |pair.value| && t == pair.value[..|t|]
    ensures Clean(pair.value) ==> t == pair.value
  {
    var line, n := PairText(pair), |pair.name|;
    assert line[n] == '=' && line[n + 1..] == pair.value;
    EndKeeps(line, n, |line|);
    t := RStrip(line)[n + 1..];
    if pair.value != "" {
      assert line[|line| - 1] == pair.value[|pair.value| - 1];
    }
  }

  lemma CleanValueKept(v: string)
    requires Clean(v)
    ensures ValueOf(v) == v
  {
    if v != "" {
      ValueReads("", v, "");
      assert "" + v + "" == v;
    }
  }

  lemma KeptValueClean(v: string)
    requires ValueOf(v) == v
    ensures Clean(v)
  {
    ValueOfShorter(v);
    FindIsFirst(v, "", 0, false);
  }

  /** A value comes back exactly as it was written if and only if it is clean. */
  lemma ReadBackExact(pair: Pair)
    ensures ReadBack(pair) == pair.value <==> Clean(pair.value)
  {
    var t := TextOfPair(pair);
    ValueOfShorter(t);
    if Clean(pair.value) {
      CleanValueKept(pair.value);
    }
    if ReadBack(pair) == pair.value {
      assert t == pair.value;
      KeptValueClean(pair.value);
    }
  }

  // ---------------------------------------------------------------- the whole block

  function PairEvents(section: string, pairs: seq<Pair>): seq<Event> {
    if pairs == [] then [] else [Event(section, pairs[0].name, ReadBack(pairs[0]))] + PairEvents(section, pairs[1..])
  }

  lemma {:induction false} PairsParse(p: Parser, pairs: seq<Pair>)
    requires p.lineno >= 1 && forall i :: 0 <= i < |pairs| ==> ShortName(pairs[i].name)
    ensures Parse(p, PairTexts(pairs)).events == p.events + PairEvents(p.section, pairs)
    ensures Parse(p, PairTexts(pairs)).error == p.error
    decreases |pairs|
  {
    if pairs != [] {
      PairParses(p, pairs[0]);
      var p1 := ParseLine(p, PairText(pairs[0]));
      PairsParse(p1, pairs[1..]);
      assert PairTexts(pairs)[0] == PairText(pairs[0]) && PairTexts(pairs)[1..] == PairTexts(pairs[1..]);
      Assoc(p.events, [Event(p.section, pairs[0].name, ReadBack(pairs[0]))], PairEvents(p.section, pairs[1..]));
    }
  }

  lemma {:induction false} PairTextsAreLines(pairs: seq<Pair>)
    requires forall i :: 0 <= i < |pairs| ==> OneLine(PairText(pairs[i]))
    ensures forall i :: 0 <= i < |PairTexts(pairs)| ==> OneLine(PairTexts(pairs)[i])
    decreases |pairs|
  {
    if pairs != [] {
      PairTextsAreLines(pairs[1..]);
    }
  }

  /**
   Behind any text whose lines fit (the last one, even unfinished, included), the
   appended pairs parse to exactly their own events, after those of the old text
   with its last line ended, and bring no error of their own.
   */
  lemma AppendedLinesParse(text: string, section: string, date: string, pairs: seq<Pair>)
    requires LinesFit(text + "\n", MAX_LINE - 1) && PlainSection(section) && OneLine(HeaderLine(section, date))
    requires forall i :: 0 <= i < |pairs| ==> ShortName(pairs[i].name) && OneLine(PairText(pairs[i]))
    ensures var before := ParsedFile(text + "\n");
            var after := ParsedFile(text + "\n" + Ended([HeaderLine(section, date)] + PairTexts(pairs)));
            && after.events == before.events + PairEvents(section, pairs)
            && after.error == before.error
  {
    var t1, header, rest := text + "\n", HeaderLine(section, date), PairTexts(pairs);
    PairTextsAreLines(pairs);
    EndedLines([header] + rest);
    LinesAfter(t1, Ended([header] + rest));
    ParseConcat(START, CallbackLines(t1), [header] + rest);
    var p := ParsedFile(t1);
    ParseCounts(START, CallbackLines(t1));
    TailTerminated(t1);
    assert p.lineno >= 1;
    HeaderParses(p, section, date);
    assert ([header] + rest)[1..] == rest;
    assert Parse(p, [header] + rest) == Parse(ParseLine(p, header), rest);
    PairsParse(ParseLine(p, header), pairs);
  }

  lemma NewlineIsOneLine(s: string)
    requires s == "\n"
    ensures CallbackLines(s) == [""]
  {
    assert FirstIndex(s, '\n') == 0 && s[1..] == "" && s[..0] == "";
    assert CallbackLines(s) == [CString(s[..0])] + CallbackLines(s[1..]);
  }

  /** Ending the last line of text that already ends with a newline changes no event and no error. */
  lemma BlankLineParses(text: string)
    requires Terminated(text) && LinesFit(text, MAX_LINE - 1)
    ensures ParsedFile(text + "\n").events == ParsedFile(text).events
    ensures ParsedFile(text + "\n").error == ParsedFile(text).error
  {
    LinesAfter(text, "\n");
    NewlineIsOneLine("\n");
    ParseConcat(START, CallbackLines(text), [""]);
    BlankLine(ParsedFile(text), [""]);
  }

  // ---------------------------------------------------------------- what the block configures

  /** The buttons the twelve default lines bind. */
  const DEFAULT_BUTTONS: seq<RealButton> := [3, 2, 1, 4, 15, 16, 17, 18, 19, 20, 25, 26]

  lemma DefaultKey(i: nat)
    requires i < 12
    ensures KeyOf(Lower(DEFAULT_PAIRS[i].name)) == ButtonKey(DEFAULT_BUTTONS[i])
  {
    var b := DEFAULT_BUTTONS[i];
    assert DEFAULT_PAIRS[i].name == BUTTON_NAMES[b];
    ConfigNames.ButtonNamesDiffer(b);
    ConfigNames.ButtonNameIsKey(b);
  }

  lemma NumberBinds(s: string)
    requires IsNumber(s) && Decimal(s, 0) < MAX_PINS
    ensures BindingOf(s).pins == Pins(Decimal(s, 0), 0)
  {
    AbsentIndex(s, ',');
    PinOfNumber(s, Decimal(s, 0));
    assert s[..|s|] == s;
    assert Tokens(s, ',') == [s];
    assert BindTokens(NO_BINDING, [s]) == BindTokens(BindToken(NO_BINDING, s), []);
  }

  lemma DefaultValue(i: nat)
    requires i < 12
    ensures Clean(DEFAULT_PAIRS[i].value) && BindingOf(DEFAULT_PAIRS[i].value).pins == Pins(i + 1, 0)
  {
    var s := DEFAULT_PAIRS[i].value;
    if i < 9 {
      assert s[1..] == "" && Decimal(s[1..], i + 1) == i + 1;
    } else {
      assert s[1..][1..] == "" && Decimal(s[1..][1..], i + 1) == i + 1;
      assert Decimal(s[1..], 1) == i + 1;
    }
    assert Decimal(s, 0) == i + 1;
    NumberBinds(s);
  }

  lemma {:induction false} PairEventAt(section: string, pairs: seq<Pair>, i: nat)
    requires i < |pairs|
    ensures |PairEvents(section, pairs)| == |pairs|
    ensures PairEvents(section, pairs)[i] == Event(section, pairs[i].name, ReadBack(pairs[i]))
    decreases |pairs|
  {
    if |pairs| > 1 {
      PairEventAt(section, pairs[1..], if i == 0 then 0 else i - 1);
    } else {
      assert PairEvents(section, pairs[1..]) == [];
    }
  }

  lemma PinsWrittenBy(section: string, line: Line, b: RealButton)
    ensures FPins(b) in LineWrites(section, line) <==> line.section == section && line.key == ButtonKey(b)
    ensures FPins(b) in LineWrites(section, line) ==>
              LineWrites(section, line)[FPins(b)] == Both(BindingOf(line.value).pins)
  {
  }

  /** The last line for a button decides its pins. */
  lemma {:induction false} LastButtonLineWins(section: string, lines: seq<Line>, n: nat, b: RealButton)
    requires n < |lines| && lines[n].section == section && lines[n].key == ButtonKey(b)
    requires forall j :: n < j < |lines| ==> lines[j].key != ButtonKey(b)
    ensures FPins(b) in PassWrites(section, lines)
    ensures PassWrites(section, lines)[FPins(b)] == Both(BindingOf(lines[n].value).pins)
  {
    var m := |lines| - 1;
    PinsWrittenBy(section, lines[m], b);
    if n < m {
      LastButtonLineWins(section, lines[..m], n, b);
    }
  }

  /** Lines for different buttons at the end of a file decide the pins of those buttons. */
  lemma ButtonLinesWin(section: string, prior: seq<Line>, added: seq<Line>, buttons: seq<RealButton>, i: nat)
    requires |added| == |buttons| && i < |buttons|
    requires forall k :: 0 <= k < |added| ==> IsButtonLine(added[k], section, buttons[k])
    requires forall j, k :: 0 <= j < k < |buttons| ==> buttons[j] != buttons[k]
    ensures FPins(buttons[i]) in PassWrites(section, prior + added)
    ensures PassWrites(section, prior + added)[FPins(buttons[i])] == Both(BindingOf(added[i].value).pins)
  {
    var lines := prior + added;
    forall j | |prior| + i < j < |lines|
      ensures lines[j].key != ButtonKey(buttons[i])
    {
      assert lines[j] == added[j - |prior|];
      assert IsButtonLine(added[j - |prior|], section, buttons[j - |prior|]);
    }
    assert lines[|prior| + i] == added[i] && IsButtonLine(added[i], section, buttons[i]);
    LastButtonLineWins(section, lines, |prior| + i, buttons[i]);
  }

  lemma LineWithKey(e: Event, key: Key)
    requires KeyOf(Lower(e.name)) == key
    ensures LineOf(e) == Line(Lower(e.section), key, e.value)
  {
  }

  ghost predicate IsButtonLine(line: Line, section: string, b: RealButton) {
    line.section == section && line.key == ButtonKey(b)
  }

  /** The appended events as lines. */
  lemma DefaultLines(section: string, i: nat)
    requires Lower(section) == section && i < 12
    ensures var lines := LinesOf(PairEvents(section, DEFAULT_PAIRS));
            && |lines| == 12 && IsButtonLine(lines[i], section, DEFAULT_BUTTONS[i])
            && BindingOf(lines[i].value).pins == Pins(i + 1, 0)
  {
    PairEventAt(section, DEFAULT_PAIRS, i);
    DefaultKey(i);
    DefaultValue(i);
    ReadBackExact(DEFAULT_PAIRS[i]);
    LineWithKey(Event(section, DEFAULT_PAIRS[i].name, DEFAULT_PAIRS[i].value), ButtonKey(DEFAULT_BUTTONS[i]));
  }

  lemma LinesOfConcat(a: seq<Event>, b: seq<Event>)
    ensures LinesOf(a + b) == LinesOf(a) + LinesOf(b)
  {
    MapConcat(LineOf, a, b);
  }

  // ---------------------------------------------------------------- ids as section names

  lemma LowerTwice(s: string)
    ensures Lower(Lower(s)) == Lower(s)
  {
  }

  /** A printed id is in lower case and makes a plain section name on one line. */
  lemma PrintedIdIsPlain(v: VidPid.ControllerVidPid)
    ensures Lower(VidPid.Print(v)) == VidPid.Print(v) && PlainSection(VidPid.Print(v)) && |VidPid.Print(v)| == 9
    ensures '\n' !in VidPid.Print(v) && NUL !in VidPid.Print(v)
  {
    var s := VidPid.Print(v);
    forall i | 0 <= i < |s|
      ensures s[i] in VidPid.DIGITS || s[i] == '-'
    {
      if i < 4 {
        assert s[i] == VidPid.Hex(v.vid)[i];
      } else if i > 4 {
        assert s[i] == VidPid.Hex(v.pid)[i - 5];
      }
    }
  }

  // ---------------------------------------------------------------- appending and loading again

  lemma DefaultPairIsPlain(i: nat)
    requires i < 12
    ensures ShortName(DEFAULT_PAIRS[i].name) && OneLine(PairText(DEFAULT_PAIRS[i]))
  {
    var name, value := DEFAULT_PAIRS[i].name, DEFAULT_PAIRS[i].value;
    assert '\n' !in name && NUL !in name && |name| < 10;
    assert '\n' !in value && NUL !in value && |value| < 10;
  }

  /** What can be appended: one-line texts, and a profile that is read back as it is. */
  predicate Appendable(section: string, profile: string, date: string) {
    && PlainSection(section) && Lower(section) == section && OneLine(HeaderLine(section, date))
    && Clean(profile) && OneLine(PairText(Pair("profile", profile)))
  }

  lemma BodyIsPlain(section: string, profile: string, date: string)
    requires Appendable(section, profile, date)
    ensures var pairs := BodyPairs(profile);
            |pairs| > 0 && forall i :: 0 <= i < |pairs| ==> ShortName(pairs[i].name) && OneLine(PairText(pairs[i]))
  {
    if profile == "" {
      forall i: nat | i < 12
        ensures ShortName(DEFAULT_PAIRS[i].name) && OneLine(PairText(DEFAULT_PAIRS[i]))
      {
        DefaultPairIsPlain(i);
      }
    }
  }

  /** Parsing the longer file gives the lines of the old one, its last line ended, and then the new ones. */
  lemma AppendedFileLines(text: string, section: string, profile: string, date: string)
    requires LinesFit(text + "\n", MAX_LINE - 1) && Appendable(section, profile, date)
    ensures var longer := text + Block(section, profile, date);
            && FileLines(longer) == FileLines(text + "\n") + LinesOf(PairEvents(section, BodyPairs(profile)))
            && ParsedFile(longer).error == ParsedFile(text + "\n").error
  {
    var pairs := BodyPairs(profile);
    BodyIsPlain(section, profile, date);
    AppendedLinesParse(text, section, date, pairs);
    var ended := Ended([HeaderLine(section, date)] + PairTexts(pairs));
    Assoc(text, "\n", ended);
    LinesOfConcat(ParsedFile(text + "\n").events, PairEvents(section, pairs));
  }

  lemma SectionIsFound(section: string, prior: seq<Line>, pairs: seq<Pair>)
    requires Lower(section) == section && |pairs| > 0
    ensures Found(section, prior + LinesOf(PairEvents(section, pairs)))
  {
    var lines := prior + LinesOf(PairEvents(section, pairs));
    PairEventAt(section, pairs, 0);
    assert lines[|prior|] == LineOf(PairEvents(section, pairs)[0]);
    assert lines[|prior|].section == section;
  }

  lemma ProfileIsKey()
    ensures KeyOf(Lower("profile")) == Profile
  {
    assert WORDS[1] == "profile";
    ConfigNames.WordStarts(1);
    ConfigNames.WordIsKey(1);
  }

  lemma ProfileLine(section: string, profile: string)
    requires Lower(section) == section && Clean(profile)
    ensures LinesOf(PairEvents(section, [Pair("profile", profile)])) == [Line(section, Profile, profile)]
  {
    var pair := Pair("profile", profile);
    ReadBackExact(pair);
    ProfileIsKey();
    LineWithKey(Event(section, pair.name, profile), Profile);
    OnePairLine(section, pair, Line(section, Profile, profile));
  }

  lemma OnePairLine(section: string, pair: Pair, line: Line)
    requires ReadBack(pair) == pair.value && LineOf(Event(section, pair.name, pair.value)) == line
    ensures LinesOf(PairEvents(section, [pair])) == [line]
  {
    PairEventAt(section, [pair], 0);
  }

  lemma LastProfileWins(cfg: ControllerConfig, section: string, prior: seq<Line>, profile: string)
    requires cfg.WellFormed()
    ensures Pass(cfg, section, prior + [Line(section, Profile, profile)]).profile == Lower(profile)
  {
    var lines := prior + [Line(section, Profile, profile)];
    assert lines[..|lines| - 1] == prior;
  }

  /** A printed id, a date and a clean profile on one line can be appended. */
  lemma IdIsAppendable(v: VidPid.ControllerVidPid, profile: string, date: string)
    requires '\n' !in date && NUL !in date && |date| <= 64
    requires '\n' !in profile && NUL !in profile && |profile| <= 1024 && Clean(profile)
    ensures Appendable(VidPid.Print(v), profile, date)
  {
    PrintedIdIsPlain(v);
  }

  /** A request to load a controller that is to be added if the file does not know it. */
  function Adding(section: string, profile: string, date: string): Request {
    Request(section, true, Block(section, profile, date), true)
  }

  /** A controller that the file does not know gets its section, which the same load then finds. */
  lemma AddedControllerIsFound(text: string, cfg: ControllerConfig, section: string, profile: string, date: string)
    requires cfg.WellFormed() && LinesFit(text + "\n", MAX_LINE - 1) && Appendable(section, profile, date)
    requires ParsedFile(text).error == 0 && !Found(section, FileLines(text))
    ensures var r := Load(text, cfg, Adding(section, profile, date));
            && r.rc == ParsedFile(text + "\n").error
            && r.text == text + Block(section, profile, date)
            && Found(section, FileLines(r.text))
            && FileLines(r.text) == FileLines(text + "\n") + LinesOf(PairEvents(section, BodyPairs(profile)))
  {
    AppendedFileLines(text, section, profile, date);
    BodyIsPlain(section, profile, date);
    SectionIsFound(section, FileLines(text + "\n"), BodyPairs(profile));
  }

  /**
   Unless the longer file has an error in what was its unfinished last line, the
   load that added the controller already goes by the new section: its profile is
   used, or else the twelve buttons are on pins one to twelve.
   */
  lemma AddedControllerIsLoaded(text: string, cfg: ControllerConfig, section: string, profile: string, date: string)
    requires cfg.WellFormed() && LinesFit(text + "\n", MAX_LINE - 1) && Appendable(section, profile, date)
    requires ParsedFile(text).error == 0 && !Found(section, FileLines(text))
    ensures var q := Adding(section, profile, date);
            var r := Load(text, cfg, q);
            && (profile != "" ==> ProfileUsed(text, cfg, q, FileLines(r.text)) == Lower(profile))
            && (profile == "" && r.rc == 0 ==>
                  forall i :: 0 <= i < 12 ==> Get(r.cfg, FPins(DEFAULT_BUTTONS[i])) == Both(Pins(i + 1, 0)))
  {
    AddedControllerIsFound(text, cfg, section, profile, date);
    if profile != "" {
      AddedProfileIsUsed(text, cfg, section, profile, date);
    } else {
      forall i: nat | i < 12 && Load(text, cfg, Adding(section, profile, date)).rc == 0
        ensures Get(Load(text, cfg, Adding(section, profile, date)).cfg, FPins(DEFAULT_BUTTONS[i])) == Both(Pins(i + 1, 0))
      {
        DefaultPinsLoaded(text, cfg, Adding(section, profile, date), i);
      }
    }
  }

  lemma AddedProfileIsUsed(text: string, cfg: ControllerConfig, section: string, profile: string, date: string)
    requires cfg.WellFormed() && Lower(section) == section && Clean(profile) && profile != ""
    requires FileLines(Load(text, cfg, Adding(section, profile, date)).text)
             == FileLines(text + "\n") + LinesOf(PairEvents(section, BodyPairs(profile)))
    ensures var q := Adding(section, profile, date);
            ProfileUsed(text, cfg, q, FileLines(Load(text, cfg, q).text)) == Lower(profile)
  {
    ProfileLine(section, profile);
    LastProfileWins(Pass(cfg, "default", FileLines(text)), section, FileLines(text + "\n"), profile);
    LowerTwice(profile);
  }

  lemma {:induction false} OtherLinesChangeNothing(cfg: ControllerConfig, section: string, prior: seq<Line>, added: seq<Line>)
    requires cfg.WellFormed() && forall i :: 0 <= i < |added| ==> added[i].section != section
    ensures Pass(cfg, section, prior + added) == Pass(cfg, section, prior)
    decreases |added|
  {
    if added == [] {
      assert prior + added == prior;
    } else {
      var n := |added| - 1;
      var lines := prior + added;
      assert lines[..|lines| - 1] == prior + added[..n] && lines[|lines| - 1] == added[n];
      OtherLinesChangeNothing(cfg, section, prior, added[..n]);
    }
  }

  /** Adding a controller leaves what any other section of the file says as it was. */
  lemma AddingLeavesOthers(text: string, cfg: ControllerConfig, section: string, profile: string, date: string, other: string)
    requires cfg.WellFormed() && Appendable(section, profile, date) && other != section
    requires Terminated(text) && LinesFit(text, MAX_LINE - 1)
    ensures Pass(cfg, other, FileLines(text + Block(section, profile, date))) == Pass(cfg, other, FileLines(text))
  {
    var pairs := BodyPairs(profile);
    var added := LinesOf(PairEvents(section, pairs));
    BlankLineFits(text);
    AppendedFileLines(text, section, profile, date);
    BlankLineParses(text);
    forall i | 0 <= i < |added|
      ensures added[i].section == section
    {
      PairEventCount(section, pairs);
      PairEventAt(section, pairs, i);
    }
    OtherLinesChangeNothing(cfg, other, FileLines(text), added);
  }

  lemma {:induction false} PairEventCount(section: string, pairs: seq<Pair>)
    ensures |PairEvents(section, pairs)| == |pairs|
    decreases |pairs|
  {
    if pairs != [] {
      PairEventCount(section, pairs[1..]);
    }
  }

  lemma {:induction false} BlankLineFits(text: string)
    requires Terminated(text) && LinesFit(text, MAX_LINE - 1)
    ensures LinesFit(text + "\n", MAX_LINE - 1)
    decreases |text|
  {
    if text == "" {
      assert text + "\n" == "\n";
      assert FirstIndex("\n", '\n') == 0 && "\n"[1..] == "";
    } else {
      TailTerminated(text);
      SameFirstLine(text, "\n");
      BlankLineFits(text[FirstIndex(text, '\n') + 1..]);
    }
  }

  lemma DefaultPinsWritten(section: string, prior: seq<Line>, i: nat)
    requires Lower(section) == section && i < 12
    ensures var own := PassWrites(section, prior + LinesOf(PairEvents(section, DEFAULT_PAIRS)));
            FPins(DEFAULT_BUTTONS[i]) in own && own[FPins(DEFAULT_BUTTONS[i])] == Both(Pins(i + 1, 0))
  {
    var added, buttons := LinesOf(PairEvents(section, DEFAULT_PAIRS)), DEFAULT_BUTTONS;
    forall k: nat | k < 12
      ensures |added| == 12 && IsButtonLine(added[k], section, buttons[k])
    {
      DefaultLines(section, k);
    }
    DefaultLines(section, i);
    DefaultButtonsDiffer();
    ButtonLinesWin(section, prior, added, buttons, i);
  }

  lemma DefaultButtonsDiffer()
    ensures |DEFAULT_BUTTONS| == 12
    ensures forall j, k :: 0 <= j < k < 12 ==> DEFAULT_BUTTONS[j] != DEFAULT_BUTTONS[k]
  {
  }

  lemma DefaultPinsLoaded(text: string, cfg: ControllerConfig, q: Request, i: nat)
    requires cfg.WellFormed() && Load(text, cfg, q).rc == 0 && Lower(q.section) == q.section && i < 12
    requires FileLines(Load(text, cfg, q).text)
             == FileLines(text + "\n") + LinesOf(PairEvents(q.section, DEFAULT_PAIRS))
    ensures Get(Load(text, cfg, q).cfg, FPins(DEFAULT_BUTTONS[i])) == Both(Pins(i + 1, 0))
  {
    DefaultPinsWritten(q.section, FileLines(text + "\n"), i);
    OwnSectionWins(text, cfg, q, FPins(DEFAULT_BUTTONS[i]),
                   PassWrites(q.section, FileLines(text + "\n") + LinesOf(PairEvents(q.section, DEFAULT_PAIRS))));
  }

  /** Past a line that does not fit, or at the end of text that ends with such a one, the callback delivers nothing. */
  lemma {:induction false} OverlongLineStops(text: string, more: string)
    requires !LinesFit(text + "\n", MAX_LINE - 1)
    ensures CallbackLines(text + more) == CallbackLines(text)
    decreases |text|
  {
    var n := FirstIndex(text, '\n');
    if n < |text| {
      SameFirstLine(text, more);
      SameFirstLine(text, "\n");
      if n < MAX_LINE {
        OverlongLineStops(text[n + 1..], more);
      }
    } else {
      NoNewlineYet(text, more);
      NoNewlineYet(text, "\n");
      IndexIsFirst(text + "\n", '\n', |text|);
      assert (text + "\n")[|text| + 1..] == "";
    }
  }

  lemma NoNewlineYet(text: string, more: string)
    requires FirstIndex(text, '\n') == |text|
    ensures FirstIndex(text + more, '\n') >= |text|
    ensures (text + more)[..|text|] == text && '\n' !in text
  {
    assert text[..|text|] == text;
    assert forall i :: 0 <= i < |text| ==> (text + more)[i] == text[i] && text[i] in text;
  }

  /** Once added, a controller is known, and loading again appends nothing, if the file could be read to its end. */
  lemma KnownOnceAdded(text: string, cfg': ControllerConfig, section: string, profile: string, date: string)
    requires cfg'.WellFormed() && LinesFit(text + "\n", MAX_LINE - 1) && Appendable(section, profile, date)
    ensures var text' := text + Block(section, profile, date);
            Load(text', cfg', Adding(section, profile, date)).text == text'
  {
    AppendedFileLines(text, section, profile, date);
    BodyIsPlain(section, profile, date);
    SectionIsFound(section, FileLines(text + "\n"), BodyPairs(profile));
  }

  /** If it could not, the section just added is never read, and loading again appends another. */
  lemma NeverKnown(text: string, cfg': ControllerConfig, section: string, profile: string, date: string)
    requires cfg'.WellFormed() && !LinesFit(text + "\n", MAX_LINE - 1)
    requires ParsedFile(text).error == 0 && !Found(section, FileLines(text))
    ensures var block := Block(section, profile, date);
            Load(text + block, cfg', Adding(section, profile, date)).text == text + block + block
  {
    var block := Block(section, profile, date);
    OverlongLineStops(text, block);
    OverlongLineStops(text, block + block);
    Assoc(text, block, block);
  }

  /**
   A load that has added a controller, and the next load of what it left: that one
   appends nothing exactly when every line of the file, the last one even if it was
   unfinished, fits the parser's buffer.
   */
  lemma LoadingAgainAppendsNothing(text: string, cfg: ControllerConfig, cfg': ControllerConfig,
                                   section: string, profile: string, date: string)
    requires cfg.WellFormed() && cfg'.WellFormed() && Appendable(section, profile, date)
    requires ParsedFile(text).error == 0 && !Found(section, FileLines(text))
    ensures var q := Adding(section, profile, date);
            var text' := Load(text, cfg, q).text;
            && text' == text + q.block
            && (Load(text', cfg', q).text == text' <==> LinesFit(text + "\n", MAX_LINE - 1))
  {
    if LinesFit(text + "\n", MAX_LINE - 1) {
      KnownOnceAdded(text, cfg', section, profile, date);
    } else {
      NeverKnown(text, cfg', section, profile, date);
      assert |Block(section, profile, date)| > 0;
    }
  }
}
