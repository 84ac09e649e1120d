/**
 The line-oriented INI parser.  A line sits in a fixed buffer as a C string and is
 taken apart in place, by moving a start index forward and writing terminators.
 What that computes is said by functions on strings.
 */
module Ini {
  import opened Chars

  const NUL: char := 0 as char
  const MAX_LINE: nat := 0x480
  const MAX_SECTION: nat := 72
  const MAX_NAME: nat := 72

  /** The length of the first n characters without the blanks at their end. */
  function End(s: string, n: nat): (r: nat)
    requires n <= |s|
    ensures r <= n && (r > 0 ==> !IsSpace(s[r - 1]))
  {
    if n > 0 && IsSpace(s[n - 1]) then End(s, n - 1) else n
  }

  lemma {:induction false} EndKeeps(s: string, i: nat, n: nat)
    requires i < n <= |s| && !IsSpace(s[i])
    ensures End(s, n) > i
  {
    if IsSpace(s[n - 1]) {
      EndKeeps(s, i, n - 1);
    }
  }

  function RStrip(s: string): string {
    s[..End(s, |s|)]
  }

  /** The first index from i on that holds no blank. */
  function Start(s: string, i: nat): (r: nat)
    requires i <= |s|
    ensures i <= r <= |s| && (r < |s| ==> !IsSpace(s[r]))
    decreases |s| - i
  {
    if i < |s| && IsSpace(s[i]) then Start(s, i + 1) else i
  }

  function LSkip(s: string): string {
    s[Start(s, 0)..]
  }

  /** The first index from i on of one of the characters or of a comment, which needs a blank before it. */
  function Find(s: string, chars: string, i: nat, wasSpace: bool): (r: nat)
    requires i <= |s|
    ensures i <= r <= |s|
    decreases |s| - i
  {
    if i == |s| || s[i] in chars || (wasSpace && s[i] == ';') then i
    else Find(s, chars, i + 1, IsSpace(s[i]))
  }

  /** What fits a buffer of the given size, with its terminator. */
  function Truncate(s: string, size: nat): string
    requires size > 0
  {
    if |s| < size then s else s[..size - 1]
  }

  datatype Event = Event(section: string, name: string, value: string)

  datatype Parser = Parser(section: string, prevName: string, lineno: nat, error: nat, events: seq<Event>)

  const START := Parser("", "", 0, 0, [])

  /** The handlers of this program accept every event, so an event is never an error. */
  function Handle(p: Parser, e: Event): Parser {
    p.(events := p.events + [e])
  }

  /** Only the first error's line is remembered. */
  function Fail(p: Parser): Parser {
    if p.error == 0 then p.(error := p.lineno) else p
  }

  predicate HasBom(s: string) {
    |s| >= 3 && s[0] == 0xEF as char && s[1] == 0xBB as char && s[2] == 0xBF as char
  }

  /** Where the text of a line begins before blanks are skipped. */
  function Body(lineno: nat, line: string): (i: nat)
    ensures i <= |line|
  {
    if lineno == 1 && HasBom(line) then 3 else 0
  }

  /** The rest of a line after its opening bracket. */
  function ParseSection(p: Parser, rest: string): Parser {
    var end := Find(rest, "]", 0, false);
    if end < |rest| && rest[end] == ']' then p.(section := Truncate(rest[..end], MAX_SECTION), prevName := "")
    else Fail(p)
  }

  function ParsePair(p: Parser, text: string): Parser {
    var end := Find(text, "=:", 0, false);
    if end < |text| && (text[end] == '=' || text[end] == ':') then
      var name := RStrip(text[..end]);
      Handle(p.(prevName := Truncate(name, MAX_NAME)), Event(p.section, name, ValueOf(text[end + 1..])))
    else Fail(p)
  }

  /** The stripped text of a line that began at the given column. */
  function ParseText(p: Parser, text: string, indent: nat): Parser {
    if text == "" || text[0] == ';' || text[0] == '#' then p
    else if p.prevName != "" && indent > 0 then Handle(p, Event(p.section, p.prevName, text))
    else if text[0] == '[' then ParseSection(p, text[1..])
    else ParsePair(p, text)
  }

  function Trimmed(lineno: nat, line: string): string {
    LSkip(RStrip(line[Body(lineno, line)..]))
  }

  function Indent(lineno: nat, line: string): nat {
    Body(lineno, line) + Start(RStrip(line[Body(lineno, line)..]), 0)
  }

  function ParseLine(p: Parser, line: string): Parser {
    var lineno := p.lineno + 1;
    ParseText(p.(lineno := lineno), Trimmed(lineno, line), Indent(lineno, line))
  }

  /** A line counts only for its trimmed text and the column that begins at. */
  lemma LineIsText(p: Parser, line: string, text: string, indent: nat)
    requires text == Trimmed(p.lineno + 1, line) && indent == Indent(p.lineno + 1, line)
    ensures ParseLine(p, line) == ParseText(p.(lineno := p.lineno + 1), text, indent)
  {
  }

  /** The value to the right of the separator: no comment, no blanks around it. */
  function ValueOf(s: string): string {
    RStrip(LSkip(s[..Find(s, "", 0, false)]))
  }

  function Parse(p: Parser, lines: seq<string>): Parser
    decreases |lines|
  {
    if lines == [] then p else Parse(ParseLine(p, lines[0]), lines[1..])
  }

  // ---------------------------------------------------------------- C strings in a buffer

  /** The C string at index `at` is s. */
  ghost predicate Holds(buffer: seq<char>, at: nat, s: string) {
    && at + |s| < |buffer|
    && buffer[at..at + |s|] == s
    && buffer[at + |s|] == NUL
    && NUL !in s
  }

  method Length(buffer: array<char>, at: nat, ghost s: string) returns (end: nat)
    requires Holds(buffer[..], at, s)
    ensures end == at + |s|
  {
    end := at;
    while buffer[end] != NUL
      invariant at <= end <= at + |s|
      decreases |s| + at - end
    {
      end := end + 1;
    }
  }

  method StripRight(buffer: array<char>, at: nat, ghost s: string)
    requires Holds(buffer[..], at, s)
    modifies buffer
    ensures Holds(buffer[..], at, RStrip(s))
    ensures buffer[at + |s|..] == old(buffer[at + |s|..])
  {
    var end := Length(buffer, at, s);
    while end > at && IsSpace(buffer[end - 1])
      invariant at <= end <= at + |s| && End(s, |s|) == End(s, end - at)
      invariant forall i :: at <= i < end ==> buffer[i] == s[i - at]
      invariant buffer[end] == NUL && buffer[at + |s|..] == old(buffer[at + |s|..])
    {
      end := end - 1;
      buffer[end] := NUL;
    }
    assert buffer[at..end] == s[..end - at];
  }

  method SkipLeft(buffer: array<char>, at: nat, ghost s: string) returns (start: nat)
    requires Holds(buffer[..], at, s)
    ensures start == at + Start(s, 0) && Holds(buffer[..], start, LSkip(s))
  {
    start := at;
    while buffer[start] != NUL && IsSpace(buffer[start])
      invariant at <= start <= at + |s|
      invariant Start(s, 0) == Start(s, start - at)
      decreases |s| + at - start
    {
      start := start + 1;
    }
  }

  method FindCharsOrComment(buffer: array<char>, at: nat, chars: string, ghost s: string) returns (end: nat)
    requires Holds(buffer[..], at, s)
    ensures end == at + Find(s, chars, 0, false)
    ensures buffer[end] == if end < at + |s| then s[end - at] else NUL
  {
    end := at;
    var wasSpace := false;
    while buffer[end] != NUL && buffer[end] !in chars && !(wasSpace && buffer[end] == ';')
      invariant at <= end <= at + |s|
      invariant Find(s, chars, 0, false) == Find(s, chars, end - at, wasSpace)
      decreases |s| + at - end
    {
      wasSpace := IsSpace(buffer[end]);
      end := end + 1;
    }
  }

  /** Writing a terminator inside a string cuts it. */
  method Cut(buffer: array<char>, at: nat, end: nat, ghost s: string)
    requires Holds(buffer[..], at, s) && at <= end <= at + |s|
    modifies buffer
    ensures Holds(buffer[..], at, s[..end - at])
    ensures end < at + |s| ==> Holds(buffer[..], end + 1, s[end - at + 1..])
  {
    buffer[end] := NUL;
  }

  method StringAt(buffer: array<char>, at: nat, ghost s: string) returns (r: string)
    requires Holds(buffer[..], at, s)
    ensures r == s
  {
    var end := Length(buffer, at, s);
    r := buffer[at..end];
  }

  // ---------------------------------------------------------------- the parser's state across lines

  class IniParser {
    /** The locals that live across lines, and the events handed out so far. */
    var state: Parser

    constructor ()
      ensures state == START
    {
      state := START;
    }

    method Report(name: string, value: string)
      modifies this`state
      ensures state == Handle(old(state), Event(old(state).section, name, value))
    {
      state := state.(events := state.events + [Event(state.section, name, value)]);
    }

    method SectionLine(buffer: array<char>, start: nat, ghost rest: string)
      requires Holds(buffer[..], start, rest)
      modifies this`state, buffer
      ensures state == ParseSection(old(state), rest)
    {
      var end := FindCharsOrComment(buffer, start, "]", rest);
      if buffer[end] == ']' {
        Cut(buffer, start, end, rest);
        var name := StringAt(buffer, start, rest[..end - start]);
        state := state.(section := Truncate(name, MAX_SECTION), prevName := "");
      } else if state.error == 0 {
        state := state.(error := state.lineno);
      }
    }

    method PairLine(buffer: array<char>, start: nat, ghost text: string)
      requires Holds(buffer[..], start, text)
      modifies this`state, buffer
      ensures state == ParsePair(old(state), text)
    {
      var end := FindCharsOrComment(buffer, start, "=:", text);
      if buffer[end] == '=' || buffer[end] == ':' {
        var name, value := SplitPair(buffer, start, end, text);
        state := state.(prevName := Truncate(name, MAX_NAME));
        Report(name, value);
      } else if state.error == 0 {
        state := state.(error := state.lineno);
      }
    }

    method ParseTextAt(buffer: array<char>, start: nat, ghost text: string)
      requires Holds(buffer[..], start, text)
      modifies this`state, buffer
      ensures state == ParseText(old(state), text, start)
    {
      assert buffer[start] == if text == "" then NUL else text[0];
      if buffer[start] == NUL || buffer[start] == ';' || buffer[start] == '#' {
      } else if state.prevName != "" && start > 0 {
        var value := StringAt(buffer, start, text);
        Report(state.prevName, value);
      } else if buffer[start] == '[' {
        SectionLine(buffer, start + 1, text[1..]);
      } else {
        PairLine(buffer, start, text);
      }
    }

    /** One line in the buffer. */
    method ParseBuffered(buffer: array<char>, ghost line: string)
      requires Holds(buffer[..], 0, line)
      modifies this`state, buffer
      ensures state == ParseLine(old(state), line)
    {
      LineIsText(state, line, Trimmed(state.lineno + 1, line), Indent(state.lineno + 1, line));
      state := state.(lineno := state.lineno + 1);
      var start := Trim(buffer, state.lineno, line);
      ParseTextAt(buffer, start, Trimmed(state.lineno, line));
    }
  }

  /** Blanks at both ends and a byte order mark go. */
  method Trim(buffer: array<char>, lineno: nat, ghost line: string) returns (start: nat)
    requires Holds(buffer[..], 0, line)
    modifies buffer
    ensures start == Indent(lineno, line) && Holds(buffer[..], start, Trimmed(lineno, line))
  {
    start := 0;
    if lineno == 1 && HasBomAt(buffer, line) {
      start := 3;
    }
    StripRight(buffer, start, line[start..]);
    start := SkipLeft(buffer, start, RStrip(line[start..]));
  }

  /** Cuts a pair at its separator and takes both sides. */
  method SplitPair(buffer: array<char>, start: nat, end: nat, ghost text: string) returns (name: string, value: string)
    requires Holds(buffer[..], start, text) && start <= end < start + |text|
    modifies buffer
    ensures name == RStrip(text[..end - start]) && value == ValueOf(text[end - start + 1..])
  {
    Cut(buffer, start, end, text);
    name := TakeName(buffer, start, text[..end - start], end + 1, text[end - start + 1..]);
    value := TakeValue(buffer, end + 1, text[end - start + 1..]);
  }

  predicate HasBomAt(buffer: array<char>, ghost line: string)
    requires Holds(buffer[..], 0, line)
    reads buffer
    ensures HasBomAt(buffer, line) <==> HasBom(line)
  {
    assert forall i :: 0 <= i < |line| ==> buffer[..][i] == line[i];
    && buffer[0] == 0xEF as char
    && (assert |line| > 0; buffer[1] == 0xBB as char)
    && (assert |line| > 1; buffer[2] == 0xBF as char)
  }

  /** The name left of the separator, without touching what is right of it. */
  method TakeName(buffer: array<char>, start: nat, ghost left: string, next: nat, ghost right: string) returns (name: string)
    requires Holds(buffer[..], start, left) && Holds(buffer[..], next, right) && next == start + |left| + 1
    modifies buffer
    ensures name == RStrip(left) && Holds(buffer[..], next, right)
  {
    StripRight(buffer, start, left);
    name := StringAt(buffer, start, RStrip(left));
  }

  method TakeValue(buffer: array<char>, at: nat, ghost s: string) returns (value: string)
    requires Holds(buffer[..], at, s)
    modifies buffer
    ensures value == ValueOf(s)
  {
    var end := FindCharsOrComment(buffer, at, "", s);
    ghost var t := s[..Find(s, "", 0, false)];
    if buffer[end] != NUL {
      Cut(buffer, at, end, s);
    } else {
      assert t == s;
    }
    var start := SkipLeft(buffer, at, t);
    StripRight(buffer, start, LSkip(t));
    value := StringAt(buffer, start, RStrip(LSkip(t)));
  }
}
