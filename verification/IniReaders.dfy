/**
 The two ways lines reach the parser: byte by byte from a file, where a line
 counts only once its newline has been seen, and from a string in memory, the way
 fgets would read it.
 */
module IniReaders {
  import opened Ini
  import opened Sequences

  /** What a C string of these characters and a terminator shows. */
  function CString(s: string): string {
    s[..FirstIndex(s, NUL)]
  }

  /** The lines the file callback delivers: it gives up at the first one without a newline within the buffer. */
  function CallbackLines(text: string): seq<string> {
    var n := FirstIndex(text, '\n');
    if n < |text| && n < MAX_LINE then [CString(text[..n])] + CallbackLines(text[n + 1..]) else []
  }

  /** How much of the text the string reader takes at once. */
  function Chunk(text: string): (n: nat)
    requires text != ""
    ensures 0 < n <= |text| && n < MAX_LINE
  {
    var n := FirstIndex(text, '\n');
    var line := if n < |text| then n + 1 else n;
    if line < MAX_LINE then line else MAX_LINE - 1
  }

  /** The lines the string reader delivers, newlines included. */
  function StringLines(text: string): seq<string> {
    if text == "" then [] else [CString(text[..Chunk(text)])] + StringLines(text[Chunk(text)..])
  }

  datatype Source = File | Memory

  function Lines(source: Source, text: string): seq<string> {
    match source
    case File => CallbackLines(text)
    case Memory => StringLines(CString(text))
  }

  // ---------------------------------------------------------------- the readers

  class Stream {
    const text: string
    var pos: nat

    constructor (text: string)
      ensures this.text == text && pos == 0
    {
      this.text := text;
      pos := 0;
    }

    ghost predicate Valid()
      reads this
    {
      pos <= |text|
    }

    ghost function Left(): string
      requires Valid()
      reads this
    {
      text[pos..]
    }

    method LineByLineCallback(str: array<char>) returns (ok: bool)
      requires Valid() && str.Length >= MAX_LINE
      modifies this, str
      ensures Valid()
      ensures var left := old(Left()); var n := FirstIndex(left, '\n');
              && (ok <==> n < |left| && n < MAX_LINE)
              && (ok ==> Left() == left[n + 1..] && Holds(str[..], 0, CString(left[..n])))
    {
      ghost var left := Left();
      for i := 0 to MAX_LINE
        invariant pos == old(pos) + i <= |text|
        invariant str[..i] == left[..i] && '\n' !in left[..i]
      {
        if pos == |text| {
          return false;
        }
        str[i] := text[pos];
        pos := pos + 1;
        if str[i] == '\n' {
          str[i] := NUL;
          IndexIsFirst(left, '\n', i);
          CutAtNul(str[..], left[..i]);
          return true;
        }
      }
      return false;
    }

    /** num is the buffer's size. */
    method ReaderString(str: array<char>) returns (ok: bool)
      requires Valid() && str.Length >= MAX_LINE
      modifies this, str
      ensures Valid()
      ensures var left := old(Left());
              && (ok <==> left != "")
              && (ok ==> Left() == left[Chunk(left)..] && Holds(str[..], 0, CString(left[..Chunk(left)])))
    {
      ghost var left := Left();
      if pos == |text| {
        return false;
      }
      var num := MAX_LINE;
      var end := 0;
      while num > 1 && pos < |text|
        invariant num == MAX_LINE - end && num >= 1 && pos == old(pos) + end <= |text|
        invariant str[..end] == left[..end] && '\n' !in left[..end]
      {
        var c := text[pos];
        pos := pos + 1;
        str[end] := c;
        end := end + 1;
        if c == '\n' {
          IndexIsFirst(left, '\n', end - 1);
          break;
        }
        num := num - 1;
      }
      assert end == Chunk(left) && str[..end] == left[..end];
      str[end] := NUL;
      CutAtNul(str[..], left[..end]);
      return true;
    }
  }

  /** A buffer that starts with these characters and a terminator holds them up to their first NUL. */
  lemma CutAtNul(buffer: seq<char>, s: string)
    requires |s| < |buffer| && buffer[..|s|] == s && buffer[|s|] == NUL
    ensures Holds(buffer, 0, CString(s))
  {
    var n := FirstIndex(s, NUL);
    assert buffer[..n] == s[..n];
    if n < |s| {
      assert buffer[n] == buffer[..|s|][n];
    }
  }

  /** The whole parse of a text. */
  method ParseStream(source: Source, text: string) returns (parser: IniParser)
    ensures parser.state == Parse(START, Lines(source, text))
  {
    parser := new IniParser();
    var bytes := text;
    if source == Memory {
      bytes := text[..FirstIndex(text, NUL)];
    }
    var stream := new Stream(bytes);
    var buffer := new char[MAX_LINE];
    var ok := true;
    while ok
      invariant stream.Valid() && stream.text == bytes && fresh(stream) && fresh(buffer) && fresh(parser)
      invariant buffer.Length == MAX_LINE
      invariant ok ==>
                  Parse(START, Lines(source, text)) == Parse(parser.state, Pending(source, stream.Left()))
      invariant !ok ==> parser.state == Parse(START, Lines(source, text))
      decreases ok, |bytes| - stream.pos
    {
      ghost var left := stream.Left();
      ok := ReadNext(stream, buffer, source);
      if ok {
        parser.ParseBuffered(buffer, Pending(source, left)[0]);
      }
    }
  }

  /** The lines still to be read from a stream. */
  function Pending(source: Source, left: string): seq<string> {
    match source
    case File => CallbackLines(left)
    case Memory => StringLines(left)
  }

  method ReadNext(stream: Stream, buffer: array<char>, source: Source) returns (ok: bool)
    requires stream.Valid() && buffer.Length >= MAX_LINE
    modifies stream, buffer
    ensures stream.Valid()
    ensures ok <==> Pending(source, old(stream.Left())) != []
    ensures ok ==>
              && stream.pos > old(stream.pos)
              && Holds(buffer[..], 0, Pending(source, old(stream.Left()))[0])
              && Pending(source, stream.Left()) == Pending(source, old(stream.Left()))[1..]
  {
    match source
    case File => ok := stream.LineByLineCallback(buffer);
    case Memory => ok := stream.ReaderString(buffer);
  }

  // ---------------------------------------------------------------- lines that end

  predicate Terminated(text: string) {
    text == "" || text[|text| - 1] == '\n'
  }

  /** No line is longer than max, newline not counted. */
  predicate LinesFit(text: string, max: nat) {
    var n := FirstIndex(text, '\n');
    n <= max && (n < |text| ==> LinesFit(text[n + 1..], max))
  }

  lemma NewlineStripped(s: string)
    ensures RStrip(s + "\n") == RStrip(s)
  {
    var t := s + "\n";
    assert End(t, |t|) == End(t, |s|);
    SameEnd(t, s, |s|);
  }

  lemma {:induction false} SameEnd(a: string, b: string, n: nat)
    requires n <= |a| && n <= |b| && a[..n] == b[..n]
    ensures End(a, n) == End(b, n)
  {
    if n > 0 {
      assert a[n - 1] == a[..n][n - 1] == b[..n][n - 1] == b[n - 1];
      assert a[..n - 1] == a[..n][..n - 1] && b[..n - 1] == b[..n][..n - 1];
      SameEnd(a, b, n - 1);
    }
  }

  lemma NewlineTrimmed(lineno: nat, line: string)
    ensures Trimmed(lineno, line + "\n") == Trimmed(lineno, line)
    ensures Indent(lineno, line + "\n") == Indent(lineno, line)
  {
    var at := Body(lineno, line);
    assert Body(lineno, line + "\n") == at;
    assert (line + "\n")[at..] == line[at..] + "\n";
    NewlineStripped(line[at..]);
  }

  /** A trailing newline makes no difference to a line. */
  lemma NewlineIsBlank(p: Parser, line: string)
    ensures ParseLine(p, line + "\n") == ParseLine(p, line)
  {
    NewlineTrimmed(p.lineno + 1, line);
    LineIsText(p, line, Trimmed(p.lineno + 1, line), Indent(p.lineno + 1, line));
    LineIsText(p, line + "\n", Trimmed(p.lineno + 1, line), Indent(p.lineno + 1, line));
  }

  lemma TailTerminated(text: string)
    requires Terminated(text) && text != ""
    ensures var n := FirstIndex(text, '\n'); n < |text| && Terminated(text[n + 1..])
  {
    assert FirstIndex(text, '\n') < |text| by {
      assert text[..|text|] == text && text[|text| - 1] in text;
    }
  }

  lemma NulFree(s: string)
    requires NUL !in s
    ensures CString(s) == s
  {
  }

  // ---------------------------------------------------------------- the longest line that fits

  /** A line that fills the buffer: the string reader delivers its newline by itself. */
  predicate Long(line: string) {
    |line| == MAX_LINE - 1
  }

  function LongLines(lines: seq<string>): nat {
    if lines == [] then 0 else (if Long(lines[0]) then 1 else 0) + LongLines(lines[1..])
  }

  lemma {:induction false} NoLongLines(lines: seq<string>)
    ensures LongLines(lines) == 0 <==> forall i :: 0 <= i < |lines| ==> !Long(lines[i])
  {
    if lines != [] {
      NoLongLines(lines[1..]);
      assert forall i :: 0 < i < |lines| ==> lines[i] == lines[1..][i - 1];
    }
  }

  /** How the string reader delivers a line that the callback delivers whole. */
  function Delivered(line: string): seq<string> {
    if Long(line) then [line, "\n"] else [line + "\n"]
  }

  lemma StringFirstLine(text: string, line: string, rest: string)
    requires text == line + "\n" + rest && '\n' !in line && NUL !in line && |line| < MAX_LINE
    ensures StringLines(text) == Delivered(line) + StringLines(rest)
  {
    var n := |line|;
    assert text[..n] == line && text[n] == '\n' && text[n + 1..] == rest;
    IndexIsFirst(text, '\n', n);
    NulFree(line);
    if Long(line) {
      assert Chunk(text) == n && text[n..] == "\n" + rest;
      NewlineChunk(rest);
      assert StringLines(text) == [line] + StringLines("\n" + rest);
    } else {
      assert Chunk(text) == n + 1 && text[..n + 1] == line + "\n";
      NulFree(line + "\n");
    }
  }

  lemma NewlineChunk(rest: string)
    ensures StringLines("\n" + rest) == ["\n"] + StringLines(rest)
  {
    var text := "\n" + rest;
    assert text[0] == '\n' && FirstIndex(text, '\n') == 0 && Chunk(text) == 1;
    assert text[..1] == "\n" && text[1..] == rest;
    NulFree("\n");
  }

  /** The first line of a text that ends with a newline, and the rest. */
  lemma FirstOf(text: string) returns (line: string, rest: string)
    requires text != "" && Terminated(text) && LinesFit(text, MAX_LINE - 1) && NUL !in text
    ensures text == line + "\n" + rest && '\n' !in line && NUL !in line && |line| < MAX_LINE
    ensures Terminated(rest) && LinesFit(rest, MAX_LINE - 1) && NUL !in rest
    ensures CallbackLines(text) == [line] + CallbackLines(rest)
    ensures StringLines(text) == Delivered(line) + StringLines(rest)
  {
    TailTerminated(text);
    var n := FirstIndex(text, '\n');
    line, rest := text[..n], text[n + 1..];
    assert forall c :: c in line || c in rest ==> c in text;
    NulFree(line);
    StringFirstLine(text, line, rest);
  }

  lemma EmptyIsBlank(lineno: nat, line: string)
    requires line == ""
    ensures Trimmed(lineno, line) == "" && Indent(lineno, line) == 0
  {
    assert Body(lineno, line) == 0 && line[0..] == "" && RStrip(line) == "";
  }

  lemma BlankLine(p: Parser, lines: seq<string>)
    requires lines == [""]
    ensures Parse(p, lines) == p.(lineno := p.lineno + 1)
  {
    EmptyIsBlank(p.lineno + 1, lines[0]);
    LineIsText(p, lines[0], "", 0);
    assert Parse(p, lines) == Parse(ParseLine(p, lines[0]), lines[1..]);
  }

  // ---------------------------------------------------------------- the readers agree

  /** Two parsers that differ in the number of lines they have seen. */
  ghost predicate Shifted(p: Parser, q: Parser, k: nat) {
    && q.section == p.section && q.prevName == p.prevName && q.events == p.events
    && q.lineno == p.lineno + k
    && (p.error == 0 <==> q.error == 0)
  }

  /** Both at their start, or neither. */
  ghost predicate SameStart(p: Parser, q: Parser) {
    p.lineno == 0 <==> q.lineno == 0
  }

  /** The first error is on the line just seen, in both. */
  ghost predicate ErrorsFollow(p: Parser, q: Parser, p': Parser, q': Parser) {
    if p.error != 0 then p'.error == p.error && q'.error == q.error
    else p'.error == 0 || (p'.error == p'.lineno && q'.error == p'.error + (q.lineno - p.lineno))
  }

  lemma PairShifts(p: Parser, q: Parser, k: nat, text: string)
    requires Shifted(p, q, k) && p.lineno > 0
    ensures Shifted(ParsePair(p, text), ParsePair(q, text), k)
    ensures ErrorsFollow(p, q, ParsePair(p, text), ParsePair(q, text))
  {
  }

  lemma SectionShifts(p: Parser, q: Parser, k: nat, rest: string)
    requires Shifted(p, q, k) && p.lineno > 0
    ensures Shifted(ParseSection(p, rest), ParseSection(q, rest), k)
    ensures ErrorsFollow(p, q, ParseSection(p, rest), ParseSection(q, rest))
  {
  }

  lemma TextShifts(p: Parser, q: Parser, k: nat, text: string, indent: nat)
    requires Shifted(p, q, k) && p.lineno > 0
    ensures Shifted(ParseText(p, text, indent), ParseText(q, text, indent), k)
    ensures ErrorsFollow(p, q, ParseText(p, text, indent), ParseText(q, text, indent))
  {
    if text != "" {
      PairShifts(p, q, k, text);
      SectionShifts(p, q, k, text[1..]);
    }
  }

  lemma LineShifts(p: Parser, q: Parser, k: nat, line: string)
    requires Shifted(p, q, k) && SameStart(p, q)
    ensures Shifted(ParseLine(p, line), ParseLine(q, line), k)
    ensures ErrorsFollow(p, q, ParseLine(p, line), ParseLine(q, line))
    ensures ParseLine(p, line).lineno == p.lineno + 1
  {
    var text, indent := Trimmed(p.lineno + 1, line), Indent(p.lineno + 1, line);
    SameTrimmed(p.lineno + 1, q.lineno + 1, line);
    LineIsText(p, line, text, indent);
    LineIsText(q, line, text, indent);
    var p1, q1 := p.(lineno := p.lineno + 1), q.(lineno := q.lineno + 1);
    TextShifts(p1, q1, k, text, indent);
    TextKeepsLine(p1, text, indent);
  }

  lemma SameTrimmed(m: nat, n: nat, line: string)
    requires m == 1 <==> n == 1
    ensures Trimmed(m, line) == Trimmed(n, line) && Indent(m, line) == Indent(n, line)
  {
    assert Body(m, line) == Body(n, line);
  }

  lemma TextKeepsLine(p: Parser, text: string, indent: nat)
    ensures ParseText(p, text, indent).lineno == p.lineno
  {
  }

  /** One line of the callback and what the string reader makes of it. */
  lemma DeliveredShifts(p: Parser, q: Parser, k: nat, line: string)
    requires Shifted(p, q, k) && SameStart(p, q)
    ensures var p1, q1 := ParseLine(p, line), Parse(q, Delivered(line));
            && Shifted(p1, q1, k + if Long(line) then 1 else 0) && ErrorsFollow(p, q, p1, q1)
            && p1.lineno == p.lineno + 1
  {
    LineShifts(p, q, k, line);
    if Long(line) {
      ParseTwo(q, line, "\n");
      NewlineIsBlank(ParseLine(q, line), "");
      BlankLine(ParseLine(q, line), [""]);
      assert Parse(ParseLine(q, line), [""]) == Parse(ParseLine(ParseLine(q, line), ""), []);
      assert "" + "\n" == "\n";
    } else {
      NewlineIsBlank(q, line);
      assert Parse(q, [line + "\n"]) == Parse(ParseLine(q, line + "\n"), []);
    }
  }

  lemma ParseTwo(p: Parser, a: string, b: string)
    ensures Parse(p, [a, b]) == ParseLine(ParseLine(p, a), b)
  {
    assert [a, b][1..] == [b] && [b][1..] == [];
    assert Parse(ParseLine(p, a), [b]) == Parse(ParseLine(ParseLine(p, a), b), []);
  }

  /**
   Where the first error falls: in both at the line of the callback's error, which
   the string reader has delayed by one for each long line before it.
   */
  ghost predicate FirstErrors(p: Parser, q: Parser, k: nat, lines: seq<string>, p': Parser, q': Parser) {
    if p.error != 0 then p'.error == p.error && q'.error == q.error
    else p'.error == 0
         || (&& p.lineno < p'.error <= p.lineno + |lines|
             && q'.error == p'.error + k + LongLines(lines[..p'.error - p.lineno - 1]))
  }

  lemma {:induction false} Simulates(p: Parser, q: Parser, k: nat, text: string)
    requires Shifted(p, q, k) && SameStart(p, q)
    requires Terminated(text) && LinesFit(text, MAX_LINE - 1) && NUL !in text
    ensures var lines := CallbackLines(text);
            var p', q' := Parse(p, lines), Parse(q, StringLines(text));
            Shifted(p', q', k + LongLines(lines)) && FirstErrors(p, q, k, lines, p', q')
    decreases |text|
  {
    if text != "" {
      var line, rest := FirstOf(text);
      var p1, q1 := ParseLine(p, line), Parse(q, Delivered(line));
      DeliveredShifts(p, q, k, line);
      ParseConcat(q, Delivered(line), StringLines(rest));
      Simulates(p1, q1, k + if Long(line) then 1 else 0, rest);
      assert Parse(p, CallbackLines(text)) == Parse(p1, CallbackLines(rest));
      ErrorsOneOn(p, q, k, line, CallbackLines(rest), p1, q1, Parse(p1, CallbackLines(rest)), Parse(q1, StringLines(rest)));
    }
  }

  lemma ErrorsOneOn(p: Parser, q: Parser, k: nat, line: string, rest: seq<string>,
                    p1: Parser, q1: Parser, p': Parser, q': Parser)
    requires q.lineno == p.lineno + k && (p.error == 0 <==> q.error == 0)
    requires ErrorsFollow(p, q, p1, q1) && p1.lineno == p.lineno + 1
    requires FirstErrors(p1, q1, k + if Long(line) then 1 else 0, rest, p', q')
    ensures FirstErrors(p, q, k, [line] + rest, p', q')
  {
    var lines := [line] + rest;
    if p.error == 0 && p1.error == 0 && p'.error != 0 {
      var n := p'.error - p1.lineno - 1;
      assert lines[..n + 1] == [line] + rest[..n];
      assert LongLines(lines[..n + 1]) == (if Long(line) then 1 else 0) + LongLines(rest[..n]) by {
        assert lines[..n + 1][1..] == rest[..n];
      }
    } else if p.error == 0 && p1.error != 0 {
      assert lines[..0] == [];
    }
  }

  /**
   What the file reader and the string reader lead to, for the same lines: the same
   events, and a first error that is the same exactly when no long line precedes it.
   */
  ghost predicate Agree(lines: seq<string>, file: Parser, memory: Parser) {
    && memory.events == file.events && memory.section == file.section && memory.prevName == file.prevName
    && memory.lineno == file.lineno + LongLines(lines)
    && (memory.error == 0 <==> file.error == 0)
    && (file.error != 0 ==>
          && 0 < file.error <= |lines|
          && memory.error == file.error + LongLines(lines[..file.error - 1])
          && (memory.error == file.error <==> forall i :: 0 <= i < file.error - 1 ==> !Long(lines[i])))
  }

  lemma ShiftedAgree(lines: seq<string>, file: Parser, memory: Parser)
    requires Shifted(file, memory, LongLines(lines)) && FirstErrors(START, START, 0, lines, file, memory)
    ensures Agree(lines, file, memory)
  {
    if file.error != 0 {
      var before := lines[..file.error - 1];
      NoLongLines(before);
      assert forall i :: 0 <= i < file.error - 1 ==> before[i] == lines[i];
    }
  }

  /**
   Any text without NULs whose lines end with newlines and fit the buffer is
   parsed to the same events through the file callback and through the string
   reader.  A line that just fits counts as two for the string reader.
   */
  lemma ReadersAgree(text: string)
    requires Terminated(text) && LinesFit(text, MAX_LINE - 1) && NUL !in text
    ensures Agree(CallbackLines(text), Parse(START, CallbackLines(text)), Parse(START, StringLines(text)))
  {
    Simulates(START, START, 0, text);
    ShiftedAgree(CallbackLines(text), Parse(START, CallbackLines(text)), Parse(START, StringLines(text)));
  }

  /** A line that just fits, and the next line's error is on line 2 for one reader and on line 3 for the other. */
  lemma LongLineShiftsError(comment: string)
    requires Long(comment) && comment[0] == ';' && '\n' !in comment && NUL !in comment
    ensures var text := comment + "\n" + "x\n";
            Parse(START, CallbackLines(text)).error == 2 && Parse(START, StringLines(text)).error == 3
  {
    var text := comment + "\n" + "x\n";
    ShortText(comment);
    CommentLine(comment);
    WordLine(ParseLine(START, comment), "x");
    ParseTwo(START, comment, "x");
    ReadersAgree(text);
    assert CallbackLines(text)[..1] == [comment] && LongLines([comment]) == 1 + LongLines([comment][1..]);
  }

  lemma ShortText(line: string)
    requires '\n' !in line && NUL !in line && |line| < MAX_LINE
    ensures var text := line + "\n" + "x\n";
            CallbackLines(text) == [line, "x"] && Terminated(text) && LinesFit(text, MAX_LINE - 1) && NUL !in text
  {
    var last := "x\n";
    var text := line + "\n" + last;
    assert last[..1] == "x" && last[1] == '\n' && last[2..] == "";
    IndexIsFirst(last, '\n', 1);
    NulFree("x");
    assert CallbackLines(last) == ["x"] + CallbackLines("");
    assert text[..|line|] == line && text[|line|] == '\n' && text[|line| + 1..] == last;
    IndexIsFirst(text, '\n', |line|);
    NulFree(line);
  }

  lemma CommentLine(line: string)
    requires line != "" && line[0] == ';'
    ensures ParseLine(START, line) == START.(lineno := 1)
  {
    EndKeeps(line, 0, |line|);
    assert line[0..] == line && RStrip(line)[0] == ';' && Start(RStrip(line), 0) == 0;
    LineIsText(START, line, RStrip(line)[0..], 0);
  }

  lemma WordLine(p: Parser, word: string)
    requires word == "x" && p.lineno > 0 && p.prevName == "" && p.error == 0
    ensures ParseLine(p, word).error == p.lineno + 1
  {
    assert word[0..] == word && RStrip(word) == word && Start(word, 0) == 0;
    LineIsText(p, word, word, 0);
    assert Find(word, "=:", 0, false) == Find(word, "=:", 1, false) == 1;
  }

  /** The callback never delivers what follows the last newline. */
  lemma {:induction false} UnfinishedLineIsDropped(text: string, tail: string)
    requires Terminated(text) && '\n' !in tail
    ensures CallbackLines(text + tail) == CallbackLines(text)
    decreases |text|
  {
    if text == "" {
      assert text + tail == tail;
      AbsentIndex(tail, '\n');
    } else {
      TailTerminated(text);
      var n := FirstIndex(text, '\n');
      SameFirstLine(text, tail);
      UnfinishedLineIsDropped(text[n + 1..], tail);
    }
  }

  /**
   The string reader delivers it as one more line, and the callback as none: that
   is all the two readers differ in besides.
   */
  lemma TailIsTheDifference(p: Parser, text: string, tail: string)
    requires Terminated(text) && LinesFit(text, MAX_LINE - 1) && NUL !in text
    requires tail != "" && |tail| < MAX_LINE && '\n' !in tail && NUL !in tail
    ensures Parse(p, StringLines(text + tail)) == ParseLine(Parse(p, StringLines(text)), tail)
    ensures Parse(p, CallbackLines(text + tail)) == Parse(p, CallbackLines(text))
  {
    StringLinesAfter(text, tail);
    OneStringLine(tail);
    ParseConcat(p, StringLines(text), [tail]);
    UnfinishedLineIsDropped(text, tail);
    assert Parse(Parse(p, StringLines(text)), [tail]) == Parse(ParseLine(Parse(p, StringLines(text)), tail), []);
  }

  lemma MoreText(text: string, line: string, rest: string, more: string)
    requires text == line + "\n" + rest && '\n' !in line && NUL !in line && |line| < MAX_LINE
    ensures StringLines(text + more) == Delivered(line) + StringLines(rest + more)
  {
    assert text + more == line + "\n" + (rest + more);
    StringFirstLine(text + more, line, rest + more);
  }

  lemma OneStringLine(tail: string)
    requires tail != "" && |tail| < MAX_LINE && '\n' !in tail && NUL !in tail
    ensures StringLines(tail) == [tail]
  {
    AbsentIndex(tail, '\n');
    NulFree(tail);
    assert Chunk(tail) == |tail| && tail[..|tail|] == tail && tail[|tail|..] == "";
  }

  lemma {:induction false} StringLinesAfter(text: string, more: string)
    requires Terminated(text) && LinesFit(text, MAX_LINE - 1) && NUL !in text
    ensures StringLines(text + more) == StringLines(text) + StringLines(more)
    decreases |text|
  {
    if text == "" {
      assert text + more == more;
    } else {
      var line, rest := FirstOf(text);
      StringLinesAfter(rest, more);
      MoreText(text, line, rest, more);
      Assoc(Delivered(line), StringLines(rest), StringLines(more));
    }
  }

  lemma SameFirstLine(text: string, more: string)
    requires FirstIndex(text, '\n') < |text|
    ensures var n := FirstIndex(text, '\n');
            FirstIndex(text + more, '\n') == n && (text + more)[..n] == text[..n]
            && (text + more)[n + 1..] == text[n + 1..] + more
  {
    var n := FirstIndex(text, '\n');
    assert (text + more)[..n] == text[..n];
    IndexIsFirst(text + more, '\n', n);
  }

  /** The first line of a text, and the same in front of more text. */
  lemma FirstLine(text: string, more: string)
    requires FirstIndex(text, '\n') < |text| && FirstIndex(text, '\n') < MAX_LINE
    ensures var n := FirstIndex(text, '\n');
            CallbackLines(text + more) == [CString(text[..n])] + CallbackLines(text[n + 1..] + more)
  {
    SameFirstLine(text, more);
  }

  /** Behind text whose lines end and fit, more lines are delivered as they are by themselves. */
  lemma {:induction false} LinesAfter(text: string, more: string)
    requires Terminated(text) && LinesFit(text, MAX_LINE - 1)
    ensures CallbackLines(text + more) == CallbackLines(text) + CallbackLines(more)
    decreases |text|
  {
    if text == "" {
      assert text + more == more;
    } else {
      TailTerminated(text);
      LinesAfter(text[FirstIndex(text, '\n') + 1..], more);
      LinesAfterFirst(text, more);
    }
  }

  lemma LinesAfterFirst(text: string, more: string)
    requires FirstIndex(text, '\n') < |text| && FirstIndex(text, '\n') < MAX_LINE
    requires var rest := text[FirstIndex(text, '\n') + 1..];
             CallbackLines(rest + more) == CallbackLines(rest) + CallbackLines(more)
    ensures CallbackLines(text + more) == CallbackLines(text) + CallbackLines(more)
  {
    FirstLine(text, more);
    var first, rest := [CString(text[..FirstIndex(text, '\n')])], text[FirstIndex(text, '\n') + 1..];
    assert CallbackLines(text) == first + CallbackLines(rest);
    Assoc(first, CallbackLines(rest), CallbackLines(more));
  }

  lemma {:induction false} ParseConcat(p: Parser, a: seq<string>, b: seq<string>)
    ensures Parse(p, a + b) == Parse(Parse(p, a), b)
    decreases |a|
  {
    if a == [] {
      assert a + b == b;
    } else {
      assert (a + b)[1..] == a[1..] + b;
      ParseConcat(ParseLine(p, a[0]), a[1..], b);
    }
  }
}
