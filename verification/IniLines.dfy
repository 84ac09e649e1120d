/** What the forms of a line mean to the INI parser: pairs, comments, continuations, and the lines that are an error. */
module IniLines {
  import opened Chars
  import opened Ini

  // ---------------------------------------------------------------- blanks and comments in a string

  predicate Blank(s: string) {
    forall i :: 0 <= i < |s| ==> IsSpace(s[i])
  }

  /** No blanks at the ends. */
  predicate Bare(s: string) {
    s != "" ==> !IsSpace(s[0]) && !IsSpace(s[|s| - 1])
  }

  /** A comment begins at i: a semicolon with a blank before it. */
  predicate CommentAt(s: string, i: nat)
    requires i < |s|
  {
    s[i] == ';' && i > 0 && IsSpace(s[i - 1])
  }

  predicate NoComment(s: string, from: nat, to: nat)
    requires to <= |s|
  {
    forall i :: from <= i < to ==> !CommentAt(s, i)
  }

  /** No blanks at the ends and no inline comment. */
  predicate Clean(s: string) {
    Bare(s) && NoComment(s, 0, |s|)
  }

  /** What may follow a value: blanks, or a comment with a blank before it. */
  ghost predicate Tail(s: string) {
    Blank(s) || exists n :: 0 < n < |s| && Blank(s[..n]) && s[n] == ';'
  }

  /** The search stops at n if there is reason to and none before. */
  lemma {:induction false} FindStops(s: string, chars: string, i: nat, n: nat, wasSpace: bool)
    requires i <= n <= |s| && wasSpace == (i > 0 && IsSpace(s[i - 1]))
    requires NoComment(s, i, n) && forall k :: i <= k < n ==> s[k] !in chars
    requires n < |s| ==> s[n] in chars || CommentAt(s, n)
    ensures Find(s, chars, i, wasSpace) == n
    decreases n - i
  {
    if i < n {
      assert !CommentAt(s, i);
      FindStops(s, chars, i + 1, n, IsSpace(s[i]));
    }
  }

  /** Where the search stops there is reason to, and before there is none. */
  lemma {:induction false} FindIsFirst(s: string, chars: string, i: nat, wasSpace: bool)
    requires i <= |s| && wasSpace == (i > 0 && IsSpace(s[i - 1]))
    ensures var n := Find(s, chars, i, wasSpace);
            && NoComment(s, i, n) && (forall k :: i <= k < n ==> s[k] !in chars)
            && (n < |s| ==> s[n] in chars || CommentAt(s, n))
    decreases |s| - i
  {
    if i < |s| && s[i] !in chars && !CommentAt(s, i) {
      FindIsFirst(s, chars, i + 1, IsSpace(s[i]));
    }
  }

  lemma {:induction false} EndOver(s: string, m: nat, n: nat)
    requires m <= n <= |s| && forall i :: m <= i < n ==> IsSpace(s[i])
    ensures End(s, n) == End(s, m)
    decreases n - m
  {
    if m < n {
      EndOver(s, m, n - 1);
    }
  }

  lemma {:induction false} StartOver(s: string, i: nat, n: nat)
    requires i <= n <= |s| && (forall k :: i <= k < n ==> IsSpace(s[k])) && (n < |s| ==> !IsSpace(s[n]))
    ensures Start(s, i) == n
    decreases n - i
  {
    if i < n {
      StartOver(s, i + 1, n);
    }
  }

  lemma EndAt(s: string, m: nat)
    requires m <= |s| && (m > 0 ==> !IsSpace(s[m - 1])) && forall i :: m <= i < |s| ==> IsSpace(s[i])
    ensures End(s, |s|) == m && RStrip(s) == s[..m]
  {
    EndOver(s, m, |s|);
  }

  /** Blanks around a bare string go, and nothing else does. */
  lemma StripsBlanks(before: string, s: string, after: string)
    requires Blank(before) && Bare(s) && Blank(after)
    ensures RStrip(LSkip(before + s + after)) == s
  {
    var all := before + s + after;
    if s == "" {
      StartOver(all, 0, |all|);
      assert all[|all|..] == "" && RStrip("") == "";
    } else {
      assert all[|before|] == s[0];
      StartOver(all, 0, |before|);
      var rest := all[|before|..];
      assert rest == s + after;
      assert rest[|s| - 1] == s[|s| - 1];
      EndAt(rest, |s|);
    }
  }

  // ---------------------------------------------------------------- values

  /** A clean value is read without the blanks before it and without the blanks or the comment behind it. */
  lemma ValueReads(before: string, v: string, tail: string)
    requires Blank(before) && Clean(v) && Tail(tail)
    requires v != "" && (before != "" ==> v[0] != ';')
    ensures ValueOf(before + v + tail) == v
  {
    var s := before + v + tail;
    var m := |before| + |v|;
    var n := |s|;
    if !Blank(tail) {
      var c :| 0 < c < |tail| && Blank(tail[..c]) && tail[c] == ';';
      n := m + c;
      assert s[n - 1] == tail[..c][c - 1];
    }
    var after := tail[..n - m];
    assert s[..n] == before + v + after;
    NoCommentWithin(before, v, after, s, n);
    FindStops(s, "", 0, n, false);
    StripsBlanks(before, v, after);
  }

  lemma NoCommentWithin(before: string, v: string, after: string, s: string, n: nat)
    requires Blank(before) && Clean(v) && v != "" && Blank(after) && (before != "" ==> v[0] != ';')
    requires n <= |s| && s[..n] == before + v + after
    ensures NoComment(s, 0, n)
  {
    var m := |before| + |v|;
    forall i | 0 <= i < n
      ensures !CommentAt(s, i)
    {
      assert s[i] == s[..n][i] && (i > 0 ==> s[i - 1] == s[..n][i - 1]);
      if i < |before| {
        assert IsSpace(before[i]);
      } else if i < m {
        assert !CommentAt(v, i - |before|);
      } else {
        assert IsSpace(after[i - m]);
      }
    }
  }

  // ---------------------------------------------------------------- pairs

  /** No blank, separator, comment or bracket. */
  predicate PlainName(s: string) {
    && s != ""
    && forall i :: 0 <= i < |s| ==> !IsSpace(s[i]) && s[i] !in "=:;#["
  }

  /** What the parser's buffers hold of a section or of the last name. */
  function Held(s: string): string {
    if |s| <= 71 then s else s[..71]
  }

  predicate IsSeparator(c: char) {
    c == '=' || c == ':'
  }

  /** The text of a pair is cut at its separator, whatever stands behind it. */
  lemma PairIsCut(p: Parser, name: string, gap: string, separator: char, right: string, indent: nat)
    requires PlainName(name) && Blank(gap) && IsSeparator(separator) && (indent == 0 || p.prevName == "")
    ensures ParseText(p, name + gap + [separator] + right, indent)
            == p.(prevName := Held(name), events := p.events + [Event(p.section, name, ValueOf(right))])
  {
    var text := name + gap + [separator] + right;
    var left, n := name + gap, |name| + |gap|;
    assert text[n] == separator && text[..n] == left && text[n + 1..] == right && text[0] == name[0];
    forall k | 0 <= k < n
      ensures text[k] !in "=:" && text[k] != ';'
    {
      assert text[k] == left[k];
      assert k >= |name| ==> left[k] == gap[k - |name|];
    }
    FindStops(text, "=:", 0, n, false);
    EndAt(left, |name|);
  }

  /** Stripping takes blanks off the end, and stops at a character that is none. */
  lemma StripKeeps(head: string, c: char, right: string) returns (n: nat)
    requires !IsSpace(c)
    ensures n <= |right| && RStrip(head + [c] + right) == head + [c] + right[..n] && Blank(right[n..])
  {
    var s := head + [c] + right;
    assert s[|head|] == c;
    EndKeeps(s, |head|, |s|);
    BlankFrom(s, |s|);
    n := End(s, |s|) - |head| - 1;
    assert forall i :: 0 <= i < |right| ==> right[i] == s[|head| + 1 + i];
  }

  lemma {:induction false} BlankFrom(s: string, n: nat)
    requires n <= |s|
    ensures forall i :: End(s, n) <= i < n ==> IsSpace(s[i])
    decreases n
  {
    if n > 0 && IsSpace(s[n - 1]) {
      BlankFrom(s, n - 1);
    }
  }

  lemma BlankBehind(s: string, n: nat)
    requires n <= |s| && Blank(s[n..])
    ensures forall i :: n <= i < |s| ==> IsSpace(s[i])
  {
    forall i | n <= i < |s|
      ensures IsSpace(s[i])
    {
      assert s[i] == s[n..][i - n];
    }
  }

  /** A tail without some of the blanks at its end is a tail. */
  lemma TailCut(tail: string, n: nat)
    requires Tail(tail) && n <= |tail| && Blank(tail[n..])
    ensures Tail(tail[..n])
  {
    if Blank(tail) {
      assert forall i :: 0 <= i < n ==> tail[..n][i] == tail[i];
    } else {
      var c :| 0 < c < |tail| && Blank(tail[..c]) && tail[c] == ';';
      BlankBehind(tail, n);
      assert c < n && tail[..n][..c] == tail[..c];
    }
  }

  /** The blanks at the end of a line are not part of what a value is read from. */
  lemma RightCut(before: string, v: string, tail: string, n: nat) returns (m: nat)
    requires v != "" && Bare(v) && Tail(tail)
    requires n <= |before + v + tail| && Blank((before + v + tail)[n..])
    ensures m <= |tail| && (before + v + tail)[..n] == before + v + tail[..m] && Tail(tail[..m])
  {
    var right, k := before + v + tail, |before| + |v|;
    BlankBehind(right, n);
    assert right[k - 1] == v[|v| - 1];
    m := n - k;
    assert forall i :: 0 <= i < |tail| - m ==> tail[m..][i] == right[n..][i];
    TailCut(tail, m);
  }

  lemma LineTrimmed(p: Parser, line: string, lead: string, text: string)
    requires p.lineno > 0 || !HasBom(line)
    requires RStrip(line) == lead + text && Blank(lead) && text != "" && !IsSpace(text[0])
    ensures ParseLine(p, line) == ParseText(p.(lineno := p.lineno + 1), text, |lead|)
  {
    var stripped := lead + text;
    assert line[0..] == line && stripped[|lead|] == text[0] && stripped[|lead|..] == text;
    StartOver(stripped, 0, |lead|);
    LineIsText(p, line, text, |lead|);
  }

  /**
   A line with a name, an equals sign or a colon and a clean value reads as this
   pair, whatever blanks stand between and whatever comment is behind; an indented
   one only where there is no pair to continue.  Long names are handed out whole,
   and remembered cut.
   */
  lemma PairReads(p: Parser, lead: string, name: string, gap: string, separator: char, before: string, v: string, tail: string)
    requires Blank(lead) && (lead == "" || p.prevName == "") && PlainName(name) && Blank(gap) && IsSeparator(separator)
    requires Blank(before) && Clean(v) && v != "" && (before != "" ==> v[0] != ';') && Tail(tail)
    requires p.lineno > 0 || !HasBom(lead + name + gap + [separator] + (before + v + tail))
    ensures ParseLine(p, lead + name + gap + [separator] + (before + v + tail))
            == p.(lineno := p.lineno + 1, prevName := Held(name), events := p.events + [Event(p.section, name, v)])
  {
    var right := before + v + tail;
    var line := lead + name + gap + [separator] + right;
    var n := StripKeeps(lead + name + gap, separator, right);
    var m := RightCut(before, v, tail, n);
    var text := name + gap + [separator] + right[..n];
    assert text[0] == name[0];
    assert RStrip(line) == lead + text;
    LineTrimmed(p, line, lead, text);
    PairIsCut(p.(lineno := p.lineno + 1), name, gap, separator, right[..n], |lead|);
    ValueReads(before, v, tail[..m]);
  }

  // ---------------------------------------------------------------- the other lines

  /** A line of blanks, and one whose first character behind blanks is a semicolon or a number sign, say nothing. */
  lemma CommentLine(p: Parser, lead: string, comment: string)
    requires Blank(lead) && (comment == "" || comment[0] == ';' || comment[0] == '#')
    requires p.lineno > 0 || !HasBom(lead + comment)
    ensures ParseLine(p, lead + comment) == p.(lineno := p.lineno + 1)
  {
    var line := lead + comment;
    if comment == "" {
      assert line[0..] == line;
      EndAt(line, 0);
      LineIsText(p, line, "", Indent(p.lineno + 1, line));
    } else {
      assert line == lead + [comment[0]] + comment[1..];
      var n := StripKeeps(lead, comment[0], comment[1..]);
      var text := [comment[0]] + comment[1..][..n];
      assert RStrip(line) == lead + text;
      LineTrimmed(p, line, lead, text);
    }
  }

  /** An indented line behind a pair is one more value of the same name, comments, separators and brackets included. */
  lemma ContinuationReads(p: Parser, lead: string, v: string, tail: string)
    requires Blank(lead) && lead != "" && p.prevName != "" && Bare(v) && v != "" && Blank(tail)
    requires v[0] != ';' && v[0] != '#' && (p.lineno > 0 || !HasBom(lead + v + tail))
    ensures ParseLine(p, lead + v + tail)
            == p.(lineno := p.lineno + 1, events := p.events + [Event(p.section, p.prevName, v)])
  {
    var line := lead + v + tail;
    assert line[|lead| + |v| - 1] == v[|v| - 1];
    EndAt(line, |lead| + |v|);
    LineTrimmed(p, line, lead, v);
  }

  lemma HeaderText(p: Parser, name: string, behind: string)
    requires ']' !in name && NoComment(name, 0, |name|)
    ensures ParseSection(p, name + [']'] + behind)
            == p.(section := Held(name), prevName := "")
  {
    var rest := name + [']'] + behind;
    assert rest[..|name|] == name && rest[|name|] == ']';
    forall k | 0 <= k < |name|
      ensures rest[k] !in "]" && !CommentAt(rest, k)
    {
      assert rest[k] == name[k] && rest[k] in name && (k > 0 ==> rest[k - 1] == name[k - 1]);
      assert !CommentAt(name, k);
    }
    FindStops(rest, "]", 0, |name|, false);
  }

  /** A header names the section up to its bracket, cut to what the parser's buffer holds, and ends the last pair. */
  lemma HeaderReads(p: Parser, name: string, behind: string)
    requires ']' !in name && NoComment(name, 0, |name|) && p.lineno > 0
    ensures ParseLine(p, "[" + name + [']'] + behind)
            == p.(lineno := p.lineno + 1, section := Held(name), prevName := "")
  {
    var line := "[" + name + [']'] + behind;
    var n := StripKeeps("[" + name, ']', behind);
    var text := "[" + name + [']'] + behind[..n];
    assert text[0] == '[' && text[1..] == name + [']'] + behind[..n];
    LineTrimmed(p, line, "", text);
    HeaderText(p.(lineno := p.lineno + 1), name, behind[..n]);
  }

  /** A byte order mark before the first line is as if it were not there. */
  lemma MarkIsSkipped(p: Parser, mark: string, line: string)
    requires p.lineno == 0 && p.prevName == "" && |mark| == 3 && HasBom(mark) && !HasBom(line)
    ensures ParseLine(p, mark + line) == ParseLine(p, line)
  {
    assert (mark + line)[3..] == line && line[0..] == line;
  }

  // ---------------------------------------------------------------- errors

  /** One of the characters stands in s, and no comment begins before it. */
  ghost predicate Before(s: string, chars: string) {
    exists k :: 0 <= k < |s| && s[k] in chars && NoComment(s, 0, k)
  }

  /** The text of a line is neither a comment nor a continuation, and lacks its bracket or its separator. */
  ghost predicate Malformed(prevName: string, text: string, indent: nat) {
    && text != "" && text[0] != ';' && text[0] != '#'
    && (prevName == "" || indent == 0)
    && (if text[0] == '[' then !Before(text[1..], "]") else !Before(text, "=:"))
  }

  lemma FoundIff(s: string, chars: string)
    ensures var n := Find(s, chars, 0, false);
            n < |s| && s[n] in chars <==> Before(s, chars)
  {
    FindIsFirst(s, chars, 0, false);
    var n := Find(s, chars, 0, false);
    if Before(s, chars) {
      var k :| 0 <= k < |s| && s[k] in chars && NoComment(s, 0, k);
      assert n <= k;
      assert n < k ==> !CommentAt(s, n);
    }
  }

  lemma TextFails(p: Parser, text: string, indent: nat)
    ensures ParseText(p, text, indent).error == if p.error == 0 && Malformed(p.prevName, text, indent) then p.lineno else p.error
  {
    FoundIff(text, "=:");
    if text != "" {
      FoundIff(text[1..], "]");
    }
  }

  /** Only a malformed line is an error, and only the first one is told. */
  lemma LineFails(p: Parser, line: string)
    ensures var text, indent := Trimmed(p.lineno + 1, line), Indent(p.lineno + 1, line);
            ParseLine(p, line).error
            == if p.error == 0 && Malformed(p.prevName, text, indent) then p.lineno + 1 else p.error
  {
    TextFails(p.(lineno := p.lineno + 1), Trimmed(p.lineno + 1, line), Indent(p.lineno + 1, line));
  }

  /** The parser before line i. */
  function At(lines: seq<string>, i: nat): Parser
    requires i <= |lines|
  {
    if i == 0 then START else ParseLine(At(lines, i - 1), lines[i - 1])
  }

  lemma {:induction false} AtParses(lines: seq<string>, i: nat)
    requires i <= |lines|
    ensures Parse(At(lines, i), lines[i..]) == Parse(START, lines)
    decreases i
  {
    if i == 0 {
      assert lines[0..] == lines;
    } else {
      AtParses(lines, i - 1);
      assert lines[i - 1..][0] == lines[i - 1] && lines[i - 1..][1..] == lines[i..];
    }
  }

  ghost predicate MalformedAt(lines: seq<string>, i: nat)
    requires i < |lines|
  {
    Malformed(At(lines, i).prevName, Trimmed(i + 1, lines[i]), Indent(i + 1, lines[i]))
  }

  /** e is the number, counted from one, of the first bad one of n lines, or zero if there is none. */
  ghost predicate FirstBad(bad: nat -> bool, n: nat, e: nat) {
    && e <= n
    && (forall i: nat :: i < (if e == 0 then n else e - 1) ==> !bad(i))
    && (e > 0 ==> bad(e - 1))
  }

  ghost function MalformedOf(lines: seq<string>): nat -> bool {
    (i: nat) => i < |lines| && MalformedAt(lines, i)
  }

  lemma OneMoreLine(lines: seq<string>, n: nat)
    requires n < |lines| && At(lines, n).lineno == n
    ensures At(lines, n + 1).lineno == n + 1
    ensures At(lines, n + 1).error == if At(lines, n).error == 0 && MalformedOf(lines)(n) then n + 1 else At(lines, n).error
  {
    LineFails(At(lines, n), lines[n]);
    LineCounts(At(lines, n), lines[n]);
  }

  lemma LineCounts(p: Parser, line: string)
    ensures ParseLine(p, line).lineno == p.lineno + 1
  {
  }

  lemma FirstOfMore(bad: nat -> bool, n: nat, e: nat, later: nat)
    requires FirstBad(bad, n, e) && later == if e == 0 && bad(n) then n + 1 else e
    ensures FirstBad(bad, n + 1, later)
  {
  }

  /** The lines so far are counted, and the error is the first bad one among them. */
  ghost predicate Told(p: Parser, bad: nat -> bool, n: nat) {
    p.lineno == n && FirstBad(bad, n, p.error)
  }

  lemma OneMoreTold(lines: seq<string>, n: nat)
    requires n < |lines| && Told(At(lines, n), MalformedOf(lines), n)
    ensures Told(At(lines, n + 1), MalformedOf(lines), n + 1)
  {
    OneMoreLine(lines, n);
    FirstOfMore(MalformedOf(lines), n, At(lines, n).error, At(lines, n + 1).error);
  }

  lemma {:induction false} ErrorSoFar(lines: seq<string>, bad: nat -> bool, n: nat)
    requires n <= |lines| && bad == MalformedOf(lines)
    ensures Told(At(lines, n), bad, n)
  {
    if n > 0 {
      ErrorSoFar(lines, bad, n - 1);
      OneMoreTold(lines, n - 1);
    }
  }

  /** What parsing returns is the number of the first malformed line, and zero if there is none. */
  lemma ErrorIsFirst(lines: seq<string>)
    ensures FirstBad(MalformedOf(lines), |lines|, Parse(START, lines).error)
  {
    AtParses(lines, |lines|);
    ErrorSoFar(lines, MalformedOf(lines), |lines|);
    assert lines[|lines|..] == [];
  }
}
