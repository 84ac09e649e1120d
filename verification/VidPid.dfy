/** Vendor and product ids as text: four lower-case hexadecimal digits each, and a dash between. */
module VidPid {
  import opened CNumbers
  import opened Chars
  import opened Sequences

  type Word = x: nat | x < 0x1_0000

  datatype ControllerVidPid = ControllerVidPid(vid: Word, pid: Word)

  const DIGITS: string := "0123456789abcdef"

  function DigitValue(c: char): (r: int)
    ensures -1 <= r < 16
  {
    if '0' <= c <= '9' then c as int - '0' as int
    else if 'a' <= c <= 'f' then c as int - 'a' as int + 10
    else if 'A' <= c <= 'F' then c as int - 'A' as int + 10
    else -1
  }

  function Hex(x: Word): (s: string)
    ensures |s| == 4
    ensures forall c :: c in s ==> c in DIGITS
  {
    [DIGITS[x / 4096], DIGITS[x / 256 % 16], DIGITS[x / 16 % 16], DIGITS[x % 16]]
  }

  function Print(v: ControllerVidPid): string {
    Hex(v.vid) + "-" + Hex(v.pid)
  }

  /** The value of the digits s starts with, on top of those read so far. */
  function Digits(s: string, acc: nat): nat {
    if s == "" || DigitValue(s[0]) < 0 then acc else Digits(s[1..], acc * 16 + DigitValue(s[0]))
  }

  /** A long in base sixteen: blanks, a sign and a 0x may come first. */
  function Strtol(s: string): int {
    Saturate(HexNumber(s))
  }

  function HexNumber(s: string): int {
    if s != "" && IsSpace(s[0]) then HexNumber(s[1..])
    else if s != "" && s[0] == '-' then 0 - Magnitude(s[1..])
    else if s != "" && s[0] == '+' then Magnitude(s[1..])
    else Magnitude(s)
  }

  function Magnitude(s: string): nat {
    if |s| >= 3 && s[0] == '0' && (s[1] == 'x' || s[1] == 'X') && DigitValue(s[2]) >= 0 then Digits(s[2..], 0)
    else Digits(s, 0)
  }

  function ToWord(n: int): Word {
    n % 0x1_0000
  }

  function Parse(s: string): ControllerVidPid {
    var i := FirstIndex(s, '-');
    if i == |s| then ControllerVidPid(0, 0)
    else ControllerVidPid(ToWord(Strtol(s[..i])), ToWord(Strtol(s[i + 1..])))
  }

  lemma DigitOf(d: nat)
    requires d < 16
    ensures DigitValue(DIGITS[d]) == d && DIGITS[d] != '-' && !IsSpace(DIGITS[d]) && DIGITS[d] != '+'
    ensures DIGITS[d] != 'x' && DIGITS[d] != 'X'
  {
  }

  lemma FourDigits(a: nat, b: nat, c: nat, d: nat)
    requires a < 16 && b < 16 && c < 16 && d < 16
    ensures Strtol([DIGITS[a], DIGITS[b], DIGITS[c], DIGITS[d]]) == ((a * 16 + b) * 16 + c) * 16 + d
  {
    DigitOf(a);
    DigitOf(b);
    DigitOf(c);
    DigitOf(d);
    var s := [DIGITS[a], DIGITS[b], DIGITS[c], DIGITS[d]];
    assert Digits(s[4..], ((a * 16 + b) * 16 + c) * 16 + d) == ((a * 16 + b) * 16 + c) * 16 + d;
    assert Digits(s[3..], (a * 16 + b) * 16 + c) == ((a * 16 + b) * 16 + c) * 16 + d by { assert s[3..][1..] == s[4..]; }
    assert Digits(s[2..], a * 16 + b) == ((a * 16 + b) * 16 + c) * 16 + d by { assert s[2..][1..] == s[3..]; }
    assert Digits(s[1..], a) == ((a * 16 + b) * 16 + c) * 16 + d by { assert s[1..][1..] == s[2..]; }
  }

  lemma InSixteens(x: Word)
    ensures ((x / 4096 * 16 + x / 256 % 16) * 16 + x / 16 % 16) * 16 + x % 16 == x
  {
    var y := x / 16;
    var z := y / 16;
    assert z == x / 256 && z / 16 == x / 4096;
  }

  lemma StrtolOfHex(x: Word)
    ensures Strtol(Hex(x)) == x
  {
    FourDigits(x / 4096, x / 256 % 16, x / 16 % 16, x % 16);
    InSixteens(x);
  }

  /** Ids survive being printed and read back. */
  lemma PrintParses(v: ControllerVidPid)
    ensures Parse(Print(v)) == v
  {
    HexSpells(v.vid);
    HexSpells(v.pid);
    SpelledParses(Hex(v.vid), Hex(v.pid), v);
  }

  /** s has no dash and reads as x, whatever else it is. */
  ghost predicate Spells(s: string, x: Word) {
    '-' !in s && Strtol(s) == x
  }

  lemma HexSpells(x: Word)
    ensures Spells(Hex(x), x)
  {
    StrtolOfHex(x);
    assert '-' !in DIGITS;
  }

  lemma SpelledParses(a: string, b: string, v: ControllerVidPid)
    requires Spells(a, v.vid) && Spells(b, v.pid)
    ensures Parse(a + "-" + b) == v
  {
    var s := a + "-" + b;
    assert s[..|a|] == a && s[|a|] == '-' && s[|a| + 1..] == b;
    IndexIsFirst(s, '-', |a|);
  }

  /** Different ids print differently. */
  lemma PrintIsInjective(v: ControllerVidPid, w: ControllerVidPid)
    ensures Print(v) == Print(w) ==> v == w
  {
    PrintParses(v);
    PrintParses(w);
  }
}
