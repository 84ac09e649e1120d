/**
 The words of a configuration file: what each key name stands for, what a line of
 it sets, and how numbers, bindings, combos and colours are spelled.
 */
module ConfigNames {
  import opened Chars
  import opened CNumbers
  import opened Sequences
  import opened Config
  import VidPid

  // ---------------------------------------------------------------- key names

  /** Begins as a button name of two letters or more does. */
  predicate StartsLikeButton(s: string)
    requires |s| >= 2
  {
    || (s[1] == 's' && (s[0] == 'l' || s[0] == 'r'))
    || (s[1] == 'l' && (s[0] == 'z' || s[0] == 'p'))
    || (s[0] == 'z' && s[1] == 'r') || (s[0] == 'm' && s[1] == 'i')
    || (s[0] == 'd' && s[1] == 'p') || (s[0] == 'c' && s[1] == 'a') || (s[0] == 'h' && s[1] == 'o')
  }

  lemma LongNamesStart(i: nat)
    requires i < BUTTONS && |BUTTON_NAMES[i]| >= 2
    ensures StartsLikeButton(BUTTON_NAMES[i])
  {
  }

  lemma NotAButton(name: string)
    requires |name| >= 2 && !StartsLikeButton(name) && Lower(name) == name
    ensures ButtonOf(name) == 0
  {
    forall i | 0 <= i < |BUTTON_NAMES|
      ensures BUTTON_NAMES[i] != name
    {
      if |BUTTON_NAMES[i]| >= 2 {
        LongNamesStart(i);
      }
    }
    AbsentIndex(BUTTON_NAMES, name);
  }

  /** A table is read by the lower-case word alone: the place found spells it, and none is found only if no later place does. */
  lemma LookupTells(names: seq<string>, name: string)
    ensures var i := Lookup(names, name);
            && (i > 0 ==> names[i] == Lower(name))
            && (i == 0 ==> forall k :: 0 < k < |names| && names[k] == Lower(name) ==> names[0] == names[k])
  {
    if |names| > 0 && Lookup(names, name) == 0 && FirstIndex(names, Lower(name)) == |names| {
      assert forall k :: 0 <= k < |names| ==> names[..|names|][k] == names[k];
    }
  }

  /** Letters are read in either case, and nothing else is changed. */
  lemma CaseIsIgnored(c: char)
    ensures 'A' <= c <= 'Z' ==> 'a' <= LowerChar(c) <= 'z' && LowerChar(c) as int - 'a' as int == c as int - 'A' as int
    ensures !('A' <= c <= 'Z') ==> LowerChar(c) == c
  {
  }

  /** A word is found where the table first spells it, whatever its case. */
  lemma FoundAt(names: seq<string>, name: string, i: nat)
    requires i < |names| && Lower(name) == names[i] && names[i] !in names[..i]
    ensures Lookup(names, name) == i
  {
    IndexIsFirst(names, names[i], i);
  }

  lemma AxisNamesDiffer(a: nat)
    requires a < AXES
    ensures AXIS_NAMES[a] !in AXIS_NAMES[..a] && Lower(AXIS_NAMES[a]) == AXIS_NAMES[a] && AXIS_NAMES[a] != ""
  {
  }

  lemma ButtonNamesLower(b: nat)
    requires b < BUTTONS
    ensures Lower(BUTTON_NAMES[b]) == BUTTON_NAMES[b]
  {
  }

  lemma ButtonNamesDiffer(b: nat)
    requires b < BUTTONS
    ensures BUTTON_NAMES[b] !in BUTTON_NAMES[..b] && Lower(BUTTON_NAMES[b]) == BUTTON_NAMES[b]
  {
    ButtonNamesLower(b);
    forall i | 0 <= i < b
      ensures BUTTON_NAMES[i] != BUTTON_NAMES[b]
    {
      TwoButtonNames(i, b);
    }
  }

  lemma TwoButtonNames(i: nat, b: nat)
    requires i < b < BUTTONS
    ensures BUTTON_NAMES[i] != BUTTON_NAMES[b]
  {
  }

  /** The name of a button is the key of a button. */
  lemma ButtonNameIsKey(b: RealButton)
    ensures KeyOf(BUTTON_NAMES[b]) == ButtonKey(b)
  {
    ButtonNamesDiffer(b);
    FoundAt(BUTTON_NAMES, BUTTON_NAMES[b], b);
  }

  /** Each of the words is the key at its place: driver, profile, the two packet sizes and the controller type. */
  lemma WordIsKey(i: nat)
    requires i < 5
    ensures KeyOf(WORDS[i]) == [Driver, Profile, InputSize, OutputSize, Type][i]
  {
    WordStarts(i);
    NotAButton(WORDS[i]);
    IndexIsFirst(WORDS, WORDS[i], i);
  }

  lemma WordStarts(i: nat)
    requires i < 5
    ensures |WORDS[i]| >= 2 && !StartsLikeButton(WORDS[i]) && Lower(WORDS[i]) == WORDS[i] && WORDS[i] !in WORDS[..i]
    ensures |WORDS[i]| > 2 && StartsLikeWord(WORDS[i])
  {
  }

  predicate StartsLikeWord(s: string)
    requires |s| > 2
  {
    || (s[0] == 'd' && s[1] == 'r') || s[0] == 'p' || s[0] == 'i' || s[0] == 'o'
    || (s[0] == 'c' && s[1] == 'o' && s[2] == 'n')
  }

  lemma NotAWord(name: string)
    requires |name| > 2 && !StartsLikeWord(name)
    ensures FirstIndex(WORDS, name) == |WORDS|
  {
    forall i | 0 <= i < |WORDS|
      ensures WORDS[i] != name
    {
      WordStarts(i);
    }
    AbsentIndex(WORDS, name);
  }

  lemma LowerConcat(a: string, b: string)
    ensures Lower(a + b) == Lower(a) + Lower(b)
  {
  }

  /** A prefix of lower-case letters, none of a button or a word, leaves the rest to be looked up. */
  lemma PrefixLeads(prefix: string, rest: string)
    requires |prefix| > 2 && Lower(prefix) == prefix && !StartsLikeButton(prefix) && !StartsLikeWord(prefix)
    requires Lower(rest) == rest
    ensures KeyOf(prefix + rest) == PrefixedKey(prefix + rest)
  {
    var name := prefix + rest;
    LowerConcat(prefix, rest);
    assert name[0] == prefix[0] && name[1] == prefix[1] && name[2] == prefix[2];
    NotAButton(name);
    NotAWord(name);
  }

  lemma PrefixIsPlain(p: string)
    requires p == SIMULATE || p == DEADZONE || p == FACTOR
    ensures |p| > 2 && Lower(p) == p && !StartsLikeButton(p) && !StartsLikeWord(p)
  {
  }

  lemma SimulateIsKey(b: RealButton)
    ensures KeyOf(SIMULATE + BUTTON_NAMES[b]) == Simulate(b)
  {
    ButtonNamesDiffer(b);
    PrefixIsPlain(SIMULATE);
    PrefixLeads(SIMULATE, BUTTON_NAMES[b]);
    var name := SIMULATE + BUTTON_NAMES[b];
    assert name[|SIMULATE|..] == BUTTON_NAMES[b];
    FoundAt(BUTTON_NAMES, BUTTON_NAMES[b], b);
  }

  lemma AxisNameFound(a: AxisId, name: string)
    requires Lower(name) == AXIS_NAMES[a]
    ensures AxisOf(name) == a
  {
    AxisNamesDiffer(a);
    FoundAt(AXIS_NAMES, name, a);
  }

  lemma NotAnAxis(name: string)
    requires name == ""
    ensures AxisOf(name) == 0
  {
    forall a | 0 <= a < |AXIS_NAMES|
      ensures AXIS_NAMES[a] != name
    {
      AxisNamesDiffer(a);
    }
    AbsentIndex(AXIS_NAMES, name);
  }

  lemma OtherPrefix(prefix: string, other: string, rest: string)
    requires prefix != "" && other != "" && prefix[0] != other[0]
    ensures !(other <= prefix + rest) && After(other, prefix + rest) == ""
  {
    assert (prefix + rest)[0] == prefix[0];
  }

  lemma OwnPrefix(prefix: string, rest: string)
    ensures prefix <= prefix + rest && After(prefix, prefix + rest) == rest
  {
  }

  lemma DeadzoneIsKey(a: AxisId)
    requires Tunable(a)
    ensures KeyOf(DEADZONE + AXIS_NAMES[a]) == Deadzone(a)
  {
    AxisNamesDiffer(a);
    PrefixIsPlain(DEADZONE);
    PrefixLeads(DEADZONE, AXIS_NAMES[a]);
    OtherPrefix(DEADZONE, SIMULATE, AXIS_NAMES[a]);
    OwnPrefix(DEADZONE, AXIS_NAMES[a]);
    AxisNameFound(a, AXIS_NAMES[a]);
  }

  lemma FactorIsKey(a: AxisId)
    requires Tunable(a)
    ensures KeyOf(FACTOR + AXIS_NAMES[a]) == Factor(a)
  {
    AxisNamesDiffer(a);
    PrefixIsPlain(FACTOR);
    PrefixLeads(FACTOR, AXIS_NAMES[a]);
    OtherPrefix(FACTOR, SIMULATE, AXIS_NAMES[a]);
    OtherPrefix(FACTOR, DEADZONE, AXIS_NAMES[a]);
    OwnPrefix(FACTOR, AXIS_NAMES[a]);
    AxisNameFound(a, AXIS_NAMES[a]);
    NotAnAxis(After(DEADZONE, FACTOR + AXIS_NAMES[a]));
  }

  lemma ColorNames(i: nat)
    requires i < COLORS
    ensures var name := COLOR_KEYS[i];
            && |name| > 2 && name[0] == 'c' && name[1] == 'o' && name[2] == 'l'
            && Lower(name) == name && name !in COLOR_KEYS[..i]
  {
  }

  lemma NoPrefix(prefix: string, name: string)
    requires prefix != "" && name != "" && prefix[0] != name[0]
    ensures !(prefix <= name) && After(prefix, name) == ""
  {
  }

  lemma PrefixedColor(i: nat, name: string)
    requires name != "" && name[0] == 'c' && i < |COLOR_KEYS| && FirstIndex(COLOR_KEYS, name) == i
    ensures PrefixedKey(name) == Color(i)
  {
    NoPrefix(SIMULATE, name);
    NoPrefix(DEADZONE, name);
    NoPrefix(FACTOR, name);
    NotAnAxis(After(DEADZONE, name));
    NotAnAxis(After(FACTOR, name));
  }

  lemma UnprefixedKey(name: string)
    requires |name| > 2 && Lower(name) == name && !StartsLikeButton(name) && !StartsLikeWord(name)
    ensures KeyOf(name) == PrefixedKey(name)
  {
    NotAButton(name);
    NotAWord(name);
  }

  lemma ColorIsKey(i: nat)
    requires i < COLORS
    ensures KeyOf(COLOR_KEYS[i]) == Color(i)
  {
    ColorNames(i);
    IndexIsFirst(COLOR_KEYS, COLOR_KEYS[i], i);
    UnprefixedKey(COLOR_KEYS[i]);
    PrefixedColor(i, COLOR_KEYS[i]);
  }

  // ---------------------------------------------------------------- what lines set

  /** A button's line sets its pins and its axis and turns axes on for buttons; all else stays. */
  lemma ButtonSets(cfg: ControllerConfig, key: Key, value: string)
    requires cfg.WellFormed() && key.ButtonKey?
    ensures Apply(cfg, key, value) == cfg.(analogUsed := true, pins := cfg.pins[key.b := BindingOf(value).pins],
                                           analog := cfg.analog[key.b := BindingOf(value).analog])
  {
  }

  lemma SimulateSets(cfg: ControllerConfig, key: Key, value: string)
    requires cfg.WellFormed() && key.Simulate?
    ensures Apply(cfg, key, value) == cfg.(combos := AddCombo(cfg.combos, ComboOf(key.b, value)))
  {
  }

  /** Percentages are cut to a byte. */
  lemma DeadzoneSets(cfg: ControllerConfig, key: Key, value: string)
    requires cfg.WellFormed() && key.Deadzone?
    ensures Apply(cfg, key, value) == cfg.(deadzone := cfg.deadzone[key.a := Atoi(value) % 0x100])
  {
  }

  lemma FactorSets(cfg: ControllerConfig, key: Key, value: string)
    requires cfg.WellFormed() && key.Factor?
    ensures Apply(cfg, key, value) == cfg.(factor := cfg.factor[key.a := Atoi(value) % 0x100])
  {
  }

  lemma DriverSets(cfg: ControllerConfig, key: Key, value: string)
    requires cfg.WellFormed() && key.Driver?
    ensures Apply(cfg, key, value) == cfg.(driver := Lower(value))
  {
  }

  lemma ProfileSets(cfg: ControllerConfig, key: Key, value: string)
    requires cfg.WellFormed() && key.Profile?
    ensures Apply(cfg, key, value) == cfg.(profile := Lower(value))
  {
  }

  /** Packet sizes are 32 bits wide. */
  lemma InputSizeSets(cfg: ControllerConfig, key: Key, value: string)
    requires cfg.WellFormed() && key.InputSize?
    ensures Apply(cfg, key, value) == cfg.(inputMaxPacketSize := Atoi(value) % 0x1_0000_0000)
  {
  }

  lemma OutputSizeSets(cfg: ControllerConfig, key: Key, value: string)
    requires cfg.WellFormed() && key.OutputSize?
    ensures Apply(cfg, key, value) == cfg.(outputMaxPacketSize := Atoi(value) % 0x1_0000_0000)
  {
  }

  lemma TypeSets(cfg: ControllerConfig, key: Key, value: string)
    requires cfg.WellFormed() && key.Type?
    ensures Apply(cfg, key, value) == cfg.(controllerType := Lookup(TYPE_NAMES, value))
  {
  }

  lemma ColorSets(cfg: ControllerConfig, key: Key, value: string)
    requires cfg.WellFormed() && key.Color? && key.i < COLORS
    ensures Apply(cfg, key, value) == cfg.(colors := cfg.colors[key.i := ColorOf(value)])
  {
  }

  // ---------------------------------------------------------------- numbers

  /** A number as it is written. */
  function Printed(n: nat): (s: string)
    ensures IsNumber(s)
  {
    if n < 10 then [('0' as int + n) as char] else Printed(n / 10) + [('0' as int + n % 10) as char]
  }

  lemma {:induction false} DecimalOn(s: string, t: string, acc: nat)
    requires forall c :: c in s ==> IsDigit(c)
    ensures Decimal(s + t, acc) == Decimal(t, Decimal(s, acc))
    decreases |s|
  {
    if s == "" {
      assert s + t == t;
    } else {
      assert s[0] in s && (s + t)[1..] == s[1..] + t;
      DecimalOn(s[1..], t, acc * 10 + (s[0] as int - '0' as int));
    }
  }

  lemma LastDigit(d: nat, rest: string, acc: nat)
    requires d < 10 && (rest == "" || !IsDigit(rest[0]))
    ensures Decimal([('0' as int + d) as char] + rest, acc) == acc * 10 + d
  {
    var s := [('0' as int + d) as char] + rest;
    assert s[1..] == rest;
  }

  lemma {:induction false} PrintedDecimal(n: nat, rest: string)
    requires rest == "" || !IsDigit(rest[0])
    ensures Decimal(Printed(n) + rest, 0) == n
  {
    if n < 10 {
      LastDigit(n, rest, 0);
    } else {
      var last := [('0' as int + n % 10) as char];
      assert Printed(n) + rest == Printed(n / 10) + (last + rest);
      DecimalOn(Printed(n / 10), last + rest, 0);
      PrintedDecimal(n / 10, "");
      assert Printed(n / 10) + "" == Printed(n / 10);
      LastDigit(n % 10, rest, n / 10);
    }
  }

  lemma SpelledForms(s: string)
    requires s != "" && IsDigit(s[0])
    ensures Spelled(s) == Decimal(s, 0)
    ensures Spelled("-" + s) == 0 - Decimal(s, 0) && Spelled("+" + s) == Decimal(s, 0)
  {
    var minus, plus := "-" + s, "+" + s;
    assert minus[1..] == s && plus[1..] == s;
  }

  lemma IntAsSpelled(s: string)
    requires -0x8000_0000 <= Spelled(s) < 0x8000_0000
    ensures Atoi(s) == Spelled(s)
  {
  }

  /** A number in the range of an int is read as it was written, whatever stands behind its digits; so is a signed one. */
  lemma NumberReads(n: nat, rest: string)
    requires n < 0x8000_0000 && (rest == "" || !IsDigit(rest[0]))
    ensures var s := Printed(n) + rest;
            Atoi(s) == n && Atoi("-" + s) == 0 - n && Atoi("+" + s) == n
  {
    var s := Printed(n) + rest;
    PrintedDecimal(n, rest);
    assert s[0] == Printed(n)[0] && Printed(n)[0] in Printed(n);
    SpelledForms(s);
    IntAsSpelled(s);
    IntAsSpelled("-" + s);
    IntAsSpelled("+" + s);
  }

  /** Blanks before a number do not count. */
  lemma BlankBefore(c: char, s: string)
    requires IsSpace(c)
    ensures Atoi([c] + s) == Atoi(s)
  {
    assert ([c] + s)[1..] == s;
  }

  // ---------------------------------------------------------------- colours

  predicate HexDigits(s: string) {
    forall c :: c in s ==> VidPid.DigitValue(c) >= 0
  }

  lemma {:induction false} HexOn(s: string, t: string, acc: nat)
    requires HexDigits(s)
    ensures VidPid.Digits(s + t, acc) == VidPid.Digits(t, VidPid.Digits(s, acc))
    decreases |s|
  {
    if s == "" {
      assert s + t == t;
    } else {
      assert s[0] in s && (s + t)[1..] == s[1..] + t;
      HexOn(s[1..], t, acc * 16 + VidPid.DigitValue(s[0]));
    }
  }

  /** A byte as it is written. */
  function HexByte(b: nat): (s: string)
    requires b < 256
    ensures |s| == 2
  {
    [VidPid.DIGITS[b / 16], VidPid.DIGITS[b % 16]]
  }

  lemma ByteReads(b: nat, acc: nat)
    requires b < 256
    ensures HexDigits(HexByte(b)) && VidPid.Digits(HexByte(b), acc) == acc * 256 + b
  {
    VidPid.DigitOf(b / 16);
    VidPid.DigitOf(b % 16);
    var s := HexByte(b);
    assert VidPid.Digits(s[1..], acc * 16 + b / 16) == (acc * 16 + b / 16) * 16 + b % 16 by {
      assert s[1..][1..] == "";
    }
  }

  /** Digits alone are a hexadecimal number: no sign, no blank and no 0x is among them. */
  lemma PureDigits(s: string)
    requires s != "" && HexDigits(s)
    ensures VidPid.HexNumber(s) == VidPid.Digits(s, 0)
  {
    assert s[0] in s && (|s| > 1 ==> s[1] in s);
  }

  lemma OneByteMore(s: string, n: nat, b: nat)
    requires b < 256 && HexDigits(s) && VidPid.Digits(s, 0) == n
    ensures HexDigits(s + HexByte(b)) && VidPid.Digits(s + HexByte(b), 0) == n * 256 + b
  {
    ByteReads(b, n);
    HexOn(s, HexByte(b), 0);
  }

  lemma HashSkipped(digits: string)
    requires digits == "" || digits[0] != '#'
    ensures ColorOf("#" + digits) == ColorOf(digits)
  {
    var value := "#" + digits;
    assert value[0] == '#' && value[1..] == digits;
  }

  /** Six or eight digits, behind a number sign or not. */
  lemma DigitsAreColor(digits: string, n: nat)
    requires HexDigits(digits) && VidPid.Digits(digits, 0) == n
    requires (|digits| == 6 && n < 0x100_0000) || (|digits| == 8 && n < 0x1_0000_0000)
    ensures ColorOf(digits) == ColorOf("#" + digits) == if |digits| == 8 then n else n * 256 + 255
  {
    assert digits[0] in digits;
    PureDigits(digits);
    HashSkipped(digits);
  }

  function HexBytes(r: nat, g: nat, b: nat): (s: string)
    requires r < 256 && g < 256 && b < 256
    ensures |s| == 6
  {
    HexByte(r) + HexByte(g) + HexByte(b)
  }

  lemma HexBytesRead(r: nat, g: nat, b: nat)
    requires r < 256 && g < 256 && b < 256
    ensures HexDigits(HexBytes(r, g, b)) && VidPid.Digits(HexBytes(r, g, b), 0) == (r * 256 + g) * 256 + b
  {
    ByteReads(r, 0);
    OneByteMore(HexByte(r), r, g);
    OneByteMore(HexByte(r) + HexByte(g), r * 256 + g, b);
  }

  /** A colour of three or four bytes is read as it was written, behind a number sign or not; three are opaque. */
  lemma ColorReads(r: nat, g: nat, b: nat, a: nat)
    requires r < 256 && g < 256 && b < 256 && a < 256
    ensures var rgb := HexBytes(r, g, b);
            var number := 0x100_0000 * r + 0x1_0000 * g + 0x100 * b;
            && ColorOf(rgb + HexByte(a)) == ColorOf("#" + (rgb + HexByte(a))) == number + a
            && ColorOf(rgb) == ColorOf("#" + rgb) == number + 255
  {
    var n := (r * 256 + g) * 256 + b;
    HexBytesRead(r, g, b);
    OneByteMore(HexBytes(r, g, b), n, a);
    DigitsAreColor(HexBytes(r, g, b), n);
    DigitsAreColor(HexBytes(r, g, b) + HexByte(a), n * 256 + a);
  }

  /** Anything of another length is opaque black. */
  lemma OtherLengthsAreBlack(value: string)
    requires var n := if value != "" && value[0] == '#' then |value| - 1 else |value|; n != 6 && n != 8
    ensures ColorOf(value) == 255
  {
  }

  // ---------------------------------------------------------------- lists

  /** A delimiter in front is nothing, a piece without one is a token, and so is the piece before one. */
  lemma TokensRead(piece: string, delimiter: char, rest: string)
    requires piece != "" && delimiter !in piece
    ensures Tokens(piece, delimiter) == [piece]
    ensures Tokens(piece + [delimiter] + rest, delimiter) == [piece] + Tokens(rest, delimiter)
    ensures Tokens([delimiter] + rest, delimiter) == Tokens(rest, delimiter)
  {
    AbsentIndex(piece, delimiter);
    assert piece[..|piece|] == piece;
    var s := piece + [delimiter] + rest;
    assert s[|piece|] == delimiter && s[..|piece|] == piece && s[|piece| + 1..] == rest;
    IndexIsFirst(s, delimiter, |piece|);
    var t := [delimiter] + rest;
    assert t[0] == delimiter && t[0 + 1..] == rest;
    IndexIsFirst(t, delimiter, 0);
  }

  /** Two buttons with a plus between them make the combo of these two. */
  lemma ComboReads(b: RealButton, first: string, second: string)
    requires first != "" && second != "" && '+' !in first && '+' !in second
    ensures ComboOf(b, first + "+" + second) == Combo(b, ButtonOf(first), ButtonOf(second))
    ensures ComboOf(b, first) == Combo(b, ButtonOf(first), 0)
  {
    TokensRead(first, '+', second);
    TokensRead(second, '+', "");
  }

  // ---------------------------------------------------------------- the axis of a binding

  /** The name behind a sign, if there is one. */
  function Unsigned(token: string): string {
    if token != "" && (token[0] == '-' || token[0] == '+') then token[1..] else token
  }

  /** An axis is stored as a token says: turned round only by a minus sign, and the one named behind the sign, or none. */
  ghost predicate SaysAxis(token: string, analog: AnalogConfig) {
    && analog.sign == (if token != "" && token[0] == '-' then -1 else 1)
    && (analog.bind > 0 ==> AXIS_NAMES[analog.bind] == Lower(Unsigned(token)))
    && (analog.bind == 0 ==> forall a :: 0 < a < AXES ==> AXIS_NAMES[a] != Lower(Unsigned(token)))
  }

  lemma AxisLookup(name: string)
    ensures AxisOf(name) > 0 ==> AXIS_NAMES[AxisOf(name)] == Lower(name)
    ensures AxisOf(name) == 0 ==> forall a :: 0 < a < AXES ==> AXIS_NAMES[a] != Lower(name)
  {
    LookupTells(AXIS_NAMES, name);
    forall a | 0 < a < AXES
      ensures AXIS_NAMES[a] != AXIS_NAMES[0]
    {
      AxisNamesDiffer(a);
      assert AXIS_NAMES[0] == AXIS_NAMES[..a][0];
    }
  }

  lemma TokenSaysAxis(token: string)
    ensures SaysAxis(token, AnalogOf(token))
  {
    assert "-" <= token <==> token != "" && token[0] == '-';
    assert "+" <= token <==> token != "" && token[0] == '+';
    AxisLookup(Unsigned(token));
  }

  /** The last token that is no number says the axis; without one it stays. */
  lemma {:induction false} TokensSayAxis(b: Binding, tokens: seq<string>) returns (i: int)
    ensures -1 <= i < |tokens| && (forall j :: i < j < |tokens| ==> IsNumber(tokens[j]))
    ensures i >= 0 ==> !IsNumber(tokens[i]) && SaysAxis(tokens[i], BindTokens(b, tokens).analog)
    ensures i < 0 ==> BindTokens(b, tokens).analog == b.analog
    decreases |tokens|
  {
    if tokens == [] {
      i := -1;
    } else {
      var later := TokensSayAxis(BindToken(b, tokens[0]), tokens[1..]);
      TokenSaysAxis(tokens[0]);
      i := if later >= 0 then later + 1 else if IsNumber(tokens[0]) then -1 else 0;
      assert forall j :: 0 < j < |tokens| ==> tokens[j] == tokens[1..][j - 1];
    }
  }

  /** The axis a value binds: that of its last token that is no number, or none at all, with sign zero. */
  lemma ValueSaysAxis(value: string) returns (i: int)
    ensures var tokens := Tokens(value, ',');
            && -1 <= i < |tokens| && (forall j :: i < j < |tokens| ==> IsNumber(tokens[j]))
            && (i >= 0 ==> !IsNumber(tokens[i]) && SaysAxis(tokens[i], BindingOf(value).analog))
            && (i < 0 ==> BindingOf(value).analog.sign == 0 && BindingOf(value).analog.bind == 0)
  {
    i := TokensSayAxis(NO_BINDING, Tokens(value, ','));
  }

  /** A signed axis name by itself binds that axis, with that sign, and no pin. */
  lemma SignedAxisBinds(sign: char, name: string, a: AxisId)
    requires (sign == '-' || sign == '+') && a > 0 && Lower(name) == AXIS_NAMES[a]
    ensures BindingOf([sign] + name) == Binding(Pins(0, 0), 0, AnalogConfig(if sign == '-' then -1 else 1, a))
  {
    var value := [sign] + name;
    NoCommas(a, name);
    TokensRead(value, ',', "");
    assert value[0] == sign && value[1..] == name && !IsDigit(sign) && sign in value;
    assert !IsNumber(value);
    assert "-" <= value <==> sign == '-';
    assert "+" <= value <==> sign == '+';
    AxisNameFound(a, name);
    assert BindTokens(NO_BINDING, [value]) == BindTokens(BindToken(NO_BINDING, value), []);
  }

  lemma NoCommas(a: AxisId, name: string)
    requires Lower(name) == AXIS_NAMES[a]
    ensures ',' !in name
  {
    AxisNamesPlain(a);
    assert forall i :: 0 <= i < |name| ==> Lower(name)[i] == LowerChar(name[i]) && Lower(name)[i] in Lower(name);
  }

  lemma AxisNamesPlain(a: AxisId)
    ensures ',' !in AXIS_NAMES[a]
  {
  }
}
