/**
 The controller configuration and what one INI line does to it.  Every key but
 `simulate_...` overwrites fields of its own; a `simulate_...` line takes the next
 free combo slot.
 */
module Config {
  import opened CNumbers
  import opened Chars
  import opened Sequences
  import VidPid

  const BUTTONS: nat := 27
  const AXES: nat := 11
  const MAX_PINS: nat := 36
  const MAX_COMBOS: nat := 16
  const COLORS: nat := 4

  /** Index 0 is no button. */
  type Button = b: nat | b < BUTTONS
  type RealButton = b: nat | 0 < b < BUTTONS witness 1
  /** Index 0 is no axis. */
  type AxisId = a: nat | a < AXES

  datatype AnalogConfig = AnalogConfig(sign: int, bind: AxisId)

  datatype Combo = Combo(simulated: Button, first: Button, second: Button)

  const NO_COMBO := Combo(0, 0, 0)

  datatype Pins = Pins(first: nat, second: nat)

  datatype ControllerConfig = ControllerConfig(
    driver: string, profile: string,
    inputMaxPacketSize: nat, outputMaxPacketSize: nat, controllerType: nat,
    deadzone: seq<nat>, factor: seq<nat>,
    pins: seq<Pins>, analogUsed: bool, analog: seq<AnalogConfig>,
    combos: seq<Combo>, colors: seq<nat>) {

    predicate WellFormed() {
      && |deadzone| == AXES && |factor| == AXES
      && |pins| == BUTTONS && |analog| == BUTTONS
      && |combos| == MAX_COMBOS && |colors| == COLORS
    }
  }

  // ---------------------------------------------------------------- words

  function LowerChar(c: char): char {
    if 'A' <= c <= 'Z' then (c as int + 32) as char else c
  }

  function Lower(s: string): (r: string)
    ensures |r| == |s| && forall i :: 0 <= i < |s| ==> r[i] == LowerChar(s[i])
  {
    seq(|s|, i requires 0 <= i < |s| => LowerChar(s[i]))
  }

  predicate IsDigit(c: char) {
    '0' <= c <= '9'
  }

  predicate IsNumber(s: string) {
    s != "" && forall c :: c in s ==> IsDigit(c)
  }

  /** The number the digits at the start of s spell, on top of acc. */
  function Decimal(s: string, acc: nat): nat {
    if s == "" || !IsDigit(s[0]) then acc else Decimal(s[1..], acc * 10 + (s[0] as int - '0' as int))
  }

  /** An int, as atoi makes it of a long. */
  function Atoi(s: string): int {
    ToInt32(Saturate(Spelled(s)))
  }

  /** A sign and digits, behind blanks. */
  function Spelled(s: string): int {
    if s != "" && IsSpace(s[0]) then Spelled(s[1..])
    else if s != "" && s[0] == '-' then 0 - Decimal(s[1..], 0)
    else if s != "" && s[0] == '+' then Decimal(s[1..], 0)
    else Decimal(s, 0)
  }

  /** The pieces between delimiters, empty ones left out. */
  function Tokens(s: string, delimiter: char): seq<string>
    decreases |s|
  {
    if s == "" then []
    else
      var n := FirstIndex(s, delimiter);
      (if n == 0 then [] else [s[..n]]) + (if n == |s| then [] else Tokens(s[n + 1..], delimiter))
  }

  const BUTTON_NAMES: seq<string> := [
    "", "x", "a", "b", "y",
    "lstick_click", "lstick_left", "lstick_right", "lstick_up", "lstick_down",
    "rstick_click", "rstick_left", "rstick_right", "rstick_up", "rstick_down",
    "l", "r", "zl", "zr", "minus", "plus",
    "dpad_up", "dpad_right", "dpad_down", "dpad_left", "capture", "home"]

  const AXIS_NAMES: seq<string> := ["none", "x", "y", "z", "rz", "rx", "ry", "slider", "dial", "brake", "accelerator"]

  const TYPE_NAMES: seq<string> := [
    "", "pro", "prowithbattery", "tarragon", "snes", "pokeballplus", "gamecube",
    "3rdpartypro", "n64", "sega", "nes", "famicom"]

  const COLOR_KEYS: seq<string> := ["color_body", "color_buttons", "color_leftgrip", "color_rightgrip"]

  /** The index of a name in a table, 0 if it is not there. */
  function Lookup(names: seq<string>, name: string): (i: nat)
    ensures i < |names| || i == 0
  {
    var i := FirstIndex(names, Lower(name));
    if i < |names| then i else 0
  }

  function ButtonOf(name: string): Button {
    assert |BUTTON_NAMES| == BUTTONS;
    Lookup(BUTTON_NAMES, name)
  }

  function AxisOf(name: string): AxisId {
    assert |AXIS_NAMES| == AXES;
    Lookup(AXIS_NAMES, name)
  }

  // ---------------------------------------------------------------- keys

  datatype Key = Ignored | ButtonKey(b: RealButton) | Driver | Profile | InputSize | OutputSize | Type
               | Simulate(b: RealButton) | Deadzone(a: AxisId) | Factor(a: AxisId) | Color(i: nat)

  /** The axes that have a deadzone and a factor key. */
  predicate Tunable(a: AxisId) {
    0 < a < 9
  }

  function After(prefix: string, name: string): string {
    if prefix <= name then name[|prefix|..] else ""
  }

  const WORDS: seq<string> := ["driver", "profile", "input_max_packet_size", "output_max_packet_size", "controller_type"]

  const WORD_KEYS: seq<Key> := [Driver, Profile, InputSize, OutputSize, Type]

  const SIMULATE: string := "simulate_"
  const DEADZONE: string := "deadzone_"
  const FACTOR: string := "factor_"

  /** name is in lower case. */
  function KeyOf(name: string): Key {
    if ButtonOf(name) != 0 then ButtonKey(ButtonOf(name)) else WordKey(name)
  }

  /** What is no button's name: a word of its own, or one with a prefix. */
  function WordKey(name: string): Key {
    var i := FirstIndex(WORDS, name);
    if i < |WORDS| && i < |WORD_KEYS| then WORD_KEYS[i] else PrefixedKey(name)
  }

  function PrefixedKey(name: string): Key {
    if SIMULATE <= name then
      var b := ButtonOf(name[|SIMULATE|..]);
      if b != 0 then Simulate(b) else Ignored
    else if Tunable(AxisOf(After(DEADZONE, name))) then Deadzone(AxisOf(After(DEADZONE, name)))
    else if Tunable(AxisOf(After(FACTOR, name))) then Factor(AxisOf(After(FACTOR, name)))
    else if name in COLOR_KEYS then Color(FirstIndex(COLOR_KEYS, name))
    else Ignored
  }

  // ---------------------------------------------------------------- values

  datatype Binding = Binding(pins: Pins, count: nat, analog: AnalogConfig)

  const NO_BINDING := Binding(Pins(0, 0), 0, AnalogConfig(0, 0))

  function AnalogOf(token: string): AnalogConfig {
    AnalogConfig(if "-" <= token then -1 else 1,
                 AxisOf(if "-" <= token || "+" <= token then token[1..] else token))
  }

  /**
   A number below the limit is the next pin if there is room, cut to a byte;
   anything else is the axis, known or not.
   */
  function BindToken(b: Binding, token: string): Binding {
    if IsNumber(token) then
      if b.count < 2 && Atoi(token) < MAX_PINS then
        var pin := ToByte(Atoi(token));
        b.(pins := if b.count == 0 then Pins(pin, b.pins.second) else Pins(b.pins.first, pin), count := b.count + 1)
      else b
    else b.(analog := AnalogOf(token))
  }

  function BindTokens(b: Binding, tokens: seq<string>): Binding
    decreases |tokens|
  {
    if tokens == [] then b else BindTokens(BindToken(b, tokens[0]), tokens[1..])
  }

  function BindingOf(value: string): Binding {
    BindTokens(NO_BINDING, Tokens(value, ','))
  }

  function ComboOf(b: Button, value: string): Combo {
    var keys := Tokens(value, '+');
    Combo(b, if |keys| > 0 then ButtonOf(keys[0]) else 0, if |keys| > 1 then ButtonOf(keys[1]) else 0)
  }

  /** Eight hexadecimal digits, or six with full alpha; a number sign may come first. */
  function ColorOf(value: string): nat {
    var digits := if value != "" && value[0] == '#' then value[1..] else value;
    if |digits| == 8 then ToU32(VidPid.Strtol(digits))
    else if |digits| == 6 then ToU32(VidPid.Strtol(digits) * 0x100) + 0xFF
    else 0xFF
  }

  /** The table after a combo took the first free slot, if there is one. */
  function AddCombo(combos: seq<Combo>, c: Combo): (r: seq<Combo>)
    ensures |r| == |combos|
  {
    var i := FirstFree(combos);
    if i < |combos| then combos[i := c] else combos
  }

  function FirstFree(combos: seq<Combo>): (i: nat)
    ensures i <= |combos| && (i < |combos| ==> combos[i].simulated == 0)
    ensures forall j :: 0 <= j < i ==> combos[j].simulated != 0
  {
    if combos == [] || combos[0].simulated == 0 then 0 else 1 + FirstFree(combos[1..])
  }

  // ---------------------------------------------------------------- one line

  function Apply(cfg: ControllerConfig, key: Key, value: string): (r: ControllerConfig)
    requires cfg.WellFormed()
    ensures r.WellFormed()
  {
    match key
    case Ignored => cfg
    case ButtonKey(b) =>
      var binding := BindingOf(value);
      cfg.(analogUsed := true, pins := cfg.pins[b := binding.pins], analog := cfg.analog[b := binding.analog])
    case Driver => cfg.(driver := Lower(value))
    case Profile => cfg.(profile := Lower(value))
    case InputSize => cfg.(inputMaxPacketSize := ToU32(Atoi(value)))
    case OutputSize => cfg.(outputMaxPacketSize := ToU32(Atoi(value)))
    case Type => cfg.(controllerType := Lookup(TYPE_NAMES, value))
    case Simulate(b) => cfg.(combos := AddCombo(cfg.combos, ComboOf(b, value)))
    case Deadzone(a) => cfg.(deadzone := cfg.deadzone[a := ToByte(Atoi(value))])
    case Factor(a) => cfg.(factor := cfg.factor[a := ToByte(Atoi(value))])
    case Color(i) => if i < COLORS then cfg.(colors := cfg.colors[i := ColorOf(value)]) else cfg
  }

  // ---------------------------------------------------------------- fields and the keys that overwrite them

  datatype Field = FDriver | FProfile | FInputSize | FOutputSize | FType | FDeadzone(a: AxisId) | FFactor(a: AxisId)
                 | FPins(b: Button) | FAnalogUsed | FAnalog(b: Button) | FColor(i: nat)

  datatype Content = Text(s: string) | Number(n: int) | Both(pins: Pins) | Axis(analog: AnalogConfig) | Flag(on: bool)

  /** Everything but the combos. */
  function Get(cfg: ControllerConfig, f: Field): Content
    requires cfg.WellFormed()
  {
    match f
    case FDriver => Text(cfg.driver)
    case FProfile => Text(cfg.profile)
    case FInputSize => Number(cfg.inputMaxPacketSize)
    case FOutputSize => Number(cfg.outputMaxPacketSize)
    case FType => Number(cfg.controllerType)
    case FDeadzone(a) => Number(cfg.deadzone[a])
    case FFactor(a) => Number(cfg.factor[a])
    case FPins(b) => Both(cfg.pins[b])
    case FAnalogUsed => Flag(cfg.analogUsed)
    case FAnalog(b) => Axis(cfg.analog[b])
    case FColor(i) => Number(if i < COLORS then cfg.colors[i] else 0)
  }

  /** The fields a key sets, and to what; the value alone decides. */
  function Writes(key: Key, value: string): map<Field, Content> {
    match key
    case Ignored => map[]
    case ButtonKey(b) =>
      map[FAnalogUsed := Flag(true), FPins(b) := Both(BindingOf(value).pins), FAnalog(b) := Axis(BindingOf(value).analog)]
    case Driver => map[FDriver := Text(Lower(value))]
    case Profile => map[FProfile := Text(Lower(value))]
    case InputSize => map[FInputSize := Number(ToU32(Atoi(value)))]
    case OutputSize => map[FOutputSize := Number(ToU32(Atoi(value)))]
    case Type => map[FType := Number(Lookup(TYPE_NAMES, value))]
    case Simulate(_) => map[]
    case Deadzone(a) => map[FDeadzone(a) := Number(ToByte(Atoi(value)))]
    case Factor(a) => map[FFactor(a) := Number(ToByte(Atoi(value)))]
    case Color(i) => if i < COLORS then map[FColor(i) := Number(ColorOf(value))] else map[]
  }

  function Over(cfg: ControllerConfig, w: map<Field, Content>, f: Field): Content
    requires cfg.WellFormed()
  {
    if f in w then w[f] else Get(cfg, f)
  }

  lemma ApplyWrites(cfg: ControllerConfig, key: Key, value: string, f: Field)
    requires cfg.WellFormed()
    ensures Get(Apply(cfg, key, value), f) == Over(cfg, Writes(key, value), f)
  {
    if key.ButtonKey? {
      ButtonWrites(cfg, key.b, value, f);
    }
  }

  lemma ButtonWrites(cfg: ControllerConfig, b: RealButton, value: string, f: Field)
    requires cfg.WellFormed()
    ensures Get(Apply(cfg, ButtonKey(b), value), f) == Over(cfg, Writes(ButtonKey(b), value), f)
  {
  }

  // ---------------------------------------------------------------- what every line keeps

  /** Used combo slots come first, and a free one is empty. */
  ghost predicate Prefixed(combos: seq<Combo>) {
    forall i, j :: 0 <= i <= j < |combos| && combos[i].simulated == 0 ==> combos[j] == NO_COMBO
  }

  function Used(combos: seq<Combo>): (r: seq<Combo>)
    ensures |r| <= |combos|
  {
    combos[..FirstFree(combos)]
  }

  predicate InRange(pins: Pins) {
    pins.first < MAX_PINS && pins.second < MAX_PINS
  }

  ghost predicate PinsInRange(cfg: ControllerConfig) {
    forall b :: 0 <= b < |cfg.pins| ==> InRange(cfg.pins[b])
  }

  /** The number tokens that pass for pins. */
  function PinTokens(tokens: seq<string>): (r: seq<string>)
    ensures forall i :: 0 <= i < |r| ==> Atoi(r[i]) < MAX_PINS
  {
    if tokens == [] then []
    else (if IsNumber(tokens[0]) && Atoi(tokens[0]) < MAX_PINS then [tokens[0]] else []) + PinTokens(tokens[1..])
  }

  /** The pins after as many of the tokens as there is room for. */
  function Filled(b: Binding, pins: seq<string>): Pins {
    if pins == [] || b.count >= 2 then b.pins
    else if b.count == 1 then Pins(b.pins.first, ToByte(Atoi(pins[0])))
    else Pins(ToByte(Atoi(pins[0])), if |pins| > 1 then ToByte(Atoi(pins[1])) else b.pins.second)
  }

  lemma {:induction false} TokensFill(b: Binding, tokens: seq<string>)
    ensures BindTokens(b, tokens).pins == Filled(b, PinTokens(tokens))
    decreases |tokens|
  {
    if tokens != [] {
      TokensFill(BindToken(b, tokens[0]), tokens[1..]);
      var rest := PinTokens(tokens[1..]);
      if IsNumber(tokens[0]) && Atoi(tokens[0]) < MAX_PINS {
        assert PinTokens(tokens) == [tokens[0]] + rest;
      } else {
        assert PinTokens(tokens) == rest;
      }
    }
  }

  /** A token of digits whose int is negative, so that it passes for a pin, and whose low byte is no pin. */
  predicate Misread(token: string) {
    Atoi(token) < 0 && ToByte(Atoi(token)) >= MAX_PINS
  }

  /** In terms of the number that the digits spell, which a long may not hold either. */
  lemma MisreadExactly(token: string)
    requires IsNumber(token)
    ensures var n := Saturate(Decimal(token, 0));
            Misread(token) <==> n % 0x1_0000_0000 >= 0x8000_0000 && n % 0x100 >= MAX_PINS
  {
    PinOfNumber(token, Decimal(token, 0));
    LowByte(Saturate(Decimal(token, 0)));
  }

  lemma PinOfToken(token: string)
    requires Atoi(token) < MAX_PINS
    ensures ToByte(Atoi(token)) < MAX_PINS <==> !Misread(token)
  {
  }

  /** The first two are not misread. */
  predicate FirstTwoReadWell(pins: seq<string>) {
    (|pins| > 0 ==> !Misread(pins[0])) && (|pins| > 1 ==> !Misread(pins[1]))
  }

  /** The two tokens that become the pins are not misread. */
  predicate PinsReadWell(value: string) {
    FirstTwoReadWell(PinTokens(Tokens(value, ',')))
  }

  lemma FilledInRange(b: Binding, pins: seq<string>)
    requires b == NO_BINDING && forall i :: 0 <= i < |pins| ==> Atoi(pins[i]) < MAX_PINS
    ensures InRange(Filled(b, pins)) <==> FirstTwoReadWell(pins)
  {
    if |pins| > 0 {
      PinOfToken(pins[0]);
    }
    if |pins| > 1 {
      PinOfToken(pins[1]);
    }
  }

  /** A line's pins are real ones exactly when none of its first two pin tokens is misread. */
  lemma BindingInRange(value: string)
    ensures InRange(BindingOf(value).pins) <==> PinsReadWell(value)
  {
    TokensFill(NO_BINDING, Tokens(value, ','));
    FilledInRange(NO_BINDING, PinTokens(Tokens(value, ',')));
  }

  lemma {:induction false} DigitsOn(s: string, i: nat, acc: nat, d: nat)
    requires i < |s| && d < 10 && s[i] as int == '0' as int + d
    ensures Decimal(s[i..], acc) == Decimal(s[i + 1..], 10 * acc + d)
  {
    assert s[i..][0] == s[i] && s[i..][1..] == s[i + 1..];
  }

  lemma FiveDigits(s: string, i: nat, acc: nat, a: nat, b: nat, c: nat, d: nat, e: nat)
    requires i + 5 <= |s| && a < 10 && b < 10 && c < 10 && d < 10 && e < 10
    requires s[i] as int == '0' as int + a && s[i + 1] as int == '0' as int + b && s[i + 2] as int == '0' as int + c
    requires s[i + 3] as int == '0' as int + d && s[i + 4] as int == '0' as int + e
    ensures Decimal(s[i..], acc)
            == Decimal(s[i + 5..], 100000 * acc + 10000 * a + 1000 * b + 100 * c + 10 * d + e)
  {
    var n1 := 10 * acc + a;
    var n2 := 10 * n1 + b;
    var n3 := 10 * n2 + c;
    var n4 := 10 * n3 + d;
    DigitsOn(s, i, acc, a);
    DigitsOn(s, i + 1, n1, b);
    DigitsOn(s, i + 2, n2, c);
    DigitsOn(s, i + 3, n3, d);
    DigitsOn(s, i + 4, n4, e);
  }

  lemma HugeNumber(s: string)
    requires s == "4294967295"
    ensures Decimal(s, 0) == 4294967295
  {
    FiveDigits(s, 0, 0, 4, 2, 9, 4, 9);
    FiveDigits(s, 5, 42949, 6, 7, 2, 9, 5);
    assert s[0..] == s && s[10..] == "";
  }

  lemma PinOfNumber(token: string, n: int)
    requires IsNumber(token) && Decimal(token, 0) == n
    ensures Atoi(token) == ToInt32(Saturate(n))
  {
    assert token[0] in token;
  }

  /** The number 4294967295 passes for a pin, and the byte stored is 255. */
  lemma HugePinIsStored(s: string)
    requires s == "4294967295"
    ensures Misread(s) && BindToken(NO_BINDING, s).pins == Pins(255, 0)
  {
    HugeNumber(s);
    PinOfNumber(s, 4294967295);
  }

  function Capped(combos: seq<Combo>): seq<Combo> {
    if |combos| <= MAX_COMBOS then combos else combos[..MAX_COMBOS]
  }

  lemma AddComboAppends(combos: seq<Combo>, c: Combo)
    requires Prefixed(combos) && |combos| == MAX_COMBOS && c.simulated != 0
    ensures Prefixed(AddCombo(combos, c)) && Used(AddCombo(combos, c)) == Capped(Used(combos) + [c])
  {
    var i := FirstFree(combos);
    var r := AddCombo(combos, c);
    if i < |combos| {
      assert FirstFree(r) == i + 1 by {
        assert i + 1 < |r| ==> r[i + 1] == NO_COMBO;
      }
      assert r[..i + 1] == combos[..i] + [c];
    }
  }

  /** Used combo slots form a prefix, whatever lines come, and a combo goes behind those in use. */
  lemma ApplyKeeps(cfg: ControllerConfig, key: Key, value: string)
    requires cfg.WellFormed() && Prefixed(cfg.combos)
    ensures var r := Apply(cfg, key, value);
            && Prefixed(r.combos)
            && Used(r.combos) == if key.Simulate? then Capped(Used(cfg.combos) + [ComboOf(key.b, value)]) else Used(cfg.combos)
  {
    match key
    case Simulate(b) => AddComboAppends(cfg.combos, ComboOf(b, value));
    case _ =>
  }

  /** A line keeps the stored pins real exactly when it binds no misread token to a button. */
  lemma ApplyKeepsPins(cfg: ControllerConfig, key: Key, value: string)
    requires cfg.WellFormed() && PinsInRange(cfg)
    ensures PinsInRange(Apply(cfg, key, value)) <==> (key.ButtonKey? ==> PinsReadWell(value))
  {
    match key
    case ButtonKey(b) =>
      BindingInRange(value);
      assert Apply(cfg, key, value).pins[b] == BindingOf(value).pins;
    case _ =>
  }
}
