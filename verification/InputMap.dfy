/**
 Mapping a raw report to the buttons and sticks of a virtual pad, as the
 configuration says: dead zones, stick halves, pins, buttons driven by an axis, and
 combos that stand for another button.
 */
module InputMap {
  import opened Config
  import opened Axis

  const MAX_BUTTONS: nat := 36
  const STICK_AXES: nat := 4

  const CENTRED: seq<real> := [0.0, 0.0, 0.0, 0.0]

  /** A direction of a stick: its button, the stick axis it moves, and which way. */
  datatype Direction = Direction(button: Button, axis: nat, sign: real)

  /** Axes 0 and 1 are the left stick's x and y, 2 and 3 the right one's. */
  const DIRECTIONS: seq<Direction> := [
    Direction(6, 0, -1.0), Direction(7, 0, 1.0), Direction(8, 1, 1.0), Direction(9, 1, -1.0),
    Direction(11, 2, -1.0), Direction(12, 2, 1.0), Direction(13, 3, 1.0), Direction(14, 3, -1.0)]

  const PLAIN_BUTTONS: seq<Button> := [1, 2, 3, 4, 5, 10, 15, 16, 17, 18, 19, 20, 25, 26, 21, 23, 22, 24]

  ghost predicate Usable(cfg: ControllerConfig) {
    && cfg.WellFormed() && PinsInRange(cfg)
    && forall a :: 0 <= a < AXES ==> cfg.deadzone[a] < 100
  }

  // ---------------------------------------------------------------- what is computed

  function CutAxis(cfg: ControllerConfig, raw: seq<real>, a: nat): real
    requires Usable(cfg) && |raw| == AXES && a < AXES
  {
    if a == 0 then 0.0 else ApplyDeadzone(cfg.deadzone[a], raw[a])
  }

  predicate Pinned(cfg: ControllerConfig, raw: seq<bool>, b: Button)
    requires Usable(cfg) && |raw| == MAX_BUTTONS
  {
    raw[cfg.pins[b].first] || raw[cfg.pins[b].second]
  }

  /** A reading with a sign, scaled, and capped on one side only. */
  function Cap(sign: real, value: real, gain: real): real {
    if (sign * value) * gain > 1.0 then 1.0 else (sign * value) * gain
  }

  /** A direction's deflection, before it is told from nothing. */
  function Deflection(cfg: ControllerConfig, analog: seq<real>, b: Button): real
    requires Usable(cfg) && |analog| == AXES
  {
    var binding := cfg.analog[b];
    Cap(binding.sign as real, analog[binding.bind], Gain(cfg.factor[binding.bind]))
  }

  /** A stick axis pushed one way, or left as it was. */
  function Push(sign: real, value: real, before: real): real {
    if value > 0.0 then sign * value else before
  }

  /** Stick axis `axis` after one direction. */
  function Steer(cfg: ControllerConfig, raw: seq<bool>, analog: seq<real>, d: Direction, before: real): real
    requires Usable(cfg) && |raw| == MAX_BUTTONS && |analog| == AXES
  {
    if Pinned(cfg, raw, d.button) then d.sign * 1.0 else Push(d.sign, Deflection(cfg, analog, d.button), before)
  }

  /** The stick axes after the first n directions. */
  function Sticks(cfg: ControllerConfig, raw: seq<bool>, analog: seq<real>, start: seq<real>, n: nat): (axes: seq<real>)
    requires Usable(cfg) && |raw| == MAX_BUTTONS && |analog| == AXES && |start| == STICK_AXES && n <= |DIRECTIONS|
    ensures |axes| == STICK_AXES
  {
    if n == 0 then start
    else
      var axes := Sticks(cfg, raw, analog, start, n - 1);
      var d := DIRECTIONS[n - 1];
      axes[d.axis := Steer(cfg, raw, analog, d, axes[d.axis])]
  }

  predicate Driven(cfg: ControllerConfig, analog: seq<real>, b: Button)
    requires Usable(cfg) && |analog| == AXES
  {
    cfg.analog[b].sign as real * analog[cfg.analog[b].bind] > 0.0
  }

  /** Whether a button is pressed, combos aside: the stick directions never are. */
  predicate Presses(cfg: ControllerConfig, raw: seq<bool>, analog: seq<real>, b: nat)
    requires Usable(cfg) && |raw| == MAX_BUTTONS && |analog| == AXES
  {
    b in PLAIN_BUTTONS && (Pinned(cfg, raw, b) || (cfg.analogUsed && Driven(cfg, analog, b)))
  }

  function Pressed(cfg: ControllerConfig, raw: seq<bool>, analog: seq<real>): (pressed: seq<bool>)
    requires Usable(cfg) && |raw| == MAX_BUTTONS && |analog| == AXES
    ensures |pressed| == MAX_BUTTONS
  {
    seq(MAX_BUTTONS, b requires 0 <= b < MAX_BUTTONS => Presses(cfg, raw, analog, b))
  }

  function RunCombo(buttons: seq<bool>, c: Combo): (r: seq<bool>)
    requires |buttons| == MAX_BUTTONS
    ensures |r| == MAX_BUTTONS
  {
    if buttons[c.first] && buttons[c.second]
    then buttons[c.simulated := true][c.first := false][c.second := false]
    else buttons
  }

  /** Up to the first empty slot. */
  function RunCombos(buttons: seq<bool>, combos: seq<Combo>): (r: seq<bool>)
    requires |buttons| == MAX_BUTTONS
    ensures |r| == MAX_BUTTONS
    decreases |combos|
  {
    if combos == [] || combos[0].simulated == 0 then buttons
    else RunCombos(RunCombo(buttons, combos[0]), combos[1..])
  }

  // ---------------------------------------------------------------- how it is computed

  method CutDeadzones(cfg: ControllerConfig, analog: array<real>)
    requires Usable(cfg) && analog.Length == AXES
    modifies analog
    ensures analog[0] == 0.0 && forall a :: 1 <= a < AXES ==> analog[a] == ApplyDeadzone(cfg.deadzone[a], old(analog[a]))
    ensures forall a :: 0 <= a < AXES ==> analog[a] == CutAxis(cfg, old(analog[..]), a)
  {
    ghost var raw := analog[..];
    analog[0] := 0.0;
    for a := 1 to AXES
      invariant forall b :: 0 <= b < a ==> analog[b] == CutAxis(cfg, raw, b)
      invariant forall b :: a <= b < AXES ==> analog[b] == raw[b]
    {
      analog[a] := ApplyDeadzone(cfg.deadzone[a], analog[a]);
    }
  }

  method CapDeflection(sign: real, reading: real, gain: real) returns (value: real)
    ensures value == Cap(sign, reading, gain)
  {
    value := (sign * reading) * gain;
    if value > 1.0 {
      value := 1.0;
    }
  }

  method SteerStick(cfg: ControllerConfig, d: Direction, raw: array<bool>, analog: array<real>, axes: array<real>)
    requires Usable(cfg) && raw.Length == MAX_BUTTONS && analog.Length == AXES && axes.Length == STICK_AXES
    requires axes != analog && d.axis < STICK_AXES
    modifies axes
    ensures axes[..] == old(axes[..])[d.axis := Steer(cfg, raw[..], analog[..], d, old(axes[d.axis]))]
  {
    var binding := cfg.analog[d.button];
    var value := CapDeflection(binding.sign as real, analog[binding.bind], Gain(cfg.factor[binding.bind]));
    ghost var before := axes[..];
    assert value == Deflection(cfg, analog[..], d.button) by {
      assert analog[binding.bind] == analog[..][binding.bind];
    }
    var pushed := d.sign * value;
    assert Push(d.sign, value, before[d.axis]) == if value > 0.0 then pushed else before[d.axis];
    if raw[cfg.pins[d.button].first] || raw[cfg.pins[d.button].second] {
      axes[d.axis] := d.sign * 1.0;
    } else if value > 0.0 {
      axes[d.axis] := pushed;
    }
    assert axes[..] == before[d.axis := axes[d.axis]];
  }

  method SteerSticks(cfg: ControllerConfig, raw: array<bool>, analog: array<real>, axes: array<real>)
    requires Usable(cfg) && raw.Length == MAX_BUTTONS && analog.Length == AXES && axes.Length == STICK_AXES
    requires axes != analog
    modifies axes
    ensures axes[..] == Sticks(cfg, raw[..], analog[..], old(axes[..]), |DIRECTIONS|)
  {
    for i := 0 to |DIRECTIONS|
      invariant axes[..] == Sticks(cfg, raw[..], analog[..], old(axes[..]), i)
    {
      DirectionsOfAxis(i);
      SteerStick(cfg, DIRECTIONS[i], raw, analog, axes);
    }
  }

  method PressPinned(cfg: ControllerConfig, raw: array<bool>, buttons: array<bool>)
    requires Usable(cfg) && raw.Length == MAX_BUTTONS && buttons.Length == MAX_BUTTONS && buttons != raw
    modifies buttons
    ensures forall b :: 0 <= b < MAX_BUTTONS ==>
              buttons[b] == if b in PLAIN_BUTTONS then Pinned(cfg, raw[..], b) else old(buttons[b])
  {
    for i := 0 to |PLAIN_BUTTONS|
      invariant forall b :: 0 <= b < MAX_BUTTONS ==>
                  buttons[b] == if b in PLAIN_BUTTONS[..i] then Pinned(cfg, raw[..], b) else old(buttons[b])
    {
      var b := PLAIN_BUTTONS[i];
      buttons[b] := raw[cfg.pins[b].first] || raw[cfg.pins[b].second];
      assert PLAIN_BUTTONS[..i + 1] == PLAIN_BUTTONS[..i] + [b];
    }
    assert PLAIN_BUTTONS[..|PLAIN_BUTTONS|] == PLAIN_BUTTONS;
  }

  method PressDriven(cfg: ControllerConfig, analog: array<real>, buttons: array<bool>)
    requires Usable(cfg) && analog.Length == AXES && buttons.Length == MAX_BUTTONS
    modifies buttons
    ensures forall b :: 0 <= b < MAX_BUTTONS ==>
              buttons[b] == (old(buttons[b]) || (b in PLAIN_BUTTONS && Driven(cfg, analog[..], b)))
  {
    for i := 0 to |PLAIN_BUTTONS|
      invariant forall b :: 0 <= b < MAX_BUTTONS ==>
                  buttons[b] == (old(buttons[b]) || (b in PLAIN_BUTTONS[..i] && Driven(cfg, analog[..], b)))
    {
      var b := PLAIN_BUTTONS[i];
      buttons[b] := buttons[b] || cfg.analog[b].sign as real * analog[cfg.analog[b].bind] > 0.0;
      assert PLAIN_BUTTONS[..i + 1] == PLAIN_BUTTONS[..i] + [b];
    }
    assert PLAIN_BUTTONS[..|PLAIN_BUTTONS|] == PLAIN_BUTTONS;
  }

  method SimulateCombos(cfg: ControllerConfig, buttons: array<bool>)
    requires cfg.WellFormed() && buttons.Length == MAX_BUTTONS
    modifies buttons
    ensures buttons[..] == RunCombos(old(buttons[..]), cfg.combos)
  {
    for i := 0 to MAX_COMBOS
      invariant RunCombos(old(buttons[..]), cfg.combos) == RunCombos(buttons[..], cfg.combos[i..])
    {
      var combo := cfg.combos[i];
      if combo.simulated == 0 {
        break;
      }
      if buttons[combo.first] && buttons[combo.second] {
        buttons[combo.simulated] := true;
        buttons[combo.first] := false;
        buttons[combo.second] := false;
      }
    }
  }

  method MapRawInputToNormalized(cfg: ControllerConfig, raw: array<bool>, analog: array<real>,
                                 buttons: array<bool>, axes: array<real>)
    requires Usable(cfg) && raw.Length == MAX_BUTTONS && analog.Length == AXES
    requires buttons.Length == MAX_BUTTONS && axes.Length == STICK_AXES
    requires buttons != raw && axes != analog
    requires forall i :: 0 <= i < STICK_AXES ==> axes[i] == 0.0
    requires forall b :: 0 <= b < MAX_BUTTONS ==> !buttons[b]
    modifies analog, buttons, axes
    ensures forall a :: 0 <= a < AXES ==> analog[a] == CutAxis(cfg, old(analog[..]), a)
    ensures axes[..] == Sticks(cfg, raw[..], analog[..], CENTRED, |DIRECTIONS|)
    ensures buttons[..] == RunCombos(Pressed(cfg, raw[..], analog[..]), cfg.combos)
  {
    CutDeadzones(cfg, analog);
    assert axes[..] == CENTRED;
    SteerSticks(cfg, raw, analog, axes);
    PressPinned(cfg, raw, buttons);
    if cfg.analogUsed {
      PressDriven(cfg, analog, buttons);
    }
    assert buttons[..] == Pressed(cfg, raw[..], analog[..]);
    SimulateCombos(cfg, buttons);
  }

  // ---------------------------------------------------------------- the two halves of an axis

  /** The two directions of stick axis k stand next to each other. */
  function Lower(k: nat): Direction
    requires k < STICK_AXES
  {
    DIRECTIONS[2 * k]
  }

  function Upper(k: nat): Direction
    requires k < STICK_AXES
  {
    DIRECTIONS[2 * k + 1]
  }

  lemma DirectionsOfAxis(i: nat)
    requires i < |DIRECTIONS|
    ensures DIRECTIONS[i].axis == i / 2 && (DIRECTIONS[i].sign == 1.0 || DIRECTIONS[i].sign == -1.0)
    ensures i % 2 == 0 ==> DIRECTIONS[i].sign == -DIRECTIONS[i + 1].sign
  {
  }

  lemma {:induction false} OtherAxesStay(cfg: ControllerConfig, raw: seq<bool>, analog: seq<real>, start: seq<real>,
                                         m: nat, n: nat, k: nat)
    requires Usable(cfg) && |raw| == MAX_BUTTONS && |analog| == AXES && |start| == STICK_AXES
    requires m <= n <= |DIRECTIONS| && k < STICK_AXES
    requires forall i :: m <= i < n ==> i / 2 != k
    ensures Sticks(cfg, raw, analog, start, n)[k] == Sticks(cfg, raw, analog, start, m)[k]
    decreases n - m
  {
    if m < n {
      OtherAxesStay(cfg, raw, analog, start, m, n - 1, k);
      DirectionsOfAxis(n - 1);
    }
  }

  /** One axis drives both directions of stick axis k, with the same sense (1) or the other way round (-1), and no pin does. */
  ghost predicate Opposed(cfg: ControllerConfig, raw: seq<bool>, k: nat, a: AxisId, sense: int)
    requires Usable(cfg) && |raw| == MAX_BUTTONS && k < STICK_AXES
  {
    && (sense == 1 || sense == -1)
    && !Pinned(cfg, raw, Lower(k).button) && !Pinned(cfg, raw, Upper(k).button)
    && cfg.analog[Lower(k).button] == AnalogConfig(if Lower(k).sign < 0.0 then -sense else sense, a)
    && cfg.analog[Upper(k).button] == AnalogConfig(if Upper(k).sign < 0.0 then -sense else sense, a)
  }

  /** A stick axis is set by its two directions, the second one last. */
  lemma AxisIsTwoSteers(cfg: ControllerConfig, raw: seq<bool>, analog: seq<real>, k: nat)
    requires Usable(cfg) && |raw| == MAX_BUTTONS && |analog| == AXES && k < STICK_AXES
    ensures Sticks(cfg, raw, analog, CENTRED, |DIRECTIONS|)[k]
            == Steer(cfg, raw, analog, Upper(k), Steer(cfg, raw, analog, Lower(k), 0.0))
  {
    OtherAxesStay(cfg, raw, analog, CENTRED, 0, 2 * k, k);
    OtherAxesStay(cfg, raw, analog, CENTRED, 2 * k + 2, |DIRECTIONS|, k);
    DirectionsOfAxis(2 * k);
    DirectionsOfAxis(2 * k + 1);
    var lower := Steer(cfg, raw, analog, Lower(k), 0.0);
    assert Sticks(cfg, raw, analog, CENTRED, 2 * k + 1)[k] == lower;
    assert Sticks(cfg, raw, analog, CENTRED, 2 * k + 2)[k] == Steer(cfg, raw, analog, Upper(k), lower);
  }

  /**
   A pressed pin of the second direction moves the stick all the way, whatever the
   first direction says; one of the first does unless the second direction's axis
   pushes, which then decides.
   */
  lemma PinsMoveFully(cfg: ControllerConfig, raw: seq<bool>, analog: seq<real>, k: nat)
    requires Usable(cfg) && |raw| == MAX_BUTTONS && |analog| == AXES && k < STICK_AXES
    requires Pinned(cfg, raw, Lower(k).button) || Pinned(cfg, raw, Upper(k).button)
    ensures Sticks(cfg, raw, analog, CENTRED, |DIRECTIONS|)[k]
            == if Pinned(cfg, raw, Upper(k).button) then Upper(k).sign
               else if Deflection(cfg, analog, Upper(k).button) > 0.0 then
                 Upper(k).sign * Deflection(cfg, analog, Upper(k).button)
               else -Upper(k).sign
  {
    AxisIsTwoSteers(cfg, raw, analog, k);
    DirectionsOfAxis(2 * k);
  }

  lemma PushInRange(sign: real, value: real, before: real)
    requires (sign == 1.0 || sign == -1.0) && value <= 1.0 && -1.0 <= before <= 1.0
    ensures -1.0 <= Push(sign, value, before) <= 1.0
  {
  }

  lemma SteerInRange(cfg: ControllerConfig, raw: seq<bool>, analog: seq<real>, d: Direction, before: real)
    requires Usable(cfg) && |raw| == MAX_BUTTONS && |analog| == AXES
    requires (d.sign == 1.0 || d.sign == -1.0) && -1.0 <= before <= 1.0
    ensures -1.0 <= Steer(cfg, raw, analog, d, before) <= 1.0
  {
    PushInRange(d.sign, Deflection(cfg, analog, d.button), before);
  }

  /** Whatever is bound to it and whatever the report says, a stick stays within its range. */
  lemma AnyStickInRange(cfg: ControllerConfig, raw: seq<bool>, analog: seq<real>, k: nat)
    requires Usable(cfg) && |raw| == MAX_BUTTONS && |analog| == AXES && k < STICK_AXES
    ensures -1.0 <= Sticks(cfg, raw, analog, CENTRED, |DIRECTIONS|)[k] <= 1.0
    ensures JOYSTICK_MIN <= Position(cfg, raw, analog, k) <= JOYSTICK_MAX
  {
    AnyAxisInRange(cfg, raw, analog, k);
    AnyAxisInRange(cfg, raw, CutAxes(cfg, analog), k);
    ConvertInRange(k, Sticks(cfg, raw, CutAxes(cfg, analog), CENTRED, |DIRECTIONS|)[k]);
  }

  lemma AnyAxisInRange(cfg: ControllerConfig, raw: seq<bool>, analog: seq<real>, k: nat)
    requires Usable(cfg) && |raw| == MAX_BUTTONS && |analog| == AXES && k < STICK_AXES
    ensures -1.0 <= Sticks(cfg, raw, analog, CENTRED, |DIRECTIONS|)[k] <= 1.0
  {
    AxisIsTwoSteers(cfg, raw, analog, k);
    DirectionsOfAxis(2 * k);
    SteerInRange(cfg, raw, analog, Lower(k), 0.0);
    SteerInRange(cfg, raw, analog, Upper(k), Steer(cfg, raw, analog, Lower(k), 0.0));
  }

  lemma ConvertInRange(k: nat, value: real)
    requires -1.0 <= value <= 1.0
    ensures JOYSTICK_MIN <= Convert(k, value) <= JOYSTICK_MAX
  {
    ConvertIsScaling(value);
    TruncateMonotone(-32767.0, 32767.0 * value);
    TruncateMonotone(32767.0 * value, 32767.0);
  }

  /** The halves of an axis put together again are the scaled axis, capped at both ends. */
  lemma HalvesReassemble(cfg: ControllerConfig, raw: seq<bool>, analog: seq<real>, k: nat, a: AxisId, sense: int)
    requires Usable(cfg) && |raw| == MAX_BUTTONS && |analog| == AXES && k < STICK_AXES && Opposed(cfg, raw, k, a, sense)
    ensures Sticks(cfg, raw, analog, CENTRED, |DIRECTIONS|)[k] == Turned(sense, Gained(analog[a], Gain(cfg.factor[a])))
  {
    AxisIsTwoSteers(cfg, raw, analog, k);
    TwoSteers(cfg, raw, analog, k, a, sense);
  }

  function Turned(sense: int, value: real): real {
    if sense == 1 then value else -value
  }

  lemma TwoSteers(cfg: ControllerConfig, raw: seq<bool>, analog: seq<real>, k: nat, a: AxisId, sense: int)
    requires Usable(cfg) && |raw| == MAX_BUTTONS && |analog| == AXES && k < STICK_AXES && Opposed(cfg, raw, k, a, sense)
    ensures Steer(cfg, raw, analog, Upper(k), Steer(cfg, raw, analog, Lower(k), 0.0))
            == Turned(sense, Gained(analog[a], Gain(cfg.factor[a])))
  {
    DirectionsOfAxis(2 * k);
    TwoPushes(Lower(k).sign, cfg.analog[Lower(k).button].sign as real, analog[a], Gain(cfg.factor[a]));
  }

  lemma Signed(sign: real, v: real, g: real)
    requires sign == 1.0 || sign == -1.0
    ensures (sign * v) * g == if sign == 1.0 then v * g else -(v * g)
  {
  }

  lemma TwoPushes(push: real, sign: real, v: real, g: real)
    requires (push == 1.0 || push == -1.0) && (sign == 1.0 || sign == -1.0)
    ensures Push(-push, Cap(-sign, v, g), Push(push, Cap(sign, v, g), 0.0))
            == if push == sign then Gained(v, g) else -Gained(v, g)
  {
    Signed(sign, v, g);
    Signed(-sign, v, g);
  }

  function CutAxes(cfg: ControllerConfig, analog: seq<real>): (cut: seq<real>)
    requires Usable(cfg) && |analog| == AXES
    ensures |cut| == AXES
  {
    seq(AXES, a requires 0 <= a < AXES => CutAxis(cfg, analog, a))
  }

  /** Stick axes 0 and 2 are horizontal, 1 and 3 vertical. */
  function Convert(k: nat, value: real): int {
    if k % 2 == 0 then ConvertX(value) else ConvertY(value)
  }

  /** The position of a Switch stick axis for a report. */
  function Position(cfg: ControllerConfig, raw: seq<bool>, analog: seq<real>, k: nat): int
    requires Usable(cfg) && |raw| == MAX_BUTTONS && |analog| == AXES && k < STICK_AXES
  {
    Convert(k, Sticks(cfg, raw, CutAxes(cfg, analog), CENTRED, |DIRECTIONS|)[k])
  }

  /** A position seen the way in which it grows with the reading. */
  function Facing(k: nat, sense: int, position: int): int {
    if (k % 2 == 0) == (sense == 1) then position else -position
  }

  lemma TruncateIsOdd(r: real)
    ensures Truncate(-r) == -Truncate(r)
  {
  }

  lemma ConvertTurned(k: nat, sense: int, value: real)
    requires sense == 1 || sense == -1
    ensures Convert(k, Turned(sense, value)) == Facing(k, sense, ConvertX(value))
  {
    ConvertIsScaling(value);
    ConvertIsScaling(-value);
    TruncateIsOdd(32767.0 * value);
  }

  lemma CutAxisAt(cfg: ControllerConfig, analog: seq<real>, a: AxisId)
    requires Usable(cfg) && |analog| == AXES && a > 0
    ensures CutAxes(cfg, analog)[a] == ApplyDeadzone(cfg.deadzone[a], analog[a])
  {
  }

  /** From report to stick: the reading's axis value, turned the way the axis is bound. */
  lemma ReadingDrivesStick(cfg: ControllerConfig, raw: seq<bool>, analog: seq<real>, k: nat, a: AxisId, sense: int,
                           reading: int, min: int, max: int)
    requires Usable(cfg) && |raw| == MAX_BUTTONS && |analog| == AXES && k < STICK_AXES
    requires a > 0 && Opposed(cfg, raw, k, a, sense)
    requires min < Half(max + min) < max && analog[a] == Normalize(reading, min, max)
    ensures Facing(k, sense, Position(cfg, raw, analog, k))
            == ConvertX(AxisValue(reading, min, max, cfg.deadzone[a], cfg.factor[a]))
  {
    HalvesReassemble(cfg, raw, CutAxes(cfg, analog), k, a, sense);
    CutAxisAt(cfg, analog, a);
    ConvertTurned(k, sense, Gained(CutAxes(cfg, analog)[a], Gain(cfg.factor[a])));
  }

  /** Where one reading is no less than another, so is the stick, whatever else the two reports say. */
  lemma StickNeverTurnsBack(cfg: ControllerConfig, raw: seq<bool>, analog: seq<real>, raw': seq<bool>, analog': seq<real>,
                            k: nat, a: AxisId, sense: int, v: int, w: int, min: int, max: int)
    requires Usable(cfg) && |raw| == |raw'| == MAX_BUTTONS && |analog| == |analog'| == AXES && k < STICK_AXES
    requires a > 0 && Opposed(cfg, raw, k, a, sense) && Opposed(cfg, raw', k, a, sense)
    requires min < Half(max + min) < max && v <= w
    requires analog[a] == Normalize(v, min, max) && analog'[a] == Normalize(w, min, max)
    ensures Facing(k, sense, Position(cfg, raw, analog, k)) <= Facing(k, sense, Position(cfg, raw', analog', k))
  {
    ReadingDrivesStick(cfg, raw, analog, k, a, sense, v, min, max);
    ReadingDrivesStick(cfg, raw', analog', k, a, sense, w, min, max);
    StickFollowsReading(v, w, min, max, cfg.deadzone[a], cfg.factor[a]);
  }

  /** The stick stays in range and gets to its ends exactly when the factor is at least 100. */
  lemma StickRange(cfg: ControllerConfig, raw: seq<bool>, analog: seq<real>, k: nat, a: AxisId, sense: int,
                   reading: int, min: int, max: int)
    requires Usable(cfg) && |raw| == MAX_BUTTONS && |analog| == AXES && k < STICK_AXES
    requires a > 0 && Opposed(cfg, raw, k, a, sense)
    requires min < Half(max + min) < max && analog[a] == Normalize(reading, min, max)
    ensures var position := Facing(k, sense, Position(cfg, raw, analog, k));
            && JOYSTICK_MIN <= position <= JOYSTICK_MAX
            && (reading == max ==> (position == JOYSTICK_MAX <==> cfg.factor[a] >= 100))
            && (reading == min ==> (position == JOYSTICK_MIN <==> cfg.factor[a] >= 100))
  {
    ReadingDrivesStick(cfg, raw, analog, k, a, sense, reading, min, max);
    StickInRange(reading, min, max, cfg.deadzone[a], cfg.factor[a]);
    EndsReachEnds(min, max, cfg.deadzone[a], cfg.factor[a]);
  }

  /** Over the dead zone the stick rests in the middle. */
  lemma StickRests(cfg: ControllerConfig, raw: seq<bool>, analog: seq<real>, k: nat, a: AxisId, sense: int,
                   reading: int, min: int, max: int)
    requires Usable(cfg) && |raw| == MAX_BUTTONS && |analog| == AXES && k < STICK_AXES
    requires a > 0 && Opposed(cfg, raw, k, a, sense)
    requires min < Half(max + min) < max && analog[a] == Normalize(reading, min, max)
    requires Abs(analog[a]) < cfg.deadzone[a] as real / 100.0
    ensures Position(cfg, raw, analog, k) == 0
  {
    ReadingDrivesStick(cfg, raw, analog, k, a, sense, reading, min, max);
    DeadzoneCentres(reading, min, max, cfg.deadzone[a], cfg.factor[a]);
  }

  // ---------------------------------------------------------------- buttons

  /** The button is a direction of a stick. */
  predicate IsDirection(b: nat) {
    exists i :: 0 <= i < |DIRECTIONS| && DIRECTIONS[i].button == b
  }

  lemma DirectionButtons(i: nat)
    requires i < |DIRECTIONS|
    ensures DIRECTIONS[i].button == [6, 7, 8, 9, 11, 12, 13, 14][i]
  {
  }

  /** The directions are the buttons between each stick's click and the next click or shoulder button. */
  lemma DirectionRange(b: nat)
    ensures IsDirection(b) <==> 6 <= b <= 9 || 11 <= b <= 14
  {
    if IsDirection(b) {
      var i :| 0 <= i < |DIRECTIONS| && DIRECTIONS[i].button == b;
      DirectionButtons(i);
    }
    if 6 <= b <= 9 {
      DirectionButtons(b - 6);
    }
    if 11 <= b <= 14 {
      DirectionButtons(b - 7);
    }
  }

  /** Every real button is a plain one or a direction of a stick, never both. */
  lemma PlainOrDirection(b: nat)
    ensures b in PLAIN_BUTTONS <==> 0 < b < BUTTONS && !IsDirection(b)
  {
    DirectionRange(b);
  }

  /** An axis goes the way a button is bound to it: up with a plus sign, down with a minus sign. */
  predicate Goes(analog: seq<real>, binding: AnalogConfig)
    requires |analog| == AXES
  {
    if binding.sign > 0 then analog[binding.bind] > 0.0 else binding.sign < 0 && analog[binding.bind] < 0.0
  }

  lemma DrivenGoes(cfg: ControllerConfig, analog: seq<real>, b: Button)
    requires Usable(cfg) && |analog| == AXES
    ensures Driven(cfg, analog, b) <==> Goes(analog, cfg.analog[b])
  {
    SignOfProduct(cfg.analog[b].sign as real, analog[cfg.analog[b].bind]);
  }

  lemma SignOfProduct(sign: real, v: real)
    ensures sign * v > 0.0 <==> (sign > 0.0 && v > 0.0) || (sign < 0.0 && v < 0.0)
  {
  }

  /** A button is pressed exactly when one of its pins is, or when axes drive buttons and its axis goes its way. */
  lemma PressedExactly(cfg: ControllerConfig, raw: seq<bool>, analog: seq<real>, b: Button)
    requires Usable(cfg) && |raw| == MAX_BUTTONS && |analog| == AXES && b in PLAIN_BUTTONS
    ensures Pressed(cfg, raw, analog)[b]
            <==> (exists pin :: pin in {cfg.pins[b].first, cfg.pins[b].second} && raw[pin])
                 || (cfg.analogUsed && Goes(analog, cfg.analog[b]))
  {
    DrivenGoes(cfg, analog, b);
    PinnedExactly(cfg, raw, b);
  }

  lemma PinnedExactly(cfg: ControllerConfig, raw: seq<bool>, b: Button)
    requires Usable(cfg) && |raw| == MAX_BUTTONS
    ensures Pinned(cfg, raw, b) <==> exists pin :: pin in {cfg.pins[b].first, cfg.pins[b].second} && raw[pin]
  {
    if raw[cfg.pins[b].first] {
      assert cfg.pins[b].first in {cfg.pins[b].first, cfg.pins[b].second};
    }
    if raw[cfg.pins[b].second] {
      assert cfg.pins[b].second in {cfg.pins[b].first, cfg.pins[b].second};
    }
  }

  // ---------------------------------------------------------------- combos

  /**
   A combo whose two buttons are down lets go of both and presses the one it stands
   for, unless that is one of the two; any other combo changes nothing.
   */
  lemma ComboSwaps(buttons: seq<bool>, c: Combo, b: nat)
    requires |buttons| == MAX_BUTTONS && b < MAX_BUTTONS
    ensures var fires := buttons[c.first] && buttons[c.second];
            RunCombo(buttons, c)[b] <==>
            if fires then b != c.first && b != c.second && (b == c.simulated || buttons[b]) else buttons[b]
  {
  }

  /** Combos act one after the other, each on what those before it left. */
  lemma {:induction false} CombosInOrder(buttons: seq<bool>, combos: seq<Combo>, c: Combo)
    requires |buttons| == MAX_BUTTONS && c.simulated != 0
    requires forall i :: 0 <= i < |combos| ==> combos[i].simulated != 0
    ensures RunCombos(buttons, combos + [c]) == RunCombo(RunCombos(buttons, combos), c)
    decreases |combos|
  {
    if combos == [] {
      assert RunCombos(RunCombo(buttons, c), [c][1..]) == RunCombo(buttons, c);
    } else {
      assert (combos + [c])[0] == combos[0] && (combos + [c])[1..] == combos[1..] + [c];
      CombosInOrder(RunCombo(buttons, combos[0]), combos[1..], c);
    }
  }

  function Count(buttons: seq<bool>): nat {
    if buttons == [] then 0 else (if buttons[0] then 1 else 0) + Count(buttons[1..])
  }

  lemma {:induction false} CountUpdate(buttons: seq<bool>, i: nat, on: bool)
    requires i < |buttons|
    ensures Count(buttons[i := on]) == Count(buttons) - (if buttons[i] then 1 else 0) + (if on then 1 else 0)
  {
    if i == 0 {
      assert buttons[0 := on][1..] == buttons[1..];
    } else {
      assert buttons[i := on][1..] == buttons[1..][i - 1 := on];
      CountUpdate(buttons[1..], i - 1, on);
    }
  }

  lemma ComboPressesNoMore(buttons: seq<bool>, c: Combo)
    requires |buttons| == MAX_BUTTONS
    ensures Count(RunCombo(buttons, c)) <= Count(buttons)
  {
    if buttons[c.first] && buttons[c.second] {
      var one := buttons[c.simulated := true];
      var two := one[c.first := false];
      CountUpdate(buttons, c.simulated, true);
      CountUpdate(one, c.first, false);
      CountUpdate(two, c.second, false);
    }
  }

  /** Combos never press more buttons than they found pressed. */
  lemma {:induction false} CombosPressNoMore(buttons: seq<bool>, combos: seq<Combo>)
    requires |buttons| == MAX_BUTTONS
    ensures Count(RunCombos(buttons, combos)) <= Count(buttons)
    decreases |combos|
  {
    if combos != [] && combos[0].simulated != 0 {
      ComboPressesNoMore(buttons, combos[0]);
      CombosPressNoMore(RunCombo(buttons, combos[0]), combos[1..]);
    }
  }

  /** Where used slots come first, stopping at the first empty one leaves no combo out. */
  lemma {:induction false} NoComboIsSkipped(buttons: seq<bool>, combos: seq<Combo>)
    requires |buttons| == MAX_BUTTONS && Prefixed(combos)
    ensures RunCombos(buttons, combos) == RunAll(buttons, combos)
    decreases |combos|
  {
    if combos != [] {
      if combos[0].simulated == 0 {
        AllEmpty(buttons, combos);
      } else {
        assert Prefixed(combos[1..]);
        NoComboIsSkipped(RunCombo(buttons, combos[0]), combos[1..]);
      }
    }
  }

  /** Every used slot, wherever it stands. */
  function RunAll(buttons: seq<bool>, combos: seq<Combo>): (r: seq<bool>)
    requires |buttons| == MAX_BUTTONS
    ensures |r| == MAX_BUTTONS
    decreases |combos|
  {
    if combos == [] then buttons
    else RunAll(if combos[0].simulated == 0 then buttons else RunCombo(buttons, combos[0]), combos[1..])
  }

  lemma {:induction false} AllEmpty(buttons: seq<bool>, combos: seq<Combo>)
    requires |buttons| == MAX_BUTTONS && forall i :: 0 <= i < |combos| ==> combos[i].simulated == 0
    ensures RunAll(buttons, combos) == buttons
    decreases |combos|
  {
    if combos != [] {
      AllEmpty(buttons, combos[1..]);
    }
  }

  /** A combo with an unnamed button never fires: button 0 is never pressed. */
  lemma {:induction false} HalfComboNeverFires(buttons: seq<bool>, combos: seq<Combo>)
    requires |buttons| == MAX_BUTTONS && !buttons[0]
    ensures !RunCombos(buttons, combos)[0]
    ensures forall c: Combo :: c.first == 0 || c.second == 0 ==> RunCombo(buttons, c) == buttons
    decreases |combos|
  {
    if combos != [] && combos[0].simulated != 0 {
      HalfComboNeverFires(RunCombo(buttons, combos[0]), combos[1..]);
    }
  }
}
