/**
 The sticks of a Switch Pro controller: four 12-bit readings per report, and for each
 the range it has been seen to cover, which decides what full deflection means.
 */
module SwitchPad {
  import opened Axis
  import opened Bits
  import opened Endpoint

  const REPORT_SIZE: nat := 12
  const REPORT_ID: Byte := 0x30
  const CENTER: int := 2000

  /** Left x, left y, right x, right y. */
  const CHANNELS: nat := 4

  datatype Calibration = Calibration(min: nat, max: nat)

  const FACTORY := Calibration(600, 3400)

  predicate Accepted(report: seq<Byte>) {
    |report| >= REPORT_SIZE && report[0] == REPORT_ID
  }

  /** The three bytes of the left or of the right stick. */
  function StickBytes(report: seq<Byte>, stick: nat): (bytes: seq<Byte>)
    requires Accepted(report) && stick < 2
    ensures |bytes| == 3
  {
    report[6 + 3 * stick..9 + 3 * stick]
  }

  function Sample(report: seq<Byte>, c: nat): nat
    requires Accepted(report) && c < CHANNELS
  {
    Value(BitsFrom(StickBytes(report, c / 2), 12 * (c % 2), 12))
  }

  function Widen(cal: Calibration, sample: nat): Calibration {
    Calibration(if sample < cal.min then sample else cal.min, if sample > cal.max then sample else cal.max)
  }

  ghost predicate Sound(cal: Calibration) {
    cal.min <= 600 && cal.max >= 3400
  }

  /** Up is the positive direction of y, and the pad counts downwards. */
  function Reading(cal: Calibration, sample: nat, c: nat): real
    requires Sound(cal)
  {
    var value := NormalizeAround(sample, cal.min, cal.max, CENTER);
    if c % 2 == 0 then value else -1.0 * value
  }

  /** Bits of a stretch of a buffer are bits of the buffer. */
  lemma BitsWithin(buffer: seq<Byte>, first: nat, last: nat, offset: nat, length: nat)
    requires first <= last <= |buffer| && offset + length <= 8 * (last - first)
    ensures BitsFrom(buffer[first..last], offset, length) == BitsFrom(buffer, 8 * first + offset, length)
  {
    forall i | 0 <= i < length
      ensures BitsFrom(buffer[first..last], offset, length)[i] == BitsFrom(buffer, 8 * first + offset, length)[i]
    {
      assert (8 * first + offset + i) / 8 == first + (offset + i) / 8;
      assert (8 * first + offset + i) % 8 == (offset + i) % 8;
      assert buffer[first..last][(offset + i) / 8] == buffer[first + (offset + i) / 8];
      assert BitsFrom(buffer[first..last], offset, length)[i] == Bit(buffer[first..last], offset + i);
      assert BitsFrom(buffer, 8 * first + offset, length)[i] == Bit(buffer, 8 * first + offset + i);
    }
  }

  class SwitchController {
    var leftX: Calibration
    var leftY: Calibration
    var rightX: Calibration
    var rightY: Calibration

    function Calibrations(): (cals: seq<Calibration>)
      reads this
    {
      [leftX, leftY, rightX, rightY]
    }

    ghost predicate Valid()
      reads this
    {
      Sound(leftX) && Sound(leftY) && Sound(rightX) && Sound(rightY)
    }

    constructor ()
      ensures Valid() && Calibrations() == [FACTORY, FACTORY, FACTORY, FACTORY]
    {
      leftX, leftY, rightX, rightY := FACTORY, FACTORY, FACTORY, FACTORY;
    }

    method ReadSample(buffer: array<Byte>, size: nat, c: nat) returns (sample: nat)
      requires size <= buffer.Length && Accepted(buffer[..size]) && c < CHANNELS
      ensures sample == Sample(buffer[..size], c)
    {
      sample := ReadBitsLE(buffer, 8 * (6 + 3 * (c / 2)) + 12 * (c % 2), 12);
      assert StickBytes(buffer[..size], c / 2) == buffer[..][6 + 3 * (c / 2)..9 + 3 * (c / 2)];
      BitsWithin(buffer[..], 6 + 3 * (c / 2), 9 + 3 * (c / 2), 12 * (c % 2), 12);
    }

    /** The axes come out as x, y, z and rz. */
    method ParseData(buffer: array<Byte>, size: nat) returns (status: Status, axes: seq<real>)
      requires Valid() && size <= buffer.Length
      modifies this
      ensures Valid()
      ensures status == if size < REPORT_SIZE then UnexpectedData
                        else if buffer[0] != REPORT_ID then NothingTodo else Success
      ensures status == Success <==> Accepted(buffer[..size])
      ensures Calibrations() == Next(old(Calibrations()), buffer[..size])
      ensures status == Success ==>
                && |axes| == CHANNELS
                && forall c :: 0 <= c < CHANNELS ==>
                     && Sound(Calibrations()[c])
                     && axes[c] == Reading(Calibrations()[c], Sample(buffer[..size], c), c)
    {
      axes := [];
      if size < REPORT_SIZE {
        return UnexpectedData, axes;
      }
      if buffer[0] != REPORT_ID {
        return NothingTodo, axes;
      }
      var lx := ReadSample(buffer, size, 0);
      var ly := ReadSample(buffer, size, 1);
      var rx := ReadSample(buffer, size, 2);
      var ry := ReadSample(buffer, size, 3);
      leftX, leftY := Widen(leftX, lx), Widen(leftY, ly);
      rightX, rightY := Widen(rightX, rx), Widen(rightY, ry);
      axes := [Reading(leftX, lx, 0), Reading(leftY, ly, 1), Reading(rightX, rx, 2), Reading(rightY, ry, 3)];
      status := Success;
    }
  }

  // ---------------------------------------------------------------- all the reports of a session

  /** The calibrations after one more report. */
  function Next(cals: seq<Calibration>, report: seq<Byte>): (r: seq<Calibration>)
    requires |cals| == CHANNELS
    ensures |r| == CHANNELS
  {
    if Accepted(report)
    then [Widen(cals[0], Sample(report, 0)), Widen(cals[1], Sample(report, 1)),
          Widen(cals[2], Sample(report, 2)), Widen(cals[3], Sample(report, 3))]
    else cals
  }

  function Session(reports: seq<seq<Byte>>): (cals: seq<Calibration>)
    ensures |cals| == CHANNELS
    decreases |reports|
  {
    if reports == [] then [FACTORY, FACTORY, FACTORY, FACTORY]
    else Next(Session(reports[..|reports| - 1]), reports[|reports| - 1])
  }

  /** The samples a channel has shown. */
  function Seen(reports: seq<seq<Byte>>, c: nat): set<nat>
    requires c < CHANNELS
  {
    set i | 0 <= i < |reports| && Accepted(reports[i]) :: Sample(reports[i], c)
  }

  /** cal is the least range that covers the factory range and these samples. */
  ghost predicate Covers(cal: Calibration, samples: set<nat>) {
    && Sound(cal) && (forall s :: s in samples ==> cal.min <= s <= cal.max)
    && cal.min in samples + {600} && cal.max in samples + {3400}
  }

  lemma SeenGrows(reports: seq<seq<Byte>>, c: nat)
    requires reports != [] && c < CHANNELS
    ensures var last := reports[|reports| - 1];
            Seen(reports, c) == Seen(reports[..|reports| - 1], c) + if Accepted(last) then {Sample(last, c)} else {}
  {
    var n := |reports| - 1;
    forall i | 0 <= i < n
      ensures reports[..n][i] == reports[i]
    {
    }
    forall s | s in Seen(reports[..n], c)
      ensures s in Seen(reports, c)
    {
      var i :| 0 <= i < n && Accepted(reports[..n][i]) && s == Sample(reports[..n][i], c);
      assert Accepted(reports[i]) && s == Sample(reports[i], c);
    }
    forall s | s in Seen(reports, c)
      ensures s in Seen(reports[..n], c) || (Accepted(reports[n]) && s == Sample(reports[n], c))
    {
      var i :| 0 <= i < |reports| && Accepted(reports[i]) && s == Sample(reports[i], c);
      assert i < n ==> reports[..n][i] == reports[i];
    }
  }

  lemma WidenCovers(cal: Calibration, samples: set<nat>, s: nat)
    requires Covers(cal, samples)
    ensures Covers(Widen(cal, s), samples + {s})
  {
  }

  lemma NextAt(cals: seq<Calibration>, report: seq<Byte>, c: nat)
    requires |cals| == CHANNELS && c < CHANNELS
    ensures Next(cals, report)[c] == if Accepted(report) then Widen(cals[c], Sample(report, c)) else cals[c]
  {
  }

  /** After any reports, each calibration is the range of the samples seen and the factory range. */
  lemma {:induction false} CalibrationIsRange(reports: seq<seq<Byte>>, c: nat)
    requires c < CHANNELS
    ensures Covers(Session(reports)[c], Seen(reports, c))
    decreases |reports|
  {
    if reports == [] {
      assert Seen(reports, c) == {};
    } else {
      var n := |reports| - 1;
      CalibrationIsRange(reports[..n], c);
      SeenGrows(reports, c);
      NextAt(Session(reports[..n]), reports[n], c);
      if Accepted(reports[n]) {
        WidenCovers(Session(reports[..n])[c], Seen(reports[..n], c), Sample(reports[n], c));
      } else {
        assert Seen(reports, c) == Seen(reports[..n], c);
      }
    }
  }

  /** The division is by something, the clamp has nothing to do, and a new extreme is full deflection. */
  lemma ReadingIsExact(reports: seq<seq<Byte>>, last: seq<Byte>, c: nat)
    requires c < CHANNELS && Accepted(last)
    ensures var cal := Session(reports + [last])[c];
            var sample := Sample(last, c);
            && Sound(cal) && cal.min < CENTER < cal.max
            && NormalizeAround(sample, cal.min, cal.max, CENTER) == Fraction(sample, cal.min, cal.max, CENTER)
            && -1.0 <= Reading(cal, sample, c) <= 1.0
            && (sample == cal.max ==> NormalizeAround(sample, cal.min, cal.max, CENTER) == 1.0)
            && (sample == cal.min ==> NormalizeAround(sample, cal.min, cal.max, CENTER) == -1.0)
  {
    var cal, sample := Session(reports + [last])[c], Sample(last, c);
    LastIsCovered(reports, last, c);
    ClampIsIdle(sample, cal.min, cal.max, CENTER);
    FractionSides(sample, cal.min, cal.max, CENTER);
  }

  lemma SamplesOfStick(report: seq<Byte>, stick: nat)
    requires Accepted(report) && stick < 2
    ensures Sample(report, 2 * stick) == Value(BitsFrom(StickBytes(report, stick), 0, 12))
    ensures Sample(report, 2 * stick + 1) == Value(BitsFrom(StickBytes(report, stick), 12, 12))
  {
    assert (2 * stick + 1) / 2 == stick && (2 * stick + 1) % 2 == 1;
  }

  /** What a report packed into the left stick's bytes is what is sampled. */
  lemma PackedSample(report: seq<Byte>, stick: nat, x: nat, y: nat)
    requires Accepted(report) && stick < 2 && x < 4096 && y < 4096 && StickBytes(report, stick) == Packed(x, y)
    ensures Sample(report, 2 * stick) == x && Sample(report, 2 * stick + 1) == y
  {
    SamplesOfStick(report, stick);
    PackedIsRead(x, y);
  }

  /** Twelve bits, the high ones in the low half of the second byte. */
  function LowerField(a: nat, b: nat): nat {
    a + 256 * (b % 16)
  }

  /** Twelve bits, the low ones in the high half of the first byte. */
  function UpperField(b: nat, c: nat): nat {
    b / 16 + 16 * c
  }

  lemma BytesArePacked(a: Byte, b: Byte, c: Byte)
    ensures LowerField(a, b) < 4096 && UpperField(b, c) < 4096
    ensures Packed(LowerField(a, b), UpperField(b, c)) == [a, b, c]
  {
  }

  /** Which bytes a channel is sampled from. */
  lemma SampledBytes(report: seq<Byte>)
    requires Accepted(report)
    ensures Sample(report, 0) == LowerField(report[6], report[7]) && Sample(report, 1) == UpperField(report[7], report[8])
    ensures Sample(report, 2) == LowerField(report[9], report[10]) && Sample(report, 3) == UpperField(report[10], report[11])
  {
    BytesArePacked(report[6], report[7], report[8]);
    BytesArePacked(report[9], report[10], report[11]);
    assert StickBytes(report, 0) == [report[6], report[7], report[8]];
    assert StickBytes(report, 1) == [report[9], report[10], report[11]];
    PackedSample(report, 0, LowerField(report[6], report[7]), UpperField(report[7], report[8]));
    PackedSample(report, 1, LowerField(report[9], report[10]), UpperField(report[10], report[11]));
  }

  /** A reading is the part of the way from 2000 to the end on the sample's side; x and z grow with the sample, y and rz fall. */
  ghost predicate PartOfWay(cal: Calibration, sample: nat, c: nat, reading: real) {
    reading * (if sample < 2000 then 2000 - cal.min else cal.max - 2000) as real
    == if c == 0 || c == 2 then (sample - 2000) as real else (2000 - sample) as real
  }

  lemma ReadingTurns(cal: Calibration, sample: nat, c: nat)
    requires c < CHANNELS && Sound(cal) && cal.min <= sample <= cal.max
    ensures PartOfWay(cal, sample, c, Reading(cal, sample, c))
  {
    var side := if sample < 2000 then 2000 - cal.min else cal.max - 2000;
    ClampIsIdle(sample, cal.min, cal.max, CENTER);
    FractionOfSide(sample, cal.min, cal.max, CENTER);
    Negated(NormalizeAround(sample, cal.min, cal.max, CENTER), side);
  }

  lemma Negated(value: real, side: int)
    ensures (-1.0 * value) * side as real == -(value * side as real)
  {
  }

  /** Every axis handed out is such a part of the way, whatever came before. */
  lemma LastReadingTurns(reports: seq<seq<Byte>>, last: seq<Byte>, c: nat)
    requires c < CHANNELS && Accepted(last)
    ensures var cal, sample := Session(reports + [last])[c], Sample(last, c);
            Sound(cal) && PartOfWay(cal, sample, c, Reading(cal, sample, c))
  {
    LastIsCovered(reports, last, c);
    ReadingTurns(Session(reports + [last])[c], Sample(last, c), c);
  }

  lemma LastIsCovered(reports: seq<seq<Byte>>, last: seq<Byte>, c: nat)
    requires c < CHANNELS && Accepted(last)
    ensures var cal := Session(reports + [last])[c];
            Sound(cal) && cal.min <= Sample(last, c) <= cal.max
  {
    var all := reports + [last];
    CalibrationIsRange(all, c);
    assert all[|reports|] == last;
    assert Sample(last, c) in Seen(all, c);
  }
}
