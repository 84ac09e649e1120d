/**
 The GameCube adapter packs the state of four pads into one 37-byte packet.  The
 controller hands them out one per call and reads a new packet only when all four
 have gone.
 */
module WiiAdapter {
  import opened Endpoint
  import opened Sequences

  const PACKET_SIZE: nat := 37
  const REPORT_SIZE: nat := 9
  const WII_MAX_INPUTS: nat := 4
  const PACKET_TAG: Byte := 0x21
  const STATE_NORMAL: nat := 0x10
  const STATE_WAVEBIRD: nat := 0x20

  /** One read of the layer below: its status, the size it delivered, and the 37 bytes of the buffer after it. */
  datatype BaseRead = BaseRead(status: Status, size: nat, buffer: seq<Byte>) {
    predicate WellFormed() {
      |buffer| == PACKET_SIZE
    }

    predicate Accepted() {
      status == Success && |buffer| == PACKET_SIZE && buffer[0] == PACKET_TAG && size >= PACKET_SIZE
    }
  }

  /** The next of the four, and the packet they come from. */
  datatype Splitter = Splitter(phase: nat, held: seq<Byte>) {
    predicate WellFormed() {
      && phase < WII_MAX_INPUTS && |held| == PACKET_SIZE
      && (phase != 0 ==> held[0] == PACKET_TAG)
    }
  }

  datatype Emitted = Emitted(status: Status, idx: nat, report: seq<Byte>)

  function Part(packet: seq<Byte>, i: nat): (r: seq<Byte>)
    requires |packet| == PACKET_SIZE && i < WII_MAX_INPUTS
    ensures |r| == REPORT_SIZE
  {
    packet[1 + i * REPORT_SIZE..1 + (i + 1) * REPORT_SIZE]
  }

  /** One call; the read of the layer below is used only in phase 0. */
  function Step(s: Splitter, below: BaseRead): (r: (Splitter, Emitted))
    requires s.WellFormed() && below.WellFormed()
    ensures r.0.WellFormed()
  {
    if s.phase == 0 && below.status != Success then (Splitter(0, below.buffer), Emitted(below.status, 0, []))
    else if s.phase == 0 && !below.Accepted() then (Splitter(0, below.buffer), Emitted(UnexpectedData, 0, []))
    else
      var held := if s.phase == 0 then below.buffer else s.held;
      (Splitter((s.phase + 1) % WII_MAX_INPUTS, held), Emitted(Success, s.phase, Part(held, s.phase)))
  }

  class WiiController {
    var currentWiiControllerIdx: nat
    const buffer: array<Byte>
    const isConnected: array<bool>

    constructor ()
      ensures Valid() && currentWiiControllerIdx == 0 && fresh(buffer) && fresh(isConnected)
      ensures forall i :: 0 <= i < WII_MAX_INPUTS ==> !isConnected[i]
    {
      currentWiiControllerIdx := 0;
      buffer := new Byte[PACKET_SIZE](_ => 0);
      isConnected := new bool[WII_MAX_INPUTS](_ => false);
    }

    ghost predicate Valid()
      reads this, buffer
    {
      && buffer.Length == PACKET_SIZE && isConnected.Length == WII_MAX_INPUTS
      && Value().WellFormed()
    }

    ghost function Value(): Splitter
      reads this, buffer
    {
      Splitter(currentWiiControllerIdx, buffer[..])
    }

    /** The layer below fills this controller's buffer with the packet it read. */
    method ReadNextBuffer(out: array<Byte>, below: BaseRead) returns (status: Status, size: nat, inputIdx: nat)
      requires Valid() && below.WellFormed() && out.Length >= REPORT_SIZE && out != buffer
      modifies this, buffer, out
      ensures Valid()
      ensures var (s, emitted) := Step(old(Value()), below);
              && Value() == s && status == emitted.status
              && (status == Success ==> size == REPORT_SIZE && inputIdx == emitted.idx && out[..size] == emitted.report)
    {
      inputIdx, size := 0, 0;
      if currentWiiControllerIdx == 0 {
        CopyInto(buffer, below.buffer);
        assert buffer[..] == below.buffer;
        size := below.size;
        if below.status != Success {
          return below.status, size, inputIdx;
        }
        if buffer[0] != PACKET_TAG || size < PACKET_SIZE {
          return UnexpectedData, size, inputIdx;
        }
      }
      var start := 1 + currentWiiControllerIdx * REPORT_SIZE;
      CopyInto(out, buffer[start..start + REPORT_SIZE]);
      size := REPORT_SIZE;
      inputIdx := currentWiiControllerIdx;
      currentWiiControllerIdx := (currentWiiControllerIdx + 1) % WII_MAX_INPUTS;
      status := Success;
    }

    /** The part of parsing that tells which pads are plugged in. */
    method ParseConnection(report: array<Byte>, size: nat, inputIdx: nat) returns (status: Status)
      requires isConnected.Length == WII_MAX_INPUTS && inputIdx < WII_MAX_INPUTS && size <= report.Length
      modifies isConnected
      ensures size < REPORT_SIZE ==> status == UnexpectedData && isConnected[..] == old(isConnected[..])
      ensures size >= REPORT_SIZE ==>
                && isConnected[..] == old(isConnected[..])[inputIdx := Plugged(report[0])]
                && status == if Plugged(report[0]) then Success else NothingTodo
    {
      if size < REPORT_SIZE {
        return UnexpectedData;
      }
      isConnected[inputIdx] := (report[0] as bv8 & (STATE_NORMAL + STATE_WAVEBIRD) as bv8) != 0;
      PluggedIsMask(report[0]);
      status := if isConnected[inputIdx] then Success else NothingTodo;
    }
  }

  /** Bit 4 or bit 5 of the status byte is set. */
  predicate Plugged(status: Byte) {
    status / STATE_NORMAL % 2 == 1 || status / STATE_WAVEBIRD % 2 == 1
  }

  lemma PluggedIsMask(status: Byte)
    ensures (status as bv8 & (STATE_NORMAL + STATE_WAVEBIRD) as bv8) != 0 <==> Plugged(status)
  {
  }

  /** Only packets with tag 0x21 and all 37 bytes pass; a read that fails tells its own status, and neither starts a packet. */
  lemma FreshPacket(s: Splitter, below: BaseRead)
    requires s.WellFormed() && below.WellFormed() && s.phase == 0
    ensures var (s', emitted) := Step(s, below);
            && (emitted.status == Success <==> below.status == Success && below.buffer[0] == 0x21 && below.size >= 37)
            && (below.status != Success ==> emitted.status == below.status)
            && (below.status == Success && emitted.status != Success ==> emitted.status == UnexpectedData)
            && s'.held == below.buffer && s'.phase == (if emitted.status == Success then 1 else 0)
            && (emitted.status == Success ==> emitted.report == below.buffer[1..10])
  {
  }

  /** The other three are handed out of the packet held, in one call each, without reading. */
  lemma HeldPacket(s: Splitter, below: BaseRead)
    requires s.WellFormed() && below.WellFormed() && s.phase != 0
    ensures var (s', emitted) := Step(s, below);
            && emitted == Emitted(Success, s.phase, s.held[9 * s.phase + 1..9 * s.phase + 10])
            && s' == Splitter(if s.phase == 3 then 0 else s.phase + 1, s.held)
  {
  }

  /** A pad is there unless its status byte has neither of the bits 4 and 5. */
  lemma PluggedByRange(status: Byte)
    ensures Plugged(status) <==> status % 64 >= 16
  {
    var q, r := status / 16, status % 16;
    assert status == 16 * q + r && status / 32 == q / 2 && status % 64 == 16 * (q % 4) + r;
  }

  // ---------------------------------------------------------------- whole runs

  function End(s: Splitter, below: seq<BaseRead>): (s': Splitter)
    requires s.WellFormed() && forall b :: b in below ==> b.WellFormed()
    ensures s'.WellFormed()
    decreases |below|
  {
    if below == [] then s else End(Step(s, below[0]).0, below[1..])
  }

  /** The reports handed out, one behind the other. */
  function Out(s: Splitter, below: seq<BaseRead>): seq<Byte>
    requires s.WellFormed() && forall b :: b in below ==> b.WellFormed()
    decreases |below|
  {
    if below == [] then []
    else
      var (s', emitted) := Step(s, below[0]);
      Handed(emitted) + Out(s', below[1..])
  }

  /** The payloads of the packets that were read and accepted, one behind the other. */
  function Payloads(s: Splitter, below: seq<BaseRead>): seq<Byte>
    requires s.WellFormed() && forall b :: b in below ==> b.WellFormed()
    decreases |below|
  {
    if below == [] then []
    else
      Brought(s, below[0]) + Payloads(Step(s, below[0]).0, below[1..])
  }

  /** What of the held packet has not gone yet. */
  function Remaining(s: Splitter): seq<Byte>
    requires s.WellFormed()
  {
    if s.phase == 0 then [] else s.held[1 + s.phase * REPORT_SIZE..]
  }

  /** A packet from pad p's part on is that part and the rest. */
  lemma PartThenRest(packet: seq<Byte>, p: nat)
    requires |packet| == PACKET_SIZE && p < WII_MAX_INPUTS
    ensures packet[1 + p * REPORT_SIZE..] == Part(packet, p) + packet[1 + (p + 1) * REPORT_SIZE..]
    ensures p == WII_MAX_INPUTS - 1 ==> packet[1 + (p + 1) * REPORT_SIZE..] == []
  {
  }

  /** What a call brings in: the payload of a packet it accepts. */
  function Brought(s: Splitter, below: BaseRead): seq<Byte>
    requires below.WellFormed()
  {
    if s.phase == 0 && below.Accepted() then below.buffer[1..] else []
  }

  /** What a call hands out. */
  function Handed(emitted: Emitted): seq<Byte> {
    if emitted.status == Success then emitted.report else []
  }

  lemma HeldPartGoes(s: Splitter, below: BaseRead)
    requires s.WellFormed() && below.WellFormed() && s.phase != 0
    ensures Remaining(s) == Handed(Step(s, below).1) + Remaining(Step(s, below).0)
  {
    var (s', emitted) := Step(s, below);
    HeldPacket(s, below);
    PartThenRest(s.held, s.phase);
    assert Handed(emitted) == Part(s.held, s.phase);
    assert Remaining(s') == s.held[1 + (s.phase + 1) * REPORT_SIZE..];
  }

  lemma FirstPartGoes(s: Splitter, below: BaseRead)
    requires s.WellFormed() && below.WellFormed() && s.phase == 0 && below.Accepted()
    ensures below.buffer[1..] == Handed(Step(s, below).1) + Remaining(Step(s, below).0)
  {
    PartThenRest(below.buffer, 0);
  }

  lemma StepConserves(s: Splitter, below: BaseRead)
    requires s.WellFormed() && below.WellFormed()
    ensures Remaining(s) + Brought(s, below) == Handed(Step(s, below).1) + Remaining(Step(s, below).0)
  {
    if s.phase != 0 {
      HeldPartGoes(s, below);
    } else if below.Accepted() {
      FirstPartGoes(s, below);
    }
  }

  /**
   Whatever reads fail or bring something else, the payloads of the accepted
   packets are handed out complete and in order, in pieces of nine bytes.
   */
  lemma {:induction false} NothingIsLost(s: Splitter, below: seq<BaseRead>)
    requires s.WellFormed() && forall b :: b in below ==> b.WellFormed()
    ensures Remaining(s) + Payloads(s, below) == Out(s, below) + Remaining(End(s, below))
    decreases |below|
  {
    if below != [] {
      var (s', emitted) := Step(s, below[0]);
      StepConserves(s, below[0]);
      NothingIsLost(s', below[1..]);
      Splice(Remaining(s), Brought(s, below[0]), Handed(emitted), Remaining(s'),
             Payloads(s', below[1..]), Out(s', below[1..]), Remaining(End(s, below)));
    }
  }

  /** The input indices of the reports handed out. */
  function Indices(s: Splitter, below: seq<BaseRead>): seq<nat>
    requires s.WellFormed() && forall b :: b in below ==> b.WellFormed()
    decreases |below|
  {
    if below == [] then []
    else
      var (s', emitted) := Step(s, below[0]);
      (if emitted.status == Success then [emitted.idx] else []) + Indices(s', below[1..])
  }

  /** The k-th report is for input (start + k) mod 4, whatever failed in between. */
  lemma {:induction false} IndicesCycle(s: Splitter, below: seq<BaseRead>, k: nat)
    requires s.WellFormed() && forall b :: b in below ==> b.WellFormed()
    requires k < |Indices(s, below)|
    ensures Indices(s, below)[k] == (s.phase + k) % WII_MAX_INPUTS
    decreases |below|
  {
    var (s', emitted) := Step(s, below[0]);
    StepAdvances(s, below[0]);
    if emitted.status != Success {
      IndicesCycle(s', below[1..], k);
    } else if k > 0 {
      IndicesCycle(s', below[1..], k - 1);
      CycleOn(s.phase, k);
    }
  }

  lemma StepAdvances(s: Splitter, below: BaseRead)
    requires s.WellFormed() && below.WellFormed()
    ensures var (s', emitted) := Step(s, below);
            if emitted.status == Success then emitted.idx == s.phase && s'.phase == (s.phase + 1) % WII_MAX_INPUTS
            else s'.phase == s.phase
  {
  }

  lemma CycleOn(phase: nat, k: nat)
    requires phase < WII_MAX_INPUTS && k > 0
    ensures ((phase + 1) % WII_MAX_INPUTS + (k - 1)) % WII_MAX_INPUTS == (phase + k) % WII_MAX_INPUTS
  {
  }

  /** The flags after parsing what a call handed out. */
  function Parsed(flags: seq<bool>, emitted: Emitted): seq<bool> {
    if emitted.status == Success && emitted.idx < |flags| && emitted.report != []
    then flags[emitted.idx := Plugged(emitted.report[0])] else flags
  }

  /** Four calls after an accepted packet the flags are those of its four status bytes. */
  lemma FlagsFollowPacket(s: Splitter, flags: seq<bool>, b0: BaseRead, b1: BaseRead, b2: BaseRead, b3: BaseRead)
    requires s.WellFormed() && s.phase == 0 && |flags| == WII_MAX_INPUTS
    requires b0.WellFormed() && b1.WellFormed() && b2.WellFormed() && b3.WellFormed() && b0.Accepted()
    ensures var (s1, e0) := Step(s, b0);
            var (s2, e1) := Step(s1, b1);
            var (s3, e2) := Step(s2, b2);
            var (s4, e3) := Step(s3, b3);
            && s4.phase == 0
            && Parsed(Parsed(Parsed(Parsed(flags, e0), e1), e2), e3)
               == [Plugged(b0.buffer[1]), Plugged(b0.buffer[10]), Plugged(b0.buffer[19]), Plugged(b0.buffer[28])]
  {
  }
}
