/**
 One input report after another, a handler keeps the virtual pad of every
 physical input in step with the physical connection: it attaches, detaches and
 feeds the pad.  Two back ends exist.  The shared-memory one owns slots of a
 table of eight that all handlers share; the debug-service one owns a handle
 that the system may void at any moment.
 */
module Gamepad {
  import opened Lifo
  import opened Sequences
  import opened SharedMemory

  const MAX_INPUTS: nat := 4

  datatype Flags = Flags(connected: bool, reattach: bool)

  /** What one read tells about an input: its connection, whether a report was read, and whether L and R are down in it. */
  datatype Event = Event(connected: bool, readOk: bool, l: bool, r: bool) {
    predicate Active() {
      connected && readOk
    }
  }

  predicate Gained(f: Flags, e: Event) {
    !f.connected && e.connected
  }

  predicate Lost(f: Flags, e: Event) {
    f.connected && !e.connected
  }

  /** The flags once the connection state has been compared. */
  function Notice(f: Flags, e: Event): Flags {
    Flags(e.connected, f.reattach || Gained(f, e))
  }

  /** An attach is attempted: one is pending, or the pad is detached and L and R are held. */
  predicate Attempts(f: Flags, attached: bool, e: Event) {
    e.Active() && (Notice(f, e).reattach || (!attached && e.l && e.r))
  }

  /** The flags at the end of the call: an attempt uses the pending mark up, whatever comes of it. */
  function Settle(f: Flags, e: Event): Flags {
    if e.Active() then Flags(true, false) else Notice(f, e)
  }

  // ---------------------------------------------------------------- the shared-memory back end

  datatype Outcome = Skipped | Pushed | NoPad

  datatype MitmState<P> = MitmState(slots: seq<P>, flags: Flags, pad: P)

  /** One call for one input; `made` is the pad a successful attach creates, `none` stands for no pad. */
  function MitmStep<P(==)>(s: MitmState<P>, e: Event, made: P, none: P): (MitmState<P>, Outcome) {
    if Lost(s.flags, e) then
      (MitmState(if s.pad == none then s.slots else Release(s.slots, s.pad, none), Settle(s.flags, e), none), Skipped)
    else if !e.Active() then
      (s.(flags := Settle(s.flags, e)), Skipped)
    else if s.pad == none && Attempts(s.flags, false, e) && none in s.slots then
      (MitmState(s.slots[FirstIndex(s.slots, none) := made], Settle(s.flags, e), made), Pushed)
    else
      (s.(flags := Settle(s.flags, e)), if s.pad == none then NoPad else Pushed)
  }

  class SwitchMITMHandler {
    const manager: HidSharedMemoryManager
    var controllerData: seq<Flags>
    var controllerList: seq<HidSharedMemoryController?>

    constructor (manager: HidSharedMemoryManager)
      ensures this.manager == manager && Valid()
      ensures forall k :: 0 <= k < MAX_INPUTS ==> controllerData[k] == Flags(false, false) && controllerList[k] == null
    {
      this.manager := manager;
      controllerData := seq(MAX_INPUTS, _ => Flags(false, false));
      controllerList := seq(MAX_INPUTS, _ => null);
    }

    ghost predicate Valid()
      reads this
    {
      |controllerData| == MAX_INPUTS && |controllerList| == MAX_INPUTS
    }

    ghost function State(k: nat): MitmState<HidSharedMemoryController?>
      requires Valid() && k < MAX_INPUTS
      reads this, manager
    {
      MitmState(manager.controllerList, controllerData[k], controllerList[k])
    }

    method DetachController(k: nat)
      requires Valid() && k < MAX_INPUTS
      modifies this`controllerList, manager`controllerList
      ensures controllerList == old(controllerList)[k := null]
      ensures manager.controllerList ==
              if old(controllerList[k]) == null then old(manager.controllerList)
              else Release(old(manager.controllerList), old(controllerList[k]), null)
    {
      var pad := controllerList[k];
      if pad == null {
        return;
      }
      manager.DetachController(pad);
      controllerList := controllerList[k := null];
    }

    method AttachController(k: nat) returns (ghost made: HidSharedMemoryController?)
      requires Valid() && k < MAX_INPUTS
      modifies this`controllerList, manager`controllerList
      ensures var slots := old(manager.controllerList);
              if old(controllerList[k]) == null && null in slots then
                && made != null && fresh(made) && made.playerIdx == FirstIndex(slots, null) && made.samplingNumber == 0
                && controllerList == old(controllerList)[k := made]
                && manager.controllerList == slots[FirstIndex(slots, null) := made]
              else
                controllerList == old(controllerList) && manager.controllerList == slots
    {
      if controllerList[k] != null {
        return null;
      }
      var pad := manager.AttachController();
      controllerList := controllerList[k := pad];
      made := pad;
    }

    /** Gives the state to the input's pad, which writes it to every process.  There has to be a pad. */
    method UpdateControllerState(k: nat, buttons: nat, l: Stick, r: Stick, ghost states: seq<NpadState>, ghost before: seq<Npad>)
      requires Valid() && k < MAX_INPUTS && controllerList[k] != null
      requires StatesOf(states, manager.entries, controllerList[k].playerIdx) && Separate(states)
      requires WrittenUpTo(states, before, MakeSlot(controllerList[k].samplingNumber, buttons, l, r), 0)
      modifies controllerList[k], states, Storages(states)
      ensures Valid() && controllerList[k].samplingNumber == old(controllerList[k].samplingNumber) + |manager.entries|
      ensures WrittenUpTo(states, before, MakeSlot(old(controllerList[k].samplingNumber), buttons, l, r), |states|)
      ensures forall j :: 0 <= j < |states| ==> states[j].Shows(old(controllerList[k].samplingNumber) + j, buttons, l, r)
    {
      controllerList[k].Update(manager.entries, buttons, l, r, states, before);
    }

    /**
     The player whose rings a state for input k goes to: that of its pad, or of the
     first free slot.
     */
    ghost function PlayerOf(k: nat): nat
      requires Valid() && k < MAX_INPUTS
      reads this, manager
    {
      if controllerList[k] != null then controllerList[k].playerIdx else FirstIndex(manager.controllerList, null)
    }

    /**
     The whole call for one input: the pad is attached or detached as the connection
     says, and a report that was read of a connected input is written to every
     process's ring of the pad's player, under the pad's next numbers.
     */
    method UpdateInput(k: nat, e: Event, buttons: nat, l: Stick, r: Stick, ghost states: seq<NpadState>, ghost before: seq<Npad>)
      returns (outcome: Outcome, ghost made: HidSharedMemoryController?)
      requires Valid() && k < MAX_INPUTS
      requires PlayerOf(k) < MAX_PLAYERS ==> StatesOf(states, manager.entries, PlayerOf(k))
      requires Separate(states) && WrittenUpTo(states, before, ZERO_SLOT, 0)
      requires controllerList[k] == null || controllerList[k].playerIdx < MAX_PLAYERS
      requires |manager.controllerList| == MAX_PLAYERS
      modifies this`controllerData, this`controllerList, manager`controllerList, controllerList[k]
      modifies states, Storages(states)
      ensures Valid()
      ensures (State(k), outcome) == MitmStep(old(State(k)), e, made, null)
      ensures forall j :: 0 <= j < MAX_INPUTS && j != k ==>
                controllerData[j] == old(controllerData[j]) && controllerList[j] == old(controllerList[j])
      ensures outcome != Pushed ==> WrittenUpTo(states, before, ZERO_SLOT, 0)
      ensures outcome == Pushed ==>
                && controllerList[k] != null && controllerList[k].playerIdx == old(PlayerOf(k))
                && (old(controllerList[k]) != null ==> controllerList[k] == old(controllerList[k]))
                && var number := if old(controllerList[k]) != null then old(controllerList[k].samplingNumber) else 0;
                   && controllerList[k].samplingNumber == number + |states|
                   && WrittenUpTo(states, before, MakeSlot(number, buttons, l, r), |states|)
                   && forall j :: 0 <= j < |states| ==> states[j].Shows(number + j, buttons, l, r)
    {
      ghost var player := PlayerOf(k);
      outcome, made := SettlePad(k, e);
      if outcome == Pushed {
        assert controllerList[k].playerIdx == player;
        UpdateControllerState(k, buttons, l, r, states, before);
      }
    }

    /**
     The part of the call before the state is given away.  The pad that gets it is
     the one in the list; NoPad means there is none to get it.
     */
    method SettlePad(k: nat, e: Event) returns (outcome: Outcome, ghost made: HidSharedMemoryController?)
      requires Valid() && k < MAX_INPUTS
      modifies this`controllerData, this`controllerList, manager`controllerList
      ensures Valid()
      ensures (State(k), outcome) == MitmStep(old(State(k)), e, made, null)
      ensures outcome == Skipped <==> !e.Active()
      ensures outcome == Pushed <==> e.Active() && controllerList[k] != null
      ensures forall j :: 0 <= j < MAX_INPUTS && j != k ==>
                controllerData[j] == old(controllerData[j]) && controllerList[j] == old(controllerList[j])
      ensures old(controllerList[k]) != null && e.Active() ==> controllerList[k] == old(controllerList[k])
      ensures controllerList[k] != null && old(controllerList[k]) == null ==>
                && fresh(controllerList[k]) && controllerList[k].samplingNumber == 0
                && controllerList[k].playerIdx == FirstIndex(old(manager.controllerList), null)
    {
      made := null;
      var data := controllerData[k];
      if data.connected != e.connected {
        data := data.(connected := e.connected);
        if data.connected {
          data := data.(reattach := true);
        } else {
          DetachController(k);
        }
        controllerData := controllerData[k := data];
      }
      if !data.connected || !e.readOk {
        return Skipped, made;
      }
      if controllerList[k] == null && !data.reattach {
        data := data.(reattach := e.l && e.r);
      }
      if data.reattach {
        made := AttachController(k);
        data := data.(reattach := false);
      }
      controllerData := controllerData[k := data];
      outcome := if controllerList[k] == null then NoPad else Pushed;
    }

    /** Leaving detaches every input the controller has. */
    method Exit(inputCount: nat)
      requires Valid() && inputCount <= MAX_INPUTS
      modifies this`controllerList, manager`controllerList
      ensures Valid()
      ensures forall k :: 0 <= k < MAX_INPUTS ==>
                controllerList[k] == if k < inputCount then null else old(controllerList[k])
      ensures manager.controllerList == ReleaseAll(old(manager.controllerList), old(controllerList)[..inputCount], null)
    {
      for k := 0 to inputCount
        invariant Valid()
        invariant forall j :: 0 <= j < MAX_INPUTS ==>
                    controllerList[j] == if j < k then null else old(controllerList[j])
        invariant manager.controllerList == ReleaseAll(old(manager.controllerList), old(controllerList)[..k], null)
      {
        assert old(controllerList)[..k + 1][..k] == old(controllerList)[..k];
        DetachController(k);
      }
    }
  }

  /** Where no pad stands twice, exactly the pads given are gone from the table, and the others stand where they stood. */
  lemma {:induction false} ReleasedExactly<P>(slots: seq<P>, pads: seq<P>, none: P)
    requires forall i, j :: 0 <= i < j < |slots| && slots[i] != none ==> slots[i] != slots[j]
    ensures |ReleaseAll(slots, pads, none)| == |slots|
    ensures forall i :: 0 <= i < |slots| ==> ReleaseAll(slots, pads, none)[i] == if slots[i] in pads then none else slots[i]
  {
    if pads != [] {
      var n := |pads| - 1;
      ReleasedExactly(slots, pads[..n], none);
      assert forall p :: p in pads <==> p in pads[..n] || p == pads[n];
      OneReleased(ReleaseAll(slots, pads[..n], none), pads[n], none);
    }
  }

  lemma OneReleased<P>(slots: seq<P>, pad: P, none: P)
    requires forall i, j :: 0 <= i < j < |slots| && slots[i] != none ==> slots[i] != slots[j]
    ensures pad != none ==>
              forall i :: 0 <= i < |slots| ==> Release(slots, pad, none)[i] == if slots[i] == pad then none else slots[i]
  {
    var i := FirstIndex(slots, pad);
    assert forall j :: 0 <= j < i ==> slots[j] in slots[..i];
  }

  function ReleaseAll<P(==)>(slots: seq<P>, pads: seq<P>, none: P): seq<P> {
    if pads == [] then slots
    else
      var n := |pads| - 1;
      var before := ReleaseAll(slots, pads[..n], none);
      if pads[n] == none then before else Release(before, pads[n], none)
  }
}
