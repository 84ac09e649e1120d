/**
 The debug-service back end.  The system may refuse an attach, and it may void an
 attached device, which the handler learns when it fails to set its state; it
 then detaches the pad itself.
 */
module Hdl {
  import opened Gamepad
  import Lifo

  /** An event, and how the system would answer an attach and a state update during it. */
  datatype HdlEvent = HdlEvent(e: Event, attachOk: bool, setOk: bool)

  datatype HdlState = HdlState(flags: Flags, attached: bool)

  function Step(s: HdlState, x: HdlEvent): HdlState {
    if Lost(s.flags, x.e) then HdlState(Settle(s.flags, x.e), false)
    else if !x.e.Active() then HdlState(Settle(s.flags, x.e), s.attached)
    else HdlState(Settle(s.flags, x.e), HasPad(s, x) && x.setOk)
  }

  /** Whether there is a pad to give the state to. */
  predicate HasPad(s: HdlState, x: HdlEvent) {
    s.attached || (Attempts(s.flags, s.attached, x.e) && x.attachOk)
  }

  /** The pad is taken away because its state could not be set. */
  predicate ForcedOff(s: HdlState, x: HdlEvent) {
    x.e.Active() && HasPad(s, x) && !x.setOk
  }

  /** What a report says, as the device state holds it. */
  datatype PadState = PadState(buttons: nat, stickL: Lifo.Stick, stickR: Lifo.Stick)

  const RELEASED := PadState(0, Lifo.Stick(0, 0), Lifo.Stick(0, 0))

  class SwitchHDLHandler {
    var controllerData: seq<Flags>
    /** Zero stands for no device. */
    var handles: seq<nat>
    var hdlStates: seq<PadState>

    constructor ()
      ensures Valid() && forall k :: 0 <= k < MAX_INPUTS ==> State(k) == HdlState(Flags(false, false), false)
    {
      controllerData := seq(MAX_INPUTS, _ => Flags(false, false));
      handles := seq(MAX_INPUTS, _ => 0);
      hdlStates := seq(MAX_INPUTS, _ => RELEASED);
    }

    ghost predicate Valid()
      reads this
    {
      |controllerData| == MAX_INPUTS && |handles| == MAX_INPUTS && |hdlStates| == MAX_INPUTS
    }

    ghost function State(k: nat): HdlState
      requires Valid() && k < MAX_INPUTS
      reads this
    {
      HdlState(controllerData[k], handles[k] != 0)
    }

    method DetachController(k: nat)
      requires Valid() && k < MAX_INPUTS
      modifies this`handles
      ensures handles == old(handles)[k := 0]
    {
      if handles[k] == 0 {
        return;
      }
      handles := handles[k := 0];
    }

    /** handle: what the system answers, zero if it refuses. */
    method AttachController(k: nat, handle: nat)
      requires Valid() && k < MAX_INPUTS
      modifies this`handles
      ensures handles == if old(handles)[k] == 0 then old(handles)[k := handle] else old(handles)
    {
      if handles[k] != 0 {
        return;
      }
      handles := handles[k := handle];
    }

    /** The state is kept whether or not there is a device to give it to. */
    method UpdateControllerState(k: nat, state: PadState, setOk: bool) returns (ok: bool)
      requires Valid() && k < MAX_INPUTS
      modifies this`handles, this`hdlStates
      ensures hdlStates == old(hdlStates)[k := state]
      ensures handles == if setOk then old(handles) else old(handles)[k := 0]
      ensures ok <==> setOk || old(handles)[k] == 0
    {
      hdlStates := hdlStates[k := state];
      if handles[k] != 0 {
        if !setOk {
          DetachController(k);
          return false;
        }
      }
      return true;
    }

    /** The connection state is compared, and a lost input detached. */
    method NoticeConnection(k: nat, e: Event)
      requires Valid() && k < MAX_INPUTS
      modifies this`controllerData, this`handles
      ensures Valid() && controllerData == old(controllerData)[k := Notice(old(controllerData[k]), e)]
      ensures handles == if Lost(old(controllerData[k]), e) then old(handles)[k := 0] else old(handles)
    {
      var data := controllerData[k];
      if data.connected != e.connected {
        data := data.(connected := e.connected);
        if data.connected {
          data := data.(reattach := true);
        } else {
          DetachController(k);
        }
        controllerData := controllerData[k := data];
      }
    }

    /** A report reaches the state of the pad exactly when it is a successful one of a connected input. */
    method UpdateInput(k: nat, e: Event, state: PadState, handle: nat, setOk: bool)
      requires Valid() && k < MAX_INPUTS
      modifies this
      ensures Valid() && State(k) == Step(old(State(k)), HdlEvent(e, handle != 0, setOk))
      ensures forall j :: 0 <= j < MAX_INPUTS && j != k ==> State(j) == old(State(j))
      ensures hdlStates == if e.Active() then old(hdlStates)[k := state] else old(hdlStates)
      ensures handles[k] ==
              if Lost(old(controllerData[k]), e) || (e.Active() && !setOk) then 0
              else if e.Active() && old(handles[k]) == 0 && Attempts(old(controllerData[k]), false, e) then handle
              else old(handles[k])
    {
      NoticeConnection(k, e);
      var data := controllerData[k];
      if !data.connected || !e.readOk {
        return;
      }
      if handles[k] == 0 && !data.reattach {
        data := data.(reattach := e.l && e.r);
      }
      if data.reattach {
        AttachController(k, handle);
        data := data.(reattach := false);
      }
      controllerData := controllerData[k := data];
      var _ := UpdateControllerState(k, state, setOk);
    }

    method Exit(inputCount: nat)
      requires Valid() && inputCount <= MAX_INPUTS
      modifies this`handles
      ensures Valid()
      ensures forall k :: 0 <= k < MAX_INPUTS ==> handles[k] == if k < inputCount then 0 else old(handles[k])
    {
      for k := 0 to inputCount
        invariant Valid()
        invariant forall j :: 0 <= j < MAX_INPUTS ==> handles[j] == if j < k then 0 else old(handles[j])
      {
        DetachController(k);
      }
    }
  }

  // ---------------------------------------------------------------- whole runs of one input

  /** The state before event t of a run that starts with the input unknown. */
  function At(run: seq<HdlEvent>, t: nat): HdlState
    requires t <= |run|
  {
    if t == 0 then HdlState(Flags(false, false), false) else Step(At(run, t - 1), run[t - 1])
  }

  predicate AttemptAt(run: seq<HdlEvent>, t: nat)
    requires t < |run|
  {
    Attempts(At(run, t).flags, At(run, t).attached, run[t].e)
  }

  predicate GainedAt(run: seq<HdlEvent>, t: nat)
    requires t < |run|
  {
    Gained(At(run, t).flags, run[t].e)
  }

  /** The events meant to bring a pad back. */
  predicate TriggerAt(run: seq<HdlEvent>, t: nat)
    requires t < |run|
  {
    GainedAt(run, t) || (run[t].e.Active() && run[t].e.l && run[t].e.r)
  }

  predicate ForcedOffAt(run: seq<HdlEvent>, t: nat)
    requires t < |run|
  {
    ForcedOff(At(run, t), run[t])
  }

  /** The input was connected at some event before t and no attach was attempted since. */
  ghost predicate ConnectionPending(run: seq<HdlEvent>, t: nat)
    requires t <= |run|
  {
    exists r: nat :: r < t && GainedAt(run, r) && forall x: nat :: r <= x < t ==> !AttemptAt(run, x)
  }

  /** The flag is the run's own memory of a connection that no attempt has answered. */
  lemma {:induction false} ReattachIsPending(run: seq<HdlEvent>, t: nat)
    requires t <= |run|
    ensures At(run, t).flags.reattach <==> ConnectionPending(run, t)
  {
    if t > 0 {
      ReattachIsPending(run, t - 1);
      var s := At(run, t - 1);
      if AttemptAt(run, t - 1) {
        assert !At(run, t).flags.reattach;
      } else if s.flags.reattach {
        var r: nat :| r < t - 1 && GainedAt(run, r) && forall x: nat :: r <= x < t - 1 ==> !AttemptAt(run, x);
        assert r < t && GainedAt(run, r) && forall x: nat :: r <= x < t ==> !AttemptAt(run, x);
      } else if GainedAt(run, t - 1) {
        assert forall x: nat :: t - 1 <= x < t ==> !AttemptAt(run, x);
      }
    }
  }

  /**
   Over a whole run, an attach is attempted at an event exactly when it is a
   report of a connected input and either a connection has not been answered by
   an attempt yet, or the pad is detached and L and R are held.
   */
  lemma AttemptsExactly(run: seq<HdlEvent>, t: nat)
    requires t < |run|
    ensures AttemptAt(run, t) <==>
            run[t].e.Active() && (ConnectionPending(run, t) || GainedAt(run, t)
                                  || (!At(run, t).attached && run[t].e.l && run[t].e.r))
  {
    ReattachIsPending(run, t);
  }

  /** Between a detach forced by a failed update and the next attempt there is a trigger. */
  lemma ForcedOffNeedsTrigger(run: seq<HdlEvent>, p: nat, q: nat) returns (r: nat)
    requires p < q < |run| && ForcedOffAt(run, p) && AttemptAt(run, q)
    ensures p < r <= q && TriggerAt(run, r)
  {
    r := NextTrigger(run, p + 1, q);
  }

  lemma {:induction false} NextTrigger(run: seq<HdlEvent>, t: nat, q: nat) returns (r: nat)
    requires t <= q < |run| && !At(run, t).flags.reattach && AttemptAt(run, q)
    ensures t <= r <= q && TriggerAt(run, r)
    decreases q - t
  {
    if TriggerAt(run, t) || t == q {
      r := t;
    } else {
      r := NextTrigger(run, t + 1, q);
    }
  }

  /** Every attempt has a trigger of its own: two attempts in a row have one between them. */
  lemma AttemptsNeedOwnTriggers(run: seq<HdlEvent>, p: nat, q: nat) returns (r: nat)
    requires p < q < |run| && AttemptAt(run, p) && AttemptAt(run, q)
    ensures p < r <= q && TriggerAt(run, r)
  {
    r := NextTrigger(run, p + 1, q);
  }

  /** The connection the handler has noted is that of the last event. */
  lemma ConnectedIsLast(run: seq<HdlEvent>, t: nat)
    requires t <= |run|
    ensures At(run, t).flags.connected <==> t > 0 && run[t - 1].e.connected
  {
  }

  /** At r an attach was attempted and the system took it and the state. */
  predicate AcceptedAt(run: seq<HdlEvent>, r: nat)
    requires r < |run|
  {
    AttemptAt(run, r) && run[r].attachOk && run[r].setOk
  }

  /** The event lets a pad be: the input is connected, and a report that was read was taken by the system. */
  predicate Harmless(x: HdlEvent) {
    x.e.connected && (x.e.readOk ==> x.setOk)
  }

  /** A pad was given before t and nothing has taken it away since. */
  ghost predicate GivenAndKept(run: seq<HdlEvent>, t: nat)
    requires t <= |run|
  {
    exists r: nat :: r < t && AcceptedAt(run, r) && HarmlessBetween(run, r, t)
  }

  ghost predicate HarmlessBetween(run: seq<HdlEvent>, r: nat, t: nat)
    requires t <= |run|
  {
    forall x: nat :: r < x < t ==> Harmless(run[x])
  }

  /** No attach is attempted for an input that has a pad. */
  lemma {:induction false} AttachedNeedsNone(run: seq<HdlEvent>, t: nat)
    requires t <= |run|
    ensures At(run, t).attached ==> At(run, t).flags == Flags(true, false)
  {
    if t > 0 {
      AttachedNeedsNone(run, t - 1);
    }
  }

  lemma KeptOn(run: seq<HdlEvent>, t: nat)
    requires t < |run|
    ensures GivenAndKept(run, t + 1) <==> AcceptedAt(run, t) || (GivenAndKept(run, t) && Harmless(run[t]))
  {
    if AcceptedAt(run, t) {
      assert HarmlessBetween(run, t, t + 1);
    } else if GivenAndKept(run, t) && Harmless(run[t]) {
      var r: nat :| r < t && AcceptedAt(run, r) && HarmlessBetween(run, r, t);
      assert HarmlessBetween(run, r, t + 1);
    }
    if GivenAndKept(run, t + 1) && !AcceptedAt(run, t) {
      var r: nat :| r < t + 1 && AcceptedAt(run, r) && HarmlessBetween(run, r, t + 1);
      assert r < t && HarmlessBetween(run, r, t) && Harmless(run[t]);
    }
  }

  /**
   Over a whole run an input is attached exactly when an attach was attempted before
   and accepted together with the report's state, and since then the input was never
   disconnected and no report failed to be set.
   */
  lemma {:induction false} AttachedExactly(run: seq<HdlEvent>, t: nat)
    requires t <= |run|
    ensures At(run, t).attached <==> GivenAndKept(run, t)
  {
    if t > 0 {
      AttachedExactly(run, t - 1);
      AttachedNeedsNone(run, t - 1);
      DisconnectedIsDetached(run, t - 1);
      KeptOn(run, t - 1);
    }
  }

  /** A disconnected input is detached, and a forced detach leaves a connected input without a pending re-attach. */
  lemma {:induction false} DisconnectedIsDetached(run: seq<HdlEvent>, t: nat)
    requires t <= |run|
    ensures !At(run, t).flags.connected ==> !At(run, t).attached
    ensures t > 0 && ForcedOffAt(run, t - 1) ==> At(run, t) == HdlState(Flags(true, false), false)
  {
    if t > 0 {
      DisconnectedIsDetached(run, t - 1);
    }
  }
}
