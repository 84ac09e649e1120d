/**
 All handlers of the shared-memory back end together with the slot table they
 share.  At most one table operation happens in a call of a handler, and the
 table is locked during it, so calls of different handlers may be taken one
 after the other in any order; so may the single detaches of handlers that exit.
 */
module PadSystem {
  import opened Sequences
  import opened SharedMemory
  import opened Gamepad

  /** A controller object: which one it is, and the player index it was made with. */
  datatype Pad = None | Controller(id: nat, player: nat)

  /** exiting counts the inputs a leaving handler has been through. */
  datatype Phase = Running | Exiting(next: nat)

  datatype Handler = Handler(inputCount: nat, flags: seq<Flags>, phase: Phase)

  /** Handler and input index. */
  type Key = (nat, nat)

  /** The table, the handlers' flags, and the pad of every attached input. */
  datatype System = System(slots: seq<Pad>, handlers: map<nat, Handler>, pads: map<Key, Pad>, nextId: nat)

  datatype Act = Register(h: nat, inputCount: nat) | Report(h: nat, k: nat, e: Event) | Exit(h: nat)

  function Initial(): System {
    System(seq(MAX_PLAYERS, _ => None), map[], map[], 0)
  }

  function PadAt(sys: System, x: Key): Pad {
    if x in sys.pads then sys.pads[x] else None
  }

  function WithPad(sys: System, x: Key, pad: Pad): System {
    sys.(pads := if pad == None then sys.pads - {x} else sys.pads[x := pad])
  }

  function WithHandler(sys: System, h: nat, handler: Handler): System {
    sys.(handlers := sys.handlers[h := handler])
  }

  /** What a successful attach would create. */
  function NextPad(sys: System): Pad {
    Controller(sys.nextId, FirstIndex(sys.slots, None))
  }

  function UpdateStep(sys: System, h: nat, k: nat, e: Event): (System, Outcome)
    requires h in sys.handlers && k < |sys.handlers[h].flags|
  {
    var handler := sys.handlers[h];
    var (s, outcome) := MitmStep(MitmState(sys.slots, handler.flags[k], PadAt(sys, (h, k))), e, NextPad(sys), None);
    (WithHandler(WithPad(sys, (h, k), s.pad), h, handler.(flags := handler.flags[k := s.flags]))
       .(slots := s.slots, nextId := sys.nextId + 1),
     outcome)
  }

  function DetachStep(sys: System, x: Key): System {
    if PadAt(sys, x) == None then sys
    else WithPad(sys, x, None).(slots := Release(sys.slots, PadAt(sys, x), None))
  }

  /** Acts that do not apply (unknown handler, index the controller does not have) change nothing. */
  function Do(sys: System, act: Act): (System, Outcome) {
    match act
    case Register(h, inputCount) =>
      if h in sys.handlers || inputCount > MAX_INPUTS then (sys, Skipped)
      else (WithHandler(sys, h, Handler(inputCount, seq(MAX_INPUTS, _ => Flags(false, false)), Running)), Skipped)
    case Report(h, k, e) =>
      if h in sys.handlers && sys.handlers[h].phase == Running
         && k < sys.handlers[h].inputCount && k < |sys.handlers[h].flags|
      then UpdateStep(sys, h, k, e) else (sys, Skipped)
    case Exit(h) =>
      (if h in sys.handlers then ExitStep(sys, h) else sys, Skipped)
  }

  /** The next detach of a leaving handler, or its end. */
  function ExitStep(sys: System, h: nat): System
    requires h in sys.handlers
  {
    var handler := sys.handlers[h];
    var next := if handler.phase == Running then 0 else handler.phase.next;
    if next < handler.inputCount
    then WithHandler(DetachStep(sys, (h, next)), h, handler.(phase := Exiting(next + 1)))
    else sys.(handlers := sys.handlers - {h})
  }

  /** A run ends with the step that finds no pad to give the state to. */
  function Run(sys: System, acts: seq<Act>): (System, bool)
    decreases |acts|
  {
    if acts == [] then (sys, true)
    else
      var (sys', outcome) := Do(sys, acts[0]);
      if outcome == NoPad then (sys', false) else Run(sys', acts[1..])
  }

  // ---------------------------------------------------------------- slot ownership

  ghost predicate Held(pads: map<Key, Pad>, pad: Pad) {
    exists x :: x in pads && pads[x] == pad
  }

  /** An occupied slot holds a pad with its own index that some input holds. */
  ghost predicate SlotsHeld(slots: seq<Pad>, pads: map<Key, Pad>, nextId: nat) {
    forall i :: 0 <= i < |slots| && slots[i] != None ==>
      slots[i].player == i && slots[i].id < nextId && Held(pads, slots[i])
  }

  /** The pad of an attached input stands in the slot it names. */
  ghost predicate PadsPlaced(slots: seq<Pad>, pads: map<Key, Pad>) {
    forall x :: x in pads ==>
      pads[x] != None && pads[x].player < |slots| && slots[pads[x].player] == pads[x]
  }

  ghost predicate Injective(pads: map<Key, Pad>) {
    forall x, y :: x in pads && y in pads && pads[x] == pads[y] ==> x == y
  }

  /** Occupied slots and attached inputs are in bijection, and a pad knows its slot. */
  ghost predicate Owned(slots: seq<Pad>, pads: map<Key, Pad>, nextId: nat) {
    && |slots| == MAX_PLAYERS
    && SlotsHeld(slots, pads, nextId) && PadsPlaced(slots, pads) && Injective(pads)
  }

  lemma HeldAfter(pads: map<Key, Pad>, pads': map<Key, Pad>, pad: Pad)
    requires Held(pads, pad)
    requires forall x :: x in pads && pads[x] == pad ==> x in pads' && pads'[x] == pad
    ensures Held(pads', pad)
  {
    var x :| x in pads && pads[x] == pad;
    assert pads'[x] == pad;
  }

  lemma AttachKeepsOwned(slots: seq<Pad>, pads: map<Key, Pad>, nextId: nat, x: Key)
    requires Owned(slots, pads, nextId) && x !in pads && None in slots
    ensures var i := FirstIndex(slots, None);
            Owned(slots[i := Controller(nextId, i)], pads[x := Controller(nextId, i)], nextId + 1)
  {
    var i := FirstIndex(slots, None);
    var made := Controller(nextId, i);
    var slots', pads' := slots[i := made], pads[x := made];
    forall j | 0 <= j < |slots'| && slots'[j] != None
      ensures slots'[j].player == j && slots'[j].id < nextId + 1 && Held(pads', slots'[j])
    {
      if j == i {
        assert pads'[x] == made;
      } else {
        HeldAfter(pads, pads', slots[j]);
      }
    }
    forall y | y in pads
      ensures pads[y] != made && pads[y].player != i
    {
      assert slots[pads[y].player] == pads[y];
    }
  }

  lemma DetachKeepsOwned(slots: seq<Pad>, pads: map<Key, Pad>, nextId: nat, x: Key)
    requires Owned(slots, pads, nextId) && x in pads
    ensures Release(slots, pads[x], None) == slots[pads[x].player := None]
    ensures Owned(Release(slots, pads[x], None), pads - {x}, nextId)
  {
    var pad := pads[x];
    var i := FirstIndex(slots, pad);
    assert slots[pad.player] == pad;
    assert i < |slots| && slots[i].player == i;
    var slots', pads' := slots[pad.player := None], pads - {x};
    forall j | 0 <= j < |slots'| && slots'[j] != None
      ensures slots'[j].player == j && slots'[j].id < nextId && Held(pads', slots'[j])
    {
      HeldAfter(pads, pads', slots[j]);
    }
    forall y | y in pads'
      ensures pads'[y].player != pad.player
    {
      assert slots[pads[y].player] == pads[y];
    }
  }

  lemma UpdateKeepsOwned(sys: System, h: nat, k: nat, e: Event)
    requires Owned(sys.slots, sys.pads, sys.nextId) && h in sys.handlers && k < |sys.handlers[h].flags|
    ensures var sys' := UpdateStep(sys, h, k, e).0; Owned(sys'.slots, sys'.pads, sys'.nextId)
    ensures forall x :: x != (h, k) ==> (x in UpdateStep(sys, h, k, e).0.pads <==> x in sys.pads)
  {
    var f, pad := sys.handlers[h].flags[k], PadAt(sys, (h, k));
    if Lost(f, e) {
      if (h, k) in sys.pads {
        DetachKeepsOwned(sys.slots, sys.pads, sys.nextId, (h, k));
      } else {
        assert sys.pads - {(h, k)} == sys.pads;
      }
    } else if e.Active() && pad == None && Attempts(f, false, e) && None in sys.slots {
      AttachKeepsOwned(sys.slots, sys.pads, sys.nextId, (h, k));
    } else if pad == None {
      assert sys.pads - {(h, k)} == sys.pads;
    } else {
      assert sys.pads[(h, k) := pad] == sys.pads;
    }
  }

  // ---------------------------------------------------------------- flags and pads

  /**
   A lost input has no pad; a connected input of a running handler has one or a
   re-attach is pending; inputs a leaving handler went through have none.
   */
  ghost predicate Attuned(sys: System, h: nat)
    requires h in sys.handlers
  {
    var handler := sys.handlers[h];
    && |handler.flags| == MAX_INPUTS && handler.inputCount <= MAX_INPUTS
    && (forall k :: 0 <= k < MAX_INPUTS && !handler.flags[k].connected ==> (h, k) !in sys.pads)
    && (handler.phase == Running ==>
          forall k :: 0 <= k < MAX_INPUTS && handler.flags[k].connected ==>
            (h, k) in sys.pads || handler.flags[k].reattach)
    && (handler.phase.Exiting? ==> forall k :: 0 <= k < handler.phase.next ==> (h, k) !in sys.pads)
  }

  ghost predicate Good(sys: System) {
    && Owned(sys.slots, sys.pads, sys.nextId)
    && (forall h :: h in sys.handlers ==> Attuned(sys, h))
    && (forall x :: x in sys.pads ==> x.0 in sys.handlers && x.1 < sys.handlers[x.0].inputCount)
  }

  /** The only call that finds no pad is one that had to attach while all eight slots were taken. */
  lemma FaultsExactlyWhenFull(sys: System, h: nat, k: nat, e: Event)
    requires Good(sys) && h in sys.handlers && sys.handlers[h].phase == Running && k < sys.handlers[h].inputCount
    ensures Do(sys, Report(h, k, e)).1 == NoPad <==>
            e.Active() && (h, k) !in sys.pads && None !in sys.slots
    ensures Do(sys, Report(h, k, e)).1 == Pushed ==>
            (h, k) in Do(sys, Report(h, k, e)).0.pads
  {
    assert sys.handlers[h].flags[k].connected && (h, k) !in sys.pads ==> sys.handlers[h].flags[k].reattach;
  }

  /**
   What becomes of a report: it is passed over exactly when it was not read or its
   input is not connected, and given to a pad exactly when the input has one or a
   slot is free.
   */
  lemma OutcomeExactly(sys: System, h: nat, k: nat, e: Event)
    requires Good(sys) && h in sys.handlers && sys.handlers[h].phase == Running && k < sys.handlers[h].inputCount
    ensures Do(sys, Report(h, k, e)).1 == Skipped <==> !(e.connected && e.readOk)
    ensures Do(sys, Report(h, k, e)).1 == Pushed <==>
            e.connected && e.readOk && ((h, k) in sys.pads || None in sys.slots)
  {
    assert Attuned(sys, h);
  }

  lemma UpdateKeepsGood(sys: System, h: nat, k: nat, e: Event)
    requires Good(sys) && h in sys.handlers && sys.handlers[h].phase == Running && k < sys.handlers[h].inputCount
    requires Do(sys, Report(h, k, e)).1 != NoPad
    ensures Good(Do(sys, Report(h, k, e)).0)
  {
    assert Attuned(sys, h);
    UpdateKeepsOwned(sys, h, k, e);
    forall h' | h' in sys.handlers
      ensures Attuned(UpdateStep(sys, h, k, e).0, h')
    {
      UpdateKeepsAttuned(sys, h, k, e, h');
    }
  }

  lemma UpdateKeepsAttuned(sys: System, h: nat, k: nat, e: Event, h': nat)
    requires h in sys.handlers && Attuned(sys, h) && sys.handlers[h].phase == Running && k < sys.handlers[h].inputCount
    requires forall x :: x in sys.pads ==> sys.pads[x] != None
    requires h' in sys.handlers && Attuned(sys, h') && UpdateStep(sys, h, k, e).1 != NoPad
    requires forall x :: x != (h, k) ==> (x in UpdateStep(sys, h, k, e).0.pads <==> x in sys.pads)
    ensures Attuned(UpdateStep(sys, h, k, e).0, h')
  {
    assert forall j :: j != k || h' != h ==> ((h', j) in UpdateStep(sys, h, k, e).0.pads <==> (h', j) in sys.pads);
  }

  lemma DetachForgets(sys: System, x: Key)
    requires Owned(sys.slots, sys.pads, sys.nextId)
    ensures var sys' := DetachStep(sys, x);
            && Owned(sys'.slots, sys'.pads, sys'.nextId)
            && sys'.pads == sys.pads - {x} && sys'.handlers == sys.handlers
  {
    if x in sys.pads {
      DetachKeepsOwned(sys.slots, sys.pads, sys.nextId, x);
    } else {
      assert sys.pads - {x} == sys.pads;
    }
  }

  /** Fewer pads, and for the leaving handler none at next, keep a handler attuned. */
  lemma ForgettingKeepsAttuned(sys: System, sys': System, h: nat, next: nat, h': nat)
    requires h in sys.handlers && h' in sys.handlers && Attuned(sys, h')
    requires sys'.pads == sys.pads - {(h, next)}
    requires sys'.handlers == sys.handlers[h := sys.handlers[h].(phase := Exiting(next + 1))]
    requires sys.handlers[h].phase == Exiting(next) || next == 0
    ensures Attuned(sys', h')
  {
    assert forall j :: (h', j) in sys'.pads ==> (h', j) in sys.pads;
    assert h' != h ==> forall j :: (h', j) in sys.pads ==> (h', j) in sys'.pads;
  }

  lemma DetachKeepsGood(sys: System, h: nat, next: nat)
    requires Good(sys) && h in sys.handlers && next < sys.handlers[h].inputCount
    requires sys.handlers[h].phase == Exiting(next) || next == 0
    ensures Good(WithHandler(DetachStep(sys, (h, next)), h, sys.handlers[h].(phase := Exiting(next + 1))))
  {
    var sys' := WithHandler(DetachStep(sys, (h, next)), h, sys.handlers[h].(phase := Exiting(next + 1)));
    DetachForgets(sys, (h, next));
    forall h' | h' in sys'.handlers
      ensures Attuned(sys', h')
    {
      ForgettingKeepsAttuned(sys, sys', h, next, h');
    }
  }

  lemma LeavingKeepsGood(sys: System, h: nat)
    requires Good(sys) && h in sys.handlers
    requires sys.handlers[h].phase == Running ==> sys.handlers[h].inputCount == 0
    requires sys.handlers[h].phase.Exiting? ==> sys.handlers[h].inputCount <= sys.handlers[h].phase.next
    ensures Good(sys.(handlers := sys.handlers - {h}))
  {
    var sys' := sys.(handlers := sys.handlers - {h});
    assert Attuned(sys, h);
    forall h' | h' in sys'.handlers
      ensures Attuned(sys', h')
    {
      assert Attuned(sys, h');
    }
  }

  lemma ExitKeepsGood(sys: System, h: nat)
    requires Good(sys) && h in sys.handlers
    ensures Good(ExitStep(sys, h))
  {
    var handler := sys.handlers[h];
    var next := if handler.phase == Running then 0 else handler.phase.next;
    if next < handler.inputCount {
      DetachKeepsGood(sys, h, next);
    } else {
      LeavingKeepsGood(sys, h);
    }
  }

  lemma {:induction false} RunKeepsGood(sys: System, acts: seq<Act>)
    requires Good(sys)
    ensures Run(sys, acts).1 ==> Good(Run(sys, acts).0)
    decreases |acts|
  {
    if acts != [] {
      var (sys', outcome) := Do(sys, acts[0]);
      if outcome != NoPad {
        DoKeepsGood(sys, acts[0]);
        RunKeepsGood(sys', acts[1..]);
      }
    }
  }

  lemma DoKeepsGood(sys: System, act: Act)
    requires Good(sys) && Do(sys, act).1 != NoPad
    ensures Good(Do(sys, act).0)
  {
    match act
    case Register(h, inputCount) =>
      forall h' | h' in Do(sys, act).0.handlers
        ensures Attuned(Do(sys, act).0, h')
      {
        assert h' in sys.handlers ==> Attuned(sys, h');
      }
    case Report(h, k, e) =>
      if h in sys.handlers && sys.handlers[h].phase == Running && k < sys.handlers[h].inputCount {
        UpdateKeepsGood(sys, h, k, e);
      }
    case Exit(h) =>
      if h in sys.handlers {
        ExitKeepsGood(sys, h);
      }
  }

  // ---------------------------------------------------------------- whole runs

  lemma {:induction false} PlayersOf(pads: map<Key, Pad>) returns (players: set<nat>)
    requires forall x :: x in pads ==> pads[x] != None
    requires forall x, y :: x in pads && y in pads && x != y ==> pads[x].player != pads[y].player
    ensures |players| == |pads| && forall p :: p in players <==> exists x :: x in pads && pads[x].player == p
    decreases |pads|
  {
    if pads == map[] {
      players := {};
    } else {
      var x :| x in pads;
      var rest := pads - {x};
      assert pads == rest[x := pads[x]] && |rest| == |pads| - 1;
      var others := PlayersOf(rest);
      players := others + {pads[x].player};
      forall p
        ensures p in players <==> exists y :: y in pads && pads[y].player == p
      {
        if p in others {
          var y :| y in rest && rest[y].player == p;
          assert y in pads && pads[y].player == p;
        }
      }
    }
  }

  lemma PlayersDiffer(slots: seq<Pad>, pads: map<Key, Pad>)
    requires PadsPlaced(slots, pads) && Injective(pads)
    ensures forall x, y :: x in pads && y in pads && x != y ==> pads[x].player != pads[y].player
  {
    forall x, y | x in pads && y in pads && x != y
      ensures pads[x].player != pads[y].player
    {
      assert slots[pads[x].player] == pads[x] && slots[pads[y].player] == pads[y];
    }
  }

  /** The table is full exactly when eight inputs are attached. */
  lemma FullMeansEightAttached(slots: seq<Pad>, pads: map<Key, Pad>, nextId: nat)
    requires Owned(slots, pads, nextId)
    ensures None !in slots <==> |pads| == MAX_PLAYERS
  {
    PlayersDiffer(slots, pads);
    var players := PlayersOf(pads);
    forall i: nat | i < MAX_PLAYERS
      ensures i in players <==> slots[i] != None
    {
      OccupiedMeansPlayer(slots, pads, nextId, i);
    }
    AllOrFewer(players);
  }

  lemma AllOrFewer(players: set<nat>)
    requires forall p :: p in players ==> p < MAX_PLAYERS
    ensures |players| == MAX_PLAYERS <==> forall i: nat :: i < MAX_PLAYERS ==> i in players
  {
    var all: set<nat> := {0, 1, 2, 3, 4, 5, 6, 7};
    if |players| == MAX_PLAYERS {
      SubsetOfSameSize(players, all);
    }
    if forall i: nat :: i < MAX_PLAYERS ==> i in players {
      assert players == all;
    }
  }

  lemma OccupiedMeansPlayer(slots: seq<Pad>, pads: map<Key, Pad>, nextId: nat, i: nat)
    requires Owned(slots, pads, nextId) && i < MAX_PLAYERS
    ensures slots[i] != None <==> exists x :: x in pads && pads[x].player == i
  {
    if slots[i] != None {
      var x :| x in pads && pads[x] == slots[i];
      assert pads[x].player == i;
    }
  }

  lemma SubsetOfSameSize(a: set<nat>, b: set<nat>)
    requires a <= b && |a| == |b|
    ensures a == b
  {
    assert |b - a| == 0;
  }

  lemma InitialIsGood()
    ensures Good(Initial())
  {
  }

  /**
   In every run of every set of handlers the slot table and the attached inputs
   stay in bijection, two attached inputs write different players' rings, and a
   connected input without a pad has a re-attach pending.
   */
  lemma RunsAreSound(acts: seq<Act>)
    requires Run(Initial(), acts).1
    ensures var sys := Run(Initial(), acts).0;
            && Good(sys)
            && forall x, y :: x in sys.pads && y in sys.pads && x != y ==> sys.pads[x].player != sys.pads[y].player
  {
    InitialIsGood();
    RunKeepsGood(Initial(), acts);
    PlayersDiffer(Run(Initial(), acts).0.slots, Run(Initial(), acts).0.pads);
  }

  /** A run that ends for want of a pad does so on a report of an input while eight other inputs are attached. */
  lemma {:induction false} RunsEndOnlyWhenFull(sys: System, acts: seq<Act>) returns (n: nat)
    requires Good(sys) && !Run(sys, acts).1
    ensures n < |acts| && Run(sys, acts[..n]).1
    ensures var at := Run(sys, acts[..n]).0;
            && acts[n].Report? && acts[n].e.Active()
            && (acts[n].h, acts[n].k) !in at.pads && |at.pads| == MAX_PLAYERS
    decreases |acts|
  {
    var (sys', outcome) := Do(sys, acts[0]);
    if outcome == NoPad {
      n := 0;
      FaultsExactlyWhenFull(sys, acts[0].h, acts[0].k, acts[0].e);
      FullMeansEightAttached(sys.slots, sys.pads, sys.nextId);
    } else {
      DoKeepsGood(sys, acts[0]);
      var m := RunsEndOnlyWhenFull(sys', acts[1..]);
      n := m + 1;
      assert acts[..n][1..] == acts[1..][..m];
    }
  }

  // ---------------------------------------------------------------- a run that ends

  const CONNECTING: Event := Event(true, true, false, false)

  /** An input of a running handler that has never been connected. */
  ghost predicate Unseen(sys: System, x: Key) {
    && x.0 in sys.handlers && sys.handlers[x.0].phase == Running
    && x.1 < sys.handlers[x.0].inputCount && x.1 < |sys.handlers[x.0].flags|
    && sys.handlers[x.0].flags[x.1] == Flags(false, false)
  }

  lemma ConnectAttaches(sys: System, x: Key)
    requires Good(sys) && Unseen(sys, x) && None in sys.slots
    ensures x !in sys.pads && Do(sys, Report(x.0, x.1, CONNECTING)).1 == Pushed
    ensures var sys' := Do(sys, Report(x.0, x.1, CONNECTING)).0;
            && sys'.pads == sys.pads[x := NextPad(sys)]
            && sys'.handlers == sys.handlers[x.0 := sys.handlers[x.0].(flags := sys.handlers[x.0].flags[x.1 := Flags(true, false)])]
  {
    assert Attuned(sys, x.0);
  }

  lemma ConnectFails(sys: System, x: Key)
    requires Good(sys) && Unseen(sys, x) && None !in sys.slots
    ensures Do(sys, Report(x.0, x.1, CONNECTING)).1 == NoPad
  {
    assert Attuned(sys, x.0);
  }

  function Connects(keys: seq<Key>): (acts: seq<Act>)
    ensures |acts| == |keys|
  {
    if keys == [] then [] else [Report(keys[0].0, keys[0].1, CONNECTING)] + Connects(keys[1..])
  }

  lemma AtMostEight(slots: seq<Pad>, pads: map<Key, Pad>, nextId: nat)
    requires Owned(slots, pads, nextId)
    ensures |pads| <= MAX_PLAYERS && (None in slots <==> |pads| < MAX_PLAYERS)
  {
    PlayersDiffer(slots, pads);
    var players := PlayersOf(pads);
    NoMoreThanAll(players, {0, 1, 2, 3, 4, 5, 6, 7});
    FullMeansEightAttached(slots, pads, nextId);
  }

  lemma NoMoreThanAll(some: set<nat>, all: set<nat>)
    requires some <= all
    ensures |some| <= |all|
  {
    assert |all| == |some| + |all - some| by {
      assert all == some + (all - some);
    }
  }

  /** Different inputs, none of them connected yet. */
  ghost predicate Connectable(sys: System, keys: seq<Key>) {
    && Good(sys)
    && (forall i :: 0 <= i < |keys| ==> Unseen(sys, keys[i]))
    && (forall i, j :: 0 <= i < j < |keys| ==> keys[i] != keys[j])
  }

  lemma FirstConnects(sys: System, keys: seq<Key>)
    requires Connectable(sys, keys) && keys != [] && None in sys.slots
    ensures var (sys', outcome) := Do(sys, Report(keys[0].0, keys[0].1, CONNECTING));
            outcome == Pushed && |sys'.pads| == |sys.pads| + 1 && Connectable(sys', keys[1..])
  {
    var act := Report(keys[0].0, keys[0].1, CONNECTING);
    assert Unseen(sys, keys[0]);
    ConnectAttaches(sys, keys[0]);
    DoKeepsGood(sys, act);
    forall i | 0 <= i < |keys[1..]|
      ensures Unseen(Do(sys, act).0, keys[1..][i])
    {
      assert keys[1..][i] == keys[i + 1] && Unseen(sys, keys[i + 1]) && keys[i + 1] != keys[0];
    }
  }

  lemma FirstFails(sys: System, keys: seq<Key>)
    requires Connectable(sys, keys) && keys != [] && None !in sys.slots
    ensures Do(sys, Report(keys[0].0, keys[0].1, CONNECTING)).1 == NoPad
  {
    assert Unseen(sys, keys[0]);
    ConnectFails(sys, keys[0]);
  }

  lemma SlotsLeft(sys: System, keys: seq<Key>)
    requires Connectable(sys, keys)
    ensures |sys.pads| <= MAX_PLAYERS && (None in sys.slots <==> |sys.pads| < MAX_PLAYERS)
  {
    AtMostEight(sys.slots, sys.pads, sys.nextId);
  }

  /** Inputs that connect one after the other all get a pad exactly when there are slots for all of them. */
  lemma {:induction false} ConnectingFitsExactly(sys: System, keys: seq<Key>)
    requires Connectable(sys, keys)
    ensures Run(sys, Connects(keys)).1 <==> |sys.pads| + |keys| <= MAX_PLAYERS
    decreases |keys|
  {
    SlotsLeft(sys, keys);
    if keys != [] {
      ConnectsRun(sys, keys);
      if None in sys.slots {
        FirstConnects(sys, keys);
        ConnectingFitsExactly(Do(sys, Report(keys[0].0, keys[0].1, CONNECTING)).0, keys[1..]);
      } else {
        FirstFails(sys, keys);
      }
    }
  }

  lemma ConnectsRun(sys: System, keys: seq<Key>)
    requires keys != []
    ensures var (sys', outcome) := Do(sys, Report(keys[0].0, keys[0].1, CONNECTING));
            if outcome == NoPad then !Run(sys, Connects(keys)).1
            else Run(sys, Connects(keys)) == Run(sys', Connects(keys[1..]))
  {
    var act := Report(keys[0].0, keys[0].1, CONNECTING);
    assert Connects(keys)[0] == act && Connects(keys)[1..] == Connects(keys[1..]);
  }

  lemma RunStep(sys: System, act: Act, rest: seq<Act>)
    requires Do(sys, act).1 != NoPad
    ensures Run(sys, [act] + rest) == Run(Do(sys, act).0, rest)
  {
    assert ([act] + rest)[0] == act && ([act] + rest)[1..] == rest;
  }

  /** Handlers below h have registered and nothing has been connected. */
  ghost predicate AllNew(sys: System, h: nat) {
    && (forall g :: g in sys.handlers ==> g < h)
    && forall g: nat, k: nat :: g < h && k < MAX_INPUTS ==> Unseen(sys, (g, k))
  }

  /** A handler of four inputs registers. */
  lemma RegisterFour(sys: System, h: nat)
    requires Good(sys) && AllNew(sys, h)
    ensures var (sys', outcome) := Do(sys, Register(h, MAX_INPUTS));
            outcome != NoPad && Good(sys') && AllNew(sys', h + 1) && sys'.pads == sys.pads
  {
    DoKeepsGood(sys, Register(h, MAX_INPUTS));
  }

  const NINE: seq<Key> := [(0, 0), (0, 1), (0, 2), (0, 3), (1, 0), (1, 1), (1, 2), (1, 3), (2, 0)]

  function Registers(h: nat, n: nat): seq<Act>
    decreases n
  {
    if n == 0 then [] else [Register(h, MAX_INPUTS)] + Registers(h + 1, n - 1)
  }

  /** Handlers h and on register, n of them. */
  lemma {:induction false} RegisterAll(sys: System, h: nat, n: nat, rest: seq<Act>) returns (end: System)
    requires Good(sys) && AllNew(sys, h)
    ensures Run(sys, Registers(h, n) + rest) == Run(end, rest)
    ensures Good(end) && AllNew(end, h + n) && end.pads == sys.pads
    decreases n
  {
    if n == 0 {
      end := sys;
      assert Registers(h, n) + rest == rest;
    } else {
      RegisterFour(sys, h);
      RegistersRun(sys, h, n, rest);
      end := RegisterAll(Do(sys, Register(h, MAX_INPUTS)).0, h + 1, n - 1, rest);
    }
  }

  lemma RegistersRun(sys: System, h: nat, n: nat, rest: seq<Act>)
    requires n > 0 && Do(sys, Register(h, MAX_INPUTS)).1 != NoPad
    ensures Run(sys, Registers(h, n) + rest) == Run(Do(sys, Register(h, MAX_INPUTS)).0, Registers(h + 1, n - 1) + rest)
  {
    var act, others := Register(h, MAX_INPUTS), Registers(h + 1, n - 1);
    Assoc([act], others, rest);
    RunStep(sys, act, others + rest);
  }

  /** Three adapters of four inputs, and the ninth pad to be plugged in finds no slot. */
  lemma NinthFindsNoPad()
    ensures !Run(Initial(), Registers(0, 3) + Connects(NINE)).1
  {
    InitialIsGood();
    var sys := RegisterAll(Initial(), 0, 3, Connects(NINE));
    AllUnseen(sys);
    ConnectingFitsExactly(sys, NINE);
  }

  lemma AllUnseen(sys: System)
    requires AllNew(sys, 3)
    ensures forall i :: 0 <= i < |NINE| ==> Unseen(sys, NINE[i])
    ensures forall i, j :: 0 <= i < j < |NINE| ==> NINE[i] != NINE[j]
  {
    forall i | 0 <= i < |NINE|
      ensures Unseen(sys, NINE[i])
    {
      assert NINE[i] == (i / 4, i % 4);
    }
  }
}
