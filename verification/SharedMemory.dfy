/**
 The fake shared memories and the virtual pads that write them: one process
 entry per game, one internal state per player in it, and the controller object
 that stamps every sample it writes, in every entry, with a running number.
 */
module SharedMemory {
  import opened Lifo
  import opened Sequences

  /** Any non-zero value: the style set says that the state was initialised. */
  const STYLE_SET: nat := 0x20000001
  const ATTRIBUTES: nat := 0x3
  const MAX_PLAYERS: nat := 8

  // ---------------------------------------------------------------- one player's state in one process

  datatype Npad = Npad(styleSet: nat, ring: Ring) {
    /** A state found in memory is either untouched or carries a usable header. */
    predicate Valid() {
      styleSet != 0 ==> ring.WellFormed()
    }

    function Ready(): (n: Npad)
      requires Valid()
      ensures n.styleSet != 0 && n.ring.WellFormed()
    {
      if styleSet == 0 then Npad(STYLE_SET, FreshRing()) else this
    }

    function Written(s: Slot): (n: Npad)
      requires Valid()
      ensures n.Valid() && n.styleSet != 0
    {
      Npad(Ready().styleSet, Push(Ready().ring, s))
    }
  }

  function MakeSlot(number: nat, buttons: nat, l: Stick, r: Stick): Slot {
    Slot(number, buttons, l, r, ATTRIBUTES, 0)
  }

  class NpadState {
    var styleSet: nat
    var bufferCount: nat
    var tail: nat
    var count: nat
    const storage: array<Slot>

    ghost predicate Valid()
      reads this, storage
    {
      storage.Length == CAPACITY && Value().Valid()
    }

    ghost function Value(): Npad
      reads this, storage
    {
      Npad(styleSet, Ring(bufferCount, tail, count, storage[..]))
    }

    constructor (npad: Npad)
      requires npad.Valid() && |npad.ring.storage| == CAPACITY
      ensures Valid() && fresh(storage) && Value() == npad
    {
      styleSet, bufferCount, tail, count := npad.styleSet, npad.ring.bufferCount, npad.ring.tail, npad.ring.count;
      storage := new Slot[CAPACITY](i requires 0 <= i < CAPACITY => npad.ring.storage[i]);
    }

    method Initialize()
      requires Valid()
      modifies this, storage
      ensures Valid() && Value() == Npad(STYLE_SET, FreshRing())
    {
      forall i | 0 <= i < storage.Length {
        storage[i] := ZERO_SLOT;
      }
      styleSet := STYLE_SET;
      bufferCount := CAPACITY;
      tail := 0;
      count := 0;
      assert storage[..] == FreshRing().storage;
    }

    /** The slot at the tail. */
    ghost predicate Shows(number: nat, buttons: nat, l: Stick, r: Stick)
      reads this, storage
    {
      && tail < storage.Length
      && storage[tail].samplingNumber == number && storage[tail].buttons == buttons
      && storage[tail].stickL == l && storage[tail].stickR == r
      && storage[tail].attributes == 0x3 && storage[tail].reserved == 0
    }

    method Write(number: nat, buttons: nat, l: Stick, r: Stick)
      requires Valid()
      modifies this, storage
      ensures Valid() && Shows(number, buttons, l, r)
      ensures Value() == old(Value()).Written(MakeSlot(number, buttons, l, r))
    {
      if styleSet == 0 {
        Initialize();
      }
      Append(number, buttons, l, r);
    }

    /** The six stores that fill a slot; after each of them memory is what the store machine says. */
    method FillSlot(currentTail: nat, number: nat, buttons: nat, l: Stick, r: Stick, ghost w0: Writer)
      requires Valid() && styleSet != 0 && currentTail == Value().ring.NextTail()
      requires w0 == Writer(Value().ring, 0, 0, MakeSlot(number, buttons, l, r))
      modifies storage
      ensures Valid() && Value().ring == Stores(w0, w0.target, 6).ring
    {
      ghost var s := w0.target;
      ghost var w := Step(w0, s);
      storage[currentTail] := storage[currentTail].(samplingNumber := number);
      assert w == Stores(w0, s, 1) && Value().ring == w.ring;
      storage[currentTail] := storage[currentTail].(buttons := buttons);
      w := Step(w, s);
      assert w == Stores(w0, s, 2) && Value().ring == w.ring;
      storage[currentTail] := storage[currentTail].(stickL := l);
      w := Step(w, s);
      assert w == Stores(w0, s, 3) && Value().ring == w.ring;
      storage[currentTail] := storage[currentTail].(stickR := r);
      w := Step(w, s);
      assert w == Stores(w0, s, 4) && Value().ring == w.ring;
      storage[currentTail] := storage[currentTail].(attributes := ATTRIBUTES);
      w := Step(w, s);
      assert w == Stores(w0, s, 5) && Value().ring == w.ring;
      storage[currentTail] := storage[currentTail].(reserved := 0);
      w := Step(w, s);
      assert w == Stores(w0, s, 6) && Value().ring == w.ring;
    }

    /** The eight stores of an append: the slot, then the tail, then the count. */
    method Append(number: nat, buttons: nat, l: Stick, r: Stick)
      requires Valid() && styleSet != 0
      modifies this, storage
      ensures Valid() && Shows(number, buttons, l, r)
      ensures Value() == old(Value()).Written(MakeSlot(number, buttons, l, r))
    {
      ghost var s := MakeSlot(number, buttons, l, r);
      ghost var w0 := Writer(Value().ring, 0, 0, s);
      var currentTail := tail + 1;
      if currentTail >= bufferCount {
        currentTail := 0;
      }
      FillSlot(currentTail, number, buttons, l, r, w0);
      FilledWriter(w0, s, 6);
      tail := currentTail;
      assert Value().ring == Stores(w0, s, 7).ring;
      if count < bufferCount {
        count := count + 1;
      }
      assert Value().ring == Stores(w0, s, 8).ring;
      NewestIsPushed(w0.ring, s);
    }
  }

  /** After an append the tail is at the slot appended. */
  lemma NewestIsPushed(r: Ring, s: Slot)
    requires r.WellFormed()
    ensures Push(r, s).storage[Push(r, s).tail] == s
  {
    UnrollIsWindow(r, ZERO_SLOT);
    PushAppends(r, r.Unroll(), r.count, s);
    assert Back(Push(r, s).tail, 0) == Push(r, s).tail;
  }

  lemma {:induction false} FilledWriter(w: Writer, s: Slot, n: nat)
    requires w.WellFormed() && w.pc == 0 && 1 <= n <= 6
    ensures var w' := Stores(w, s, n);
            w'.pc == n && w'.next == w.ring.NextTail() && w'.target == s
            && w'.ring.tail == w.ring.tail && w'.ring.count == w.ring.count && w'.ring.bufferCount == w.ring.bufferCount
  {
    if n > 1 {
      FilledWriter(w, s, n - 1);
    } else {
      assert Stores(w, s, 0) == w;
    }
  }

  // ---------------------------------------------------------------- the entries, the slot table and the controller

  class HidSharedMemoryEntry {
    const npads: seq<NpadState>

    constructor (npads: seq<NpadState>)
      ensures this.npads == npads
    {
      this.npads := npads;
    }
  }

  /** The states are one player's, one for every process. */
  ghost predicate StatesOf(states: seq<NpadState>, entries: seq<HidSharedMemoryEntry>, player: nat) {
    && |states| == |entries|
    && forall i :: 0 <= i < |entries| ==> player < |entries[i].npads| && entries[i].npads[player] == states[i]
  }

  /** Different processes have different memory. */
  ghost predicate Separate(states: seq<NpadState>) {
    forall i, j :: 0 <= i < j < |states| ==> states[i] != states[j] && states[i].storage != states[j].storage
  }

  ghost function Storages(states: seq<NpadState>): set<array<Slot>> {
    set i | 0 <= i < |states| :: states[i].storage
  }

  ghost predicate AllValid(states: seq<NpadState>)
    reads states, Storages(states)
  {
    forall i :: 0 <= i < |states| ==> states[i].storage in Storages(states) && states[i].Valid()
  }

  /** The first i states hold the new sample, the others what they held. */
  ghost predicate WrittenUpTo(states: seq<NpadState>, before: seq<Npad>, first: Slot, i: nat)
    reads states, Storages(states)
  {
    && |before| == |states|
    && AllValid(states)
    && forall j :: 0 <= j < |states| ==>
         && before[j].Valid()
         && states[j].Value() == if j < i then before[j].Written(Numbered(first, j)) else before[j]
  }

  function Numbered(first: Slot, j: nat): Slot {
    first.(samplingNumber := first.samplingNumber + j)
  }

  /** A state that was written shows the sample it was written with. */
  lemma WrittenShows(states: seq<NpadState>, before: seq<Npad>, first: Slot, j: nat)
    requires j < |states| && WrittenUpTo(states, before, first, |states|)
    ensures states[j].tail < states[j].storage.Length
    ensures states[j].storage[states[j].tail] == Numbered(first, j)
  {
    NewestIsPushed(before[j].Ready().ring, Numbered(first, j));
    assert states[j].Value() == before[j].Written(Numbered(first, j));
    assert states[j].Value().ring.storage[states[j].tail] == states[j].storage[states[j].tail];
  }

  class HidSharedMemoryController {
    const playerIdx: nat
    var samplingNumber: nat

    constructor (playerIdx: nat)
      ensures this.playerIdx == playerIdx && samplingNumber == 0
    {
      this.playerIdx := playerIdx;
      samplingNumber := 0;
    }

    /** One sample into every process, each under the next number. */
    method Update(entries: seq<HidSharedMemoryEntry>, buttons: nat, l: Stick, r: Stick,
                  ghost states: seq<NpadState>, ghost before: seq<Npad>)
      requires StatesOf(states, entries, playerIdx) && Separate(states)
      requires WrittenUpTo(states, before, MakeSlot(samplingNumber, buttons, l, r), 0)
      modifies this`samplingNumber, states, Storages(states)
      ensures samplingNumber == old(samplingNumber) + |entries|
      ensures WrittenUpTo(states, before, MakeSlot(old(samplingNumber), buttons, l, r), |entries|)
      ensures forall j :: 0 <= j < |states| ==> states[j].Shows(old(samplingNumber) + j, buttons, l, r)
    {
      ghost var first := MakeSlot(samplingNumber, buttons, l, r);
      for i := 0 to |entries|
        invariant samplingNumber == first.samplingNumber + i
        invariant WrittenUpTo(states, before, first, i)
      {
        WriteEntry(entries[i], buttons, l, r, states, before, first, i);
        samplingNumber := samplingNumber + 1;
      }
      forall j | 0 <= j < |states|
        ensures states[j].Shows(first.samplingNumber + j, buttons, l, r)
      {
        WrittenShows(states, before, first, j);
      }
    }

    /** The part of an update that concerns one process. */
    method WriteEntry(entry: HidSharedMemoryEntry, buttons: nat, l: Stick, r: Stick,
                      ghost states: seq<NpadState>, ghost before: seq<Npad>, ghost first: Slot, ghost i: nat)
      requires i < |states| && playerIdx < |entry.npads| && entry.npads[playerIdx] == states[i]
      requires Separate(states) && WrittenUpTo(states, before, first, i)
      requires Numbered(first, i) == MakeSlot(samplingNumber, buttons, l, r)
      modifies states[i], states[i].storage
      ensures WrittenUpTo(states, before, first, i + 1)
    {
      entry.npads[playerIdx].Write(samplingNumber, buttons, l, r);
      forall j | 0 <= j < |states| && j != i
        ensures states[j].Valid() && states[j].Value() == old(states[j].Value())
      {
        assert states[j] != states[i] && states[j].storage != states[i].storage;
        assert unchanged(states[j]) && unchanged(states[j].storage);
      }
    }
  }

  class HidSharedMemoryManager {
    var entries: seq<HidSharedMemoryEntry>
    var controllerList: seq<HidSharedMemoryController?>

    constructor ()
      ensures entries == [] && controllerList == seq(MAX_PLAYERS, _ => null)
    {
      entries := [];
      controllerList := seq(MAX_PLAYERS, _ => null);
    }

    /** A failed entry is not listed; the status is whatever the system answered. */
    method Add(entry: HidSharedMemoryEntry, status: int) returns (result: int)
      modifies this`entries
      ensures result == status
      ensures entries == if status == 0 then old(entries) + [entry] else old(entries)
    {
      if status != 0 {
        return status;
      }
      entries := entries + [entry];
      return 0;
    }

    method AttachController() returns (c: HidSharedMemoryController?)
      modifies this`controllerList
      ensures var i := FirstIndex(old(controllerList), null);
              if i < |old(controllerList)| then
                && c != null && fresh(c) && c.playerIdx == i && c.samplingNumber == 0
                && controllerList == old(controllerList)[i := c]
              else
                c == null && controllerList == old(controllerList)
    {
      for i := 0 to |controllerList|
        invariant null !in controllerList[..i]
        invariant controllerList == old(controllerList)
      {
        if controllerList[i] == null {
          c := new HidSharedMemoryController(i);
          controllerList := controllerList[i := c];
          return;
        }
      }
      c := null;
    }

    method DetachController(c: HidSharedMemoryController)
      modifies this`controllerList
      ensures controllerList == Release(old(controllerList), c, null)
    {
      for i := 0 to |controllerList|
        invariant c !in controllerList[..i]
        invariant controllerList == old(controllerList)
      {
        if controllerList[i] == c {
          controllerList := controllerList[i := null];
          return;
        }
      }
    }
  }

  /** The table after the first slot that holds p is emptied. */
  function Release<P(==)>(slots: seq<P>, p: P, none: P): (r: seq<P>)
    ensures |r| == |slots|
  {
    var i := FirstIndex(slots, p);
    if i < |slots| then slots[i := none] else slots
  }

  // ---------------------------------------------------------------- a controller's lifetime

  /** What happens to one player's states while one controller object owns that player. */
  datatype Op = Update(buttons: nat, l: Stick, r: Stick) | AddEntry(npad: Npad)

  datatype Write = Write(entry: nat, slot: Slot)

  /** starts: each state as its process brought it; writes: every (entry, slot) written, in order. */
  datatype Life = Life(counter: nat, starts: seq<Npad>, npads: seq<Npad>, writes: seq<Write>) {
    predicate WellFormed() {
      && |starts| == |npads|
      && (forall n :: n in starts ==> n.Valid())
      && (forall n :: n in npads ==> n.Valid())
    }
  }

  function Batch(life: Life, op: Op): (b: seq<Write>)
    requires op.Update?
    ensures |b| == |life.npads|
  {
    seq(|life.npads|, i requires 0 <= i < |life.npads| => Write(i, Numbered(MakeSlot(life.counter, op.buttons, op.l, op.r), i)))
  }

  function Do(life: Life, op: Op): Life
    requires life.WellFormed()
  {
    match op
    case Update(buttons, l, r) =>
      Life(life.counter + |life.npads|,
           life.starts,
           seq(|life.npads|, i requires 0 <= i < |life.npads| =>
             life.npads[i].Written(Numbered(MakeSlot(life.counter, buttons, l, r), i))),
           life.writes + Batch(life, op))
    case AddEntry(npad) =>
      if npad.Valid() then Life(life.counter, life.starts + [npad], life.npads + [npad], life.writes) else life
  }

  /** An update of the controller is an update of its life: the same values in the same states. */
  lemma UpdateIsDo(life: Life, buttons: nat, l: Stick, r: Stick, states: seq<NpadState>, before: seq<Npad>)
    requires life.WellFormed() && life.npads == before
    requires WrittenUpTo(states, before, MakeSlot(life.counter, buttons, l, r), |states|)
    ensures var life' := Do(life, Update(buttons, l, r));
            && |life'.npads| == |states| && life'.counter == life.counter + |states|
            && forall i :: 0 <= i < |states| ==> states[i].Value() == life'.npads[i]
  {
  }

  function Live(life: Life, ops: seq<Op>): (r: Life)
    requires life.WellFormed()
    ensures r.WellFormed()
    decreases |ops|
  {
    if ops == [] then life else Live(Do(life, ops[0]), ops[1..])
  }

  /** The samples written to one entry, in order. */
  function Own(writes: seq<Write>, entry: nat): seq<Slot> {
    if writes == [] then []
    else
      var n := |writes| - 1;
      Own(writes[..n], entry) + if writes[n].entry == entry then [writes[n].slot] else []
  }

  function WriteAll(npad: Npad, slots: seq<Slot>): (r: Npad)
    requires npad.Valid()
    ensures r.Valid() && (slots != [] ==> r.styleSet != 0)
  {
    if slots == [] then npad else WriteAll(npad, slots[..|slots| - 1]).Written(slots[|slots| - 1])
  }

  /** The n-th write overall carries number n, and every state is its start plus its own writes. */
  ghost predicate NumberedInOrder(life: Life) {
    && life.WellFormed()
    && |life.writes| == life.counter
    && (forall n :: 0 <= n < |life.writes| ==>
          life.writes[n].entry < |life.npads| && life.writes[n].slot.samplingNumber == n)
    && (forall i :: 0 <= i < |life.npads| ==> life.npads[i] == WriteAll(life.starts[i], Own(life.writes, i)))
  }

  lemma {:induction false} OwnBatch(writes: seq<Write>, batch: seq<Write>, entry: nat)
    requires forall i :: 0 <= i < |batch| ==> batch[i].entry == i
    ensures Own(writes + batch, entry) == Own(writes, entry) + if entry < |batch| then [batch[entry].slot] else []
    decreases |batch|
  {
    if batch == [] {
      assert writes + batch == writes;
    } else {
      var n := |batch| - 1;
      OwnBatch(writes, batch[..n], entry);
      assert (writes + batch)[..|writes| + n] == writes + batch[..n];
    }
  }

  lemma {:induction false} OwnOfUnknown(writes: seq<Write>, entry: nat)
    requires forall n :: 0 <= n < |writes| ==> writes[n].entry < entry
    ensures Own(writes, entry) == []
  {
    if writes != [] {
      OwnOfUnknown(writes[..|writes| - 1], entry);
    }
  }

  lemma DoKeepsNumbered(life: Life, op: Op)
    requires NumberedInOrder(life)
    ensures NumberedInOrder(Do(life, op))
  {
    match op
    case Update(_, _, _) => UpdateKeepsNumbered(life, op);
    case AddEntry(npad) => AddKeepsNumbered(life, npad);
  }

  lemma AddKeepsNumbered(life: Life, npad: Npad)
    requires NumberedInOrder(life)
    ensures NumberedInOrder(Do(life, AddEntry(npad)))
  {
    var life' := Do(life, AddEntry(npad));
    OwnOfUnknown(life.writes, |life.npads|);
    forall i | 0 <= i < |life'.npads|
      ensures life'.npads[i] == WriteAll(life'.starts[i], Own(life'.writes, i))
    {
      if i == |life.npads| {
        assert Own(life'.writes, i) == [];
      }
    }
  }

  lemma UpdateKeepsNumbered(life: Life, op: Op)
    requires NumberedInOrder(life) && op.Update?
    ensures NumberedInOrder(Do(life, op))
  {
    var life' := Do(life, op);
    forall n | 0 <= n < |life'.writes|
      ensures life'.writes[n].entry < |life'.npads| && life'.writes[n].slot.samplingNumber == n
    {
      if n >= |life.writes| {
        var i := n - |life.writes|;
        assert life'.writes[n] == Batch(life, op)[i] == Write(i, Numbered(MakeSlot(life.counter, op.buttons, op.l, op.r), i));
      }
    }
    forall i | 0 <= i < |life'.npads|
      ensures life'.npads[i] == WriteAll(life'.starts[i], Own(life'.writes, i))
    {
      var s := Numbered(MakeSlot(life.counter, op.buttons, op.l, op.r), i);
      OwnBatch(life.writes, Batch(life, op), i);
      WriteAllSnoc(life.starts[i], Own(life.writes, i), s);
    }
  }

  lemma WriteAllSnoc(npad: Npad, slots: seq<Slot>, s: Slot)
    requires npad.Valid()
    ensures WriteAll(npad, slots + [s]) == WriteAll(npad, slots).Written(s)
  {
    assert (slots + [s])[..|slots|] == slots;
  }

  lemma {:induction false} LiveKeepsNumbered(life: Life, ops: seq<Op>)
    requires NumberedInOrder(life)
    ensures NumberedInOrder(Live(life, ops))
    decreases |ops|
  {
    if ops != [] {
      DoKeepsNumbered(life, ops[0]);
      LiveKeepsNumbered(Do(life, ops[0]), ops[1..]);
    }
  }

  /** A new controller, and the states of the processes that run when it is attached. */
  function Start(npads: seq<Npad>): Life {
    Life(0, npads, npads, [])
  }

  lemma StartIsNumbered(npads: seq<Npad>)
    requires forall n :: n in npads ==> n.Valid()
    ensures NumberedInOrder(Start(npads))
  {
    forall i | 0 <= i < |npads|
      ensures npads[i] == WriteAll(npads[i], Own([], i))
    {
    }
  }

  ghost predicate InOrder(writes: seq<Write>) {
    forall n :: 0 <= n < |writes| ==> writes[n].slot.samplingNumber == n
  }

  /** The samples are writes of one entry, in the order of their numbers, which are their positions. */
  ghost predicate Placed(own: seq<Slot>, writes: seq<Write>, entry: nat) {
    && (forall a, b :: 0 <= a < b < |own| ==> own[a].samplingNumber < own[b].samplingNumber)
    && (forall a :: 0 <= a < |own| ==>
          own[a].samplingNumber < |writes| && writes[own[a].samplingNumber] == Write(entry, own[a]))
  }

  lemma {:induction false} OwnIsPlaced(writes: seq<Write>, entry: nat)
    requires InOrder(writes)
    ensures Placed(Own(writes, entry), writes, entry)
  {
    if writes != [] {
      var n := |writes| - 1;
      OwnIsPlaced(writes[..n], entry);
      PlacedGrows(Own(writes[..n], entry), writes, entry);
    }
  }

  lemma PlacedGrows(before: seq<Slot>, writes: seq<Write>, entry: nat)
    requires writes != [] && InOrder(writes) && Placed(before, writes[..|writes| - 1], entry)
    ensures Placed(before, writes, entry)
    ensures var last := writes[|writes| - 1];
            last.entry == entry ==> Placed(before + [last.slot], writes, entry)
  {
    var n := |writes| - 1;
    forall a | 0 <= a < |before|
      ensures before[a].samplingNumber < n && writes[before[a].samplingNumber] == Write(entry, before[a])
    {
      assert writes[..n][before[a].samplingNumber] == Write(entry, before[a]);
    }
  }

  function TotalOwn(writes: seq<Write>, entries: nat): nat {
    if entries == 0 then 0 else TotalOwn(writes, entries - 1) + |Own(writes, entries - 1)|
  }

  lemma {:induction false} TotalSnoc(writes: seq<Write>, w: Write, entries: nat)
    ensures TotalOwn(writes + [w], entries) == TotalOwn(writes, entries) + if w.entry < entries then 1 else 0
  {
    if entries > 0 {
      TotalSnoc(writes, w, entries - 1);
      assert (writes + [w])[..|writes|] == writes;
    }
  }

  lemma {:induction false} TotalIsAll(writes: seq<Write>, entries: nat)
    requires forall n :: 0 <= n < |writes| ==> writes[n].entry < entries
    ensures TotalOwn(writes, entries) == |writes|
  {
    if writes == [] {
      NoWrites(entries);
    } else {
      var n := |writes| - 1;
      TotalIsAll(writes[..n], entries);
      TotalSnoc(writes[..n], writes[n], entries);
      assert writes[..n] + [writes[n]] == writes;
    }
  }

  lemma {:induction false} NoWrites(entries: nat)
    ensures TotalOwn([], entries) == 0
  {
    if entries > 0 {
      NoWrites(entries - 1);
    }
  }

  /**
   Over a controller's life, whatever entries come along, the numbers it writes
   to one process strictly increase, no number is used twice anywhere, and the
   counter is the number of samples it has written in all processes together.
   */
  lemma LifetimeNumbers(npads: seq<Npad>, ops: seq<Op>)
    requires forall n :: n in npads ==> n.Valid()
    ensures var life := Live(Start(npads), ops);
            && life.counter == TotalOwn(life.writes, |life.npads|)
            && (forall i, a, b :: 0 <= a < b < |Own(life.writes, i)| ==>
                  Own(life.writes, i)[a].samplingNumber < Own(life.writes, i)[b].samplingNumber)
            && (forall i, j, a, b :: i != j && 0 <= a < |Own(life.writes, i)| && 0 <= b < |Own(life.writes, j)| ==>
                  Own(life.writes, i)[a].samplingNumber != Own(life.writes, j)[b].samplingNumber)
  {
    StartIsNumbered(npads);
    LiveKeepsNumbered(Start(npads), ops);
    var writes := Live(Start(npads), ops).writes;
    TotalIsAll(writes, |Live(Start(npads), ops).npads|);
    forall i: nat
      ensures Placed(Own(writes, i), writes, i)
    {
      OwnIsPlaced(writes, i);
    }
  }

  lemma {:induction false} WriteAllAtRest(npad: Npad, slots: seq<Slot>)
    requires npad.Valid() && slots != []
    ensures AtRest(WriteAll(npad, slots).ring, npad.Ready().ring.Unroll() + slots, npad.Ready().ring.count)
  {
    var n := |slots| - 1;
    var log := npad.Ready().ring.Unroll();
    if n == 0 {
      UnrollIsWindow(npad.Ready().ring, ZERO_SLOT);
      PushAppends(npad.Ready().ring, log, npad.Ready().ring.count, slots[0]);
      assert slots == [slots[0]] && slots[..0] == [];
    } else {
      WriteAllAtRest(npad, slots[..n]);
      PushAppends(WriteAll(npad, slots[..n]).ring, log + slots[..n], npad.Ready().ring.count, slots[n]);
      assert log + slots[..n] + [slots[n]] == log + slots;
    }
  }

  /**
   Between updates every process sees this controller's newest samples, newest
   first, and counts them on top of what its memory held at the start; a memory
   that was cleared first shows nothing but them.
   */
  lemma LifetimeReader(npads: seq<Npad>, ops: seq<Op>, i: nat, n: nat)
    requires forall p :: p in npads ==> p.Valid()
    requires i < |Live(Start(npads), ops).npads|
    requires n <= |Own(Live(Start(npads), ops).writes, i)| && 0 < n <= CAPACITY
    ensures var life := Live(Start(npads), ops);
            var own := Own(life.writes, i);
            var ring := life.npads[i].ring;
            && ring.WellFormed()
            && ring.Walk(n) == seq(n, k requires 0 <= k < n => own[|own| - 1 - k])
            && ring.count == Min(life.starts[i].Ready().ring.count + |own|, CAPACITY)
            && (life.starts[i].styleSet == 0 ==> ring.count == Min(|own|, CAPACITY))
  {
    StartIsNumbered(npads);
    LiveKeepsNumbered(Start(npads), ops);
    var life := Live(Start(npads), ops);
    assert life.npads[i] == WriteAll(life.starts[i], Own(life.writes, i));
    WrittenReader(life.starts[i], Own(life.writes, i), n);
  }

  lemma WrittenReader(start: Npad, own: seq<Slot>, n: nat)
    requires start.Valid() && 0 < n <= |own| && n <= CAPACITY
    ensures var ring := WriteAll(start, own).ring;
            && ring.WellFormed()
            && ring.Walk(n) == seq(n, k requires 0 <= k < n => own[|own| - 1 - k])
            && ring.count == Min(start.Ready().ring.count + |own|, CAPACITY)
            && (start.styleSet == 0 ==> ring.count == Min(|own|, CAPACITY))
  {
    var ready := start.Ready().ring;
    WriteAllAtRest(start, own);
    RestingRing(WriteAll(start, own).ring, ready.Unroll(), own, ready.count, n);
  }

  lemma RestingRing(ring: Ring, prior: seq<Slot>, own: seq<Slot>, count0: nat, n: nat)
    requires AtRest(ring, prior + own, count0) && |prior| == CAPACITY
    requires n <= |own| && n <= CAPACITY
    ensures ring.Walk(n) == seq(n, k requires 0 <= k < n => own[|own| - 1 - k])
    ensures ring.count == Min(count0 + |own|, CAPACITY)
  {
    forall k | 0 <= k < n
      ensures ring.storage[Back(ring.tail, k)] == own[|own| - 1 - k]
    {
      assert (prior + own)[|prior + own| - 1 - k] == own[|own| - 1 - k];
    }
  }

  // ---------------------------------------------------------------- what the samples say

  /** What an operation is for process i: an update, if the process is there. */
  function UpdateFor(op: Op, processes: nat, i: nat): seq<Op> {
    if op.Update? && i < processes then [op] else []
  }

  function ProcessesAfter(op: Op, processes: nat): nat {
    if op.AddEntry? && op.npad.Valid() then processes + 1 else processes
  }

  /** The updates since process i came along, given how many processes there are. */
  function UpdatesSince(ops: seq<Op>, processes: nat, i: nat): seq<Op> {
    if ops == [] then []
    else UpdateFor(ops[0], processes, i) + UpdatesSince(ops[1..], ProcessesAfter(ops[0], processes), i)
  }

  /** One slot for each update, in order, with its buttons and with each stick in its own field; connected and wired. */
  ghost predicate Carries(slots: seq<Slot>, updates: seq<Op>) {
    && |slots| == |updates|
    && forall j :: 0 <= j < |slots| ==>
         && updates[j].Update?
         && slots[j].buttons == updates[j].buttons
         && slots[j].stickL == updates[j].l && slots[j].stickR == updates[j].r
         && slots[j].attributes == 0x3 && slots[j].reserved == 0
  }

  lemma DoCarries(life: Life, op: Op, i: nat) returns (first: seq<Slot>)
    requires NumberedInOrder(life)
    ensures Own(Do(life, op).writes, i) == Own(life.writes, i) + first
    ensures Carries(first, UpdateFor(op, |life.npads|, i)) && |Do(life, op).npads| == ProcessesAfter(op, |life.npads|)
  {
    first := [];
    if op.Update? {
      OwnBatch(life.writes, Batch(life, op), i);
      if i < |life.npads| {
        first := [Batch(life, op)[i].slot];
      }
    }
  }

  lemma CarriesOn(first: seq<Slot>, later: seq<Slot>, op: seq<Op>, ops: seq<Op>)
    requires Carries(first, op) && Carries(later, ops)
    ensures Carries(first + later, op + ops)
  {
  }

  lemma {:induction false} LiveCarries(life: Life, ops: seq<Op>, i: nat) returns (more: seq<Slot>)
    requires NumberedInOrder(life)
    ensures Own(Live(life, ops).writes, i) == Own(life.writes, i) + more
    ensures Carries(more, UpdatesSince(ops, |life.npads|, i))
    decreases |ops|
  {
    if ops == [] {
      more := [];
    } else {
      var first := DoCarries(life, ops[0], i);
      DoKeepsNumbered(life, ops[0]);
      var later := LiveCarries(Do(life, ops[0]), ops[1..], i);
      more := first + later;
      Assoc(Own(life.writes, i), first, later);
      CarriesOn(first, later, UpdateFor(ops[0], |life.npads|, i), UpdatesSince(ops[1..], |Do(life, ops[0]).npads|, i));
    }
  }

  /** The samples a process gets are, in order, the updates since it came along, one each, saying what the update said. */
  lemma SamplesSayUpdates(npads: seq<Npad>, ops: seq<Op>, i: nat)
    requires forall p :: p in npads ==> p.Valid()
    ensures Carries(Own(Live(Start(npads), ops).writes, i), UpdatesSince(ops, |npads|, i))
  {
    StartIsNumbered(npads);
    var more := LiveCarries(Start(npads), ops, i);
    assert Own(Start(npads).writes, i) + more == more;
  }

  // ---------------------------------------------------------------- the next controller of the same player

  /** Entries are written in turn: a sample's number is at least its entry's, and the first n entries come first. */
  ghost predicate InTurn(writes: seq<Write>, n: nat) {
    && (forall j :: 0 <= j < |writes| ==> writes[j].slot.samplingNumber >= writes[j].entry)
    && (writes != [] ==> |writes| >= n && forall j :: 0 <= j < n ==> writes[j].entry == j)
  }

  lemma UpdateKeepsTurn(life: Life, op: Op, n: nat)
    requires NumberedInOrder(life) && InTurn(life.writes, n) && |life.npads| >= n && op.Update?
    ensures InTurn(Do(life, op).writes, n)
  {
    var writes := Do(life, op).writes;
    forall j | 0 <= j < |writes|
      ensures writes[j].slot.samplingNumber >= writes[j].entry
      ensures j < n ==> writes[j].entry == j
    {
      if j >= |life.writes| {
        var i := j - |life.writes|;
        assert writes[j] == Batch(life, op)[i] == Write(i, Numbered(MakeSlot(life.counter, op.buttons, op.l, op.r), i));
      }
    }
  }

  lemma {:induction false} LiveKeepsTurn(life: Life, ops: seq<Op>, n: nat)
    requires NumberedInOrder(life) && InTurn(life.writes, n) && |life.npads| >= n
    ensures InTurn(Live(life, ops).writes, n) && |Live(life, ops).npads| >= n
    decreases |ops|
  {
    if ops != [] {
      if ops[0].Update? {
        UpdateKeepsTurn(life, ops[0], n);
      }
      DoKeepsNumbered(life, ops[0]);
      LiveKeepsTurn(Do(life, ops[0]), ops[1..], n);
    }
  }

  lemma {:induction false} OwnHas(writes: seq<Write>, entry: nat, j: nat)
    requires j < |writes| && writes[j].entry == entry
    ensures writes[j].slot in Own(writes, entry)
  {
    var n := |writes| - 1;
    if j < n {
      assert writes[..n][j] == writes[j];
      OwnHas(writes[..n], entry, j);
    }
  }

  /** The first number an entry gets is its place in the list, if it was there from the start. */
  lemma FirstNumber(writes: seq<Write>, n: nat, i: nat)
    requires InOrder(writes) && InTurn(writes, n)
    ensures forall a :: 0 <= a < |Own(writes, i)| ==> Own(writes, i)[a].samplingNumber >= i
    ensures i < n && Own(writes, i) != [] ==> Own(writes, i)[0].samplingNumber == i
  {
    OwnIsPlaced(writes, i);
    var own := Own(writes, i);
    forall a | 0 <= a < |own|
      ensures own[a].samplingNumber >= i
    {
      assert writes[own[a].samplingNumber] == Write(i, own[a]);
    }
    if i < n && own != [] {
      OwnHas(writes, i, i);
      var a :| 0 <= a < |own| && own[a] == writes[i].slot;
      assert own[a].samplingNumber == i;
    }
  }

  ghost predicate NumbersRise(slots: seq<Slot>) {
    forall a, b :: 0 <= a < b < |slots| ==> slots[a].samplingNumber < slots[b].samplingNumber
  }

  /**
   A player's next controller starts over with its numbers and finds the states as
   they were left.  Behind those of the controller before, its numbers rise in a
   process exactly when one of the two has written nothing there.
   */
  lemma NextControllerStartsOver(npads: seq<Npad>, ops: seq<Op>, later: seq<Op>, i: nat)
    requires forall p :: p in npads ==> p.Valid()
    requires i < |Live(Start(npads), ops).npads|
    ensures var life := Live(Start(npads), ops);
            var own, next := Own(life.writes, i), Own(Live(Start(life.npads), later).writes, i);
            NumbersRise(own + next) <==> own == [] || next == []
  {
    var life := Live(Start(npads), ops);
    StartIsNumbered(npads);
    LiveKeepsNumbered(Start(npads), ops);
    LiveKeepsTurn(Start(npads), ops, 0);
    var life' := Live(Start(life.npads), later);
    StartIsNumbered(life.npads);
    LiveKeepsNumbered(Start(life.npads), later);
    LiveKeepsTurn(Start(life.npads), later, |life.npads|);
    FirstNumber(life.writes, 0, i);
    FirstNumber(life'.writes, |life.npads|, i);
    OwnIsPlaced(life.writes, i);
    OwnIsPlaced(life'.writes, i);
    RiseExactly(Own(life.writes, i), Own(life'.writes, i), i);
  }

  lemma RiseExactly(own: seq<Slot>, next: seq<Slot>, i: nat)
    requires NumbersRise(own) && NumbersRise(next)
    requires forall a :: 0 <= a < |own| ==> own[a].samplingNumber >= i
    requires next != [] ==> next[0].samplingNumber == i
    ensures NumbersRise(own + next) <==> own == [] || next == []
  {
    if own == [] {
      assert own + next == next;
    } else if next == [] {
      assert own + next == own;
    } else {
      assert (own + next)[0] == own[0] && (own + next)[|own|] == next[0];
    }
  }

  /** One update each, and the later number is not greater. */
  lemma SecondUpdateIsNotNewer(npad: Npad, buttons: nat, l: Stick, r: Stick)
    requires npad.Valid()
    ensures var first := Do(Start([npad]), Update(buttons, l, r));
            var second := Do(Start(first.npads), Update(buttons, l, r));
            first.writes[0].slot.samplingNumber == second.writes[0].slot.samplingNumber == 0
  {
    StartIsNumbered([npad]);
    DoKeepsNumbered(Start([npad]), Update(buttons, l, r));
    var first := Do(Start([npad]), Update(buttons, l, r));
    StartIsNumbered(first.npads);
    DoKeepsNumbered(Start(first.npads), Update(buttons, l, r));
  }
}
