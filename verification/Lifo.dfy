/**
 The 17-slot LIFO that a virtual pad publishes in shared memory: a header
 (buffer count, tail, count) and a storage array.  The writer stores the six
 fields of a slot one by one, then the tail, then the count; a game reads the
 same memory without any lock, so it may look between any two of those stores.

 The writer is a machine of single stores.  Its partner is an unbounded log of
 every sample ever published: the ring is proved to be a window on that log.
 */
module Lifo {

  const CAPACITY: nat := 17

  datatype Stick = Stick(x: int, y: int)

  datatype Slot = Slot(samplingNumber: nat, buttons: nat, stickL: Stick, stickR: Stick, attributes: nat, reserved: nat)

  const ZERO_SLOT := Slot(0, 0, Stick(0, 0), Stick(0, 0), 0, 0)

  datatype Ring = Ring(bufferCount: nat, tail: nat, count: nat, storage: seq<Slot>) {

    /** The header every reader and writer relies on. */
    predicate WellFormed() {
      && bufferCount == CAPACITY
      && tail < CAPACITY
      && count <= CAPACITY
      && |storage| == CAPACITY
    }

    function NextTail(): nat {
      if tail + 1 >= bufferCount then 0 else tail + 1
    }

    /** What a reader sees that walks back n entries from the tail, newest first. */
    function Walk(n: nat): seq<Slot>
      requires WellFormed() && n <= CAPACITY
    {
      seq(n, k requires 0 <= k < n => storage[Back(tail, k)])
    }

    /** All slots, oldest first: the log of a ring whose past is unknown. */
    function Unroll(): (log: seq<Slot>)
      requires WellFormed()
      ensures |log| == CAPACITY
    {
      seq(CAPACITY, j requires 0 <= j < CAPACITY => storage[Back(tail, CAPACITY - 1 - j)])
    }
  }

  /** The index k slots before the tail, going round. */
  function Back(tail: nat, k: nat): (i: nat)
    requires tail < CAPACITY && k < CAPACITY
    ensures i < CAPACITY
  {
    if k <= tail then tail - k else tail + CAPACITY - k
  }

  /** The ring left by clearing an internal state and setting its header. */
  function FreshRing(): Ring {
    Ring(CAPACITY, 0, 0, seq(CAPACITY, _ => ZERO_SLOT))
  }

  // ---------------------------------------------------------------- writer

  /** Stores in progress: pc fields of target are in slot next; 7 means the tail is published, the count not yet. */
  datatype Writer = Writer(ring: Ring, pc: nat, next: nat, target: Slot) {
    predicate WellFormed() {
      ring.WellFormed() && pc <= 7 && next < CAPACITY
    }

    predicate MidFill() {
      1 <= pc <= 6
    }
  }

  /** The slot after storing field number `field` of t, counted in the order of the stores. */
  function StoreField(s: Slot, t: Slot, field: nat): Slot {
    match field
    case 1 => s.(samplingNumber := t.samplingNumber)
    case 2 => s.(buttons := t.buttons)
    case 3 => s.(stickL := t.stickL)
    case 4 => s.(stickR := t.stickR)
    case 5 => s.(attributes := t.attributes)
    case _ => s.(reserved := t.reserved)
  }

  /** The slot after the first n stores. */
  function Partial(s: Slot, t: Slot, n: nat): Slot {
    if n == 0 then s else StoreField(Partial(s, t, n - 1), t, n)
  }

  /** One store.  The sample is taken up only by an idle writer. */
  function Step(w: Writer, sample: Slot): (r: Writer)
    requires w.WellFormed()
    ensures r.WellFormed()
  {
    if w.pc == 0 then
      var next := w.ring.NextTail();
      Writer(FieldStored(w.ring, next, sample, 1), 1, next, sample)
    else if w.pc < 6 then
      Writer(FieldStored(w.ring, w.next, w.target, w.pc + 1), w.pc + 1, w.next, w.target)
    else if w.pc == 6 then
      Writer(w.ring.(tail := w.next), 7, w.next, w.target)
    else
      Writer(w.ring.(count := if w.ring.count < w.ring.bufferCount then w.ring.count + 1 else w.ring.count),
             0, w.next, w.target)
  }

  function FieldStored(r: Ring, i: nat, t: Slot, field: nat): Ring
    requires r.WellFormed() && i < CAPACITY
  {
    r.(storage := r.storage[i := StoreField(r.storage[i], t, field)])
  }

  /** The log grows when a tail is published. */
  function LogStep(w: Writer, log: seq<Slot>): seq<Slot> {
    if w.pc == 6 then log + [w.target] else log
  }

  /** A run: one store per offered sample, so every prefix is a point a reader may see. */
  function Exec(w: Writer, log: seq<Slot>, offers: seq<Slot>): (r: (Writer, seq<Slot>))
    requires w.WellFormed()
    ensures r.0.WellFormed() && log <= r.1
    decreases |offers|
  {
    if offers == [] then (w, log) else Exec(Step(w, offers[0]), LogStep(w, log), offers[1..])
  }

  /** The first n stores of an update with sample s. */
  function Stores(w: Writer, s: Slot, n: nat): (w': Writer)
    requires w.WellFormed()
    ensures w'.WellFormed()
  {
    if n == 0 then w else Step(Stores(w, s, n - 1), s)
  }

  const STORES_PER_UPDATE: nat := 8

  /** A whole append. */
  function Push(r: Ring, s: Slot): (r': Ring)
    requires r.WellFormed()
    ensures r'.WellFormed()
  {
    Stores(Writer(r, 0, 0, s), s, STORES_PER_UPDATE).ring
  }

  // ---------------------------------------------------------------- the ring is a window on the log

  function Min(a: int, b: int): int {
    if a < b then a else b
  }

  /** How many of the newest log entries no store in progress has touched. */
  function Intact(w: Writer): nat {
    if w.MidFill() then CAPACITY - 1 else CAPACITY
  }

  /**
   The k-th newest log entry lives k slots before the tail; the last seventeen
   entries are all there, except the one being overwritten, whose slot holds a
   prefix of the new sample.
   */
  ghost predicate Window(w: Writer, log: seq<Slot>) {
    && w.WellFormed()
    && |log| >= CAPACITY
    && (forall k :: 0 <= k < Intact(w) ==> w.ring.storage[Back(w.ring.tail, k)] == log[|log| - 1 - k])
    && (w.pc != 0 ==> w.next == if w.pc == 7 then w.ring.tail else w.ring.NextTail())
    && (w.MidFill() ==> w.ring.storage[w.next] == Partial(log[|log| - CAPACITY], w.target, w.pc))
  }

  /** The published count: prior entries plus completed appends, saturating. */
  ghost predicate Counted(w: Writer, log: seq<Slot>, count0: nat) {
    && |log| >= CAPACITY
    && w.ring.count == Min(count0 + |log| - CAPACITY - (if w.pc == 7 then 1 else 0), CAPACITY)
    && (w.pc == 7 ==> |log| > CAPACITY)
  }

  lemma UnrollIsWindow(r: Ring, s: Slot)
    requires r.WellFormed()
    ensures Window(Writer(r, 0, 0, s), r.Unroll())
    ensures Counted(Writer(r, 0, 0, s), r.Unroll(), r.count)
  {
    forall k | 0 <= k < CAPACITY
      ensures r.storage[Back(r.tail, k)] == r.Unroll()[CAPACITY - 1 - k]
    {
    }
  }

  lemma PartialComplete(s: Slot, t: Slot)
    ensures Partial(s, t, 6) == t
  {
    assert Partial(s, t, 5) == StoreField(Partial(s, t, 4), t, 5);
    assert Partial(s, t, 3) == StoreField(Partial(s, t, 2), t, 3);
    assert Partial(s, t, 1) == StoreField(s, t, 1);
  }

  lemma FillKeepsWindow(w: Writer, log: seq<Slot>, sample: Slot)
    requires Window(w, log) && w.pc < 6
    ensures Window(Step(w, sample), log)
  {
    var w' := Step(w, sample);
    assert w'.next == w.ring.NextTail() == Back(w.ring.tail, CAPACITY - 1);
    if w.pc == 0 {
      assert Partial(log[|log| - CAPACITY], sample, 0) == w.ring.storage[w'.next];
    }
    assert w'.ring.storage[w'.next] == Partial(log[|log| - CAPACITY], w'.target, w'.pc);
    assert w'.ring == w.ring.(storage := w.ring.storage[w'.next := w'.ring.storage[w'.next]]);
  }

  lemma PublishKeepsWindow(w: Writer, log: seq<Slot>, sample: Slot)
    requires Window(w, log) && w.pc == 6
    ensures Window(Step(w, sample), log + [w.target])
  {
    var w', log' := Step(w, sample), log + [w.target];
    PartialComplete(log[|log| - CAPACITY], w.target);
    forall k | 0 <= k < CAPACITY
      ensures w'.ring.storage[Back(w'.ring.tail, k)] == log'[|log'| - 1 - k]
    {
      if k > 0 {
        assert Back(w'.ring.tail, k) == Back(w.ring.tail, k - 1);
      }
    }
  }

  lemma StepKeepsWindow(w: Writer, log: seq<Slot>, sample: Slot)
    requires Window(w, log)
    ensures Window(Step(w, sample), LogStep(w, log))
  {
    if w.pc < 6 {
      FillKeepsWindow(w, log, sample);
    } else if w.pc == 6 {
      PublishKeepsWindow(w, log, sample);
    }
  }

  lemma {:induction false} ExecKeepsWindow(w: Writer, log: seq<Slot>, offers: seq<Slot>)
    requires Window(w, log)
    ensures Window(Exec(w, log, offers).0, Exec(w, log, offers).1)
    decreases |offers|
  {
    if offers != [] {
      StepKeepsWindow(w, log, offers[0]);
      ExecKeepsWindow(Step(w, offers[0]), LogStep(w, log), offers[1..]);
    }
  }

  lemma {:induction false} ExecCounts(w: Writer, log: seq<Slot>, count0: nat, offers: seq<Slot>)
    requires w.WellFormed() && Counted(w, log, count0)
    ensures Counted(Exec(w, log, offers).0, Exec(w, log, offers).1, count0)
    decreases |offers|
  {
    if offers != [] {
      ExecCounts(Step(w, offers[0]), LogStep(w, log), count0, offers[1..]);
    }
  }

  /** A run that starts from a ring found in memory, with nothing in progress. */
  function Run(r: Ring, offers: seq<Slot>): (Writer, seq<Slot>)
    requires r.WellFormed()
  {
    Exec(Writer(r, 0, 0, ZERO_SLOT), r.Unroll(), offers)
  }

  lemma RunIsWindow(r: Ring, offers: seq<Slot>)
    requires r.WellFormed()
    ensures Window(Run(r, offers).0, Run(r, offers).1)
    ensures Counted(Run(r, offers).0, Run(r, offers).1, r.count)
  {
    UnrollIsWindow(r, ZERO_SLOT);
    ExecKeepsWindow(Writer(r, 0, 0, ZERO_SLOT), r.Unroll(), offers);
    ExecCounts(Writer(r, 0, 0, ZERO_SLOT), r.Unroll(), r.count, offers);
  }

  /**
   Whatever the point between two stores, a reader that walks back at most
   min(count, 16) entries sees exactly the newest published samples, newest
   first; with no slot being filled that holds of all seventeen.
   */
  lemma ReaderSeesNewest(r: Ring, offers: seq<Slot>, n: nat)
    requires r.WellFormed()
    requires n <= Min(Run(r, offers).0.ring.count, CAPACITY - 1) || (!Run(r, offers).0.MidFill() && n <= CAPACITY)
    ensures var (w, log) := Run(r, offers);
            |log| >= CAPACITY && w.ring.Walk(n) == seq(n, k requires 0 <= k < n => log[|log| - 1 - k])
  {
    RunIsWindow(r, offers);
  }

  /** A ring that was cleared counts exactly the samples pushed since, up to the capacity. */
  lemma FreshRingCountsPushes(offers: seq<Slot>)
    ensures var (w, log) := Run(FreshRing(), offers);
            w.ring.count == Min(|log| - CAPACITY - (if w.pc == 7 then 1 else 0), CAPACITY)
  {
    RunIsWindow(FreshRing(), offers);
  }

  /** A ring at rest shows the newest entries of a log and counts those after the first `base`. */
  ghost predicate AtRest(r: Ring, log: seq<Slot>, count0: nat) {
    && r.WellFormed()
    && Window(Writer(r, 0, 0, ZERO_SLOT), log)
    && Counted(Writer(r, 0, 0, ZERO_SLOT), log, count0)
  }

  lemma {:induction false} StoresKeepWindow(w: Writer, log: seq<Slot>, s: Slot, n: nat)
    requires Window(w, log) && w.pc == 0 && n <= 6
    ensures var w' := Stores(w, s, n);
            Window(w', log) && w'.pc == n && (n > 0 ==> w'.target == s) && w'.ring.count == w.ring.count
  {
    if n > 0 {
      StoresKeepWindow(w, log, s, n - 1);
      FillKeepsWindow(Stores(w, s, n - 1), log, s);
    }
  }

  /** A whole append adds one entry to the log. */
  lemma PushAppends(r: Ring, log: seq<Slot>, count0: nat, s: Slot)
    requires AtRest(r, log, count0)
    ensures AtRest(Push(r, s), log + [s], count0)
  {
    var w0 := Writer(r, 0, 0, s);
    StoresKeepWindow(w0, log, s, 6);
    var w6 := Stores(w0, s, 6);
    PublishKeepsWindow(w6, log, s);
    var w7 := Step(w6, s);
    assert w7 == Stores(w0, s, 7);
    assert Window(Step(w7, s), log + [s]);
  }

  // ---------------------------------------------------------------- reading while the writer runs

  /** Sampling numbers grow from log index `from` on, including those of an append in progress. */
  ghost predicate NumbersGrow(w: Writer, log: seq<Slot>, from: nat) {
    && (forall i, j :: from <= i < j < |log| ==> log[i].samplingNumber < log[j].samplingNumber)
    && (w.MidFill() ==> forall i :: from <= i < |log| ==> log[i].samplingNumber < w.target.samplingNumber)
  }

  /** Appends begun after the log had length n. */
  function BegunSince(w: Writer, log: seq<Slot>, n: nat): int {
    |log| - n + if w.MidFill() then 1 else 0
  }

  lemma StepMovesTail(w: Writer, log: seq<Slot>, offer: Slot)
    requires Window(w, log)
    ensures |log| <= |LogStep(w, log)|
    ensures Step(w, offer).ring.tail == (w.ring.tail + |LogStep(w, log)| - |log|) % CAPACITY
  {
  }

  lemma {:induction false} TailMoves(w: Writer, log: seq<Slot>, offers: seq<Slot>)
    requires Window(w, log)
    ensures var (w', log') := Exec(w, log, offers);
            |log| <= |log'| && w'.ring.tail == (w.ring.tail + |log'| - |log|) % CAPACITY
    decreases |offers|
  {
    if offers != [] {
      var w1, log1 := Step(w, offers[0]), LogStep(w, log);
      StepKeepsWindow(w, log, offers[0]);
      StepMovesTail(w, log, offers[0]);
      TailMoves(w1, log1, offers[1..]);
      ModAdd(w.ring.tail + |log1| - |log|, |Exec(w1, log1, offers[1..]).1| - |log1|);
    }
  }

  lemma ModAdd(a: nat, d: nat)
    ensures (a % CAPACITY + d) % CAPACITY == (a + d) % CAPACITY
  {
  }

  /** After d appends the slot k before the old tail is (k + d) mod 17 before the new one. */
  lemma BackAfter(tail: nat, k: nat, d: nat)
    requires tail < CAPACITY && k < CAPACITY
    ensures Back((tail + d) % CAPACITY, (k + d) % CAPACITY) == Back(tail, k)
  {
  }

  /**
   A reader loads the tail, the writer runs on for any number of stores, then
   the reader reads the slot of the k-th newest sample.  That slot still holds
   that sample exactly when k plus the number of appends begun since does not
   exceed 16, and the sampling number alone tells the reader which is the case.
   */
  lemma SlotSurvives(w: Writer, log: seq<Slot>, offers: seq<Slot>, k: nat)
    requires Window(w, log) && k < CAPACITY
    requires NumbersGrow(Exec(w, log, offers).0, Exec(w, log, offers).1, |log| - 1 - k)
    ensures var (w', log') := Exec(w, log, offers);
            var seen := w'.ring.storage[Back(w.ring.tail, k)];
            && (seen == log[|log| - 1 - k] <==> k + BegunSince(w', log', |log|) <= CAPACITY - 1)
            && (seen.samplingNumber == log[|log| - 1 - k].samplingNumber
                <==> k + BegunSince(w', log', |log|) <= CAPACITY - 1)
  {
    var (w', log') := Exec(w, log, offers);
    ExecKeepsWindow(w, log, offers);
    TailMoves(w, log, offers);
    var d := |log'| - |log|;
    BackAfter(w.ring.tail, k, d);
    AgedExactly(w', log', k + d);
    assert log'[|log'| - 1 - (k + d)] == log[|log| - 1 - k];
  }

  lemma AgedExactly(w: Writer, log: seq<Slot>, a: nat)
    requires Window(w, log) && a < |log|
    requires NumbersGrow(w, log, |log| - 1 - a)
    ensures var seen, was := w.ring.storage[Back(w.ring.tail, a % CAPACITY)], log[|log| - 1 - a];
            && (seen == was <==> a < Intact(w))
            && (seen.samplingNumber == was.samplingNumber <==> a < Intact(w))
  {
    AgedSlot(w, log, a);
  }

  /** The slot that once held entry `a` from the end holds it still exactly while fewer than `Intact` came after. */
  lemma AgedSlot(w: Writer, log: seq<Slot>, a: nat)
    requires Window(w, log) && a < |log|
    requires NumbersGrow(w, log, |log| - 1 - a)
    ensures var seen := w.ring.storage[Back(w.ring.tail, a % CAPACITY)];
            && (a < Intact(w) ==> seen == log[|log| - 1 - a])
            && (a >= Intact(w) ==> seen.samplingNumber > log[|log| - 1 - a].samplingNumber)
  {
    var age := a % CAPACITY;
    if age < Intact(w) {
      assert w.ring.storage[Back(w.ring.tail, age)] == log[|log| - 1 - age];
    } else {
      assert w.next == Back(w.ring.tail, CAPACITY - 1);
      PartialNumber(log[|log| - CAPACITY], w.target, w.pc);
    }
  }

  lemma {:induction false} PartialNumber(s: Slot, t: Slot, n: nat)
    requires n >= 1
    ensures Partial(s, t, n).samplingNumber == t.samplingNumber
  {
    if n > 1 {
      PartialNumber(s, t, n - 1);
    }
  }

  /** Offers whose numbers grow past those logged keep the log's numbers growing. */
  lemma {:induction false} GrowingOffers(w: Writer, log: seq<Slot>, from: nat, offers: seq<Slot>)
    requires w.WellFormed() && NumbersGrow(w, log, from)
    requires forall i, j :: 0 <= i < j < |offers| ==> offers[i].samplingNumber < offers[j].samplingNumber
    requires forall i, j :: from <= i < |log| && 0 <= j < |offers| ==> log[i].samplingNumber < offers[j].samplingNumber
    requires w.MidFill() ==> forall j :: 0 <= j < |offers| ==> w.target.samplingNumber < offers[j].samplingNumber
    ensures NumbersGrow(Exec(w, log, offers).0, Exec(w, log, offers).1, from)
    decreases |offers|
  {
    if offers != [] {
      GrowingOffers(Step(w, offers[0]), LogStep(w, log), from, offers[1..]);
    }
  }
}
