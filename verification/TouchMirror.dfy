/**
 The touchscreen mirror.  The system appends touch samples to the live ring; a
 polling thread chases it in a fake ring of its own, copying whatever sample is
 newest when it finds the two tails apart.  Appends may fall between any two of
 the poller's memory accesses.
 */
module TouchMirror {
  import opened Lifo

  /** The count the system shows once its ring has filled up; nothing is copied before that. */
  const FULL_COUNT: nat := 16

  datatype TouchRing<T> = TouchRing(bufferCount: nat, tail: nat, count: nat, storage: seq<T>) {
    predicate WellFormed() {
      bufferCount == CAPACITY && tail < CAPACITY && |storage| == CAPACITY
    }

    function NextTail(): nat {
      if tail + 1 >= bufferCount then 0 else tail + 1
    }
  }

  /**
   live, log, filling: the foreign ring, every sample it ever published, and the
   sample being written.  fake, prevTail: the mirror.  The rest belongs to a poll
   in progress: its program counter, the tail it loaded and the newest log index at
   that moment, the copied sample and the slot it goes to.  origins records, for
   every mirrored sample, the log index it was meant to be.
   */
  datatype Mirror<T> = Mirror(
    live: TouchRing<T>, log: seq<T>, filling: Pending<T>,
    fake: TouchRing<T>, prevTail: nat,
    pc: nat, loadedTail: nat, newest: nat, copied: T, target: nat,
    origins: seq<nat>) {

    predicate WellFormed() {
      && live.WellFormed() && fake.WellFormed() && |log| >= CAPACITY
      && pc <= 4 && loadedTail < CAPACITY && target < CAPACITY
    }

    /** How many appends the fake ring is behind. */
    function Lag(): int {
      |log| - CAPACITY - |origins|
    }
  }

  datatype Pending<T> = Nothing | Sample(value: T)

  /** The system writes a slot (which holds anything meanwhile) and then publishes it; the poller makes one access. */
  datatype Act<T> = BeginAppend(value: T, meanwhile: T) | PublishAppend | PollStep

  function Do<T>(m: Mirror<T>, act: Act<T>): (m': Mirror<T>)
    requires m.WellFormed()
    ensures m'.WellFormed()
  {
    match act
    case BeginAppend(value, meanwhile) =>
      if m.filling.Sample? then m
      else m.(live := m.live.(storage := m.live.storage[m.live.NextTail() := meanwhile]), filling := Sample(value))
    case PublishAppend =>
      if m.filling.Nothing? then m
      else
        var next := m.live.NextTail();
        m.(live := TouchRing(CAPACITY, next, if m.live.count < FULL_COUNT then m.live.count + 1 else m.live.count,
                             m.live.storage[next := m.filling.value]),
           log := m.log + [m.filling.value],
           filling := Nothing)
    case PollStep => Poll(m)
  }

  /** One access of the poller: count, tail, slot, fake slot, fake tail. */
  function Poll<T>(m: Mirror<T>): (m': Mirror<T>)
    requires m.WellFormed()
    ensures m'.WellFormed()
  {
    if m.pc == 0 then
      if m.live.count != FULL_COUNT then m else m.(pc := 1)
    else if m.pc == 1 then
      if m.live.tail == m.prevTail then m.(pc := 0)
      else m.(pc := 2, loadedTail := m.live.tail, newest := |m.log| - 1)
    else if m.pc == 2 then
      m.(pc := 3, copied := m.live.storage[m.loadedTail])
    else if m.pc == 3 then
      var next := m.fake.NextTail();
      m.(pc := 4, target := next, fake := m.fake.(storage := m.fake.storage[next := m.copied]))
    else
      m.(pc := 0, fake := m.fake.(tail := m.target), prevTail := m.target, origins := m.origins + [m.newest])
  }

  function Run<T>(m: Mirror<T>, acts: seq<Act<T>>): (m': Mirror<T>)
    requires m.WellFormed()
    ensures m'.WellFormed()
    decreases |acts|
  {
    if acts == [] then m else Run(Do(m, acts[0]), acts[1..])
  }

  // ---------------------------------------------------------------- what every run keeps

  /** t0 is the tail both rings had when the fake one was made as a copy. */
  ghost predicate Chasing<T>(m: Mirror<T>, t0: nat) {
    && m.WellFormed()
    && m.prevTail == m.fake.tail == (t0 + |m.origins|) % CAPACITY
    && m.live.tail == (t0 + |m.log| - CAPACITY) % CAPACITY
    && m.Lag() >= 0
    && (forall i, j :: 0 <= i < j < |m.origins| ==> m.origins[i] <= m.origins[j])
    && (forall j :: 0 <= j < |m.origins| ==> CAPACITY + j <= m.origins[j] < |m.log|)
    && (m.pc >= 2 ==>
          && m.loadedTail == (t0 + m.newest - CAPACITY + 1) % CAPACITY
          && CAPACITY + |m.origins| <= m.newest < |m.log|
          && forall j :: 0 <= j < |m.origins| ==> m.origins[j] <= m.newest)
    && (m.pc == 4 ==> m.target == m.fake.NextTail())
  }

  lemma TailsApart(t0: nat, appended: nat, mirrored: nat)
    requires mirrored <= appended
    ensures (t0 + mirrored) % CAPACITY == (t0 + appended) % CAPACITY <==> (appended - mirrored) % CAPACITY == 0
  {
  }

  lemma NextOf(n: nat)
    ensures (n + 1) % CAPACITY == if n % CAPACITY + 1 >= CAPACITY then 0 else n % CAPACITY + 1
  {
  }

  lemma AppendKeepsChasing<T>(m: Mirror<T>, act: Act<T>, t0: nat)
    requires Chasing(m, t0) && !act.PollStep?
    ensures Chasing(Do(m, act), t0)
  {
    NextOf(t0 + |m.log| - CAPACITY);
  }

  lemma PollKeepsChasing<T>(m: Mirror<T>, t0: nat)
    requires Chasing(m, t0)
    ensures Chasing(Poll(m), t0)
  {
    if m.pc == 1 {
      TailsApart(t0, |m.log| - CAPACITY, |m.origins|);
    } else if m.pc == 4 {
      NextOf(t0 + |m.origins|);
    }
  }

  lemma DoKeepsChasing<T>(m: Mirror<T>, act: Act<T>, t0: nat)
    requires Chasing(m, t0)
    ensures Chasing(Do(m, act), t0)
  {
    if act.PollStep? {
      PollKeepsChasing(m, t0);
    } else {
      AppendKeepsChasing(m, act, t0);
    }
  }

  /**
   For every run: the remembered tail is the fake tail, the mirror never has
   more appends than the live ring, its j-th append is meant to be the j-th or a
   later live one, what it means to copy never goes back in time, and its count
   stays what it was when the fake ring was made.
   */
  lemma {:induction false} RunKeepsChasing<T>(m: Mirror<T>, acts: seq<Act<T>>, t0: nat)
    requires Chasing(m, t0)
    ensures Chasing(Run(m, acts), t0) && Run(m, acts).fake.count == m.fake.count
    decreases |acts|
  {
    if acts != [] {
      DoKeepsChasing(m, acts[0], t0);
      RunKeepsChasing(Do(m, acts[0]), acts[1..], t0);
    }
  }

  /** Every sample published is counted, up to sixteen. */
  lemma {:induction false} CountFollows<T>(m: Mirror<T>, acts: seq<Act<T>>)
    requires m.WellFormed() && m.live.count <= 16
    ensures var m' := Run(m, acts);
            |m'.log| >= |m.log| && m'.live.count == Min(m.live.count + |m'.log| - |m.log|, 16)
    decreases |acts|
  {
    if acts != [] {
      CountFollows(Do(m, acts[0]), acts[1..]);
    }
  }

  /** Until sixteen samples have been counted the fake ring stays as it was, whatever is published meanwhile. */
  lemma {:induction false} NothingBeforeSixteen<T>(m: Mirror<T>, acts: seq<Act<T>>)
    requires m.WellFormed() && m.pc == 0 && Run(m, acts).live.count < 16 && m.live.count <= 16
    ensures Run(m, acts).fake == m.fake && Run(m, acts).origins == m.origins
    decreases |acts|
  {
    CountFollows(m, acts);
    if acts != [] {
      NothingBeforeSixteen(Do(m, acts[0]), acts[1..]);
    }
  }

  /** The mirror as it is made: a copy of the live ring, whose past is all that is known of what was published. */
  function Made<T>(ring: TouchRing<T>): (m: Mirror<T>)
    requires ring.WellFormed()
    ensures m.WellFormed() && m.Lag() == 0
  {
    var past := seq(CAPACITY, j requires 0 <= j < CAPACITY => ring.storage[Back(ring.tail, CAPACITY - 1 - j)]);
    Mirror(ring, past, Nothing, ring, ring.tail, 0, 0, 0, ring.storage[0], 0, [])
  }

  // ---------------------------------------------------------------- what is copied

  /** The live ring shows its log's newest entries, except the slot being written. */
  ghost predicate LiveWindow<T>(m: Mirror<T>) {
    && m.WellFormed()
    && forall k :: 0 <= k < (if m.filling.Sample? then CAPACITY - 1 else CAPACITY) ==>
         m.live.storage[Back(m.live.tail, k)] == m.log[|m.log| - 1 - k]
  }

  /** The fake ring shows the samples it was meant to copy, and a copy under way has the right one in hand. */
  ghost predicate FakeWindow<T>(m: Mirror<T>) {
    && m.WellFormed()
    && (forall j :: 0 <= j < |m.origins| ==> m.origins[j] < |m.log|)
    && (forall k :: 0 <= k < Min(|m.origins|, if m.pc == 4 then CAPACITY - 1 else CAPACITY) ==>
          m.fake.storage[Back(m.fake.tail, k)] == m.log[m.origins[|m.origins| - 1 - k]])
    && (m.pc >= 3 ==> m.newest < |m.log| && m.copied == m.log[m.newest])
    && (m.pc == 4 ==> m.target == m.fake.NextTail() && m.fake.storage[m.target] == m.copied)
  }

  ghost predicate Faithful<T>(m: Mirror<T>) {
    LiveWindow(m) && FakeWindow(m)
  }

  /** Between loading the tail and copying the slot the system has begun at most sixteen appends. */
  predicate Calm<T>(m: Mirror<T>) {
    m.pc == 2 ==> |m.log| - 1 - m.newest + (if m.filling.Sample? then 1 else 0) <= CAPACITY - 1
  }

  ghost predicate CalmRun<T>(m: Mirror<T>, acts: seq<Act<T>>)
    requires m.WellFormed()
    decreases |acts|
  {
    acts != [] ==> (acts[0].PollStep? ==> Calm(m)) && CalmRun(Do(m, acts[0]), acts[1..])
  }

  lemma AppendKeepsLiveWindow<T>(m: Mirror<T>, act: Act<T>)
    requires LiveWindow(m) && !act.PollStep?
    ensures LiveWindow(Do(m, act))
  {
    var m' := Do(m, act);
    if act.BeginAppend? && m.filling.Nothing? {
      assert m.live.NextTail() == Back(m.live.tail, CAPACITY - 1);
    } else if act.PublishAppend? && m.filling.Sample? {
      forall k | 0 <= k < CAPACITY
        ensures m'.live.storage[Back(m'.live.tail, k)] == m'.log[|m'.log| - 1 - k]
      {
        if k > 0 {
          assert Back(m'.live.tail, k) == Back(m.live.tail, k - 1);
        }
      }
    }
  }

  lemma StoreKeepsFakeWindow<T>(m: Mirror<T>)
    requires FakeWindow(m) && m.pc == 3
    ensures FakeWindow(Poll(m))
  {
    assert m.fake.NextTail() == Back(m.fake.tail, CAPACITY - 1);
  }

  lemma PublishKeepsFakeWindow<T>(m: Mirror<T>)
    requires FakeWindow(m) && m.pc == 4
    ensures FakeWindow(Poll(m))
  {
    var m' := Poll(m);
    forall k | 0 <= k < Min(|m'.origins|, CAPACITY)
      ensures m'.fake.storage[Back(m'.fake.tail, k)] == m'.log[m'.origins[|m'.origins| - 1 - k]]
    {
      if k > 0 {
        assert Back(m'.fake.tail, k) == Back(m.fake.tail, k - 1);
      }
    }
  }

  lemma PollKeepsFaithful<T>(m: Mirror<T>, t0: nat)
    requires Faithful(m)
    requires m.pc == 2 ==> Chasing(m, t0) && Calm(m)
    ensures Faithful(Poll(m))
  {
    if m.pc == 2 {
      CopiedIsNewest(m, t0);
    } else if m.pc == 3 {
      StoreKeepsFakeWindow(m);
    } else if m.pc == 4 {
      PublishKeepsFakeWindow(m);
    }
  }

  lemma CopiedIsNewest<T>(m: Mirror<T>, t0: nat)
    requires Chasing(m, t0) && LiveWindow(m) && Calm(m) && m.pc == 2
    ensures m.live.storage[m.loadedTail] == m.log[m.newest]
  {
    var d := |m.log| - 1 - m.newest;
    TailSince(t0 + m.newest - CAPACITY + 1, d);
  }

  /** d appends later the slot that was the newest is d slots back. */
  lemma TailSince(n: nat, d: nat)
    requires d < CAPACITY
    ensures Back((n + d) % CAPACITY, d) == n % CAPACITY
  {
    ModAdd(n, d);
    BackAfter(n % CAPACITY, 0, d);
  }

  /** In a calm run every mirrored sample still in the fake ring is the one that was newest when its copy began. */
  lemma {:induction false} MirrorIsFaithful<T>(m: Mirror<T>, acts: seq<Act<T>>, t0: nat)
    requires Chasing(m, t0) && Faithful(m) && CalmRun(m, acts)
    ensures Faithful(Run(m, acts))
    decreases |acts|
  {
    if acts != [] {
      if acts[0].PollStep? {
        PollKeepsFaithful(m, t0);
      } else {
        AppendKeepsLiveWindow(m, acts[0]);
      }
      DoKeepsChasing(m, acts[0], t0);
      MirrorIsFaithful(Do(m, acts[0]), acts[1..], t0);
    }
  }

  /** Later samples, and what a slot holds while it is written, differ from the one to be copied. */
  ghost predicate Telling<T>(m: Mirror<T>)
    requires m.WellFormed()
  {
    m.pc == 2 && m.newest < |m.log| ==>
      && (forall k :: m.newest < k < |m.log| ==> m.log[k] != m.log[m.newest])
      && (m.filling.Sample? ==> m.live.storage[m.live.NextTail()] != m.log[m.newest])
  }

  /** The slot holds the sample it is read for exactly while at most sixteen appends have begun since. */
  lemma CopiedExactly<T>(m: Mirror<T>, t0: nat)
    requires Chasing(m, t0) && LiveWindow(m) && Telling(m) && m.pc == 2
    ensures m.live.storage[m.loadedTail] == m.log[m.newest] <==> Calm(m)
  {
    if Calm(m) {
      CopiedIsNewest(m, t0);
    } else {
      var d := |m.log| - 1 - m.newest;
      var k := d % CAPACITY;
      ModAdd(t0 + m.newest - CAPACITY + 1, d);
      BackAfter(m.loadedTail, 0, d);
      assert Back(m.live.tail, k) == m.loadedTail;
      assert m.live.NextTail() == Back(m.live.tail, CAPACITY - 1);
    }
  }

  ghost predicate TellingRun<T>(m: Mirror<T>, acts: seq<Act<T>>)
    requires m.WellFormed()
    decreases |acts|
  {
    acts != [] ==> (acts[0].PollStep? ==> Telling(m)) && TellingRun(Do(m, acts[0]), acts[1..])
  }

  /** The mirror is faithful at every point of the run. */
  ghost predicate FaithfulRun<T>(m: Mirror<T>, acts: seq<Act<T>>)
    requires m.WellFormed()
    decreases |acts|
  {
    Faithful(m) && (acts != [] ==> FaithfulRun(Do(m, acts[0]), acts[1..]))
  }

  /** Where samples can be told apart, the mirror stays faithful exactly in the calm runs. */
  lemma {:induction false} FaithfulExactlyWhenCalm<T>(m: Mirror<T>, acts: seq<Act<T>>, t0: nat)
    requires Chasing(m, t0) && Faithful(m) && TellingRun(m, acts)
    ensures FaithfulRun(m, acts) <==> CalmRun(m, acts)
    decreases |acts|
  {
    if acts != [] {
      var m' := Do(m, acts[0]);
      DoKeepsChasing(m, acts[0], t0);
      StepFaithfulExactly(m, acts[0], t0);
      if Faithful(m') {
        FaithfulExactlyWhenCalm(m', acts[1..], t0);
      } else {
        assert !FaithfulRun(m', acts[1..]);
      }
    }
  }

  lemma StepFaithfulExactly<T>(m: Mirror<T>, act: Act<T>, t0: nat)
    requires Chasing(m, t0) && Faithful(m) && (act.PollStep? ==> Telling(m))
    ensures Faithful(Do(m, act)) <==> (act.PollStep? ==> Calm(m))
  {
    if !act.PollStep? {
      AppendKeepsLiveWindow(m, act);
    } else if m.pc == 2 && !Calm(m) {
      CopiedExactly(m, t0);
      assert !FakeWindow(Poll(m));
    } else {
      PollKeepsFaithful(m, t0);
    }
  }

  // ---------------------------------------------------------------- from the state the mirror is made in

  lemma MadeIsFaithful<T>(ring: TouchRing<T>)
    requires ring.WellFormed()
    ensures Chasing(Made(ring), ring.tail) && Faithful(Made(ring))
  {
  }

  /** What the fake ring still holds of the copy it was made as. */
  ghost predicate PastWindow<T>(m: Mirror<T>, ring: TouchRing<T>) {
    && m.WellFormed() && ring.WellFormed()
    && (forall k :: |m.origins| <= k < (if m.pc == 4 then CAPACITY - 1 else CAPACITY) ==>
          m.fake.storage[Back(m.fake.tail, k)] == ring.storage[Back(ring.tail, k - |m.origins|)])
    && (m.pc == 4 ==> m.target == m.fake.NextTail())
  }

  lemma PollKeepsPast<T>(m: Mirror<T>, ring: TouchRing<T>)
    requires PastWindow(m, ring)
    ensures PastWindow(Poll(m), ring)
  {
    var m' := Poll(m);
    if m.pc == 3 {
      assert m.fake.NextTail() == Back(m.fake.tail, CAPACITY - 1);
    } else if m.pc == 4 {
      forall k | |m'.origins| <= k < CAPACITY
        ensures m'.fake.storage[Back(m'.fake.tail, k)] == ring.storage[Back(ring.tail, k - |m'.origins|)]
      {
        assert Back(m'.fake.tail, k) == Back(m.fake.tail, k - 1);
      }
    }
  }

  lemma {:induction false} RunKeepsPast<T>(m: Mirror<T>, acts: seq<Act<T>>, ring: TouchRing<T>)
    requires PastWindow(m, ring)
    ensures PastWindow(Run(m, acts), ring)
    decreases |acts|
  {
    if acts != [] {
      if acts[0].PollStep? {
        PollKeepsPast(m, ring);
      }
      RunKeepsPast(Do(m, acts[0]), acts[1..], ring);
    }
  }

  /**
   Every run from the state the mirror is made in: the remembered tail chases the
   live one, and in a calm run a reader of the fake ring sees the mirrored samples,
   newest first, and behind them what the copy held.  The count it goes by is for
   ever that of the ring copied, so of the mirrored samples it sees no more.
   */
  lemma FakeReader<T>(ring: TouchRing<T>, acts: seq<Act<T>>, n: nat)
    requires ring.WellFormed() && CalmRun(Made(ring), acts)
    requires n <= Min(Run(Made(ring), acts).fake.count, CAPACITY - 1)
    ensures var m := Run(Made(ring), acts);
            && Chasing(m, ring.tail) && m.fake.count == ring.count && n <= ring.count
            && (forall j :: 0 <= j < |m.origins| ==> m.origins[j] < |m.log|)
            && forall k :: 0 <= k < n ==>
                 m.fake.storage[Back(m.fake.tail, k)]
                 == if k < |m.origins| then m.log[m.origins[|m.origins| - 1 - k]]
                    else ring.storage[Back(ring.tail, k - |m.origins|)]
  {
    MadeIsFaithful(ring);
    RunKeepsChasing(Made(ring), acts, ring.tail);
    MirrorIsFaithful(Made(ring), acts, ring.tail);
    RunKeepsPast(Made(ring), acts, ring);
  }

  // ---------------------------------------------------------------- catching up

  function Polls<T>(m: Mirror<T>, n: nat): (m': Mirror<T>)
    requires m.WellFormed()
    ensures m'.WellFormed()
  {
    if n == 0 then m else Poll(Polls(m, n - 1))
  }

  /** One pass of the polling loop with no append in between. */
  function Pass<T>(m: Mirror<T>): (m': Mirror<T>)
    requires m.WellFormed() && m.pc == 0
    ensures m'.WellFormed()
  {
    Polls(m, if m.live.count != FULL_COUNT then 1 else if m.live.tail == m.prevTail then 2 else 5)
  }

  /** Nothing is being appended, and a poll under way is for the newest sample. */
  ghost predicate Quiet<T>(m: Mirror<T>, t0: nat) {
    && Chasing(m, t0) && Faithful(m)
    && m.filling.Nothing? && m.live.count == FULL_COUNT
    && (m.pc >= 2 ==> m.newest == |m.log| - 1)
  }

  ghost predicate Idle<T>(m: Mirror<T>, t0: nat) {
    Quiet(m, t0) && m.pc == 0
  }

  lemma PollKeepsQuiet<T>(m: Mirror<T>, t0: nat)
    requires Quiet(m, t0)
    ensures Quiet(Poll(m), t0)
  {
    PollKeepsChasing(m, t0);
    PollKeepsFaithful(m, t0);
  }

  lemma PollUnderWay<T>(m: Mirror<T>, t0: nat)
    requires Quiet(m, t0) && m.pc < 4 && (m.pc == 1 ==> m.live.tail != m.prevTail)
    ensures var m' := Poll(m);
            && Quiet(m', t0) && m'.pc == m.pc + 1
            && m'.live == m.live && m'.log == m.log && m'.origins == m.origins && m'.prevTail == m.prevTail
  {
    PollKeepsQuiet(m, t0);
  }

  lemma {:induction false} CopyUnderWay<T>(m: Mirror<T>, t0: nat, n: nat)
    requires Idle(m, t0) && n <= 4 && (n > 1 ==> m.live.tail != m.prevTail)
    ensures var m' := Polls(m, n);
            && Quiet(m', t0) && m'.pc == n
            && m'.live == m.live && m'.log == m.log && m'.origins == m.origins && m'.prevTail == m.prevTail
  {
    if n > 0 {
      CopyUnderWay(m, t0, n - 1);
      PollUnderWay(Polls(m, n - 1), t0);
    }
  }

  lemma PassIsPolls<T>(m: Mirror<T>, t0: nat)
    requires Idle(m, t0)
    ensures var n := if m.live.tail == m.prevTail then 1 else 4;
            Pass(m) == Poll(Polls(m, n))
  {
  }

  lemma LastPoll<T>(m: Mirror<T>, t0: nat)
    requires Quiet(m, t0) && (m.pc == 4 || (m.pc == 1 && m.live.tail == m.prevTail))
    ensures Idle(Poll(m), t0) && Poll(m).log == m.log
    ensures Poll(m).origins == if m.pc == 4 then m.origins + [|m.log| - 1] else m.origins
  {
    PollKeepsQuiet(m, t0);
  }

  lemma PassEnds<T>(m: Mirror<T>, t0: nat)
    requires Idle(m, t0)
    ensures Idle(Pass(m), t0) && Pass(m).log == m.log
    ensures Pass(m).origins == if m.live.tail == m.prevTail then m.origins else m.origins + [|m.log| - 1]
  {
    var n := if m.live.tail == m.prevTail then 1 else 4;
    CopyUnderWay(m, t0, n);
    LastPoll(Polls(m, n), t0);
    PassIsPolls(m, t0);
  }

  lemma TailsEqual<T>(m: Mirror<T>, t0: nat)
    requires Chasing(m, t0)
    ensures m.live.tail == m.prevTail <==> m.Lag() % CAPACITY == 0
  {
    TailsApart(t0, |m.log| - CAPACITY, |m.origins|);
  }

  /** Behind by a multiple of seventeen the tails look equal and nothing happens; otherwise the newest sample is copied. */
  lemma PassAdvances<T>(m: Mirror<T>, t0: nat)
    requires Idle(m, t0)
    ensures Idle(Pass(m), t0) && Pass(m).log == m.log
    ensures Pass(m).origins == if m.Lag() % CAPACITY == 0 then m.origins else m.origins + [|m.log| - 1]
  {
    PassEnds(m, t0);
    TailsEqual(m, t0);
  }

  function Passes<T>(m: Mirror<T>, n: nat): (m': Mirror<T>)
    requires m.WellFormed()
    ensures m'.WellFormed()
    decreases n
  {
    if n == 0 || m.pc != 0 then m else Passes(Pass(m), n - 1)
  }

  /** lag is a multiple of seventeen plus r. */
  ghost predicate Behind<T>(m: Mirror<T>, r: nat, rounds: nat) {
    r < CAPACITY && m.Lag() == CAPACITY * rounds + r
  }

  lemma PassReducesLag<T>(m: Mirror<T>, t0: nat, r: nat, rounds: nat)
    requires Idle(m, t0) && Behind(m, r, rounds)
    ensures Idle(Pass(m), t0) && Pass(m).log == m.log
    ensures Pass(m).origins == if r == 0 then m.origins else m.origins + [|m.log| - 1]
    ensures Behind(Pass(m), if r == 0 then 0 else r - 1, rounds)
  {
    assert m.Lag() % CAPACITY == r;
    PassAdvances(m, t0);
  }

  /** Once the live ring rests, the fake one makes exactly r more appends, one a pass, and then stops. */
  lemma {:induction false} CatchesUp<T>(m: Mirror<T>, t0: nat, n: nat, r: nat, rounds: nat)
    requires Idle(m, t0) && Behind(m, r, rounds)
    ensures var end := Passes(m, n);
            && Idle(end, t0) && end.log == m.log
            && Behind(end, if n < r then r - n else 0, rounds)
            && if n == 0 || r == 0 then end.origins == m.origins else UpToDate(end)
    decreases n
  {
    if n > 0 {
      PassReducesLag(m, t0, r, rounds);
      var left := if r == 0 then 0 else r - 1;
      CatchesUp(Pass(m), t0, n - 1, left, rounds);
      StaysUpToDate(Pass(m), Passes(Pass(m), n - 1), r > 0, n == 1 || left == 0);
    }
  }

  /** What was up to date still is, if nothing was copied since or the newest sample was. */
  lemma StaysUpToDate<T>(before: Mirror<T>, end: Mirror<T>, copied: bool, same: bool)
    requires end.log == before.log && (if same then end.origins == before.origins else UpToDate(end))
    requires copied ==> UpToDate(before)
    ensures copied ==> UpToDate(end)
  {
  }

  /** The newest mirrored sample is the newest live one. */
  ghost predicate UpToDate<T>(m: Mirror<T>) {
    |m.origins| > 0 && m.origins[|m.origins| - 1] == |m.log| - 1
  }

  /**
   After enough passes over a resting live ring the tails are equal.  The append
   counts are equal exactly when the mirror was less than seventeen behind, and
   the newest sample has arrived exactly when the lag was no multiple of
   seventeen, unless it was there from the start.
   */
  lemma Settles<T>(m: Mirror<T>, t0: nat, n: nat)
    requires Idle(m, t0) && n >= m.Lag() % CAPACITY
    ensures var end := Passes(m, n);
            && end.fake.tail == end.live.tail
            && (end.Lag() == 0 <==> m.Lag() < CAPACITY)
            && (UpToDate(end) <==> m.Lag() % CAPACITY != 0 || UpToDate(m))
            && (UpToDate(end) ==> end.fake.storage[end.fake.tail] == end.live.storage[end.live.tail])
  {
    CatchesUp(m, t0, n, m.Lag() % CAPACITY, m.Lag() / CAPACITY);
    var end := Passes(m, n);
    TailsApart(t0, |end.log| - CAPACITY, |end.origins|);
    if UpToDate(end) {
      NewestCopied(end);
    }
  }

  lemma NewestCopied<T>(m: Mirror<T>)
    requires Faithful(m) && m.filling.Nothing? && UpToDate(m)
    ensures m.fake.storage[m.fake.tail] == m.live.storage[m.live.tail]
  {
    assert Back(m.fake.tail, 0) == m.fake.tail && Back(m.live.tail, 0) == m.live.tail;
  }

  /** With no lag and at least one copy made, the newest sample is there. */
  lemma NoLagIsUpToDate<T>(m: Mirror<T>, t0: nat)
    requires Chasing(m, t0) && m.Lag() == 0 && m.origins != []
    ensures UpToDate(m)
  {
  }

  function Burst<T>(m: Mirror<T>, n: nat, x: T): (m': Mirror<T>)
    requires m.WellFormed()
    ensures m'.WellFormed()
  {
    if n == 0 then m else Do(Do(Burst(m, n - 1, x), BeginAppend(x, x)), PublishAppend)
  }

  lemma {:induction false} BurstAddsLag<T>(m: Mirror<T>, t0: nat, n: nat, x: T)
    requires Idle(m, t0)
    ensures Idle(Burst(m, n, x), t0)
    ensures Burst(m, n, x).origins == m.origins && |Burst(m, n, x).log| == |m.log| + n
  {
    if n > 0 {
      BurstAddsLag(m, t0, n - 1, x);
      OneAppend(Burst(m, n - 1, x), t0, x);
    }
  }

  lemma OneAppend<T>(m: Mirror<T>, t0: nat, x: T)
    requires Idle(m, t0)
    ensures var m' := Do(Do(m, BeginAppend(x, x)), PublishAppend);
            Idle(m', t0) && m'.origins == m.origins && m'.log == m.log + [x]
  {
    var m1 := Do(m, BeginAppend(x, x));
    assert m1.filling == Sample(x) && m1.log == m.log && m1.origins == m.origins && m1.pc == 0 && m1.fake == m.fake;
    AppendKeepsChasing(m, BeginAppend(x, x), t0);
    AppendKeepsLiveWindow(m, BeginAppend(x, x));
    AppendKeepsChasing(m1, PublishAppend, t0);
    AppendKeepsLiveWindow(m1, PublishAppend);
  }

  /**
   A mirror that had caught up picks up a burst of appends, however many passes
   it is given, exactly when the burst's length is no multiple of seventeen.
   */
  lemma BurstIsSeenUnlessMultiple<T>(m: Mirror<T>, t0: nat, burst: nat, x: T, n: nat)
    requires Idle(m, t0) && m.Lag() == 0 && burst > 0 && n >= CAPACITY
    ensures UpToDate(Passes(Burst(m, burst, x), n)) <==> burst % CAPACITY != 0
  {
    BurstAddsLag(m, t0, burst, x);
    Settles(Burst(m, burst, x), t0, n);
  }

  /** A full ring of zeros that has just been copied. */
  function Copied(): Mirror<int> {
    Made(TouchRing(CAPACITY, 0, FULL_COUNT, seq(CAPACITY, _ => 0)))
  }

  lemma CopiedIsIdle()
    ensures Idle(Copied(), 0) && Copied().Lag() == 0
  {
    MadeIsFaithful(TouchRing(CAPACITY, 0, FULL_COUNT, seq(CAPACITY, _ => 0)));
  }

  /** Seventeen new samples between two polls: no number of further polls copies any of them. */
  lemma SeventeenAppendsAreMissed(burst: nat, n: nat)
    requires burst == 17
    ensures Copied().WellFormed() && Passes(Burst(Copied(), burst, 1), n).fake == Copied().fake
    ensures |Burst(Copied(), burst, 1).log| == |Copied().log| + 17
  {
    CopiedIsIdle();
    MissedBurst(Copied(), 0, burst, 1, n);
  }

  lemma MissedBurst<T>(m: Mirror<T>, t0: nat, burst: nat, x: T, n: nat)
    requires Idle(m, t0) && m.Lag() == 0 && burst == CAPACITY
    ensures Passes(Burst(m, burst, x), n).fake == m.fake
    ensures |Burst(m, burst, x).log| == |m.log| + CAPACITY
  {
    BurstAddsLag(m, t0, burst, x);
    Stuck(Burst(m, burst, x), t0, n);
    BurstKeepsFake(m, burst, x);
  }

  lemma {:induction false} BurstKeepsFake<T>(m: Mirror<T>, n: nat, x: T)
    requires m.WellFormed()
    ensures Burst(m, n, x).fake == m.fake
  {
    if n > 0 {
      BurstKeepsFake(m, n - 1, x);
    }
  }

  lemma {:induction false} Stuck<T>(m: Mirror<T>, t0: nat, n: nat)
    requires Idle(m, t0) && m.Lag() % CAPACITY == 0
    ensures Passes(m, n) == m
    decreases n
  {
    if n > 0 {
      TailsApart(t0, |m.log| - CAPACITY, |m.origins|);
      SkippedPass(m);
      Stuck(m, t0, n - 1);
    }
  }

  // ---------------------------------------------------------------- the polling loop's body

  class TouchLifo<T> {
    var bufferCount: nat
    var tail: nat
    var count: nat
    const storage: array<T>

    ghost function Value(): TouchRing<T>
      reads this, storage
    {
      TouchRing(bufferCount, tail, count, storage[..])
    }

    constructor (ring: TouchRing<T>)
      ensures Value() == ring && fresh(storage)
    {
      bufferCount, tail, count := ring.bufferCount, ring.tail, ring.count;
      storage := new T[|ring.storage|](i requires 0 <= i < |ring.storage| => ring.storage[i]);
    }
  }

  class TouchEntry<T> {
    const live: TouchLifo<T>
    const fake: TouchLifo<T>
    var touchscreenPrevTail: nat

    /** The mirror m, between two passes, is what this entry holds. */
    ghost predicate Shows(m: Mirror<T>)
      reads this, live, live.storage, fake, fake.storage
    {
      && m.WellFormed() && m.pc == 0
      && live != fake && live.storage != fake.storage
      && m.live == live.Value() && m.fake == fake.Value() && m.prevTail == touchscreenPrevTail
    }

    /** The fake ring starts as a copy of the live one, and so does the remembered tail. */
    constructor (live: TouchLifo<T>)
      requires live.Value().WellFormed()
      ensures this.live == live && fresh(fake)
      ensures Shows(Made(live.Value()))
    {
      var copy := new TouchLifo<T>(TouchRing(live.bufferCount, live.tail, live.count, live.storage[..]));
      this.live := live;
      fake := copy;
      touchscreenPrevTail := copy.tail;
    }

    method OnRunEntry(ghost m: Mirror<T>)
      requires Shows(m)
      modifies this`touchscreenPrevTail, fake, fake.storage
      ensures Shows(Pass(m))
    {
      var count := live.count;
      if count != FULL_COUNT {
        SkippedPass(m);
        return;
      }
      var tail := live.tail;
      if tail == touchscreenPrevTail {
        SkippedPass(m);
        return;
      }
      var copied := live.storage[tail];
      var currentTail := fake.tail + 1;
      if currentTail >= fake.bufferCount {
        currentTail := 0;
      }
      fake.storage[currentTail] := copied;
      fake.tail := currentTail;
      touchscreenPrevTail := currentTail;
      CopyPass(m);
    }
  }

  /** A pass that copies, written out. */
  lemma CopyPass<T>(m: Mirror<T>)
    requires m.WellFormed() && m.pc == 0 && m.live.count == FULL_COUNT && m.live.tail != m.prevTail
    ensures var next := m.fake.NextTail();
            && Pass(m).live == m.live && Pass(m).pc == 0 && Pass(m).prevTail == next
            && Pass(m).fake == m.fake.(tail := next, storage := m.fake.storage[next := m.live.storage[m.live.tail]])
  {
    assert Polls(m, 1) == Poll(m);
    assert Polls(m, 2) == Poll(Polls(m, 1));
    assert Polls(m, 3) == Poll(Polls(m, 2));
    assert Polls(m, 4) == Poll(Polls(m, 3));
    assert Polls(m, 5) == Poll(Polls(m, 4));
  }

  /** A pass that finds nothing to do changes nothing. */
  lemma SkippedPass<T>(m: Mirror<T>)
    requires m.WellFormed() && m.pc == 0 && (m.live.count != FULL_COUNT || m.live.tail == m.prevTail)
    ensures Pass(m) == m
  {
    assert Polls(m, 1) == Poll(m);
    assert Polls(m, 2) == Poll(Polls(m, 1));
  }
}
