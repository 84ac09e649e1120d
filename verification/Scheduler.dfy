/**
 Serving the input endpoints of a device in turn: probe all of them from a
 rotating cursor, deliver from the first that has a report, and wait on one of
 them only if none has.
 */
module Scheduler {
  import opened Endpoint
  import opened Sequences

  datatype Sched = Sched(eps: seq<Ep>, cursor: nat) {
    predicate WellFormed() {
      eps == [] || cursor < |eps|
    }
  }

  datatype Served = Nobody | Served(idx: nat, data: seq<Byte>)

  /** The endpoint i places after the cursor, going round. */
  function Place(cursor: nat, i: nat, n: nat): (idx: nat)
    requires cursor < n && i <= n
    ensures idx < n
  {
    if cursor + i < n then cursor + i else if i < n then cursor + i - n else cursor
  }

  lemma PlaceIsRemainder(cursor: nat, i: nat, n: nat)
    requires cursor < n && i < n
    ensures (cursor + i) % n == Place(cursor, i, n)
  {
    if cursor + i >= n {
      OnceRound(cursor + i, n);
    }
  }

  lemma OnceRound(a: nat, n: nat)
    requires n <= a < 2 * n
    ensures a % n == a - n
  {
    assert a == n * (a / n) + a % n;
    Multiples(n, a / n);
  }

  lemma Multiples(n: nat, q: int)
    ensures (q <= 0 ==> n * q <= 0) && (q >= 2 ==> n * q >= 2 * n) && (q == 1 ==> n * q == n)
  {
  }

  /** The endpoint after idx, going round. */
  function After(idx: nat, n: nat): (r: nat)
    requires idx < n
    ensures r < n
  {
    if idx + 1 == n then 0 else idx + 1
  }

  lemma AfterIsRemainder(idx: nat, n: nat)
    requires idx < n
    ensures (idx + 1) % n == After(idx, n)
  {
    if idx + 1 < n {
      PlaceIsRemainder(idx, 1, n);
    }
  }

  function Sweep(eps: seq<Ep>, cursor: nat, i: nat): (r: (seq<Ep>, Served))
    requires cursor < |eps| && i <= |eps|
    ensures |r.0| == |eps| && (r.1.Served? ==> r.1.idx < |eps|)
    decreases |eps| - i
  {
    if i == |eps| then (eps, Nobody)
    else
      var idx := Place(cursor, i, |eps|);
      var (ep, status, data) := Latest(eps[idx]);
      if status == Success then (eps[idx := ep], Served.Served(idx, data)) else Sweep(eps[idx := ep], cursor, i + 1)
  }

  /** One call: the new state, its status and, on success, who was served with what. */
  function Next(s: Sched): (r: (Sched, Status, Served))
    requires s.WellFormed()
    ensures r.0.WellFormed() && |r.0.eps| == |s.eps|
    ensures r.1 == Success <==> r.2.Served?
  {
    var n := |s.eps|;
    if n == 0 then (s, NothingTodo, Nobody)
    else
      var (eps, served) := Sweep(s.eps, s.cursor, 0);
      if served.Served? then (Sched(eps, After(served.idx, n)), Success, served)
      else
        var (ep, status, data) := Latest(eps[s.cursor]);
        (Sched(eps[s.cursor := ep], After(s.cursor, n)), status,
         if status == Success then Served.Served(s.cursor, data) else Nobody)
  }

  // ---------------------------------------------------------------- the controller's read

  class BaseController {
    const inPipe: seq<SwitchUSBEndpoint>
    var currentControllerIdx: nat

    constructor (inPipe: seq<SwitchUSBEndpoint>)
      ensures this.inPipe == inPipe && currentControllerIdx == 0
    {
      this.inPipe := inPipe;
      currentControllerIdx := 0;
    }

    /** The index is a byte; a device never has that many endpoints. */
    ghost predicate Valid()
      reads this
    {
      && |inPipe| <= 256
      && (|inPipe| > 0 ==> currentControllerIdx < |inPipe|)
      && (forall i, j :: 0 <= i < j < |inPipe| ==> inPipe[i] != inPipe[j])
    }

    /** The endpoints are what eps says, and no transfer brings more than was asked for. */
    ghost predicate Holds(eps: seq<Ep>, size: nat)
      reads inPipe
    {
      && |eps| == |inPipe|
      && forall i :: 0 <= i < |inPipe| ==> inPipe[i].Is(eps[i], size)
    }

    /** Reads one endpoint and leaves the others as they are. */
    method ReadAt(idx: nat, buffer: array<Byte>, size: nat, ghost eps: seq<Ep>) returns (status: Status, read: nat)
      requires Valid() && Holds(eps, size) && idx < |inPipe|
      requires size <= buffer.Length && size <= INPUT_BUFFER_SIZE
      modifies inPipe[idx], buffer
      ensures Valid() && currentControllerIdx == old(currentControllerIdx)
      ensures Holds(eps[idx := Latest(eps[idx]).0], size) && status == Latest(eps[idx]).1
      ensures status == Success ==> 0 < read <= size && buffer[..read] == Latest(eps[idx]).2
    {
      status, read := ReadEndpointLatest(inPipe[idx], buffer, size);
    }

    /** One probe of the fast pass is one step of the sweep. */
    method Probe(i: nat, buffer: array<Byte>, size: nat, ghost eps: seq<Ep>)
      returns (status: Status, read: nat, idx: nat, ghost now: seq<Ep>)
      requires Valid() && Holds(eps, size) && i < |inPipe|
      requires size <= buffer.Length && size <= INPUT_BUFFER_SIZE
      modifies inPipe, buffer
      ensures Valid() && currentControllerIdx == old(currentControllerIdx)
      ensures Holds(now, size) && idx < |inPipe|
      ensures status == Success ==>
                0 < read <= size && Sweep(eps, currentControllerIdx, i) == (now, Served.Served(idx, buffer[..read]))
      ensures status != Success ==> Sweep(eps, currentControllerIdx, i) == Sweep(now, currentControllerIdx, i + 1)
    {
      PlaceIsRemainder(currentControllerIdx, i, |inPipe|);
      idx := (currentControllerIdx + i) % |inPipe|;
      status, read := ReadAt(idx, buffer, size, eps);
      now := eps[idx := Latest(eps[idx]).0];
    }

    /** The fast pass: probes in turn and stops at the first endpoint with a report. */
    method ProbeAll(buffer: array<Byte>, size: nat, ghost eps: seq<Ep>)
      returns (status: Status, read: nat, idx: nat, ghost now: seq<Ep>)
      requires Valid() && Holds(eps, size) && inPipe != []
      requires size <= buffer.Length && size <= INPUT_BUFFER_SIZE
      modifies inPipe, buffer
      ensures Valid() && currentControllerIdx == old(currentControllerIdx)
      ensures Holds(now, size) && now == Sweep(eps, currentControllerIdx, 0).0
      ensures status == Success ==>
                && 0 < read <= size && idx < |inPipe|
                && Sweep(eps, currentControllerIdx, 0).1 == Served.Served(idx, buffer[..read])
      ensures status != Success ==> Sweep(eps, currentControllerIdx, 0).1 == Nobody
    {
      status, read, idx, now := NothingTodo, size, 0, eps;
      for i := 0 to |inPipe|
        invariant Valid() && Holds(now, size) && currentControllerIdx == old(currentControllerIdx)
        invariant status != Success && Sweep(eps, currentControllerIdx, 0) == Sweep(now, currentControllerIdx, i)
      {
        status, read, idx, now := Probe(i, buffer, size, now);
        if status == Success {
          return;
        }
      }
    }

    method ReadNextBuffer(buffer: array<Byte>, size: nat, ghost eps: seq<Ep>)
      returns (status: Status, read: nat, inputIdx: nat)
      requires Valid() && Holds(eps, size)
      requires size <= buffer.Length && size <= INPUT_BUFFER_SIZE
      modifies this`currentControllerIdx, inPipe, buffer
      ensures Valid()
      ensures var (s, st, served) := Next(Sched(eps, if inPipe == [] then 0 else old(currentControllerIdx)));
              && Holds(s.eps, size) && status == st && (inPipe != [] ==> currentControllerIdx == s.cursor)
              && (inPipe == [] ==> status == NothingTodo && currentControllerIdx == old(currentControllerIdx))
              && (status == Success ==>
                    0 < read <= size && served == Served.Served(inputIdx, buffer[..read]))
    {
      var n := |inPipe|;
      if n == 0 {
        return NothingTodo, size, 0;
      }
      ghost var now;
      status, read, inputIdx, now := ProbeAll(buffer, size, eps);
      if status == Success {
        AfterIsRemainder(inputIdx, n);
        currentControllerIdx := (inputIdx + 1) % n;
        return;
      }
      inputIdx := currentControllerIdx;
      AfterIsRemainder(inputIdx, n);
      currentControllerIdx := (inputIdx + 1) % n;
      status, read := ReadAt(inputIdx, buffer, size, now);
    }
  }

  // ---------------------------------------------------------------- bounded waiting

  /** How many places endpoint e is after the cursor. */
  function Distance(cursor: nat, e: nat, n: nat): (d: nat)
    requires cursor < n && e < n
    ensures d < n && Place(cursor, d, n) == e
  {
    if cursor <= e then e - cursor else e + n - cursor
  }

  /** A sweep serves somebody no farther than the first ready endpoint it comes to. */
  lemma {:induction false} SweepServesBy(eps: seq<Ep>, cursor: nat, i: nat, e: nat)
    requires cursor < |eps| && i <= |eps| && e < |eps|
    requires i <= Distance(cursor, e, |eps|) && eps[e].Ready()
    ensures var served := Sweep(eps, cursor, i).1;
            served.Served? && i <= Distance(cursor, served.idx, |eps|) <= Distance(cursor, e, |eps|)
    decreases |eps| - i
  {
    var idx := Place(cursor, i, |eps|);
    var _, _ := LatestTakes(eps[idx]);
    if Latest(eps[idx]).1 != Success {
      SweepServesBy(eps[idx := Latest(eps[idx]).0], cursor, i + 1, e);
    }
  }

  /** Serving someone nearer brings the cursor nearer. */
  lemma ServingShortensDistance(cursor: nat, served: nat, e: nat, n: nat)
    requires cursor < n && served < n && e < n && served != e
    requires Distance(cursor, served, n) <= Distance(cursor, e, n)
    ensures Distance(After(served, n), e, n) < Distance(cursor, e, n)
  {
  }

  /**
   Calls in a row, with anything happening to the endpoints in between except
   that e stays ready: e is served within one call more than its distance from
   the cursor, so within as many calls as there are endpoints.
   */
  lemma {:induction false} ReadyIsServedSoon(calls: seq<Sched>, e: nat, n: nat) returns (j: nat)
    requires forall k :: 0 <= k < |calls| ==>
               calls[k].cursor < |calls[k].eps| == n && e < n && calls[k].eps[e].Ready()
    requires forall k :: 0 <= k < |calls| - 1 ==> calls[k + 1].cursor == Next(calls[k]).0.cursor
    requires e < n && |calls| > 0 && |calls| > Distance(calls[0].cursor, e, n)
    ensures j <= Distance(calls[0].cursor, e, n) < n
    ensures Next(calls[j]).2.Served? && Next(calls[j]).2.idx == e
    decreases |calls|
  {
    var c := calls[0];
    SweepServesBy(c.eps, c.cursor, 0, e);
    var idx := Next(c).2.idx;
    if idx == e {
      j := 0;
    } else {
      ServingShortensDistance(c.cursor, idx, e, n);
      assert calls[1].cursor == Next(calls[0]).0.cursor;
      var rest := calls[1..];
      forall k | 0 <= k < |rest| - 1
        ensures rest[k + 1].cursor == Next(rest[k]).0.cursor
      {
        assert calls[(k + 1) + 1].cursor == Next(calls[k + 1]).0.cursor;
      }
      j := ReadyIsServedSoon(rest, e, n);
      j := j + 1;
    }
  }

  // ---------------------------------------------------------------- taking turns

  /** Whoever is served comes last next time. */
  lemma ServedGoesLast(s: Sched)
    requires s.WellFormed() && Next(s).2.Served?
    ensures Distance(Next(s).0.cursor, Next(s).2.idx, |s.eps|) == |s.eps| - 1
  {
  }

  /** A call whose sweep serves nobody. */
  ghost predicate IdleCall(s: Sched) {
    s.eps != [] && s.WellFormed() && Sweep(s.eps, s.cursor, 0).1.Nobody?
  }

  /**
   It reads every endpoint once, and the one at the cursor once again: that is the
   read it waits on, and its outcome is the call's.
   */
  lemma IdleCallWaitsAtCursor(s: Sched, e: nat)
    requires IdleCall(s) && e < |s.eps|
    ensures var again := Latest(Latest(s.eps[s.cursor]).0);
            && Next(s).1 == again.1
            && Next(s).2 == (if again.1 == Success then Served.Served(s.cursor, again.2) else Nobody)
            && Next(s).0.eps[e] == (if e == s.cursor then again.0 else Latest(s.eps[e]).0)
            && Next(s).0.cursor == (if s.cursor + 1 < |s.eps| then s.cursor + 1 else 0)
  {
    SweepReadsEach(s.eps, s.cursor, 0);
  }

  /** Idle calls in a row, with anything happening to the endpoints in between. */
  ghost predicate IdleCalls(calls: seq<Sched>, n: nat) {
    && (forall k :: 0 <= k < |calls| ==> IdleCall(calls[k]) && |calls[k].eps| == n)
    && forall k :: 0 <= k < |calls| - 1 ==> calls[k + 1].cursor == Next(calls[k]).0.cursor
  }

  lemma {:induction false} IdleCallsRotate(calls: seq<Sched>, n: nat, k: nat)
    requires IdleCalls(calls, n) && k < |calls| && k < n
    ensures calls[k].cursor == Place(calls[0].cursor, k, n)
  {
    if k > 0 {
      IdleCallsRotate(calls, n, k - 1);
      IdleCallWaitsAtCursor(calls[k - 1], 0);
      assert calls[(k - 1) + 1].cursor == Next(calls[k - 1]).0.cursor;
    }
  }

  /** Among as many idle calls in a row as there are endpoints, exactly one waits on each endpoint. */
  lemma EachIsWaitedOnOnce(calls: seq<Sched>, n: nat, e: nat) returns (k: nat)
    requires IdleCalls(calls, n) && |calls| == n && e < n
    ensures k < n && calls[k].cursor == e
    ensures forall j :: 0 <= j < n && calls[j].cursor == e ==> j == k
  {
    k := Distance(calls[0].cursor, e, n);
    IdleCallsRotate(calls, n, k);
    forall j | 0 <= j < n && calls[j].cursor == e
      ensures j == k
    {
      IdleCallsRotate(calls, n, j);
    }
  }

  // ---------------------------------------------------------------- armed endpoints and conservation

  /** Each endpoint is as it was or as one or two reads left it. */
  lemma {:induction false} SweepReadsEach(eps: seq<Ep>, cursor: nat, i: nat)
    requires cursor < |eps| && i <= |eps| && Sweep(eps, cursor, i).1.Nobody?
    ensures var eps' := Sweep(eps, cursor, i).0;
            forall e :: 0 <= e < |eps| ==>
              if i <= Distance(cursor, e, |eps|) then eps'[e] == Latest(eps[e]).0 && Latest(eps[e]).1 != Success
              else eps'[e] == eps[e]
    decreases |eps| - i
  {
    if i < |eps| {
      var idx := Place(cursor, i, |eps|);
      SweepReadsEach(eps[idx := Latest(eps[idx]).0], cursor, i + 1);
    }
  }

  /** After a sweep that found nothing, every endpoint that timed out has its transfer posted. */
  lemma IdleSweepArms(s: Sched, e: nat)
    requires s.WellFormed() && e < |s.eps| && Sweep(s.eps, s.cursor, 0).1.Nobody?
    requires Latest(s.eps[e]).1 == TimedOut
    requires e == s.cursor ==> Next(s).1 == TimedOut
    ensures Next(s).0.eps[e].posted
  {
    SweepReadsEach(s.eps, s.cursor, 0);
    var _, _ := LatestTakes(s.eps[e]);
    var _, _ := LatestTakes(Latest(s.eps[e]).0);
  }

  /** What a call takes from one endpoint: reports, and the waits it uses up for them. */
  datatype Take = Take(used: seq<Wait>, reports: seq<seq<Byte>>)

  const NO_TAKE := Take([], [])

  ghost predicate TakesFrom(ep: Ep, ep': Ep, take: Take) {
    Evolves(ep, take.used, ep') && Reports(ep.waits) == take.reports + Reports(ep'.waits)
  }

  /** Reports come from the served endpoint only, and the last of them is delivered. */
  ghost predicate Delivers(take: Take, served: Served, e: nat) {
    if served.Served? && served.idx == e then
      take.reports != [] && served.data == take.reports[|take.reports| - 1]
    else take.reports == []
  }

  ghost predicate Takes(eps: seq<Ep>, eps': seq<Ep>, takes: seq<Take>, served: Served) {
    && |eps'| == |takes| == |eps|
    && forall e :: 0 <= e < |eps| ==> TakesFrom(eps[e], eps'[e], takes[e]) && Delivers(takes[e], served, e)
  }

  lemma NothingTaken(ep: Ep)
    ensures TakesFrom(ep, ep, NO_TAKE)
  {
    assert [] + ep.waits == ep.waits && [] + Reports(ep.waits) == Reports(ep.waits);
  }

  lemma ReadTakes(eps: seq<Ep>, idx: nat) returns (takes: seq<Take>)
    requires idx < |eps|
    ensures var (ep, status, data) := Latest(eps[idx]);
            Takes(eps, eps[idx := ep], takes, if status == Success then Served.Served(idx, data) else Nobody)
  {
    var used, mine := LatestTakes(eps[idx]);
    takes := seq(|eps|, _ => NO_TAKE)[idx := Take(used, mine)];
    forall e | 0 <= e < |eps| && e != idx
      ensures TakesFrom(eps[e], eps[e], takes[e])
    {
      NothingTaken(eps[e]);
    }
  }

  function Both(a: Take, b: Take): Take {
    Take(a.used + b.used, a.reports + b.reports)
  }

  lemma TakesFromOn(ep: Ep, ep1: Ep, ep2: Ep, a: Take, b: Take)
    requires TakesFrom(ep, ep1, a) && TakesFrom(ep1, ep2, b)
    ensures TakesFrom(ep, ep2, Both(a, b))
  {
    EvolvesOn(ep, a.used, ep1, b.used, ep2);
    Assoc(a.reports, b.reports, Reports(ep2.waits));
  }

  lemma TakesOnTop(eps: seq<Ep>, eps1: seq<Ep>, eps2: seq<Ep>, t1: seq<Take>, t2: seq<Take>, served: Served)
    returns (takes: seq<Take>)
    requires Takes(eps, eps1, t1, Nobody) && Takes(eps1, eps2, t2, served)
    ensures Takes(eps, eps2, takes, served)
  {
    takes := seq(|eps|, e requires 0 <= e < |eps| => Both(t1[e], t2[e]));
    forall e | 0 <= e < |eps|
      ensures TakesFrom(eps[e], eps2[e], takes[e]) && Delivers(takes[e], served, e)
    {
      TakesFromOn(eps[e], eps1[e], eps2[e], t1[e], t2[e]);
      assert takes[e].reports == t2[e].reports;
    }
  }

  lemma NoTakes(eps: seq<Ep>) returns (takes: seq<Take>)
    ensures Takes(eps, eps, takes, Nobody)
  {
    takes := seq(|eps|, _ => NO_TAKE);
    forall e | 0 <= e < |eps|
      ensures TakesFrom(eps[e], eps[e], takes[e])
    {
      NothingTaken(eps[e]);
    }
  }

  /** takes accounts for a sweep from place i. */
  ghost predicate Accounts(takes: seq<Take>, eps: seq<Ep>, cursor: nat, i: nat)
    requires cursor < |eps| && i <= |eps|
  {
    Takes(eps, Sweep(eps, cursor, i).0, takes, Sweep(eps, cursor, i).1)
  }

  lemma ProbeServes(eps: seq<Ep>, cursor: nat, i: nat) returns (takes: seq<Take>)
    requires cursor < |eps| && i < |eps| && Latest(eps[Place(cursor, i, |eps|)]).1 == Success
    ensures Accounts(takes, eps, cursor, i)
  {
    SweepProbes(eps, cursor, i);
    takes := ReadTakes(eps, Place(cursor, i, |eps|));
  }

  lemma ProbeThenSweep(eps: seq<Ep>, cursor: nat, i: nat, eps1: seq<Ep>, others: seq<Take>) returns (takes: seq<Take>)
    requires cursor < |eps| && i < |eps| && Latest(eps[Place(cursor, i, |eps|)]).1 != Success
    requires eps1 == eps[Place(cursor, i, |eps|) := Latest(eps[Place(cursor, i, |eps|)]).0]
    requires Accounts(others, eps1, cursor, i + 1)
    ensures Accounts(takes, eps, cursor, i)
  {
    SweepProbes(eps, cursor, i);
    var first := ReadTakes(eps, Place(cursor, i, |eps|));
    takes := TakesOnTop(eps, eps1, Sweep(eps, cursor, i).0, first, others, Sweep(eps, cursor, i).1);
  }

  lemma {:induction false} SweepTakes(eps: seq<Ep>, cursor: nat, i: nat) returns (takes: seq<Take>)
    requires cursor < |eps| && i <= |eps|
    ensures Accounts(takes, eps, cursor, i)
    decreases |eps| - i
  {
    if i == |eps| {
      takes := NoTakes(eps);
    } else if Latest(eps[Place(cursor, i, |eps|)]).1 == Success {
      takes := ProbeServes(eps, cursor, i);
    } else {
      var eps1 := eps[Place(cursor, i, |eps|) := Latest(eps[Place(cursor, i, |eps|)]).0];
      var others := SweepTakes(eps1, cursor, i + 1);
      takes := ProbeThenSweep(eps, cursor, i, eps1, others);
    }
  }

  lemma SweepProbes(eps: seq<Ep>, cursor: nat, i: nat)
    requires cursor < |eps| && i < |eps|
    ensures var idx := Place(cursor, i, |eps|);
            var (ep, status, data) := Latest(eps[idx]);
            Sweep(eps, cursor, i)
            == if status == Success then (eps[idx := ep], Served.Served(idx, data)) else Sweep(eps[idx := ep], cursor, i + 1)
  {
  }

  /** A call loses nothing: it takes reports of the served endpoint only, in order, and delivers the last of them. */
  lemma NextTakes(s: Sched) returns (takes: seq<Take>)
    requires s.WellFormed()
    ensures Takes(s.eps, Next(s).0.eps, takes, Next(s).2)
  {
    if s.eps == [] {
      takes := [];
    } else {
      takes := SweepTakes(s.eps, s.cursor, 0);
      var (eps, served) := Sweep(s.eps, s.cursor, 0);
      if served.Nobody? {
        var last := ReadTakes(eps, s.cursor);
        takes := TakesOnTop(s.eps, eps, Next(s).0.eps, takes, last, Next(s).2);
      }
    }
  }

  // ---------------------------------------------------------------- whole runs

  /** More waits become known for an endpoint, or the controller makes a call. */
  datatype Act = Arrive(e: nat, waits: seq<Wait>) | Call

  function Do(s: Sched, act: Act): (s': Sched)
    requires s.WellFormed()
    ensures s'.WellFormed() && |s'.eps| == |s.eps|
  {
    match act
    case Arrive(e, waits) =>
      if e < |s.eps| then s.(eps := s.eps[e := s.eps[e].(waits := s.eps[e].waits + waits)]) else s
    case Call => Next(s).0
  }

  function Run(s: Sched, acts: seq<Act>): (s': Sched)
    requires s.WellFormed()
    ensures s'.WellFormed() && |s'.eps| == |s.eps|
    decreases |acts|
  {
    if acts == [] then s else Run(Do(s, acts[0]), acts[1..])
  }

  function Arrivals(acts: seq<Act>, e: nat): seq<Wait> {
    if acts == [] then []
    else (if acts[0].Arrive? && acts[0].e == e then acts[0].waits else []) + Arrivals(acts[1..], e)
  }

  /**
   Over every run, each endpoint's reports, queued at the start or arrived
   since, are those taken by calls, in order, followed by those still queued;
   and the stack holds for it the transfer it waits for, if any, and one for every
   event that brought no report.  None was given up exactly when every event among
   the waits used up brought the report of the transfer posted last.
   */
  lemma {:induction false} RunConserves(s: Sched, acts: seq<Act>, e: nat) returns (take: Take)
    requires s.WellFormed() && e < |s.eps|
    ensures var ep, ep' := s.eps[e], Run(s, acts).eps[e];
            && ep.waits + Arrivals(acts, e) == take.used + ep'.waits
            && Reports(ep.waits) + Reports(Arrivals(acts, e)) == take.reports + Reports(ep'.waits)
            && ep.unreported <= ep'.unreported
            && (ep.Accounted() ==>
                  && ep'.Accounted()
                  && (ep.unreported == 0 ==> (ep'.unreported == 0 <==> AllOwn(take.used))))
    decreases |acts|
  {
    if acts == [] {
      take := NO_TAKE;
    } else {
      match acts[0]
      case Arrive(e', waits) =>
        take := RunConserves(Do(s, acts[0]), acts[1..], e);
        var now := if e' == e then waits else [];
        Assoc(s.eps[e].waits, now, Arrivals(acts[1..], e));
        ArrivalMovesOver(s.eps[e].waits, now, Arrivals(acts[1..], e));
        assert s.eps[e].waits + [] == s.eps[e].waits;
      case Call =>
        var first := NextTakes(s);
        var later := RunConserves(Next(s).0, acts[1..], e);
        take := Both(first[e], later);
        CallThenRun(s.eps[e], Next(s).0.eps[e], Run(s, acts).eps[e], first[e], later, Arrivals(acts[1..], e));
        assert [] + Arrivals(acts[1..], e) == Arrivals(acts[1..], e);
    }
  }

  /** A call and what comes after it, for one endpoint. */
  lemma CallThenRun(ep: Ep, ep1: Ep, ep2: Ep, first: Take, later: Take, arrived: seq<Wait>)
    requires TakesFrom(ep, ep1, first)
    requires ep1.waits + arrived == later.used + ep2.waits
    requires Reports(ep1.waits) + Reports(arrived) == later.reports + Reports(ep2.waits)
    ensures ep.waits + arrived == Both(first, later).used + ep2.waits
    ensures Reports(ep.waits) + Reports(arrived) == Both(first, later).reports + Reports(ep2.waits)
    ensures AllOwn(Both(first, later).used) <==> AllOwn(first.used) && AllOwn(later.used)
  {
    Reassociate(first.used, ep1.waits, arrived, later.used, ep2.waits);
    Reassociate(first.reports, Reports(ep1.waits), Reports(arrived), later.reports, Reports(ep2.waits));
    AllOwnConcat(first.used, later.used);
  }

  lemma ArrivalMovesOver(now: seq<Wait>, more: seq<Wait>, rest: seq<Wait>)
    ensures Reports(now + more) + Reports(rest) == Reports(now) + Reports(more + rest)
  {
    ReportsConcat(now, more);
    ReportsConcat(more, rest);
    Assoc(Reports(now), Reports(more), Reports(rest));
  }

  lemma Reassociate<T>(a: seq<T>, b: seq<T>, c: seq<T>, d: seq<T>, e: seq<T>)
    requires b + c == d + e
    ensures (a + b) + c == (a + d) + e
  {
    Assoc(a, b, c);
    Assoc(a, d, e);
  }

  /**
   Over every run of an endpoint for which no transfer had been given up, there is
   never more than one transfer out at a wait exactly as long as every event
   brought the report of the transfer posted last.
   */
  lemma OneTransferExactly(s: Sched, acts: seq<Act>, e: nat) returns (used: seq<Wait>)
    requires s.WellFormed() && e < |s.eps| && s.eps[e].Accounted() && s.eps[e].unreported == 0
    ensures var ep' := Run(s, acts).eps[e];
            && s.eps[e].waits + Arrivals(acts, e) == used + ep'.waits
            && (Post(ep').posted ==> (Post(ep').Out() == 1 <==> AllOwn(used)))
  {
    var take := RunConserves(s, acts, e);
    used := take.used;
    if Post(Run(s, acts).eps[e]).posted {
      TransfersAtWait(Run(s, acts).eps[e]);
    }
  }
}
