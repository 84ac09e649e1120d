/**
 Reading one USB endpoint without blocking: a transfer is posted and stays posted
 until it completes, and a read keeps only the newest of the reports that have
 completed by then.
 */
module Endpoint {
  import opened Sequences

  type Byte = x: nat | x < 256

  datatype Status = Success | NothingTodo | UnexpectedData | NoDataAvailable | ReadFailed | TimedOut

  /**
   What waiting shows: nothing in time; an event whose report cannot be fetched or
   is missing; or a report.  age tells whose report it is: the transfer that was
   posted age transfers after the newest one the stack holds, 0 for the newest.
   */
  datatype Wait = Nothing | Unfetched | NoReport | Report(age: nat, data: seq<Byte>, resOk: bool) {
    predicate Good() {
      Report? && age == 0 && data != [] && resOk
    }

    /** An event brings the report of the transfer posted last. */
    predicate Own() {
      Nothing? || (Report? && age == 0)
    }
  }

  /**
   An endpoint, what the USB stack holds for it, and its future.  posted: it waits
   for a transfer of its own.  strays counts the other transfers the stack has taken
   and not reported, unreported the events that brought no report.  posts and waits
   are the answers to come: beyond the end posts succeed and waits time out.
   */
  datatype Ep = Ep(posted: bool, strays: nat, unreported: nat, posts: seq<bool>, waits: seq<Wait>) {
    /** The transfers the stack holds. */
    function Out(): nat {
      strays + if posted then 1 else 0
    }

    predicate CanPost() {
      posts == [] || posts[0]
    }

    /** The next read delivers a report. */
    predicate Ready() {
      (posted || CanPost()) && waits != [] && waits[0].Good()
    }

    /** No post will be refused. */
    predicate Accepting() {
      forall p :: p in posts ==> p
    }

    /** There is a stray for every event that brought no report. */
    predicate Accounted() {
      strays == unreported
    }
  }

  /** Rising ids, all below the bound. */
  predicate Below(ids: seq<nat>, bound: nat) {
    ids == [] || (0 < ids[|ids| - 1] < bound && Below(ids[..|ids| - 1], ids[|ids| - 1]))
  }

  lemma {:induction false} BelowAt(ids: seq<nat>, bound: nat, i: nat)
    requires Below(ids, bound) && i < |ids|
    ensures 0 < ids[i] < bound && (i + 1 < |ids| ==> ids[i] < ids[|ids| - 1])
  {
    if i + 1 < |ids| {
      BelowAt(ids[..|ids| - 1], ids[|ids| - 1], i);
    }
  }

  function Rest<T>(s: seq<T>): seq<T> {
    if s == [] then [] else s[1..]
  }

  /** The ids and a new one. */
  function With(ids: seq<nat>, id: nat): (r: seq<nat>)
    requires Below(ids, id) && id > 0
    ensures Below(r, id + 1) && r == ids + [id]
  {
    assert (ids + [id])[..|ids|] == ids;
    ids + [id]
  }

  /** The ids without the i-th. */
  function Without(ids: seq<nat>, i: nat, ghost bound: nat): (r: seq<nat>)
    requires i < |ids| && Below(ids, bound)
    ensures Below(r, bound) && r == ids[..i] + ids[i + 1..]
  {
    WithoutIsBelow(ids, i, bound);
    ids[..i] + ids[i + 1..]
  }

  lemma {:induction false} WithoutIsBelow(ids: seq<nat>, i: nat, bound: nat)
    requires i < |ids| && Below(ids, bound)
    ensures Below(ids[..i] + ids[i + 1..], bound)
  {
    var n := |ids| - 1;
    if i == n {
      assert ids[..i] + ids[i + 1..] == ids[..n];
    } else {
      WithoutIsBelow(ids[..n], i, ids[n]);
      assert (ids[..i] + ids[i + 1..])[..n - 1] == ids[..n][..i] + ids[..n][i + 1..];
    }
  }

  /** Posting, if no transfer is waited for. */
  function Post(ep: Ep): Ep {
    if ep.posted then ep
    else ep.(posted := ep.CanPost(), posts := Rest(ep.posts))
  }

  /** The end of a wait. */
  function Waited(ep: Ep): (Ep, Status, seq<Byte>) {
    if ep.waits == [] || ep.waits[0] == Nothing then (ep.(waits := Rest(ep.waits)), TimedOut, [])
    else Event(ep.(waits := ep.waits[1..]), ep.waits[0])
  }

  /** What is done about an event.  Unless it brings the report waited for, the transfer becomes a stray. */
  function Event(ep: Ep, wait: Wait): (Ep, Status, seq<Byte>)
    requires wait != Nothing
  {
    var done := ep.(posted := false);
    if wait.Report? && wait.age == 0 then
      (done, if wait.data == [] then NoDataAvailable else if !wait.resOk then ReadFailed else Success, wait.data)
    else if wait.Report? && wait.age <= ep.strays then (done, NoDataAvailable, [])
    else
      (done.(strays := ep.strays + 1, unreported := ep.unreported + 1),
       if wait.Unfetched? then ReadFailed else NoDataAvailable, [])
  }

  function Read(ep: Ep): (r: (Ep, Status, seq<Byte>))
    ensures r.1 == Success ==> |r.0.waits| < |ep.waits|
  {
    var p := Post(ep);
    if p.posted then Waited(p) else (p, ReadFailed, [])
  }

  function Drain(ep: Ep, latest: seq<Byte>): (Ep, seq<Byte>)
    decreases |ep.waits|
  {
    var (ep', status, data) := Read(ep);
    if status == Success then Drain(ep', data) else (ep', latest)
  }

  function Latest(ep: Ep): (Ep, Status, seq<Byte>) {
    var (ep1, status, first) := Read(ep);
    if status != Success then (ep1, status, [])
    else
      var (ep2, latest) := Drain(ep1, first);
      (ep2, Success, latest)
  }

  // ---------------------------------------------------------------- the classes

  class SwitchUSBEndpoint {
    const maxPacketSize: nat
    var xferIdRead: nat
    /** The stack's side. */
    var held: seq<nat>
    var nextXferId: nat
    ghost var unreported: nat
    var posts: seq<bool>
    var waits: seq<Wait>

    /** Every id is new, and the one waited for is the newest. */
    ghost predicate Valid()
      reads this
    {
      && nextXferId > 0 && Below(held, nextXferId)
      && (xferIdRead != 0 ==> held != [] && held[|held| - 1] == xferIdRead)
    }

    ghost function Value(): Ep
      requires Valid()
      reads this
    {
      Ep(xferIdRead != 0, |held| - (if xferIdRead != 0 then 1 else 0), unreported, posts, waits)
    }

    /** The stack never completes a transfer with more bytes than were asked for. */
    ghost predicate Fits(size: nat)
      reads this
    {
      forall w :: w in waits && w.Report? ==> |w.data| <= size
    }

    /** What is asked for: no more than the buffer holds, nor than a packet of the endpoint. */
    function Capacity(size: nat): (c: nat)
      ensures c <= size && c <= maxPacketSize && (c == size || c == maxPacketSize)
    {
      if maxPacketSize < size then maxPacketSize else size
    }

    ghost predicate Is(ep: Ep, size: nat)
      reads this
    {
      Valid() && Value() == ep && Fits(Capacity(size))
    }

    constructor (maxPacketSize: nat, posts: seq<bool>, waits: seq<Wait>)
      ensures Valid() && this.maxPacketSize == maxPacketSize && Value() == Ep(false, 0, 0, posts, waits)
    {
      this.maxPacketSize := maxPacketSize;
      xferIdRead, held, nextXferId, unreported := 0, [], 1, 0;
      this.posts, this.waits := posts, waits;
    }

    method PostBufferAsync() returns (ok: bool)
      requires Valid() && xferIdRead == 0
      modifies this
      ensures Valid() && Value() == Post(old(Value())) && ok == Value().posted
    {
      ok := posts == [] || posts[0];
      posts := if posts == [] then [] else posts[1..];
      if ok {
        xferIdRead, held, nextXferId := nextXferId, With(held, nextXferId), nextXferId + 1;
      }
    }

    /** Fetches a report from the stack, which then no longer holds the transfer; count is 0 if there is none. */
    method GetXferReport(wait: Wait) returns (ok: bool, count: nat, xferId: nat)
      requires !wait.Nothing? && Below(held, nextXferId)
      modifies this`held, this`unreported
      ensures ok <==> !wait.Unfetched?
      ensures Below(held, nextXferId)
      ensures wait.Report? && wait.age == 0 && old(held) != [] ==> held == old(held)[..|old(held)| - 1]
      ensures if wait.Report? && wait.age < |old(held)| then
                && count == 1 && xferId == old(held)[|old(held)| - 1 - wait.age]
                && |held| == |old(held)| - 1 && unreported == old(unreported)
              else
                count == 0 && held == old(held) && unreported == old(unreported) + 1
    {
      ok, count, xferId := !wait.Unfetched?, 0, 0;
      if wait.Report? && wait.age < |held| {
        var i := |held| - 1 - wait.age;
        count, xferId := 1, held[i];
        held := Without(held, i, nextXferId);
      } else {
        unreported := unreported + 1;
      }
    }

    method ReadAsync(outBuffer: array<Byte>, size: nat) returns (status: Status, transferred: nat)
      requires Valid() && size <= outBuffer.Length && Fits(size)
      modifies this, outBuffer
      ensures Valid() && Fits(size)
      ensures status == TimedOut ==> xferIdRead != 0
      ensures old(xferIdRead) == 0 && old(posts) != [] && !old(posts)[0] ==> status == ReadFailed
      ensures old(xferIdRead) != 0 || old(posts) == [] || old(posts)[0] ==>
                (status == TimedOut <==> old(waits) == [] || old(waits)[0] == Nothing)
      ensures (Value(), status) == (Read(old(Value())).0, Read(old(Value())).1)
      ensures status == Success ==>
                0 < transferred <= size && outBuffer[..transferred] == Read(old(Value())).2
    {
      transferred := size;
      if xferIdRead == 0 {
        var posted := PostBufferAsync();
        if !posted {
          return ReadFailed, size;
        }
      }
      var wait := if waits == [] then Nothing else waits[0];
      waits := if waits == [] then [] else waits[1..];
      if wait == Nothing {
        return TimedOut, size;
      }
      status, transferred := EndWait(wait, outBuffer, size);
    }

    method EndWait(wait: Wait, outBuffer: array<Byte>, size: nat) returns (status: Status, transferred: nat)
      requires Valid() && xferIdRead != 0 && wait != Nothing
      requires size <= outBuffer.Length && (wait.Report? ==> |wait.data| <= size)
      modifies this`xferIdRead, this`held, this`unreported, outBuffer
      ensures Valid() && (Value(), status) == (Event(old(Value()), wait).0, Event(old(Value()), wait).1)
      ensures status == Success ==> 0 < transferred <= size && outBuffer[..transferred] == Event(old(Value()), wait).2
      ensures xferIdRead == 0
      ensures wait.Unfetched? ==> status == ReadFailed
      ensures wait.NoReport? || (wait.Report? && wait.age > 0) ==> status == NoDataAvailable
      ensures wait.Report? && wait.age == 0 ==>
                && held == old(held)[..|old(held)| - 1]
                && status == if wait.data == [] then NoDataAvailable else if wait.resOk then Success else ReadFailed
      ensures status == Success ==> outBuffer[..transferred] == wait.data
    {
      var tmpXferId := xferIdRead;
      if wait.Report? && wait.age < |held| {
        BelowAt(held, nextXferId, |held| - 1 - wait.age);
      }
      xferIdRead := 0;
      var ok, count, xferId := GetXferReport(wait);
      if !ok {
        return ReadFailed, size;
      }
      if count <= 0 || tmpXferId != xferId {
        return NoDataAvailable, size;
      }
      CopyInto(outBuffer, wait.data);
      transferred := |wait.data|;
      status := if transferred == 0 then NoDataAvailable else if !wait.resOk then ReadFailed else Success;
    }
  }

  method CopyInto(buffer: array<Byte>, data: seq<Byte>)
    requires |data| <= buffer.Length
    modifies buffer
    ensures buffer[..|data|] == data
    ensures forall i :: |data| <= i < buffer.Length ==> buffer[i] == old(buffer[i])
  {
    forall i | 0 <= i < |data| {
      buffer[i] := data[i];
    }
  }

  const INPUT_BUFFER_SIZE: nat := 256

  /** Reads, then drains what is queued, so that the buffer ends with the newest report. */
  method ReadEndpointLatest(endpoint: SwitchUSBEndpoint, buffer: array<Byte>, size: nat)
    returns (status: Status, latestSize: nat)
    requires endpoint.Valid() && size <= buffer.Length && size <= INPUT_BUFFER_SIZE
    requires endpoint.Fits(endpoint.Capacity(size))
    modifies endpoint, buffer
    ensures endpoint.Valid()
    ensures endpoint.Fits(endpoint.Capacity(size))
    ensures (endpoint.Value(), status) == (Latest(old(endpoint.Value())).0, Latest(old(endpoint.Value())).1)
    ensures status == Success ==>
              0 < latestSize <= size && buffer[..latestSize] == Latest(old(endpoint.Value())).2
  {
    var capacity := endpoint.Capacity(size);
    status, latestSize := endpoint.ReadAsync(buffer, capacity);
    if status != Success {
      return;
    }
    var drainBuffer := new Byte[INPUT_BUFFER_SIZE];
    while true
      invariant endpoint.Valid() && endpoint.Fits(capacity) && status == Success
      invariant 0 < latestSize <= size
      invariant Latest(old(endpoint.Value())) ==
                (Drain(endpoint.Value(), buffer[..latestSize]).0, Success, Drain(endpoint.Value(), buffer[..latestSize]).1)
      decreases |endpoint.waits|
    {
      ghost var before := endpoint.Value();
      var drained, drainSize := endpoint.ReadAsync(drainBuffer, capacity);
      if drained != Success {
        break;
      }
      CopyInto(buffer, drainBuffer[..drainSize]);
      latestSize := drainSize;
    }
  }

  // ---------------------------------------------------------------- what a read keeps and what it takes

  /** The reports among the waits. */
  function Reports(waits: seq<Wait>): seq<seq<Byte>> {
    if waits == [] then []
    else Reported(waits[0]) + Reports(waits[1..])
  }

  function Reported(wait: Wait): seq<seq<Byte>> {
    if wait.Good() then [wait.data] else []
  }

  lemma {:induction false} ReportsConcat(a: seq<Wait>, b: seq<Wait>)
    ensures Reports(a + b) == Reports(a) + Reports(b)
  {
    if a == [] {
      assert a + b == b;
    } else {
      ReportsConcat(a[1..], b);
      assert (a + b)[0] == a[0] && (a + b)[1..] == a[1..] + b;
      Assoc(Reported(a[0]), Reports(a[1..]), Reports(b));
    }
  }

  /** Waits that all brought the report of the transfer posted last, or nothing in time. */
  ghost predicate AllOwn(waits: seq<Wait>) {
    forall w :: w in waits ==> w.Own()
  }

  /**
   What reads keep: transfers stay accounted for, none given up is ever made up
   for, and where none had been given up, none is exactly when every event among
   the waits used up brought its own transfer's report.
   */
  ghost predicate Evolves(ep: Ep, used: seq<Wait>, ep': Ep) {
    && ep.waits == used + ep'.waits
    && ep.unreported <= ep'.unreported
    && (ep.Accounted() ==>
          && ep'.Accounted()
          && (ep.unreported == 0 ==> (ep'.unreported == 0 <==> AllOwn(used))))
  }

  lemma AllOwnConcat(a: seq<Wait>, b: seq<Wait>)
    ensures AllOwn(a + b) <==> AllOwn(a) && AllOwn(b)
  {
    assert forall w :: w in a + b <==> w in a || w in b;
  }

  lemma EvolvesOn(ep: Ep, used: seq<Wait>, ep1: Ep, more: seq<Wait>, ep2: Ep)
    requires Evolves(ep, used, ep1) && Evolves(ep1, more, ep2)
    ensures Evolves(ep, used + more, ep2)
  {
    AllOwnConcat(used, more);
    assert (used + more) + ep2.waits == used + (more + ep2.waits);
  }

  lemma PostEvolves(ep: Ep)
    ensures Evolves(ep, [], Post(ep))
  {
    assert ep.waits == [] + ep.waits;
  }

  lemma WaitedEvolves(ep: Ep)
    requires ep.posted
    ensures Evolves(ep, if ep.waits == [] then [] else [ep.waits[0]], Waited(ep).0)
  {
    if ep.waits != [] {
      assert ep.waits == [ep.waits[0]] + ep.waits[1..];
      OwnWait(ep.waits[0]);
    }
  }

  lemma OwnWait(w: Wait)
    ensures AllOwn([w]) <==> w.Own()
  {
    assert w in [w];
  }

  lemma ReadEvolves(ep: Ep) returns (used: seq<Wait>)
    ensures Evolves(ep, used, Read(ep).0) && |used| <= 1
  {
    var p := Post(ep);
    PostEvolves(ep);
    if p.posted {
      WaitedEvolves(p);
      used := if p.waits == [] then [] else [p.waits[0]];
      EvolvesOn(ep, [], p, used, Waited(p).0);
      assert [] + used == used;
    } else {
      used := [];
    }
  }

  lemma PostAccepts(ep: Ep)
    requires ep.Accepting()
    ensures Post(ep).posted && Post(ep).Accepting()
  {
    assert ep.posts != [] ==> ep.posts[0] in ep.posts;
    assert forall p :: p in Rest(ep.posts) ==> p in ep.posts;
  }

  /** A read takes the report of a good wait, if that comes first, and no other. */
  lemma ReadTakesOldest(ep: Ep)
    ensures var (ep', status, data) := Read(ep);
            && Reports(ep.waits) == (if status == Success then [data] else []) + Reports(ep'.waits)
            && (status == Success <==> ep.Ready())
            && (status == TimedOut ==> ep'.posted)
            && (ep.Accepting() ==> ep'.Accepting() && ep'.waits == Rest(ep.waits))
  {
    if ep.Accepting() {
      PostAccepts(ep);
    }
  }

  /** How many good waits come before the first other one. */
  function GoodRun(waits: seq<Wait>): (n: nat)
    ensures n <= |waits|
  {
    if waits == [] || !waits[0].Good() then 0 else 1 + GoodRun(waits[1..])
  }

  /** A read, or several, took these reports and used up these waits. */
  ghost predicate Took(ep: Ep, used: seq<Wait>, ep': Ep, taken: seq<seq<Byte>>) {
    && Evolves(ep, used, ep')
    && Reports(ep.waits) == taken + Reports(ep'.waits)
    && |used| <= |taken| + 1
    && (ep.Accepting() ==>
          ep'.Accepting() && |taken| == GoodRun(ep.waits) && ep'.waits == Rest(ep.waits[GoodRun(ep.waits)..]))
  }

  lemma {:induction false} DrainTakes(ep: Ep, latest: seq<Byte>) returns (used: seq<Wait>, taken: seq<seq<Byte>>)
    ensures var (ep', data) := Drain(ep, latest);
            Took(ep, used, ep', taken) && data == (if taken == [] then latest else taken[|taken| - 1])
    decreases |ep.waits|
  {
    ReadTakesOldest(ep);
    var (ep', status, data) := Read(ep);
    var first := ReadEvolves(ep);
    if status == Success {
      var more;
      more, taken := DrainTakes(ep', data);
      TookOneMore(ep, first, ep', data, more, Drain(ep', data).0, taken);
      used, taken := first + more, [data] + taken;
    } else {
      used, taken := first, [];
      TookNone(ep, first, ep');
    }
  }

  lemma TookNone(ep: Ep, used: seq<Wait>, ep': Ep)
    requires !ep.Ready() && Evolves(ep, used, ep') && |used| <= 1 && Reports(ep.waits) == Reports(ep'.waits)
    requires ep.Accepting() ==> ep'.Accepting() && ep'.waits == Rest(ep.waits)
    ensures Took(ep, used, ep', [])
  {
    assert Reports(ep.waits) == [] + Reports(ep'.waits);
    if ep.Accepting() {
      PostAccepts(ep);
      assert ep.waits[0..] == ep.waits;
    }
  }

  lemma TookOneMore(ep: Ep, first: seq<Wait>, ep1: Ep, data: seq<Byte>, more: seq<Wait>, ep2: Ep, taken: seq<seq<Byte>>)
    requires ep.Ready() && Evolves(ep, first, ep1) && |first| <= 1 && Took(ep1, more, ep2, taken)
    requires Reports(ep.waits) == [data] + Reports(ep1.waits)
    requires ep.Accepting() ==> ep1.Accepting() && ep1.waits == ep.waits[1..]
    ensures Took(ep, first + more, ep2, [data] + taken)
  {
    EvolvesOn(ep, first, ep1, more, ep2);
    assert [data] + (taken + Reports(ep2.waits)) == ([data] + taken) + Reports(ep2.waits);
    if ep.Accepting() {
      assert ep.waits[1..][GoodRun(ep1.waits)..] == ep.waits[1 + GoodRun(ep1.waits)..];
    }
  }

  /**
   A successful read takes some of the reports in order and delivers the last of
   them; any other read takes none.  Reports that are queued behind one another
   are taken together: at most one wait that shows no report is used up.  Where no
   post is refused it takes exactly the run of good waits at the front.
   */
  lemma LatestTakes(ep: Ep) returns (used: seq<Wait>, taken: seq<seq<Byte>>)
    ensures var (ep', status, data) := Latest(ep);
            && Took(ep, used, ep', taken)
            && (status == Success <==> ep.Ready())
            && (status == Success <==> taken != [])
            && (status == Success ==> data == taken[|taken| - 1])
            && (status == TimedOut ==> ep'.posted)
  {
    ReadTakesOldest(ep);
    var (ep1, status, first) := Read(ep);
    used := ReadEvolves(ep);
    if status == Success {
      var more;
      more, taken := DrainTakes(ep1, first);
      TookOneMore(ep, used, ep1, first, more, Drain(ep1, first).0, taken);
      used, taken := used + more, [first] + taken;
    } else {
      taken := [];
      TookNone(ep, used, ep1);
    }
  }

  // ---------------------------------------------------------------- when the newest is delivered

  /** What has completed by now: the waits before the first that shows nothing in time. */
  function Queued(waits: seq<Wait>): (q: seq<Wait>)
    ensures |q| <= |waits| && q == waits[..|q|]
  {
    if waits == [] || waits[0].Nothing? then [] else [waits[0]] + Queued(waits[1..])
  }

  ghost predicate NoGoodBehindBad(waits: seq<Wait>) {
    forall i, j :: 0 <= i < j < |waits| && waits[j].Good() ==> waits[i].Good()
  }

  lemma {:induction false} GoodRunIsGood(waits: seq<Wait>, i: nat)
    requires i < |waits|
    ensures i < GoodRun(waits) ==> waits[i].Good()
    ensures i == GoodRun(waits) ==> !waits[i].Good()
  {
    if i > 0 && waits[0].Good() {
      GoodRunIsGood(waits[1..], i - 1);
    }
  }

  lemma {:induction false} GoodRunIsQueued(waits: seq<Wait>)
    ensures GoodRun(waits) <= |Queued(waits)| && GoodRun(Queued(waits)) == GoodRun(waits)
  {
    if waits != [] && waits[0].Good() {
      GoodRunIsQueued(waits[1..]);
      assert Queued(waits)[1..] == Queued(waits[1..]);
    }
  }

  lemma {:induction false} NoReports(waits: seq<Wait>)
    ensures Reports(waits) == [] <==> forall i :: 0 <= i < |waits| ==> !waits[i].Good()
  {
    if waits != [] {
      NoReports(waits[1..]);
      if waits[0].Good() {
        assert |Reports(waits)| > 0;
      } else {
        assert Reports(waits) == Reports(waits[1..]);
        assert forall i :: 0 < i < |waits| ==> waits[i] == waits[1..][i - 1];
      }
    }
  }

  lemma {:induction false} ReportsOfRun(waits: seq<Wait>)
    ensures |Reports(waits[..GoodRun(waits)])| == GoodRun(waits)
  {
    if waits != [] && waits[0].Good() {
      ReportsOfRun(waits[1..]);
      assert waits[..GoodRun(waits)][1..] == waits[1..][..GoodRun(waits[1..])];
    }
  }

  /**
   Where no post is refused, a successful read takes all the reports that had
   completed by then, and so delivers the newest of them, exactly when none of them
   stood behind a wait that brought none.
   */
  lemma LatestKeepsNewest(ep: Ep) returns (taken: seq<seq<Byte>>)
    requires ep.Ready() && ep.Accepting()
    ensures var (ep', status, data) := Latest(ep);
            && Reports(ep.waits) == taken + Reports(ep'.waits)
            && status == Success && taken != [] && data == taken[|taken| - 1]
            && taken <= Reports(Queued(ep.waits))
            && (taken == Reports(Queued(ep.waits)) <==> NoGoodBehindBad(Queued(ep.waits)))
  {
    var used;
    used, taken := LatestTakes(ep);
    NewestExactly(ep, taken);
  }

  lemma NewestExactly(ep: Ep, taken: seq<seq<Byte>>)
    requires ep.Ready() && ep.Accepting()
    requires |taken| == GoodRun(ep.waits) && taken <= Reports(ep.waits)
    ensures taken <= Reports(Queued(ep.waits))
    ensures |taken| == |Reports(Queued(ep.waits))| <==> NoGoodBehindBad(Queued(ep.waits))
  {
    var q, n := Queued(ep.waits), GoodRun(ep.waits);
    GoodRunIsQueued(ep.waits);
    RunAndRest(q);
    ReportsConcat(q, ep.waits[|q|..]);
    assert q + ep.waits[|q|..] == ep.waits;
    assert taken == Reports(ep.waits)[..n] == Reports(q)[..n];
    NoReports(q[n..]);
    GoodBehindRun(q);
  }

  lemma RunAndRest(q: seq<Wait>)
    ensures |Reports(q)| == GoodRun(q) + |Reports(q[GoodRun(q)..])|
  {
    var n := GoodRun(q);
    ReportsOfRun(q);
    ReportsConcat(q[..n], q[n..]);
    assert q[..n] + q[n..] == q;
  }

  lemma GoodBehindRun(q: seq<Wait>)
    ensures NoGoodBehindBad(q) <==> forall i :: 0 <= i < |q[GoodRun(q)..]| ==> !q[GoodRun(q)..][i].Good()
  {
    var n := GoodRun(q);
    forall i | 0 <= i < |q|
      ensures (i < n ==> q[i].Good()) && (i == n ==> !q[i].Good())
    {
      GoodRunIsGood(q, i);
    }
    if NoGoodBehindBad(q) {
      forall i | 0 <= i < |q[n..]|
        ensures !q[n..][i].Good()
      {
        assert q[n..][i] == q[n + i] && !q[n].Good();
      }
    } else {
      var i, j :| 0 <= i < j < |q| && q[j].Good() && !q[i].Good();
      assert q[n..][j - n] == q[j];
    }
  }

  /** An endpoint that waits for nothing, has no strays and accepts posts. */
  function Fresh(waits: seq<Wait>): Ep {
    Ep(false, 0, 0, [], waits)
  }

  /** A report, an empty completion and a newer report: the older one is delivered, the newer one stays. */
  lemma StaleReport(older: seq<Byte>, newer: seq<Byte>)
    requires older != [] && newer != []
    ensures var waits := [Report(0, older, true), Report(0, [], true), Report(0, newer, true)];
            Latest(Fresh(waits)) == (Fresh(waits[2..]), Success, older) && waits[2].Good()
  {
    var waits := [Report(0, older, true), Report(0, [], true), Report(0, newer, true)];
    assert Read(Fresh(waits)) == (Fresh(waits[1..]), Success, older);
    assert Read(Fresh(waits[1..])) == (Fresh(waits[2..]), NoDataAvailable, []);
  }

  // ---------------------------------------------------------------- how many transfers are out

  /** At a wait the stack holds one transfer more than events have brought no report. */
  lemma TransfersAtWait(ep: Ep)
    requires ep.Accounted() && Post(ep).posted
    ensures Post(ep).Out() == 1 + ep.unreported
  {
  }

  /** The report the stack gives may be another transfer's exactly when it holds more than the one waited for. */
  lemma MismatchNeedsStray(held: seq<nat>, nextId: nat)
    requires Below(held, nextId) && held != []
    ensures |held| > 1 <==> exists id :: id in held && id != held[|held| - 1]
  {
    if |held| > 1 {
      BelowAt(held, nextId, 0);
      assert held[0] in held;
    }
  }

  /** An event without a report, and the next read posts a second transfer while the first is still out. */
  lemma TwoTransfersOut()
    ensures Read(Read(Fresh([NoReport])).0).0.Out() == 2
  {
    assert Read(Fresh([NoReport])).0 == Ep(false, 1, 1, [], []);
  }

  /** From then on every event may be another's: the report of a stray is refused and leaves a stray behind. */
  lemma StraysStay(ep: Ep)
    requires ep.Accounted() && ep.unreported > 0 && ep.posted && ep.waits != []
    requires ep.waits[0].Report? && 0 < ep.waits[0].age <= ep.strays
    ensures Read(ep).1 == NoDataAvailable && Read(ep).0.strays == ep.strays && !Read(ep).0.posted
  {
  }
}
