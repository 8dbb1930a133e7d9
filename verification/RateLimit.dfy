/** The in-memory rate limiter (common/rate-limit.go): per key a queue of at
    most `max` accepted timestamps, with a periodic sweep of idle keys. */
module RateLimit {
  import opened SlidingWindow

  type Store = map<string, seq<int>>

  predicate NoEmptyQueue(store: Store) {
    forall k :: k in store ==> store[k] != []
  }

  /** The decision of both Request and Allow. */
  predicate Admits(store: Store, key: string, limit: Limit, now: int)
    requires NoEmptyQueue(store)
  {
    key in store && |store[key]| >= limit.max ==> now - store[key][0] >= limit.duration
  }

  function Recorded(store: Store, key: string, limit: Limit, now: int): (after: Store)
    requires NoEmptyQueue(store)
    ensures NoEmptyQueue(after)
  {
    var queue := Get(store, key);
    if key in store && |queue| >= limit.max then store[key := queue[1..] + [now]]
    else store[key := queue + [now]]
  }

  predicate Idle(queue: seq<int>, now: int, expiration: int) {
    queue == [] || now - queue[|queue| - 1] > expiration
  }

  function Swept(store: Store, now: int, expiration: int): (after: Store) {
    map k | k in store && !Idle(store[k], now, expiration) :: store[k]
  }

  const SECOND: int := 1_000_000_000

  /** Init starts the sweep only for a positive period; the idle time it allows
      is the period in whole seconds. */
  datatype Sweep = Off | On(expiration: nat)

  class InMemoryRateLimiter {
    var store: Store
    const sweep: Sweep

    constructor (period: int)
      ensures store == map[] && sweep == if period > 0 then On(period / 1_000_000_000) else Off
    {
      store := map[];
      sweep := if period > 0 then On(period / SECOND) else Off;
    }

    method Request(key: string, limit: Limit, now: int) returns (ok: bool)
      requires NoEmptyQueue(store)
      modifies this
      ensures ok == Admits(old(store), key, limit, now)
      ensures store == if ok then Recorded(old(store), key, limit, now) else old(store)
      ensures NoEmptyQueue(store)
    {
      if key in store {
        var queue := store[key];
        if |queue| < limit.max {
          store := store[key := queue + [now]];
          return true;
        } else if now - queue[0] >= limit.duration {
          queue := queue[1..];
          store := store[key := queue + [now]];
          return true;
        } else {
          return false;
        }
      }
      store := store[key := []];
      store := store[key := store[key] + [now]];
      assert store == old(store)[key := Get(old(store), key) + [now]];
      return true;
    }

    method Allow(key: string, limit: Limit, now: int) returns (ok: bool)
      requires NoEmptyQueue(store)
      ensures ok == Admits(store, key, limit, now)
    {
      if key !in store || |store[key]| < limit.max {
        return true;
      }
      return now - store[key][0] >= limit.duration;
    }

    /** One pass of the sweep goroutine, in whatever order it visits the keys. */
    method ClearExpiredItems(now: int)
      requires sweep.On?
      modifies this
      ensures store == Swept(old(store), now, sweep.expiration)
    {
      var pending := store.Keys;
      while pending != {}
        invariant pending <= store.Keys <= old(store).Keys
        invariant forall k :: k in store ==> store[k] == old(store)[k]
        invariant forall k :: k in old(store) && k !in pending ==> (k in store <==> !Idle(old(store)[k], now, sweep.expiration))
        decreases pending
      {
        var key :| key in pending;
        if Idle(store[key], now, sweep.expiration) {
          store := store - {key};
        }
        pending := pending - {key};
      }
    }
  }

  // ---- Traces ----------------------------------------------------------------

  datatype Event = Request(key: string, now: int) | Allow(key: string, now: int) | Cleanup(now: int)

  type Limits = string -> Limit

  /** Times never go back, and none is later than `now`. */
  predicate Clock(trace: Trace<Event>, now: int) {
    trace.Then? ==> trace.last.now <= now && Clock(trace.past, trace.last.now)
  }

  datatype Run = Run(store: Store, answers: seq<bool>)

  /** The limiter's answers over a whole trace of calls and sweeps. */
  function Limiter(limits: Limits, sweep: Sweep, trace: Trace<Event>): (r: Run)
    ensures NoEmptyQueue(r.store)
  {
    match trace
    case Start => Run(map[], [])
    case Then(past, event) =>
      var before := Limiter(limits, sweep, past);
      match event
      case Request(key, now) =>
        var ok := Admits(before.store, key, limits(key), now);
        Run(if ok then Recorded(before.store, key, limits(key), now) else before.store, before.answers + [ok])
      case Allow(key, now) => before.(answers := before.answers + [Admits(before.store, key, limits(key), now)])
      case Cleanup(now) => if sweep.Off? then before else before.(store := Swept(before.store, now, sweep.expiration))
  }

  /** The same trace judged by the sliding-window rule on the full history; the
      store holds every accepted time and sweeps do nothing. */
  function Ideal(limits: Limits, trace: Trace<Event>): (r: Run) {
    match trace
    case Start => Run(map[], [])
    case Then(past, event) =>
      var before := Ideal(limits, past);
      match event
      case Request(key, now) =>
        var ok := Admissible(Get(before.store, key), limits(key), now);
        Run(if ok then before.store[key := Get(before.store, key) + [now]] else before.store, before.answers + [ok])
      case Allow(key, now) => before.(answers := before.answers + [Admissible(Get(before.store, key), limits(key), now)])
      case Cleanup(_) => before
  }

  /** The queue is the tail of the accepted history, and what it lacks cannot
      matter: it is full, or the missing part has left the window. */
  ghost predicate Tracks(queue: seq<int>, accepted: seq<int>, limit: Limit, now: int) {
    && Ordered(accepted, now) && Spaced(accepted, limit)
    && Suffix(queue, accepted) && |queue| <= limit.max
    && (|queue| == limit.max || Stale(accepted, |queue|, now, limit.duration))
  }

  /** A configuration under which the queue is enough. */
  predicate Sound(limit: Limit, sweep: Sweep) {
    limit.max >= 1 && (sweep.On? ==> limit.duration <= sweep.expiration + 1)
  }

  lemma TracksLater(queue: seq<int>, accepted: seq<int>, limit: Limit, now: int, later: int)
    requires Tracks(queue, accepted, limit, now) && now <= later
    ensures Tracks(queue, accepted, limit, later)
  {
  }

  lemma TracksGrow(queue: seq<int>, accepted: seq<int>, limit: Limit, now: int, next: seq<int>)
    requires Tracks(queue, accepted, limit, now) && limit.max >= 1
    requires Spaced(accepted + [now], limit)
    requires (|queue| < limit.max && next == queue + [now]) || (|queue| == limit.max && next == queue[1..] + [now])
    ensures Tracks(next, accepted + [now], limit, now)
  {
  }

  lemma TracksRequest(store: Store, accepted: seq<int>, key: string, limit: Limit, now: int)
    requires NoEmptyQueue(store) && limit.max >= 1 && Tracks(Get(store, key), accepted, limit, now)
    ensures Admits(store, key, limit, now) <==> Admissible(accepted, limit, now)
    ensures Admits(store, key, limit, now) ==> Tracks(Get(Recorded(store, key, limit, now), key), accepted + [now], limit, now)
  {
    SuffixDecides(accepted, Get(store, key), limit, now);
    if Admits(store, key, limit, now) {
      AdmissibleKeepsSpacing(accepted, limit, now);
      TracksGrow(Get(store, key), accepted, limit, now, Get(Recorded(store, key, limit, now), key));
    }
  }

  lemma TracksSweep(store: Store, accepted: seq<int>, key: string, limit: Limit, now: int, sweep: Sweep)
    requires sweep.On? && Sound(limit, sweep) && Tracks(Get(store, key), accepted, limit, now)
    ensures Tracks(Get(Swept(store, now, sweep.expiration), key), accepted, limit, now)
  {
    if key in store && store[key] != [] && key !in Swept(store, now, sweep.expiration) {
      assert store[key][|store[key]| - 1] == accepted[|accepted| - 1];
    }
  }

  /** Simulation of the ideal rule by the queues, key by key, at any later time. */
  lemma {:induction false} Simulates(limits: Limits, sweep: Sweep, trace: Trace<Event>, key: string, now: int)
    requires Clock(trace, now) && forall k :: Sound(limits(k), sweep)
    ensures Tracks(Get(Limiter(limits, sweep, trace).store, key), Get(Ideal(limits, trace).store, key), limits(key), now)
    decreases trace
  {
    if trace.Start? {
    } else {
      var Then(past, event) := trace;
      Simulates(limits, sweep, past, key, event.now);
      var store, accepted := Limiter(limits, sweep, past).store, Get(Ideal(limits, past).store, key);
      if event.Request? && event.key == key {
        TracksRequest(store, accepted, key, limits(key), event.now);
      } else if event.Cleanup? && sweep.On? {
        TracksSweep(store, accepted, key, limits(key), event.now, sweep);
      }
      TracksLater(Get(Limiter(limits, sweep, trace).store, key), Get(Ideal(limits, trace).store, key), limits(key), event.now, now);
    }
  }

  /** On every trace of requests, dry runs and sweeps, every answer is the ideal one. */
  lemma {:induction false} AnswersIdeal(limits: Limits, sweep: Sweep, trace: Trace<Event>, now: int)
    requires Clock(trace, now) && forall k :: Sound(limits(k), sweep)
    ensures Limiter(limits, sweep, trace).answers == Ideal(limits, trace).answers
    decreases trace
  {
    if trace.Start? {
    } else {
      var Then(past, event) := trace;
      AnswersIdeal(limits, sweep, past, event.now);
      if !event.Cleanup? {
        Simulates(limits, sweep, past, event.key, event.now);
        TracksRequest(Limiter(limits, sweep, past).store, Get(Ideal(limits, past).store, event.key), event.key, limits(event.key), event.now);
      }
    }
  }

  /** The times of the requests for a key that the limiter accepted. */
  function Accepted(limits: Limits, sweep: Sweep, trace: Trace<Event>, key: string): (times: seq<int>) {
    match trace
    case Start => []
    case Then(past, event) =>
      var before := Accepted(limits, sweep, past, key);
      if event.Request? && event.key == key && Admits(Limiter(limits, sweep, past).store, key, limits(key), event.now)
      then before + [event.now] else before
  }

  lemma {:induction false} AcceptedIsIdeal(limits: Limits, sweep: Sweep, trace: Trace<Event>, key: string, now: int)
    requires Clock(trace, now) && forall k :: Sound(limits(k), sweep)
    ensures Accepted(limits, sweep, trace, key) == Get(Ideal(limits, trace).store, key)
    decreases trace
  {
    if trace.Start? {
    } else {
      var Then(past, event) := trace;
      AcceptedIsIdeal(limits, sweep, past, key, event.now);
      Simulates(limits, sweep, past, key, event.now);
      TracksRequest(Limiter(limits, sweep, past).store, Get(Ideal(limits, past).store, key), key, limits(key), event.now);
    }
  }

  /** Between any accepted request and the one `max` places later lies a full
      duration, whatever the trace. */
  lemma AcceptedAreSpaced(limits: Limits, sweep: Sweep, trace: Trace<Event>, key: string, now: int)
    requires Clock(trace, now) && forall k :: Sound(limits(k), sweep)
    ensures Spaced(Accepted(limits, sweep, trace, key), limits(key))
  {
    AcceptedIsIdeal(limits, sweep, trace, key, now);
    Simulates(limits, sweep, trace, key, now);
  }

  function WithoutCleanup(trace: Trace<Event>): (r: Trace<Event>) {
    if trace.Start? then Start
    else if trace.last.Cleanup? then WithoutCleanup(trace.past)
    else Then(WithoutCleanup(trace.past), trace.last)
  }

  lemma {:induction false} IdealIgnoresCleanup(limits: Limits, trace: Trace<Event>, now: int)
    requires Clock(trace, now)
    ensures Ideal(limits, WithoutCleanup(trace)) == Ideal(limits, trace)
    ensures Clock(WithoutCleanup(trace), now)
    decreases trace
  {
    if trace.Start? {
    } else {
      IdealIgnoresCleanup(limits, trace.past, trace.last.now);
      ClockLater(WithoutCleanup(trace.past), trace.last.now, now);
    }
  }

  lemma ClockLater(trace: Trace<Event>, now: int, later: int)
    requires Clock(trace, now) && now <= later
    ensures Clock(trace, later)
  {
  }

  /** Garbage collection is invisible: deleting every sweep from the trace
      changes no answer. */
  lemma CleanupInvisible(limits: Limits, sweep: Sweep, trace: Trace<Event>, now: int)
    requires Clock(trace, now) && forall k :: Sound(limits(k), sweep)
    ensures Limiter(limits, sweep, trace).answers == Limiter(limits, sweep, WithoutCleanup(trace)).answers
  {
    IdealIgnoresCleanup(limits, trace, now);
    AnswersIdeal(limits, sweep, trace, now);
    AnswersIdeal(limits, sweep, WithoutCleanup(trace), now);
  }

  /** A dry run followed at the same instant by the real request gives the same answer. */
  lemma AllowPredictsRequest(limits: Limits, sweep: Sweep, trace: Trace<Event>, key: string, now: int)
    ensures var answers := Limiter(limits, sweep, Then(Then(trace, Allow(key, now)), Request(key, now))).answers;
            |answers| >= 2 && answers[|answers| - 2] == answers[|answers| - 1]
  {
    var before := Limiter(limits, sweep, trace);
    var ok := Admits(before.store, key, limits(key), now);
    assert Limiter(limits, sweep, Then(trace, Allow(key, now))).answers == before.answers + [ok];
  }

  // ---- The condition is exact -------------------------------------------------

  /** n requests for one key, all at time zero. */
  function Burst(key: string, n: nat): (trace: Trace<Event>)
    ensures Clock(trace, 0)
  {
    if n == 0 then Start else Then(Burst(key, n - 1), Request(key, 0))
  }

  function Zeros(n: nat): (r: seq<int>)
    ensures |r| == n && forall i :: 0 <= i < n ==> r[i] == 0
  {
    if n == 0 then [] else Zeros(n - 1) + [0]
  }

  lemma {:induction false} BurstFills(limits: Limits, sweep: Sweep, key: string, n: nat)
    requires n <= limits(key).max
    ensures Get(Limiter(limits, sweep, Burst(key, n)).store, key) == Zeros(n)
    ensures Get(Ideal(limits, Burst(key, n)).store, key) == Zeros(n)
  {
    if n == 0 {
    } else {
      BurstFills(limits, sweep, key, n - 1);
      var before, ideal := Limiter(limits, sweep, Burst(key, n - 1)).store, Ideal(limits, Burst(key, n - 1)).store;
      assert Admits(before, key, limits(key), 0) && Admissible(Get(ideal, key), limits(key), 0);
    }
  }

  /** For every other configuration some trace gets a wrong answer. */
  lemma UnsoundIsWrong(limits: Limits, sweep: Sweep, key: string) returns (trace: Trace<Event>)
    requires limits(key).max >= 0 && !Sound(limits(key), sweep)
    ensures exists now :: Clock(trace, now)
    ensures Limiter(limits, sweep, trace).answers != Ideal(limits, trace).answers
  {
    if limits(key).max == 0 {
      trace := Then(Start, Request(key, 0));
      var none: Run := Run(map[], []);
      assert Ideal(limits, Start) == none && Get(none.store, key) == [] && !Admissible([], limits(key), 0);
      assert Ideal(limits, trace).answers == none.answers + [false];
      assert Limiter(limits, sweep, trace).answers == none.answers + [true];
      assert ([] + [true])[0] != ([] + [false])[0];
      assert Clock(trace, 0);
    } else {
      trace := SweptTooEarly(limits, sweep, key);
    }
  }

  /** A burst swept just past the expiration: the limiter has forgotten it, the
      ideal rule has not. */
  lemma BurstForgotten(limits: Limits, sweep: Sweep, key: string)
    requires sweep.On? && limits(key).max >= 1
    ensures var swept := Then(Burst(key, limits(key).max), Cleanup(sweep.expiration + 1));
            && Clock(swept, sweep.expiration + 1)
            && key !in Limiter(limits, sweep, swept).store
            && Get(Ideal(limits, swept).store, key) == Zeros(limits(key).max)
  {
    BurstFills(limits, sweep, key, limits(key).max);
  }

  /** A full burst, a sweep just past the expiration, and one more request. */
  lemma SweptTooEarly(limits: Limits, sweep: Sweep, key: string) returns (trace: Trace<Event>)
    requires sweep.On? && limits(key).max >= 1 && limits(key).duration > sweep.expiration + 1
    ensures Clock(trace, sweep.expiration + 1)
    ensures Limiter(limits, sweep, trace).answers != Ideal(limits, trace).answers
  {
    var limit, late := limits(key), sweep.expiration + 1;
    BurstForgotten(limits, sweep, key);
    var swept := Then(Burst(key, limit.max), Cleanup(late));
    trace := Then(swept, Request(key, late));
    AllYoung(Zeros(limit.max), late, limit.duration);
    var given, wanted := Limiter(limits, sweep, trace).answers, Ideal(limits, trace).answers;
    assert given[|given| - 1] && !wanted[|wanted| - 1];
  }

  /** Every answer on every trace is the ideal one. */
  ghost predicate RefinesIdeal(limits: Limits, sweep: Sweep) {
    forall trace: Trace<Event>, now: int ::
      Clock(trace, now) ==> Limiter(limits, sweep, trace).answers == Ideal(limits, trace).answers
  }

  /** The limiter implements the sliding window on all traces if and only if
      every key's maximum is at least one and its window is at most one second
      longer than the sweep's expiration, if there is a sweep. */
  lemma RefinesIdealIff(limits: Limits, sweep: Sweep)
    requires forall k :: limits(k).max >= 0
    ensures RefinesIdeal(limits, sweep) <==> forall k :: Sound(limits(k), sweep)
  {
    if forall k :: Sound(limits(k), sweep) {
      forall trace: Trace<Event>, now: int | Clock(trace, now)
        ensures Limiter(limits, sweep, trace).answers == Ideal(limits, trace).answers
      {
        AnswersIdeal(limits, sweep, trace, now);
      }
    } else {
      var key :| !Sound(limits(key), sweep);
      var trace := UnsoundIsWrong(limits, sweep, key);
    }
  }
}
