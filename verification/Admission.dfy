/** The image-task admission windows (controller/canvas_image_task.go): per key
    a list of accepted times, pruned to the current window before it is counted,
    and the guard that takes a user slot and then a token slot. Times are in
    nanoseconds. */
module Admission {
  import opened SlidingWindow
  import RateLimit

  const WINDOW: int := 60_000_000_000
  const USER_RATE := Limit(12, WINDOW)
  const TOKEN_RATE := Limit(8, WINDOW)

  datatype Key = User(id: int) | Token(id: int)

  /** Entries not after the cutoff are dropped from the front. */
  function Pruned(entries: seq<int>, now: int, duration: int): (kept: seq<int>)
    decreases |entries|
  {
    if entries != [] && entries[0] <= now - duration then Pruned(entries[1..], now, duration) else entries
  }

  datatype Taken<K> = Taken(windows: map<K, seq<int>>, ok: bool)

  function Take<K>(windows: map<K, seq<int>>, key: K, limit: Limit, now: int): (r: Taken<K>) {
    var entries := Pruned(Get(windows, key), now, limit.duration);
    if |entries| >= limit.max then Taken(windows[key := entries], false)
    else Taken(windows[key := entries + [now]], true)
  }

  /** The outcome of one submission, as the two takes decide it. */
  function Guarded(windows: map<Key, seq<int>>, user: int, token: int, now: int): (r: Taken<Key>) {
    if user <= 0 then Taken(windows, false)
    else
      var first := Take(windows, User(user), USER_RATE, now);
      if !first.ok || token <= 0 then first
      else Take(first.windows, Token(token), TOKEN_RATE, now)
  }

  class AdmissionState {
    var windows: map<Key, seq<int>>

    constructor ()
      ensures windows == map[]
    {
      windows := map[];
    }

    method TakeRate(key: Key, limit: Limit, now: int) returns (ok: bool)
      modifies this
      ensures Taken(windows, ok) == Take(old(windows), key, limit, now)
    {
      var entries := Get(windows, key);
      var cutoff := now - limit.duration;
      var first := 0;
      while first < |entries| && entries[first] <= cutoff
        invariant first <= |entries|
        invariant Pruned(entries[first..], now, limit.duration) == Pruned(entries, now, limit.duration)
      {
        assert entries[first..][1..] == entries[first + 1..];
        first := first + 1;
      }
      entries := entries[first..];
      if |entries| >= limit.max {
        windows := windows[key := entries];
        return false;
      }
      windows := windows[key := entries + [now]];
      return true;
    }

    method Guard(user: int, token: int, now: int) returns (admitted: bool)
      modifies this
      ensures Taken(windows, admitted) == Guarded(old(windows), user, token, now)
    {
      if user <= 0 {
        return false;
      }
      admitted := TakeRate(User(user), USER_RATE, now);
      if admitted && token > 0 {
        admitted := TakeRate(Token(token), TOKEN_RATE, now);
      }
    }
  }

  // ---- One key -------------------------------------------------------------

  /** The clock is read before the lock is taken, so the times of a key may step
      back. `lag` bounds how far, and `high` is a time none of them has passed.
      The window holds the tail of the accepted history; the rest was too old at
      a time not after `high`. */
  predicate Tracks(entries: seq<int>, accepted: seq<int>, duration: int, lag: int, high: int) {
    && (forall i, j :: 0 <= i < j < |accepted| ==> accepted[i] <= accepted[j] + lag)
    && (forall i :: 0 <= i < |accepted| ==> accepted[i] <= high)
    && Suffix(entries, accepted) && Stale(accepted, |entries|, high, duration)
  }

  lemma {:induction false} PruneTracks(entries: seq<int>, accepted: seq<int>, duration: int, lag: int, now: int, high: int)
    requires Tracks(entries, accepted, duration, lag, high) && now <= high
    ensures Tracks(Pruned(entries, now, duration), accepted, duration, lag, high)
    decreases |entries|
  {
    if entries == [] || entries[0] > now - duration {
    } else {
      assert entries[0] == accepted[|accepted| - |entries|];
      PruneTracks(entries[1..], accepted, duration, lag, now, high);
    }
  }

  lemma {:induction false} PrunedHead(entries: seq<int>, now: int, duration: int)
    ensures var kept := Pruned(entries, now, duration); kept != [] ==> kept[0] > now - duration
    decreases |entries|
  {
    if entries == [] || entries[0] > now - duration {
    } else {
      PrunedHead(entries[1..], now, duration);
    }
  }

  /** What is counted is at least what is younger than the window less the lag,
      and at most what is younger than the window plus the lag. */
  lemma PrunedCounts(entries: seq<int>, accepted: seq<int>, duration: int, lag: nat, now: int)
    requires Tracks(entries, accepted, duration, lag, now + lag)
    ensures Young(accepted, now, duration - lag) <= |Pruned(entries, now, duration)| <= Young(accepted, now, duration + lag)
  {
    var kept := Pruned(entries, now, duration);
    PruneTracks(entries, accepted, duration, lag, now, now + lag);
    YoungAtMost(accepted, |kept|, now, duration - lag);
    PrunedHead(entries, now, duration);
    if kept != [] {
      TailYoung(accepted, kept, now, duration, lag);
    }
  }

  lemma TailYoung(accepted: seq<int>, kept: seq<int>, now: int, duration: int, lag: nat)
    requires Suffix(kept, accepted) && kept != [] && kept[0] > now - duration
    requires forall i, j :: 0 <= i < j < |accepted| ==> accepted[i] <= accepted[j] + lag
    ensures Young(accepted, now, duration + lag) >= |kept|
  {
    var cut := |accepted| - |kept|;
    YoungSplit(accepted, cut, now, duration + lag);
    forall i | 0 <= i < |kept| ensures now - accepted[cut..][i] < duration + lag {
      assert accepted[cut..][i] == accepted[cut + i] && accepted[cut] == kept[0];
    }
    AllYoung(accepted[cut..], now, duration + lag);
  }

  lemma TracksLater(entries: seq<int>, accepted: seq<int>, duration: int, lag: int, high: int, higher: int)
    requires Tracks(entries, accepted, duration, lag, high) && high <= higher
    ensures Tracks(entries, accepted, duration, lag, higher)
  {
  }

  lemma TracksGrow(entries: seq<int>, accepted: seq<int>, duration: int, lag: int, now: int, high: int)
    requires Tracks(entries, accepted, duration, lag, high) && now <= high
    requires forall i :: 0 <= i < |accepted| ==> accepted[i] <= now + lag
    ensures Tracks(entries + [now], accepted + [now], duration, lag, high)
  {
  }

  /** One take is answered between two sliding-window rules: it is granted if the
      window longer by the lag has room, and only if the window shorter by the
      lag has room, for any limit whatever, also zero or negative... */
  lemma TakeBetween<K>(windows: map<K, seq<int>>, key: K, accepted: seq<int>, limit: Limit, lag: nat, now: int)
    requires Tracks(Get(windows, key), accepted, limit.duration, lag, now + lag)
    ensures Admissible(accepted, Limit(limit.max, limit.duration + lag), now) ==> Take(windows, key, limit, now).ok
    ensures Take(windows, key, limit, now).ok ==> Admissible(accepted, Limit(limit.max, limit.duration - lag), now)
  {
    PrunedCounts(Get(windows, key), accepted, limit.duration, lag, now);
  }

  /** ...so by the rule itself when times are in order... */
  lemma TakeDecides<K>(windows: map<K, seq<int>>, key: K, accepted: seq<int>, limit: Limit, now: int)
    requires Tracks(Get(windows, key), accepted, limit.duration, 0, now)
    ensures Take(windows, key, limit, now).ok <==> Admissible(accepted, limit, now)
  {
    TakeBetween(windows, key, accepted, limit, 0, now);
  }

  /** ...and its window goes on tracking what was accepted. */
  lemma TakeTracks<K>(windows: map<K, seq<int>>, key: K, accepted: seq<int>, limit: Limit, lag: int, now: int, high: int)
    requires Tracks(Get(windows, key), accepted, limit.duration, lag, high) && now <= high
    requires forall i :: 0 <= i < |accepted| ==> accepted[i] <= now + lag
    ensures var taken := Take(windows, key, limit, now);
      Tracks(Get(taken.windows, key), if taken.ok then accepted + [now] else accepted, limit.duration, lag, high)
  {
    PruneTracks(Get(windows, key), accepted, limit.duration, lag, now, high);
    TracksGrow(Pruned(Get(windows, key), now, limit.duration), accepted, limit.duration, lag, now, high);
  }

  // ---- The two limiters agree -------------------------------------------------

  /** The answers of the pruning limiter to the requests of a trace; it has no
      dry run and no sweep. */
  function Pruning(limits: RateLimit.Limits, trace: Trace<RateLimit.Event>): (r: RateLimit.Run) {
    match trace
    case Start => RateLimit.Run(map[], [])
    case Then(past, event) =>
      var before := Pruning(limits, past);
      match event
      case Request(key, now) =>
        var taken := Take(before.store, key, limits(key), now);
        RateLimit.Run(taken.windows, before.answers + [taken.ok])
      case _ => before
  }

  predicate NoDryRun(trace: Trace<RateLimit.Event>) {
    trace.Then? ==> !trace.last.Allow? && NoDryRun(trace.past)
  }

  lemma {:induction false} PruningTracks(limits: RateLimit.Limits, trace: Trace<RateLimit.Event>, key: string, now: int)
    requires RateLimit.Clock(trace, now)
    ensures Tracks(Get(Pruning(limits, trace).store, key), Get(RateLimit.Ideal(limits, trace).store, key), limits(key).duration, 0, now)
    decreases trace
  {
    if trace.Start? {
    } else {
      var Then(past, event) := trace;
      PruningTracks(limits, past, key, event.now);
      if event.Request? && event.key == key {
        TakeDecides(Pruning(limits, past).store, key, Get(RateLimit.Ideal(limits, past).store, key), limits(key), event.now);
        TakeTracks(Pruning(limits, past).store, key, Get(RateLimit.Ideal(limits, past).store, key), limits(key), 0, event.now, event.now);
      }
      TracksLater(Get(Pruning(limits, trace).store, key), Get(RateLimit.Ideal(limits, trace).store, key), limits(key).duration, 0, event.now, now);
    }
  }

  lemma {:induction false} PruningIsIdeal(limits: RateLimit.Limits, trace: Trace<RateLimit.Event>, now: int)
    requires RateLimit.Clock(trace, now) && NoDryRun(trace)
    ensures Pruning(limits, trace).answers == RateLimit.Ideal(limits, trace).answers
    decreases trace
  {
    if trace.Start? {
    } else {
      var Then(past, event) := trace;
      PruningIsIdeal(limits, past, event.now);
      if event.Request? {
        PruningTracks(limits, past, event.key, event.now);
        TakeDecides(Pruning(limits, past).store, event.key, Get(RateLimit.Ideal(limits, past).store, event.key), limits(event.key), event.now);
      }
    }
  }

  /** Fixed-length queues with a sweep and pruned lists decide alike on every
      trace of requests and sweeps. */
  lemma LimitersAgree(limits: RateLimit.Limits, sweep: RateLimit.Sweep, trace: Trace<RateLimit.Event>, now: int)
    requires RateLimit.Clock(trace, now) && NoDryRun(trace)
    requires forall k :: RateLimit.Sound(limits(k), sweep)
    ensures Pruning(limits, trace).answers == RateLimit.Limiter(limits, sweep, trace).answers
  {
    PruningIsIdeal(limits, trace, now);
    RateLimit.AnswersIdeal(limits, sweep, trace, now);
  }

  // ---- The guard over whole traces ----------------------------------------------

  datatype Submission = Submission(user: int, token: int, now: int)

  /** The windows after a whole trace of submissions, in the order of the lock. */
  function Windows(trace: Trace<Submission>): (w: map<Key, seq<int>>) {
    if trace.Start? then map[] else Guarded(Windows(trace.past), trace.last.user, trace.last.token, trace.last.now).windows
  }

  /** The guard's answer to a submission that follows a trace. */
  predicate Admits(past: Trace<Submission>, s: Submission) {
    Guarded(Windows(past), s.user, s.token, s.now).ok
  }

  predicate Concerns(s: Submission, key: Key) {
    key == User(s.user) || (s.token > 0 && key == Token(s.token))
  }

  /** No submission for the key was later than `high`. */
  predicate AllBy(trace: Trace<Submission>, key: Key, high: int) {
    trace.Then? ==> (Concerns(trace.last, key) ==> trace.last.now <= high) && AllBy(trace.past, key, high)
  }

  /** The times of a key's submissions step back by at most `lag` from any earlier
      one. With no lag they are in order; other keys do not matter. */
  predicate Lags(trace: Trace<Submission>, key: Key, lag: int) {
    trace.Then? ==> Lags(trace.past, key, lag) && (Concerns(trace.last, key) ==> AllBy(trace.past, key, trace.last.now + lag))
  }

  /** Whether a submission takes a slot of the key: a user slot as soon as the
      user window grants it, even if the token window then refuses. */
  predicate Takes(w: map<Key, seq<int>>, s: Submission, key: Key) {
    var first := Take(w, User(s.user), USER_RATE, s.now);
    s.user > 0 && first.ok && (key == User(s.user) || (s.token > 0 && key == Token(s.token) && Take(first.windows, key, TOKEN_RATE, s.now).ok))
  }

  /** Slots taken for a key over a whole trace. */
  function Slots(trace: Trace<Submission>, key: Key): (times: seq<int>) {
    if trace.Start? then []
    else Slots(trace.past, key) + (if Takes(Windows(trace.past), trace.last, key) then [trace.last.now] else [])
  }

  lemma TakeFrame<K>(windows: map<K, seq<int>>, key: K, limit: Limit, now: int, other: K)
    requires other != key
    ensures Get(Take(windows, key, limit, now).windows, other) == Get(windows, other)
  {
  }

  function RateOf(key: Key): Limit {
    if key.User? then USER_RATE else TOKEN_RATE
  }

  lemma {:induction false} SlotsBy(trace: Trace<Submission>, key: Key, high: int)
    requires AllBy(trace, key, high)
    ensures forall i :: 0 <= i < |Slots(trace, key)| ==> Slots(trace, key)[i] <= high
    decreases trace
  {
    if trace.Start? {
    } else {
      SlotsBy(trace.past, key, high);
    }
  }

  /** One submission, seen from one key. */
  lemma GuardStep(w: map<Key, seq<int>>, s: Submission, key: Key, slots: seq<int>, lag: int, high: int)
    requires Tracks(Get(w, key), slots, WINDOW, lag, high)
    requires Concerns(s, key) ==> s.now <= high && forall i :: 0 <= i < |slots| ==> slots[i] <= s.now + lag
    ensures Tracks(Get(Guarded(w, s.user, s.token, s.now).windows, key),
                   if Takes(w, s, key) then slots + [s.now] else slots, WINDOW, lag, high)
  {
    if s.user > 0 {
      var first := Take(w, User(s.user), USER_RATE, s.now).windows;
      if key == User(s.user) {
        TakeTracks(w, key, slots, USER_RATE, lag, s.now, high);
        TakeFrame(first, Token(s.token), TOKEN_RATE, s.now, key);
      } else {
        TakeFrame(w, User(s.user), USER_RATE, s.now, key);
        if s.token > 0 && key == Token(s.token) {
          TakeTracks(first, key, slots, TOKEN_RATE, lag, s.now, high);
        } else if s.token > 0 {
          TakeFrame(first, Token(s.token), TOKEN_RATE, s.now, key);
        }
      }
    }
  }

  lemma {:induction false} GuardTracks(trace: Trace<Submission>, key: Key, lag: int, high: int)
    requires Lags(trace, key, lag) && AllBy(trace, key, high)
    ensures Tracks(Get(Windows(trace), key), Slots(trace, key), WINDOW, lag, high)
    decreases trace
  {
    if trace.Start? {
    } else {
      var Then(past, s) := trace;
      GuardTracks(past, key, lag, high);
      if Concerns(s, key) {
        SlotsBy(past, key, s.now + lag);
      }
      GuardStep(Windows(past), s, key, Slots(past, key), lag, high);
      assert Slots(past, key) + [] == Slots(past, key);
    }
  }

  function Widened(limit: Limit, lag: nat): Limit { Limit(limit.max, limit.duration + lag) }

  function Narrowed(limit: Limit, lag: nat): Limit { Limit(limit.max, limit.duration - lag) }

  lemma UserSlotBetween(w: map<Key, seq<int>>, s: Submission, slots: seq<int>, lag: nat)
    requires s.user > 0 && Tracks(Get(w, User(s.user)), slots, WINDOW, lag, s.now + lag)
    ensures Admissible(slots, Widened(USER_RATE, lag), s.now) ==> Takes(w, s, User(s.user))
    ensures Takes(w, s, User(s.user)) ==> Admissible(slots, Narrowed(USER_RATE, lag), s.now)
  {
    TakeBetween(w, User(s.user), slots, USER_RATE, lag, s.now);
  }

  lemma TokenSlotBetween(w: map<Key, seq<int>>, s: Submission, slots: seq<int>, lag: nat)
    requires Takes(w, s, User(s.user)) && s.token > 0 && Tracks(Get(w, Token(s.token)), slots, WINDOW, lag, s.now + lag)
    ensures Admissible(slots, Widened(TOKEN_RATE, lag), s.now) ==> Takes(w, s, Token(s.token))
    ensures Takes(w, s, Token(s.token)) ==> Admissible(slots, Narrowed(TOKEN_RATE, lag), s.now)
  {
    TakeFrame(w, User(s.user), USER_RATE, s.now, Token(s.token));
    TakeBetween(Take(w, User(s.user), USER_RATE, s.now).windows, Token(s.token), slots, TOKEN_RATE, lag, s.now);
  }

  /** A slot of a key is granted between the two sliding-window rules, for a user
      and, once the user slot is granted, for a token. */
  lemma SlotBetween(past: Trace<Submission>, s: Submission, key: Key, lag: nat)
    requires s.user > 0 && Concerns(s, key) && Lags(Then(past, s), key, lag)
    requires key.Token? ==> Takes(Windows(past), s, User(s.user))
    ensures Admissible(Slots(past, key), Widened(RateOf(key), lag), s.now) ==> Takes(Windows(past), s, key)
    ensures Takes(Windows(past), s, key) ==> Admissible(Slots(past, key), Narrowed(RateOf(key), lag), s.now)
  {
    GuardTracks(past, key, lag, s.now + lag);
    if key.User? {
      UserSlotBetween(Windows(past), s, Slots(past, key), lag);
    } else {
      TokenSlotBetween(Windows(past), s, Slots(past, key), lag);
    }
  }

  /** Fewer than 12 slots of a user, or 8 of a token, were taken in the last minute. */
  predicate HasRoom(past: Trace<Submission>, key: Key, now: int) {
    Young(Slots(past, key), now, 60_000_000_000) < if key.User? then 12 else 8
  }

  /** The guard's answer, exactly, when the times of that user and of that token
      are in order: a known user with room in the user window and, if a token is
      given, room in the token window. */
  lemma GuardDecides(past: Trace<Submission>, s: Submission)
    requires Lags(Then(past, s), User(s.user), 0) && (s.token > 0 ==> Lags(Then(past, s), Token(s.token), 0))
    ensures Admits(past, s) <==>
      s.user > 0 && HasRoom(past, User(s.user), s.now) && (s.token > 0 ==> HasRoom(past, Token(s.token), s.now))
  {
    if s.user > 0 {
      SlotBetween(past, s, User(s.user), 0);
      if s.token > 0 && Takes(Windows(past), s, User(s.user)) {
        SlotBetween(past, s, Token(s.token), 0);
      }
    }
  }

  /** Which slots a submission takes, exactly: a user slot if the user window has
      room, whether or not the token is then refused; a token slot only after that,
      if the token window has room; none of anybody else. */
  lemma SlotsTaken(past: Trace<Submission>, s: Submission, key: Key)
    requires Lags(Then(past, s), User(s.user), 0) && (s.token > 0 ==> Lags(Then(past, s), Token(s.token), 0))
    ensures var user := s.user > 0 && HasRoom(past, User(s.user), s.now);
      var token := user && s.token > 0 && HasRoom(past, Token(s.token), s.now);
      Slots(Then(past, s), key) == Slots(past, key) + if (key == User(s.user) && user) || (key == Token(s.token) && token) then [s.now] else []
  {
    if s.user > 0 {
      SlotBetween(past, s, User(s.user), 0);
      if s.token > 0 && Takes(Windows(past), s, User(s.user)) {
        SlotBetween(past, s, Token(s.token), 0);
      }
    }
  }

  // ---- How many are admitted ---------------------------------------------------------

  /** Times of the admitted submissions of a user, or made with a token. */
  function Admitted(trace: Trace<Submission>, key: Key): (times: seq<int>) {
    if trace.Start? then []
    else Admitted(trace.past, key) + (if Admits(trace.past, trace.last) && Concerns(trace.last, key) then [trace.last.now] else [])
  }

  /** How many times lie in the span of the given length that ends at `end`. */
  function Within(times: seq<int>, length: int, end: int): (n: nat) {
    if times == [] then 0
    else
      var last := times[|times| - 1];
      Within(times[..|times| - 1], length, end) + (if end - length < last <= end then 1 else 0)
  }

  lemma WithinSnoc(times: seq<int>, last: int, length: int, end: int)
    ensures Within(times + [last], length, end) == Within(times, length, end) + (if end - length < last <= end then 1 else 0)
  {
    assert (times + [last])[..|times|] == times;
  }

  /** Seen from any moment of a span, what lies in it is young. */
  lemma {:induction false} WithinIsYoung(times: seq<int>, length: int, end: int, now: int)
    requires now <= end
    ensures Within(times, length, end) <= Young(times, now, length)
  {
    if times == [] {
    } else {
      WithinIsYoung(times[..|times| - 1], length, end, now);
    }
  }

  lemma {:induction false} SlotsBounded(trace: Trace<Submission>, key: Key, lag: nat, end: int)
    requires Lags(trace, key, lag)
    ensures Within(Slots(trace, key), WINDOW - lag, end) <= RateOf(key).max
    decreases trace
  {
    if trace.Start? {
    } else {
      var Then(past, s) := trace;
      SlotsBounded(past, key, lag, end);
      WithinSnoc(Slots(past, key), s.now, WINDOW - lag, end);
      if Takes(Windows(past), s, key) && s.now <= end {
        SlotBetween(past, s, key, lag);
        WithinIsYoung(Slots(past, key), WINDOW - lag, end, s.now);
      }
      assert Slots(past, key) + [] == Slots(past, key);
    }
  }

  lemma {:induction false} AdmittedTookSlots(trace: Trace<Submission>, key: Key, length: int, end: int)
    ensures Within(Admitted(trace, key), length, end) <= Within(Slots(trace, key), length, end)
    decreases trace
  {
    if trace.Start? {
    } else {
      var Then(past, s) := trace;
      AdmittedTookSlots(past, key, length, end);
      WithinSnoc(Admitted(past, key), s.now, length, end);
      WithinSnoc(Slots(past, key), s.now, length, end);
      assert Admitted(past, key) + [] == Admitted(past, key) && Slots(past, key) + [] == Slots(past, key);
      assert Admits(past, s) && Concerns(s, key) ==> Takes(Windows(past), s, key);
    }
  }

  /** Whatever the mix of users and tokens, in every minute less the lag at most
      12 submissions of a user and at most 8 of a token are admitted. */
  lemma GuardBound(trace: Trace<Submission>, key: Key, lag: nat, end: int)
    requires Lags(trace, key, lag)
    ensures Within(Admitted(trace, key), 60_000_000_000 - lag, end) <= (if key.User? then 12 else 8)
  {
    AdmittedTookSlots(trace, key, WINDOW - lag, end);
    SlotsBounded(trace, key, lag, end);
  }

  // ---- The bound is exact ---------------------------------------------------------------

  /** A submission for the key: of that user without a token, or of user 1. */
  function For(key: Key, now: int): (s: Submission)
    ensures Concerns(s, key) || key.id <= 0
  {
    if key.User? then Submission(key.id, 0, now) else Submission(1, key.id, now)
  }

  /** n submissions at time zero. */
  function Burst(key: Key, n: nat): (trace: Trace<Submission>) {
    if n == 0 then Start else Then(Burst(key, n - 1), For(key, 0))
  }

  /** The user whose window a submission for the key goes through. */
  function Payer(key: Key): Key { User(For(key, 0).user) }

  /** The windows of the key and of its user hold the same times. */
  predicate Filled(trace: Trace<Submission>, key: Key, times: seq<int>) {
    Get(Windows(trace), key) == times && Get(Windows(trace), Payer(key)) == times
  }

  lemma AdmitsOne(past: Trace<Submission>, key: Key, entries: seq<int>, now: int)
    requires key.id > 0 && Filled(past, key, entries) && |Pruned(entries, now, WINDOW)| < RateOf(key).max
    ensures Admits(past, For(key, now))
    ensures Filled(Then(past, For(key, now)), key, Pruned(entries, now, WINDOW) + [now])
    ensures Admitted(Then(past, For(key, now)), key) == Admitted(past, key) + [now]
  {
  }

  lemma {:induction false} BurstFills(key: Key, n: nat)
    requires key.id > 0 && n <= RateOf(key).max
    ensures Filled(Burst(key, n), key, RateLimit.Zeros(n)) && Admitted(Burst(key, n), key) == RateLimit.Zeros(n)
    ensures Lags(Burst(key, n), key, 0) && AllBy(Burst(key, n), key, 0)
  {
    if n == 0 {
    } else {
      BurstFills(key, n - 1);
      AdmitsOne(Burst(key, n - 1), key, RateLimit.Zeros(n - 1), 0);
    }
  }

  lemma {:induction false} AllPruned(times: seq<int>, now: int, duration: int)
    requires forall i :: 0 <= i < |times| ==> times[i] <= now - duration
    ensures Pruned(times, now, duration) == []
    decreases |times|
  {
    if times == [] {
    } else {
      AllPruned(times[1..], now, duration);
    }
  }

  lemma {:induction false} LagsMore(trace: Trace<Submission>, key: Key, lag: int, more: int)
    requires Lags(trace, key, lag) && lag <= more
    ensures Lags(trace, key, more)
    decreases trace
  {
    if trace.Start? {
    } else {
      LagsMore(trace.past, key, lag, more);
      if Concerns(trace.last, key) {
        AllByLater(trace.past, key, trace.last.now + lag, trace.last.now + more);
      }
    }
  }

  lemma {:induction false} AllByLater(trace: Trace<Submission>, key: Key, high: int, higher: int)
    requires AllBy(trace, key, high) && high <= higher
    ensures AllBy(trace, key, higher)
    decreases trace
  {
    if trace.Start? {
    } else {
      AllByLater(trace.past, key, high, higher);
    }
  }

  lemma {:induction false} ZerosWithin(n: nat, length: int, end: int)
    requires end - length < 0 <= end
    ensures Within(RateLimit.Zeros(n), length, end) == n
  {
    if n == 0 {
    } else {
      ZerosWithin(n - 1, length, end);
      WithinSnoc(RateLimit.Zeros(n - 1), 0, length, end);
    }
  }

  /** A full burst, then a submission one window later, which empties the window,
      and then one whose clock was read `lag` before that. */
  function Overtaken(key: Key, lag: nat): (trace: Trace<Submission>) {
    Then(Then(Burst(key, RateOf(key).max), For(key, WINDOW)), For(key, WINDOW - lag))
  }

  lemma AdmitsOvertaken(past: Trace<Submission>, key: Key, entries: seq<int>, lag: nat)
    requires key.id > 0 && Filled(past, key, entries) && forall i :: 0 <= i < |entries| ==> entries[i] <= 0
    ensures Admitted(Then(Then(past, For(key, WINDOW)), For(key, WINDOW - lag)), key) == Admitted(past, key) + [WINDOW] + [WINDOW - lag]
  {
    AllPruned(entries, WINDOW, WINDOW);
    AdmitsOne(past, key, entries, WINDOW);
    assert [] + [WINDOW] == [WINDOW];
    AdmitsOne(Then(past, For(key, WINDOW)), key, [WINDOW], WINDOW - lag);
  }

  lemma OvertakenAdmitted(key: Key, lag: nat)
    requires key.id > 0
    ensures Admitted(Overtaken(key, lag), key) == RateLimit.Zeros(RateOf(key).max) + [WINDOW] + [WINDOW - lag]
  {
    BurstFills(key, RateOf(key).max);
    AdmitsOvertaken(Burst(key, RateOf(key).max), key, RateLimit.Zeros(RateOf(key).max), lag);
  }

  lemma OvertakenLags(key: Key, lag: nat)
    requires key.id > 0 && lag <= WINDOW
    ensures Lags(Overtaken(key, lag), key, lag)
  {
    var burst := Burst(key, RateOf(key).max);
    BurstFills(key, RateOf(key).max);
    LagsMore(burst, key, 0, lag);
    AllByLater(burst, key, 0, WINDOW);
    AllByLater(burst, key, 0, WINDOW + lag);
  }

  /** All of them are admitted, more than the rate within the given length. */
  lemma LateSubmissionOverruns(key: Key, lag: nat, length: int)
    requires key.id > 0 && lag <= WINDOW && length > WINDOW - lag
    ensures Lags(Overtaken(key, lag), key, lag)
    ensures Within(Admitted(Overtaken(key, lag), key), length, WINDOW - lag) > RateOf(key).max
  {
    var max, end := RateOf(key).max, WINDOW - lag;
    OvertakenLags(key, lag);
    OvertakenAdmitted(key, lag);
    WithinSnoc(RateLimit.Zeros(max), WINDOW, length, end);
    WithinSnoc(RateLimit.Zeros(max) + [WINDOW], end, length, end);
    ZerosWithin(max, length, end);
  }

  ghost predicate Bounded(key: Key, lag: nat, length: int) {
    forall trace: Trace<Submission>, end: int ::
      Lags(trace, key, lag) ==> Within(Admitted(trace, key), length, end) <= (if key.User? then 12 else 8)
  }

  lemma {:induction false} ShorterHoldsLess(times: seq<int>, length: int, longer: int, end: int)
    requires length <= longer
    ensures Within(times, length, end) <= Within(times, longer, end)
    ensures length <= 0 ==> Within(times, length, end) == 0
  {
    if times == [] {
    } else {
      ShorterHoldsLess(times[..|times| - 1], length, longer, end);
    }
  }

  /** Spans of a given length hold at most the rate of a key, on all traces whose
      clock steps back by at most the lag, if and only if the length and the lag
      together are at most the window. A full minute needs times in order. */
  lemma GuardBoundIff(key: Key, lag: nat, length: int)
    requires key.id > 0
    ensures Bounded(key, lag, length) <==> length <= 0 || length + lag <= 60_000_000_000
  {
    if length <= 0 || length + lag <= WINDOW {
      forall trace: Trace<Submission>, end: int | Lags(trace, key, lag)
        ensures Within(Admitted(trace, key), length, end) <= RateOf(key).max
      {
        GuardBound(trace, key, lag, end);
        ShorterHoldsLess(Admitted(trace, key), length, if length <= 0 then 0 else WINDOW - lag, end);
      }
    } else {
      var step := if lag <= WINDOW then lag else WINDOW;
      LateSubmissionOverruns(key, step, length);
      LagsMore(Overtaken(key, step), key, step, lag);
    }
  }
}
