/** The rule both rate limiters are meant to implement, stated on the complete
    history of accepted events: admit while fewer than `max` of them are younger
    than `duration`. */
module SlidingWindow {

  datatype Limit = Limit(max: int, duration: int)

  /** How many of the recorded times are younger than `duration` at `now`. */
  function Young(times: seq<int>, now: int, duration: int): (n: nat)
    ensures n <= |times|
  {
    if times == [] then 0
    else Young(times[..|times| - 1], now, duration) + (if now - times[|times| - 1] < duration then 1 else 0)
  }

  predicate Admissible(accepted: seq<int>, limit: Limit, now: int) {
    Young(accepted, now, limit.duration) < limit.max
  }

  /** Times never go back and none lies after `now`. */
  predicate Ordered(times: seq<int>, now: int) {
    && (forall i, j :: 0 <= i < j < |times| ==> times[i] <= times[j])
    && (forall i :: 0 <= i < |times| ==> times[i] <= now)
  }

  lemma {:induction false} YoungConcat(a: seq<int>, b: seq<int>, now: int, d: int)
    ensures Young(a + b, now, d) == Young(a, now, d) + Young(b, now, d)
  {
    if b == [] {
      assert a + b == a;
    } else {
      var b' := b[..|b| - 1];
      assert (a + b)[..|a + b| - 1] == a + b';
      YoungConcat(a, b', now, d);
    }
  }

  lemma {:induction false} NoneYoung(times: seq<int>, now: int, d: int)
    requires forall i :: 0 <= i < |times| ==> now - times[i] >= d
    ensures Young(times, now, d) == 0
  {
    if times == [] {
    } else {
      NoneYoung(times[..|times| - 1], now, d);
    }
  }

  lemma {:induction false} AllYoung(times: seq<int>, now: int, d: int)
    requires forall i :: 0 <= i < |times| ==> now - times[i] < d
    ensures Young(times, now, d) == |times|
  {
    if times == [] {
    } else {
      AllYoung(times[..|times| - 1], now, d);
    }
  }

  /** `kept` is the end of `accepted`. */
  predicate Suffix(kept: seq<int>, accepted: seq<int>) {
    |kept| <= |accepted| && forall i :: 0 <= i < |kept| ==> kept[i] == accepted[|accepted| - |kept| + i]
  }

  /** Everything in the history before its last `n` events is out of the window. */
  predicate Stale(accepted: seq<int>, n: nat, now: int, duration: int) {
    forall i :: 0 <= i < |accepted| - n ==> now - accepted[i] >= duration
  }

  lemma YoungSplit(accepted: seq<int>, n: nat, now: int, d: int)
    requires n <= |accepted|
    ensures Young(accepted, now, d) == Young(accepted[..n], now, d) + Young(accepted[n..], now, d)
  {
    assert accepted == accepted[..n] + accepted[n..];
    YoungConcat(accepted[..n], accepted[n..], now, d);
  }

  /** At most the last n events are young when those before them are stale... */
  lemma YoungAtMost(accepted: seq<int>, n: nat, now: int, d: int)
    requires n <= |accepted| && Stale(accepted, n, now, d)
    ensures Young(accepted, now, d) <= n
  {
    var cut := |accepted| - n;
    YoungSplit(accepted, cut, now, d);
    NoneYoung(accepted[..cut], now, d);
  }

  /** ...and at least n are young when the n-th last one is. */
  lemma YoungAtLeast(accepted: seq<int>, n: nat, now: int, d: int)
    requires 1 <= n <= |accepted| && Ordered(accepted, now) && now - accepted[|accepted| - n] < d
    ensures Young(accepted, now, d) >= n
  {
    var cut := |accepted| - n;
    YoungSplit(accepted, cut, now, d);
    forall i | 0 <= i < n ensures now - accepted[cut..][i] < d {
      assert accepted[cut..][i] == accepted[cut + i];
    }
    AllYoung(accepted[cut..], now, d);
  }

  /** A suffix of an ordered history decides for the whole of it, in the two
      ways the limiters use: everything dropped is out of the window, or the
      suffix already holds `max` events. */
  lemma SuffixDecides(accepted: seq<int>, kept: seq<int>, limit: Limit, now: int)
    requires Ordered(accepted, now) && Suffix(kept, accepted) && limit.max >= 1 && |kept| <= limit.max
    requires |kept| == limit.max || Stale(accepted, |kept|, now, limit.duration)
    ensures Admissible(accepted, limit, now) <==> |kept| < limit.max || now - kept[0] >= limit.duration
  {
    if |kept| < limit.max {
      YoungAtMost(accepted, |kept|, now, limit.duration);
    } else {
      assert kept[0] == accepted[|accepted| - |kept|];
      if now - kept[0] >= limit.duration {
        YoungAtMost(accepted, |kept| - 1, now, limit.duration);
      } else {
        YoungAtLeast(accepted, |kept|, now, limit.duration);
      }
    }
  }

  /** `max` consecutive accepted events always span a full window. */
  ghost predicate Spaced(accepted: seq<int>, limit: Limit) {
    forall i, j :: 0 <= i < j < |accepted| && j - i == limit.max ==> accepted[j] - accepted[i] >= limit.duration
  }

  lemma AdmissibleKeepsSpacing(accepted: seq<int>, limit: Limit, now: int)
    requires Ordered(accepted, now) && Spaced(accepted, limit) && limit.max >= 1
    requires Admissible(accepted, limit, now)
    ensures Spaced(accepted + [now], limit)
  {
    var grown := accepted + [now];
    forall i, j | 0 <= i < j < |grown| && j - i == limit.max ensures grown[j] - grown[i] >= limit.duration {
      if j == |accepted| && now - accepted[i] < limit.duration {
        YoungAtLeast(accepted, limit.max, now, limit.duration);
        assert false;
      }
    }
  }

  /** What has been accepted under each key. */
  function Get<K>(m: map<K, seq<int>>, key: K): (times: seq<int>)
  {
    if key in m then m[key] else []
  }

  /** A finite trace, oldest event first. */
  datatype Trace<+E> = Start | Then(past: Trace<E>, last: E)
}
