/** One-time verification codes (common/verification.go): one map from purpose
    and key, run together, to a code and its time; expired entries are swept when
    the map has grown past its limit. Times are in nanoseconds. */
module Verification {
  import opened Common

  const SECOND: int := 1_000_000_000

  datatype Entry = Entry(code: string, time: int)

  type Codes = map<string, Entry>

  // ---- The two expiry tests ----------------------------------------------------

  /** int(d.Seconds()): whole seconds, truncated toward zero. */
  function TruncatedSeconds(d: int): int {
    if d >= 0 then d / SECOND else -((-d) / SECOND)
  }

  predicate ExpiredTruncated(e: Entry, now: int, minutes: int) {
    TruncatedSeconds(now - e.time) >= minutes * 60
  }

  predicate ExpiredExact(e: Entry, now: int, minutes: int) {
    now - e.time >= minutes * 60 * SECOND
  }

  /** The tests agree whenever the clock has not gone back, and for a positive
      validity always. */
  lemma ExpiryTestsAgree(e: Entry, now: int, minutes: int)
    requires now >= e.time || minutes >= 1
    ensures ExpiredTruncated(e, now, minutes) <==> ExpiredExact(e, now, minutes)
  {
    var d := now - e.time;
    if d >= 0 {
      DivideAtLeast(d, minutes * 60);
    } else {
      assert (-d) / SECOND >= 0;
    }
  }

  lemma DivideAtLeast(d: int, limit: int)
    requires d >= 0
    ensures d / SECOND >= limit <==> d >= limit * SECOND
  {
    assert SECOND == 1_000_000_000;
  }

  // ---- The operations ------------------------------------------------------------

  function Swept(codes: Codes, now: int, minutes: int): (r: Codes) {
    map k | k in codes && !ExpiredTruncated(codes[k], now, minutes) :: codes[k]
  }

  class VerificationCodes {
    const minutes: int
    const maxSize: int
    var codes: Codes

    constructor (minutes: int, maxSize: int)
      ensures this.minutes == minutes && this.maxSize == maxSize && codes == map[]
    {
      this.minutes, this.maxSize := minutes, maxSize;
      codes := map[];
    }

    method RemoveExpiredPairs(now: int)
      modifies this
      ensures codes == Swept(old(codes), now, minutes)
    {
      var pending := codes.Keys;
      while pending != {}
        invariant pending <= codes.Keys <= old(codes).Keys
        invariant forall k :: k in codes ==> codes[k] == old(codes)[k]
        invariant forall k :: k in old(codes) && k !in pending ==> (k in codes <==> !ExpiredTruncated(old(codes)[k], now, minutes))
        decreases pending
      {
        var k :| k in pending;
        if ExpiredTruncated(codes[k], now, minutes) {
          codes := codes - {k};
        }
        pending := pending - {k};
      }
    }

    /** The sweep reads the clock again. */
    method Register(purpose: string, key: string, code: string, now: int, sweepTime: int)
      modifies this
      ensures codes == Registered(old(codes), purpose + key, code, now, sweepTime, minutes, maxSize)
    {
      codes := codes[purpose + key := Entry(code, now)];
      if |codes| > maxSize {
        RemoveExpiredPairs(sweepTime);
      }
    }

    method Verify(purpose: string, key: string, code: string, now: int) returns (ok: bool)
      ensures ok == Verified(codes, purpose + key, code, now, minutes)
    {
      if purpose + key !in codes || ExpiredTruncated(codes[purpose + key], now, minutes) {
        return false;
      }
      return code == codes[purpose + key].code;
    }

    method Consume(purpose: string, key: string, code: string, now: int) returns (ok: bool)
      modifies this
      ensures ok == Consumable(old(codes), purpose + key, code, now, minutes)
      ensures codes == if ok then old(codes) - {purpose + key} else old(codes)
    {
      var k := purpose + key;
      if k !in codes || ExpiredExact(codes[k], now, minutes) || code != codes[k].code {
        return false;
      }
      codes := codes - {k};
      return true;
    }

    method DeleteKey(purpose: string, key: string)
      modifies this
      ensures codes == old(codes) - {purpose + key}
    {
      codes := codes - {purpose + key};
    }
  }

  function Registered(codes: Codes, k: string, code: string, now: int, sweepTime: int, minutes: int, maxSize: int): (r: Codes) {
    var grown := codes[k := Entry(code, now)];
    if |grown| > maxSize then Swept(grown, sweepTime, minutes) else grown
  }

  /** Registering stores the code under its joined key and keeps every other entry
      but, when the map has grown past its limit, the expired ones. */
  lemma RegisteredEntries(codes: Codes, k: string, code: string, now: int, sweepTime: int, minutes: int, maxSize: int, other: string)
    requires now <= sweepTime
    ensures var r := Registered(codes, k, code, now, sweepTime, minutes, maxSize);
      var grown := codes[k := Entry(code, now)];
      && (other in r ==> other in grown && r[other] == grown[other])
      && (other in grown ==> (other !in r <==> |grown| > maxSize && sweepTime - grown[other].time >= minutes * 60 * 1_000_000_000))
    requires NotLaterThan(codes, now)
  {
    var grown := codes[k := Entry(code, now)];
    if other in grown {
      ExpiryTestsAgree(grown[other], sweepTime, minutes);
    }
  }

  predicate Verified(codes: Codes, k: string, code: string, now: int, minutes: int) {
    k in codes && !ExpiredTruncated(codes[k], now, minutes) && codes[k].code == code
  }

  predicate Consumable(codes: Codes, k: string, code: string, now: int, minutes: int) {
    k in codes && !ExpiredExact(codes[k], now, minutes) && codes[k].code == code
  }

  // ---- Traces ------------------------------------------------------------------------

  datatype Slot = Slot(purpose: string, key: string)

  datatype Event =
    | Register(slot: Slot, code: string, now: int, sweepTime: int)
    | Verify(slot: Slot, code: string, now: int)
    | Consume(slot: Slot, code: string, now: int)
    | Delete(slot: Slot, now: int)

  /** The last reading of the clock by an event. */
  function Until(e: Event): int { if e.Register? then e.sweepTime else e.now }

  /** The clock never goes back. */
  predicate Clock(trace: seq<Event>) {
    && (forall i :: 0 <= i < |trace| ==> trace[i].now <= Until(trace[i]))
    && (forall i, j :: 0 <= i < j < |trace| ==> Until(trace[i]) <= trace[j].now)
  }

  datatype Config = Config(minutes: int, maxSize: int)

  /** One answer per event; only Verify and Consume can answer true. */
  datatype Run<M> = Run(codes: M, answers: seq<bool>)

  function Joined(slot: Slot): string { slot.purpose + slot.key }

  /** One event: the map after it, and its answer. */
  function ActualStep(cfg: Config, codes: Codes, e: Event): (r: (Codes, bool)) {
    var k := Joined(e.slot);
    match e
    case Register(_, code, now, sweepTime) => (Registered(codes, k, code, now, sweepTime, cfg.minutes, cfg.maxSize), false)
    case Verify(_, code, now) => (codes, Verified(codes, k, code, now, cfg.minutes))
    case Consume(_, code, now) =>
      var ok := Consumable(codes, k, code, now, cfg.minutes);
      (if ok then codes - {k} else codes, ok)
    case Delete(_, _) => (codes - {k}, false)
  }

  function Actual(cfg: Config, trace: seq<Event>): (r: Run<Codes>)
    ensures |r.answers| == |trace|
  {
    if trace == [] then Run(map[], [])
    else
      var before := Actual(cfg, trace[..|trace| - 1]);
      var (codes, ok) := ActualStep(cfg, before.codes, trace[|trace| - 1]);
      Run(codes, before.answers + [ok])
  }

  /** A registration remembered with its place in the trace. */
  datatype Mark = Mark(entry: Entry, at: nat)

  predicate Valid(marks: map<Slot, Mark>, slot: Slot, code: string, now: int, minutes: int) {
    slot in marks && !ExpiredExact(marks[slot].entry, now, minutes) && marks[slot].entry.code == code
  }

  function IntendedStep(minutes: int, marks: map<Slot, Mark>, e: Event, at: nat): (r: (map<Slot, Mark>, bool)) {
    match e
    case Register(slot, code, now, _) => (marks[slot := Mark(Entry(code, now), at)], false)
    case Verify(slot, code, now) => (marks, Valid(marks, slot, code, now, minutes))
    case Consume(slot, code, now) =>
      var ok := Valid(marks, slot, code, now, minutes);
      (if ok then marks - {slot} else marks, ok)
    case Delete(slot, _) => (marks - {slot}, false)
  }

  /** The intended behaviour: one entry per purpose and key, never swept. */
  function Intended(minutes: int, trace: seq<Event>): (r: Run<map<Slot, Mark>>)
    ensures |r.answers| == |trace|
  {
    if trace == [] then Run(map[], [])
    else
      var before := Intended(minutes, trace[..|trace| - 1]);
      var (marks, ok) := IntendedStep(minutes, before.codes, trace[|trace| - 1], |trace| - 1);
      Run(marks, before.answers + [ok])
  }

  // ---- The map keeps the slots apart -----------------------------------------------------

  /** No purpose is a proper prefix of another, as with "v" and "r". */
  predicate PrefixFree(purposes: set<string>) {
    forall p, q :: p in purposes && q in purposes && p <= q ==> p == q
  }

  lemma JoinedIsInjective(purposes: set<string>, a: Slot, b: Slot)
    requires PrefixFree(purposes) && a.purpose in purposes && b.purpose in purposes
    requires a.purpose + a.key == b.purpose + b.key
    ensures a == b
  {
    var s := a.purpose + a.key;
    assert a.purpose == s[..|a.purpose|] && b.purpose == s[..|b.purpose|];
    assert a.purpose <= b.purpose || b.purpose <= a.purpose;
    assert a.key == s[|a.purpose|..] && b.key == s[|b.purpose|..];
  }

  predicate Uses(purposes: set<string>, trace: seq<Event>) {
    forall e :: e in trace ==> e.slot.purpose in purposes
  }

  /** What the map can still answer for, at a moment. */
  function Live(codes: Codes, k: string, now: int, minutes: int): Option<Entry> {
    if k in codes && !ExpiredExact(codes[k], now, minutes) then Some(codes[k]) else None
  }

  function Meant(marks: map<Slot, Mark>, slot: Slot, now: int, minutes: int): Option<Entry> {
    if slot in marks && !ExpiredExact(marks[slot].entry, now, minutes) then Some(marks[slot].entry) else None
  }

  predicate NotLaterThan(codes: Codes, now: int) {
    forall k :: k in codes ==> codes[k].time <= now
  }

  lemma SweepKeepsLive(codes: Codes, now: int, minutes: int, k: string, later: int)
    requires NotLaterThan(codes, now) && now <= later
    ensures Live(Swept(codes, now, minutes), k, later, minutes) == Live(codes, k, later, minutes)
    ensures NotLaterThan(Swept(codes, now, minutes), now)
  {
    if k in codes {
      ExpiryTestsAgree(codes[k], now, minutes);
    }
  }

  lemma {:induction false} TimesPast(cfg: Config, trace: seq<Event>, now: int)
    requires Clock(trace) && (trace != [] ==> Until(trace[|trace| - 1]) <= now)
    ensures NotLaterThan(Actual(cfg, trace).codes, now)
    decreases |trace|
  {
    if trace == [] {
    } else {
      TimesPast(cfg, trace[..|trace| - 1], trace[|trace| - 1].now);
      assert trace[|trace| - 1].now <= Until(trace[|trace| - 1]);
    }
  }

  lemma StepKeepsLive(cfg: Config, codes: Codes, marks: map<Slot, Mark>, e: Event, at: nat, slot: Slot, now: int)
    requires NotLaterThan(codes, e.now) && e.now <= Until(e) <= now
    requires Joined(slot) == Joined(e.slot) ==> slot == e.slot
    requires Live(codes, Joined(slot), now, cfg.minutes) == Meant(marks, slot, now, cfg.minutes)
    requires Live(codes, Joined(e.slot), e.now, cfg.minutes) == Meant(marks, e.slot, e.now, cfg.minutes)
    ensures Live(ActualStep(cfg, codes, e).0, Joined(slot), now, cfg.minutes) == Meant(IntendedStep(cfg.minutes, marks, e, at).0, slot, now, cfg.minutes)
  {
    if e.Register? {
      SweepKeepsLive(codes[Joined(e.slot) := Entry(e.code, e.now)], e.sweepTime, cfg.minutes, Joined(slot), now);
    }
  }

  /** At any later moment the swept, joined map knows of a slot exactly what the
      intended map knows. */
  lemma {:induction false} SameLive(cfg: Config, purposes: set<string>, trace: seq<Event>, slot: Slot, now: int)
    requires Clock(trace) && (trace != [] ==> Until(trace[|trace| - 1]) <= now)
    requires PrefixFree(purposes) && Uses(purposes, trace) && slot.purpose in purposes
    ensures Live(Actual(cfg, trace).codes, Joined(slot), now, cfg.minutes) == Meant(Intended(cfg.minutes, trace).codes, slot, now, cfg.minutes)
    decreases |trace|
  {
    if trace == [] {
    } else {
      var past, e := trace[..|trace| - 1], trace[|trace| - 1];
      assert e in trace && forall x :: x in past ==> x in trace;
      SameLive(cfg, purposes, past, slot, now);
      SameLive(cfg, purposes, past, e.slot, e.now);
      TimesPast(cfg, past, e.now);
      if Joined(slot) == Joined(e.slot) {
        JoinedIsInjective(purposes, slot, e.slot);
      }
      StepKeepsLive(cfg, Actual(cfg, past).codes, Intended(cfg.minutes, past).codes, e, |past|, slot, now);
    }
  }

  /** On every trace with a steady clock and prefix-free purposes every answer is
      the intended one: sweeping, joining keys and the two expiry tests are
      invisible. */
  lemma {:induction false} AnswersIntended(cfg: Config, purposes: set<string>, trace: seq<Event>)
    requires Clock(trace) && PrefixFree(purposes) && Uses(purposes, trace)
    ensures Actual(cfg, trace).answers == Intended(cfg.minutes, trace).answers
    decreases |trace|
  {
    if trace == [] {
    } else {
      var past, e := trace[..|trace| - 1], trace[|trace| - 1];
      assert e in trace && forall x :: x in past ==> x in trace;
      AnswersIntended(cfg, purposes, past);
      SameLive(cfg, purposes, past, e.slot, e.now);
      TimesPast(cfg, past, e.now);
      var codes, k := Actual(cfg, past).codes, e.slot.purpose + e.slot.key;
      if k in codes {
        ExpiryTestsAgree(codes[k], e.now, cfg.minutes);
      }
    }
  }

  /** The condition on purposes is needed: a code registered under the longer of
      two nested purposes verifies under the shorter one. */
  lemma NestedPurposesCollide(cfg: Config, short: string, long: string, key: string, code: string) returns (trace: seq<Event>)
    requires short < long && cfg.minutes >= 1
    ensures Clock(trace) && Uses({short, long}, trace)
    ensures Actual(cfg, trace).answers != Intended(cfg.minutes, trace).answers
  {
    var owner := Slot(long, key);
    var other := Slot(short, long[|short|..] + key);
    trace := [Register(owner, code, 0, 0), Verify(other, code, 0)];
    assert short + (long[|short|..] + key) == long + key;
    assert trace[..1] == [trace[0]] && [trace[0]][..0] == [];
    assert owner != other;
    var e := Entry(code, 0);
    assert TruncatedSeconds(0) == 0 && !ExpiredTruncated(e, 0, cfg.minutes);
    assert Actual(cfg, [trace[0]]).codes == map[long + key := e];
    assert other !in Intended(cfg.minutes, [trace[0]]).codes;
    assert Actual(cfg, trace).answers[1] && !Intended(cfg.minutes, trace).answers[1];
  }

  lemma {:induction false} MarksPast(minutes: int, trace: seq<Event>, now: int)
    requires Clock(trace) && (trace != [] ==> Until(trace[|trace| - 1]) <= now)
    ensures forall slot :: slot in Intended(minutes, trace).codes ==> Intended(minutes, trace).codes[slot].entry.time <= now
    decreases |trace|
  {
    if trace == [] {
    } else {
      MarksPast(minutes, trace[..|trace| - 1], trace[|trace| - 1].now);
      assert trace[|trace| - 1].now <= Until(trace[|trace| - 1]);
    }
  }

  /** Codes that expire at once never succeed, whatever the purposes. */
  lemma {:induction false} NothingSucceeds(cfg: Config, trace: seq<Event>)
    requires Clock(trace) && cfg.minutes < 1
    ensures Actual(cfg, trace).answers == Intended(cfg.minutes, trace).answers
    decreases |trace|
  {
    if trace == [] {
    } else {
      var past, e := trace[..|trace| - 1], trace[|trace| - 1];
      NothingSucceeds(cfg, past);
      TimesPast(cfg, past, e.now);
      MarksPast(cfg.minutes, past, e.now);
      var codes, k := Actual(cfg, past).codes, Joined(e.slot);
      if k in codes {
        ExpiryTestsAgree(codes[k], e.now, cfg.minutes);
      }
    }
  }

  ghost predicate AlwaysIntended(cfg: Config, purposes: set<string>) {
    forall trace :: Clock(trace) && Uses(purposes, trace) ==> Actual(cfg, trace).answers == Intended(cfg.minutes, trace).answers
  }

  /** The joined map answers as intended on all traces if and only if no purpose
      begins another, unless codes never live. */
  lemma AlwaysIntendedIff(cfg: Config, purposes: set<string>)
    ensures AlwaysIntended(cfg, purposes) <==> PrefixFree(purposes) || cfg.minutes < 1
  {
    if cfg.minutes < 1 {
      forall trace | Clock(trace) && Uses(purposes, trace) ensures Actual(cfg, trace).answers == Intended(cfg.minutes, trace).answers {
        NothingSucceeds(cfg, trace);
      }
    } else if PrefixFree(purposes) {
      forall trace | Clock(trace) && Uses(purposes, trace) ensures Actual(cfg, trace).answers == Intended(cfg.minutes, trace).answers {
        AnswersIntended(cfg, purposes, trace);
      }
    } else {
      var p, q :| p in purposes && q in purposes && p <= q && p != q;
      var trace := NestedPurposesCollide(cfg, p, q, "", "");
      assert Uses(purposes, trace);
    }
  }

  /** The purposes in use: email verification and password reset. */
  lemma PurposesInUse(cfg: Config)
    ensures AlwaysIntended(cfg, {"v", "r"})
  {
    assert !("v" <= "r") by { assert "v"[0] != "r"[0]; }
    assert !("r" <= "v") by { assert "v"[0] != "r"[0]; }
    AlwaysIntendedIff(cfg, {"v", "r"});
  }

  // ---- Single use ---------------------------------------------------------------------------

  /** The event at index i ends or replaces what was registered for the slot. */
  predicate Ends(answers: seq<bool>, trace: seq<Event>, i: nat, slot: Slot)
    requires i < |trace| == |answers|
  {
    trace[i].slot == slot && (trace[i].Register? || trace[i].Delete? || (trace[i].Consume? && answers[i]))
  }

  /** The event at index r registered the slot, and nothing has ended that before
      index n. */
  predicate Latest(answers: seq<bool>, trace: seq<Event>, r: nat, n: nat, slot: Slot)
    requires r < n <= |trace| == |answers|
  {
    trace[r].Register? && trace[r].slot == slot && forall i :: r < i < n ==> !Ends(answers, trace, i, slot)
  }

  lemma LatestInPast(minutes: int, trace: seq<Event>, r: nat, slot: Slot)
    requires r < |trace| - 1
    ensures var past := trace[..|trace| - 1];
      Latest(Intended(minutes, past).answers, past, r, |past|, slot) <==> Latest(Intended(minutes, trace).answers, trace, r, |past|, slot)
  {
    var past := trace[..|trace| - 1];
    var a, b := Intended(minutes, past).answers, Intended(minutes, trace).answers;
    forall i | 0 <= i < |past| ensures Ends(a, past, i, slot) <==> Ends(b, trace, i, slot) {
      assert a[i] == b[i];
    }
  }

  /** A slot's entry is its latest registration... */
  lemma {:induction false} EntryIsLatest(minutes: int, trace: seq<Event>, slot: Slot)
    requires slot in Intended(minutes, trace).codes
    ensures var m := Intended(minutes, trace).codes[slot];
      && m.at < |trace| && trace[m.at].Register? && trace[m.at].slot == slot && m.entry == Entry(trace[m.at].code, trace[m.at].now)
      && Latest(Intended(minutes, trace).answers, trace, m.at, |trace|, slot)
    decreases |trace|
  {
    var past, last := trace[..|trace| - 1], trace[|trace| - 1];
    if last.Register? && last.slot == slot {
    } else {
      EntryIsLatest(minutes, past, slot);
      LatestInPast(minutes, trace, Intended(minutes, past).codes[slot].at, slot);
    }
  }

  /** ...and the latest registration of a slot is its entry. */
  lemma {:induction false} LatestIsEntry(minutes: int, trace: seq<Event>, r: nat, slot: Slot)
    requires r < |trace| && Latest(Intended(minutes, trace).answers, trace, r, |trace|, slot)
    ensures slot in Intended(minutes, trace).codes
    ensures Intended(minutes, trace).codes[slot] == Mark(Entry(trace[r].code, trace[r].now), r)
    decreases |trace|
  {
    if r == |trace| - 1 {
    } else {
      LatestInPast(minutes, trace, r, slot);
      LatestIsEntry(minutes, trace[..|trace| - 1], r, slot);
      assert !Ends(Intended(minutes, trace).answers, trace, |trace| - 1, slot);
    }
  }

  /** What is said of a prefix holds in the whole trace. */
  lemma {:induction false} AnswersPrefix(minutes: int, trace: seq<Event>, n: nat)
    requires n <= |trace|
    ensures Intended(minutes, trace).answers[..n] == Intended(minutes, trace[..n]).answers
    decreases |trace|
  {
    if n == |trace| {
      assert trace[..n] == trace;
    } else {
      var past := trace[..|trace| - 1];
      AnswersPrefix(minutes, past, n);
      assert past[..n] == trace[..n];
      assert Intended(minutes, trace).answers[..n] == Intended(minutes, past).answers[..n];
    }
  }

  lemma LatestPrefix(minutes: int, trace: seq<Event>, r: nat, n: nat, slot: Slot)
    requires r < n <= |trace|
    ensures Latest(Intended(minutes, trace).answers, trace, r, n, slot) <==> Latest(Intended(minutes, trace[..n]).answers, trace[..n], r, n, slot)
  {
    AnswersPrefix(minutes, trace, n);
    var a, b := Intended(minutes, trace[..n]).answers, Intended(minutes, trace).answers;
    forall i | 0 <= i < n ensures Ends(a, trace[..n], i, slot) <==> Ends(b, trace, i, slot) {
      assert a[i] == b[..n][i];
    }
  }

  /** The answer at index j is given by the map just before it. */
  lemma AnswerAt(minutes: int, trace: seq<Event>, j: nat)
    requires j < |trace|
    ensures Intended(minutes, trace).answers[j]
       <==> (trace[j].Verify? || trace[j].Consume?) && Valid(Intended(minutes, trace[..j]).codes, trace[j].slot, trace[j].code, trace[j].now, minutes)
  {
    var upTo, past := trace[..j + 1], trace[..j];
    assert upTo[..|upTo| - 1] == past && upTo[j] == trace[j];
    AnswersPrefix(minutes, trace, j + 1);
    assert Intended(minutes, upTo).answers[j] == Intended(minutes, trace).answers[..j + 1][j];
  }

  /** The registration at index r makes the check at index j succeed: same purpose
      and key, same code, not expired, neither replaced, deleted nor consumed. */
  predicate Supports(answers: seq<bool>, minutes: int, trace: seq<Event>, r: nat, j: nat)
    requires r < j < |trace| == |answers|
  {
    && (trace[j].Verify? || trace[j].Consume?)
    && Latest(answers, trace, r, j, trace[j].slot) && trace[r].code == trace[j].code
    && trace[j].now - trace[r].now < minutes * 60 * 1_000_000_000
  }

  lemma IntendedSuccess(minutes: int, trace: seq<Event>, j: nat)
    requires j < |trace|
    ensures Intended(minutes, trace).answers[j] <==> exists r :: 0 <= r < j && Supports(Intended(minutes, trace).answers, minutes, trace, r, j)
  {
    var past, slot, answers := trace[..j], trace[j].slot, Intended(minutes, trace).answers;
    AnswerAt(minutes, trace, j);
    if answers[j] {
      EntryIsLatest(minutes, past, slot);
      var r := Intended(minutes, past).codes[slot].at;
      LatestPrefix(minutes, trace, r, j, slot);
      assert Supports(answers, minutes, trace, r, j);
    }
    if r :| 0 <= r < j && Supports(answers, minutes, trace, r, j) {
      LatestPrefix(minutes, trace, r, j, slot);
      LatestIsEntry(minutes, past, r, slot);
    }
  }

  /** On every trace a check succeeds if and only if it is supported by the latest
      registration of that purpose and key. */
  lemma SuccessIffLatestCode(cfg: Config, purposes: set<string>, trace: seq<Event>, j: nat)
    requires Clock(trace) && PrefixFree(purposes) && Uses(purposes, trace) && j < |trace|
    ensures var answers := Actual(cfg, trace).answers;
      answers[j] <==> exists r :: 0 <= r < j && Supports(answers, cfg.minutes, trace, r, j)
  {
    AnswersIntended(cfg, purposes, trace);
    IntendedSuccess(cfg.minutes, trace, j);
  }

  /** A registration is consumed at most once: the one that supports the second of
      two successful consumptions came after the first. */
  lemma ConsumedOnce(cfg: Config, purposes: set<string>, trace: seq<Event>, i: nat, j: nat) returns (r: nat)
    requires Clock(trace) && PrefixFree(purposes) && Uses(purposes, trace)
    requires i < j < |trace| && trace[i].Consume? && trace[j].Consume? && trace[i].slot == trace[j].slot
    requires Actual(cfg, trace).answers[i] && Actual(cfg, trace).answers[j]
    ensures i < r < j && Supports(Actual(cfg, trace).answers, cfg.minutes, trace, r, j)
  {
    SuccessIffLatestCode(cfg, purposes, trace, j);
    var answers := Actual(cfg, trace).answers;
    r :| 0 <= r < j && Supports(answers, cfg.minutes, trace, r, j);
    assert Ends(answers, trace, i, trace[j].slot);
  }
}
