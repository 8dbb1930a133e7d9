/** The life cycle of one asynchronous image task as an interleaving of atomic
    steps: relay workers (controller/canvas_image_task.go), the stale-task
    claimer and the refund retrier (model/image_task.go) and the polling sweep
    over failed tasks (service/task_polling.go), all sharing one database row.
    Every write to that row is one atomic step; between two steps any other actor
    may run, and a worker may panic anywhere. */
module ImageTask {
  import opened Common
  import opened ResponseRecorder

  datatype Status = NotStart | Submitted | Queued | InProgress | Failure | Success | Unknown

  predicate Terminal(s: Status) { s == Failure || s == Success }

  predicate Active(s: Status) { s in {NotStart, Submitted, Queued, InProgress} }

  /** The columns of the task row that billing depends on. `marker` says that
      the refund reconciliation record is present; nil data is []. */
  datatype Row = Row(status: Status, quota: nat, marker: bool, data: Bytes)

  /** Where an actor stands. Refunding is reached only through a won claim;
      SweepHolding and SweepRestoring only through a cleared quota. */
  datatype Pc =
    | Idle
    | Loaded
    | Running
    | Executed(timedOut: bool, code: int, sent: Bytes)
    | Settling(timedOut: bool, code: int, sent: Bytes)
    | Returning
    | Panicking
    | PanicSettling
    | StaleLoaded
    | RetryLoaded
    | Refunding(retry: bool)
    | SweepLoaded
    | SweepHolding
    | SweepRestoring
    | Done

  datatype Actor = Actor(pc: Pc, local: Row)

  datatype Credit = Credit(actor: nat, amount: nat, retry: bool)

  /** `logs` are the consume logs of this request id; `ledger` the money put
      back. The rest is history: who moved the row to Failure and the quota it
      carried then, whether a sweep has claimed that quota and which one answers
      for it now, the whole upstream response of the worker that moved the row to
      Success, and whether retention has dropped the payload. */
  datatype Db = Db(
    row: Row, logs: seq<nat>, ledger: seq<Credit>,
    failedBy: set<nat>, failedQuota: nat, swept: bool, holder: Option<nat>,
    published: Bytes, cleared: bool)

  datatype State = State(db: Db, actors: map<nat, Actor>)

  /** A compare-and-set can apply, apply while its caller sees an error, or not
      apply at all (database error, or another value in the row). */
  datatype Outcome = Applied | AppliedWithError | NotApplied

  /** Billing correlation: no unique log or an error; found but the row write
      failed; found and written. The log is read some time before the row is
      written, while it is the only one; more may have been added since. */
  datatype Evidence = NotFound | LocalOnly | Written

  datatype Step =
    | Charge(amount: nat)
    | Load(w: nat)
    | Start(w: nat, outcome: Outcome)
    | Execute(w: nat, writes: seq<Bytes>, code: int, timedOut: bool)
    | Persist(w: nat, evidence: Evidence)
    | Settle(w: nat, valid: bool, outcome: Outcome)
    | Return(w: nat)
    | Panic(w: nat)
    | PanicFail(w: nat, outcome: Outcome)
    | StaleLoad(w: nat)
    | StaleClaim(w: nat, outcome: Outcome)
    | RetryLoad(w: nat)
    | RetryClaim(w: nat)
    | Refund(w: nat, ok: bool)
    | SweepLoad(w: nat)
    | SweepClaim(w: nat, outcome: Outcome)
    | SweepRefund(w: nat, ok: bool)
    | SweepRestore(w: nat, outcome: Outcome)
    | SettleMarker
    | ClearData

  /** Steps of the surroundings: charging, settling a refund, retention. */
  predicate Ambient(step: Step) { step.Charge? || step.SettleMarker? || step.ClearData? }

  /** Fixed parameters: the response limit and the white-space trim applied to
      a response body. */
  datatype Env = Env(limit: int, trim: Bytes -> Bytes)

  predicate ResponseOk(env: Env, sent: Bytes, code: int, valid: bool) {
    200 <= code < 300 && valid && env.trim(Captured(env.limit, sent).body) != []
  }

  // ---- Steps -------------------------------------------------------------

  /** When an actor at a given place can take a step. */
  predicate Ready(d: Db, pc: Pc, step: Step)
    requires !Ambient(step)
  {
    match step
    case Load(_) => pc == Idle
    case Start(_, _) => pc == Loaded
    case Execute(_, _, _, _) => pc == Running
    case Persist(_, e) => (pc.Executed? || pc == Panicking) && (e == NotFound || |d.logs| >= 1)
    case Settle(_, _, _) => pc.Settling?
    case Return(_) => pc == Returning
    case Panic(_) => pc in {Loaded, Running, Returning, Refunding(false)} || pc.Executed? || pc.Settling?
    case PanicFail(_, _) => pc == PanicSettling
    case StaleLoad(_) => pc == Idle && Active(d.row.status)
    case StaleClaim(_, _) => pc == StaleLoaded && |d.logs| >= 1
    case RetryLoad(_) => pc == Idle && d.row.status == Failure && d.row.quota > 0
    case RetryClaim(_) => pc == RetryLoaded && d.row.status == Failure && d.row.quota > 0
    case Refund(_, _) => pc.Refunding?
    case SweepLoad(_) => pc == Idle && d.row.status == Failure && d.row.quota != 0
    case SweepClaim(_, _) => pc == SweepLoaded
    case SweepRefund(_, _) => pc == SweepHolding
    case SweepRestore(_, _) => pc == SweepRestoring
  }

  /** UpdateWithStatus: overwrite every column if the stored status is still the
      expected one. The local copy keeps `next` whatever the outcome. */
  function Cas(d: Db, w: nat, expected: Status, next: Row, sent: Bytes, outcome: Outcome): Db {
    if outcome == NotApplied || d.row.status != expected then d
    else if next.status == Failure then d.(row := next, failedBy := d.failedBy + {w}, failedQuota := next.quota)
    else if next.status == Success then d.(row := next, published := sent)
    else d.(row := next)
  }

  predicate Won(d: Db, expected: Status, outcome: Outcome) {
    outcome == Applied && d.row.status == expected
  }

  /** The database after an actor's step, and the actor. */
  datatype Moved = Moved(db: Db, actor: Actor)

  /** failImageTask, followed by the caller's decision to refund. */
  function FailTask(d: Db, w: nat, local: Row, outcome: Outcome): Moved {
    if Terminal(local.status) then Moved(d, Actor(Returning, local))
    else
      var next := local.(status := Failure, data := []);
      Moved(Cas(d, w, local.status, next, [], outcome),
            Actor(if Won(d, local.status, outcome) && next.quota > 0 then Refunding(false) else Returning, next))
  }

  /** finishImageTask on the success branch. */
  function SucceedTask(env: Env, d: Db, w: nat, local: Row, sent: Bytes, outcome: Outcome): Moved {
    if Terminal(local.status) then Moved(d, Actor(Returning, local))
    else
      var next := local.(status := Success, data := env.trim(Captured(env.limit, sent).body));
      Moved(Cas(d, w, local.status, next, sent, outcome), Actor(Returning, next))
  }

  /** Timeout, overflow and a bad response fail the task. */
  function SettleTask(env: Env, d: Db, w: nat, a: Actor, valid: bool, outcome: Outcome): Moved
    requires a.pc.Settling?
  {
    if a.pc.timedOut || Captured(env.limit, a.pc.sent).overflow || !ResponseOk(env, a.pc.sent, a.pc.code, valid)
    then FailTask(d, w, a.local, outcome)
    else SucceedTask(env, d, w, a.local, a.pc.sent, outcome)
  }

  /** PersistImageTaskBillingFromConsumeLog */
  function Correlate(d: Db, a: Actor, evidence: Evidence): Moved
    requires evidence == NotFound || |d.logs| >= 1
  {
    var pc := if a.pc.Executed? then Settling(a.pc.timedOut, a.pc.code, a.pc.sent) else PanicSettling;
    if evidence == NotFound then Moved(d, Actor(pc, a.local))
    else
      var local := a.local.(quota := d.logs[0]);
      Moved(if evidence == Written && Active(d.row.status) then d.(row := d.row.(quota := local.quota, marker := local.marker)) else d,
            Actor(pc, local))
  }

  /** RefundImageTaskMoney as one transaction: the claim, the credit and the
      reconciliation marker commit together or not at all. */
  function RefundMoney(d: Db, w: nat, expected: nat, retry: bool): Db {
    if d.row.quota == 0 || d.row.quota != expected || d.row.marker then d
    else d.(row := d.row.(quota := 0, marker := true), ledger := d.ledger + [Credit(w, expected, retry)])
  }

  /** What RefundImageTaskMoney reports: a row without quota counts as paid. */
  predicate RefundReported(d: Db, expected: nat) {
    d.row.quota == 0 || (d.row.quota == expected && !d.row.marker)
  }

  /** ClaimQuotaForRefund: clears the loaded quota if the row still has it. */
  function ClaimQuota(d: Db, w: nat, local: Row, outcome: Outcome): Moved {
    if outcome == NotApplied || d.row.quota != local.quota then Moved(d, Actor(Done, local))
    else
      var cleared := d.(row := d.row.(quota := 0), swept := true);
      if outcome == Applied then Moved(cleared.(holder := Some(w)), Actor(SweepHolding, local)) else Moved(cleared, Actor(Done, local))
  }

  /** RefundTaskQuota in the hands of the sweep. */
  function SweepPay(d: Db, w: nat, local: Row, ok: bool): Moved {
    var tried := if ok then RefundMoney(d, w, local.quota, true) else d;
    if ok && RefundReported(d, local.quota) then Moved(tried.(holder := None), Actor(Done, local))
    else Moved(tried, Actor(SweepRestoring, local))
  }

  /** RestoreQuotaAfterFailedRefund: puts the quota back if the row still has none. */
  function RestoreQuota(d: Db, local: Row, outcome: Outcome): Moved {
    var row := if outcome == NotApplied || d.row.quota != 0 then d.row else d.row.(quota := local.quota);
    Moved(d.(row := row, holder := None), Actor(Done, local))
  }

  function Act(env: Env, d: Db, w: nat, a: Actor, step: Step): (m: Moved)
    requires !Ambient(step) && Ready(d, a.pc, step)
  {
    match step
    case Load(_) => Moved(d, Actor(Loaded, d.row))
    case Start(_, outcome) =>
      var next := a.local.(status := InProgress);
      Moved(Cas(d, w, a.local.status, next, [], outcome),
            Actor(if Won(d, a.local.status, outcome) then Running else Returning, next))
    case Execute(_, writes, code, timedOut) => Moved(d, Actor(Executed(timedOut, code, Concat(writes)), a.local))
    case Persist(_, evidence) => Correlate(d, a, evidence)
    case Settle(_, valid, outcome) => SettleTask(env, d, w, a, valid, outcome)
    case Return(_) => Moved(d, Actor(Done, a.local))
    case Panic(_) => Moved(d, Actor(Panicking, a.local))
    case PanicFail(_, outcome) => FailTask(d, w, a.local, outcome)
    case StaleLoad(_) => Moved(d, Actor(StaleLoaded, d.row))
    case StaleClaim(_, outcome) =>
      var next := a.local.(status := Failure, data := [], quota := d.logs[0]);
      Moved(Cas(d, w, a.local.status, next, [], outcome),
            Actor(if Won(d, a.local.status, outcome) && next.quota > 0 then Refunding(false) else Done, next))
    case RetryLoad(_) => Moved(d, Actor(RetryLoaded, d.row))
    case RetryClaim(_) => Moved(d, Actor(Refunding(true), a.local))
    case Refund(_, ok) =>
      Moved(if ok then RefundMoney(d, w, a.local.quota, a.pc.retry) else d,
            Actor(if a.pc.retry then Done else Returning, a.local))
    case SweepLoad(_) => Moved(d, Actor(SweepLoaded, d.row))
    case SweepClaim(_, outcome) => ClaimQuota(d, w, a.local, outcome)
    case SweepRefund(_, ok) => SweepPay(d, w, a.local, ok)
    case SweepRestore(_, outcome) => RestoreQuota(d, a.local, outcome)
  }

  predicate Enabled(s: State, step: Step) {
    if step.Charge? then step.amount > 0
    else if step.SettleMarker? then s.db.row.marker && s.db.row.quota == 0
    else if step.ClearData? then Terminal(s.db.row.status)
    else step.w in s.actors && Ready(s.db, s.actors[step.w].pc, step)
  }

  function Next(env: Env, s: State, step: Step): (t: State)
    requires Enabled(s, step)
  {
    if step.Charge? then s.(db := s.db.(logs := s.db.logs + [step.amount]))
    else if step.SettleMarker? then s.(db := s.db.(row := s.db.row.(marker := false)))
    else if step.ClearData? then s.(db := s.db.(row := s.db.row.(data := []), cleared := true))
    else
      var m := Act(env, s.db, step.w, s.actors[step.w], step);
      State(m.db, s.actors[step.w := m.actor])
  }

  function PcOf(s: State, w: nat): Pc {
    if w in s.actors then s.actors[w].pc else Done
  }

  // ---- Runs ------------------------------------------------------------

  /** A freshly submitted task: not terminal, nothing charged, nobody started. */
  predicate Init(s: State) {
    && !Terminal(s.db.row.status) && s.db.row.quota == 0 && !s.db.row.marker && s.db.row.data == []
    && s.db.logs == [] && s.db.ledger == [] && s.db.failedBy == {} && s.db.failedQuota == 0
    && !s.db.swept && s.db.holder.None? && !s.db.cleared
    && forall w :: w in s.actors ==> s.actors[w].pc == Idle
  }

  predicate IsRun(env: Env, s: State, steps: seq<Step>)
    decreases |steps|
  {
    steps == [] || (Enabled(s, steps[0]) && IsRun(env, Next(env, s, steps[0]), steps[1..]))
  }

  function After(env: Env, s: State, steps: seq<Step>): (t: State)
    requires IsRun(env, s, steps)
    decreases |steps|
  {
    if steps == [] then s else After(env, Next(env, s, steps[0]), steps[1..])
  }

  /** Runs in which only the given workers relay the task, and consume logs are
      written only once one of them is under way. The service starts a single
      worker for each task. */
  predicate Relayed(env: Env, s: State, steps: seq<Step>, workers: set<nat>)
    requires IsRun(env, s, steps)
    decreases |steps|
  {
    steps == [] ||
    (&& (steps[0].Load? ==> steps[0].w in workers)
     && (steps[0].Charge? ==> exists w :: w in workers && PcOf(s, w) != Idle)
     && Relayed(env, Next(env, s, steps[0]), steps[1..], workers))
  }

  /** Every worker found a non-terminal row when it loaded the task: the check
      that line 455 takes for granted. */
  predicate LoadsLive(env: Env, s: State, steps: seq<Step>)
    requires IsRun(env, s, steps)
    decreases |steps|
  {
    steps == [] ||
    ((steps[0].Load? ==> !Terminal(s.db.row.status)) && LoadsLive(env, Next(env, s, steps[0]), steps[1..]))
  }

  // ---- The invariant -----------------------------------------------------

  /** A quota value is either unset or the amount that was really charged. */
  predicate Charged(logs: seq<nat>, quota: nat) {
    quota == 0 || (|logs| > 0 && quota == logs[0])
  }

  /** A sweep has cleared the row's quota and answers for it. */
  predicate Holding(pc: Pc) { pc == SweepHolding || pc == SweepRestoring }

  predicate ActorOk(d: Db, w: nat, a: Actor) {
    && (a.pc != Idle ==> Charged(d.logs, a.local.quota))
    && (a.pc in {Loaded, Running, Returning, Panicking, PanicSettling, StaleLoaded, Refunding(false)} ==> !a.local.marker)
    && (a.pc.Executed? || a.pc.Settling? ==> !a.local.marker)
    && (a.pc in {Loaded, StaleLoaded} ==> !Terminal(a.local.status))
    && (a.pc == Refunding(false) ==> w in d.failedBy && a.local.quota > 0)
    && (a.pc == RetryLoaded || a.pc == Refunding(true) ==> d.row.status == Failure)
    && (a.pc == SweepLoaded || Holding(a.pc) ==> d.row.status == Failure && a.local.quota == d.failedQuota > 0)
    && (Holding(a.pc) <==> d.holder == Some(w))
  }

  predicate RowOk(env: Env, d: Db) {
    && Charged(d.logs, d.row.quota)
    && (d.row.status == Failure <==> d.failedBy != {})
    && |d.failedBy| <= 1
    && (d.row.status == Success ==>
          d.row.data == (if d.cleared then [] else env.trim(d.published)) && env.trim(d.published) != [])
    && (!Terminal(d.row.status) ==> !d.cleared)
    && (forall i :: 0 <= i < |d.logs| ==> d.logs[i] > 0)
  }

  predicate LedgerOk(d: Db) {
    && |d.ledger| <= 1
    && (d.ledger != [] ==>
          && d.row.status == Failure && d.row.quota == 0
          && |d.logs| > 0 && d.ledger[0].amount == d.logs[0]
          && (!d.ledger[0].retry ==> d.failedBy == {d.ledger[0].actor}))
    && (d.row.marker ==> d.ledger != [])
  }

  /** What has become of the quota that a row carried into Failure: it is still
      there, was paid back, or was claimed by a sweep. */
  predicate FateOk(d: Db) {
    if d.row.status != Failure then d.holder.None?
    else
      && Charged(d.logs, d.failedQuota)
      && (d.row.quota == 0 || d.row.quota == d.failedQuota)
      && (d.ledger != [] ==> d.failedQuota > 0)
      && (d.row.quota == d.failedQuota || d.ledger != [] || d.swept)
      && (d.holder.Some? ==> d.row.quota == 0 && d.ledger == [] && d.swept)
  }

  predicate DbOk(env: Env, d: Db) { RowOk(env, d) && LedgerOk(d) && FateOk(d) }

  ghost predicate Inv(env: Env, s: State) {
    && DbOk(env, s.db)
    && (forall w :: w in s.actors ==> ActorOk(s.db, w, s.actors[w]))
    && (s.db.holder.Some? ==> s.db.holder.value in s.actors)
  }

  /** Nothing a step may do to a terminal row but give the quota of a failed one
      back or have a sweep clear and restore it, settle the refund record and drop
      an expired payload. A credit is final. */
  predicate TerminalKept(d: Db, e: Db) {
    Terminal(d.row.status) ==>
      && e.row.status == d.row.status
      && e.failedBy == d.failedBy && e.failedQuota == d.failedQuota && e.published == d.published
      && (d.cleared ==> e.cleared)
      && (e.row.data == d.row.data || (e.row.data == [] && e.cleared))
      && (e.row.quota == d.row.quota || (d.row.status == Failure && (e.row.quota == 0 || e.row.quota == d.failedQuota)))
      && (d.ledger != [] ==> e.ledger == d.ledger && e.row.quota == 0)
  }

  /** What the other actors rely on. */
  predicate Compatible(d: Db, e: Db, w: nat) {
    && (d.logs == e.logs || (|d.logs| < |e.logs| && d.logs == e.logs[..|d.logs|]))
    && d.failedBy <= e.failedBy
    && (d.row.status == Failure ==> e.row.status == Failure && e.failedQuota == d.failedQuota)
    && (e.holder == d.holder || (d.holder in {None, Some(w)} && e.holder in {None, Some(w)}))
  }

  /** One actor's step keeps the invariant of the row and its own, and disturbs
      nobody else's. */
  predicate Keeps(env: Env, d: Db, w: nat, m: Moved) {
    DbOk(env, m.db) && ActorOk(m.db, w, m.actor) && Compatible(d, m.db, w) && TerminalKept(d, m.db)
  }

  // ---- Every step keeps the invariant --------------------------------------

  /** The shared core of all compare-and-set steps: expecting a non-terminal
      status, the write can only hit a non-terminal row. */
  lemma CasInv(env: Env, d: Db, w: nat, expected: Status, next: Row, sent: Bytes, outcome: Outcome)
    requires DbOk(env, d) && !Terminal(expected)
    requires Charged(d.logs, next.quota) && !next.marker
    requires next.status == Success ==> next.data == env.trim(sent) && next.data != []
    ensures var e := Cas(d, w, expected, next, sent, outcome);
      && DbOk(env, e) && Compatible(d, e, w) && e.logs == d.logs && e.holder == d.holder
      && (Terminal(d.row.status) ==> e == d)
      && (Won(d, expected, outcome) && next.status == Failure ==> w in e.failedBy)
  {
    if Cas(d, w, expected, next, sent, outcome) != d {
      assert d.failedBy == {};
    }
  }

  lemma FailInv(env: Env, d: Db, w: nat, a: Actor, outcome: Outcome)
    requires DbOk(env, d) && ActorOk(d, w, a) && (a.pc.Settling? || a.pc == PanicSettling)
    ensures Keeps(env, d, w, FailTask(d, w, a.local, outcome))
  {
    if !Terminal(a.local.status) {
      CasInv(env, d, w, a.local.status, a.local.(status := Failure, data := []), [], outcome);
    }
  }

  lemma SucceedInv(env: Env, d: Db, w: nat, a: Actor, sent: Bytes, valid: bool, outcome: Outcome)
    requires DbOk(env, d) && ActorOk(d, w, a) && a.pc.Settling?
    requires !Captured(env.limit, sent).overflow && ResponseOk(env, sent, a.pc.code, valid)
    ensures Keeps(env, d, w, SucceedTask(env, d, w, a.local, sent, outcome))
  {
    if !Terminal(a.local.status) {
      CasInv(env, d, w, a.local.status, a.local.(status := Success, data := env.trim(Captured(env.limit, sent).body)), sent, outcome);
    }
  }

  lemma StartInv(env: Env, d: Db, w: nat, a: Actor, outcome: Outcome)
    requires DbOk(env, d) && ActorOk(d, w, a) && a.pc == Loaded
    ensures Keeps(env, d, w, Act(env, d, w, a, Start(w, outcome)))
  {
    CasInv(env, d, w, a.local.status, a.local.(status := InProgress), [], outcome);
  }

  lemma StaleClaimInv(env: Env, d: Db, w: nat, a: Actor, outcome: Outcome)
    requires DbOk(env, d) && ActorOk(d, w, a) && a.pc == StaleLoaded && |d.logs| >= 1
    ensures Keeps(env, d, w, Act(env, d, w, a, StaleClaim(w, outcome)))
  {
    CasInv(env, d, w, a.local.status, a.local.(status := Failure, data := [], quota := d.logs[0]), [], outcome);
  }

  lemma PersistInv(env: Env, d: Db, w: nat, a: Actor, evidence: Evidence)
    requires DbOk(env, d) && ActorOk(d, w, a) && Ready(d, a.pc, Persist(w, evidence))
    ensures Keeps(env, d, w, Correlate(d, a, evidence))
  {
  }

  lemma RefundInv(env: Env, d: Db, w: nat, a: Actor, ok: bool)
    requires DbOk(env, d) && ActorOk(d, w, a) && a.pc.Refunding?
    ensures Keeps(env, d, w, Act(env, d, w, a, Refund(w, ok)))
  {
    if w in d.failedBy {
      SingletonIs(d.failedBy, w);
    }
  }

  lemma SingletonIs(xs: set<nat>, x: nat)
    requires x in xs && |xs| <= 1
    ensures xs == {x}
  {
    assert |xs - {x}| == |xs| - 1;
  }

  /** A sweep clears a quota that nobody else has cleared. */
  lemma ClaimInv(env: Env, d: Db, w: nat, a: Actor, outcome: Outcome)
    requires DbOk(env, d) && ActorOk(d, w, a) && a.pc == SweepLoaded
    ensures Keeps(env, d, w, ClaimQuota(d, w, a.local, outcome))
  {
  }

  /** The refund it then calls for finds no quota and pays nothing, whatever it
      reports. */
  lemma SweepPayInv(env: Env, d: Db, w: nat, a: Actor, ok: bool)
    requires DbOk(env, d) && ActorOk(d, w, a) && a.pc == SweepHolding
    ensures Keeps(env, d, w, SweepPay(d, w, a.local, ok))
    ensures SweepPay(d, w, a.local, ok).db.ledger == d.ledger == [] && (ok ==> SweepPay(d, w, a.local, ok).actor.pc == Done)
  {
  }

  lemma RestoreInv(env: Env, d: Db, w: nat, a: Actor, outcome: Outcome)
    requires DbOk(env, d) && ActorOk(d, w, a) && a.pc == SweepRestoring
    ensures Keeps(env, d, w, RestoreQuota(d, a.local, outcome))
  {
  }

  lemma ActInv(env: Env, d: Db, w: nat, a: Actor, step: Step)
    requires DbOk(env, d) && ActorOk(d, w, a) && !Ambient(step) && Ready(d, a.pc, step)
    requires step.Load? ==> !Terminal(d.row.status)
    ensures Keeps(env, d, w, Act(env, d, w, a, step))
  {
    if MovesOnly(step) {
      MoveInv(env, d, w, a, step);
    } else {
      match step
      case Start(_, outcome) => StartInv(env, d, w, a, outcome);
      case Persist(_, evidence) => PersistInv(env, d, w, a, evidence);
      case Settle(_, valid, outcome) =>
        if a.pc.timedOut || Captured(env.limit, a.pc.sent).overflow || !ResponseOk(env, a.pc.sent, a.pc.code, valid) {
          FailInv(env, d, w, a, outcome);
        } else {
          SucceedInv(env, d, w, a, a.pc.sent, valid, outcome);
        }
      case PanicFail(_, outcome) => FailInv(env, d, w, a, outcome);
      case StaleClaim(_, outcome) => StaleClaimInv(env, d, w, a, outcome);
      case Refund(_, ok) => RefundInv(env, d, w, a, ok);
      case SweepClaim(_, outcome) => ClaimInv(env, d, w, a, outcome);
      case SweepRefund(_, ok) => SweepPayInv(env, d, w, a, ok);
      case SweepRestore(_, outcome) => RestoreInv(env, d, w, a, outcome);
    }
  }

  /** Steps that read at most: loading, executing, returning, panicking. */
  predicate MovesOnly(step: Step) {
    || step.Load? || step.Execute? || step.Return? || step.Panic?
    || step.StaleLoad? || step.RetryLoad? || step.RetryClaim? || step.SweepLoad?
  }

  lemma MoveInv(env: Env, d: Db, w: nat, a: Actor, step: Step)
    requires DbOk(env, d) && ActorOk(d, w, a) && MovesOnly(step) && Ready(d, a.pc, step)
    requires step.Load? ==> !Terminal(d.row.status)
    ensures Keeps(env, d, w, Act(env, d, w, a, step)) && Act(env, d, w, a, step).db == d
  {
    assert Act(env, d, w, a, step).db == d;
    assert ActorOk(d, w, Act(env, d, w, a, step).actor);
  }

  lemma CompatibleKeeps(d: Db, e: Db, w: nat, v: nat, b: Actor)
    requires Compatible(d, e, w) && ActorOk(d, v, b) && v != w
    ensures ActorOk(e, v, b)
  {
  }

  /** The surroundings leave every actor alone. */
  lemma AmbientInv(env: Env, s: State, step: Step)
    requires Inv(env, s) && Enabled(s, step) && Ambient(step)
    ensures Inv(env, Next(env, s, step)) && TerminalKept(s.db, Next(env, s, step).db)
  {
  }

  /** One step of any actor, on any state the invariant allows. */
  lemma NextInv(env: Env, s: State, step: Step)
    requires Inv(env, s) && Enabled(s, step)
    requires step.Load? ==> !Terminal(s.db.row.status)
    ensures Inv(env, Next(env, s, step)) && TerminalKept(s.db, Next(env, s, step).db)
  {
    if Ambient(step) {
      AmbientInv(env, s, step);
    } else {
      var w, t := step.w, Next(env, s, step);
      ActInv(env, s.db, w, s.actors[w], step);
      forall v | v in t.actors && v != w ensures ActorOk(t.db, v, t.actors[v]) {
        CompatibleKeeps(s.db, t.db, w, v, s.actors[v]);
      }
    }
  }

  // ---- Theorems about whole runs -------------------------------------------

  lemma InitInv(env: Env, s: State)
    requires Init(s)
    ensures Inv(env, s)
  {
  }

  lemma {:induction false} RunInv(env: Env, s: State, steps: seq<Step>)
    requires Inv(env, s) && IsRun(env, s, steps) && LoadsLive(env, s, steps)
    ensures Inv(env, After(env, s, steps)) && TerminalKept(s.db, After(env, s, steps).db)
    decreases |steps|
  {
    if steps == [] {
    } else {
      NextInv(env, s, steps[0]);
      RunInv(env, Next(env, s, steps[0]), steps[1..]);
    }
  }

  lemma {:induction false} RunSplit(env: Env, s: State, first: seq<Step>, rest: seq<Step>)
    requires IsRun(env, s, first + rest) && LoadsLive(env, s, first + rest)
    ensures IsRun(env, s, first) && LoadsLive(env, s, first)
    ensures var mid := After(env, s, first);
            IsRun(env, mid, rest) && LoadsLive(env, mid, rest) && After(env, mid, rest) == After(env, s, first + rest)
    decreases |first|
  {
    if first == [] {
      assert first + rest == rest;
    } else {
      assert (first + rest)[1..] == first[1..] + rest;
      RunSplit(env, Next(env, s, first[0]), first[1..], rest);
    }
  }

  // ---- A single worker always loads a live row -------------------------------

  /** Before the worker loads the task nothing has been charged, so nobody can
      have ended it. */
  predicate Untouched(s: State) {
    && s.db.logs == [] && !Terminal(s.db.row.status)
    && forall v :: v in s.actors ==> s.actors[v].pc in {Idle, StaleLoaded}
  }

  lemma NeverIdleAgain(env: Env, d: Db, w: nat, a: Actor, step: Step)
    requires !Ambient(step) && Ready(d, a.pc, step)
    ensures Act(env, d, w, a, step).actor.pc != Idle
  {
  }

  lemma UntouchedNext(env: Env, s: State, step: Step, worker: nat)
    requires Enabled(s, step) && (step.Load? ==> step.w == worker) && (step.Charge? ==> PcOf(s, worker) != Idle)
    requires PcOf(s, worker) == Idle ==> Untouched(s)
    ensures var t := Next(env, s, step); PcOf(t, worker) == Idle ==> Untouched(t)
  {
    if !Ambient(step) {
      NeverIdleAgain(env, s.db, step.w, s.actors[step.w], step);
    }
  }

  lemma {:induction false} SingleWorkerLoadsLive(env: Env, s: State, steps: seq<Step>, worker: nat)
    requires IsRun(env, s, steps) && Relayed(env, s, steps, {worker})
    requires PcOf(s, worker) == Idle ==> Untouched(s)
    ensures LoadsLive(env, s, steps)
    decreases |steps|
  {
    if steps == [] {
    } else {
      UntouchedNext(env, s, steps[0], worker);
      SingleWorkerLoadsLive(env, Next(env, s, steps[0]), steps[1..], worker);
    }
  }

  lemma SingleWorkerInv(env: Env, s: State, steps: seq<Step>, worker: nat)
    requires Init(s) && IsRun(env, s, steps) && Relayed(env, s, steps, {worker})
    ensures LoadsLive(env, s, steps) && Inv(env, After(env, s, steps))
  {
    InitInv(env, s);
    SingleWorkerLoadsLive(env, s, steps, worker);
    RunInv(env, s, steps);
  }

  // ---- Safety ------------------------------------------------------------------

  /** The credit is at most one, for exactly the amount charged, only on a task
      that ended in Failure, and (unless the maintenance retry paid it) by the
      one actor whose compare-and-set moved the row there. A task in Success is
      never refunded and holds the whole upstream response, never a truncated
      one. */
  ghost predicate MoneySafe(env: Env, d: Db) {
    && |d.ledger| <= 1
    && (forall c :: c in d.ledger ==> d.row.status == Failure && |d.logs| > 0 && c.amount == d.logs[0] && d.row.quota == 0)
    && (forall c :: c in d.ledger && !c.retry ==> d.failedBy == {c.actor})
    && |d.failedBy| <= 1
    && (d.row.status == Success ==> d.ledger == [] && d.failedBy == {})
    && (d.row.status == Success && !d.cleared ==> d.row.data == env.trim(d.published) && d.row.data != [])
  }

  /** Money safety of every run of one worker, the stale-task claimers, the
      retriers and the sweeps. */
  lemma RefundSafety(env: Env, s: State, steps: seq<Step>, worker: nat)
    requires Init(s) && IsRun(env, s, steps) && Relayed(env, s, steps, {worker})
    ensures MoneySafe(env, After(env, s, steps).db)
  {
    SingleWorkerInv(env, s, steps, worker);
  }

  /** The same for any number of workers that all load a non-terminal row. */
  lemma RefundSafetyOfLiveLoads(env: Env, s: State, steps: seq<Step>)
    requires Init(s) && IsRun(env, s, steps) && LoadsLive(env, s, steps)
    ensures MoneySafe(env, After(env, s, steps).db)
  {
    InitInv(env, s);
    RunInv(env, s, steps);
  }

  /** Once some prefix of a run has made the row terminal, the rest of the run
      leaves status, winner and result alone, and a credit as well. */
  lemma TerminalForever(env: Env, s: State, first: seq<Step>, rest: seq<Step>, worker: nat)
    requires Init(s) && IsRun(env, s, first + rest) && Relayed(env, s, first + rest, {worker})
    ensures IsRun(env, s, first) && TerminalKept(After(env, s, first).db, After(env, s, first + rest).db)
  {
    SingleWorkerInv(env, s, first + rest, worker);
    RunSplit(env, s, first, rest);
    InitInv(env, s);
    RunInv(env, s, first);
    RunInv(env, After(env, s, first), rest);
  }

  /** Line 455 exactly: loading the task and starting it leaves a terminal row
      alone if and only if the loaded row was not terminal. */
  lemma StartKeepsTerminalIff(env: Env, d: Db, w: nat, a: Actor)
    requires a.pc == Idle
    ensures var loaded := Act(env, d, w, a, Load(w)); var started := Act(env, loaded.db, w, loaded.actor, Start(w, Applied));
      TerminalKept(d, started.db) <==> !Terminal(d.row.status)
  {
    var loaded := Act(env, d, w, a, Load(w));
    assert Act(env, loaded.db, w, loaded.actor, Start(w, Applied)).db.row.status == InProgress;
  }
}
