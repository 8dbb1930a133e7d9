/** What becomes of the charge of an image task that failed: when it can still be
    paid back, and the runs in which it is lost or would be paid twice. */
module ImageRefunds {
  import opened Common
  import opened ImageTask

  // ---- The quota a task fails with ---------------------------------------------

  /** A log that the correlation finds becomes the actor's quota, and that is what
      failing the task writes to the row. */
  lemma FoundIsCarried(env: Env, d: Db, w: nat, a: Actor, evidence: Evidence, outcome: Outcome)
    requires DbOk(env, d) && Ready(d, a.pc, Persist(w, evidence)) && evidence != NotFound
    requires !Terminal(a.local.status) && d.row.status == a.local.status && outcome != NotApplied
    ensures var found := Correlate(d, a, evidence); var failed := FailTask(found.db, w, found.actor.local, outcome);
      failed.db.row.status == Failure && failed.db.row.quota == failed.db.failedQuota == d.logs[0] > 0
  {
  }

  /** At any time after the task failed: if it failed with a quota, that was the
      charge, and the row still carries it, or it was paid back, or a polling sweep
      has claimed it. If it failed without one, the row has never carried anything
      since and nothing was paid. */
  lemma ChargeFate(env: Env, s: State, steps: seq<Step>, worker: nat)
    requires Init(s) && IsRun(env, s, steps) && Relayed(env, s, steps, {worker})
    requires After(env, s, steps).db.row.status == Failure
    ensures var d := After(env, s, steps).db;
      if d.failedQuota > 0 then |d.logs| > 0 && d.failedQuota == d.logs[0] && (d.row.quota == d.failedQuota || d.ledger != [] || d.swept)
      else d.row.quota == 0 && d.ledger == []
  {
    SingleWorkerInv(env, s, steps, worker);
  }

  lemma FailingWritesQuota(env: Env, d: Db, w: nat, a: Actor, step: Step)
    requires DbOk(env, d) && !Ambient(step) && Ready(d, a.pc, step) && a.local.quota > 0
    requires d.row.status != Failure && Act(env, d, w, a, step).db.row.status == Failure
    ensures Act(env, d, w, a, step).db.failedQuota > 0
  {
  }

  /** A charge whose log was found before the step that failed the task: for the
      rest of the run the row carries it, or it was paid back, or a polling sweep
      has claimed it. */
  lemma FoundChargeFate(env: Env, s: State, first: seq<Step>, step: Step, rest: seq<Step>, worker: nat)
    requires Init(s) && IsRun(env, s, first + [step] + rest) && Relayed(env, s, first + [step] + rest, {worker})
    requires IsRun(env, s, first) && IsRun(env, s, first + [step])
    requires var before, failed := After(env, s, first), After(env, s, first + [step]);
      && before.db.row.status != Failure && failed.db.row.status == Failure
      && !Ambient(step) && step.w in before.actors && before.actors[step.w].local.quota > 0
    ensures var d := After(env, s, first + [step] + rest).db;
      |d.logs| > 0 && (d.row.quota == d.logs[0] || d.ledger != [] || d.swept)
  {
    SingleWorkerInv(env, s, first + [step] + rest, worker);
    RunSplit(env, s, first + [step], rest);
    RunSplit(env, s, first, [step]);
    InitInv(env, s);
    RunInv(env, s, first);
    RunInv(env, s, first + [step]);
    var before, failed := After(env, s, first), After(env, s, first + [step]);
    LastStep(env, before, step);
    FailingWritesQuota(env, before.db, step.w, before.actors[step.w], step);
    RunInv(env, failed, rest);
    ChargeFate(env, s, first + [step] + rest, worker);
  }

  lemma LastStep(env: Env, s: State, step: Step)
    requires IsRun(env, s, [step])
    ensures Enabled(s, step) && After(env, s, [step]) == Next(env, s, step)
  {
    assert [step][1..] == [];
  }

  // ---- Lost charges --------------------------------------------------------------

  /** Failed, not paid back, without a quota and with no sweep to restore it. */
  predicate Lost(d: Db) {
    d.row.status == Failure && d.row.quota == 0 && d.ledger == [] && d.holder.None?
  }

  lemma LostAct(env: Env, d: Db, w: nat, a: Actor, step: Step)
    requires DbOk(env, d) && ActorOk(d, w, a) && Lost(d) && !Ambient(step) && !step.Load? && Ready(d, a.pc, step)
    ensures Lost(Act(env, d, w, a, step).db)
  {
    if MovesOnly(step) {
      MoveInv(env, d, w, a, step);
    }
  }

  /** A lost charge is never paid, whatever happens next. */
  lemma {:induction false} NeverPaid(env: Env, s: State, steps: seq<Step>)
    requires Inv(env, s) && Lost(s.db) && IsRun(env, s, steps) && LoadsLive(env, s, steps)
    ensures Lost(After(env, s, steps).db)
    decreases |steps|
  {
    if steps == [] {
    } else {
      NextInv(env, s, steps[0]);
      if !Ambient(steps[0]) {
        LostAct(env, s.db, steps[0].w, s.actors[steps[0].w], steps[0]);
      }
      NeverPaid(env, Next(env, s, steps[0]), steps[1..]);
    }
  }

  // ---- Which charges can still be paid back -----------------------------------

  ghost predicate CanBePaid(env: Env, s: State, steps: seq<Step>, worker: nat) {
    exists more: seq<Step> ::
      && IsRun(env, s, steps + more) && Relayed(env, s, steps + more, {worker})
      && After(env, s, steps + more).db.ledger != []
  }

  /** Appends one enabled step to a run. */
  lemma {:induction false} Extend(env: Env, s: State, steps: seq<Step>, step: Step, workers: set<nat>)
    requires IsRun(env, s, steps) && Relayed(env, s, steps, workers) && Enabled(After(env, s, steps), step)
    requires step.Load? ==> step.w in workers
    requires step.Charge? ==> exists w :: w in workers && PcOf(After(env, s, steps), w) != Idle
    ensures IsRun(env, s, steps + [step]) && Relayed(env, s, steps + [step], workers)
    ensures After(env, s, steps + [step]) == Next(env, After(env, s, steps), step)
    decreases |steps|
  {
    if steps == [] {
      assert steps + [step] == [step] && [step][1..] == [];
    } else {
      assert (steps + [step])[1..] == steps[1..] + [step];
      Extend(env, Next(env, s, steps[0]), steps[1..], step, workers);
    }
  }

  /** A run of the given workers that ends in the given state. */
  predicate RunTo(env: Env, s: State, steps: seq<Step>, t: State, workers: set<nat>) {
    IsRun(env, s, steps) && Relayed(env, s, steps, workers) && After(env, s, steps) == t
  }

  lemma StepTo(env: Env, s: State, steps: seq<Step>, t: State, step: Step, u: State, workers: set<nat>)
    requires RunTo(env, s, steps, t, workers) && Enabled(t, step) && Next(env, t, step) == u
    requires !step.Load? && !step.Charge?
    ensures RunTo(env, s, steps + [step], u, workers)
  {
    Extend(env, s, steps, step, workers);
  }

  /** A failed row that carries a quota, and somebody free to see to it. */
  predicate Payable(s: State, w: nat) {
    s.db.row.status == Failure && s.db.row.quota > 0 && !s.db.row.marker && w in s.actors && s.actors[w].pc == Idle
  }

  lemma RetryLoads(env: Env, t: State, w: nat)
    requires Payable(t, w)
    ensures Enabled(t, RetryLoad(w)) && Next(env, t, RetryLoad(w)) == State(t.db, t.actors[w := Actor(RetryLoaded, t.db.row)])
  {
  }

  lemma RetryClaims(env: Env, t: State, w: nat)
    requires w in t.actors && t.actors[w] == Actor(RetryLoaded, t.db.row) && t.db.row.status == Failure && t.db.row.quota > 0
    ensures Enabled(t, RetryClaim(w)) && Next(env, t, RetryClaim(w)) == State(t.db, t.actors[w := Actor(Refunding(true), t.db.row)])
  {
  }

  lemma RetryCredits(env: Env, t: State, w: nat)
    requires w in t.actors && t.actors[w] == Actor(Refunding(true), t.db.row) && t.db.row.quota > 0 && !t.db.row.marker
    ensures Enabled(t, Refund(w, true)) && Next(env, t, Refund(w, true)).db.ledger == t.db.ledger + [Credit(w, t.db.row.quota, true)]
  {
  }

  function MaintenancePass(w: nat): seq<Step> { [RetryLoad(w), RetryClaim(w), Refund(w, true)] }

  /** One maintenance pass over such a row. */
  lemma RetryPays(env: Env, s: State, steps: seq<Step>, t: State, worker: nat, w: nat) returns (u: State)
    requires RunTo(env, s, steps, t, {worker}) && Payable(t, w)
    ensures RunTo(env, s, steps + MaintenancePass(w), u, {worker})
    ensures u.db.ledger == t.db.ledger + [Credit(w, t.db.row.quota, true)]
  {
    var one := steps + [RetryLoad(w)];
    RetryLoads(env, t, w);
    u := Next(env, t, RetryLoad(w));
    StepTo(env, s, steps, t, RetryLoad(w), u, {worker});
    RetryClaims(env, u, w);
    var claimed := Next(env, u, RetryClaim(w));
    StepTo(env, s, one, u, RetryClaim(w), claimed, {worker});
    RetryCredits(env, claimed, w);
    u := Next(env, claimed, Refund(w, true));
    StepTo(env, s, one + [RetryClaim(w)], claimed, Refund(w, true), u, {worker});
    assert one + [RetryClaim(w)] + [Refund(w, true)] == steps + MaintenancePass(w);
  }

  /** One maintenance pass over a reachable failed row that carries a quota pays
      exactly the charge. */
  lemma RetryPaysCharge(env: Env, s: State, steps: seq<Step>, worker: nat, w: nat)
    requires Init(s) && IsRun(env, s, steps) && Relayed(env, s, steps, {worker})
    requires var t := After(env, s, steps); t.db.row.status == Failure && t.db.row.quota > 0 && PcOf(t, w) == Idle
    ensures var d := After(env, s, steps).db; var all := steps + MaintenancePass(w);
      |d.logs| > 0 && IsRun(env, s, all) && After(env, s, all).db.ledger == [Credit(w, d.logs[0], true)]
  {
    SingleWorkerInv(env, s, steps, worker);
    var _ := RetryPays(env, s, steps, After(env, s, steps), worker, w);
  }

  lemma CarriedIsPaid(env: Env, s: State, steps: seq<Step>, worker: nat, w: nat, longer: seq<Step>)
    requires steps <= longer && IsRun(env, s, longer) && Relayed(env, s, longer, {worker}) && Payable(After(env, s, longer), w)
    ensures CanBePaid(env, s, steps, worker)
  {
    var _ := RetryPays(env, s, longer, After(env, s, longer), worker, w);
    var all := longer + MaintenancePass(w);
    assert steps + all[|steps|..] == all;
  }

  /** A sweep whose refund fails puts the quota back. */
  lemma HolderRestores(env: Env, s: State, steps: seq<Step>, worker: nat, v: nat, w: nat) returns (longer: seq<Step>)
    requires IsRun(env, s, steps) && Relayed(env, s, steps, {worker})
    requires var t := After(env, s, steps);
      && Holding(PcOf(t, v)) && t.actors[v].local.quota > 0 && PcOf(t, w) == Idle
      && t.db.row.status == Failure && t.db.row.quota == 0 && !t.db.row.marker
    ensures steps <= longer && IsRun(env, s, longer) && Relayed(env, s, longer, {worker}) && Payable(After(env, s, longer), w)
  {
    longer := steps;
    if PcOf(After(env, s, steps), v) == SweepHolding {
      Extend(env, s, steps, SweepRefund(v, false), {worker});
      longer := steps + [SweepRefund(v, false)];
    }
    Extend(env, s, longer, SweepRestore(v, Applied), {worker});
    longer := longer + [SweepRestore(v, Applied)];
  }

  /** In every reachable state of a failed task that was not paid back, some
      continuation pays it back if and only if the row carries a quota or a sweep
      holds its claim. */
  lemma RefundRecoverableIff(env: Env, s: State, steps: seq<Step>, worker: nat, w: nat)
    requires Init(s) && IsRun(env, s, steps) && Relayed(env, s, steps, {worker})
    requires var t := After(env, s, steps);
      t.db.row.status == Failure && t.db.ledger == [] && PcOf(t, w) == Idle
    ensures var t := After(env, s, steps);
      CanBePaid(env, s, steps, worker) <==> t.db.row.quota > 0 || exists v :: v in t.actors && Holding(t.actors[v].pc)
  {
    SingleWorkerInv(env, s, steps, worker);
    var t := After(env, s, steps);
    if t.db.row.quota > 0 {
      CarriedIsPaid(env, s, steps, worker, w, steps);
    } else if v :| v in t.actors && Holding(t.actors[v].pc) {
      assert ActorOk(t.db, v, t.actors[v]);
      var longer := HolderRestores(env, s, steps, worker, v, w);
      CarriedIsPaid(env, s, steps, worker, w, longer);
    } else if CanBePaid(env, s, steps, worker) {
      UnpayableIsLost(env, t);
      LostStaysUnpaid(env, s, steps, worker);
    }
  }

  lemma UnpayableIsLost(env: Env, t: State)
    requires Inv(env, t) && t.db.row.status == Failure && t.db.ledger == [] && t.db.row.quota == 0
    requires forall v :: v in t.actors ==> !Holding(t.actors[v].pc)
    ensures Lost(t.db)
  {
    forall v | v in t.actors ensures t.db.holder != Some(v) {
      assert ActorOk(t.db, v, t.actors[v]);
    }
  }

  lemma LostStaysUnpaid(env: Env, s: State, steps: seq<Step>, worker: nat)
    requires Init(s) && IsRun(env, s, steps) && Relayed(env, s, steps, {worker}) && Lost(After(env, s, steps).db)
    ensures !CanBePaid(env, s, steps, worker)
  {
    SingleWorkerInv(env, s, steps, worker);
    forall more: seq<Step> | IsRun(env, s, steps + more) && Relayed(env, s, steps + more, {worker})
      ensures After(env, s, steps + more).db.ledger == []
    {
      SingleWorkerInv(env, s, steps + more, worker);
      RunSplit(env, s, steps, more);
      NeverPaid(env, After(env, s, steps), more);
    }
  }

  // ---- Runs in which a charge is lost, or paid twice ------------------------------

  ghost predicate Reaches(env: Env, s: State, t: State, workers: set<nat>) {
    exists steps :: IsRun(env, s, steps) && Relayed(env, s, steps, workers) && After(env, s, steps) == t
  }

  lemma ReachesNext(env: Env, s: State, t: State, step: Step, workers: set<nat>) returns (u: State)
    requires Reaches(env, s, t, workers) && Enabled(t, step)
    requires step.Load? ==> step.w in workers
    requires step.Charge? ==> exists w :: w in workers && PcOf(t, w) != Idle
    ensures u == Next(env, t, step) && Reaches(env, s, u, workers)
  {
    u := Next(env, t, step);
    var steps :| IsRun(env, s, steps) && Relayed(env, s, steps, workers) && After(env, s, steps) == t;
    Extend(env, s, steps, step, workers);
    assert IsRun(env, s, steps + [step]);
  }

  lemma ReachesStart(env: Env, s: State, workers: set<nat>)
    ensures Reaches(env, s, s, workers)
  {
    assert IsRun(env, s, []) && Relayed(env, s, [], workers) && After(env, s, []) == s;
  }

  lemma BeginsAndIsCharged(env: Env, s: State, q: nat, workers: set<nat>) returns (t: State)
    requires Init(s) && s.db.row.status == Queued && 0 in s.actors && 0 in workers && q > 0
    ensures Reaches(env, s, t, workers)
    ensures t.db == s.db.(row := Row(InProgress, 0, false, []), logs := [q]) && t.actors == s.actors[0 := Actor(Running, t.db.row)]
  {
    ReachesStart(env, s, workers);
    t := ReachesNext(env, s, s, Load(0), workers);
    assert t == State(s.db, s.actors[0 := Actor(Loaded, s.db.row)]);
    t := ReachesNext(env, s, t, Start(0, Applied), workers);
    assert t == State(s.db.(row := s.db.row.(status := InProgress)), s.actors[0 := Actor(Running, t.db.row)]);
    t := ReachesNext(env, s, t, Charge(q), workers);
  }

  /** A worker whose relay answers 500 fails the task with what it found. */
  lemma FailsAfterCharge(env: Env, s: State, t: State, w: nat, q: nat, evidence: Evidence, workers: set<nat>) returns (u: State)
    requires Reaches(env, s, t, workers) && PcOf(t, w) == Running && t.actors[w].local == t.db.row
    requires t.db.row.status == InProgress && !t.db.row.marker && t.db.logs == [q] && q > 0
    requires evidence == Written || (evidence == NotFound && t.db.row.quota == 0)
    ensures Reaches(env, s, u, workers)
    ensures var quota := if evidence == Written then q else 0;
      && u.db == t.db.(row := Row(Failure, quota, false, []), failedBy := t.db.failedBy + {w}, failedQuota := quota)
      && u.actors == t.actors[w := Actor(if quota > 0 then Refunding(false) else Returning, u.db.row)]
  {
    u := ReachesNext(env, s, t, Execute(w, [], 500, false), workers);
    u := ReachesNext(env, s, u, Persist(w, evidence), workers);
    u := ReachesNext(env, s, u, Settle(w, false, Applied), workers);
  }

  /** The charge that is not found: when the log query fails or several logs match,
      the worker fails the task without a quota. */
  lemma ChargeNotFound(env: Env, s: State, q: nat) returns (t: State)
    requires Init(s) && s.db.row.status == Queued && 0 in s.actors && q > 0
    ensures Reaches(env, s, t, {0}) && t.db.logs == [q] && t.db.failedQuota == 0 && Lost(t.db)
  {
    t := BeginsAndIsCharged(env, s, q, {0});
    t := FailsAfterCharge(env, s, t, 0, q, NotFound, {0});
  }

  /** The charge that is swept away: the worker's own refund fails, and the sweep
      clears the quota before it calls for the refund, which then finds nothing to
      pay and reports success. */
  lemma ChargeSweptAway(env: Env, s: State, q: nat) returns (t: State)
    requires Init(s) && s.db.row.status == Queued && 0 in s.actors && 1 in s.actors && q > 0
    ensures Reaches(env, s, t, {0}) && t.db.logs == [q] && t.db.failedQuota == q && Lost(t.db)
  {
    t := BeginsAndIsCharged(env, s, q, {0});
    t := FailsAfterCharge(env, s, t, 0, q, Written, {0});
    t := ReachesNext(env, s, t, Refund(0, false), {0});
    t := SweepsAway(env, s, t, 1);
  }

  lemma SweepsAway(env: Env, s: State, t: State, w: nat) returns (u: State)
    requires Reaches(env, s, t, {0}) && Payable(t, w) && t.db.ledger == [] && t.db.holder.None?
    ensures Reaches(env, s, u, {0}) && Lost(u.db) && u.db.logs == t.db.logs && u.db.failedQuota == t.db.failedQuota
  {
    u := ReachesNext(env, s, t, SweepLoad(w), {0});
    u := ReachesNext(env, s, u, SweepClaim(w, Applied), {0});
    u := ReachesNext(env, s, u, SweepRefund(w, true), {0});
  }

  /** A second worker loads the failed row, the first one's refund commits,
      and the second one's start revives the row with the old quota. */
  lemma RevivesPaidTask(env: Env, s: State, t: State, q: nat, workers: set<nat>) returns (u: State)
    requires Reaches(env, s, t, workers) && 1 in workers && q > 0
    requires PcOf(t, 0) == Refunding(false) && t.actors[0].local == t.db.row == Row(Failure, q, false, [])
    requires PcOf(t, 1) == Idle && 1 in t.actors
    ensures Reaches(env, s, u, workers) && u.db.logs == t.db.logs && u.db.ledger == t.db.ledger + [Credit(0, q, false)]
    ensures u.db.row == Row(InProgress, q, false, []) && PcOf(u, 1) == Running && u.actors[1].local == u.db.row
  {
    u := ReachesNext(env, s, t, Load(1), workers);
    u := ReachesNext(env, s, u, Refund(0, true), workers);
    assert u.db.row == Row(Failure, 0, true, []) && u.actors[1] == Actor(Loaded, Row(Failure, q, false, []));
    u := ReachesNext(env, s, u, Start(1, Applied), workers);
  }

  /** A single worker is needed: with two of them, the second loading the failed
      row, the same consume log is paid back twice, for every charge. */
  lemma DoubleRefundWithTwoWorkers(env: Env, s: State, q: nat) returns (t: State)
    requires Init(s) && s.db.row.status == Queued && 0 in s.actors && 1 in s.actors && q > 0
    ensures Reaches(env, s, t, {0, 1})
    ensures t.db.logs == [q] && t.db.ledger == [Credit(0, q, false), Credit(1, q, false)]
  {
    var workers := {0, 1};
    t := BeginsAndIsCharged(env, s, q, workers);
    t := FailsAfterCharge(env, s, t, 0, q, Written, workers);
    t := RevivesPaidTask(env, s, t, q, workers);
    t := FailsAfterCharge(env, s, t, 1, q, Written, workers);
    t := ReachesNext(env, s, t, Refund(1, true), workers);
  }
}
