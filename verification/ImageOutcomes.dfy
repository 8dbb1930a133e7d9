/** What the steps of one image task lead to, path by path: when a relay ends in
    success, what a panic, a lost race, a correlation and a stale claim do. */
module ImageOutcomes {
  import opened Common
  import opened ImageTask
  import opened ResponseRecorder

  /** A worker's relay from its execution to the end, with any steps of others in
      between (the three databases). The task succeeds with the whole trimmed
      response if and only if it was in time, fits the limit, has a 2xx status, is
      a valid result and is not blank; otherwise it fails. The money is not touched. */
  lemma RelayOutcome(env: Env, atExecute: Db, atPersist: Db, d: Db, w: nat, a: Actor, writes: seq<Bytes>, code: int, timedOut: bool,
                     evidence: Evidence, valid: bool, outcome: Outcome)
    requires a.pc == Running && !Terminal(a.local.status) && d.row.status == a.local.status && outcome != NotApplied
    requires evidence == NotFound || |atPersist.logs| >= 1
    ensures var executed := Act(env, atExecute, w, a, Execute(w, writes, code, timedOut));
      var persisted := Act(env, atPersist, w, executed.actor, Persist(w, evidence));
      var settled := Act(env, d, w, persisted.actor, Settle(w, valid, outcome));
      var all := Concat(writes);
      var good := !timedOut && |all| <= (if env.limit < 0 then 0 else env.limit) && 200 <= code < 300 && valid && env.trim(all) != [];
      var quota := if evidence == NotFound then a.local.quota else atPersist.logs[0];
      && executed.db == atExecute
      && settled.db.ledger == d.ledger && settled.db.logs == d.logs
      && settled.db.row.quota == quota
      && (good ==> settled.db.row.status == Success && settled.db.row.data == env.trim(all) && settled.db.failedBy == d.failedBy
                   && settled.actor.pc == Returning)
      && (!good ==> settled.db.row.status == Failure && settled.db.row.data == [] && settled.db.failedBy == d.failedBy + {w}
                    && (settled.actor.pc == Refunding(false) <==> outcome == Applied && quota > 0))
  {
    CapturedIff(env.limit, Concat(writes));
  }

  lemma CapturedIff(limit: int, all: Bytes)
    ensures Captured(limit, all).overflow <==> |all| > if limit < 0 then 0 else limit
    ensures !Captured(limit, all).overflow ==> Captured(limit, all).body == all
  {
  }

  /** A panic anywhere on the way makes the worker correlate its charge... */
  lemma PanicPath(env: Env, atPanic: Db, atPersist: Db, w: nat, a: Actor, evidence: Evidence)
    requires a.pc in {Loaded, Running, Returning, Refunding(false)} || a.pc.Executed? || a.pc.Settling?
    requires evidence == NotFound || |atPersist.logs| >= 1
    ensures var panicked := Act(env, atPanic, w, a, Panic(w));
      && panicked == Moved(atPanic, Actor(Panicking, a.local))
      && Act(env, atPersist, w, panicked.actor, Persist(w, evidence)).actor
         == Actor(PanicSettling, if evidence == NotFound then a.local else a.local.(quota := atPersist.logs[0]))
  {
  }

  /** ...and then fails the task, which leads to the refund of what was found. */
  lemma PanicOutcome(env: Env, d: Db, w: nat, local: Row, outcome: Outcome)
    requires !Terminal(local.status) && d.row.status == local.status && outcome != NotApplied
    ensures var failed := Act(env, d, w, Actor(PanicSettling, local), PanicFail(w, outcome));
      && failed.db.row == Row(Failure, local.quota, local.marker, [])
      && failed.db.failedBy == d.failedBy + {w} && failed.db.ledger == d.ledger
      && (failed.actor.pc == Refunding(false) <==> outcome == Applied && local.quota > 0)
  {
  }

  /** A worker that lost the row leaves it alone, whatever it had to report. */
  lemma LoserLeavesRow(env: Env, d: Db, w: nat, a: Actor, valid: bool, outcome: Outcome)
    requires a.pc.Settling? && (Terminal(a.local.status) || d.row.status != a.local.status)
    ensures var settled := Act(env, d, w, a, Settle(w, valid, outcome)); settled.db == d && settled.actor.pc == Returning
  {
  }

  /** A correlation writes the charge, and nothing else, to a row that is still
      active. */
  lemma PersistOutcome(env: Env, d: Db, w: nat, a: Actor)
    requires (a.pc.Executed? || a.pc == Panicking) && |d.logs| >= 1 && !a.local.marker && !d.row.marker
    ensures var persisted := Act(env, d, w, a, Persist(w, Written));
      && persisted.actor.local == a.local.(quota := d.logs[0])
      && persisted.db == (if d.row.status in {NotStart, Submitted, Queued, InProgress} then d.(row := d.row.(quota := d.logs[0])) else d)
  {
  }

  /** A stale task backed by a consume log is failed with its charge... */
  lemma StaleTaskFails(env: Env, d: Db, w: nat, a: Actor)
    requires a.pc == Idle && |d.logs| >= 1 && d.logs[0] > 0 && !d.row.marker
    requires d.row.status in {NotStart, Submitted, Queued, InProgress}
    ensures var loaded := Act(env, d, w, a, StaleLoad(w));
      && loaded == Moved(d, Actor(StaleLoaded, d.row))
      && var claimed := Act(env, d, w, loaded.actor, StaleClaim(w, Applied));
         claimed.db.row == Row(Failure, d.logs[0], false, []) && claimed.db.ledger == d.ledger
         && claimed.actor == Actor(Refunding(false), claimed.db.row)
  {
  }

  /** ...and a refund that is due pays the quota of the row, once. */
  lemma RefundOutcome(env: Env, d: Db, w: nat, a: Actor)
    requires a.pc.Refunding? && d.row.quota == a.local.quota > 0 && !d.row.marker
    ensures var paid := Act(env, d, w, a, Refund(w, true));
      && paid.db == d.(row := d.row.(quota := 0, marker := true), ledger := d.ledger + [Credit(w, a.local.quota, a.pc.retry)])
      && forall v, b: Actor :: b.pc.Refunding? ==> Act(env, paid.db, v, b, Refund(v, true)).db == paid.db
  {
  }

  /** Retention drops the payload of a finished task and nothing else; settling a
      refund drops its record and nothing else; neither can happen before. */
  lemma MaintenanceOutcome(env: Env, s: State)
    ensures Enabled(s, ClearData) <==> s.db.row.status == Failure || s.db.row.status == Success
    ensures Enabled(s, ClearData) ==> var t := Next(env, s, ClearData);
      t.actors == s.actors && t.db.row == s.db.row.(data := []) && t.db.ledger == s.db.ledger && t.db.logs == s.db.logs
    ensures Enabled(s, SettleMarker) <==> s.db.row.marker && s.db.row.quota == 0
    ensures Enabled(s, SettleMarker) ==> var t := Next(env, s, SettleMarker);
      t.actors == s.actors && t.db == s.db.(row := s.db.row.(marker := false))
  {
  }
}
