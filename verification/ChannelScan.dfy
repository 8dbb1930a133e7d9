/** The batched scan over enabled channels by an id cursor, used by the upstream
    model task and by "apply all" (controller/channel_upstream_update.go). The
    table is unchanged during the scan; `ids` are the enabled channels' ids in
    primary-key order. */
module ChannelScan {
  import opened Common

  predicate Ascending(ids: seq<int>) {
    forall i, j :: 0 <= i < j < |ids| ==> ids[i] < ids[j]
  }

  /** WHERE id > lastID ORDER BY id */
  function Above(ids: seq<int>, lastID: int): (r: seq<int>) {
    if ids == [] then [] else if ids[0] > lastID then ids else Above(ids[1..], lastID)
  }

  /** One query; the cursor condition is only added for a positive cursor. */
  function Query(ids: seq<int>, lastID: int, limit: nat): (batch: seq<int>) {
    First(if lastID > 0 then Above(ids, lastID) else ids, limit)
  }

  /** The cursor moves past the first batch. */
  predicate Advances(ids: seq<int>, batchSize: nat)
    requires batchSize >= 1
  {
    |ids| < batchSize || ids[batchSize - 1] > 0
  }

  lemma {:induction false} AboveIsRest(ids: seq<int>, k: nat)
    requires Ascending(ids) && 1 <= k <= |ids|
    ensures Above(ids, ids[k - 1]) == ids[k..]
  {
    if k == 1 {
      if |ids| > 1 {
        assert ids[1..][0] == ids[1];
      }
    } else {
      AboveIsRest(ids[1..], k - 1);
      assert ids[1..][k - 1..] == ids[k..];
    }
  }

  /** The cursor stands right after the channels done so far. */
  predicate At(ids: seq<int>, done: nat, lastID: int) {
    done <= |ids| && if done == 0 then lastID == 0 else lastID == ids[done - 1] && lastID > 0
  }

  /** The next query returns the next stretch of the table. */
  lemma NextBatch(ids: seq<int>, done: nat, lastID: int, batchSize: nat)
    requires Ascending(ids) && batchSize >= 1 && At(ids, done, lastID)
    ensures var batch := Query(ids, lastID, batchSize);
      && done + |batch| <= |ids| && batch == ids[done..done + |batch|] && |batch| <= batchSize
      && ids[..done] + batch == ids[..done + |batch|]
      && (|batch| < batchSize ==> done + |batch| == |ids|)
  {
    if done > 0 {
      AboveIsRest(ids, done);
    }
    var batch := Query(ids, lastID, batchSize);
    assert batch == First(ids[done..], batchSize);
  }

  lemma NextCursor(ids: seq<int>, done: nat, lastID: int, batchSize: nat)
    requires Ascending(ids) && batchSize >= 1 && Advances(ids, batchSize) && At(ids, done, lastID)
    requires |Query(ids, lastID, batchSize)| == batchSize
    ensures var batch := Query(ids, lastID, batchSize); At(ids, done + batchSize, batch[|batch| - 1])
  {
    NextBatch(ids, done, lastID, batchSize);
  }

  /** The inner loop over one batch. */
  method Process(channels: seq<int>, patience: nat) returns (taken: seq<int>)
    ensures taken == First(channels, patience)
  {
    taken := [];
    for i := 0 to |channels|
      invariant taken == channels[..i] && i <= patience
    {
      if |taken| >= patience { return; }
      taken := taken + [channels[i]];
    }
  }

  lemma TakeMore(ids: seq<int>, done: nat, batch: seq<int>, taken: seq<int>)
    requires done + |batch| <= |ids| && batch == ids[done..done + |batch|] && taken <= batch
    ensures ids[..done] + taken == ids[..done + |taken|]
  {
  }

  /** The scan processes the channels in id order, each one once; `patience` is
      how many it processes before it notices a cancellation. Without one it
      covers the whole table. */
  method Scan(ids: seq<int>, batchSize: nat, patience: nat) returns (visited: seq<int>)
    requires Ascending(ids) && batchSize >= 1 && Advances(ids, batchSize)
    ensures visited == First(ids, patience)
  {
    visited := [];
    var lastID := 0;
    while true
      invariant |visited| <= patience && At(ids, |visited|, lastID) && visited == ids[..|visited|]
      decreases |ids| - |visited|
    {
      ghost var done := |visited|;
      var channels := Query(ids, lastID, batchSize);
      NextBatch(ids, done, lastID, batchSize);
      if |channels| == 0 { break; }
      if |channels| == batchSize {
        NextCursor(ids, done, lastID, batchSize);
      }
      lastID := channels[|channels| - 1];
      var taken := Process(channels, patience - |visited|);
      TakeMore(ids, done, channels, taken);
      visited := visited + taken;
      if |taken| < |channels| || |channels| < batchSize { break; }
    }
  }

  // ---- When the scan ends ------------------------------------------------------

  datatype Progress = Progress(lastID: int, visited: seq<int>, finished: bool)

  /** One turn of the loop. */
  function Turn(ids: seq<int>, batchSize: nat, p: Progress): (q: Progress) {
    var batch := Query(ids, p.lastID, batchSize);
    if p.finished then p
    else if batch == [] then p.(finished := true)
    else Progress(batch[|batch| - 1], p.visited + batch, |batch| < batchSize)
  }

  /** The scan after n turns, never cancelled. */
  function After(ids: seq<int>, batchSize: nat, n: nat): (p: Progress) {
    if n == 0 then Progress(0, [], false) else Turn(ids, batchSize, After(ids, batchSize, n - 1))
  }

  lemma {:induction false} Stuck(ids: seq<int>, batchSize: nat, n: nat)
    requires batchSize >= 1 && !Advances(ids, batchSize)
    ensures var p := After(ids, batchSize, n); !p.finished && p.lastID <= 0 && |p.visited| == n * batchSize
  {
    if n == 0 {
    } else {
      Stuck(ids, batchSize, n - 1);
      assert n * batchSize == (n - 1) * batchSize + batchSize;
    }
  }

  predicate OnTrack(ids: seq<int>, p: Progress, n: nat) {
    if p.finished then p.visited == ids
    else n <= |p.visited| && At(ids, |p.visited|, p.lastID) && p.visited == ids[..|p.visited|]
  }

  /** A batch that is not full is the rest of the table. */
  lemma LastTurn(ids: seq<int>, done: nat, lastID: int, batchSize: nat)
    requires Ascending(ids) && batchSize >= 1 && Advances(ids, batchSize) && At(ids, done, lastID)
    requires |Query(ids, lastID, batchSize)| < batchSize
    ensures done <= |ids| && ids[..done] + Query(ids, lastID, batchSize) == ids
  {
    NextBatch(ids, done, lastID, batchSize);
    assert ids[..done] + ids[done..] == ids;
  }

  lemma FullTurn(ids: seq<int>, done: nat, lastID: int, batchSize: nat)
    requires Ascending(ids) && batchSize >= 1 && Advances(ids, batchSize) && At(ids, done, lastID)
    requires |Query(ids, lastID, batchSize)| == batchSize
    ensures var batch := Query(ids, lastID, batchSize);
      && done + batchSize <= |ids| && At(ids, done + batchSize, batch[|batch| - 1])
      && ids[..done] + batch == ids[..done + batchSize]
  {
    NextBatch(ids, done, lastID, batchSize);
    NextCursor(ids, done, lastID, batchSize);
  }

  lemma TurnOnTrack(ids: seq<int>, batchSize: nat, p: Progress, n: nat)
    requires Ascending(ids) && batchSize >= 1 && Advances(ids, batchSize) && OnTrack(ids, p, n)
    ensures OnTrack(ids, Turn(ids, batchSize, p), n + 1)
  {
    if !p.finished {
      if |Query(ids, p.lastID, batchSize)| < batchSize {
        LastTurn(ids, |p.visited|, p.lastID, batchSize);
      } else {
        FullTurn(ids, |p.visited|, p.lastID, batchSize);
      }
    }
  }

  lemma {:induction false} Progresses(ids: seq<int>, batchSize: nat, n: nat)
    requires Ascending(ids) && batchSize >= 1 && Advances(ids, batchSize)
    ensures OnTrack(ids, After(ids, batchSize, n), n)
  {
    if n == 0 {
      assert ids[..0] == [];
    } else {
      Progresses(ids, batchSize, n - 1);
      var before := After(ids, batchSize, n - 1);
      TurnOnTrack(ids, batchSize, before, n - 1);
      assert After(ids, batchSize, n) == Turn(ids, batchSize, before);
    }
  }

  /** The scan ends, having processed every channel exactly once in id order, if
      and only if the table is smaller than a batch or the first batch ends in a
      positive id. Positive ids, which the primary key gives, are enough. */
  lemma EndsIff(ids: seq<int>, batchSize: nat)
    requires Ascending(ids) && batchSize >= 1
    ensures (exists n: nat :: After(ids, batchSize, n).finished && After(ids, batchSize, n).visited == ids) <==> Advances(ids, batchSize)
    ensures (forall i :: 0 <= i < |ids| ==> ids[i] > 0) ==> Advances(ids, batchSize)
  {
    if Advances(ids, batchSize) {
      Progresses(ids, batchSize, |ids| + 1);
      assert After(ids, batchSize, |ids| + 1).finished;
    } else {
      forall n: nat ensures !After(ids, batchSize, n).finished {
        Stuck(ids, batchSize, n);
      }
    }
  }
}
