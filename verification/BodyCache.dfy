/** Creation and closing of body storages with the global usage counters
    (common/body_storage.go, common/disk_cache_config.go). */
module BodyCache {
  import opened Common

  function Successor(n: int): int { Wrap(n + 1) }

  /** io.LimitReader followed by reading everything. */
  function Limited(stream: Bytes, n: int): (r: Bytes) {
    if n <= 0 then [] else if |stream| <= n then stream else stream[..n]
  }

  datatype Config = Config(enabled: bool, threshold: int, budget: int)

  datatype Stats = Stats(diskFiles: int, diskBytes: int, memoryBuffers: int, memoryBytes: int, diskHits: int, memoryHits: int)

  /** `streamed` says that the storage was created from a request stream. */
  datatype Body = Body(disk: bool, data: Bytes, open: bool, streamed: bool)

  /** The counters and every storage ever created. */
  datatype World = World(stats: Stats, bodies: seq<Body>)

  datatype Result = Stored(data: Bytes, disk: bool) | TooLarge | ReadFailed | DiskFailed

  predicate Available(cfg: Config, w: World, size: int) {
    cfg.enabled && Wrap(w.stats.diskBytes + size) <= cfg.budget
  }

  function Opened(w: World, disk: bool, data: Bytes, streamed: bool): World {
    World(if disk then w.stats.(diskFiles := w.stats.diskFiles + 1, diskBytes := w.stats.diskBytes + |data|)
          else w.stats.(memoryBuffers := w.stats.memoryBuffers + 1, memoryBytes := w.stats.memoryBytes + |data|),
          w.bodies + [Body(disk, data, true, streamed)])
  }

  /** CreateBodyStorage: whether the payload goes to disk. A disk failure falls
      back to memory. */
  predicate ToDisk(cfg: Config, w: World, size: nat, fault: bool) {
    cfg.enabled && size >= cfg.threshold && Available(cfg, w, size) && !fault
  }

  function Served(w: World, disk: bool, data: Bytes): World {
    var next := Opened(w, disk, data, true);
    next.(stats := if disk then next.stats.(diskHits := w.stats.diskHits + 1) else next.stats.(memoryHits := w.stats.memoryHits + 1))
  }

  predicate Streams(cfg: Config, w: World, declared: int) {
    cfg.enabled && declared > 0 && declared >= cfg.threshold && Available(cfg, w, declared)
  }

  function Clamped(n: int): int { if n < 0 then 0 else n }

  /** Closing is idempotent; only the first close gives the usage back. */
  function Closed(w: World, i: nat): World
    requires i < |w.bodies|
  {
    var b := w.bodies[i];
    if !b.open then w
    else
      w.(bodies := w.bodies[i := b.(open := false)],
         stats := if b.disk then w.stats.(diskFiles := Clamped(w.stats.diskFiles - 1), diskBytes := Clamped(w.stats.diskBytes - |b.data|))
                  else w.stats.(memoryBuffers := w.stats.memoryBuffers - 1, memoryBytes := w.stats.memoryBytes - |b.data|))
  }

  class Cache {
    const cfg: Config
    var stats: Stats
    var bodies: seq<Body>

    function View(): World
      reads this
    {
      World(stats, bodies)
    }

    constructor (cfg: Config)
      ensures this.cfg == cfg && View() == World(Stats(0, 0, 0, 0, 0, 0), [])
    {
      this.cfg := cfg;
      stats, bodies := Stats(0, 0, 0, 0, 0, 0), [];
    }

    method NewMemoryStorage(data: Bytes, streamed: bool)
      modifies this
      ensures View() == Opened(old(View()), false, data, streamed)
    {
      stats := stats.(memoryBuffers := stats.memoryBuffers + 1);
      stats := stats.(memoryBytes := stats.memoryBytes + |data|);
      bodies := bodies + [Body(false, data, true, streamed)];
    }

    method NewDiskStorage(data: Bytes, streamed: bool)
      modifies this
      ensures View() == Opened(old(View()), true, data, streamed)
    {
      stats := stats.(diskFiles := stats.diskFiles + 1);
      stats := stats.(diskBytes := stats.diskBytes + |data|);
      bodies := bodies + [Body(true, data, true, streamed)];
    }

    /** `fault` is a failure while creating or writing the cache file. */
    method Create(data: Bytes, fault: bool, streamed: bool) returns (disk: bool)
      modifies this
      ensures disk == ToDisk(cfg, old(View()), |data|, fault)
      ensures View() == Opened(old(View()), disk, data, streamed)
    {
      if cfg.enabled && |data| >= cfg.threshold && Wrap(stats.diskBytes + |data|) <= cfg.budget {
        if !fault {
          NewDiskStorage(data, streamed);
          return true;
        }
      }
      NewMemoryStorage(data, streamed);
      return false;
    }

    /** A failed creation of any kind leaves the world as it was. */
    method CreateFromReader(stream: Bytes, declared: int, maxBytes: int, fault: bool, readFault: bool) returns (r: Result)
      requires MIN_INT64 <= maxBytes <= MAX_INT64
      modifies this
      ensures !r.Stored? ==> View() == old(View())
      ensures r.Stored? ==> View() == Served(old(View()), r.disk, r.data)
      ensures r == FromReader(cfg, old(View()), stream, declared, maxBytes, fault, readFault)
    {
      if cfg.enabled && declared > 0 && declared >= cfg.threshold && Wrap(stats.diskBytes + declared) <= cfg.budget {
        if fault || readFault { return DiskFailed; }
        var written := Limited(stream, Successor(maxBytes));
        if |written| > maxBytes { return TooLarge; }
        NewDiskStorage(written, true);
        stats := stats.(diskHits := stats.diskHits + 1);
        return Stored(written, true);
      }
      if readFault { return ReadFailed; }
      var data := Limited(stream, Successor(maxBytes));
      if |data| > maxBytes { return TooLarge; }
      var disk := Create(data, fault, true);
      if !disk {
        stats := stats.(memoryHits := stats.memoryHits + 1);
      } else {
        stats := stats.(diskHits := stats.diskHits + 1);
      }
      return Stored(data, disk);
    }

    method Close(i: nat)
      requires i < |bodies|
      modifies this
      ensures View() == Closed(old(View()), i)
    {
      var b := bodies[i];
      if b.open {
        bodies := bodies[i := b.(open := false)];
        if b.disk {
          stats := stats.(diskFiles := stats.diskFiles - 1);
          if stats.diskFiles < 0 { stats := stats.(diskFiles := 0); }
          stats := stats.(diskBytes := stats.diskBytes - |b.data|);
          if stats.diskBytes < 0 { stats := stats.(diskBytes := 0); }
        } else {
          stats := stats.(memoryBuffers := stats.memoryBuffers - 1);
          stats := stats.(memoryBytes := stats.memoryBytes - |b.data|);
        }
      }
    }
  }

  /** The answer of CreateBodyStorageFromReader. */
  function FromReader(cfg: Config, w: World, stream: Bytes, declared: int, maxBytes: int, fault: bool, readFault: bool): (r: Result) {
    var data := Limited(stream, Successor(maxBytes));
    if Streams(cfg, w, declared) then
      if fault || readFault then DiskFailed else if |data| > maxBytes then TooLarge else Stored(data, true)
    else if readFault then ReadFailed
    else if |data| > maxBytes then TooLarge
    else Stored(data, ToDisk(cfg, w, |data|, fault))
  }

  /** What a caller wants: the whole stream, or a refusal. */
  predicate Faithful(stream: Bytes, maxBytes: int, r: Result) {
    if |stream| <= maxBytes then r.Stored? && r.data == stream else r == TooLarge
  }

  /** When nothing fails, whatever the path taken (memory, disk, memory then
      disk), the answer is faithful if and only if the limit is not the largest
      int64, whose successor wraps, or the stream is empty. */
  lemma FromReaderFaithfulIff(cfg: Config, w: World, stream: Bytes, declared: int, maxBytes: int)
    requires MIN_INT64 <= maxBytes <= MAX_INT64
    ensures Faithful(stream, maxBytes, FromReader(cfg, w, stream, declared, maxBytes, false, false))
       <==> maxBytes != MAX_INT64 || stream == []
  {
  }

  /** Where a stored stream ends up, when nothing fails: on disk if and only if the
      cache is enabled and either the declared length or what was read reaches the
      threshold (a declared length only if it is positive) and fits the budget. */
  lemma StoredOnDiskIff(cfg: Config, w: World, stream: Bytes, declared: int, maxBytes: int)
    requires |stream| <= maxBytes < MAX_INT64 && 0 <= w.stats.diskBytes <= MAX_INT64 && declared <= MAX_INT64
    ensures var r := FromReader(cfg, w, stream, declared, maxBytes, false, false); var used := w.stats.diskBytes;
      && r.Stored? && r.data == stream
      && (r.disk <==> cfg.enabled && ((declared > 0 && declared >= cfg.threshold && Wrap(used + declared) <= cfg.budget)
                                      || (|stream| >= cfg.threshold && Wrap(used + |stream|) <= cfg.budget)))
  {
  }

  /** A fault of the disk refuses a stream that was to go there, and leaves any other
      in memory; a fault of the stream refuses it on either path. */
  lemma FaultyStream(cfg: Config, w: World, stream: Bytes, declared: int, maxBytes: int, fault: bool, readFault: bool)
    requires |stream| <= maxBytes < MAX_INT64 && (fault || readFault)
    ensures var direct := cfg.enabled && declared > 0 && declared >= cfg.threshold && Wrap(w.stats.diskBytes + declared) <= cfg.budget;
      FromReader(cfg, w, stream, declared, maxBytes, fault, readFault)
      == if direct then DiskFailed else if readFault then ReadFailed else Stored(stream, false)
  {
  }

  // ---- Runs ---------------------------------------------------------------------------------

  datatype Step =
    | CreateStep(data: Bytes, fault: bool)
    | FromReaderStep(stream: Bytes, declared: int, maxBytes: int, fault: bool, readFault: bool)
    | CloseStep(i: nat)

  function Next(cfg: Config, w: World, step: Step): (v: World) {
    match step
    case CreateStep(data, fault) => Opened(w, ToDisk(cfg, w, |data|, fault), data, false)
    case FromReaderStep(stream, declared, maxBytes, fault, readFault) =>
      var r := FromReader(cfg, w, stream, declared, maxBytes, fault, readFault);
      if r.Stored? then Served(w, r.disk, r.data) else w
    case CloseStep(i) => if i < |w.bodies| then Closed(w, i) else w
  }

  function Run(cfg: Config, w: World, steps: seq<Step>): (v: World)
    decreases |steps|
  {
    if steps == [] then w else Run(cfg, Next(cfg, w, steps[0]), steps[1..])
  }

  function OpenCount(bodies: seq<Body>, disk: bool): (n: nat) {
    if bodies == [] then 0
    else
      var last := bodies[|bodies| - 1];
      OpenCount(bodies[..|bodies| - 1], disk) + (if last.open && last.disk == disk then 1 else 0)
  }

  function OpenBytes(bodies: seq<Body>, disk: bool): (n: nat) {
    if bodies == [] then 0
    else
      var last := bodies[|bodies| - 1];
      OpenBytes(bodies[..|bodies| - 1], disk) + (if last.open && last.disk == disk then |last.data| else 0)
  }

  /** How many storages were created from a stream, on disk or in memory. */
  function StreamedCount(bodies: seq<Body>, disk: bool): (n: nat) {
    if bodies == [] then 0
    else
      var last := bodies[|bodies| - 1];
      StreamedCount(bodies[..|bodies| - 1], disk) + (if last.streamed && last.disk == disk then 1 else 0)
  }

  /** The counters say exactly what is open, and each kind of hit counts the
      streams that were stored there. */
  predicate Balanced(w: World) {
    && w.stats.diskFiles == OpenCount(w.bodies, true) && w.stats.diskBytes == OpenBytes(w.bodies, true)
    && w.stats.memoryBuffers == OpenCount(w.bodies, false) && w.stats.memoryBytes == OpenBytes(w.bodies, false)
    && w.stats.diskHits == StreamedCount(w.bodies, true) && w.stats.memoryHits == StreamedCount(w.bodies, false)
  }

  lemma CountsSnoc(bodies: seq<Body>, last: Body, disk: bool)
    ensures var all := bodies + [last];
      && OpenCount(all, disk) == OpenCount(bodies, disk) + (if last.open && last.disk == disk then 1 else 0)
      && OpenBytes(all, disk) == OpenBytes(bodies, disk) + (if last.open && last.disk == disk then |last.data| else 0)
      && StreamedCount(all, disk) == StreamedCount(bodies, disk) + (if last.streamed && last.disk == disk then 1 else 0)
  {
    var all := bodies + [last];
    assert all[..|all| - 1] == bodies;
  }

  lemma OpenedBalanced(w: World, disk: bool, data: Bytes)
    requires Balanced(w)
    ensures Balanced(Opened(w, disk, data, false)) && Balanced(Served(w, disk, data))
  {
    forall kind: bool, streamed: bool ensures
      && OpenCount(w.bodies + [Body(disk, data, true, streamed)], kind) == OpenCount(w.bodies, kind) + (if disk == kind then 1 else 0)
      && OpenBytes(w.bodies + [Body(disk, data, true, streamed)], kind) == OpenBytes(w.bodies, kind) + (if disk == kind then |data| else 0)
      && StreamedCount(w.bodies + [Body(disk, data, true, streamed)], kind) == StreamedCount(w.bodies, kind) + (if streamed && disk == kind then 1 else 0)
    {
      CountsSnoc(w.bodies, Body(disk, data, true, streamed), kind);
    }
  }

  lemma {:induction false} CloseCounts(bodies: seq<Body>, i: nat, disk: bool)
    requires i < |bodies| && bodies[i].open
    ensures var after := bodies[i := bodies[i].(open := false)];
      && OpenCount(after, disk) == OpenCount(bodies, disk) - (if bodies[i].disk == disk then 1 else 0)
      && OpenBytes(after, disk) == OpenBytes(bodies, disk) - (if bodies[i].disk == disk then |bodies[i].data| else 0)
      && StreamedCount(after, disk) == StreamedCount(bodies, disk)
  {
    var after := bodies[i := bodies[i].(open := false)];
    var init, last := bodies[..|bodies| - 1], bodies[|bodies| - 1];
    CountsSnoc(init, last, disk);
    assert bodies == init + [last];
    if i == |init| {
      assert after == init + [last.(open := false)];
      CountsSnoc(init, last.(open := false), disk);
    } else {
      var changed := init[i := init[i].(open := false)];
      assert after == changed + [last];
      CountsSnoc(changed, last, disk);
      CloseCounts(init, i, disk);
    }
  }

  /** Closing keeps the balance, and neither clamp to zero ever changes a value. */
  lemma ClosedBalanced(w: World, i: nat)
    requires Balanced(w) && i < |w.bodies|
    ensures Balanced(Closed(w, i))
    ensures w.bodies[i].open && w.bodies[i].disk ==> w.stats.diskFiles - 1 >= 0 && w.stats.diskBytes - |w.bodies[i].data| >= 0
  {
    if w.bodies[i].open {
      CloseCounts(w.bodies, i, true);
      CloseCounts(w.bodies, i, false);
    }
  }

  lemma NextBalanced(cfg: Config, w: World, step: Step)
    requires Balanced(w)
    ensures Balanced(Next(cfg, w, step))
  {
    match step
    case CreateStep(data, fault) => OpenedBalanced(w, ToDisk(cfg, w, |data|, fault), data);
    case FromReaderStep(stream, declared, maxBytes, fault, readFault) =>
      var r := FromReader(cfg, w, stream, declared, maxBytes, fault, readFault);
      if r.Stored? {
        OpenedBalanced(w, r.disk, r.data);
      }
    case CloseStep(i) =>
      if i < |w.bodies| {
        ClosedBalanced(w, i);
      }
  }

  /** Over every run of creations, failures and repeated closes the counters
      equal the number and total size of the open storages. */
  lemma {:induction false} RunBalanced(cfg: Config, w: World, steps: seq<Step>)
    requires Balanced(w)
    ensures Balanced(Run(cfg, w, steps))
    decreases |steps|
  {
    if steps == [] {
    } else {
      NextBalanced(cfg, w, steps[0]);
      RunBalanced(cfg, Next(cfg, w, steps[0]), steps[1..]);
    }
  }

  // ---- The disk budget --------------------------------------------------------------------------

  predicate WithinBudget(cfg: Config, w: World) {
    w.stats.diskBytes <= cfg.budget
  }

  /** What a stream step reads. */
  function Payload(step: Step): (data: Bytes)
    requires step.FromReaderStep?
  {
    Limited(step.stream, Successor(step.maxBytes))
  }

  /** The declared length covers what is read from the stream. */
  predicate Honest(step: Step) {
    step.FromReaderStep? ==> |Payload(step)| <= step.declared || step.declared <= 0
  }

  /** Added to any usage within the budget, no length of the step wraps. */
  predicate Modest(cfg: Config, step: Step) {
    match step
    case CreateStep(data, _) => cfg.budget + |data| <= MAX_INT64
    case FromReaderStep(_, declared, _, _, _) => cfg.budget + declared <= MAX_INT64 && cfg.budget + |Payload(step)| <= MAX_INT64
    case CloseStep(_) => true
  }

  lemma StepKeepsBudget(cfg: Config, w: World, step: Step)
    requires Balanced(w) && WithinBudget(cfg, w) && Honest(step) && Modest(cfg, step)
    ensures WithinBudget(cfg, Next(cfg, w, step))
  {
    if step.CloseStep? && step.i < |w.bodies| {
      ClosedBalanced(w, step.i);
    }
  }

  /** Over every run whose declared lengths cover the real ones, and stay clear of
      the wrap-around, the budget is kept. */
  lemma {:induction false} HonestRunsStayWithinBudget(cfg: Config, w: World, steps: seq<Step>)
    requires Balanced(w) && WithinBudget(cfg, w) && forall step :: step in steps ==> Honest(step) && Modest(cfg, step)
    ensures WithinBudget(cfg, Run(cfg, w, steps))
    decreases |steps|
  {
    if steps == [] {
    } else {
      assert steps[0] in steps && forall step :: step in steps[1..] ==> step in steps;
      NextBalanced(cfg, w, steps[0]);
      StepKeepsBudget(cfg, w, steps[0]);
      HonestRunsStayWithinBudget(cfg, Next(cfg, w, steps[0]), steps[1..]);
    }
  }

  /** A world with one open body of the given size on disk. */
  function Holding(size: nat): (w: World) {
    World(Stats(1, size, 0, 0, 0, 0), [Body(true, seq(size, _ => 0), true, false)])
  }

  lemma HoldingBalanced(size: nat)
    ensures Balanced(Holding(size))
  {
    var bodies := Holding(size).bodies;
    assert bodies[..|bodies| - 1] == [];
    assert OpenCount([], true) == 0 && OpenCount([], false) == 0 && OpenBytes([], true) == 0 && OpenBytes([], false) == 0;
    assert OpenCount(bodies, true) == 1 && OpenCount(bodies, false) == 0;
    assert OpenBytes(bodies, true) == size && OpenBytes(bodies, false) == 0;
    assert StreamedCount([], true) == 0 && StreamedCount([], false) == 0;
    assert StreamedCount(bodies, true) == 0 && StreamedCount(bodies, false) == 0;
  }

  ghost predicate KeepsBudget(cfg: Config, step: Step) {
    forall w: World :: Balanced(w) && WithinBudget(cfg, w) ==> WithinBudget(cfg, Next(cfg, w, step))
  }

  /** A given payload is safe in every state if and only if it is never sent to
      disk, is empty, or cannot make the sum wrap. */
  lemma CreateKeepsBudgetIff(cfg: Config, data: Bytes, fault: bool)
    requires cfg.budget <= MAX_INT64 && |data| <= MAX_INT64
    ensures KeepsBudget(cfg, CreateStep(data, fault))
       <==> !cfg.enabled || fault || |data| < cfg.threshold || data == [] || cfg.budget < 0 || cfg.budget + |data| <= MAX_INT64
  {
    var step := CreateStep(data, fault);
    if cfg.budget >= 0 && cfg.budget + |data| > MAX_INT64 {
      HoldingBalanced(cfg.budget);
      assert ToDisk(cfg, Holding(cfg.budget), |data|, fault) ==> Next(cfg, Holding(cfg.budget), step).stats.diskBytes == cfg.budget + |data|;
    } else {
      forall w: World | Balanced(w) && WithinBudget(cfg, w) ensures WithinBudget(cfg, Next(cfg, w, step)) {
        assert w.stats.diskBytes >= 0;
      }
    }
  }

  /** Streaming a payload of `size` bytes under a declared length is safe when it
      is empty, or when the declared length, which cannot make the sum wrap, covers
      it or alone exceeds the budget. */
  predicate SafeToStream(cfg: Config, declared: int, size: nat) {
    size == 0 || cfg.budget < 0 || (cfg.budget + declared <= MAX_INT64 && (size <= declared || declared > cfg.budget))
  }

  /** The condition is exact: every state that admits the stream to disk stays
      within the budget if and only if the payload is refused or safe. */
  lemma StreamKeepsBudgetIff(cfg: Config, stream: Bytes, declared: int, maxBytes: int)
    requires cfg.enabled && 0 < declared <= MAX_INT64 && declared >= cfg.threshold && cfg.budget <= MAX_INT64
    ensures var step := FromReaderStep(stream, declared, maxBytes, false, false); var size := |Payload(step)|;
      (forall w: World :: Balanced(w) && WithinBudget(cfg, w) && Streams(cfg, w, declared) ==> WithinBudget(cfg, Next(cfg, w, step)))
      <==> size > maxBytes || SafeToStream(cfg, declared, size)
  {
    var step := FromReaderStep(stream, declared, maxBytes, false, false);
    var size := |Payload(step)|;
    if size <= maxBytes && !SafeToStream(cfg, declared, size) {
      var used := if cfg.budget + declared > MAX_INT64 then cfg.budget else cfg.budget - declared;
      HoldingBalanced(used);
      assert Streams(cfg, Holding(used), declared);
      assert Next(cfg, Holding(used), step).stats.diskBytes == used + size;
    } else {
      forall w: World | Balanced(w) && WithinBudget(cfg, w) && Streams(cfg, w, declared) ensures WithinBudget(cfg, Next(cfg, w, step)) {
        assert w.stats.diskBytes >= 0;
      }
    }
  }

  /** From an empty cache: a body that fills the budget, and one honest byte that
      was declared as the largest int64. The budget is overrun. */
  lemma HugeDeclarationOverruns(cfg: Config)
    requires cfg.enabled && 1 <= cfg.budget < MAX_INT64 && cfg.threshold <= cfg.budget
    ensures var fill := FromReaderStep(seq(cfg.budget, _ => 0), cfg.budget, cfg.budget, false, false);
      var huge := FromReaderStep([0], MAX_INT64, cfg.budget, false, false);
      var empty := World(Stats(0, 0, 0, 0, 0, 0), []);
      && Honest(fill) && Honest(huge)
      && Run(cfg, empty, [fill, huge]).stats.diskBytes == cfg.budget + 1
  {
    var fill := FromReaderStep(seq(cfg.budget, _ => 0), cfg.budget, cfg.budget, false, false);
    var huge := FromReaderStep([0], MAX_INT64, cfg.budget, false, false);
    var empty := World(Stats(0, 0, 0, 0, 0, 0), []);
    var full := Next(cfg, empty, fill);
    assert full.stats.diskBytes == cfg.budget;
    assert [fill, huge][1..] == [huge] && [huge][1..] == [];
    assert Run(cfg, empty, [fill, huge]) == Run(cfg, full, [huge]) == Next(cfg, full, huge);
  }
}
