/** Reconciling a channel's models with its upstream (detect, apply, ignore and
    auto-sync in controller/channel_upstream_update.go). */
module UpstreamModels {
  import opened Common
  import opened Lists
  import opened ModelNames
  import opened Text

  /** Matching of a rule body against a name: left open. */
  type Regex = (string, string) -> bool

  type Mapping = map<string, string>

  predicate Ignores(rx: Regex, rule: string, name: string) {
    if HasPrefix(rule, "regex:") then rx(TrimSpace(rule[6..]), name) else rule == name
  }

  predicate Ignored(rx: Regex, rules: Names, name: string) {
    exists rule :: rule in rules && Ignores(rx, rule, name)
  }

  predicate IsNew(rx: Regex, local: Names, rules: Names, mapping: Mapping, name: string) {
    name !in local && name !in mapping.Values && !Ignored(rx, rules, name)
  }

  predicate IsGone(upstream: Names, mapping: Mapping, name: string) {
    name !in mapping.Keys && name !in upstream
  }

  datatype Pending = Pending(add: Names, remove: Names)

  /** collectPendingUpstreamModelChangesFromModels */
  function Detect(rx: Regex, localModels: Names, upstreamModels: Names, ignored: Names, mapping: Mapping): (p: Pending)
  {
    var local, upstream, rules := Normalize(localModels), Normalize(upstreamModels), Normalize(ignored);
    Pending(Normalize(Filter(upstream, n => IsNew(rx, local, rules, mapping, n))),
            Normalize(Filter(local, n => IsGone(upstream, mapping, n))))
  }

  /** The columns of a channel that reconciliation reads and writes. */
  datatype State = State(models: string, ignored: Names, detected: Names, removed: Names, lastCheck: int, autoSync: bool)

  function Local(s: State): (names: Names)
  {
    Normalize(GetModels(s.models))
  }

  function Found(rx: Regex, s: State, upstream: Names, mapping: Mapping): (p: Pending)
  {
    Detect(rx, GetModels(s.models), upstream, s.ignored, mapping)
  }

  // ---- The two operations -----------------------------------------------------------

  datatype CheckResult = CheckResult(state: State, modelsChanged: bool, autoAdded: int)

  /** checkAndPersistChannelUpstreamModelUpdates after a successful fetch. */
  function Checked(rx: Regex, s: State, upstream: Names, mapping: Mapping, allowAutoApply: bool, now: int): (r: CheckResult) {
    Staged(s, Found(rx, s, upstream, mapping), allowAutoApply, now)
  }

  /** What is done with the pending changes: additions applied or kept pending. */
  function Staged(s: State, p: Pending, allowAutoApply: bool, now: int): (r: CheckResult) {
    if allowAutoApply && s.autoSync && p.add != [] then
      var merged := Merge(Local(s), p.add);
      var grew := |merged| > |Local(s)|;
      CheckResult(s.(models := if grew then Join(merged, ',') else s.models, detected := [], removed := p.remove, lastCheck := now),
                  grew, if grew then |merged| - |Local(s)| else 0)
    else
      CheckResult(s.(detected := p.add, removed := p.remove, lastCheck := now), false, 0)
  }

  datatype ApplyResult = ApplyResult(state: State, added: Names, ignored: Names, removed: Names, remaining: Names, remainingRemove: Names, modelsChanged: bool)

  /** What a request selects of the pending changes, and what stays pending. An
      addition beats a removal of the same name. */
  datatype Selection = Selection(add: Names, ignore: Names, remove: Names, remaining: Names, remainingRemove: Names)

  function Selected(detected: Names, removed: Names, addInput: Names, ignoreInput: Names, removeInput: Names): (sel: Selection) {
    var pendingAdd, pendingRemove := Normalize(detected), Normalize(removed);
    var add := Intersect(addInput, pendingAdd);
    var ignore := Intersect(ignoreInput, pendingAdd);
    var remove := Subtract(Intersect(removeInput, pendingRemove), add);
    Selection(add, ignore, remove, Subtract(pendingAdd, add + ignore), Subtract(pendingRemove, remove))
  }

  function NextModels(models: string, add: Names, remove: Names): (r: string) {
    var local := Normalize(GetModels(models));
    var next := ApplySelected(local, add, remove);
    if next != local then Join(next, ',') else models
  }

  function NextRules(rules: Names, add: Names, ignore: Names): (r: Names) {
    if add != [] then Subtract(Merge(rules, ignore), add) else Merge(rules, ignore)
  }

  /** applyChannelUpstreamModelUpdates */
  function Applied(s: State, addInput: Names, ignoreInput: Names, removeInput: Names, now: int): (r: ApplyResult) {
    var sel := Selected(s.detected, s.removed, addInput, ignoreInput, removeInput);
    ApplyResult(State(NextModels(s.models, sel.add, sel.remove), NextRules(s.ignored, sel.add, sel.ignore),
                      sel.remaining, sel.remainingRemove, now, s.autoSync),
                sel.add, sel.ignore, sel.remove, sel.remaining, sel.remainingRemove,
                ApplySelected(Local(s), sel.add, sel.remove) != Local(s))
  }

  class Channel {
    var models: string
    var ignored: Names
    var detected: Names
    var removed: Names
    var lastCheck: int
    const autoSync: bool

    function View(): State
      reads this
    {
      State(models, ignored, detected, removed, lastCheck, autoSync)
    }

    /** `fetched` is the upstream answer, None when the fetch fails; `skipped`
        reports a check refused because the last one is too recent. */
    method CheckAndPersist(rx: Regex, fetched: Option<Names>, mapping: Mapping, force: bool, allowAutoApply: bool, now: int, minInterval: int)
      returns (modelsChanged: bool, autoAdded: int, skipped: bool)
      modifies this
      ensures skipped <==> !force && old(lastCheck) > 0 && now - old(lastCheck) < minInterval
      ensures skipped ==> View() == old(View()) && !modelsChanged && autoAdded == 0
      ensures !skipped && fetched.None? ==> View() == old(View()).(lastCheck := now) && !modelsChanged && autoAdded == 0
      ensures !skipped && fetched.Some? ==>
                CheckResult(View(), modelsChanged, autoAdded) == Checked(rx, old(View()), fetched.value, mapping, allowAutoApply, now)
    {
      modelsChanged, autoAdded, skipped := false, 0, false;
      if !force && lastCheck > 0 && now - lastCheck < minInterval {
        skipped := true;
        return;
      }
      lastCheck := now;
      if fetched.None? { return; }
      modelsChanged, autoAdded := Stage(Detect(rx, GetModels(models), fetched.value, ignored, mapping), allowAutoApply);
    }

    method Stage(pending: Pending, allowAutoApply: bool) returns (modelsChanged: bool, autoAdded: int)
      modifies this
      ensures CheckResult(View(), modelsChanged, autoAdded) == Staged(old(View()), pending, allowAutoApply, old(lastCheck))
    {
      modelsChanged, autoAdded := false, 0;
      if allowAutoApply && autoSync && |pending.add| > 0 {
        autoAdded := AutoAdd(pending.add);
        modelsChanged := autoAdded > 0;
        detected := [];
      } else {
        detected := pending.add;
      }
      removed := pending.remove;
    }

    method AutoAdd(add: Names) returns (autoAdded: int)
      modifies this`models
      ensures var local := Normalize(GetModels(old(models))); var merged := Merge(local, add);
        if |merged| > |local| then autoAdded == |merged| - |local| && models == Join(merged, ',') else autoAdded == 0 && models == old(models)
    {
      autoAdded := 0;
      var origin := Normalize(GetModels(models));
      var merged := MergeModelNames(origin, add);
      if |merged| > |origin| {
        models := Join(merged, ',');
        autoAdded := |merged| - |origin|;
      }
    }

    method Apply(addInput: Names, ignoreInput: Names, removeInput: Names, now: int)
      returns (added: Names, removedNow: Names, remaining: Names, remainingRemove: Names, modelsChanged: bool)
      modifies this
      ensures var r := Applied(old(View()), addInput, ignoreInput, removeInput, now);
        View() == r.state && added == r.added && removedNow == r.removed
        && remaining == r.remaining && remainingRemove == r.remainingRemove && modelsChanged == r.modelsChanged
    {
      var sel := SelectChanges(addInput, ignoreInput, removeInput);
      modelsChanged := UpdateModels(sel.add, sel.remove);
      UpdateRules(sel.add, sel.ignore);
      detected, removed := sel.remaining, sel.remainingRemove;
      lastCheck := now;
      added, removedNow, remaining, remainingRemove := sel.add, sel.remove, sel.remaining, sel.remainingRemove;
    }

    method SelectChanges(addInput: Names, ignoreInput: Names, removeInput: Names) returns (sel: Selection)
      ensures sel == Selected(detected, removed, addInput, ignoreInput, removeInput)
    {
      var pendingAdd, pendingRemove := Normalize(detected), Normalize(removed);
      var addModels := Intersect(addInput, pendingAdd);
      var ignoreModels := Intersect(ignoreInput, pendingAdd);
      var removeModels := Intersect(removeInput, pendingRemove);
      removeModels := Subtract(removeModels, addModels);
      var remaining := Subtract(pendingAdd, addModels + ignoreModels);
      var remainingRemove := Subtract(pendingRemove, removeModels);
      sel := Selection(addModels, ignoreModels, removeModels, remaining, remainingRemove);
    }

    method UpdateModels(add: Names, remove: Names) returns (changed: bool)
      modifies this`models
      ensures models == NextModels(old(models), add, remove)
      ensures var local := Normalize(GetModels(old(models))); changed == (ApplySelected(local, add, remove) != local)
    {
      var origin := Normalize(GetModels(models));
      var next := ApplySelected(origin, add, remove);
      changed := next != origin;
      if changed {
        models := Join(next, ',');
      }
    }

    method UpdateRules(add: Names, ignore: Names)
      modifies this`ignored
      ensures ignored == NextRules(old(ignored), add, ignore)
    {
      ignored := MergeModelNames(ignored, ignore);
      if |add| > 0 {
        ignored := Subtract(ignored, add);
      }
    }
  }

  // ---- Detection, in terms of membership ---------------------------------------------

  /** Exactly the upstream names that are neither local, nor a redirect target,
      nor ignored by a rule (a name, or a regular expression after "regex:"); and
      exactly the local names that are neither upstream nor a redirect source. */
  lemma DetectMembers(rx: Regex, localModels: Names, upstreamModels: Names, ignored: Names, mapping: Mapping)
    ensures var p := Detect(rx, localModels, upstreamModels, ignored, mapping);
      var local, upstream, rules := Normalize(localModels), Normalize(upstreamModels), Normalize(ignored);
      && Normal(p.add) && Normal(p.remove)
      && (forall n :: n in p.add <==> n in upstream && IsNew(rx, local, rules, mapping, n))
      && (forall n :: n in p.remove <==> n in local && IsGone(upstream, mapping, n))
  {
    var local, upstream, rules := Normalize(localModels), Normalize(upstreamModels), Normalize(ignored);
    NormalizeNormal(localModels);
    NormalizeNormal(upstreamModels);
    FilterMembers(upstream, n => IsNew(rx, local, rules, mapping, n));
    FilterMembers(local, n => IsGone(upstream, mapping, n));
    NormalizeIff(Filter(upstream, n => IsNew(rx, local, rules, mapping, n)));
    NormalizeIff(Filter(local, n => IsGone(upstream, mapping, n)));
  }

  /** The same with the tests on a name written out. */
  lemma DetectExactly(rx: Regex, localModels: Names, upstreamModels: Names, ignored: Names, mapping: Mapping, n: string)
    ensures var p := Detect(rx, localModels, upstreamModels, ignored, mapping);
      var local, upstream, rules := Normalize(localModels), Normalize(upstreamModels), Normalize(ignored);
      && (n in p.add <==>
            && n in upstream && n !in local && (forall source :: source in mapping ==> mapping[source] != n)
            && forall rule :: rule in rules ==> if "regex:" <= rule then !rx(TrimSpace(rule[6..]), n) else rule != n)
      && (n in p.remove <==> n in local && n !in upstream && n !in mapping)
  {
    DetectMembers(rx, localModels, upstreamModels, ignored, mapping);
    var local, rules := Normalize(localModels), Normalize(ignored);
    assert n in mapping.Values <==> exists source :: source in mapping && mapping[source] == n;
    assert Ignored(rx, rules, n) <==> exists rule :: rule in rules && if "regex:" <= rule then rx(TrimSpace(rule[6..]), n) else rule == n;
  }

  lemma FilterIsMeet(names: Names, p: string -> bool)
    ensures Filter(names, p) == Meet(names, Filter(names, p))
  {
    var kept := Filter(names, p);
    FilterMembers(names, p);
    FilterSame(names, p, n => n in kept);
  }

  /** The pending additions are in the order of the upstream list, the pending
      removals in the order of the channel's own. */
  lemma DetectKeepsOrder(rx: Regex, localModels: Names, upstreamModels: Names, ignored: Names, mapping: Mapping)
    ensures var p := Detect(rx, localModels, upstreamModels, ignored, mapping);
      p.add == Meet(Normalize(upstreamModels), p.add) && p.remove == Meet(Normalize(localModels), p.remove)
  {
    var local, upstream, rules := Normalize(localModels), Normalize(upstreamModels), Normalize(ignored);
    var isNew, isGone := n => IsNew(rx, local, rules, mapping, n), n => IsGone(upstream, mapping, n);
    NormalizeNormal(localModels);
    NormalizeNormal(upstreamModels);
    FilterMembers(upstream, isNew);
    FilterMembers(local, isGone);
    NormalizeIff(Filter(upstream, isNew));
    NormalizeIff(Filter(local, isGone));
    FilterIsMeet(upstream, isNew);
    FilterIsMeet(local, isGone);
  }

  // ---- Checking ------------------------------------------------------------------------

  /** The models change if and only if the caller allows it, the channel has opted
      in and there is something to add; then the additions are stored. Otherwise
      the check only stages what it found. */
  lemma CheckChangesModelsIff(rx: Regex, s: State, upstream: Names, mapping: Mapping, allowAutoApply: bool, now: int)
    ensures var p := Detect(rx, GetModels(s.models), upstream, s.ignored, mapping);
      var r := Checked(rx, s, upstream, mapping, allowAutoApply, now);
      var auto := allowAutoApply && s.autoSync && p.add != [];
      && (r.modelsChanged <==> auto)
      && r.autoAdded == (if auto then |p.add| else 0)
      && r.state == State(if auto then Join(Local(s) + p.add, ',') else s.models, s.ignored,
                          if auto then [] else p.add, p.remove, now, s.autoSync)
      && (!auto ==> r == Checked(rx, s, upstream, mapping, false, now))
  {
    var p := Found(rx, s, upstream, mapping);
    DetectMembers(rx, GetModels(s.models), upstream, s.ignored, mapping);
    NormalizeNormal(GetModels(s.models));
    MergeOfNormal(Local(s), p.add);
    MinusDisjoint(p.add, Local(s));
  }

  // ---- Applying ------------------------------------------------------------------------

  /** Applying conserves the pending work. The additions split into added,
      ignored without being added, and remaining; the removals into removed and
      remaining. */
  lemma ApplyConserves(s: State, addInput: Names, ignoreInput: Names, removeInput: Names, now: int)
    ensures var r := Applied(s, addInput, ignoreInput, removeInput, now);
      && (forall n :: n in Normalize(s.detected) <==> n in r.added || (n in r.ignored && n !in r.added) || n in r.remaining)
      && (forall n :: n in r.remaining ==> n !in r.added && n !in r.ignored)
      && (forall n :: n in Normalize(s.removed) ==> (n in r.removed <==> n !in r.remainingRemove))
      && (forall n :: n in r.removed || n in r.remainingRemove ==> n in Normalize(s.removed))
      && r.state.detected == r.remaining && r.state.removed == r.remainingRemove
      && r.state.lastCheck == now && r.state.autoSync == s.autoSync
  {
    ApplyMembers(s, addInput, ignoreInput, removeInput, now);
  }

  lemma ApplyMembers(s: State, addInput: Names, ignoreInput: Names, removeInput: Names, now: int)
    ensures var r := Applied(s, addInput, ignoreInput, removeInput, now);
      && Normal(r.added) && Normal(r.ignored) && Normal(r.removed)
      && (forall n :: n in r.added <==> n in Normalize(addInput) && n in Normalize(s.detected))
      && (forall n :: n in r.ignored <==> n in Normalize(ignoreInput) && n in Normalize(s.detected))
      && (forall n :: n in r.removed <==> n in Normalize(removeInput) && n in Normalize(s.removed) && n !in r.added)
      && (forall n :: n in r.remaining <==> n in Normalize(s.detected) && n !in r.added && n !in r.ignored)
      && (forall n :: n in r.remainingRemove <==> n in Normalize(s.removed) && n !in r.removed)
  {
    var r := Applied(s, addInput, ignoreInput, removeInput, now);
    var pendingAdd, pendingRemove := Normalize(s.detected), Normalize(s.removed);
    IntersectMembers(addInput, pendingAdd);
    IntersectMembers(ignoreInput, pendingAdd);
    IntersectMembers(removeInput, pendingRemove);
    NormalizeTwice(s.detected);
    NormalizeTwice(s.removed);
    SubtractMembers(Intersect(removeInput, pendingRemove), r.added);
    NormalizeIff(Intersect(removeInput, pendingRemove));
    NormalizeIff(r.added);
    NormalizeIff(r.removed);
    SubtractMembers(pendingRemove, r.removed);
    SubtractMembers(pendingAdd, r.added + r.ignored);
    NormalizeAppend(r.added, r.ignored);
  }

  lemma NormalizeTwice(names: Names)
    ensures Normal(Normalize(names)) && Normalize(Normalize(names)) == Normalize(names)
  {
    NormalizeNormal(names);
    NormalizeIff(Normalize(names));
  }

  lemma IntersectMembers(a: Names, b: Names)
    ensures Normal(Intersect(a, b)) && forall n :: n in Intersect(a, b) <==> n in Normalize(a) && n in Normalize(b)
  {
    NormalizeNormal(a);
    MeetMembers(Normalize(a), Normalize(b));
  }

  lemma SubtractMembers(a: Names, b: Names)
    ensures Normal(Subtract(a, b)) && forall n :: n in Subtract(a, b) <==> n in Normalize(a) && n !in Normalize(b)
  {
    NormalizeNormal(a);
    MinusMembers(Normalize(a), Normalize(b));
  }

  /** Appending two normal lists and normalizing loses no name. */
  lemma NormalizeAppend(a: Names, b: Names)
    requires Normal(a) && Normal(b)
    ensures forall n :: n in Normalize(a + b) <==> n in a || n in b
  {
    PiecesConcat(a, b);
    PiecesOfTidy(a);
    PiecesOfTidy(b);
    UniqMembers(a + b);
  }

  /** The model list an application decides on. */
  function NextList(s: State, r: ApplyResult): (next: Names) {
    Minus(Local(s), r.removed) + Minus(r.added, Local(s))
  }

  /** The stored list becomes: the originals that were not removed, in order,
      then the new additions. It reads back as such exactly when no addition
      holds a comma. */
  lemma ApplyDecidesList(s: State, addInput: Names, ignoreInput: Names, removeInput: Names, now: int)
    ensures var r := Applied(s, addInput, ignoreInput, removeInput, now); var next := NextList(s, r);
      && Normal(next) && ApplySelected(Local(s), r.added, r.removed) == next
      && (Local(r.state) == next <==> CommaFree(Minus(r.added, Local(s))))
      && (r.modelsChanged <==> next != Local(s))
      && r.state.models == if r.modelsChanged then Join(next, ',') else s.models
  {
    var r := Applied(s, addInput, ignoreInput, removeInput, now);
    var local, next := Local(s), NextList(s, r);
    ApplyMembers(s, addInput, ignoreInput, removeInput, now);
    NormalizeNormal(GetModels(s.models));
    MinusDisjoint(r.removed, r.added);
    NormalizeIff(local);
    NormalizeIff(r.added);
    NormalizeIff(r.removed);
    ApplySelectedShape(local, r.added, r.removed);
    MinusMembers(local, r.removed);
    MinusMembers(r.added, local);
    NormalConcat(Minus(local, r.removed), Minus(r.added, local));
    LocalCommaFree(s.models);
    ReadBackIff(next);
  }

  /** No added model stays ignored; a model ignored without being added is from
      then on ignored, and no later detection reports it, whatever the models,
      the upstream and the mapping, unless it is named like a regular-expression
      rule that does not match its own text. */
  lemma ApplyIgnores(rx: Regex, s: State, addInput: Names, ignoreInput: Names, removeInput: Names, now: int,
                     local: Names, upstream: Names, mapping: Mapping)
    ensures var r := Applied(s, addInput, ignoreInput, removeInput, now);
      && (forall n :: n in r.added ==> n !in Normalize(r.state.ignored))
      && (forall n :: n in r.ignored && n !in r.added ==> n in Normalize(r.state.ignored))
      && (forall n :: n in r.ignored && n !in r.added && Ignores(rx, n, n)
                      ==> n !in Detect(rx, local, upstream, r.state.ignored, mapping).add)
  {
    var r := Applied(s, addInput, ignoreInput, removeInput, now);
    ApplyMembers(s, addInput, ignoreInput, removeInput, now);
    ApplyRules(s, addInput, ignoreInput, removeInput, now);
    DetectMembers(rx, local, upstream, r.state.ignored, mapping);
    forall n | n in r.ignored && n !in r.added && Ignores(rx, n, n)
      ensures n !in Detect(rx, local, upstream, r.state.ignored, mapping).add
    {
      assert n in Normalize(r.state.ignored);
    }
  }

  lemma ApplyRules(s: State, addInput: Names, ignoreInput: Names, removeInput: Names, now: int)
    ensures var r := Applied(s, addInput, ignoreInput, removeInput, now);
      forall n :: n in Normalize(r.state.ignored) <==> (n in Normalize(s.ignored) || n in r.ignored) && n !in r.added
  {
    var r := Applied(s, addInput, ignoreInput, removeInput, now);
    ApplyMembers(s, addInput, ignoreInput, removeInput, now);
    var rules := Merge(s.ignored, r.ignored);
    MergeMembers(s.ignored, r.ignored);
    NormalizeIff(r.ignored);
    NormalizeIff(r.added);
    NormalizeIff(rules);
    SubtractMembers(rules, r.added);
    NormalizeIff(Subtract(rules, r.added));
  }

  // ---- Convergence ------------------------------------------------------------------------

  /** The outcome of a manual detection followed by applying everything found. */
  function Reconciled(rx: Regex, s: State, upstream: Names, mapping: Mapping, now: int): (r: ApplyResult) {
    var checked := Checked(rx, s, upstream, mapping, false, now).state;
    Applied(checked, checked.detected, [], checked.removed, now)
  }

  lemma ReconciledTakesAll(rx: Regex, s: State, upstream: Names, mapping: Mapping, now: int)
    ensures var r := Reconciled(rx, s, upstream, mapping, now); var p := Found(rx, s, upstream, mapping);
      && (forall n :: n in r.added <==> n in p.add)
      && (forall n :: n in r.removed <==> n in p.remove)
      && r.ignored == [] && r.remaining == [] && r.remainingRemove == []
  {
    var r, p := Reconciled(rx, s, upstream, mapping, now), Found(rx, s, upstream, mapping);
    DetectMembers(rx, GetModels(s.models), upstream, s.ignored, mapping);
    NormalizeIff(p.add);
    NormalizeIff(p.remove);
    NormalizeIff([]);
    var checked := Checked(rx, s, upstream, mapping, false, now).state;
    ApplyMembers(checked, p.add, [], p.remove, now);
    assert forall n :: n in p.remove ==> n in Local(s);
    assert forall n :: n in p.add ==> n !in Local(s);
    Empty(r.ignored);
    Empty(r.remaining);
    Empty(r.remainingRemove);
  }

  lemma Empty(names: Names)
    ensures names == [] <==> forall n :: n !in names
  {
    if names != [] {
      assert names[0] in names;
    }
  }

  /** After everything found was applied, what a second look at the same upstream
      would need to find: the rules and the list it works with. */
  lemma SecondLook(rx: Regex, s: State, upstream: Names, mapping: Mapping, now: int)
    ensures var r := Reconciled(rx, s, upstream, mapping, now); var p := Found(rx, s, upstream, mapping);
      && (forall n :: n in Normalize(r.state.ignored) <==> n in Normalize(s.ignored) && n !in p.add)
      && (forall n :: n in NextList(s, r) <==> (n in Local(s) && n !in p.remove) || n in p.add)
      && (Local(r.state) == NextList(s, r) <==> CommaFree(p.add))
  {
    var r, p := Reconciled(rx, s, upstream, mapping, now), Found(rx, s, upstream, mapping);
    var checked := Checked(rx, s, upstream, mapping, false, now).state;
    ReconciledTakesAll(rx, s, upstream, mapping, now);
    ApplyRules(checked, p.add, [], p.remove, now);
    ApplyDecidesList(checked, p.add, [], p.remove, now);
    DetectMembers(rx, GetModels(s.models), upstream, s.ignored, mapping);
    MinusMembers(Local(s), r.removed);
    MinusMembers(r.added, Local(s));
    assert forall n :: n in Minus(r.added, Local(s)) <==> n in p.add;
  }

  /** A pending addition with a comma is found again, every time. */
  lemma CommaNeverConverges(rx: Regex, s: State, upstream: Names, mapping: Mapping, now: int, name: string)
    requires name in Found(rx, s, upstream, mapping).add && ',' in name
    ensures name in Found(rx, Reconciled(rx, s, upstream, mapping, now).state, upstream, mapping).add
  {
    var after := Reconciled(rx, s, upstream, mapping, now).state;
    DetectMembers(rx, GetModels(s.models), upstream, s.ignored, mapping);
    DetectMembers(rx, GetModels(after.models), upstream, after.ignored, mapping);
    SecondLook(rx, s, upstream, mapping, now);
    LocalCommaFree(after.models);
  }

  /** An ignore rule that is itself found as a model: a regular-expression rule
      whose text is the name of an upstream model that is neither local, nor a
      redirect target, nor ignored. Adding that model takes the rule away. */
  predicate Stolen(rx: Regex, s: State, upstream: Names, mapping: Mapping, rule: string) {
    HasPrefix(rule, "regex:") && rule in Normalize(upstream) && IsNew(rx, Local(s), Normalize(s.ignored), mapping, rule)
  }

  /** The upstream names that only the ignore rules keep out. */
  predicate HeldBack(rx: Regex, s: State, upstream: Names, mapping: Mapping, name: string) {
    name in Normalize(upstream) && name !in Local(s) && name !in mapping.Values && Ignored(rx, Normalize(s.ignored), name)
  }

  predicate StillIgnored(rx: Regex, s: State, upstream: Names, mapping: Mapping, name: string) {
    exists rule :: rule in Normalize(s.ignored) && Ignores(rx, rule, name) && !Stolen(rx, s, upstream, mapping, rule)
  }

  /** Every name that is held back matches a rule that is not stolen. */
  predicate RulesSurvive(rx: Regex, s: State, upstream: Names, mapping: Mapping) {
    forall n :: n in Normalize(upstream) && HeldBack(rx, s, upstream, mapping, n) ==> StillIgnored(rx, s, upstream, mapping, n)
  }

  /** That can only fail when an upstream model is named like a regex rule. */
  lemma PlainNamesKeepRules(rx: Regex, s: State, upstream: Names, mapping: Mapping)
    requires forall n :: n in Found(rx, s, upstream, mapping).add ==> !HasPrefix(n, "regex:")
    ensures RulesSurvive(rx, s, upstream, mapping)
  {
    DetectMembers(rx, GetModels(s.models), upstream, s.ignored, mapping);
  }

  lemma StolenIff(rx: Regex, s: State, upstream: Names, mapping: Mapping, rule: string)
    requires rule in Normalize(s.ignored)
    ensures rule in Found(rx, s, upstream, mapping).add <==> Stolen(rx, s, upstream, mapping, rule)
  {
    DetectMembers(rx, GetModels(s.models), upstream, s.ignored, mapping);
    if !HasPrefix(rule, "regex:") {
      assert Ignores(rx, rule, rule);
    }
  }

  /** After the additions exactly the rules not stolen are in force. */
  lemma RulesLeft(rx: Regex, s: State, upstream: Names, mapping: Mapping, now: int, name: string)
    ensures Ignored(rx, Normalize(Reconciled(rx, s, upstream, mapping, now).state.ignored), name) <==> StillIgnored(rx, s, upstream, mapping, name)
  {
    var rules, p := Normalize(s.ignored), Found(rx, s, upstream, mapping);
    SecondLook(rx, s, upstream, mapping, now);
    forall rule | rule in rules ensures rule in p.add <==> Stolen(rx, s, upstream, mapping, rule) {
      StolenIff(rx, s, upstream, mapping, rule);
    }
  }

  lemma CommaFreeConvergesIff(rx: Regex, s: State, upstream: Names, mapping: Mapping, now: int)
    requires CommaFree(Found(rx, s, upstream, mapping).add)
    ensures Found(rx, Reconciled(rx, s, upstream, mapping, now).state, upstream, mapping) == Pending([], [])
       <==> RulesSurvive(rx, s, upstream, mapping)
  {
    var p, after := Found(rx, s, upstream, mapping), Reconciled(rx, s, upstream, mapping, now).state;
    var again := Found(rx, after, upstream, mapping);
    DetectMembers(rx, GetModels(s.models), upstream, s.ignored, mapping);
    DetectMembers(rx, GetModels(after.models), upstream, after.ignored, mapping);
    SecondLook(rx, s, upstream, mapping, now);
    forall n ensures Ignored(rx, Normalize(after.ignored), n) <==> StillIgnored(rx, s, upstream, mapping, n) {
      RulesLeft(rx, s, upstream, mapping, now, n);
    }
    Empty(again.add);
    Empty(again.remove);
  }

  /** Convergence, exactly, for every list, rule, regular expression and mapping:
      detecting and then applying everything leaves a second detection against
      the same upstream with nothing to report if and only if no pending addition
      holds a comma and the rules survive the additions. */
  lemma ConvergesIff(rx: Regex, s: State, upstream: Names, mapping: Mapping, now: int)
    ensures Found(rx, Reconciled(rx, s, upstream, mapping, now).state, upstream, mapping) == Pending([], [])
       <==> CommaFree(Found(rx, s, upstream, mapping).add) && RulesSurvive(rx, s, upstream, mapping)
  {
    var p := Found(rx, s, upstream, mapping);
    if CommaFree(p.add) {
      CommaFreeConvergesIff(rx, s, upstream, mapping, now);
    } else {
      var name :| name in p.add && ',' in name;
      CommaNeverConverges(rx, s, upstream, mapping, now, name);
    }
  }

  /** A name all of whose rules are stolen is found by the second detection. */
  lemma HeldBackReturns(rx: Regex, s: State, upstream: Names, mapping: Mapping, now: int, name: string)
    requires HeldBack(rx, s, upstream, mapping, name) && !StillIgnored(rx, s, upstream, mapping, name)
    requires CommaFree(Found(rx, s, upstream, mapping).add)
    ensures name in Found(rx, Reconciled(rx, s, upstream, mapping, now).state, upstream, mapping).add
  {
    var after := Reconciled(rx, s, upstream, mapping, now).state;
    DetectMembers(rx, GetModels(s.models), upstream, s.ignored, mapping);
    DetectMembers(rx, GetModels(after.models), upstream, after.ignored, mapping);
    SecondLook(rx, s, upstream, mapping, now);
    RulesLeft(rx, s, upstream, mapping, now, name);
  }

  /** Such inputs: the only rule is itself offered as a model, beside a model that
      it holds back (as the rule "regex:^a" beside the model "ab"). */
  lemma RuleOfferedAsModel(rx: Regex, rule: string, name: string, s: State, now: int)
    requires Normal([rule, name]) && CommaFree([rule, name])
    requires HasPrefix(rule, "regex:") && Ignores(rx, rule, name) && !Ignores(rx, rule, rule)
    requires s.models == "" && s.ignored == [rule]
    ensures !RulesSurvive(rx, s, [rule, name], map[])
    ensures Found(rx, s, [rule, name], map[]).add == [rule]
    ensures name in Found(rx, Reconciled(rx, s, [rule, name], map[], now).state, [rule, name], map[]).add
  {
    var upstream, p := [rule, name], Found(rx, s, [rule, name], map[]);
    assert rule in upstream && name in upstream && upstream[0] != upstream[1];
    assert Normal([rule]);
    NormalizeIff([rule]);
    NormalizeIff(upstream);
    NormalizeIff([]);
    OnlyTheRule(rx, rule, name);
    assert rule in [rule];
    assert Stolen(rx, s, upstream, map[], rule) && HeldBack(rx, s, upstream, map[], name);
    HeldBackReturns(rx, s, upstream, map[], now, name);
  }

  lemma OnlyTheRule(rx: Regex, rule: string, name: string)
    requires Normal([rule]) && Normal([rule, name]) && Ignores(rx, rule, name) && !Ignores(rx, rule, rule)
    ensures Detect(rx, [], [rule, name], [rule], map[]).add == [rule]
  {
    NormalizeIff([rule]);
    NormalizeIff([rule, name]);
    NormalizeIff([]);
    var isNew := n => IsNew(rx, [], [rule], map[], n);
    assert rule in [rule] && !isNew(name) && isNew(rule);
    FilterSnoc([], rule, isNew);
    FilterSnoc([rule], name, isNew);
    assert [] + [rule] == [rule] && [rule] + [name] == [rule, name];
  }

  // ---- Auto-sync ---------------------------------------------------------------------------

  /** With something to add, the automatic path stores the very text that a manual
      application of the additions alone would store, counts each addition once
      and leaves none pending. */
  lemma AutoSyncIsManualAdd(rx: Regex, s: State, upstream: Names, mapping: Mapping, now: int)
    requires s.autoSync && Found(rx, s, upstream, mapping).add != []
    ensures var p := Found(rx, s, upstream, mapping);
      var auto := Checked(rx, s, upstream, mapping, true, now);
      var manual := Applied(Checked(rx, s, upstream, mapping, false, now).state, p.add, [], [], now);
      && auto.state.models == manual.state.models
      && auto.autoAdded == |p.add| && auto.modelsChanged
      && auto.state.detected == manual.state.detected == []
  {
    var p := Found(rx, s, upstream, mapping);
    var checked := Checked(rx, s, upstream, mapping, false, now).state;
    var manual := Applied(checked, p.add, [], [], now);
    DetectMembers(rx, GetModels(s.models), upstream, s.ignored, mapping);
    NormalizeNormal(GetModels(s.models));
    NormalizeIff(p.add);
    NormalizeIff([]);
    MergeOfNormal(Local(s), p.add);
    MinusDisjoint(p.add, Local(s));
    MeetSelf(p.add);
    assert manual.added == p.add;
    ApplyMembers(checked, p.add, [], [], now);
    Empty(manual.removed);
    Empty(manual.remaining);
    ApplyDecidesList(checked, p.add, [], [], now);
    MinusDisjoint(Local(s), []);
    assert NextList(checked, manual) == Local(s) + p.add;
  }
}
