/** The model-name list algebra of controller/channel_upstream_update.go. */
module ModelNames {
  import opened Lists
  import opened Text

  type Names = seq<string>

  /** Trimmed, non-blank and without repetition. */
  predicate Normal(names: Names) {
    Distinct(names) && forall n :: n in names ==> n != "" && Clean(n, IsSpace)
  }

  function Normalize(models: Names): (names: Names) {
    Uniq(Pieces(models))
  }

  function Minus(a: Names, b: Names): (r: Names) {
    Filter(a, n => n !in b)
  }

  function Meet(a: Names, b: Names): (r: Names) {
    Filter(a, n => n in b)
  }

  function Merge(base: Names, appended: Names): (r: Names) {
    Normalize(base) + Minus(Normalize(appended), Normalize(base))
  }

  function Subtract(base: Names, removed: Names): (r: Names) {
    Minus(Normalize(base), Normalize(removed))
  }

  function Intersect(base: Names, allowed: Names): (r: Names) {
    Meet(Normalize(base), Normalize(allowed))
  }

  function ApplySelected(origin: Names, add: Names, remove: Names): (r: Names) {
    var normalizedAdd := Normalize(add);
    var normalizedRemove := Subtract(Normalize(remove), normalizedAdd);
    Subtract(Merge(origin, normalizedAdd), normalizedRemove)
  }

  lemma NormalizeNormal(models: Names)
    ensures Normal(Normalize(models))
  {
    PiecesClean(models);
    UniqMembers(Pieces(models));
  }

  lemma NormalizeIff(names: Names)
    ensures Normalize(names) == names <==> Normal(names)
  {
    NormalizeNormal(names);
    if Normal(names) {
      PiecesOfTidy(names);
      UniqDistinct(names);
    }
  }

  lemma MinusMembers(a: Names, b: Names)
    ensures forall n :: n in Minus(a, b) <==> n in a && n !in b
    ensures Normal(a) ==> Normal(Minus(a, b))
  {
    FilterMembers(a, n => n !in b);
  }

  lemma MeetMembers(a: Names, b: Names)
    ensures forall n :: n in Meet(a, b) <==> n in a && n in b
    ensures Normal(a) ==> Normal(Meet(a, b))
  {
    FilterMembers(a, n => n in b);
  }

  lemma MergeMembers(base: Names, appended: Names)
    ensures forall n :: n in Merge(base, appended) <==> n in Normalize(base) || n in Normalize(appended)
    ensures Normal(Merge(base, appended))
  {
    NormalizeNormal(base);
    NormalizeNormal(appended);
    MinusMembers(Normalize(appended), Normalize(base));
    NormalConcat(Normalize(base), Minus(Normalize(appended), Normalize(base)));
  }

  lemma MinusSnoc(a: Names, last: string, b: Names)
    ensures Minus(a + [last], b) == Minus(a, b) + (if last in b then [] else [last])
  {
    FilterSnoc(a, last, n => n !in b);
  }

  /** The merge loop with its seen set. */
  method AppendMissing(start: Names, extra: Names) returns (merged: Names)
    requires Distinct(extra)
    ensures merged == start + Minus(extra, start)
  {
    merged := start;
    var seen := set n | n in start;
    ghost var done: Names := [];
    for i := 0 to |extra|
      invariant done == extra[..i] && merged == start + Minus(done, start)
      invariant forall n :: n in seen <==> n in start || n in done
    {
      MinusSnoc(done, extra[i], start);
      assert extra[i] !in done;
      done := done + [extra[i]];
      if extra[i] !in seen {
        seen := seen + {extra[i]};
        merged := merged + [extra[i]];
      }
    }
    assert done == extra;
  }

  method MergeModelNames(base: Names, appended: Names) returns (merged: Names)
    ensures merged == Merge(base, appended)
  {
    NormalizeNormal(appended);
    merged := AppendMissing(Normalize(base), Normalize(appended));
  }

  lemma NormalConcat(a: Names, b: Names)
    requires Normal(a) && Normal(b) && forall n :: n in a ==> n !in b
    ensures Normal(a + b)
  {
    DistinctConcat(a, b);
  }

  lemma MergeOfNormal(base: Names, appended: Names)
    requires Normal(base) && Normal(appended)
    ensures Merge(base, appended) == base + Minus(appended, base)
  {
    NormalizeIff(base);
    NormalizeIff(appended);
  }

  lemma SubtractOfNormal(base: Names, removed: Names)
    requires Normal(base) && Normal(removed)
    ensures Subtract(base, removed) == Minus(base, removed)
    ensures Intersect(base, removed) == Meet(base, removed)
  {
    NormalizeIff(base);
    NormalizeIff(removed);
  }

  lemma MinusDisjoint(a: Names, b: Names)
    requires forall n :: n in a ==> n !in b
    ensures Minus(a, b) == a
  {
    FilterAll(a, n => n !in b);
  }

  lemma MeetSelf(a: Names)
    ensures Meet(a, a) == a
  {
    FilterAll(a, n => n in a);
  }

  /** The shape of every applied change, for any three lists: the kept originals
      in their order, then the additions that were not there; an addition beats a
      removal. */
  lemma ApplySelectedShape(origin: Names, add: Names, remove: Names)
    ensures var o, a, d := Normalize(origin), Normalize(add), Normalize(remove);
      ApplySelected(origin, add, remove) == Minus(o, Minus(d, a)) + Minus(a, o)
  {
    NormalizeNormal(origin);
    NormalizeNormal(add);
    NormalizeNormal(remove);
    var o, a, d := Normalize(origin), Normalize(add), Normalize(remove);
    NormalizeIff(a);
    NormalizeIff(d);
    var drop, extra := Minus(d, a), Minus(a, o);
    MinusMembers(d, a);
    MinusMembers(a, o);
    MergeMembers(origin, a);
    SubtractOfNormal(Merge(origin, a), drop);
    FilterConcat(o, extra, n => n !in drop);
    MinusDisjoint(extra, drop);
  }

  // ---- Storage in the models column ---------------------------------------------

  function GetModels(models: string): (r: Names) {
    if models == "" then [] else Split(Trim(models, c => c == ','), ',')
  }

  predicate CommaFree(names: Names) {
    forall n :: n in names ==> ',' !in n
  }

  lemma LocalCommaFree(models: string)
    ensures CommaFree(Normalize(GetModels(models)))
  {
    if models != "" {
      PiecesFree(GetModels(models), ',');
    }
    UniqMembers(Pieces(GetModels(models)));
  }

  /** A stored list of names is read back as itself exactly when no name holds a comma. */
  lemma ReadBackIff(names: Names)
    requires Normal(names)
    ensures Normalize(GetModels(Join(names, ','))) == names <==> CommaFree(names)
  {
    LocalCommaFree(Join(names, ','));
    if CommaFree(names) && names != [] {
      assert names[0] in names && names[|names| - 1] in names;
      StoredListReadsBack(names, ',');
      NormalizeIff(names);
    }
  }
}
