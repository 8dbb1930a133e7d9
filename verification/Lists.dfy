/** Ordered duplicate-free lists: the filter and first-occurrence operations the
    controllers apply to model names and keys. */
module Lists {

  predicate Distinct<T(==)>(xs: seq<T>) {
    forall i, j :: 0 <= i < j < |xs| ==> xs[i] != xs[j]
  }

  function Filter<T(!new)>(xs: seq<T>, p: T -> bool): (r: seq<T>)
    ensures |r| <= |xs|
  {
    if xs == [] then []
    else
      var rest := Filter(xs[..|xs| - 1], p);
      if p(xs[|xs| - 1]) then rest + [xs[|xs| - 1]] else rest
  }

  /** Keeps the first occurrence of every element, in order. */
  function Uniq<T(==,!new)>(xs: seq<T>): (r: seq<T>) {
    if xs == [] then []
    else
      var rest := Uniq(xs[..|xs| - 1]);
      if xs[|xs| - 1] in rest then rest else rest + [xs[|xs| - 1]]
  }

  lemma {:induction false} FilterMembers<T(!new)>(xs: seq<T>, p: T -> bool)
    ensures forall x :: x in Filter(xs, p) <==> x in xs && p(x)
    ensures Distinct(xs) ==> Distinct(Filter(xs, p))
  {
    if xs == [] {
    } else {
      var init, last := xs[..|xs| - 1], xs[|xs| - 1];
      assert xs == init + [last];
      FilterMembers(init, p);
      assert Distinct(xs) ==> last !in init;
    }
  }

  lemma {:induction false} UniqMembers<T(!new)>(xs: seq<T>)
    ensures Distinct(Uniq(xs))
    ensures forall x :: x in Uniq(xs) <==> x in xs
  {
    if xs == [] {
    } else {
      var init, last := xs[..|xs| - 1], xs[|xs| - 1];
      assert xs == init + [last];
      UniqMembers(init);
    }
  }

  lemma {:induction false} FilterConcat<T(!new)>(a: seq<T>, b: seq<T>, p: T -> bool)
    ensures Filter(a + b, p) == Filter(a, p) + Filter(b, p)
  {
    if b == [] {
      assert a + b == a;
    } else {
      assert (a + b)[..|a + b| - 1] == a + b[..|b| - 1];
      FilterConcat(a, b[..|b| - 1], p);
    }
  }

  lemma {:induction false} FilterAll<T(!new)>(xs: seq<T>, p: T -> bool)
    requires forall x :: x in xs ==> p(x)
    ensures Filter(xs, p) == xs
  {
    if xs == [] {
    } else {
      var init, last := xs[..|xs| - 1], xs[|xs| - 1];
      assert last in xs && xs == init + [last];
      FilterAll(init, p);
    }
  }

  /** Appending to a list and taking first occurrences: the old part is settled,
      the new part contributes what is not there yet. */
  lemma {:induction false} UniqConcat<T(!new)>(a: seq<T>, b: seq<T>)
    ensures Uniq(a + b) == Uniq(a) + Filter(Uniq(b), x => x !in a)
  {
    if b == [] {
      assert a + b == a;
    } else {
      var init, last := b[..|b| - 1], b[|b| - 1];
      assert (a + b)[..|a + b| - 1] == a + init && (a + b)[|a + b| - 1] == last;
      UniqConcat(a, init);
      UniqMembers(a + init);
      UniqMembers(init);
      assert last in Uniq(a + init) <==> last in a || last in init;
      FilterSnoc(Uniq(init), last, x => x !in a);
    }
  }

  lemma FilterSnoc<T(!new)>(xs: seq<T>, last: T, p: T -> bool)
    ensures Filter(xs + [last], p) == Filter(xs, p) + (if p(last) then [last] else [])
  {
    var all := xs + [last];
    assert all[..|all| - 1] == xs && all[|all| - 1] == last;
  }

  lemma {:induction false} UniqDistinct<T(!new)>(xs: seq<T>)
    ensures Uniq(xs) == xs <==> Distinct(xs)
  {
    if xs == [] || !Distinct(xs) {
    } else {
      var init, last := xs[..|xs| - 1], xs[|xs| - 1];
      assert xs == init + [last] && last !in init;
      UniqDistinct(init);
    }
    UniqMembers(xs);
  }

  lemma UniqSnoc<T(!new)>(xs: seq<T>, last: T)
    ensures Uniq(xs + [last]) == Uniq(xs) + (if last in xs then [] else [last])
  {
    var all := xs + [last];
    assert all[..|all| - 1] == xs && all[|all| - 1] == last;
    UniqMembers(xs);
  }

  lemma DistinctConcat<T(!new)>(a: seq<T>, b: seq<T>)
    requires Distinct(a) && Distinct(b) && forall x :: x in a ==> x !in b
    ensures Distinct(a + b)
  {
    forall i, j | 0 <= i < j < |a + b| ensures (a + b)[i] != (a + b)[j] {
      if i < |a| && |a| <= j {
        assert a[i] in a && b[j - |a|] in b;
      }
    }
  }

  /** Filters that agree on the list give the same. */
  lemma {:induction false} FilterSame<T(!new)>(xs: seq<T>, p: T -> bool, q: T -> bool)
    requires forall x :: x in xs ==> p(x) == q(x)
    ensures Filter(xs, p) == Filter(xs, q)
  {
    if xs == [] {
    } else {
      assert xs[|xs| - 1] in xs && forall x :: x in xs[..|xs| - 1] ==> x in xs;
      FilterSame(xs[..|xs| - 1], p, q);
    }
  }
}
