/** Array.prototype.sort with a consistent comparator: a stable sort
    (section 23.1.3.30 of ECMA-262), given here by insertion. */
module StableSort {

  ghost predicate TotalPreorder<T(!new)>(leq: (T, T) -> bool) {
    (forall a, b :: leq(a, b) || leq(b, a))
    && forall a, b, c :: leq(a, b) && leq(b, c) ==> leq(a, c)
  }

  function Insert<T>(x: T, xs: seq<T>, leq: (T, T) -> bool): seq<T> {
    if xs == [] || leq(x, xs[0]) then [x] + xs else [xs[0]] + Insert(x, xs[1..], leq)
  }

  function Sort<T>(xs: seq<T>, leq: (T, T) -> bool): seq<T> {
    if xs == [] then [] else Insert(xs[0], Sort(xs[1..], leq), leq)
  }

  predicate Sorted<T>(xs: seq<T>, leq: (T, T) -> bool) {
    forall i, j :: 0 <= i < j < |xs| ==> leq(xs[i], xs[j])
  }

  lemma {:induction false} InsertContents<T>(x: T, xs: seq<T>, leq: (T, T) -> bool)
    ensures multiset(Insert(x, xs, leq)) == multiset{x} + multiset(xs)
  {
    if xs == [] || leq(x, xs[0]) {
    } else {
      InsertContents(x, xs[1..], leq);
      assert xs == [xs[0]] + xs[1..];
    }
  }

  lemma {:induction false} InsertSorted<T(!new)>(x: T, xs: seq<T>, leq: (T, T) -> bool)
    requires TotalPreorder(leq) && Sorted(xs, leq)
    ensures Sorted(Insert(x, xs, leq), leq)
  {
    if xs == [] || leq(x, xs[0]) {
      assert forall i :: 0 < i < |xs| ==> leq(xs[0], xs[i]);
    } else {
      InsertSorted(x, xs[1..], leq);
      InsertContents(x, xs[1..], leq);
      var rest := Insert(x, xs[1..], leq);
      SameElements(rest, [x] + xs[1..]);
      forall i | 0 <= i < |rest| ensures leq(xs[0], rest[i]) {
        assert rest[i] in rest;
      }
    }
  }

  /** The result is ordered and holds exactly what came in. */
  lemma {:induction false} SortSorts<T(!new)>(xs: seq<T>, leq: (T, T) -> bool)
    requires TotalPreorder(leq)
    ensures Sorted(Sort(xs, leq), leq)
    ensures multiset(Sort(xs, leq)) == multiset(xs)
  {
    if xs != [] {
      SortSorts(xs[1..], leq);
      InsertSorted(xs[0], Sort(xs[1..], leq), leq);
      InsertContents(xs[0], Sort(xs[1..], leq), leq);
      assert xs == [xs[0]] + xs[1..];
    }
  }

  function Filter<T>(xs: seq<T>, keep: T -> bool): seq<T> {
    if xs == [] then []
    else if keep(xs[0]) then [xs[0]] + Filter(xs[1..], keep)
    else Filter(xs[1..], keep)
  }

  lemma {:induction false} FilterAppend<T>(xs: seq<T>, ys: seq<T>, keep: T -> bool)
    ensures Filter(xs + ys, keep) == Filter(xs, keep) + Filter(ys, keep)
  {
    if xs == [] {
      assert xs + ys == ys;
    } else {
      FilterAppend(xs[1..], ys, keep);
      assert (xs + ys)[1..] == xs[1..] + ys;
    }
  }

  lemma {:induction false} FilterNone<T>(xs: seq<T>, keep: T -> bool)
    requires forall x :: x in xs ==> !keep(x)
    ensures Filter(xs, keep) == []
  {
    if xs != [] {
      FilterNone(xs[1..], keep);
    }
  }

  lemma {:induction false} FilterAll<T>(xs: seq<T>, keep: T -> bool)
    requires forall x :: x in xs ==> keep(x)
    ensures Filter(xs, keep) == xs
  {
    if xs != [] {
      FilterAll(xs[1..], keep);
    }
  }

  lemma {:induction false} InsertFilter<T(!new)>(x: T, xs: seq<T>, leq: (T, T) -> bool, keep: T -> bool)
    requires forall a, b :: keep(a) && keep(b) ==> leq(a, b)
    ensures Filter(Insert(x, xs, leq), keep) == Filter([x] + xs, keep)
  {
    if xs == [] || leq(x, xs[0]) {
    } else {
      InsertFilter(x, xs[1..], leq, keep);
      assert Insert(x, xs, leq)[1..] == Insert(x, xs[1..], leq);
      assert ([x] + xs)[1..] == xs && ([x] + xs[1..])[1..] == xs[1..];
    }
  }

  lemma {:induction false} FilterMembers<T(!new)>(xs: seq<T>, keep: T -> bool)
    ensures forall x :: x in Filter(xs, keep) <==> x in xs && keep(x)
  {
    if xs != [] {
      FilterMembers(xs[1..], keep);
      assert xs == [xs[0]] + xs[1..];
    }
  }

  ghost predicate Increasing<T>(xs: seq<T>, rank: T -> nat) {
    forall i, j :: 0 <= i < j < |xs| ==> rank(xs[i]) < rank(xs[j])
  }

  /** Filtering keeps the order. */
  lemma {:induction false} FilterIncreasing<T(!new)>(xs: seq<T>, keep: T -> bool, rank: T -> nat)
    requires Increasing(xs, rank)
    ensures Increasing(Filter(xs, keep), rank)
  {
    if xs != [] {
      var kept := Filter(xs[1..], keep);
      FilterIncreasing(xs[1..], keep, rank);
      FilterMembers(xs[1..], keep);
      forall j | 0 <= j < |kept| ensures rank(xs[0]) < rank(kept[j]) {
        assert kept[j] in kept;
        assert kept[j] in xs[1..];
        var i :| 0 <= i < |xs| - 1 && xs[1..][i] == kept[j];
        assert xs[1 + i] == kept[j];
      }
    }
  }

  /** Filtering respects contents. */
  lemma {:induction false} FilterCount<T>(xs: seq<T>, keep: T -> bool, x: T)
    ensures multiset(Filter(xs, keep))[x] == if keep(x) then multiset(xs)[x] else 0
  {
    if xs != [] {
      FilterCount(xs[1..], keep, x);
      assert xs == [xs[0]] + xs[1..];
      assert multiset(xs) == multiset{xs[0]} + multiset(xs[1..]);
      assert keep(xs[0]) ==> multiset(Filter(xs, keep)) == multiset{xs[0]} + multiset(Filter(xs[1..], keep));
    }
  }

  lemma FilterSameContents<T(!new)>(xs: seq<T>, ys: seq<T>, keep: T -> bool)
    requires multiset(xs) == multiset(ys)
    ensures multiset(Filter(xs, keep)) == multiset(Filter(ys, keep))
  {
    forall x ensures multiset(Filter(xs, keep))[x] == multiset(Filter(ys, keep))[x] {
      FilterCount(xs, keep, x);
      FilterCount(ys, keep, x);
    }
  }

  /** What comes first is no greater than anything. */
  lemma HeadIsLeast<T(!new)>(xs: seq<T>, leq: (T, T) -> bool)
    requires TotalPreorder(leq)
    ensures Sort(xs, leq) == [] <==> xs == []
    ensures xs != [] ==> Sort(xs, leq)[0] in xs && forall x :: x in xs ==> leq(Sort(xs, leq)[0], x)
  {
    var sorted := Sort(xs, leq);
    SortSorts(xs, leq);
    SameElements(sorted, xs);
    if xs != [] {
      assert sorted[0] in sorted;
      forall x | x in xs ensures leq(sorted[0], x) {
        var j :| 0 <= j < |sorted| && sorted[j] == x;
        assert j > 0 ==> leq(sorted[0], sorted[j]);
      }
    }
  }

  /** Entries that compare equal keep their order. */
  lemma {:induction false} SortIsStable<T(!new)>(xs: seq<T>, leq: (T, T) -> bool, keep: T -> bool)
    requires forall a, b :: keep(a) && keep(b) ==> leq(a, b)
    ensures Filter(Sort(xs, leq), keep) == Filter(xs, keep)
  {
    if xs != [] {
      SortIsStable(xs[1..], leq, keep);
      InsertFilter(xs[0], Sort(xs[1..], leq), leq, keep);
      var rest := Sort(xs[1..], leq);
      assert ([xs[0]] + rest)[1..] == rest;
    }
  }

  lemma SameElements<T>(xs: seq<T>, ys: seq<T>)
    requires multiset(xs) == multiset(ys)
    ensures |xs| == |ys| && forall x :: x in xs <==> x in ys
  {
    assert |multiset(xs)| == |multiset(ys)|;
    assert forall x :: x in xs <==> x in multiset(xs);
    assert forall x :: x in ys <==> x in multiset(ys);
  }

  lemma SameTails<T>(xs: seq<T>, ys: seq<T>)
    requires multiset(xs) == multiset(ys) && xs != [] && ys != [] && xs[0] == ys[0]
    ensures multiset(xs[1..]) == multiset(ys[1..])
  {
    assert xs == [xs[0]] + xs[1..] && ys == [ys[0]] + ys[1..];
    assert multiset(xs[1..]) == multiset(xs) - multiset{xs[0]};
    assert multiset(ys[1..]) == multiset(ys) - multiset{ys[0]};
  }
}
