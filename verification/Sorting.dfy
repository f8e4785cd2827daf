/** Python's stable `sorted`, for a total preorder `leq`, and the facts about sequences that
    go with it: filters, sequences without repeats, and counting occurrences.  Multisets are
    reached through counts, so that no function carries one in its contract. */
module Sorting {

  ghost predicate TotalPreorder<T(!new)>(leq: (T, T) -> bool) {
    && (forall a: T, b: T :: leq(a, b) || leq(b, a))
    && (forall a: T, b: T, c: T :: leq(a, b) && leq(b, c) ==> leq(a, c))
  }

  ghost predicate Sorted<T>(xs: seq<T>, leq: (T, T) -> bool) {
    forall i, j :: 0 <= i < j < |xs| ==> leq(xs[i], xs[j])
  }

  function Insert<T>(x: T, xs: seq<T>, leq: (T, T) -> bool): (r: seq<T>)
    ensures |r| == |xs| + 1
  {
    if xs == [] || leq(x, xs[0]) then [x] + xs else [xs[0]] + Insert(x, xs[1..], leq)
  }

  function Sort<T>(xs: seq<T>, leq: (T, T) -> bool): (r: seq<T>)
    ensures |r| == |xs|
  {
    if xs == [] then [] else Insert(xs[0], Sort(xs[1..], leq), leq)
  }

  lemma {:induction false} InsertPermutes<T>(x: T, xs: seq<T>, leq: (T, T) -> bool)
    ensures multiset(Insert(x, xs, leq)) == multiset([x]) + multiset(xs)
  {
    if xs != [] && !leq(x, xs[0]) {
      InsertPermutes(x, xs[1..], leq);
      assert xs == [xs[0]] + xs[1..];
    }
  }

  lemma {:induction false} SortPermutes<T>(xs: seq<T>, leq: (T, T) -> bool)
    ensures multiset(Sort(xs, leq)) == multiset(xs)
  {
    if xs != [] {
      SortPermutes(xs[1..], leq);
      InsertPermutes(xs[0], Sort(xs[1..], leq), leq);
      assert xs == [xs[0]] + xs[1..];
    }
  }

  lemma {:induction false} InsertedMembers<T>(x: T, xs: seq<T>, leq: (T, T) -> bool, y: T)
    ensures y in Insert(x, xs, leq) <==> y == x || y in xs
  {
    if xs != [] && !leq(x, xs[0]) {
      InsertedMembers(x, xs[1..], leq, y);
    }
  }

  lemma {:induction false} InsertSorts<T(!new)>(x: T, xs: seq<T>, leq: (T, T) -> bool)
    requires TotalPreorder(leq) && Sorted(xs, leq)
    ensures Sorted(Insert(x, xs, leq), leq)
  {
    if xs != [] && !leq(x, xs[0]) {
      InsertSorts(x, xs[1..], leq);
      var rest := Insert(x, xs[1..], leq);
      forall j | 0 <= j < |rest| ensures leq(xs[0], rest[j]) {
        InsertedMembers(x, xs[1..], leq, rest[j]);
      }
    }
  }

  lemma {:induction false} SortSorts<T(!new)>(xs: seq<T>, leq: (T, T) -> bool)
    requires TotalPreorder(leq)
    ensures Sorted(Sort(xs, leq), leq)
  {
    if xs != [] {
      SortSorts(xs[1..], leq);
      InsertSorts(xs[0], Sort(xs[1..], leq), leq);
    }
  }

  function Filter<T>(xs: seq<T>, keep: T -> bool): seq<T> {
    if xs == [] then []
    else if keep(xs[0]) then [xs[0]] + Filter(xs[1..], keep)
    else Filter(xs[1..], keep)
  }

  lemma {:induction false} InsertKeepsTies<T(!new)>(x: T, xs: seq<T>, leq: (T, T) -> bool, tied: T -> bool)
    requires forall a: T, b: T :: tied(a) && tied(b) ==> leq(a, b)
    ensures Filter(Insert(x, xs, leq), tied) == (if tied(x) then [x] else []) + Filter(xs, tied)
  {
    if xs == [] || leq(x, xs[0]) {
      assert ([x] + xs)[1..] == xs;
    } else {
      var rest := Insert(x, xs[1..], leq);
      InsertKeepsTies(x, xs[1..], leq, tied);
      assert ([xs[0]] + rest)[1..] == rest;
      assert !(tied(x) && tied(xs[0]));
    }
  }

  /** Stability: elements that tie with each other keep the order they came in. */
  lemma {:induction false} SortIsStable<T(!new)>(xs: seq<T>, leq: (T, T) -> bool, tied: T -> bool)
    requires forall a: T, b: T :: tied(a) && tied(b) ==> leq(a, b)
    ensures Filter(Sort(xs, leq), tied) == Filter(xs, tied)
  {
    if xs != [] {
      SortIsStable(xs[1..], leq, tied);
      InsertKeepsTies(xs[0], Sort(xs[1..], leq), leq, tied);
    }
  }

  // --- sequences without repeats -----------------------------------------------------

  lemma {:induction false} SetOfSeqSize<T>(xs: seq<T>)
    ensures |set x | x in xs| <= |xs|
  {
    if xs != [] {
      SetOfSeqSize(xs[1..]);
      assert (set x | x in xs) == (set x | x in xs[1..]) + {xs[0]};
    }
  }

  ghost predicate NoRepeat<T>(xs: seq<T>) {
    forall i, j :: 0 <= i < j < |xs| ==> xs[i] != xs[j]
  }

  lemma {:induction false} NoRepeatInMultiset<T>(xs: seq<T>)
    ensures NoRepeat(xs) <==> forall x :: multiset(xs)[x] <= 1
  {
    if xs != [] {
      var rest := xs[1..];
      NoRepeatInMultiset(rest);
      assert xs == [xs[0]] + rest;
      assert multiset(xs) == multiset([xs[0]]) + multiset(rest);
      assert xs[0] in rest <==> xs[0] in multiset(rest);
      if xs[0] in rest {
        var j :| 0 <= j < |rest| && rest[j] == xs[0];
        assert xs[0] == xs[j + 1];
        assert multiset(xs)[xs[0]] >= 2;
      } else {
        forall i, j | 0 <= i < j < |xs| && NoRepeat(rest) ensures xs[i] != xs[j] {
          assert xs[j] == rest[j - 1] && (i > 0 ==> xs[i] == rest[i - 1]);
        }
        if !NoRepeat(rest) {
          var x :| multiset(rest)[x] > 1;
          assert multiset(xs)[x] > 1;
          var i, j :| 0 <= i < j < |rest| && rest[i] == rest[j];
          assert xs[i + 1] == xs[j + 1];
        }
      }
    }
  }

  lemma NoRepeatConcat<T>(a: seq<T>, b: seq<T>)
    requires NoRepeat(a) && NoRepeat(b) && forall x <- a :: x !in b
    ensures NoRepeat(a + b)
  {
    var c := a + b;
    forall i, j | 0 <= i < j < |c| ensures c[i] != c[j] {
      if i >= |a| {
        assert c[i] == b[i - |a|] && c[j] == b[j - |a|];
      } else if j >= |a| {
        assert c[i] in a && c[j] in b;
      }
    }
  }

  lemma {:induction false} FilterKeepsNoRepeat<T>(xs: seq<T>, keep: T -> bool)
    requires NoRepeat(xs)
    ensures NoRepeat(Filter(xs, keep))
  {
    if xs != [] {
      FilterKeepsNoRepeat(xs[1..], keep);
      FilterMembers(xs[1..], keep, xs[0]);
    }
  }

  lemma SortKeepsNoRepeat<T>(xs: seq<T>, leq: (T, T) -> bool)
    requires NoRepeat(xs)
    ensures NoRepeat(Sort(xs, leq))
  {
    SortPermutes(xs, leq);
    NoRepeatInMultiset(xs);
    NoRepeatInMultiset(Sort(xs, leq));
  }

  lemma {:induction false} FilterConcat<T>(a: seq<T>, b: seq<T>, keep: T -> bool)
    ensures Filter(a + b, keep) == Filter(a, keep) + Filter(b, keep)
  {
    if a == [] {
      assert a + b == b;
    } else {
      assert (a + b)[1..] == a[1..] + b;
      FilterConcat(a[1..], b, keep);
    }
  }

  lemma {:induction false} FilterNone<T>(xs: seq<T>, keep: T -> bool)
    requires forall x <- xs :: !keep(x)
    ensures Filter(xs, keep) == []
  {
    if xs != [] {
      FilterNone(xs[1..], keep);
    }
  }

  lemma {:induction false} FilterAgrees<T>(xs: seq<T>, keep: T -> bool, same: T -> bool)
    requires forall x <- xs :: keep(x) == same(x)
    ensures Filter(xs, keep) == Filter(xs, same)
  {
    if xs != [] {
      FilterAgrees(xs[1..], keep, same);
    }
  }

  lemma {:induction false} FilterMembers<T>(xs: seq<T>, keep: T -> bool, x: T)
    ensures x in Filter(xs, keep) <==> x in xs && keep(x)
  {
    if xs != [] {
      FilterMembers(xs[1..], keep, x);
    }
  }

  lemma {:induction false} SortedMembers<T>(xs: seq<T>, leq: (T, T) -> bool, x: T)
    ensures x in Sort(xs, leq) <==> x in xs
  {
    if xs != [] {
      SortedMembers(xs[1..], leq, x);
      InsertedMembers(xs[0], Sort(xs[1..], leq), leq, x);
    }
  }

  lemma SameMembersSameMultiset<T>(a: seq<T>, b: seq<T>)
    requires NoRepeat(a) && NoRepeat(b) && forall x :: x in a <==> x in b
    ensures multiset(a) == multiset(b)
  {
    NoRepeatInMultiset(a);
    NoRepeatInMultiset(b);
    forall x ensures multiset(a)[x] == multiset(b)[x] {
      assert x in a <==> x in multiset(a);
      assert x in b <==> x in multiset(b);
    }
  }

  lemma {:induction false} FilterAll<T>(xs: seq<T>, keep: T -> bool)
    requires forall x <- xs :: keep(x)
    ensures Filter(xs, keep) == xs
  {
    if xs != [] {
      FilterAll(xs[1..], keep);
    }
  }

  lemma {:induction false} InsertThenFilter<T(!new)>(x: T, xs: seq<T>, leq: (T, T) -> bool, keep: T -> bool)
    requires TotalPreorder(leq) && Sorted(xs, leq)
    ensures Filter(Insert(x, xs, leq), keep) ==
              if keep(x) then Insert(x, Filter(xs, keep), leq) else Filter(xs, keep)
  {
    if xs == [] || leq(x, xs[0]) {
      assert ([x] + xs)[1..] == xs;
      var kept := Filter(xs, keep);
      if kept != [] {
        FilterMembers(xs, keep, kept[0]);
        assert leq(x, kept[0]);
      }
    } else {
      InsertThenFilter(x, xs[1..], leq, keep);
      var rest := Insert(x, xs[1..], leq);
      assert ([xs[0]] + rest)[1..] == rest;
    }
  }

  /** Filtering before or after sorting is the same. */
  lemma {:induction false} SortThenFilter<T(!new)>(xs: seq<T>, leq: (T, T) -> bool, keep: T -> bool)
    requires TotalPreorder(leq)
    ensures Sort(Filter(xs, keep), leq) == Filter(Sort(xs, leq), keep)
  {
    if xs != [] {
      SortThenFilter(xs[1..], leq, keep);
      SortSorts(xs[1..], leq);
      InsertThenFilter(xs[0], Sort(xs[1..], leq), leq, keep);
    }
  }

  lemma Regroup<T>(a: seq<T>, b: seq<T>, c: seq<T>)
    ensures a + (b + c) == (a + b) + c
  {
  }

  // --- counting ----------------------------------------------------------------------

  function Occurrences<T(==)>(xs: seq<T>, x: T): nat {
    if xs == [] then 0 else Occurrences(xs[..|xs| - 1], x) + if xs[|xs| - 1] == x then 1 else 0
  }

  lemma {:induction false} OccurrencesConcat<T>(a: seq<T>, b: seq<T>, x: T)
    ensures Occurrences(a + b, x) == Occurrences(a, x) + Occurrences(b, x)
  {
    if b == [] {
      assert a + b == a;
    } else {
      assert (a + b)[..|a + b| - 1] == a + b[..|b| - 1];
      OccurrencesConcat(a, b[..|b| - 1], x);
    }
  }

  lemma {:induction false} OccurrencesCount<T>(xs: seq<T>, x: T)
    ensures multiset(xs)[x] == Occurrences(xs, x)
  {
    if xs != [] {
      OccurrencesCount(xs[..|xs| - 1], x);
      assert xs == xs[..|xs| - 1] + [xs[|xs| - 1]];
    }
  }
}
