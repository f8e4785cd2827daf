/** A loop over a list as a function with its invariants, and a dict that gathers a list by a
    key.  The step is a parameter, so what is proved of a fold does not depend on what the
    step does; the modules above supply it. */
module Folds {
  import opened Sorting

  /** The state after the first `n` elements. */
  function Fold<S, X>(first: S, xs: seq<X>, step: (S, X, nat) -> S, n: nat): S
    requires n <= |xs|
  {
    if n == 0 then first else step(Fold(first, xs, step, n - 1), xs[n - 1], n - 1)
  }

  /** Whatever holds at the start and survives every step holds all along. */
  lemma {:induction false} FoldKeeps<S(!new), X>(
      first: S, xs: seq<X>, step: (S, X, nat) -> S, n: nat, inv: (S, nat) -> bool)
    requires n <= |xs| && inv(first, 0)
    requires forall s: S, i: nat {:trigger step(s, xs[i], i)} :: i < |xs| && inv(s, i) ==> inv(step(s, xs[i], i), i + 1)
    ensures inv(Fold(first, xs, step, n), n)
  {
    if n > 0 {
      FoldKeeps(first, xs, step, n - 1, inv);
      var s := Fold(first, xs, step, n - 1);
      assert inv(step(s, xs[n - 1], n - 1), n);
    }
  }

  // --- gathering by a key ------------------------------------------------------------

  function HasKey<T, K(==)>(key: T -> K, k: K): T -> bool {
    x => key(x) == k
  }

  function Keys<T, K>(xs: seq<T>, key: T -> K): (r: seq<K>)
    ensures |r| == |xs| && forall i :: 0 <= i < |xs| ==> r[i] == key(xs[i])
  {
    seq(|xs|, i requires 0 <= i < |xs| => key(xs[i]))
  }

  /** The keys of a dict filled in this order. */
  function FirstSeen<K(==,!new)>(keys: seq<K>): (r: seq<K>)
    ensures forall k :: k in r <==> k in keys
  {
    if keys == [] then []
    else
      var (before, last) := (keys[..|keys| - 1], keys[|keys| - 1]);
      assert keys == before + [last];
      if last in before then FirstSeen(before) else FirstSeen(before) + [last]
  }

  lemma {:induction false} FirstSeenOnce<K(!new)>(keys: seq<K>)
    ensures NoRepeat(FirstSeen(keys))
  {
    if keys != [] {
      FirstSeenOnce(keys[..|keys| - 1]);
    }
  }

  /** Later elements only add keys behind the earlier ones. */
  lemma {:induction false} FirstSeenGrows<K(!new)>(keys: seq<K>, more: seq<K>)
    ensures FirstSeen(keys) <= FirstSeen(keys + more)
    decreases |more|
  {
    if more == [] {
      assert keys + more == keys;
    } else {
      var all := keys + more;
      FirstSeenGrows(keys, more[..|more| - 1]);
      assert all[..|all| - 1] == keys + more[..|more| - 1];
    }
  }

  /** The dict and the order its keys were added in. */
  ghost predicate Grouped<T, K(!new)>(xs: seq<T>, key: T -> K, groups: map<K, seq<T>>, order: seq<K>) {
    && order == FirstSeen(Keys(xs, key))
    && (forall k :: k in groups <==> k in order)
    && (forall k <- groups :: groups[k] == Filter(xs, HasKey(key, k)))
  }

  lemma UnseenIsEmpty<T, K>(xs: seq<T>, key: T -> K, k: K)
    requires k !in Keys(xs, key)
    ensures Filter(xs, HasKey(key, k)) == []
  {
    forall x | x in xs ensures !HasKey(key, k)(x) {
      var i :| 0 <= i < |xs| && xs[i] == x;
      assert Keys(xs, key)[i] == key(x);
    }
    FilterNone(xs, HasKey(key, k));
  }

  lemma KeyedOneMore<T, K>(xs: seq<T>, x: T, key: T -> K, k: K)
    ensures Filter(xs + [x], HasKey(key, k)) == Filter(xs, HasKey(key, k)) + if key(x) == k then [x] else []
  {
    FilterConcat(xs, [x], HasKey(key, k));
    assert Filter([x], HasKey(key, k)) == if key(x) == k then [x] else [];
  }

  lemma FirstSeenOneMore<T, K(!new)>(xs: seq<T>, x: T, key: T -> K)
    ensures FirstSeen(Keys(xs + [x], key)) ==
              FirstSeen(Keys(xs, key)) + if key(x) in Keys(xs, key) then [] else [key(x)]
  {
    assert Keys(xs + [x], key) == Keys(xs, key) + [key(x)];
    assert (Keys(xs, key) + [key(x)])[..|xs|] == Keys(xs, key);
  }

  /** `groups.setdefault(k, []).append(x)`, where `xs` was gathered before. */
  method AddTo<T, K(==,!new)>(groups: map<K, seq<T>>, order: seq<K>, k: K, x: T, ghost xs: seq<T>, ghost key: T -> K)
    returns (after: map<K, seq<T>>, keys: seq<K>)
    requires Grouped(xs, key, groups, order) && k == key(x)
    ensures Grouped(xs + [x], key, after, keys)
  {
    FirstSeenOneMore(xs, x, key);
    if k in groups {
      after, keys := groups[k := groups[k] + [x]], order;
    } else {
      UnseenIsEmpty(xs, key, k);
      after, keys := groups[k := [x]], order + [k];
    }
    forall other | other in after ensures after[other] == Filter(xs + [x], HasKey(key, other)) {
      KeyedOneMore(xs, x, key, other);
    }
  }
}
