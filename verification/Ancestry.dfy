/** Climbing parent pointers that may form cycles.  `up` gives the parent, or None; a turn
    has a depth exactly when its chain of parents ends, and then the depth is below the
    number of turns the chain can meet. */
module Ancestry {
  import opened Wrappers

  /** The n-th ancestor of `t`, if the climb gets that far. */
  function Climb<T>(up: T -> Option<T>, t: T, n: nat): Option<T> {
    if n == 0 then Some(t)
    else match up(t) {
      case None => None
      case Some(p) => Climb(up, p, n - 1)
    }
  }

  lemma {:induction false} ClimbOn<T>(up: T -> Option<T>, t: T, m: nat, n: nat)
    ensures Climb(up, t, m + n) == match Climb(up, t, m) { case None => None case Some(p) => Climb(up, p, n) }
  {
    if m > 0 && up(t).Some? {
      ClimbOn(up, up(t).value, m - 1, n);
    }
  }

  lemma ClimbOneMore<T>(up: T -> Option<T>, t: T, n: nat)
    ensures Climb(up, t, n + 1) == match Climb(up, t, n) { case None => None case Some(p) => up(p) }
  {
    ClimbOn(up, t, n, 1);
    if Climb(up, t, n).Some? {
      var p := Climb(up, t, n).value;
      assert up(p).Some? ==> Climb(up, up(p).value, 0) == up(p);
    }
  }

  /** The chain from `t` to a turn without a parent has `n` steps. */
  ghost predicate DepthIs<T>(up: T -> Option<T>, t: T, n: nat) {
    Climb(up, t, n).Some? && up(Climb(up, t, n).value).None?
  }

  ghost predicate Reachable<T>(up: T -> Option<T>, t: T) {
    exists n: nat :: DepthIs(up, t, n)
  }

  lemma DepthIsUnique<T>(up: T -> Option<T>, t: T, m: nat, n: nat)
    requires DepthIs(up, t, m) && DepthIs(up, t, n)
    ensures m == n
  {
    if m < n {
      ClimbOn(up, t, m, n - m);
    } else if n < m {
      ClimbOn(up, t, n, m - n);
    }
  }

  lemma {:induction false} SubsetSize<T>(a: set<T>, b: set<T>)
    requires a <= b
    ensures |a| <= |b|
  {
    if a != {} {
      var x :| x in a;
      SubsetSize(a - {x}, b - {x});
    }
  }

  /** The turns on a chain are all different. */
  lemma {:induction false} ChainSet<T>(up: T -> Option<T>, t: T, n: nat, nodes: set<T>) returns (chain: set<T>)
    requires DepthIs(up, t, n) && t in nodes
    requires forall x <- nodes :: up(x).Some? ==> up(x).value in nodes
    ensures chain <= nodes && |chain| == n + 1
    ensures forall x <- chain :: exists k: nat :: k <= n && DepthIs(up, x, k)
  {
    if n == 0 {
      chain := {t};
      assert DepthIs(up, t, 0);
    } else {
      var p := up(t).value;
      var above := ChainSet(up, p, n - 1, nodes);
      if t in above {
        var k: nat :| k <= n - 1 && DepthIs(up, t, k);
        DepthIsUnique(up, t, k, n);
      }
      chain := above + {t};
    }
  }

  /** So a chain is shorter than the number of turns: climbing and walking both end. */
  lemma DepthIsBounded<T>(up: T -> Option<T>, t: T, n: nat, nodes: set<T>)
    requires DepthIs(up, t, n) && t in nodes
    requires forall x <- nodes :: up(x).Some? ==> up(x).value in nodes
    ensures n < |nodes|
  {
    var chain := ChainSet(up, t, n, nodes);
    SubsetSize(chain, nodes);
  }

  // --- chains ------------------------------------------------------------------------

  /** `up` gives the node that a node answers, if it is one of these. */
  ghost predicate UpIs<T(!new)>(nodes: seq<T>, up: T -> Option<T>, answers: (T, T) -> bool) {
    && (forall u <- nodes :: up(u).Some? ==> up(u).value in nodes)
    && (forall u, t :: u in nodes && t in nodes ==> (up(u) == Some(t) <==> answers(u, t)))
  }

  /** From a node to the one it answers, and so on, up to one that answers none of these. */
  ghost predicate Chain<T(!new)>(nodes: seq<T>, answers: (T, T) -> bool, chain: seq<T>) {
    && chain != []
    && (forall t <- chain :: t in nodes)
    && (forall j, k :: 0 <= j && k == j + 1 < |chain| ==> answers(chain[j], chain[k]))
    && (forall t <- nodes :: !answers(chain[|chain| - 1], t))
  }

  /** Such a chain is the climb to the top, step by step. */
  lemma {:induction false} ChainIsTheClimb<T(!new)>(
      nodes: seq<T>, up: T -> Option<T>, answers: (T, T) -> bool, chain: seq<T>, k: nat)
    requires UpIs(nodes, up, answers) && Chain(nodes, answers, chain) && k < |chain|
    ensures Climb(up, chain[0], k) == Some(chain[k])
    ensures DepthIs(up, chain[0], |chain| - 1)
  {
    assert chain[0] in nodes;
    if |chain| > 1 {
      var rest := chain[1..];
      assert answers(chain[0], chain[1]) && chain[1] in nodes;
      ChainIsTheClimb(nodes, up, answers, rest, if k > 0 then k - 1 else 0);
    }
  }

  /** And every climb that ends is such a chain. */
  lemma {:induction false} ClimbIsAChain<T(!new)>(
      nodes: seq<T>, up: T -> Option<T>, answers: (T, T) -> bool, t: T, n: nat) returns (chain: seq<T>)
    requires UpIs(nodes, up, answers) && t in nodes && DepthIs(up, t, n)
    ensures Chain(nodes, answers, chain) && chain[0] == t && |chain| == n + 1
    decreases n
  {
    if n == 0 {
      chain := [t];
    } else {
      var above := ClimbIsAChain(nodes, up, answers, up(t).value, n - 1);
      chain := [t] + above;
    }
  }

  /** A node is reached exactly when such a chain starts at it. */
  lemma ReachedByAChain<T(!new)>(nodes: seq<T>, up: T -> Option<T>, answers: (T, T) -> bool, t: T)
    requires UpIs(nodes, up, answers) && t in nodes
    ensures Reachable(up, t) <==> exists chain :: Chain(nodes, answers, chain) && chain[0] == t
  {
    if n: nat :| DepthIs(up, t, n) {
      var chain := ClimbIsAChain(nodes, up, answers, t, n);
    }
    if chain :| Chain(nodes, answers, chain) && chain[0] == t {
      ChainIsTheClimb(nodes, up, answers, chain, 0);
    }
  }

  lemma LongerChain<T(!new)>(nodes: seq<T>, answers: (T, T) -> bool, u: T, chain: seq<T>)
    requires Chain(nodes, answers, chain) && u in nodes && answers(u, chain[0])
    ensures Chain(nodes, answers, [u] + chain)
  {
  }
}
