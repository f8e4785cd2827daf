/** Walking a forest given by parent pointers that may also form cycles: what the walk visits,
    at which depth, in which order, and that it ends.  Turns on a cycle, or under one, are
    never visited. */
module Forests {
  import opened Ancestry
  import opened Sorting
  import opened Wrappers

  /** Some turns, the parent of each if it is one of them, its children in the order they
      are shown, and the turns shown at the top. */
  datatype Forest<!T> = Forest(nodes: seq<T>, up: T -> Option<T>, kids: T -> seq<T>, roots: seq<T>)

  /** Children and roots are exactly what the parent pointers say, none twice. */
  ghost predicate Fair<T(!new)>(f: Forest<T>) {
    && NoRepeat(f.roots)
    && (forall t <- f.nodes :: f.up(t).Some? ==> f.up(t).value in f.nodes)
    && (forall t: T, u: T {:trigger u in f.kids(t)} ::
          t in f.nodes ==> (u in f.kids(t) <==> u in f.nodes && f.up(u) == Some(t)))
    && (forall t <- f.nodes :: NoRepeat(f.kids(t)))
    && (forall u: T :: u in f.roots <==> u in f.nodes && f.up(u).None?)
  }

  ghost predicate AllAt<T(!new)>(f: Forest<T>, list: seq<T>, depth: nat) {
    forall u <- list :: u in f.nodes && DepthIs(f.up, u, depth)
  }

  lemma ChildrenAreDeeper<T(!new)>(f: Forest<T>, t: T, depth: nat)
    requires Fair(f) && t in f.nodes && DepthIs(f.up, t, depth)
    ensures AllAt(f, f.kids(t), depth + 1)
  {
    forall u | u in f.kids(t) ensures u in f.nodes && DepthIs(f.up, u, depth + 1) {
    }
  }

  lemma RootsAreAtZero<T(!new)>(f: Forest<T>)
    requires Fair(f)
    ensures AllAt(f, f.roots, 0)
  {
    forall u | u in f.roots ensures u in f.nodes && DepthIs(f.up, u, 0) {
    }
  }

  lemma DepthIsBelowSize<T(!new)>(f: Forest<T>, t: T, depth: nat)
    requires Fair(f) && t in f.nodes && DepthIs(f.up, t, depth)
    ensures depth < |f.nodes|
  {
    var nodes := set x | x in f.nodes;
    DepthIsBounded(f.up, t, depth, nodes);
    SetOfSeqSize(f.nodes);
  }

  // --- the walk ----------------------------------------------------------------------

  /** A turn and its true depth, before the display caps it. */
  datatype Visit<T> = Visit(turn: T, depth: nat)

  /** The recursive `walk`.  It ends on any parent pointers: depth stays below the number
      of turns, because a chain that reaches a root never repeats a turn. */
  ghost function Walk<T(!new)>(f: Forest<T>, t: T, depth: nat): seq<Visit<T>>
    requires Fair(f) && t in f.nodes && DepthIs(f.up, t, depth)
    decreases |f.nodes| - depth, 0
  {
    ChildrenAreDeeper(f, t, depth);
    DepthIsBelowSize(f, t, depth);
    [Visit(t, depth)] + WalkAll(f, f.kids(t), depth + 1)
  }

  ghost function WalkAll<T(!new)>(f: Forest<T>, list: seq<T>, depth: nat): seq<Visit<T>>
    requires Fair(f) && AllAt(f, list, depth)
    decreases |f.nodes| - depth, |list|
  {
    if list == [] then []
    else Walk(f, list[0], depth) + WalkAll(f, list[1..], depth)
  }

  function Turns<T>(visits: seq<Visit<T>>): (r: seq<T>)
    ensures |r| == |visits| && forall i :: 0 <= i < |visits| ==> r[i] == visits[i].turn
  {
    seq(|visits|, i requires 0 <= i < |visits| => visits[i].turn)
  }

  lemma TurnsConcat<T>(a: seq<Visit<T>>, b: seq<Visit<T>>)
    ensures Turns(a + b) == Turns(a) + Turns(b)
  {
  }

  // --- what the walk visits ----------------------------------------------------------

  /** `v` lies under `t`, which stands at `depth`. */
  ghost predicate Under<T(!new)>(f: Forest<T>, v: Visit<T>, t: T, depth: nat) {
    && v.turn in f.nodes
    && v.depth >= depth
    && DepthIs(f.up, v.turn, v.depth)
    && Climb(f.up, v.turn, v.depth - depth) == Some(t)
  }

  lemma UnderParent<T(!new)>(f: Forest<T>, v: Visit<T>, c: T, t: T, depth: nat)
    requires Under(f, v, c, depth + 1) && f.up(c) == Some(t)
    ensures Under(f, v, t, depth)
  {
    ClimbOneMore(f.up, v.turn, v.depth - depth - 1);
  }

  lemma UnderChild<T(!new)>(f: Forest<T>, v: Visit<T>, t: T, depth: nat) returns (c: T)
    requires Fair(f) && Under(f, v, t, depth) && v.depth > depth
    ensures c in f.nodes && f.up(c) == Some(t) && Under(f, v, c, depth + 1)
  {
    ClimbOneMore(f.up, v.turn, v.depth - depth - 1);
    ClimbStaysInside(f, v.turn, v.depth - depth - 1);
    c := Climb(f.up, v.turn, v.depth - depth - 1).value;
  }

  lemma {:induction false} WalkIsUnder<T(!new)>(f: Forest<T>, t: T, depth: nat, v: Visit<T>)
    requires Fair(f) && t in f.nodes && DepthIs(f.up, t, depth)
    requires v in Walk(f, t, depth)
    ensures Under(f, v, t, depth)
    decreases |f.nodes| - depth, 0
  {
    if v != Visit(t, depth) {
      ChildrenAreDeeper(f, t, depth);
      DepthIsBelowSize(f, t, depth);
      var c := WalkAllIsUnder(f, f.kids(t), depth + 1, v);
      UnderParent(f, v, c, t, depth);
    }
  }

  lemma {:induction false} WalkAllIsUnder<T(!new)>(f: Forest<T>, list: seq<T>, depth: nat, v: Visit<T>) returns (t: T)
    requires Fair(f) && AllAt(f, list, depth)
    requires v in WalkAll(f, list, depth)
    ensures t in list && Under(f, v, t, depth)
    decreases |f.nodes| - depth, |list|
  {
    if v in Walk(f, list[0], depth) {
      t := list[0];
      WalkIsUnder(f, t, depth, v);
    } else {
      t := WalkAllIsUnder(f, list[1..], depth, v);
    }
  }

  lemma {:induction false} WalkReaches<T(!new)>(f: Forest<T>, t: T, depth: nat, v: Visit<T>)
    requires Fair(f) && t in f.nodes && DepthIs(f.up, t, depth) && Under(f, v, t, depth)
    ensures v in Walk(f, t, depth)
    decreases |f.nodes| - depth, 0
  {
    if v.depth == depth {
      assert v == Visit(t, depth);
    } else {
      var c := UnderChild(f, v, t, depth);
      ChildrenAreDeeper(f, t, depth);
      DepthIsBelowSize(f, t, depth);
      WalkAllReaches(f, f.kids(t), depth + 1, c, v);
    }
  }

  lemma {:induction false} WalkAllReaches<T(!new)>(f: Forest<T>, list: seq<T>, depth: nat, t: T, v: Visit<T>)
    requires Fair(f) && AllAt(f, list, depth) && t in list && Under(f, v, t, depth)
    ensures v in WalkAll(f, list, depth)
    decreases |f.nodes| - depth, |list|
  {
    if list[0] == t {
      WalkReaches(f, t, depth, v);
    } else {
      WalkAllReaches(f, list[1..], depth, t, v);
    }
  }

  lemma {:induction false} ClimbStaysInside<T(!new)>(f: Forest<T>, t: T, n: nat)
    requires Fair(f) && t in f.nodes && Climb(f.up, t, n).Some?
    ensures Climb(f.up, t, n).value in f.nodes
    decreases n
  {
    if n > 0 {
      ClimbStaysInside(f, f.up(t).value, n - 1);
    }
  }

  ghost function Visits<T(!new)>(f: Forest<T>): seq<Visit<T>>
    requires Fair(f)
  {
    RootsAreAtZero(f);
    WalkAll(f, f.roots, 0)
  }

  /** The walk visits exactly the turns whose chain reaches a root, at the chain's length. */
  lemma VisitedExactlyWhenReachable<T(!new)>(f: Forest<T>, v: Visit<T>)
    requires Fair(f)
    ensures v in Visits(f) <==> v.turn in f.nodes && DepthIs(f.up, v.turn, v.depth)
  {
    RootsAreAtZero(f);
    if v in Visits(f) {
      var t := WalkAllIsUnder(f, f.roots, 0, v);
    }
    if v.turn in f.nodes && DepthIs(f.up, v.turn, v.depth) {
      var root := Climb(f.up, v.turn, v.depth).value;
      ClimbStaysInside(f, v.turn, v.depth);
      WalkAllReaches(f, f.roots, 0, root, v);
    }
  }

  lemma TurnVisitedExactlyWhenReachable<T(!new)>(f: Forest<T>, t: T)
    requires Fair(f)
    ensures t in Turns(Visits(f)) <==> t in f.nodes && Reachable(f.up, t)
  {
    var visits := Visits(f);
    if t in Turns(visits) {
      var i :| 0 <= i < |visits| && visits[i].turn == t;
      VisitedExactlyWhenReachable(f, visits[i]);
    }
    if t in f.nodes && Reachable(f.up, t) {
      var n: nat :| DepthIs(f.up, t, n);
      VisitedExactlyWhenReachable(f, Visit(t, n));
      var i :| 0 <= i < |visits| && visits[i] == Visit(t, n);
    }
  }

  // --- nothing twice -----------------------------------------------------------------

  lemma {:induction false} WalkDoesNotRepeat<T(!new)>(f: Forest<T>, t: T, depth: nat)
    requires Fair(f) && t in f.nodes && DepthIs(f.up, t, depth)
    ensures NoRepeat(Turns(Walk(f, t, depth)))
    decreases |f.nodes| - depth, 0
  {
    ChildrenAreDeeper(f, t, depth);
    DepthIsBelowSize(f, t, depth);
    var below := WalkAll(f, f.kids(t), depth + 1);
    WalkAllDoesNotRepeat(f, f.kids(t), depth + 1);
    forall v | v in below ensures v.turn != t {
      var c := WalkAllIsUnder(f, f.kids(t), depth + 1, v);
      if v.turn == t {
        DepthIsUnique(f.up, t, depth, v.depth);
      }
    }
    TurnsConcat([Visit(t, depth)], below);
    NoRepeatConcat([t], Turns(below));
  }

  lemma WalksAreApart<T(!new)>(f: Forest<T>, list: seq<T>, depth: nat, v: Visit<T>, w: Visit<T>)
    requires Fair(f) && AllAt(f, list, depth) && NoRepeat(list) && list != []
    requires v in Walk(f, list[0], depth) && w in WalkAll(f, list[1..], depth)
    ensures v.turn != w.turn
  {
    WalkIsUnder(f, list[0], depth, v);
    var t := WalkAllIsUnder(f, list[1..], depth, w);
    if v.turn == w.turn {
      DepthIsUnique(f.up, v.turn, v.depth, w.depth);
    }
  }

  lemma TurnsConcatNoRepeat<T(!new)>(a: seq<Visit<T>>, b: seq<Visit<T>>)
    requires NoRepeat(Turns(a)) && NoRepeat(Turns(b))
    requires forall v, w :: v in a && w in b ==> v.turn != w.turn
    ensures NoRepeat(Turns(a + b))
  {
    TurnsConcat(a, b);
    forall x | x in Turns(a) ensures x !in Turns(b) {
      assert exists v <- a :: v.turn == x;
      assert x in Turns(b) ==> exists w <- b :: w.turn == x;
    }
    NoRepeatConcat(Turns(a), Turns(b));
  }

  lemma {:induction false} WalkAllDoesNotRepeat<T(!new)>(f: Forest<T>, list: seq<T>, depth: nat)
    requires Fair(f) && AllAt(f, list, depth) && NoRepeat(list)
    ensures NoRepeat(Turns(WalkAll(f, list, depth)))
    decreases |f.nodes| - depth, |list|
  {
    if list != [] {
      WalkDoesNotRepeat(f, list[0], depth);
      WalkAllDoesNotRepeat(f, list[1..], depth);
      forall v, w | v in Walk(f, list[0], depth) && w in WalkAll(f, list[1..], depth)
        ensures v.turn != w.turn
      {
        WalksAreApart(f, list, depth, v, w);
      }
      TurnsConcatNoRepeat(Walk(f, list[0], depth), WalkAll(f, list[1..], depth));
    }
  }

  // --- preorder ----------------------------------------------------------------------

  /** The parent of the i-th visit comes before it, one level up, and everything between
      them lies below that parent. */
  ghost predicate AfterItsParent<T(!new)>(f: Forest<T>, visits: seq<Visit<T>>, i: nat)
    requires i < |visits|
  {
    exists j :: 0 <= j < i && ParentAt(f, visits, j, i)
  }

  ghost predicate ParentAt<T(!new)>(f: Forest<T>, visits: seq<Visit<T>>, j: nat, i: nat)
    requires j < i < |visits|
  {
    && f.up(visits[i].turn) == Some(visits[j].turn)
    && visits[j].depth + 1 == visits[i].depth
    && forall m :: j < m < i ==> visits[m].depth >= visits[i].depth
  }

  ghost predicate Preorder<T(!new)>(f: Forest<T>, visits: seq<Visit<T>>, depth: nat) {
    && (forall i :: 0 <= i < |visits| ==> visits[i].depth >= depth)
    && (forall i {:trigger AfterItsParent(f, visits, i)} ::
          0 <= i < |visits| && visits[i].depth > depth ==> AfterItsParent(f, visits, i))
  }

  lemma ParentShifts<T(!new)>(f: Forest<T>, a: seq<Visit<T>>, b: seq<Visit<T>>, j: nat, i: nat)
    requires j < i < |b| && ParentAt(f, b, j, i)
    ensures ParentAt(f, a + b, j + |a|, i + |a|)
  {
    assert forall m :: |a| <= m < |a + b| ==> (a + b)[m] == b[m - |a|];
  }

  lemma ShiftedAfterParent<T(!new)>(f: Forest<T>, a: seq<Visit<T>>, b: seq<Visit<T>>, i: nat)
    requires i < |b| && AfterItsParent(f, b, i)
    ensures AfterItsParent(f, a + b, i + |a|)
  {
    var j :| 0 <= j < i && ParentAt(f, b, j, i);
    ParentShifts(f, a, b, j, i);
  }

  lemma PreorderConcat<T(!new)>(f: Forest<T>, a: seq<Visit<T>>, b: seq<Visit<T>>, depth: nat)
    requires Preorder(f, a, depth) && Preorder(f, b, depth)
    ensures Preorder(f, a + b, depth)
  {
    var c := a + b;
    forall i | 0 <= i < |c| && c[i].depth > depth ensures AfterItsParent(f, c, i) {
      if i < |a| {
        assert AfterItsParent(f, a, i);
        var j :| 0 <= j < i && ParentAt(f, a, j, i);
        assert ParentAt(f, c, j, i);
      } else {
        ShiftedAfterParent(f, a, b, i - |a|);
      }
    }
  }

  lemma PreorderUnder<T(!new)>(f: Forest<T>, t: T, below: seq<Visit<T>>, depth: nat)
    requires Preorder(f, below, depth + 1)
    requires forall v <- below :: v.depth == depth + 1 ==> f.up(v.turn) == Some(t)
    ensures Preorder(f, [Visit(t, depth)] + below, depth)
  {
    var top := [Visit(t, depth)];
    var c := top + below;
    forall i | 0 <= i < |c| && c[i].depth > depth ensures AfterItsParent(f, c, i) {
      FirstUnder(f, t, below, depth, i);
    }
    assert forall i :: 0 < i < |c| ==> c[i] == below[i - 1];
  }

  lemma FirstUnder<T(!new)>(f: Forest<T>, t: T, below: seq<Visit<T>>, depth: nat, i: nat)
    requires Preorder(f, below, depth + 1) && 0 < i <= |below|
    requires forall v <- below :: v.depth == depth + 1 ==> f.up(v.turn) == Some(t)
    ensures AfterItsParent(f, [Visit(t, depth)] + below, i)
  {
    var c := [Visit(t, depth)] + below;
    assert forall m :: 0 < m < |c| ==> c[m] == below[m - 1];
    assert below[i - 1] in below;
    if below[i - 1].depth == depth + 1 {
      assert ParentAt(f, c, 0, i);
    } else {
      ShiftedAfterParent(f, [Visit(t, depth)], below, i - 1);
    }
  }

  lemma {:induction false} WalkIsPreorder<T(!new)>(f: Forest<T>, t: T, depth: nat)
    requires Fair(f) && t in f.nodes && DepthIs(f.up, t, depth)
    ensures Preorder(f, Walk(f, t, depth), depth)
    decreases |f.nodes| - depth, 0
  {
    ChildrenAreDeeper(f, t, depth);
    DepthIsBelowSize(f, t, depth);
    var below := WalkAll(f, f.kids(t), depth + 1);
    WalkAllIsPreorder(f, f.kids(t), depth + 1);
    forall v | v in below && v.depth == depth + 1 ensures f.up(v.turn) == Some(t) {
      var c := WalkAllIsUnder(f, f.kids(t), depth + 1, v);
    }
    PreorderUnder(f, t, below, depth);
  }

  lemma {:induction false} WalkAllIsPreorder<T(!new)>(f: Forest<T>, list: seq<T>, depth: nat)
    requires Fair(f) && AllAt(f, list, depth)
    ensures Preorder(f, WalkAll(f, list, depth), depth)
    decreases |f.nodes| - depth, |list|
  {
    if list != [] {
      WalkIsPreorder(f, list[0], depth);
      WalkAllIsPreorder(f, list[1..], depth);
      PreorderConcat(f, Walk(f, list[0], depth), WalkAll(f, list[1..], depth), depth);
    }
  }

  // --- siblings in order -------------------------------------------------------------

  ghost function HasParent<T(!new)>(f: Forest<T>, parent: Option<T>): T -> bool {
    u => f.up(u) == parent
  }

  lemma NotItsOwnParent<T(!new)>(f: Forest<T>, t: T, depth: nat)
    requires DepthIs(f.up, t, depth)
    ensures f.up(t) != Some(t)
  {
    if f.up(t) == Some(t) {
      assert DepthIs(f.up, t, depth - 1);
      DepthIsUnique(f.up, t, depth, depth - 1);
    }
  }

  ghost predicate Visited<T(!new)>(parent: Option<Visit<T>>, visits: seq<Visit<T>>) {
    parent.Some? && parent.value in visits
  }

  function TurnOf<T(!new)>(parent: Option<Visit<T>>): Option<T> {
    match parent
    case Some(v) => Some(v.turn)
    case None => None
  }

  function ChildrenOf<T(!new)>(f: Forest<T>, parent: Option<Visit<T>>): seq<T> {
    match parent
    case Some(v) => f.kids(v.turn)
    case None => []
  }

  ghost predicate InTree<T(!new)>(f: Forest<T>, parent: Option<Visit<T>>) {
    parent.Some? ==> parent.value.turn in f.nodes && DepthIs(f.up, parent.value.turn, parent.value.depth)
  }

  /** Of the turns a walk visits, those with a given parent are that parent's sorted children
      if the walk visits the parent, preceded by the walk's own start if it is one. */
  lemma {:induction false} WalkKeepsSiblings<T(!new)>(f: Forest<T>, t: T, depth: nat, parent: Option<Visit<T>>)
    requires Fair(f) && t in f.nodes && DepthIs(f.up, t, depth) && InTree(f, parent)
    ensures
      var walk := Walk(f, t, depth);
      Filter(Turns(walk), HasParent(f, TurnOf(parent))) ==
        (if f.up(t) == TurnOf(parent) then [t] else [])
          + (if Visited(parent, walk) then ChildrenOf(f, parent) else [])
    decreases |f.nodes| - depth, 0
  {
    ChildrenAreDeeper(f, t, depth);
    DepthIsBelowSize(f, t, depth);
    NotItsOwnParent(f, t, depth);
    var list := f.kids(t);
    var below := WalkAll(f, list, depth + 1);
    forall u | u in list ensures f.up(u) == Some(t) {
    }
    if TurnOf(parent) == Some(t) {
      DepthIsUnique(f.up, t, depth, parent.value.depth);
      NotBelowItself(f, list, depth + 1, parent.value);
    }
    WalkAllKeepsSiblings(f, list, depth + 1, parent, TurnOf(parent) == Some(t));
    TopAndBelow(f, t, depth, parent, below);
  }

  lemma FilterAfter<T(!new)>(f: Forest<T>, t: T, depth: nat, parent: Option<T>, below: seq<Visit<T>>)
    ensures Filter(Turns([Visit(t, depth)] + below), HasParent(f, parent))
      == (if f.up(t) == parent then [t] else []) + Filter(Turns(below), HasParent(f, parent))
  {
    TurnsConcat([Visit(t, depth)], below);
    FilterConcat([t], Turns(below), HasParent(f, parent));
    assert Filter([t], HasParent(f, parent)) == if f.up(t) == parent then [t] else [];
  }

  lemma TopAndBelow<T(!new)>(f: Forest<T>, t: T, depth: nat, parent: Option<Visit<T>>, below: seq<Visit<T>>)
    requires TurnOf(parent) == Some(t) ==> parent == Some(Visit(t, depth)) && parent.value !in below
    requires Filter(Turns(below), HasParent(f, TurnOf(parent))) ==
      (if TurnOf(parent) == Some(t) then f.kids(t) else [])
        + (if Visited(parent, below) then ChildrenOf(f, parent) else [])
    requires f.up(t) != Some(t)
    ensures
      var walk := [Visit(t, depth)] + below;
      Filter(Turns(walk), HasParent(f, TurnOf(parent))) ==
        (if f.up(t) == TurnOf(parent) then [t] else [])
          + (if Visited(parent, walk) then ChildrenOf(f, parent) else [])
  {
    FilterAfter(f, t, depth, TurnOf(parent), below);
    VisitedAfter(t, depth, parent, below);
    var kept := Filter(Turns(below), HasParent(f, TurnOf(parent)));
    if TurnOf(parent) == Some(t) {
      assert kept == f.kids(t);
      assert [] + kept == kept;
    } else {
      assert kept == if Visited(parent, below) then ChildrenOf(f, parent) else [];
    }
  }

  lemma VisitedAfter<T(!new)>(t: T, depth: nat, parent: Option<Visit<T>>, below: seq<Visit<T>>)
    requires TurnOf(parent) == Some(t) ==> parent == Some(Visit(t, depth))
    ensures Visited(parent, [Visit(t, depth)] + below) <==> TurnOf(parent) == Some(t) || Visited(parent, below)
  {
    assert [Visit(t, depth)] + below == [Visit(t, depth)] + below[..];
  }

  lemma NotBelowItself<T(!new)>(f: Forest<T>, list: seq<T>, depth: nat, v: Visit<T>)
    requires Fair(f) && AllAt(f, list, depth) && v.depth < depth
    ensures v !in WalkAll(f, list, depth)
  {
    if v in WalkAll(f, list, depth) {
      var t := WalkAllIsUnder(f, list, depth, v);
    }
  }

  lemma JoinSiblings<T(!new)>(
      f: Forest<T>, parent: Option<Visit<T>>, ours: bool, list: seq<T>, first: seq<Visit<T>>, rest: seq<Visit<T>>)
    requires list != [] && !(Visited(parent, first) && Visited(parent, rest))
    requires ours ==> !Visited(parent, first) && !Visited(parent, rest)
    requires Filter(Turns(first), HasParent(f, TurnOf(parent))) ==
      (if ours then [list[0]] else []) + (if Visited(parent, first) then ChildrenOf(f, parent) else [])
    requires Filter(Turns(rest), HasParent(f, TurnOf(parent))) ==
      (if ours then list[1..] else []) + (if Visited(parent, rest) then ChildrenOf(f, parent) else [])
    ensures Filter(Turns(first + rest), HasParent(f, TurnOf(parent))) ==
      (if ours then list else []) + (if Visited(parent, first + rest) then ChildrenOf(f, parent) else [])
  {
    var keep := HasParent(f, TurnOf(parent));
    assert Filter(Turns(first + rest), keep) == Filter(Turns(first), keep) + Filter(Turns(rest), keep) by {
      TurnsConcat(first, rest);
      FilterConcat(Turns(first), Turns(rest), keep);
    }
    assert Visited(parent, first + rest) <==> Visited(parent, first) || Visited(parent, rest);
    Glue(Filter(Turns(first), keep), Filter(Turns(rest), keep), list, ChildrenOf(f, parent),
         ours, Visited(parent, first), Visited(parent, rest));
  }

  lemma Glue<T>(a: seq<T>, b: seq<T>, list: seq<T>, kids: seq<T>, ours: bool, inA: bool, inB: bool)
    requires list != [] && !(inA && inB) && (ours ==> !inA && !inB)
    requires a == (if ours then [list[0]] else []) + (if inA then kids else [])
    requires b == (if ours then list[1..] else []) + (if inB then kids else [])
    ensures a + b == (if ours then list else []) + (if inA || inB then kids else [])
  {
    if ours {
      assert a == [list[0]] && b == list[1..];
    }
  }

  lemma {:induction false} WalkAllKeepsSiblings<T(!new)>(
      f: Forest<T>, list: seq<T>, depth: nat, parent: Option<Visit<T>>, ours: bool)
    requires Fair(f) && AllAt(f, list, depth) && NoRepeat(list) && InTree(f, parent)
    requires forall u <- list :: (f.up(u) == TurnOf(parent)) == ours
    requires ours && parent.Some? ==> parent.value.depth < depth
    ensures
      var walk := WalkAll(f, list, depth);
      Filter(Turns(walk), HasParent(f, TurnOf(parent))) ==
        (if ours then list else []) + (if Visited(parent, walk) then ChildrenOf(f, parent) else [])
    decreases |f.nodes| - depth, |list|
  {
    if list != [] {
      var first, rest := Walk(f, list[0], depth), WalkAll(f, list[1..], depth);
      WalkKeepsSiblings(f, list[0], depth, parent);
      WalkAllKeepsSiblings(f, list[1..], depth, parent, ours);
      if ours && parent.Some? {
        NotBelowItself(f, list, depth, parent.value);
      } else if Visited(parent, first) && Visited(parent, rest) {
        WalksAreApart(f, list, depth, parent.value, parent.value);
      }
      JoinSiblings(f, parent, ours, list, first, rest);
    }
  }

  /** Over the whole walk: the turns at the top stand in the order of `roots`, and those
      under one visited turn in the order of its `kids`, however far apart they are. */
  lemma SiblingsKeepTheirOrder<T(!new)>(f: Forest<T>, parent: Option<Visit<T>>)
    requires Fair(f) && (parent.Some? ==> parent.value in Visits(f))
    ensures Filter(Turns(Visits(f)), HasParent(f, TurnOf(parent))) ==
              if parent.None? then f.roots else f.kids(parent.value.turn)
  {
    RootsAreAtZero(f);
    if parent.Some? {
      VisitedExactlyWhenReachable(f, parent.value);
    }
    WalkAllKeepsSiblings(f, f.roots, 0, parent, parent.None?);
  }

  /** In preorder, whatever stands after a visit and deeper than it, with nothing shallower
      between, descends from it. */
  lemma {:induction false} DeeperDescends<T(!new)>(f: Forest<T>, visits: seq<Visit<T>>, depth: nat, j: nat, m: nat)
    requires Preorder(f, visits, depth) && j < m < |visits|
    requires forall k :: j < k <= m ==> visits[k].depth > visits[j].depth
    ensures Climb(f.up, visits[m].turn, visits[m].depth - visits[j].depth) == Some(visits[j].turn)
  {
    assert AfterItsParent(f, visits, m);
    var p :| 0 <= p < m && ParentAt(f, visits, p, m);
    if p > j {
      DeeperDescends(f, visits, depth, j, p);
    } else {
      assert Climb(f.up, visits[p].turn, 0) == Some(visits[p].turn);
    }
  }

  lemma BetweenDescends<T(!new)>(f: Forest<T>, visits: seq<Visit<T>>, depth: nat, j: nat, m: nat, i: nat)
      returns (n: nat)
    requires Preorder(f, visits, depth) && j < m < i < |visits| && ParentAt(f, visits, j, i)
    ensures n > 0 && Climb(f.up, visits[m].turn, n) == Some(visits[j].turn)
  {
    n := visits[m].depth - visits[j].depth;
    DeeperDescends(f, visits, depth, j, m);
  }
}
