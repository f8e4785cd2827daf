/** `thread_tree` of `console.py`: a thread laid out for display from parent pointers alone. */
module ThreadTree {
  import opened Ancestry
  import opened Forests
  import opened Sorting
  import opened Text
  import opened Wrappers

  datatype Turn = Turn(id: string, inReplyTo: string, published: string)

  datatype Row = Row(turn: Turn, depth: nat, orphan: bool)

  const MAX_NEST: nat := 6

  function Parent(t: Turn): string {
    if t.inReplyTo != "" then Leaf(t.inReplyTo) else ""
  }

  /** `by_id`: a later turn wins a name. */
  function Lookup(turns: seq<Turn>, name: string): (r: Option<Turn>)
    ensures r.Some? ==> r.value in turns && Leaf(r.value.id) == name
    ensures r.None? ==> forall t <- turns :: t.id != "" ==> Leaf(t.id) != name
  {
    if turns == [] then None
    else
      var last := turns[|turns| - 1];
      if last.id != "" && Leaf(last.id) == name then Some(last) else Lookup(turns[..|turns| - 1], name)
  }

  function Up(turns: seq<Turn>): Turn -> Option<Turn> {
    t => if Parent(t) == "" then None else Lookup(turns, Parent(t))
  }

  /** Every turn has a name of its own. */
  ghost predicate WellNamed(turns: seq<Turn>) {
    forall i, j {:trigger Leaf(turns[i].id), Leaf(turns[j].id)} ::
      0 <= i < j < |turns| ==> Leaf(turns[i].id) != Leaf(turns[j].id)
  }

  predicate IsOrphan(turns: seq<Turn>, t: Turn) {
    Parent(t) != "" && Lookup(turns, Parent(t)).None?
  }

  predicate Earlier(a: Turn, b: Turn) {
    !Below(b.published, a.published)
  }

  function IsRoot(turns: seq<Turn>): Turn -> bool {
    t => Up(turns)(t).None?
  }

  function IsChildOf(turns: seq<Turn>, name: string): Turn -> bool {
    t => Up(turns)(t).Some? && Parent(t) == name
  }

  function Roots(turns: seq<Turn>): seq<Turn> {
    Sort(Filter(turns, IsRoot(turns)), Earlier)
  }

  function Children(turns: seq<Turn>, t: Turn): seq<Turn> {
    Sort(Filter(turns, IsChildOf(turns, Leaf(t.id))), Earlier)
  }

  lemma SameNameSameTurn(turns: seq<Turn>, t: Turn, u: Turn)
    requires WellNamed(turns) && t in turns && u in turns && Leaf(t.id) == Leaf(u.id)
    ensures t == u
  {
    var i :| 0 <= i < |turns| && turns[i] == t;
    var j :| 0 <= j < |turns| && turns[j] == u;
  }

  lemma UpFinds(turns: seq<Turn>, t: Turn, u: Turn)
    requires WellNamed(turns) && t in turns
    ensures Up(turns)(u) == Some(t) <==> Up(turns)(u).Some? && Parent(u) == Leaf(t.id)
  {
    if Up(turns)(u).Some? && Parent(u) == Leaf(t.id) {
      SameNameSameTurn(turns, t, Up(turns)(u).value);
    }
  }

  /** The children of a turn are exactly the turns whose parent it is. */
  lemma ChildrenAre(turns: seq<Turn>, t: Turn, u: Turn)
    requires WellNamed(turns) && t in turns
    ensures u in Children(turns, t) <==> u in turns && Up(turns)(u) == Some(t)
  {
    UpFinds(turns, t, u);
    FilterMembers(turns, IsChildOf(turns, Leaf(t.id)), u);
    SortedMembers(Filter(turns, IsChildOf(turns, Leaf(t.id))), Earlier, u);
  }

  lemma RootsAre(turns: seq<Turn>, u: Turn)
    ensures u in Roots(turns) <==> u in turns && Up(turns)(u).None?
  {
    FilterMembers(turns, IsRoot(turns), u);
    SortedMembers(Filter(turns, IsRoot(turns)), Earlier, u);
  }

  function ForestOf(turns: seq<Turn>): Forest<Turn> {
    Forest(turns, Up(turns), t => Children(turns, t), Roots(turns))
  }

  lemma NamedTurnsDiffer(turns: seq<Turn>)
    requires WellNamed(turns)
    ensures NoRepeat(turns)
  {
    forall i, j | 0 <= i < j < |turns| ensures turns[i] != turns[j] {
      assert Leaf(turns[i].id) != Leaf(turns[j].id);
    }
  }

  lemma SiblingsDoNotRepeat(turns: seq<Turn>, keep: Turn -> bool)
    requires WellNamed(turns)
    ensures NoRepeat(Sort(Filter(turns, keep), Earlier))
  {
    NamedTurnsDiffer(turns);
    FilterKeepsNoRepeat(turns, keep);
    SortKeepsNoRepeat(Filter(turns, keep), Earlier);
  }

  lemma NamedKidsAreFair(turns: seq<Turn>)
    requires WellNamed(turns)
    ensures forall t: Turn, u: Turn {:trigger u in Children(turns, t)} ::
              t in turns ==> (u in Children(turns, t) <==> u in turns && Up(turns)(u) == Some(t))
    ensures forall t <- turns :: NoRepeat(Children(turns, t))
  {
    forall t | t in turns ensures NoRepeat(Children(turns, t)) {
      SiblingsDoNotRepeat(turns, IsChildOf(turns, Leaf(t.id)));
    }
    forall t: Turn, u: Turn | t in turns
      ensures u in Children(turns, t) <==> u in turns && Up(turns)(u) == Some(t)
    {
      ChildrenAre(turns, t, u);
    }
  }

  lemma NamedTurnsAreFair(turns: seq<Turn>)
    requires WellNamed(turns)
    ensures Fair(ForestOf(turns))
  {
    NamedKidsAreFair(turns);
    SiblingsDoNotRepeat(turns, IsRoot(turns));
    forall u: Turn ensures u in Roots(turns) <==> u in turns && Up(turns)(u).None? {
      RootsAre(turns, u);
    }
  }

  // --- the laid-out thread -----------------------------------------------------------

  function Capped(depth: nat): nat {
    if depth < MAX_NEST then depth else MAX_NEST
  }

  function RowOf(turns: seq<Turn>, v: Visit<Turn>): Row {
    Row(v.turn, Capped(v.depth), IsOrphan(turns, v.turn))
  }

  function Rows(turns: seq<Turn>, visits: seq<Visit<Turn>>): (r: seq<Row>)
    ensures |r| == |visits| && forall i :: 0 <= i < |r| ==> r[i] == RowOf(turns, visits[i])
  {
    seq(|visits|, i requires 0 <= i < |visits| => RowOf(turns, visits[i]))
  }

  function Stranded(turns: seq<Turn>): (r: seq<Row>)
    ensures |r| == |turns| && forall i :: 0 <= i < |r| ==> r[i] == Row(turns[i], 0, true)
  {
    seq(|turns|, i requires 0 <= i < |turns| => Row(turns[i], 0, true))
  }

  function Missing(seen: seq<Turn>): Turn -> bool {
    t => t !in seen
  }

  ghost function VisitsOf(turns: seq<Turn>): seq<Visit<Turn>>
    requires WellNamed(turns)
  {
    NamedTurnsAreFair(turns);
    Visits(ForestOf(turns))
  }

  /** The turns the walk does not reach, in the order they came. */
  ghost function Unreached(turns: seq<Turn>): seq<Turn>
    requires WellNamed(turns)
  {
    Filter(turns, Missing(Turns(VisitsOf(turns))))
  }

  /** What `thread_tree` returns. */
  ghost function Tree(turns: seq<Turn>): seq<Row>
    requires WellNamed(turns)
  {
    Rows(turns, VisitsOf(turns)) + Stranded(Unreached(turns))
  }

  function TurnsOf(rows: seq<Row>): (r: seq<Turn>)
    ensures |r| == |rows| && forall i :: 0 <= i < |r| ==> r[i] == rows[i].turn
  {
    seq(|rows|, i requires 0 <= i < |rows| => rows[i].turn)
  }

  ghost predicate IsReachable(turns: seq<Turn>, t: Turn) {
    Reachable(Up(turns), t)
  }

  lemma VisitedAreReachable(turns: seq<Turn>, t: Turn)
    requires WellNamed(turns)
    ensures t in Turns(VisitsOf(turns)) <==> t in turns && Reachable(Up(turns), t)
  {
    NamedTurnsAreFair(turns);
    TurnVisitedExactlyWhenReachable(ForestOf(turns), t);
  }

  lemma ShownTurns(turns: seq<Turn>)
    requires WellNamed(turns)
    ensures TurnsOf(Tree(turns)) == Turns(VisitsOf(turns)) + Unreached(turns)
  {
  }

  lemma VisitsDoNotRepeat(turns: seq<Turn>)
    requires WellNamed(turns)
    ensures NoRepeat(Turns(VisitsOf(turns)))
  {
    NamedTurnsAreFair(turns);
    RootsAreAtZero(ForestOf(turns));
    WalkAllDoesNotRepeat(ForestOf(turns), Roots(turns), 0);
  }

  lemma ShownOnce(turns: seq<Turn>, seen: seq<Turn>)
    requires NoRepeat(turns) && NoRepeat(seen) && forall t :: t in seen ==> t in turns
    ensures multiset(seen + Filter(turns, Missing(seen))) == multiset(turns)
  {
    var rest := Filter(turns, Missing(seen));
    FilterKeepsNoRepeat(turns, Missing(seen));
    forall t ensures t in rest <==> t in turns && t !in seen {
      FilterMembers(turns, Missing(seen), t);
    }
    NoRepeatConcat(seen, rest);
    SameMembersSameMultiset(seen + rest, turns);
  }

  /** On any parent pointers, self-loops and cycles included, every turn is shown exactly
      once. */
  lemma EveryTurnOnce(turns: seq<Turn>)
    requires WellNamed(turns)
    ensures multiset(TurnsOf(Tree(turns))) == multiset(turns)
  {
    ShownTurns(turns);
    NamedTurnsDiffer(turns);
    VisitsDoNotRepeat(turns);
    forall t | t in Turns(VisitsOf(turns)) ensures t in turns {
      VisitedAreReachable(turns, t);
    }
    ShownOnce(turns, Turns(VisitsOf(turns)));
  }

  /** A turn whose chain of parents ends is shown at the chain's length, capped, and flagged
      exactly when it answers a turn that is not here. */
  lemma DepthIsTheChain(turns: seq<Turn>, i: nat) returns (n: nat)
    requires WellNamed(turns) && i < |VisitsOf(turns)|
    ensures
      var row := Tree(turns)[i];
      && row.turn in turns && DepthIs(Up(turns), row.turn, n)
      && row.depth == (if n < 6 then n else 6)
      && (row.orphan <==> Parent(row.turn) != "" && Up(turns)(row.turn).None?)
  {
    NamedTurnsAreFair(turns);
    var v := VisitsOf(turns)[i];
    VisitedExactlyWhenReachable(ForestOf(turns), v);
    n := v.depth;
    assert Tree(turns)[i] == RowOf(turns, v);
  }

  /** The turns whose chain never ends, and only those, come last, in the order given, at
      the top level and flagged. */
  lemma UnreachableComeLast(turns: seq<Turn>)
    requires WellNamed(turns)
    ensures
      var rest := Tree(turns)[|VisitsOf(turns)|..];
      && TurnsOf(rest) == Filter(turns, t => !IsReachable(turns, t))
      && forall row <- rest :: row.depth == 0 && row.orphan
    ensures forall row <- Tree(turns)[..|VisitsOf(turns)|] :: IsReachable(turns, row.turn)
  {
    var visits := VisitsOf(turns);
    assert Tree(turns)[|visits|..] == Stranded(Unreached(turns));
    assert Tree(turns)[..|visits|] == Rows(turns, visits);
    forall t | t in turns ensures Missing(Turns(visits))(t) == !IsReachable(turns, t) {
      VisitedAreReachable(turns, t);
    }
    FilterAgrees(turns, Missing(Turns(visits)), t => !IsReachable(turns, t));
    forall row | row in Rows(turns, visits) ensures IsReachable(turns, row.turn) {
      assert row.turn in Turns(visits);
      VisitedAreReachable(turns, row.turn);
    }
  }

  lemma VisitsAreInPreorder(turns: seq<Turn>)
    requires WellNamed(turns)
    ensures Fair(ForestOf(turns)) && Preorder(ForestOf(turns), VisitsOf(turns), 0)
  {
    NamedTurnsAreFair(turns);
    RootsAreAtZero(ForestOf(turns));
    WalkAllIsPreorder(ForestOf(turns), Roots(turns), 0);
  }

  /** The turn at row `m` descends from the one at row `j`. */
  ghost predicate Descends(turns: seq<Turn>, m: nat, j: nat)
    requires WellNamed(turns) && m < |Tree(turns)| && j < |Tree(turns)|
  {
    exists n: nat :: n > 0 && Climb(Up(turns), Tree(turns)[m].turn, n) == Some(Tree(turns)[j].turn)
  }

  lemma RowsBetweenDescend(turns: seq<Turn>, j: nat, m: nat, i: nat)
    requires WellNamed(turns) && j < m < i < |VisitsOf(turns)| && ParentAt(ForestOf(turns), VisitsOf(turns), j, i)
    ensures Descends(turns, m, j)
  {
    VisitsAreInPreorder(turns);
    var n := BetweenDescends(ForestOf(turns), VisitsOf(turns), 0, j, m, i);
    DescendsBy(turns, j, m, n);
  }

  lemma DescendsBy(turns: seq<Turn>, j: nat, m: nat, n: nat)
    requires WellNamed(turns) && j < |VisitsOf(turns)| && m < |VisitsOf(turns)| && n > 0
    requires Climb(Up(turns), VisitsOf(turns)[m].turn, n) == Some(VisitsOf(turns)[j].turn)
    ensures Descends(turns, m, j)
  {
    assert Tree(turns)[m].turn == VisitsOf(turns)[m].turn && Tree(turns)[j].turn == VisitsOf(turns)[j].turn;
  }

  lemma ParentRow(turns: seq<Turn>, i: nat) returns (j: nat)
    requires WellNamed(turns) && i < |VisitsOf(turns)| && Up(turns)(VisitsOf(turns)[i].turn).Some?
    ensures j < i && ParentAt(ForestOf(turns), VisitsOf(turns), j, i)
  {
    var f, visits := ForestOf(turns), VisitsOf(turns);
    VisitsAreInPreorder(turns);
    VisitedExactlyWhenReachable(f, visits[i]);
    assert visits[i].depth > 0;
    assert AfterItsParent(f, visits, i);
    j :| 0 <= j < i && ParentAt(f, visits, j, i);
  }

  /** An answer stands after the turn it answers, and everything between them descends
      from that turn. */
  lemma AnswersFollowTheirParent(turns: seq<Turn>, i: nat) returns (j: nat)
    requires WellNamed(turns) && i < |VisitsOf(turns)| && Up(turns)(Tree(turns)[i].turn).Some?
    ensures j < i && Up(turns)(Tree(turns)[i].turn) == Some(Tree(turns)[j].turn)
    ensures forall m :: j < m < i ==> Descends(turns, m, j)
  {
    j := ParentRow(turns, i);
    forall m | j < m < i ensures Descends(turns, m, j) {
      RowsBetweenDescend(turns, j, m, i);
    }
  }

  lemma EarlierIsAPreorder()
    ensures TotalPreorder(Earlier)
  {
    forall a: Turn, b: Turn ensures Earlier(a, b) || Earlier(b, a) {
      BelowAsymmetric(a.published, b.published);
    }
    forall a: Turn, b: Turn, c: Turn | Earlier(a, b) && Earlier(b, c) ensures Earlier(a, c) {
      EarlierChains(a, b, c);
    }
  }

  lemma EarlierChains(a: Turn, b: Turn, c: Turn)
    requires Earlier(a, b) && Earlier(b, c)
    ensures Earlier(a, c)
  {
    if Below(c.published, a.published) {
      BelowTotal(a.published, b.published);
      if a.published != b.published {
        BelowTransitive(c.published, a.published, b.published);
      }
    }
  }

  /** The turns at the top of the thread, or those answering one turn. */
  function Answering(turns: seq<Turn>, parent: Option<Turn>): Turn -> bool {
    t => Up(turns)(t) == parent
  }

  predicate PublishedAt(t: Turn, published: string) {
    t.published == published
  }

  lemma AnsweringFilter(turns: seq<Turn>, parent: Option<Turn>)
    requires WellNamed(turns) && (parent.Some? ==> parent.value in turns)
    ensures Sort(Filter(turns, Answering(turns, parent)), Earlier) ==
              if parent.None? then Roots(turns) else Children(turns, parent.value)
  {
    match parent
    case None => FilterAgrees(turns, Answering(turns, parent), IsRoot(turns));
    case Some(t) =>
      forall u | u in turns ensures Answering(turns, parent)(u) == IsChildOf(turns, Leaf(t.id))(u) {
        UpFinds(turns, t, u);
      }
      FilterAgrees(turns, Answering(turns, parent), IsChildOf(turns, Leaf(t.id)));
  }

  /** The top of the thread, and the answers to any turn shown in it, read forwards: all the
      turns that belong there, in order of `published`, and as they came where that ties. */
  lemma SiblingsReadForwards(turns: seq<Turn>, parent: Option<Turn>, published: string)
    requires WellNamed(turns) && (parent.Some? ==> parent.value in turns && Reachable(Up(turns), parent.value))
    ensures
      var shown := Filter(Turns(VisitsOf(turns)), Answering(turns, parent));
      var belong := Filter(turns, Answering(turns, parent));
      && (forall i, j :: 0 <= i < j < |shown| ==> !Below(shown[j].published, shown[i].published))
      && multiset(shown) == multiset(belong)
      && Filter(shown, t => PublishedAt(t, published)) == Filter(belong, t => PublishedAt(t, published))
  {
    NamedTurnsAreFair(turns);
    var f, visits := ForestOf(turns), VisitsOf(turns);
    var place := None;
    if parent.Some? {
      var n: nat :| DepthIs(Up(turns), parent.value, n);
      place := Some(Visit(parent.value, n));
      VisitedExactlyWhenReachable(f, place.value);
    }
    SiblingsKeepTheirOrder(f, place);
    FilterAgrees(Turns(visits), Answering(turns, parent), HasParent(f, TurnOf(place)));
    AnsweringFilter(turns, parent);
    EarlierIsAPreorder();
    var belong := Filter(turns, Answering(turns, parent));
    SortSorts(belong, Earlier);
    SortPermutes(belong, Earlier);
    forall a: Turn, b: Turn | PublishedAt(a, published) && PublishedAt(b, published) ensures Earlier(a, b) {
      BelowAsymmetric(a.published, b.published);
    }
    SortIsStable(belong, Earlier, t => PublishedAt(t, published));
  }

  // --- on the ids --------------------------------------------------------------------

  /** `u` answers `t`: the last segment of the URI it answers is the last segment of t's id. */
  predicate Answers(u: Turn, t: Turn) {
    && u.inReplyTo != "" && t.id != ""
    && Leaf(u.inReplyTo) != "" && Leaf(u.inReplyTo) == Leaf(t.id)
  }

  lemma UpIsTheAnswered(turns: seq<Turn>)
    requires WellNamed(turns)
    ensures UpIs(turns, Up(turns), Answers)
  {
    assert Leaf("") == "";
    forall u, t | u in turns && t in turns ensures Up(turns)(u) == Some(t) <==> Answers(u, t) {
      UpFinds(turns, t, u);
    }
  }

  /** Where a turn stands, from the ids and URIs alone: as deep as the chain of answered turns
      above it is long, at most six; after the turn it answers; and flagged exactly when it
      names a turn that is not here. */
  lemma ChainedTurnsStand(turns: seq<Turn>, chain: seq<Turn>) returns (i: nat, j: nat)
    requires WellNamed(turns) && Chain(turns, Answers, chain)
    ensures i < |Tree(turns)|
    ensures Tree(turns)[i] ==
              Row(chain[0], if |chain| <= 6 then |chain| - 1 else 6,
                  |chain| == 1 && chain[0].inReplyTo != "" && Leaf(chain[0].inReplyTo) != "")
    ensures |chain| > 1 ==> j < i && Tree(turns)[j].turn == chain[1]
  {
    UpIsTheAnswered(turns);
    ChainIsTheClimb(turns, Up(turns), Answers, chain, 0);
    i := RowAtDepth(turns, chain[0], |chain| - 1);
    TopOfChain(turns, chain);
    j := 0;
    if |chain| > 1 {
      ChainIsTheClimb(turns, Up(turns), Answers, chain, 1);
      j := ParentRow(turns, i);
      assert Tree(turns)[j] == RowOf(turns, VisitsOf(turns)[j]);
    }
  }

  lemma RowAtDepth(turns: seq<Turn>, t: Turn, n: nat) returns (i: nat)
    requires WellNamed(turns) && t in turns && DepthIs(Up(turns), t, n)
    ensures i < |VisitsOf(turns)| && VisitsOf(turns)[i] == Visit(t, n)
    ensures Tree(turns)[i] == RowOf(turns, Visit(t, n))
  {
    NamedTurnsAreFair(turns);
    VisitedExactlyWhenReachable(ForestOf(turns), Visit(t, n));
    i :| 0 <= i < |VisitsOf(turns)| && VisitsOf(turns)[i] == Visit(t, n);
  }

  lemma TopOfChain(turns: seq<Turn>, chain: seq<Turn>)
    requires WellNamed(turns) && Chain(turns, Answers, chain)
    ensures Up(turns)(chain[0]) == if |chain| == 1 then None else Some(chain[1])
    ensures IsOrphan(turns, chain[0]) <==> |chain| == 1 && chain[0].inReplyTo != "" && Leaf(chain[0].inReplyTo) != ""
  {
    UpIsTheAnswered(turns);
    ChainIsTheClimb(turns, Up(turns), Answers, chain, 0);
    if |chain| > 1 {
      ChainIsTheClimb(turns, Up(turns), Answers, chain, 1);
    }
  }

  /** The walk reaches a turn exactly when its chain of answered turns ends. */
  lemma ReachedExactlyWhenChained(turns: seq<Turn>, t: Turn)
    requires WellNamed(turns) && t in turns
    ensures IsReachable(turns, t) <==> exists chain :: Chain(turns, Answers, chain) && chain[0] == t
  {
    UpIsTheAnswered(turns);
    ReachedByAChain(turns, Up(turns), Answers, t);
  }

  /** An answer to a turn that is reached stands after it, one deeper up to the cap, and is
      not flagged. */
  lemma AnswersStandUnder(turns: seq<Turn>, t: Turn, u: Turn) returns (j: nat, i: nat)
    requires WellNamed(turns) && t in turns && u in turns && IsReachable(turns, t) && t.id != ""
    requires u.inReplyTo != "" && Leaf(u.inReplyTo) != "" && Leaf(u.inReplyTo) == Leaf(t.id)
    ensures j < i < |Tree(turns)| && Tree(turns)[j].turn == t
    ensures Tree(turns)[i] == Row(u, if Tree(turns)[j].depth < 6 then Tree(turns)[j].depth + 1 else 6, false)
  {
    ReachedExactlyWhenChained(turns, t);
    var chain :| Chain(turns, Answers, chain) && chain[0] == t;
    LongerChain(turns, Answers, u, chain);
    i, j := ChainedTurnsStand(turns, [u] + chain);
    var k, above := ChainedTurnsStand(turns, chain);
    OneRowEach(turns, j, k);
  }

  lemma OneRowEach(turns: seq<Turn>, j: nat, k: nat)
    requires WellNamed(turns) && j < |Tree(turns)| && k < |Tree(turns)| && Tree(turns)[j].turn == Tree(turns)[k].turn
    ensures j == k
  {
    EveryTurnOnce(turns);
    NamedTurnsDiffer(turns);
    var shown := TurnsOf(Tree(turns));
    NoRepeatInMultiset(shown);
    NoRepeatInMultiset(turns);
    assert shown[j] == shown[k];
  }

  /** A turn that names nobody stands at the top unflagged, one that names a turn not here
      stands there flagged. */
  lemma AnswersNobodyHere(turns: seq<Turn>, u: Turn) returns (i: nat)
    requires WellNamed(turns) && u in turns
    requires u.inReplyTo != "" && Leaf(u.inReplyTo) != "" ==>
               forall t <- turns :: t.id != "" ==> Leaf(t.id) != Leaf(u.inReplyTo)
    ensures i < |Tree(turns)| && Tree(turns)[i] == Row(u, 0, u.inReplyTo != "" && Leaf(u.inReplyTo) != "")
  {
    assert Chain(turns, Answers, [u]);
    var j;
    i, j := ChainedTurnsStand(turns, [u]);
  }

  // --- the code ----------------------------------------------------------------------

  lemma FilterOneMore(turns: seq<Turn>, i: nat, keep: Turn -> bool)
    requires i < |turns|
    ensures Filter(turns[..i + 1], keep) == Filter(turns[..i], keep) + (if keep(turns[i]) then [turns[i]] else [])
  {
    assert turns[..i + 1] == turns[..i] + [turns[i]];
    FilterConcat(turns[..i], [turns[i]], keep);
  }

  function Names(turns: seq<Turn>): set<string> {
    set t | t in turns && t.id != "" :: Leaf(t.id)
  }

  lemma {:induction false} LookupFinds(turns: seq<Turn>, name: string)
    ensures Lookup(turns, name).Some? <==> name in Names(turns)
  {
    if turns != [] {
      var last, before := turns[|turns| - 1], turns[..|turns| - 1];
      LookupFinds(before, name);
      assert turns == before + [last];
      if name in Names(before) {
        var t :| t in before && t.id != "" && Leaf(t.id) == name;
        assert t in turns;
      }
    }
  }

  /** The three branches of the grouping loop. */
  lemma Placed(turns: seq<Turn>, t: Turn)
    ensures IsRoot(turns)(t) <==> Parent(t) == "" || Parent(t) !in Names(turns)
    ensures IsOrphan(turns, t) <==> Parent(t) != "" && Parent(t) !in Names(turns)
    ensures forall name: string :: IsChildOf(turns, name)(t) <==> !IsRoot(turns)(t) && Parent(t) == name
  {
    LookupFinds(turns, Parent(t));
    assert Up(turns)(t) == if Parent(t) == "" then None else Lookup(turns, Parent(t));
  }

  function OrphanNames(turns: seq<Turn>, upTo: nat): set<string>
    requires upTo <= |turns|
  {
    set t | t in turns[..upTo] && IsOrphan(turns, t) :: Leaf(t.id)
  }

  lemma OrphanOneMore(turns: seq<Turn>, i: nat)
    requires i < |turns|
    ensures OrphanNames(turns, i + 1) ==
              OrphanNames(turns, i) + if IsOrphan(turns, turns[i]) then {Leaf(turns[i].id)} else {}
  {
    assert turns[..i + 1] == turns[..i] + [turns[i]];
  }

  function Show(orphans: set<string>, v: Visit<Turn>): Row {
    Row(v.turn, Capped(v.depth), Leaf(v.turn.id) in orphans)
  }

  function ShowAll(orphans: set<string>, visits: seq<Visit<Turn>>): seq<Row> {
    seq(|visits|, i requires 0 <= i < |visits| => Show(orphans, visits[i]))
  }

  /** The rows of the walk from `t`. */
  ghost function RowsUnder(f: Forest<Turn>, orphans: set<string>, t: Turn, depth: nat): seq<Row> {
    if Fair(f) && t in f.nodes && DepthIs(f.up, t, depth) then ShowAll(orphans, Walk(f, t, depth)) else []
  }

  ghost function RowsUnderAll(f: Forest<Turn>, orphans: set<string>, list: seq<Turn>, depth: nat): seq<Row> {
    if Fair(f) && AllAt(f, list, depth) then ShowAll(orphans, WalkAll(f, list, depth)) else []
  }

  lemma ShowWalk(f: Forest<Turn>, orphans: set<string>, t: Turn, depth: nat)
    requires Fair(f) && t in f.nodes && DepthIs(f.up, t, depth)
    ensures AllAt(f, f.kids(t), depth + 1) && depth < |f.nodes|
    ensures RowsUnder(f, orphans, t, depth) ==
              [Show(orphans, Visit(t, depth))] + RowsUnderAll(f, orphans, f.kids(t), depth + 1)
  {
    ChildrenAreDeeper(f, t, depth);
    DepthIsBelowSize(f, t, depth);
  }

  lemma ShowWalkAll(f: Forest<Turn>, orphans: set<string>, list: seq<Turn>, depth: nat)
    requires Fair(f) && AllAt(f, list, depth) && list != []
    ensures AllAt(f, list[1..], depth) && DepthIs(f.up, list[0], depth) && list[0] in f.nodes
    ensures RowsUnderAll(f, orphans, list, depth) ==
              RowsUnder(f, orphans, list[0], depth) + RowsUnderAll(f, orphans, list[1..], depth)
  {
  }

  lemma OrphanByName(turns: seq<Turn>, t: Turn)
    requires WellNamed(turns) && t in turns
    ensures Leaf(t.id) in OrphanNames(turns, |turns|) <==> IsOrphan(turns, t)
  {
    assert turns[..|turns|] == turns;
    if Leaf(t.id) in OrphanNames(turns, |turns|) {
      var u :| u in turns && IsOrphan(turns, u) && Leaf(u.id) == Leaf(t.id);
      SameNameSameTurn(turns, t, u);
    }
  }

  /** The local state of one `thread_tree` call. */
  class Layout {
    var children: map<string, seq<Turn>>
    var roots: seq<Turn>
    var orphans: set<string>
    var ordered: seq<Row>

    constructor ()
      ensures children == map[] && roots == [] && orphans == {} && ordered == []
    {
      children, roots, orphans, ordered := map[], [], {}, [];
    }

    function ChildrenNamed(name: string): seq<Turn>
      reads this`children
    {
      if name in children then children[name] else []
    }

    ghost predicate Grouped(turns: seq<Turn>, upTo: nat)
      requires upTo <= |turns|
      reads this
    {
      && roots == Filter(turns[..upTo], IsRoot(turns))
      && (forall name: string :: ChildrenNamed(name) == Filter(turns[..upTo], IsChildOf(turns, name)))
      && orphans == OrphanNames(turns, upTo)
    }

    method Group(turns: seq<Turn>)
      requires children == map[] && roots == [] && orphans == {}
      modifies this`children, this`roots, this`orphans
      ensures Grouped(turns, |turns|)
    {
      var named := Names(turns);
      for i := 0 to |turns|
        invariant Grouped(turns, i)
      {
        Place(turns, named, i);
      }
    }

    method Place(turns: seq<Turn>, named: set<string>, i: nat)
      requires i < |turns| && named == Names(turns) && Grouped(turns, i)
      modifies this`children, this`roots, this`orphans
      ensures Grouped(turns, i + 1)
    {
      var turn := turns[i];
      var parent := Parent(turn);
      ghost var before := children;
      if parent == "" {
        roots := roots + [turn];
      } else if parent in named {
        children := children[parent := ChildrenNamed(parent) + [turn]];
      } else {
        orphans := orphans + {Leaf(turn.id)};
        roots := roots + [turn];
      }
      Placed(turns, turn);
      FilterOneMore(turns, i, IsRoot(turns));
      OrphanOneMore(turns, i);
      forall name: string ensures ChildrenNamed(name) == Filter(turns[..i + 1], IsChildOf(turns, name)) {
        FilterOneMore(turns, i, IsChildOf(turns, name));
      }
    }

    ghost predicate Holds(f: Forest<Turn>)
      reads this`children
    {
      Fair(f) && forall t <- f.nodes :: KidsHeld(f, t)
    }

    ghost predicate KidsHeld(f: Forest<Turn>, t: Turn)
      reads this`children
    {
      f.kids(t) == Sort(ChildrenNamed(Leaf(t.id)), Earlier)
    }

    method Walk(ghost f: Forest<Turn>, turn: Turn, depth: nat)
      requires Holds(f) && turn in f.nodes && DepthIs(f.up, turn, depth)
      modifies this`ordered
      ensures ordered == old(ordered) + RowsUnder(f, orphans, turn, depth)
      decreases |f.nodes| - depth, 0
    {
      ShowWalk(f, orphans, turn, depth);
      Regroup(ordered, [Show(orphans, Visit(turn, depth))], RowsUnderAll(f, orphans, f.kids(turn), depth + 1));
      var kids := Answers(f, turn);
      ordered := ordered + [Row(turn, Capped(depth), Leaf(turn.id) in orphans)];
      WalkEach(f, kids, depth + 1);
    }

    method Answers(ghost f: Forest<Turn>, turn: Turn) returns (kids: seq<Turn>)
      requires KidsHeld(f, turn)
      ensures kids == f.kids(turn)
    {
      kids := Sort(ChildrenNamed(Leaf(turn.id)), Earlier);
    }

    /** The loop over siblings, of the walk and of the roots alike. */
    method WalkEach(ghost f: Forest<Turn>, siblings: seq<Turn>, depth: nat)
      requires Holds(f) && AllAt(f, siblings, depth)
      modifies this`ordered
      ensures ordered == old(ordered) + RowsUnderAll(f, orphans, siblings, depth)
      decreases |f.nodes| - depth, 1
    {
      ghost var all := ordered + RowsUnderAll(f, orphans, siblings, depth);
      for j := 0 to |siblings|
        invariant AllAt(f, siblings[j..], depth)
        invariant ordered + RowsUnderAll(f, orphans, siblings[j..], depth) == all
      {
        ShowWalkAll(f, orphans, siblings[j..], depth);
        assert siblings[j..][1..] == siblings[j + 1..];
        Regroup(ordered, RowsUnder(f, orphans, siblings[j], depth), RowsUnderAll(f, orphans, siblings[j + 1..], depth));
        Walk(f, siblings[j], depth);
      }
    }
  }

  lemma ShownRows(turns: seq<Turn>)
    requires WellNamed(turns)
    ensures ShowAll(OrphanNames(turns, |turns|), VisitsOf(turns)) == Rows(turns, VisitsOf(turns))
  {
    var visits := VisitsOf(turns);
    forall i | 0 <= i < |visits| ensures Show(OrphanNames(turns, |turns|), visits[i]) == RowOf(turns, visits[i]) {
      assert visits[i].turn in Turns(visits);
      VisitedAreReachable(turns, visits[i].turn);
      OrphanByName(turns, visits[i].turn);
    }
  }

  /** `thread_tree`. */
  method ThreadTree(turns: seq<Turn>) returns (ordered: seq<Row>)
    requires WellNamed(turns)
    ensures ordered == Tree(turns)
  {
    var layout := new Layout();
    layout.Group(turns);
    assert turns[..|turns|] == turns;
    NamedTurnsAreFair(turns);
    RootsAreAtZero(ForestOf(turns));
    layout.WalkEach(ForestOf(turns), Sort(layout.roots, Earlier), 0);
    ShownRows(turns);
    ordered := AppendUnreached(turns, layout.ordered);
  }

  lemma StrandOneMore(turns: seq<Turn>, i: nat, visited: seq<Turn>)
    requires i < |turns|
    ensures Stranded(Filter(turns[..i + 1], Missing(visited))) ==
              Stranded(Filter(turns[..i], Missing(visited)))
                + (if turns[i] !in visited then [Row(turns[i], 0, true)] else [])
  {
    FilterOneMore(turns, i, Missing(visited));
  }

  function NamesShown(rows: seq<Row>): set<string> {
    set row | row in rows :: Leaf(row.turn.id)
  }

  /** What the walk never reached goes last. */
  method AppendUnreached(turns: seq<Turn>, walked: seq<Row>) returns (ordered: seq<Row>)
    requires WellNamed(turns) && walked == Rows(turns, VisitsOf(turns))
    ensures ordered == Tree(turns)
  {
    ordered := walked;
    var seen := NamesShown(walked);
    ghost var visited := Turns(VisitsOf(turns));
    for i := 0 to |turns|
      invariant ordered == walked + Stranded(Filter(turns[..i], Missing(visited)))
    {
      StrandOneMore(turns, i, visited);
      Regroup(walked, Stranded(Filter(turns[..i], Missing(visited))), [Row(turns[i], 0, true)]);
      SeenByName(turns, turns[i]);
      if Leaf(turns[i].id) !in seen {
        ordered := ordered + [Row(turns[i], 0, true)];
      }
    }
    assert turns[..|turns|] == turns;
  }

  lemma SeenByName(turns: seq<Turn>, t: Turn)
    requires WellNamed(turns) && t in turns
    ensures Leaf(t.id) in NamesShown(Rows(turns, VisitsOf(turns))) <==> t in Turns(VisitsOf(turns))
  {
    var visits := VisitsOf(turns);
    forall row | row in Rows(turns, visits) && Leaf(row.turn.id) == Leaf(t.id) ensures t in Turns(visits) {
      VisitedAreReachable(turns, row.turn);
      assert row.turn in Turns(visits);
      SameNameSameTurn(turns, t, row.turn);
    }
    if t in Turns(visits) {
      var i :| 0 <= i < |visits| && visits[i].turn == t;
      assert Rows(turns, visits)[i].turn == t;
    }
  }
}
