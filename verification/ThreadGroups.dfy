/** `Api._threads` of `api.py`: the unread page gathered into conversations. */
module ThreadGroups {
  import opened Ancestry
  import opened Folds
  import opened Sorting
  import opened Text
  import opened Wrappers

  datatype Record = Record(id: string, inReplyTo: string, published: string, summary: string, sender: string,
                           recipients: nat)

  datatype Summary = Summary(root: string, subject: string, unread: nat, lastFrom: string, lastPublished: string,
                             broadcast: bool)

  function ById(waiting: seq<Record>): map<string, Record> {
    if waiting == [] then map[]
    else ById(waiting[..|waiting| - 1])[waiting[|waiting| - 1].id := waiting[|waiting| - 1]]
  }

  /** The id a message answers, if that message is on the page too. */
  function Up(byId: map<string, Record>): string -> Option<string> {
    id => if id in byId && byId[id].inReplyTo != "" && byId[id].inReplyTo in byId
          then Some(byId[id].inReplyTo) else None
  }

  /** The message ids of the hub are unique. */
  ghost predicate Distinct(waiting: seq<Record>) {
    forall i, j {:trigger waiting[i].id, waiting[j].id} :: 0 <= i < j < |waiting| ==> waiting[i].id != waiting[j].id
  }

  lemma {:induction false} ByIdFinds(waiting: seq<Record>)
    requires Distinct(waiting)
    ensures forall r <- waiting :: r.id in ById(waiting) && ById(waiting)[r.id] == r
    ensures forall id <- ById(waiting) :: ById(waiting)[id] in waiting && ById(waiting)[id].id == id
  {
    if waiting != [] {
      var before := waiting[..|waiting| - 1];
      ByIdFinds(before);
      assert waiting == before + [waiting[|waiting| - 1]];
    }
  }

  // --- roots -------------------------------------------------------------------------

  ghost predicate Closed<T>(up: T -> Option<T>, nodes: set<T>) {
    forall x <- nodes :: up(x).Some? ==> up(x).value in nodes
  }

  /** The loop of `root_of` from its current message. */
  function RootFrom<T(==)>(up: T -> Option<T>, t: T, seen: set<T>, ghost nodes: set<T>): T
    requires Closed(up, nodes) && t in nodes
    decreases nodes - seen
  {
    if up(t).None? || t in seen then t else RootFrom(up, up(t).value, seen + {t}, nodes)
  }

  ghost predicate OnCycle<T>(up: T -> Option<T>, t: T) {
    exists n: nat :: n > 0 && Climb(up, t, n) == Some(t)
  }

  /** On the way up from `t`, `r` is the first message that answers nothing on the page or
      lies on a cycle. */
  ghost predicate IsRootAt<T>(up: T -> Option<T>, t: T, r: T, n: nat) {
    && Climb(up, t, n) == Some(r)
    && (up(r).None? || OnCycle(up, r))
    && (forall i: nat :: i < n ==> Climb(up, t, i).Some? && !OnCycle(up, Climb(up, t, i).value))
  }

  lemma RootIsUnique<T>(up: T -> Option<T>, t: T, r: T, m: nat, s: T, n: nat)
    requires IsRootAt(up, t, r, m) && IsRootAt(up, t, s, n)
    ensures r == s && m == n
  {
    if m < n {
      ClimbOn(up, t, m, n - m);
    } else if n < m {
      ClimbOn(up, t, n, m - n);
    }
  }

  /** What the loop has done after `n` steps from `t`: it stands at the n-th ancestor and
      has seen the ones before, all different. */
  ghost predicate Climbed<T(!new)>(up: T -> Option<T>, t: T, n: nat, current: T, seen: set<T>) {
    && Climb(up, t, n) == Some(current)
    && (forall i: nat :: i < n ==> Climb(up, t, i).Some? && Climb(up, t, i).value in seen)
    && (forall x <- seen :: exists i: nat :: i < n && Climb(up, t, i) == Some(x))
    && (forall i: nat, j: nat :: i < j < n ==> Climb(up, t, i) != Climb(up, t, j))
  }

  /** Once the climb has returned to step `k`, it stays among steps `k` to `n`. */
  lemma {:induction false} LoopStays<T>(up: T -> Option<T>, t: T, k: nat, n: nat, j: nat) returns (i: nat)
    requires k < n && Climb(up, t, k) == Climb(up, t, n) && Climb(up, t, n).Some? && j >= k
    ensures k <= i < n && Climb(up, t, j) == Climb(up, t, i)
  {
    if j < n {
      i := j;
    } else {
      ClimbOn(up, t, n, j - n);
      ClimbOn(up, t, k, j - n);
      i := LoopStays(up, t, k, n, k + (j - n));
    }
  }

  lemma ReturnIsRoot<T(!new)>(up: T -> Option<T>, t: T, n: nat, current: T, seen: set<T>) returns (k: nat)
    requires Climbed(up, t, n, current, seen) && current in seen
    ensures IsRootAt(up, t, current, k)
  {
    k :| k < n && Climb(up, t, k) == Some(current);
    ClimbOn(up, t, k, n - k);
    assert OnCycle(up, current);
    forall i: nat | i < k ensures Climb(up, t, i).Some? && !OnCycle(up, Climb(up, t, i).value) {
      var x := Climb(up, t, i).value;
      if OnCycle(up, x) {
        var m: nat :| m > 0 && Climb(up, x, m) == Some(x);
        CycleFromEarlier(up, t, n, k, i, m);
      }
    }
  }

  lemma CycleFromEarlier<T>(up: T -> Option<T>, t: T, n: nat, k: nat, i: nat, m: nat)
    requires i < k < n && Climb(up, t, k) == Climb(up, t, n) && Climb(up, t, n).Some?
    requires forall i: nat, j: nat :: i < j < n ==> Climb(up, t, i) != Climb(up, t, j)
    requires Climb(up, t, i).Some? && m > 0
    ensures Climb(up, Climb(up, t, i).value, m) != Climb(up, t, i)
  {
    ClimbOn(up, t, i, m);
    if i + m >= k {
      var j := LoopStays(up, t, k, n, i + m);
    }
  }

  lemma TopIsRoot<T(!new)>(up: T -> Option<T>, t: T, n: nat)
    requires DepthIs(up, t, n)
    ensures IsRootAt(up, t, Climb(up, t, n).value, n)
  {
    forall i: nat | i < n ensures Climb(up, t, i).Some? && !OnCycle(up, Climb(up, t, i).value) {
      ClimbOn(up, t, i, n - i);
      var x := Climb(up, t, i).value;
      forall m: nat | m > 0 ensures Climb(up, x, m) != Some(x) {
        if Climb(up, x, m) == Some(x) {
          NoWayBack(up, x, n - i, m);
        }
      }
    }
  }

  lemma {:induction false} NoWayBack<T>(up: T -> Option<T>, x: T, depth: nat, m: nat)
    requires DepthIs(up, x, depth) && m > 0
    ensures Climb(up, x, m) != Some(x)
    decreases depth
  {
    if Climb(up, x, m) == Some(x) {
      ClimbOn(up, x, m, depth);
      ClimbOn(up, x, depth, m);
    }
  }

  lemma {:induction false} RootFromIsRoot<T(!new)>(
      up: T -> Option<T>, t: T, n: nat, current: T, seen: set<T>, nodes: set<T>) returns (k: nat)
    requires Closed(up, nodes) && current in nodes && Climbed(up, t, n, current, seen)
    ensures IsRootAt(up, t, RootFrom(up, current, seen, nodes), k)
    decreases nodes - seen
  {
    if up(current).None? {
      TopIsRoot(up, t, n);
      k := n;
    } else if current in seen {
      k := ReturnIsRoot(up, t, n, current, seen);
    } else {
      ClimbOneMore(up, t, n);
      k := RootFromIsRoot(up, t, n + 1, up(current).value, seen + {current}, nodes);
    }
  }

  function Root(waiting: seq<Record>, r: Record): string
    requires Distinct(waiting) && r in waiting
  {
    ByIdFinds(waiting);
    RootFrom(Up(ById(waiting)), r.id, {}, ById(waiting).Keys)
  }

  lemma RootIsRoot(waiting: seq<Record>, r: Record) returns (k: nat)
    requires Distinct(waiting) && r in waiting
    ensures IsRootAt(Up(ById(waiting)), r.id, Root(waiting, r), k)
  {
    ByIdFinds(waiting);
    k := RootFromIsRoot(Up(ById(waiting)), r.id, 0, r.id, {}, ById(waiting).Keys);
  }

  /** Two messages whose chains end share a conversation exactly when they share the
      topmost message of the page above them. */
  lemma AcyclicTurnsShareTheirTop(waiting: seq<Record>, a: Record, m: nat, b: Record, n: nat)
    requires Distinct(waiting) && a in waiting && b in waiting
    requires DepthIs(Up(ById(waiting)), a.id, m) && DepthIs(Up(ById(waiting)), b.id, n)
    ensures Root(waiting, a) == Root(waiting, b) <==>
              Climb(Up(ById(waiting)), a.id, m) == Climb(Up(ById(waiting)), b.id, n)
  {
    var up := Up(ById(waiting));
    TopIsRoot(up, a.id, m);
    TopIsRoot(up, b.id, n);
    var j := RootIsRoot(waiting, a);
    var k := RootIsRoot(waiting, b);
    RootIsUnique(up, a.id, Root(waiting, a), j, Climb(up, a.id, m).value, m);
    RootIsUnique(up, b.id, Root(waiting, b), k, Climb(up, b.id, n).value, n);
  }

  /** A tail into a cycle belongs to the message of the cycle it enters at. */
  lemma TailsRootAtTheirEntry(waiting: seq<Record>, r: Record, entry: string, n: nat)
    requires Distinct(waiting) && r in waiting
    requires Climb(Up(ById(waiting)), r.id, n) == Some(entry) && OnCycle(Up(ById(waiting)), entry)
    requires forall i: nat :: i < n ==> Climb(Up(ById(waiting)), r.id, i).Some?
                                        && !OnCycle(Up(ById(waiting)), Climb(Up(ById(waiting)), r.id, i).value)
    ensures Root(waiting, r) == entry
  {
    var k := RootIsRoot(waiting, r);
    RootIsUnique(Up(ById(waiting)), r.id, Root(waiting, r), k, entry, n);
  }

  /** On a cycle every message is its own root. */
  lemma CycleMembersRootThemselves(waiting: seq<Record>, r: Record)
    requires Distinct(waiting) && r in waiting && OnCycle(Up(ById(waiting)), r.id)
    ensures Root(waiting, r) == r.id
  {
    TailsRootAtTheirEntry(waiting, r, r.id, 0);
  }

  // --- on the fields -----------------------------------------------------------------

  /** `u` says it answers `t`. */
  predicate Answers(u: Record, t: Record) {
    u.inReplyTo != "" && u.inReplyTo == t.id
  }

  /** From a message of the page to the one it answers, and so on, never twice the same. */
  ghost predicate Path(waiting: seq<Record>, path: seq<Record>) {
    && path != [] && NoRepeat(path)
    && (forall r <- path :: r in waiting)
    && (forall j, k :: 0 <= j && k == j + 1 < |path| ==> Answers(path[j], path[k]))
  }

  lemma UpIsTheAnswered(waiting: seq<Record>, u: Record)
    requires Distinct(waiting) && u in waiting
    ensures forall t <- waiting :: Answers(u, t) ==> Up(ById(waiting))(u.id) == Some(t.id)
    ensures (forall t <- waiting :: !Answers(u, t)) ==> Up(ById(waiting))(u.id).None?
  {
    ByIdFinds(waiting);
  }

  lemma {:induction false} PathIsTheClimb(waiting: seq<Record>, path: seq<Record>, i: nat)
    requires Distinct(waiting) && Path(waiting, path) && i < |path|
    ensures Climb(Up(ById(waiting)), path[0].id, i) == Some(path[i].id)
  {
    if i > 0 {
      PathIsTheClimb(waiting, path, i - 1);
      ClimbOneMore(Up(ById(waiting)), path[0].id, i - 1);
      UpIsTheAnswered(waiting, path[i - 1]);
      assert Answers(path[i - 1], path[i]) && path[i] in waiting;
    }
  }

  /** A conversation is rooted at the message its members lead up to, one that answers nothing
      on the page. */
  lemma RootsAtTheTop(waiting: seq<Record>, path: seq<Record>)
    requires Distinct(waiting) && Path(waiting, path)
    requires forall t <- waiting :: !Answers(path[|path| - 1], t)
    ensures Root(waiting, path[0]) == path[|path| - 1].id
  {
    var up, top := Up(ById(waiting)), |path| - 1;
    PathIsTheClimb(waiting, path, top);
    UpIsTheAnswered(waiting, path[top]);
    TopIsRoot(up, path[0].id, top);
    var k := RootIsRoot(waiting, path[0]);
    RootIsUnique(up, path[0].id, Root(waiting, path[0]), k, path[top].id, top);
  }

  lemma OneStepFurther(waiting: seq<Record>, path: seq<Record>, r: Record)
    requires Distinct(waiting) && Path(waiting, path) && r in path && Answers(path[|path| - 1], r)
    ensures Climb(Up(ById(waiting)), path[0].id, |path|) == Some(r.id)
  {
    PathIsTheClimb(waiting, path, |path| - 1);
    UpIsTheAnswered(waiting, path[|path| - 1]);
    ClimbOneMore(Up(ById(waiting)), path[0].id, |path| - 1);
  }

  lemma StepsAreApart(waiting: seq<Record>, path: seq<Record>)
    requires Distinct(waiting) && Path(waiting, path)
    ensures
      var up, t := Up(ById(waiting)), path[0].id;
      forall i: nat, j: nat :: i < j < |path| ==> Climb(up, t, i) != Climb(up, t, j)
  {
    forall i: nat, j: nat | i < j < |path|
      ensures Climb(Up(ById(waiting)), path[0].id, i) != Climb(Up(ById(waiting)), path[0].id, j)
    {
      PathIsTheClimb(waiting, path, i);
      PathIsTheClimb(waiting, path, j);
      assert path[i] in waiting && path[j] in waiting && path[i] != path[j];
    }
  }

  lemma ReturnIsWhereItTurnsBack<T>(up: T -> Option<T>, t: T, n: nat, k: nat, r: T)
    requires k < n && Climb(up, t, k) == Climb(up, t, n) == Some(r)
    requires forall i: nat, j: nat :: i < j < n ==> Climb(up, t, i) != Climb(up, t, j)
    ensures IsRootAt(up, t, r, k)
  {
    ClimbOn(up, t, k, n - k);
    assert OnCycle(up, r);
    forall i: nat | i < k ensures Climb(up, t, i).Some? && !OnCycle(up, Climb(up, t, i).value) {
      ClimbOn(up, t, i, k - i);
      var x := Climb(up, t, i).value;
      if OnCycle(up, x) {
        var m: nat :| m > 0 && Climb(up, x, m) == Some(x);
        CycleFromEarlier(up, t, n, k, i, m);
      }
    }
  }

  /** Or, where the way up turns back on itself, at the message it turns back to. */
  lemma RootsWhereItTurnsBack(waiting: seq<Record>, path: seq<Record>, k: nat)
    requires Distinct(waiting) && Path(waiting, path) && k < |path| && Answers(path[|path| - 1], path[k])
    ensures Root(waiting, path[0]) == path[k].id
  {
    var up, t := Up(ById(waiting)), path[0].id;
    PathIsTheClimb(waiting, path, k);
    OneStepFurther(waiting, path, path[k]);
    StepsAreApart(waiting, path);
    ReturnIsWhereItTurnsBack(up, t, |path|, k, path[k].id);
    var m := RootIsRoot(waiting, path[0]);
    RootIsUnique(up, t, Root(waiting, path[0]), m, path[k].id, k);
  }

  // --- groups and summaries ----------------------------------------------------------

  function RootKey(waiting: seq<Record>): Record -> string
    requires Distinct(waiting)
  {
    r => if r in waiting then Root(waiting, r) else ""
  }

  function InGroup(waiting: seq<Record>, root: string): Record -> bool
    requires Distinct(waiting)
  {
    HasKey(RootKey(waiting), root)
  }

  function Roots(waiting: seq<Record>): (r: seq<string>)
    requires Distinct(waiting)
    ensures |r| == |waiting|
    ensures forall i :: 0 <= i < |waiting| ==> r[i] == Root(waiting, waiting[i])
  {
    Keys(waiting, RootKey(waiting))
  }

  function Group(waiting: seq<Record>, root: string): seq<Record>
    requires Distinct(waiting)
  {
    Filter(waiting, InGroup(waiting, root))
  }

  predicate Earlier(a: Record, b: Record) {
    !Below(b.published, a.published)
  }

  function Summarise(root: string, turns: seq<Record>): Summary
    requires turns != []
  {
    var ordered := Sort(turns, Earlier);
    var first, latest := ordered[0], ordered[|ordered| - 1];
    Summary(root,
            if first.summary != "" then first.summary
            else if latest.summary != "" then latest.summary
            else "(no subject)",
            |ordered|, latest.sender, latest.published, latest.recipients > 1)
  }

  predicate Newer(a: Summary, b: Summary) {
    !Below(a.lastPublished, b.lastPublished)
  }

  lemma GroupsAreNotEmpty(waiting: seq<Record>, root: string)
    requires Distinct(waiting) && root in Roots(waiting)
    ensures Group(waiting, root) != []
  {
    var i :| 0 <= i < |waiting| && Roots(waiting)[i] == root;
    FilterMembers(waiting, InGroup(waiting, root), waiting[i]);
  }

  function Summaries(waiting: seq<Record>, roots: seq<string>): (r: seq<Summary>)
    requires Distinct(waiting) && forall root <- roots :: root in Roots(waiting)
    ensures |r| == |roots|
  {
    if roots == [] then []
    else
      var root := roots[|roots| - 1];
      GroupsAreNotEmpty(waiting, root);
      Summaries(waiting, roots[..|roots| - 1]) + [Summarise(root, Group(waiting, root))]
  }

  /** What `_threads` returns. */
  function Threads(waiting: seq<Record>): seq<Summary>
    requires Distinct(waiting)
  {
    Sort(Summaries(waiting, FirstSeen(Roots(waiting))), Newer)
  }

  function Unread(threads: seq<Summary>): nat {
    if threads == [] then 0 else threads[0].unread + Unread(threads[1..])
  }

  lemma {:induction false} UnreadConcat(a: seq<Summary>, b: seq<Summary>)
    ensures Unread(a + b) == Unread(a) + Unread(b)
  {
    if a == [] {
      assert a + b == b;
    } else {
      assert (a + b)[1..] == a[1..] + b;
      UnreadConcat(a[1..], b);
    }
  }

  lemma {:induction false} InsertKeepsUnread(x: Summary, xs: seq<Summary>)
    ensures Unread(Insert(x, xs, Newer)) == x.unread + Unread(xs)
  {
    if xs != [] && !Newer(x, xs[0]) {
      InsertKeepsUnread(x, xs[1..]);
      assert ([xs[0]] + Insert(x, xs[1..], Newer))[1..] == Insert(x, xs[1..], Newer);
    } else {
      assert ([x] + xs)[1..] == xs;
    }
  }

  lemma {:induction false} SortKeepsUnread(xs: seq<Summary>)
    ensures Unread(Sort(xs, Newer)) == Unread(xs)
  {
    if xs != [] {
      SortKeepsUnread(xs[1..]);
      InsertKeepsUnread(xs[0], Sort(xs[1..], Newer));
    }
  }

  function RootedIn(waiting: seq<Record>, roots: seq<string>): Record -> bool
    requires Distinct(waiting)
  {
    r => r in waiting && Root(waiting, r) in roots
  }

  /** Filters for two disjoint conditions split the filter for their union. */
  lemma {:induction false} FilterSizesAdd<T>(xs: seq<T>, p: T -> bool, q: T -> bool, either: T -> bool)
    requires forall x <- xs :: !(p(x) && q(x)) && (either(x) <==> p(x) || q(x))
    ensures |Filter(xs, either)| == |Filter(xs, p)| + |Filter(xs, q)|
  {
    if xs != [] {
      FilterSizesAdd(xs[1..], p, q, either);
    }
  }

  lemma {:induction false} UnreadOfRoots(waiting: seq<Record>, roots: seq<string>)
    requires Distinct(waiting) && NoRepeat(roots) && forall root <- roots :: root in Roots(waiting)
    ensures Unread(Summaries(waiting, roots)) == |Filter(waiting, RootedIn(waiting, roots))|
  {
    if roots == [] {
      FilterNone(waiting, RootedIn(waiting, roots));
    } else {
      var before, root := roots[..|roots| - 1], roots[|roots| - 1];
      assert roots == before + [root];
      UnreadOfRoots(waiting, before);
      GroupsAreNotEmpty(waiting, root);
      UnreadConcat(Summaries(waiting, before), [Summarise(root, Group(waiting, root))]);
      FilterSizesAdd(waiting, RootedIn(waiting, before), InGroup(waiting, root), RootedIn(waiting, roots));
    }
  }

  /** The conversations partition the page: the unread counts add up to it, whatever the
      pointers say. */
  lemma ThreadsPartitionThePage(waiting: seq<Record>)
    requires Distinct(waiting)
    ensures Unread(Threads(waiting)) == |waiting|
  {
    var roots := FirstSeen(Roots(waiting));
    FirstSeenOnce(Roots(waiting));
    SortKeepsUnread(Summaries(waiting, roots));
    UnreadOfRoots(waiting, roots);
    forall r | r in waiting ensures RootedIn(waiting, roots)(r) {
      var i :| 0 <= i < |waiting| && waiting[i] == r;
      assert Roots(waiting)[i] == Root(waiting, r);
    }
    FilterAll(waiting, RootedIn(waiting, roots));
  }

  lemma EarlierIsTotal()
    ensures TotalPreorder(Earlier)
  {
    forall a: Record, b: Record ensures Earlier(a, b) || Earlier(b, a) {
      BelowAsymmetric(a.published, b.published);
    }
    forall a: Record, b: Record, c: Record | Earlier(a, b) && Earlier(b, c) ensures Earlier(a, c) {
      NotBelowChains(c.published, b.published, a.published);
    }
  }

  lemma NewerIsTotal()
    ensures TotalPreorder(Newer)
  {
    forall a: Summary, b: Summary ensures Newer(a, b) || Newer(b, a) {
      BelowAsymmetric(a.lastPublished, b.lastPublished);
    }
    forall a: Summary, b: Summary, c: Summary | Newer(a, b) && Newer(b, c) ensures Newer(a, c) {
      NotBelowChains(a.lastPublished, b.lastPublished, c.lastPublished);
    }
  }

  lemma NotBelowChains(a: string, b: string, c: string)
    requires !Below(a, b) && !Below(b, c)
    ensures !Below(a, c)
  {
    BelowTotal(a, b);
    BelowTotal(b, c);
    if Below(a, c) {
      BelowAsymmetric(a, c);
      if a != b && b != c {
        BelowTransitive(c, b, a);
      }
    }
  }

  lemma {:induction false} SummariesHold(waiting: seq<Record>, roots: seq<string>, s: Summary)
    requires Distinct(waiting) && forall root <- roots :: root in Roots(waiting)
    requires s in Summaries(waiting, roots)
    ensures s.root in roots && Group(waiting, s.root) != [] && s == Summarise(s.root, Group(waiting, s.root))
  {
    var before, root := roots[..|roots| - 1], roots[|roots| - 1];
    GroupsAreNotEmpty(waiting, root);
    if s != Summarise(root, Group(waiting, root)) {
      SummariesHold(waiting, before, s);
    }
  }

  /** Conversations come newest first, and each says who wrote last and what about: it counts
      all its messages, quotes one of them that none is newer than, and takes its subject from
      one that none is older than, or else from the last. */
  lemma ThreadsAreNewestFirst(waiting: seq<Record>, s: Summary) returns (first: Record, latest: Record)
    requires Distinct(waiting) && s in Threads(waiting)
    ensures
      var threads := Threads(waiting);
      forall i, j :: 0 <= i < j < |threads| ==> !Below(threads[i].lastPublished, threads[j].lastPublished)
    ensures s.unread == |Group(waiting, s.root)|
    ensures first in waiting && Root(waiting, first) == s.root
    ensures latest in waiting && Root(waiting, latest) == s.root
    ensures Quotes(s, first, latest)
    ensures forall r <- waiting :: Root(waiting, r) == s.root ==>
              !Below(s.lastPublished, r.published) && !Below(r.published, first.published)
  {
    var roots := FirstSeen(Roots(waiting));
    NewerIsTotal();
    SortSorts(Summaries(waiting, roots), Newer);
    SortedMembers(Summaries(waiting, roots), Newer, s);
    SummariesHold(waiting, roots, s);
    first, latest := EndsOf(Group(waiting, s.root), s.root);
    FilterMembers(waiting, InGroup(waiting, s.root), first);
    FilterMembers(waiting, InGroup(waiting, s.root), latest);
    forall r | r in waiting && Root(waiting, r) == s.root
      ensures !Below(s.lastPublished, r.published) && !Below(r.published, first.published)
    {
      FilterMembers(waiting, InGroup(waiting, s.root), r);
    }
  }

  ghost predicate Quotes(s: Summary, first: Record, latest: Record) {
    && s.lastPublished == latest.published && s.lastFrom == latest.sender
    && (s.broadcast <==> latest.recipients > 1)
    && (first.summary != "" ==> s.subject == first.summary)
    && (first.summary == "" && latest.summary != "" ==> s.subject == latest.summary)
    && (first.summary == "" && latest.summary == "" ==> s.subject == "(no subject)")
  }

  lemma EndsOf(turns: seq<Record>, root: string) returns (first: Record, latest: Record)
    requires turns != []
    ensures first in turns && latest in turns
    ensures forall r <- turns :: !Below(latest.published, r.published) && !Below(r.published, first.published)
    ensures Quotes(Summarise(root, turns), first, latest) && Summarise(root, turns).unread == |turns|
  {
    var ordered := Sort(turns, Earlier);
    first, latest := ordered[0], ordered[|ordered| - 1];
    EarlierIsTotal();
    SortSorts(turns, Earlier);
    SortedMembers(turns, Earlier, first);
    SortedMembers(turns, Earlier, latest);
    forall r | r in turns ensures !Below(latest.published, r.published) && !Below(r.published, first.published) {
      SortedMembers(turns, Earlier, r);
      var i :| 0 <= i < |ordered| && ordered[i] == r;
      BelowAsymmetric(r.published, r.published);
      assert i < |ordered| - 1 ==> Earlier(ordered[i], latest);
      assert i > 0 ==> Earlier(first, ordered[i]);
    }
  }

  // --- the code ----------------------------------------------------------------------

  method RootOf(byId: map<string, Record>, r: Record) returns (root: string)
    requires r.id in byId && Closed(Up(byId), byId.Keys)
    ensures root == RootFrom(Up(byId), r.id, {}, byId.Keys)
  {
    var seen: set<string> := {};
    root := r.id;
    while byId[root].inReplyTo != "" && byId[root].inReplyTo in byId
      invariant root in byId && seen <= byId.Keys
      invariant RootFrom(Up(byId), root, seen, byId.Keys) == RootFrom(Up(byId), r.id, {}, byId.Keys)
      decreases byId.Keys - seen
    {
      if root in seen {
        break;
      }
      seen := seen + {root};
      root := byId[root].inReplyTo;
    }
  }

  method RootOfTurn(waiting: seq<Record>, byId: map<string, Record>, i: nat) returns (root: string)
    requires Distinct(waiting) && byId == ById(waiting) && i < |waiting|
    ensures root == Root(waiting, waiting[i]) == RootKey(waiting)(waiting[i])
  {
    ByIdFinds(waiting);
    root := RootOf(byId, waiting[i]);
  }

  /** The dict `groups`; `order` is the order its keys were added in. */
  method GroupByRoot(waiting: seq<Record>) returns (groups: map<string, seq<Record>>, order: seq<string>)
    requires Distinct(waiting)
    ensures order == FirstSeen(Roots(waiting))
    ensures forall root <- order :: root in groups && groups[root] == Group(waiting, root)
  {
    var byId := ById(waiting);
    ghost var key := RootKey(waiting);
    groups, order := map[], [];
    for i := 0 to |waiting|
      invariant Grouped(waiting[..i], key, groups, order)
    {
      var root := RootOfTurn(waiting, byId, i);
      groups, order := AddTo(groups, order, root, waiting[i], waiting[..i], key);
      assert waiting[..i + 1] == waiting[..i] + [waiting[i]];
    }
    assert waiting[..|waiting|] == waiting;
  }

  /** `_threads`. */
  method GatherThreads(waiting: seq<Record>) returns (summaries: seq<Summary>)
    requires Distinct(waiting)
    ensures summaries == Threads(waiting)
  {
    var groups, order := GroupByRoot(waiting);
    summaries := [];
    for i := 0 to |order|
      invariant summaries == Summaries(waiting, order[..i])
    {
      assert order[..i + 1][..i] == order[..i];
      GroupsAreNotEmpty(waiting, order[i]);
      summaries := summaries + [Summarise(order[i], groups[order[i]])];
    }
    assert order[..|order|] == order;
    summaries := Sort(summaries, Newer);
  }
}
