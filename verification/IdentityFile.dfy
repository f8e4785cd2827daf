/** Where the identity file lives, and a crash-safe write. */
module IdentityFile {

  /* `find_config`, `project_root`, `migrate_project_name` and `_render_project` of `client.py`,
     with the process dying between any two file operations.  `C` is the content of a whole
     file. */

  import opened Wrappers

  datatype Scratch<C> = Torn | Whole(content: C)

  /** One directory: the two names an identity file may wear, the temporary file beside
      them, whether this is a repository root, and whether git tracks the legacy name. */
  datatype Dir<C> = Dir(
    current: Option<C>,
    legacy: Option<C>,
    scratch: Option<Scratch<C>>,
    git: bool,
    tracked: bool)

  datatype Name = Current | Legacy

  datatype Place = Place(depth: nat, name: Name)

  /** The working directory first, then its parents. */
  type Chain<C> = seq<Dir<C>>

  function FileAt<C>(chain: Chain<C>, at: Place): Option<C>
    requires at.depth < |chain|
  {
    if at.name.Current? then chain[at.depth].current else chain[at.depth].legacy
  }

  /** `find_config`: the nearest directory decides, the current name first, and no search
      above a repository root. */
  function FindFrom<C>(chain: Chain<C>, depth: nat): (r: Option<Place>)
    requires depth <= |chain|
    ensures r.Some? ==> depth <= r.value.depth < |chain| && FileAt(chain, r.value).Some?
    decreases |chain| - depth
  {
    if depth == |chain| then None
    else if chain[depth].current.Some? then Some(Place(depth, Current))
    else if chain[depth].legacy.Some? then Some(Place(depth, Legacy))
    else if chain[depth].git then None
    else FindFrom(chain, depth + 1)
  }

  function RootFrom<C>(chain: Chain<C>, depth: nat): (r: nat)
    requires 0 < |chain| && depth <= |chain|
    ensures r < |chain|
    decreases |chain| - depth
  {
    if depth == |chain| then 0 else if chain[depth].git then depth else RootFrom(chain, depth + 1)
  }

  function Find<C>(chain: Chain<C>): (r: Option<Place>)
    ensures r.Some? ==> r.value.depth < |chain| && FileAt(chain, r.value).Some?
  {
    FindFrom(chain, 0)
  }

  /** The identity in force: what every reader of the project resolves to. */
  function Identity<C>(chain: Chain<C>): Option<C> {
    match Find(chain)
    case Some(at) => FileAt(chain, at)
    case None => None
  }

  /** Where every writer locates its target, under the project lock. */
  function Target<C>(chain: Chain<C>): (at: Place)
    requires 0 < |chain|
    ensures at.depth < |chain|
  {
    match Find(chain)
    case Some(at) => at
    case None => Place(RootFrom(chain, 0), Current)
  }

  /** `migrate_project_name`, without what it says: where the write lands. */
  function Destination<C>(chain: Chain<C>, target: Place): Place
    requires target.depth < |chain|
  {
    if target.name.Legacy? && (chain[target.depth].current.Some? || !chain[target.depth].tracked)
    then Place(target.depth, Current)
    else target
  }

  /** The directory after the first `ops` of the four file operations of a render: the
      temporary file opened, then complete, then renamed into place, then the old name
      removed if the file moved. */
  function RenderedDir<C>(dir: Dir<C>, target: Name, dest: Name, content: C, ops: nat): Dir<C> {
    if ops == 0 then dir
    else if ops == 1 then dir.(scratch := Some(Torn))
    else if ops == 2 then dir.(scratch := Some(Whole(content)))
    else
      var landed := if dest.Current? then dir.(current := Some(content), scratch := None)
                    else dir.(legacy := Some(content), scratch := None);
      if ops >= 4 && target != dest then landed.(legacy := None) else landed
  }

  function Render<C>(chain: Chain<C>, target: Place, content: C, ops: nat): (r: Chain<C>)
    requires target.depth < |chain|
    ensures |r| == |chain|
  {
    var dest := Destination(chain, target);
    chain[target.depth := RenderedDir(chain[target.depth], target.name, dest.name, content, ops)]
  }

  /** A whole write: locate, compute the new content from what is in force, render, and die
      after `ops` file operations (four or more: not at all). */
  function Write<C>(chain: Chain<C>, make: Option<C> -> C, ops: nat): (r: Chain<C>)
    requires 0 < |chain|
    ensures |r| == |chain|
  {
    Render(chain, Target(chain), make(Identity(chain)), ops)
  }

  /** The file operations one by one, as the source performs them. */
  class Project<C> {
    var dirs: Chain<C>

    constructor (dirs: Chain<C>)
      ensures this.dirs == dirs
    {
      this.dirs := dirs;
    }

    method FindConfig() returns (found: Option<Place>)
      ensures found == Find(dirs)
    {
      for i := 0 to |dirs|
        invariant Find(dirs) == FindFrom(dirs, i)
      {
        if dirs[i].current.Some? {
          return Some(Place(i, Current));
        }
        if dirs[i].legacy.Some? {
          return Some(Place(i, Legacy));
        }
        if dirs[i].git {
          return None;
        }
      }
      return None;
    }

    method ProjectRoot() returns (depth: nat)
      requires 0 < |dirs|
      ensures depth == RootFrom(dirs, 0)
    {
      for i := 0 to |dirs|
        invariant RootFrom(dirs, 0) == RootFrom(dirs, i)
      {
        if dirs[i].git {
          return i;
        }
      }
      return 0;
    }

    /** What every project writer does with the lock held. */
    method Update(make: Option<C> -> C, budget: nat)
      requires 0 < |dirs|
      modifies this
      ensures dirs == Write(old(dirs), make, budget)
    {
      var found := FindConfig();
      var target: Place;
      var existing: Option<C> := None;
      if found.Some? {
        target := found.value;
        existing := FileAt(dirs, target);
      } else {
        var root := ProjectRoot();
        target := Place(root, Current);
      }
      RenderProject(target, make(existing), budget);
    }

    method RenderProject(target: Place, content: C, budget: nat)
      requires target.depth < |dirs|
      modifies this
      ensures dirs == Render(old(dirs), target, content, budget)
    {
      var dest, d := target, target.depth;
      if target.name.Legacy? {
        if dirs[d].current.Some? || !dirs[d].tracked {
          dest := Place(d, Current);
        }
      }
      var moved := dest != target;
      if budget == 0 {
        return;
      }
      dirs := dirs[d := dirs[d].(scratch := Some(Torn))];
      if budget == 1 {
        return;
      }
      dirs := dirs[d := dirs[d].(scratch := Some(Whole(content)))];
      if budget == 2 {
        return;
      }
      if dest.name.Current? {
        dirs := dirs[d := dirs[d].(current := Some(dirs[d].scratch.value.content), scratch := None)];
      } else {
        dirs := dirs[d := dirs[d].(legacy := Some(dirs[d].scratch.value.content), scratch := None)];
      }
      if budget == 3 {
        return;
      }
      if moved && dirs[d].legacy.Some? {
        dirs := dirs[d := dirs[d].(legacy := None)];
      }
    }
  }

  // --- crash safety ------------------------------------------------------------------

  lemma {:induction false} FindStopsHere<C>(chain: Chain<C>, next: Chain<C>, from: nat, depth: nat)
    requires from <= depth < |chain| == |next|
    requires forall i :: from <= i < depth ==>
               chain[i] == next[i] && !chain[i].git && chain[i].current.None? && chain[i].legacy.None?
    ensures FindFrom(next, from) == FindFrom(next, depth)
    ensures FindFrom(chain, from) == FindFrom(chain, depth)
    decreases depth - from
  {
    if from < depth {
      FindStopsHere(chain, next, from + 1, depth);
    }
  }

  lemma {:induction false} FindAgrees<C>(chain: Chain<C>, next: Chain<C>, from: nat)
    requires from <= |chain| == |next| && forall i :: from <= i < |chain| ==> chain[i] == next[i]
    ensures FindFrom(next, from) == FindFrom(chain, from)
    decreases |chain| - from
  {
    if from < |chain| {
      FindAgrees(chain, next, from + 1);
    }
  }

  lemma {:induction false} NothingBeforeTarget<C>(chain: Chain<C>, from: nat, upto: nat)
    requires 0 < |chain| && from <= upto < |chain|
    requires match FindFrom(chain, from) {
               case Some(at) => upto == at.depth
               case None =>
                  (forall i :: 0 <= i < from ==> !chain[i].git) && upto == RootFrom(chain, from) && from <= upto
             }
    ensures forall i :: from <= i < upto ==> !chain[i].git && chain[i].current.None? && chain[i].legacy.None?
    decreases |chain| - from
  {
    if from < upto {
      NothingBeforeTarget(chain, from + 1, upto);
    }
  }

  lemma {:induction false} RootIsTheNearest<C>(chain: Chain<C>, from: nat)
    requires 0 < |chain| && from <= |chain|
    ensures
      var root := RootFrom(chain, from);
      || (from <= root && chain[root].git && forall i :: from <= i < root ==> !chain[i].git)
      || (root == 0 && forall i :: from <= i < |chain| ==> !chain[i].git)
    decreases |chain| - from
  {
    if from < |chain| {
      RootIsTheNearest(chain, from + 1);
    }
  }

  lemma {:induction false} NoneFound<C>(chain: Chain<C>, from: nat)
    requires from <= |chain| && FindFrom(chain, from).None?
    requires forall i :: from <= i < |chain| ==> !chain[i].git
    ensures forall i :: from <= i < |chain| ==> chain[i].current.None? && chain[i].legacy.None?
    decreases |chain| - from
  {
    if from < |chain| {
      NoneFound(chain, from + 1);
    }
  }

  /** Where a writer writes, from the directories alone: the nearest one that holds an identity
      file or is a repository root, the current name going before the legacy one; and the
      working directory if no directory is either. */
  lemma TargetIsTheNearest<C>(chain: Chain<C>)
    requires 0 < |chain|
    ensures
      var at := Target(chain);
      var here := chain[at.depth];
      && (forall i :: 0 <= i < at.depth ==> !chain[i].git && chain[i].current.None? && chain[i].legacy.None?)
      && (at.name.Legacy? <==> here.current.None? && here.legacy.Some?)
      && (here.current.None? && here.legacy.None? && !here.git ==>
            at.depth == 0 && forall dir <- chain :: !dir.git && dir.current.None? && dir.legacy.None?)
      && Identity(chain) == if here.current.Some? then here.current else here.legacy
  {
    NothingBeforeTarget(chain, 0, Target(chain).depth);
    RootIsTheNearest(chain, 0);
    FoundLegacyIsAlone(chain, 0);
    if Find(chain).None? {
      NoneHere(chain, 0, Target(chain).depth);
      if forall dir <- chain :: !dir.git {
        NoneFound(chain, 0);
      }
    }
  }

  lemma {:induction false} NoneHere<C>(chain: Chain<C>, from: nat, depth: nat)
    requires from <= depth < |chain| && FindFrom(chain, from).None?
    requires forall i :: from <= i < depth ==> !chain[i].git
    ensures chain[depth].current.None? && chain[depth].legacy.None?
    decreases depth - from
  {
    if from < depth {
      NoneHere(chain, from + 1, depth);
    }
  }

  /** The crash theorem: wherever a write dies, every reader afterwards resolves to the
      complete old identity or the complete new one: new from the rename on, old before. */
  lemma CrashSafe<C>(chain: Chain<C>, make: Option<C> -> C, ops: nat)
    requires 0 < |chain|
    ensures Identity(Write(chain, make, ops)) ==
              if ops >= 3 then Some(make(Identity(chain))) else Identity(chain)
    ensures Identity(chain).Some? ==> Identity(Write(chain, make, ops)).Some?
  {
    var target := Target(chain);
    var next := Write(chain, make, ops);
    NothingBeforeTarget(chain, 0, target.depth);
    FindStopsHere(chain, next, 0, target.depth);
    FindAgrees(chain, next, target.depth + 1);
    var found := FindFrom(chain, target.depth + 1);
    assert found.Some? ==> found.value.depth > target.depth;
    assert Find(chain) == FindFrom(chain, target.depth);
    assert Find(next) == FindFrom(next, target.depth);
  }

  /** A writer and how many of its file operations happened. */
  datatype Attempt<!C> = Attempt(make: Option<C> -> C, ops: nat)

  function WriteAll<C>(chain: Chain<C>, attempts: seq<Attempt<C>>): (r: Chain<C>)
    requires 0 < |chain|
    ensures |r| == |chain|
    decreases |attempts|
  {
    if attempts == [] then chain else WriteAll(Write(chain, attempts[0].make, attempts[0].ops), attempts[1..])
  }

  /** The writers that got past their rename, applied to one value in turn. */
  function Committed<C>(identity: Option<C>, attempts: seq<Attempt<C>>): Option<C>
    decreases |attempts|
  {
    if attempts == [] then identity
    else if attempts[0].ops >= 3 then Committed(Some(attempts[0].make(identity)), attempts[1..])
    else Committed(identity, attempts[1..])
  }

  /** Any sequence of writers under the lock, each dying anywhere or not at all, from any
      starting files, leaves one identity in force: what the committed ones made of it. */
  lemma {:induction false} RunsAreCrashSafe<C>(chain: Chain<C>, attempts: seq<Attempt<C>>)
    requires 0 < |chain|
    ensures Identity(WriteAll(chain, attempts)) == Committed(Identity(chain), attempts)
    decreases |attempts|
  {
    if attempts != [] {
      CrashSafe(chain, attempts[0].make, attempts[0].ops);
      RunsAreCrashSafe(Write(chain, attempts[0].make, attempts[0].ops), attempts[1..]);
    }
  }

  // --- which files a writer touches --------------------------------------------------

  /** No writer that located its target through `find_config` reaches the "both files are
      here" branch for a legacy target, or removes a legacy file beside a current one. */
  lemma BothFilesIsUnreachable<C>(chain: Chain<C>, make: Option<C> -> C, ops: nat)
    requires 0 < |chain|
    ensures Target(chain).name.Legacy? ==> chain[Target(chain).depth].current.None?
    ensures forall i :: 0 <= i < |chain| && chain[i].current.Some? ==>
              Write(chain, make, ops)[i].legacy == chain[i].legacy
  {
    FoundLegacyIsAlone(chain, 0);
  }

  lemma {:induction false} FoundLegacyIsAlone<C>(chain: Chain<C>, from: nat)
    requires from <= |chain|
    ensures FindFrom(chain, from).Some? && FindFrom(chain, from).value.name.Legacy? ==>
              chain[FindFrom(chain, from).value.depth].current.None?
    decreases |chain| - from
  {
    if from < |chain| {
      FoundLegacyIsAlone(chain, from + 1);
    }
  }

  /** Called with a legacy target beside a current file, the branch would not do what it
      says: it reports the older file left exactly as it is, and the render removes it. */
  lemma BothFilesBranchWouldRemove<C>(chain: Chain<C>, depth: nat, content: C)
    requires depth < |chain| && chain[depth].current.Some? && chain[depth].legacy.Some?
    ensures Render(chain, Place(depth, Legacy), content, 4)[depth].legacy.None?
    ensures Render(chain, Place(depth, Current), content, 4)[depth].legacy == chain[depth].legacy
  {
  }

  /** A complete write moves a legacy file to the current name exactly when git does not
      track it; a tracked one is rewritten in place and never gains a twin. */
  lemma MigratesUnlessTracked<C>(chain: Chain<C>, make: Option<C> -> C)
    requires 0 < |chain| && Target(chain).name.Legacy?
    ensures
      var d, next := Target(chain).depth, Write(chain, make, 4);
      var content := Some(make(Identity(chain)));
      if chain[d].tracked then next[d].current.None? && next[d].legacy == content
      else next[d].current == content && next[d].legacy.None?
  {
    FoundLegacyIsAlone(chain, 0);
  }

  /** A migration that dies between the rename and the unlink leaves both files, and no
      later writer, whatever becomes of it, removes or changes the older one. */
  lemma HalfMigrationStays<C>(chain: Chain<C>, make: Option<C> -> C, attempts: seq<Attempt<C>>)
    requires 0 < |chain| && Target(chain).name.Legacy? && !chain[Target(chain).depth].tracked
    ensures
      var d, next := Target(chain).depth, WriteAll(Write(chain, make, 3), attempts);
      next[d].current.Some? && next[d].legacy == chain[d].legacy && next[d].legacy.Some?
  {
    FoundLegacyIsAlone(chain, 0);
    BothStay(Write(chain, make, 3), Target(chain).depth, attempts);
  }

  lemma {:induction false} BothStay<C>(chain: Chain<C>, d: nat, attempts: seq<Attempt<C>>)
    requires d < |chain| && chain[d].current.Some? && chain[d].legacy.Some?
    ensures WriteAll(chain, attempts)[d].current.Some?
    ensures WriteAll(chain, attempts)[d].legacy == chain[d].legacy
    decreases |attempts|
  {
    if attempts != [] {
      BothFilesIsUnreachable(chain, attempts[0].make, attempts[0].ops);
      BothStay(Write(chain, attempts[0].make, attempts[0].ops), d, attempts[1..]);
    }
  }
}
