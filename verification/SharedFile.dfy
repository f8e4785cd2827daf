/** Read-merge-write on top of the lock. */
module SharedFile {

  /* What `client.py` does for the project file and for the machine-wide file: a writer takes
     the lock, reads the whole file, computes a new one from what it read, and renames it into
     place.  `effect(w, c)` is what writer `w` makes of contents `c`, or None when it leaves
     the file alone. */

  import opened Wrappers
  import L = Locking

  datatype Job<W, C> = Nothing | Pending(w: W) | Loaded(w: W, seen: C) | Finished

  /** `log` is history: the writers that completed, each with its acquisition number. */
  datatype Sys<W, C> = Sys(
    lock: L.State,
    file: C,
    jobs: map<L.Pid, Job<W, C>>,
    log: seq<(nat, W)>)
  {
    function Job(p: L.Pid): Job<W, C> {
      if p in jobs then jobs[p] else Nothing
    }

    ghost predicate Inside(p: L.Pid) {
      lock.Alive(p) && lock.At(p).Holding?
    }
  }

  datatype Act<W> =
    | Lock(e: L.Event)
    | Begins(p: L.Pid, w: W, timeout: nat)
    | Load(p: L.Pid)
    | Store(p: L.Pid)

  /** Leaving without storing is the writer that raised; it changes nothing. */
  ghost predicate Enabled<W, C>(s: Sys<W, C>, a: Act<W>) {
    match a
    case Lock(e) => !e.Call? && L.Enabled(s.lock, e)
    case Begins(p, w, timeout) => L.Enabled(s.lock, L.Call(p, timeout))
    case Load(p) => s.Inside(p) && s.Job(p).Pending?
    case Store(p) => s.Inside(p) && s.Job(p).Loaded?
  }

  ghost function Next<W, C>(s: Sys<W, C>, a: Act<W>, effect: (W, C) -> Option<C>): Sys<W, C>
    requires Enabled(s, a)
  {
    match a
    case Lock(e) => s.(lock := L.Next(s.lock, e))
    case Begins(p, w, timeout) => s.(lock := L.Next(s.lock, L.Call(p, timeout)), jobs := s.jobs[p := Pending(w)])
    case Load(p) => s.(jobs := s.jobs[p := Loaded(s.Job(p).w, s.file)])
    case Store(p) =>
      var job := s.Job(p);
      s.(file := Written(effect, job.w, job.seen, s.file),
         jobs := s.jobs[p := Finished],
         log := s.log + [(s.lock.At(p).serial, job.w)])
  }

  /** The file after a writer that read `seen` finishes over `now`. */
  function Written<W, C>(effect: (W, C) -> Option<C>, w: W, seen: C, now: C): C {
    match effect(w, seen)
    case Some(c) => c
    case None => now
  }

  /** The completed writers run alone, one after another. */
  function Replay<W, C>(effect: (W, C) -> Option<C>, first: C, log: seq<(nat, W)>): C {
    if log == [] then first
    else
      var before := Replay(effect, first, log[..|log| - 1]);
      Written(effect, log[|log| - 1].1, before, before)
  }

  ghost predicate Start<W, C>(s: Sys<W, C>) {
    L.Start(s.lock) && s.jobs == map[] && s.log == []
  }

  datatype Run<W, C> = Begin(s: Sys<W, C>) | Step(before: Run<W, C>, a: Act<W>, s: Sys<W, C>)

  ghost predicate Legal<W, C>(r: Run<W, C>, effect: (W, C) -> Option<C>) {
    match r
    case Begin(s) => Start(s)
    case Step(before, a, s) => Legal(before, effect) && Enabled(before.s, a) && s == Next(before.s, a, effect)
  }

  function First<W, C>(r: Run<W, C>): Sys<W, C> {
    if r.Step? then First(r.before) else r.s
  }

  /** The lock's own view of a run. */
  function Locks<W, C>(r: Run<W, C>): L.Run {
    match r
    case Begin(s) => L.Begin(s.lock)
    case Step(before, Lock(e), s) => L.Step(Locks(before), e, s.lock)
    case Step(before, Begins(p, _, timeout), s) => L.Step(Locks(before), L.Call(p, timeout), s.lock)
    case Step(before, _, _) => Locks(before)
  }

  lemma {:induction false} LocksAreLegal<W, C>(r: Run<W, C>, effect: (W, C) -> Option<C>)
    requires Legal(r, effect)
    ensures L.Legal(Locks(r)) && Locks(r).s == r.s.lock
  {
    if r.Step? {
      LocksAreLegal(r.before, effect);
    }
  }

  /** What a live writer has read is still what the file holds, and the log so far was
      acquired before it. */
  ghost predicate Current<W, C>(s: Sys<W, C>) {
    && (forall i :: 0 <= i < |s.log| ==> s.log[i].0 < s.lock.next)
    && (forall p: L.Pid :: s.Inside(p) && s.Job(p).Loaded? ==> s.Job(p).seen == s.file)
    && (forall p: L.Pid, i :: s.lock.Owner(p) && !s.Job(p).Finished? && 0 <= i < |s.log| ==>
                                s.log[i].0 < s.lock.At(p).serial)
    && (forall p: L.Pid :: s.lock.Alive(p) && s.Job(p).Loaded? ==>
          s.lock.At(p).Holding? || s.lock.At(p).Releasing? || s.lock.At(p).Idle?)
  }

  ghost predicate InLockOrder<W>(log: seq<(nat, W)>) {
    forall i, j :: 0 <= i < j < |log| ==> log[i].0 < log[j].0
  }

  lemma LockStepKeepsCurrent<W, C>(s: Sys<W, C>, e: L.Event, effect: (W, C) -> Option<C>)
    requires Enabled(s, Lock(e)) && Current(s)
    ensures Current(Next(s, Lock(e), effect))
  {
    var t := Next(s, Lock(e), effect);
    forall p: L.Pid
      ensures t.Inside(p) && t.Job(p).Loaded? ==> t.Job(p).seen == t.file
      ensures t.lock.Alive(p) && t.Job(p).Loaded? ==>
                t.lock.At(p).Holding? || t.lock.At(p).Releasing? || t.lock.At(p).Idle?
      ensures t.lock.Owner(p) && !t.Job(p).Finished? ==>
                forall i :: 0 <= i < |t.log| ==> t.log[i].0 < t.lock.At(p).serial
    {
      assert t.lock.Alive(p) ==> s.lock.Alive(p);
      assert t.Job(p) == s.Job(p);
      if e.Tick? || e.p != p {
        assert t.lock.At(p) == s.lock.At(p);
        assert t.Inside(p) ==> s.Inside(p);
      }
    }
  }

  lemma WriterStepKeepsCurrent<W, C>(s: Sys<W, C>, a: Act<W>, effect: (W, C) -> Option<C>)
    requires Enabled(s, a) && !a.Lock? && Current(s) && L.Coherent(s.lock) && L.Exclusive(s.lock)
    ensures Current(Next(s, a, effect))
  {
    var t := Next(s, a, effect);
    if a.Store? {
      assert L.Sound(s.lock, a.p) && s.lock.Owner(a.p);
    }
    forall p: L.Pid
      ensures t.Inside(p) && t.Job(p).Loaded? ==> t.Job(p).seen == t.file
      ensures t.lock.Alive(p) && t.Job(p).Loaded? ==>
                t.lock.At(p).Holding? || t.lock.At(p).Releasing? || t.lock.At(p).Idle?
      ensures t.lock.Owner(p) && !t.Job(p).Finished? ==>
                forall i :: 0 <= i < |t.log| ==> t.log[i].0 < t.lock.At(p).serial
    {
      if p != a.p {
        assert t.lock.At(p) == s.lock.At(p) && t.Job(p) == s.Job(p);
        assert a.Store? ==> !s.lock.Owner(p);
      }
    }
  }

  /** Serialisation: whenever the lock's exclusion hypotheses hold, the file equals the
      completed writers run one after another, in the order they acquired the lock. */
  lemma {:induction false} Serialises<W, C>(r: Run<W, C>, effect: (W, C) -> Option<C>)
    requires Legal(r, effect)
    requires L.Always(Locks(r), L.Short) && L.EachStep(Locks(r), L.Undisturbed)
    ensures r.s.file == Replay(effect, First(r).file, r.s.log)
    ensures InLockOrder(r.s.log) && Current(r.s)
  {
    if r.Step? {
      var s, a := r.before.s, r.a;
      Serialises(r.before, effect);
      LocksAreLegal(r.before, effect);
      L.RunIsCoherent(Locks(r.before));
      L.Exclusion(Locks(r.before));
      if a.Lock? {
        LockStepKeepsCurrent(s, a.e, effect);
      } else {
        WriterStepKeepsCurrent(s, a, effect);
      }
      if a.Store? {
        StoreIsReplayed(s, a, effect, First(r).file);
      }
    }
  }

  lemma StoreIsReplayed<W, C>(s: Sys<W, C>, a: Act<W>, effect: (W, C) -> Option<C>, first: C)
    requires Enabled(s, a) && a.Store? && Current(s) && InLockOrder(s.log)
    requires s.file == Replay(effect, first, s.log)
    ensures var t := Next(s, a, effect); t.file == Replay(effect, first, t.log) && InLockOrder(t.log)
  {
    assert s.Inside(a.p) && s.lock.Owner(a.p);
    var t := Next(s, a, effect);
    assert t.log[..|t.log| - 1] == s.log;
  }

  lemma Go<W, C>(r: Run<W, C>, a: Act<W>, effect: (W, C) -> Option<C>) returns (q: Run<W, C>)
    requires Legal(r, effect) && Enabled(r.s, a)
    ensures Legal(q, effect) && q.s == Next(r.s, a, effect)
  {
    q := Step(r, a, Next(r.s, a, effect));
  }

  /** The process holds the lock, with its own claim in the file. */
  ghost predicate Holds<W, C>(s: Sys<W, C>, p: L.Pid, serial: nat) {
    && s.Inside(p) && s.lock.At(p).serial == serial
    && s.lock.file.Present? && s.lock.file.claim.Written? && s.lock.file.claim.pid == p
  }

  lemma TakesTheLock<W, C>(r: Run<W, C>, p: L.Pid, w: W, timeout: nat, effect: (W, C) -> Option<C>)
      returns (q: Run<W, C>)
    requires Legal(r, effect) && r.s.lock.Alive(p) && r.s.lock.At(p).Idle? && r.s.lock.file.Absent?
    ensures Legal(q, effect) && Holds(q.s, p, r.s.lock.next)
    ensures q.s.Job(p) == Pending(w) && q.s.file == r.s.file && q.s.log == r.s.log
  {
    q := Go(r, Begins(p, w, timeout), effect);
    q := Go(q, Lock(L.Open(p)), effect);
    q := Go(q, Lock(L.WriteClaim(p)), effect);
  }

  lemma ReadsAndWrites<W, C>(r: Run<W, C>, p: L.Pid, w: W, serial: nat, effect: (W, C) -> Option<C>)
      returns (q: Run<W, C>)
    requires Legal(r, effect) && Holds(r.s, p, serial) && r.s.Job(p) == Pending(w)
    ensures Legal(q, effect) && q.s.lock == r.s.lock
    ensures q.s.file == Written(effect, w, r.s.file, r.s.file) && q.s.log == r.s.log + [(serial, w)]
  {
    q := Go(r, Load(p), effect);
    q := Go(q, Store(p), effect);
  }

  lemma LeavesTheLock<W, C>(r: Run<W, C>, p: L.Pid, serial: nat, effect: (W, C) -> Option<C>) returns (q: Run<W, C>)
    requires Legal(r, effect) && Holds(r.s, p, serial)
    ensures Legal(q, effect) && q.s.lock.At(p).Idle? && q.s.lock.file.Absent?
    ensures q.s.file == r.s.file && q.s.log == r.s.log
  {
    q := Go(r, Lock(L.Leave(p)), effect);
    q := Go(q, Lock(L.Release(p, true)), effect);
  }

  /** A writer left alone over a free lock takes it, reads, writes what it makes of the file,
      and leaves the lock free again. */
  lemma WriterAlone<W, C>(r: Run<W, C>, p: L.Pid, w: W, timeout: nat, effect: (W, C) -> Option<C>)
      returns (q: Run<W, C>)
    requires Legal(r, effect) && r.s.lock.Alive(p) && r.s.lock.At(p).Idle? && r.s.lock.file.Absent?
    ensures Legal(q, effect) && q.s.lock.At(p).Idle? && q.s.lock.file.Absent?
    ensures q.s.file == Written(effect, w, r.s.file, r.s.file)
    ensures q.s.log == r.s.log + [(r.s.lock.next, w)]
  {
    q := TakesTheLock(r, p, w, timeout, effect);
    q := ReadsAndWrites(q, p, w, r.s.lock.next, effect);
    q := LeavesTheLock(q, p, r.s.lock.next, effect);
  }

  /** What the lock is for: of two writers that both read the same file, the one that stores
      first is lost. */
  lemma TwoInsideLoseOne<W, C>(
      s: Sys<W, C>, p: L.Pid, v: W, q: L.Pid, w: W, seen: C, effect: (W, C) -> Option<C>)
    requires p != q && s.Inside(p) && s.Inside(q) && s.Job(p) == Loaded(v, seen) && s.Job(q) == Loaded(w, seen)
    requires effect(v, seen).Some? && effect(w, seen).Some?
    ensures
      var first := Next(s, Store(p), effect);
      && first.file == effect(v, seen).value
      && Enabled(first, Store(q)) && Next(first, Store(q), effect).file == effect(w, seen).value
  {
  }

  // --- what a list of writers keeps --------------------------------------------------

  /** Every writer from the i-th on that writes at all is `clean` for the file it finds. */
  ghost predicate EachClean<W, C>(
    effect: (W, C) -> Option<C>, clean: (W, C) -> bool, first: C, log: seq<(nat, W)>, i: nat)
  {
    forall j {:trigger log[j]} :: i <= j < |log| ==>
      var found := Replay(effect, first, log[..j]);
      effect(log[j].1, found).Some? ==> clean(log[j].1, found)
  }

  lemma EachCleanOneMore<W, C>(
      effect: (W, C) -> Option<C>, clean: (W, C) -> bool, first: C, log: seq<(nat, W)>, i: nat)
    requires i < |log|
    ensures
      var n := |log| - 1;
      var found := Replay(effect, first, log[..n]);
      EachClean(effect, clean, first, log, i) <==>
        && EachClean(effect, clean, first, log[..n], i)
        && (effect(log[n].1, found).Some? ==> clean(log[n].1, found))
  {
    var before := log[..|log| - 1];
    assert forall j :: i <= j < |before| ==> before[j] == log[j] && before[..j] == log[..j];
  }

  /** What clean writers keep stays as long as only clean ones write. */
  lemma {:induction false} CleanWritersKeep<W(!new), C(!new)>(
      effect: (W, C) -> Option<C>, clean: (W, C) -> bool, first: C, log: seq<(nat, W)>, i: nat, kept: C -> bool)
    requires i <= |log| && kept(Replay(effect, first, log[..i]))
    requires forall j, c {:trigger effect(log[j].1, c)} ::
               i <= j < |log| && kept(c) && clean(log[j].1, c) && effect(log[j].1, c).Some? ==>
                 kept(effect(log[j].1, c).value)
    requires EachClean(effect, clean, first, log, i)
    ensures kept(Replay(effect, first, log))
  {
    if i == |log| {
      assert log[..i] == log;
    } else {
      var before := log[..|log| - 1];
      assert before[..i] == log[..i];
      assert forall j :: i <= j < |before| ==> before[j] == log[j];
      EachCleanOneMore(effect, clean, first, log, i);
      CleanWritersKeep(effect, clean, first, before, i, kept);
    }
  }

  /** When an unclean write loses it for good, it is kept exactly when every write is clean. */
  lemma {:induction false} KeptExactlyWhenClean<W(!new), C(!new)>(
      effect: (W, C) -> Option<C>, clean: (W, C) -> bool, first: C, log: seq<(nat, W)>, i: nat,
      kept: C -> bool, lost: C -> bool)
    requires i <= |log| && kept(Replay(effect, first, log[..i]))
    requires forall j, c {:trigger effect(log[j].1, c)} ::
               i <= j < |log| && kept(c) && effect(log[j].1, c).Some? ==>
                 if clean(log[j].1, c) then kept(effect(log[j].1, c).value) else lost(effect(log[j].1, c).value)
    requires forall j, c {:trigger effect(log[j].1, c)} ::
               i <= j < |log| && lost(c) && effect(log[j].1, c).Some? ==> lost(effect(log[j].1, c).value)
    ensures EachClean(effect, clean, first, log, i) ==> kept(Replay(effect, first, log))
    ensures !EachClean(effect, clean, first, log, i) ==> lost(Replay(effect, first, log))
  {
    if i == |log| {
      assert log[..i] == log;
    } else {
      var before := log[..|log| - 1];
      assert before[..i] == log[..i];
      assert forall j :: i <= j < |before| ==> before[j] == log[j];
      EachCleanOneMore(effect, clean, first, log, i);
      KeptExactlyWhenClean(effect, clean, first, before, i, kept, lost);
    }
  }
}
