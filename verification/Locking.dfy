/** The advisory lock of `locking.py`. */
module Locking {

  /* One lock file is shared by any number of processes.  The retry loop of `exclusive` is cut
     at every file operation, so a run is an arbitrary interleaving of single steps of single
     processes, with clock ticks and crashes anywhere.  Each successful exclusive create takes
     the next acquisition number and stamps the new file with it, so "the same file" is a
     comparison of numbers and "acquired after this judgement" is an order between them. */

  type Pid = p: int | 0 < p witness 1
  type Time = int

  datatype Claim = Unwritten | Written(pid: Pid, created: Time)

  datatype LockFile = Absent | Present(serial: nat, mtime: Time, claim: Claim)

  /** Where a process stands inside `exclusive`.  `mark` is history: the next
      acquisition number at the moment the process decided to unlink. */
  datatype Phase =
    | Idle
    | Trying(deadline: Time)
    | Blocked(deadline: Time)
    | Clearing(deadline: Time, judged: nat, mark: nat)
    | Rechecking(deadline: Time)
    | Opened(serial: nat, since: Time)
    | Holding(serial: nat, since: Time)
    | Releasing(serial: nat, since: Time, mark: nat)
  {
    predicate Owns() {
      Opened? || Holding? || Releasing?
    }
  }

  datatype State = State(
    now: Time,
    staleAfter: nat,
    next: nat,
    file: LockFile,
    phases: map<Pid, Phase>,
    dead: set<Pid>)
  {
    function At(p: Pid): Phase {
      if p in phases then phases[p] else Idle
    }

    predicate Alive(p: Pid) {
      p !in dead
    }

    predicate Owner(p: Pid) {
      Alive(p) && At(p).Owns()
    }

    /** `_abandoned`: its read of the file and its comparison are one step.  A vanished
        file reads as unusable with age zero, which is never abandoned. */
    predicate Abandoned() {
      match file
      case Absent => false
      case Present(_, mtime, Unwritten) => now - mtime > staleAfter
      case Present(_, _, Written(pid, created)) => !Alive(pid) || now - created > staleAfter
    }

    function Put(p: Pid, phase: Phase): State {
      this.(phases := phases[p := phase])
    }
  }

  datatype Event =
    | Tick(elapsed: nat)
    | Call(p: Pid, timeout: nat)
    | Open(p: Pid)
    | Judge(p: Pid)
    | Unlink(p: Pid)
    | Recheck(p: Pid)
    | WriteClaim(p: Pid)
    | Leave(p: Pid)
    | Release(p: Pid, ok: bool)
    | Denied(p: Pid)
    | Crash(p: Pid)

  predicate Enabled(s: State, e: Event) {
    match e
    case Tick(_) => true
    case Call(p, _) => s.Alive(p) && s.At(p).Idle?
    case Open(p) => s.Alive(p) && s.At(p).Trying?
    case Judge(p) => s.Alive(p) && s.At(p).Blocked?
    case Unlink(p) => s.Alive(p) && s.At(p).Clearing?
    case Recheck(p) => s.Alive(p) && s.At(p).Rechecking?
    case WriteClaim(p) => s.Alive(p) && s.At(p).Opened?
    case Leave(p) => s.Alive(p) && s.At(p).Holding?
    case Release(p, _) => s.Alive(p) && s.At(p).Releasing?
    case Denied(p) => s.Alive(p) && (s.At(p).Trying? || s.At(p).Clearing?)
    case Crash(p) => s.Alive(p)
  }

  function Next(s: State, e: Event): State
    requires Enabled(s, e)
  {
    match e
    case Tick(elapsed) => s.(now := s.now + elapsed)
    case Call(p, timeout) => s.Put(p, Trying(s.now + timeout))
    case Open(p) =>
      if s.file.Present? then
        s.Put(p, Blocked(s.At(p).deadline))
      else
        s.(file := Present(s.next, s.now, Unwritten), next := s.next + 1)
         .Put(p, Opened(s.next, s.now))
    case Judge(p) =>
      var deadline := s.At(p).deadline;
      if s.Abandoned() then s.Put(p, Clearing(deadline, s.file.serial, s.next))
      else if s.now >= deadline then s.Put(p, Idle)
      else s.Put(p, Rechecking(deadline))
    // Whatever file stands at the path now is the one that goes.
    case Unlink(p) => s.(file := Absent).Put(p, Rechecking(s.At(p).deadline))
    case Recheck(p) =>
      var deadline := s.At(p).deadline;
      if s.now >= deadline && s.file.Present? then s.Put(p, Idle) else s.Put(p, Trying(deadline))
    // Written through the open handle: it reaches the path only if the path still names that file.
    case WriteClaim(p) =>
      var me := s.At(p);
      var written := s.Put(p, Holding(me.serial, me.since));
      if s.file.Present? && s.file.serial == me.serial then
        written.(file := Present(me.serial, s.now, Written(p, s.now)))
      else
        written
    case Leave(p) =>
      var me := s.At(p);
      if s.file.Present? && s.file.claim.Written? && s.file.claim.pid == p then
        s.Put(p, Releasing(me.serial, me.since, s.next))
      else
        s.Put(p, Idle)
    case Release(p, ok) => (if ok then s.(file := Absent) else s).Put(p, Idle)
    case Denied(p) => s.Put(p, Idle)
    case Crash(p) => s.(dead := s.dead + {p})
  }

  /** A start: nobody is inside `exclusive`; a file left by an earlier crash may be there. */
  ghost predicate Start(s: State) {
    && (forall p: Pid :: s.At(p).Idle?)
    && (s.file.Present? ==> s.file.serial < s.next)
  }

  /** A run: a start state and then any number of steps, each with the state it leads to. */
  datatype Run = Begin(s: State) | Step(before: Run, e: Event, s: State)

  ghost predicate Legal(r: Run) {
    match r
    case Begin(s) => Start(s)
    case Step(before, e, s) => Legal(before) && Enabled(before.s, e) && s == Next(before.s, e)
  }

  /** `P` holds in every state of the run, the last one included. */
  ghost predicate Always(r: Run, P: State -> bool) {
    P(r.s) && (r.Step? ==> Always(r.before, P))
  }

  /** `Q` holds of every step of the run, in the state the step is taken from. */
  ghost predicate EachStep(r: Run, Q: (State, Event) -> bool) {
    r.Step? ==> Q(r.before.s, r.e) && EachStep(r.before, Q)
  }

  /** No two live processes hold the lock. */
  ghost predicate Exclusive(s: State) {
    forall p: Pid, q: Pid :: s.Owner(p) && s.Owner(q) ==> p == q
  }

  /** Every live holder's own file is the one standing at the path. */
  ghost predicate Intact(s: State) {
    forall p: Pid :: s.Owner(p) ==> s.file.Present? && s.file.serial == s.At(p).serial
  }

  /** Every live hold so far is no longer than `stale_after`. */
  ghost predicate Short(s: State) {
    forall p: Pid :: s.Owner(p) ==> s.now - s.At(p).since <= s.staleAfter
  }

  /** An unlink, by the reclaiming or the releasing branch, of a file another live process holds. */
  ghost predicate Steals(s: State, e: Event, victim: Pid) {
    && s.Owner(victim)
    && s.file.Present?
    && s.file.serial == s.At(victim).serial
    && ((e.Unlink? && e.p != victim) || (e.Release? && e.ok && e.p != victim))
  }

  ghost predicate Theft(s: State, e: Event) {
    exists victim: Pid :: Steals(s, e, victim)
  }

  ghost predicate Harmless(s: State, e: Event) {
    !Theft(s, e)
  }

  ghost predicate NoReclaim(s: State, e: Event) {
    !e.Unlink?
  }

  /** No acquisition happens while a live process stands between a judgement and its unlink. */
  ghost predicate Undisturbed(s: State, e: Event) {
    e.Open? && s.file.Absent? ==>
      forall q: Pid :: s.Alive(q) ==> !s.At(q).Clearing? && !s.At(q).Releasing?
  }

  // --- what every reachable state satisfies ------------------------------------------

  ghost predicate Sound(s: State, p: Pid) {
    var me := s.At(p);
    && (me.Owns() ==>
          && me.serial < s.next
          && me.since <= s.now
          && (s.file.Present? && s.file.serial == me.serial ==>
                && me.since <= s.file.mtime
                && (if me.Opened? then s.file.claim.Unwritten?
                    else s.file.claim.Written? && s.file.claim.pid == p && me.since <= s.file.claim.created))
          && (s.file.Present? && s.file.claim.Written? && s.file.claim.pid == p ==>
                s.file.serial == me.serial))
    && (me.Clearing? ==>
          && me.judged < me.mark <= s.next
          && (s.file.Present? ==> s.file.serial == me.judged || me.mark <= s.file.serial))
    && (me.Releasing? ==>
          && me.serial < me.mark <= s.next
          && (s.file.Present? ==> s.file.serial == me.serial || me.mark <= s.file.serial))
  }

  ghost predicate Coherent(s: State) {
    && (s.file.Present? ==> s.file.serial < s.next)
    && (forall p: Pid :: Sound(s, p))
    && (forall p: Pid, q: Pid :: s.At(p).Owns() && s.At(q).Owns() && s.At(p).serial == s.At(q).serial ==> p == q)
    && (forall p: Pid, q: Pid ::
          s.At(q).Clearing? && s.Owner(p) && s.At(p).serial == s.At(q).judged ==>
            s.now - s.At(p).since > s.staleAfter)
  }

  lemma OwnStepKeepsSound(s: State, e: Event)
    requires Coherent(s) && Enabled(s, e) && !e.Tick?
    ensures Sound(Next(s, e), e.p)
  {
    assert Sound(s, e.p);
  }

  lemma OtherStepKeepsSound(s: State, e: Event, p: Pid)
    requires Coherent(s) && Enabled(s, e) && (e.Tick? || e.p != p)
    ensures Sound(Next(s, e), p)
  {
    assert Sound(s, p);
    assert Next(s, e).At(p) == s.At(p);
    if !e.Tick? {
      assert Sound(s, e.p);
    }
  }

  /** Whoever owns after a step owned the same file before, or has just created it. */
  lemma OwnerBefore(s: State, e: Event, p: Pid)
    requires Enabled(s, e) && Next(s, e).At(p).Owns()
    ensures
      || (s.At(p).Owns() && s.At(p).serial == Next(s, e).At(p).serial)
      || (e == Open(p) && Next(s, e).At(p).serial == s.next)
  {
    if e.Tick? || e.p != p {
      assert Next(s, e).At(p) == s.At(p);
    }
  }

  lemma NextKeepsSerialsApart(s: State, e: Event, p: Pid, q: Pid)
    requires Coherent(s) && Enabled(s, e) && p != q
    requires Next(s, e).At(p).Owns() && Next(s, e).At(q).Owns()
    ensures Next(s, e).At(p).serial != Next(s, e).At(q).serial
  {
    OwnerBefore(s, e, p);
    OwnerBefore(s, e, q);
    assert Sound(s, p) && Sound(s, q);
  }

  lemma NextKeepsOverstay(s: State, e: Event, p: Pid, q: Pid)
    requires Coherent(s) && Enabled(s, e)
    requires Next(s, e).At(q).Clearing? && Next(s, e).Owner(p)
    requires Next(s, e).At(p).serial == Next(s, e).At(q).judged
    ensures Next(s, e).now - Next(s, e).At(p).since > s.staleAfter
  {
    assert Sound(s, p) && Sound(s, q);
  }

  lemma NextKeepsCoherent(s: State, e: Event)
    requires Coherent(s) && Enabled(s, e)
    ensures Coherent(Next(s, e))
  {
    var t := Next(s, e);
    forall p: Pid ensures Sound(t, p) {
      if e.Tick? || e.p != p {
        OtherStepKeepsSound(s, e, p);
      } else {
        OwnStepKeepsSound(s, e);
      }
    }
    forall p: Pid, q: Pid | p != q && t.At(p).Owns() && t.At(q).Owns()
      ensures t.At(p).serial != t.At(q).serial
    {
      NextKeepsSerialsApart(s, e, p, q);
    }
    forall p: Pid, q: Pid | t.At(q).Clearing? && t.Owner(p) && t.At(p).serial == t.At(q).judged
      ensures t.now - t.At(p).since > t.staleAfter
    {
      NextKeepsOverstay(s, e, p, q);
    }
    assert t.file.Present? ==> t.file.serial < t.next by {
      if !e.Tick? {
        assert Sound(s, e.p);
      }
    }
  }

  lemma {:induction false} RunIsCoherent(r: Run)
    requires Legal(r)
    ensures Coherent(r.s)
  {
    if r.Step? {
      RunIsCoherent(r.before);
      NextKeepsCoherent(r.before.s, r.e);
    }
  }

  // --- exclusion, and exactly what breaks it -----------------------------------------

  lemma IntactIsExclusive(s: State)
    requires Coherent(s) && Intact(s)
    ensures Exclusive(s)
  {
  }

  lemma StepKeepsIntactUnlessTheft(s: State, e: Event)
    requires Coherent(s) && Enabled(s, e) && Intact(s)
    ensures Intact(Next(s, e)) <==> !Theft(s, e)
  {
    var t := Next(s, e);
    if Theft(s, e) {
      var victim: Pid :| Steals(s, e, victim);
      assert t.Owner(victim) && t.file.Absent?;
    } else {
      forall p: Pid | t.Owner(p)
        ensures t.file.Present? && t.file.serial == t.At(p).serial
      {
        assert Sound(s, p);
        assert !Steals(s, e, p);
      }
    }
  }

  /** A run keeps every live holder's file in place exactly when no step of it is a theft. */
  lemma {:induction false} IntactExactlyWithoutTheft(r: Run)
    requires Legal(r)
    ensures Always(r, Intact) <==> EachStep(r, Harmless)
  {
    if r.Step? {
      IntactExactlyWithoutTheft(r.before);
      RunIsCoherent(r.before);
      if Intact(r.before.s) {
        StepKeepsIntactUnlessTheft(r.before.s, r.e);
      }
    }
  }

  /** In any run at all, two live processes hold the lock together only after a theft. */
  lemma DoubleHoldNeedsTheft(r: Run)
    requires Legal(r) && !Exclusive(r.s)
    ensures !EachStep(r, Harmless)
  {
    IntactExactlyWithoutTheft(r);
    RunIsCoherent(r);
    if Intact(r.s) {
      IntactIsExclusive(r.s);
    }
  }

  // --- once a holder's file is gone --------------------------------------------------

  /** `longer` continues `r`, and `Q` holds of every step since. */
  ghost predicate Since(r: Run, longer: Run, Q: (State, Event) -> bool) {
    r == longer || (longer.Step? && Q(longer.before.s, longer.e) && Since(r, longer.before, Q))
  }

  lemma {:induction false} BoundOf(pids: set<Pid>) returns (bound: Pid)
    ensures forall p <- pids :: p < bound
  {
    if pids == {} {
      bound := 1;
    } else {
      var p :| p in pids;
      var below := BoundOf(pids - {p});
      bound := if p < below then below else p + 1;
      assert forall other <- pids :: other == p || other in pids - {p};
    }
  }

  /** A process that never called yet. */
  lemma Newcomer(s: State) returns (q: Pid)
    ensures s.Alive(q) && s.At(q).Idle? && q !in s.phases
  {
    q := BoundOf(s.phases.Keys + s.dead);
  }

  lemma OneMore(r: Run, t: Run, e: Event) returns (u: Run)
    requires Legal(t) && Since(r, t, Harmless) && Enabled(t.s, e) && !Theft(t.s, e)
    ensures Legal(u) && Since(r, u, Harmless) && u.s == Next(t.s, e)
  {
    u := Step(t, e, Next(t.s, e));
  }

  /** With nothing at the path, the next caller acquires beside the holder. */
  lemma AcquiresBeside(r: Run, t: Run, holder: Pid) returns (u: Run)
    requires Legal(t) && Since(r, t, Harmless) && t.s.Owner(holder) && t.s.file.Absent?
    ensures Legal(u) && Since(r, u, Harmless) && !Exclusive(u.s)
  {
    var q := Newcomer(t.s);
    u := OneMore(r, t, Call(q, 0));
    u := OneMore(r, u, Open(q));
    assert u.s.Owner(q) && u.s.At(holder) == t.s.At(holder) && u.s.Owner(holder);
  }

  /** Wait until the file at the path is stale, whoever's it is. */
  lemma Outwait(r: Run, t: Run) returns (u: Run)
    requires Legal(t) && Since(r, t, Harmless) && t.s.file.Present?
    ensures Legal(u) && Since(r, u, Harmless) && u.s.Abandoned() && u.s == t.s.(now := u.s.now)
  {
    var stamp := if t.s.file.claim.Written? then t.s.file.claim.created else t.s.file.mtime;
    u := OneMore(r, t, Tick(t.s.staleAfter + 1 + if stamp > t.s.now then stamp - t.s.now else 0));
  }

  /** A file that no live process holds can be cleared without robbing anybody. */
  lemma ClearsUnheld(r: Run, t: Run, holder: Pid) returns (u: Run)
    requires Legal(t) && Since(r, t, Harmless) && t.s.Owner(holder) && t.s.file.Present?
    requires forall p: Pid :: t.s.Owner(p) ==> t.s.At(p).serial != t.s.file.serial
    ensures Legal(u) && Since(r, u, Harmless) && u.s.Owner(holder) && u.s.file.Absent?
  {
    var q := Newcomer(t.s);
    u := Outwait(r, t);
    u := OneMore(r, u, Call(q, 0));
    u := OneMore(r, u, Open(q));
    u := OneMore(r, u, Judge(q));
    assert u.s.At(q).Clearing? && forall p: Pid :: p != q ==> u.s.At(p) == t.s.At(p);
    assert u.s.file == t.s.file;
    var cleared := OneMore(r, u, Unlink(q));
    assert cleared.s.At(holder) == u.s.At(holder);
    u := cleared;
  }

  /** A live holder whose file is gone: a double hold can follow without another theft. */
  lemma BrokenLeadsToDoubleHold(r: Run) returns (u: Run)
    requires Legal(r) && !Intact(r.s)
    ensures Legal(u) && Since(r, u, Harmless) && !Exclusive(u.s)
  {
    var holder: Pid :| r.s.Owner(holder) && !(r.s.file.Present? && r.s.file.serial == r.s.At(holder).serial);
    if r.s.file.Absent? {
      u := AcquiresBeside(r, r, holder);
    } else if other: Pid :| r.s.Owner(other) && r.s.At(other).serial == r.s.file.serial {
      assert other != holder;
      u := r;
    } else {
      u := ClearsUnheld(r, r, holder);
      u := AcquiresBeside(r, u, holder);
    }
  }

  lemma {:induction false} HarmlessKeepsIntact(r: Run, longer: Run)
    requires Legal(longer) && Since(r, longer, Harmless) && Intact(r.s)
    ensures Intact(longer.s)
  {
    if r != longer {
      HarmlessKeepsIntact(r, longer.before);
      RunIsCoherent(longer.before);
      StepKeepsIntactUnlessTheft(longer.before.s, longer.e);
    }
  }

  /** Exclusion is safe from here on without another theft exactly when every live holder's
      file still stands at the path. */
  lemma SafeExactlyWhenIntact(r: Run)
    requires Legal(r)
    ensures Intact(r.s) <==> forall longer: Run :: Legal(longer) && Since(r, longer, Harmless) ==> Exclusive(longer.s)
  {
    if Intact(r.s) {
      forall longer: Run | Legal(longer) && Since(r, longer, Harmless) ensures Exclusive(longer.s) {
        HarmlessKeepsIntact(r, longer);
        RunIsCoherent(longer);
        IntactIsExclusive(longer.s);
      }
    } else {
      var u := BrokenLeadsToDoubleHold(r);
    }
  }

  // --- why a theft happens -----------------------------------------------------------

  /** A theft has one of two causes: the victim acquired the lock after the thief decided
      to unlink (`mark`), or the victim has outstayed `stale_after`; a releasing process
      can only steal the first way. */
  lemma TheftHasACause(r: Run, e: Event, victim: Pid)
    requires Legal(r) && Enabled(r.s, e) && Steals(r.s, e, victim)
    ensures
      || r.s.At(victim).serial >= r.s.At(e.p).mark
      || (e.Unlink? && r.s.now - r.s.At(victim).since > r.s.staleAfter)
  {
    RunIsCoherent(r);
    assert Sound(r.s, e.p) && Sound(r.s, victim);
  }

  /** The gap: between a judgement and its unlink no live process may hold the lock on a
      reclaim, and only the releasing process itself on a release. */
  ghost predicate Guarded(s: State) {
    && Intact(s)
    && (forall q: Pid :: s.Alive(q) && s.At(q).Clearing? ==> forall p: Pid :: !s.Owner(p))
  }

  lemma NoTheftWhileGuarded(s: State, e: Event)
    requires Coherent(s) && Enabled(s, e) && Guarded(s)
    ensures !Theft(s, e)
  {
    forall victim: Pid ensures !Steals(s, e, victim) {
      assert Sound(s, victim);
    }
  }

  lemma StepKeepsGuarded(s: State, e: Event)
    requires Coherent(s) && Enabled(s, e) && Guarded(s) && Short(s) && Undisturbed(s, e)
    ensures Guarded(Next(s, e))
  {
    var t := Next(s, e);
    NoTheftWhileGuarded(s, e);
    StepKeepsIntactUnlessTheft(s, e);
    forall q: Pid, p: Pid | t.Alive(q) && t.At(q).Clearing?
      ensures !t.Owner(p)
    {
      ClearingSeesNoOwner(s, e, q, p);
    }
  }

  /** A live owner's short hold is not abandoned, so whoever decides to clear sees no owner;
      and while it is about to unlink nobody acquires. */
  lemma ClearingSeesNoOwner(s: State, e: Event, q: Pid, p: Pid)
    requires Coherent(s) && Enabled(s, e) && Guarded(s) && Short(s) && Undisturbed(s, e)
    requires Next(s, e).Alive(q) && Next(s, e).At(q).Clearing?
    ensures !Next(s, e).Owner(p)
  {
    assert Sound(s, p) && s.Alive(q);
    if s.At(q).Clearing? {
      assert !s.Owner(p);
      assert e.Open? ==> s.file.Present?;
    } else {
      assert e == Judge(q) && s.Abandoned();
      OwnedIsNotAbandoned(s, p);
    }
  }

  lemma OwnedIsNotAbandoned(s: State, p: Pid)
    requires Coherent(s) && Intact(s) && Short(s)
    ensures s.Owner(p) ==> !s.Abandoned()
  {
    assert Sound(s, p);
  }

  /** The exclusion theorem: in every interleaving of any number of processes, with crashes
      at any step, if live holds stay within `stale_after` and no acquisition falls between
      a judgement and its unlink, no two live processes ever hold the lock together. */
  lemma {:induction false} Exclusion(r: Run)
    requires Legal(r) && Always(r, Short) && EachStep(r, Undisturbed)
    ensures Always(r, Exclusive) && Guarded(r.s)
  {
    if r.Step? {
      Exclusion(r.before);
      RunIsCoherent(r.before);
      StepKeepsGuarded(r.before.s, r.e);
    }
    RunIsCoherent(r);
    IntactIsExclusive(r.s);
  }

  /** Nobody crashes and every release removes its file. */
  ghost predicate Graceful(s: State, e: Event) {
    !e.Crash? && (e.Release? ==> e.ok)
  }

  /** The file at the path always belongs to a live holder, and nobody is reclaiming. */
  ghost predicate Attended(s: State) {
    && Intact(s)
    && (s.file.Present? ==> exists p: Pid :: s.Owner(p) && s.At(p).serial == s.file.serial)
    && (forall q: Pid :: !s.At(q).Clearing?)
  }

  lemma AttendedIsNotAbandoned(s: State)
    requires Coherent(s) && Attended(s) && Short(s)
    ensures !s.Abandoned()
  {
    if s.file.Present? {
      var p: Pid :| s.Owner(p) && s.At(p).serial == s.file.serial;
      assert Sound(s, p);
    }
  }

  lemma StepKeepsAttended(s: State, e: Event)
    requires Coherent(s) && Enabled(s, e) && Attended(s) && Short(s) && Graceful(s, e)
    ensures Attended(Next(s, e))
  {
    var t := Next(s, e);
    NoTheftWhileGuarded(s, e);
    StepKeepsIntactUnlessTheft(s, e);
    AttendedIsNotAbandoned(s);
    if t.file.Present? {
      if s.file.Present? {
        var p: Pid :| s.Owner(p) && s.At(p).serial == s.file.serial;
        assert Sound(s, p);
        assert t.Owner(p) && t.At(p).serial == t.file.serial;
      } else {
        assert t.Owner(e.p) && t.At(e.p).serial == t.file.serial;
      }
    }
    forall q: Pid ensures !t.At(q).Clearing? {
      assert !s.At(q).Clearing?;
    }
  }

  /** With no crash, no failed release and short holds, the reclaiming branch is never
      taken, so exclusion needs no assumption about the gap. */
  lemma {:induction false} NoCrashNoReclaim(r: Run)
    requires Legal(r) && Always(r, Short) && EachStep(r, Graceful) && First(r).file.Absent?
    ensures Always(r, Exclusive) && EachStep(r, NoReclaim) && Attended(r.s)
  {
    if r.Step? {
      NoCrashNoReclaim(r.before);
      RunIsCoherent(r.before);
      StepKeepsAttended(r.before.s, r.e);
    }
    RunIsCoherent(r);
    IntactIsExclusive(r.s);
  }

  function First(r: Run): State {
    if r.Step? then First(r.before) else r.s
  }

  /** A lock whose holder died, claim written or not, is judged abandoned at once or as
      soon as the file is older than `stale_after`: a crash never wedges later writers. */
  lemma CrashedHolderIsReclaimable(r: Run, p: Pid)
    requires Legal(r)
    requires !r.s.Alive(p) && r.s.At(p).Owns()
    requires r.s.file.Present? && r.s.file.serial == r.s.At(p).serial
    ensures !r.s.At(p).Opened? ==> r.s.Abandoned()
    ensures r.s.At(p).Opened? ==> (r.s.Abandoned() <==> r.s.now - r.s.file.mtime > r.s.staleAfter)
  {
    RunIsCoherent(r);
    assert Sound(r.s, p);
  }

  // --- waiting -----------------------------------------------------------------------

  predicate Waiting(phase: Phase) {
    phase.Trying? || phase.Blocked? || phase.Clearing? || phase.Rechecking?
  }

  /** When the last call of a process runs out. */
  function Expiry(r: Run, p: Pid): Time {
    if r.Begin? then 0
    else match r.e {
      case Call(q, timeout) => if q == p then r.before.s.now + timeout else Expiry(r.before, p)
      case _ => Expiry(r.before, p)
    }
  }

  /** A step is of one process alone. */
  lemma OthersStandStill(s: State, e: Event, p: Pid)
    requires Enabled(s, e)
    ensures e.Tick? || e.p != p ==> Next(s, e).At(p) == s.At(p)
  {
  }

  /** A waiting process still has the deadline its call gave it. */
  lemma {:induction false} DeadlineIsTheCalls(r: Run, p: Pid)
    requires Legal(r) && Waiting(r.s.At(p))
    ensures r.s.At(p).deadline == Expiry(r, p)
  {
    if r.Step? {
      OthersStandStill(r.before.s, r.e, p);
      if Waiting(r.before.s.At(p)) {
        DeadlineIsTheCalls(r.before, p);
      }
    }
  }

  /** A waiting process that stops waiting without the lock was denied the file by the
      operating system or its time is up.  Then a file stands at the path, unless it was
      turned away by one that has vanished since. */
  lemma GivesUpOnlyWhenTimeIsUp(r: Run, p: Pid)
    requires Legal(r) && r.Step? && r.before.s.Alive(p) && Waiting(r.before.s.At(p)) && r.s.At(p).Idle?
    ensures r.e != Denied(p) ==>
              && r.before.s.now >= Expiry(r.before, p)
              && (r.before.s.file.Present? || r.before.s.At(p).Blocked?)
  {
    DeadlineIsTheCalls(r.before, p);
    OthersStandStill(r.before.s, r.e, p);
  }

  /** A live writer that is turned away by a lock not abandoned gives up at once when its time
      is up, and otherwise looks again, and after that tries again with the same deadline. */
  lemma TurnedAway(s: State, p: Pid)
    requires s.Alive(p) && s.At(p).Blocked? && !s.Abandoned()
    ensures
      var deadline := s.At(p).deadline;
      var judged := Next(s, Judge(p));
      if s.now >= deadline then judged.At(p) == Idle
      else Enabled(judged, Recheck(p)) && Next(judged, Recheck(p)).At(p) == Trying(deadline)
  {
  }

  /** After a pause or a clearing it gives up exactly when its time is up and a file is there. */
  lemma LooksAgain(s: State, p: Pid)
    requires s.Alive(p) && s.At(p).Rechecking?
    ensures
      var t := Next(s, Recheck(p));
      && (t.At(p) == Idle <==> s.now >= s.At(p).deadline && s.file.Present?)
      && (t.At(p) == Trying(s.At(p).deadline) <==> s.now < s.At(p).deadline || s.file.Absent?)
  {
  }

  /** A lock is abandoned when the process that wrote its claim is dead, and otherwise, written
      or not, when its time is more than `staleAfter` ago. */
  ghost predicate LeftBehind(s: State) {
    && s.file.Present?
    && match s.file.claim
       case Unwritten => s.now - s.file.mtime > s.staleAfter
       case Written(q, created) => q in s.dead || s.now - created > s.staleAfter
  }

  /** Such a lock is taken over by a waiter's own next five steps, undisturbed; and no other is
      ever cleared. */
  lemma TakesOver(s: State, p: Pid)
    requires s.Alive(p) && s.At(p).Blocked?
    ensures Next(s, Judge(p)).At(p).Clearing? <==> LeftBehind(s)
    ensures LeftBehind(s) ==>
              var judged := Next(s, Judge(p));
              Enabled(judged, Unlink(p)) &&
              var cleared := Next(judged, Unlink(p));
              cleared.file == Absent && Enabled(cleared, Recheck(p)) &&
              var again := Next(cleared, Recheck(p));
              Enabled(again, Open(p)) &&
              var made := Next(again, Open(p));
              Enabled(made, WriteClaim(p)) &&
              var held := Next(made, WriteClaim(p));
              && held.At(p) == Holding(s.next, s.now)
              && held.file == Present(s.next, s.now, Written(p, s.now))
  {
  }

  /** Being denied the file, or dying, leaves the file as it is; the one ends the call, the other
      ends every call of that process. */
  lemma DeniedOrDead(s: State, p: Pid)
    requires s.Alive(p)
    ensures s.At(p).Trying? || s.At(p).Clearing? ==>
              Enabled(s, Denied(p)) && Next(s, Denied(p)).At(p) == Idle && Next(s, Denied(p)).file == s.file
    ensures
      var dead := Next(s, Crash(p));
      && dead.file == s.file && dead.phases == s.phases && !dead.Alive(p)
      && forall e: Event :: Enabled(dead, e) ==> e.Tick? || e.p != p
  {
  }

  /** A holder that leaves takes its own lock with it, if the operating system lets it, and no
      other process's. */
  lemma LeavesWithItsOwn(s: State, p: Pid)
    requires s.Alive(p) && s.At(p).Holding?
    ensures
      var left := Next(s, Leave(p));
      if s.file.Present? && s.file.claim.Written? && s.file.claim.pid == p then
        && Enabled(left, Release(p, true)) && Enabled(left, Release(p, false))
        && Next(left, Release(p, true)).file == Absent && Next(left, Release(p, true)).At(p) == Idle
        && Next(left, Release(p, false)).file == s.file && Next(left, Release(p, false)).At(p) == Idle
      else left.file == s.file && left.At(p) == Idle
  {
  }

  /** Nobody waits for ever: past its deadline, with a lock that stays, a waiter's own next
      steps end in giving up. */
  lemma GivesUpInTime(s: State, p: Pid)
    requires s.Alive(p) && s.At(p).Trying? && s.now >= s.At(p).deadline && s.file.Present? && !s.Abandoned()
    ensures Enabled(s, Open(p)) && Enabled(Next(s, Open(p)), Judge(p))
    ensures Next(Next(s, Open(p)), Judge(p)).At(p) == Idle
  {
  }

  // --- neither hypothesis can be dropped ---------------------------------------------

  /** Only time passing can make a hold overlong. */
  lemma StepsTakeNoTime(s: State, e: Event)
    requires Enabled(s, e) && !e.Tick? && Short(s)
    ensures Short(Next(s, e))
  {
    var t := Next(s, e);
    forall p: Pid | t.Owner(p) ensures t.now - t.At(p).since <= t.staleAfter {
      if e.p != p {
        assert t.At(p) == s.At(p);
      }
    }
  }

  lemma Go(r: Run, e: Event) returns (q: Run)
    requires Legal(r) && Enabled(r.s, e) && !e.Tick?
    ensures Legal(q) && q.s == Next(r.s, e)
    ensures Always(r, Short) ==> Always(q, Short)
    ensures EachStep(r, Undisturbed) && Undisturbed(r.s, e) ==> EachStep(q, Undisturbed)
  {
    q := Step(r, e, Next(r.s, e));
    if Always(r, Short) {
      StepsTakeNoTime(r.s, e);
    }
  }

  /** A process arrives, finds the lock taken and judges it abandoned. */
  lemma Contend(r: Run, p: Pid) returns (q: Run)
    requires Legal(r) && r.s.Alive(p) && r.s.At(p).Idle? && r.s.Abandoned()
    ensures Legal(q) && (Always(r, Short) ==> Always(q, Short))
    ensures EachStep(r, Undisturbed) ==> EachStep(q, Undisturbed)
    ensures q.s.(phases := map[]) == r.s.(phases := map[])
    ensures q.s.At(p) == Clearing(r.s.now + 5, r.s.file.serial, r.s.next)
    ensures forall o: Pid :: o != p ==> q.s.At(o) == r.s.At(o)
  {
    q := Go(r, Call(p, 5));
    q := Go(q, Open(p));
    q := Go(q, Judge(p));
  }

  /** It unlinks whatever stands at the path, goes round the loop and acquires. */
  lemma Reclaim(r: Run, p: Pid) returns (q: Run)
    requires Legal(r) && r.s.Alive(p) && r.s.At(p).Clearing?
    ensures Legal(q) && (Always(r, Short) ==> Always(q, Short))
    ensures EachStep(r, Undisturbed) && (forall o: Pid :: o != p ==> !r.s.At(o).Clearing? && !r.s.At(o).Releasing?) ==>
              EachStep(q, Undisturbed)
    ensures q.s.(phases := map[]) ==
              r.s.(phases := map[], file := Present(r.s.next, r.s.now, Unwritten), next := r.s.next + 1)
    ensures q.s.At(p) == Opened(r.s.next, r.s.now)
    ensures forall o: Pid :: o != p ==> q.s.At(o) == r.s.At(o)
  {
    q := Go(r, Unlink(p));
    q := Go(q, Recheck(p));
    assert forall o: Pid :: o != p ==> q.s.At(o) == r.s.At(o);
    q := Go(q, Open(p));
  }

  /** Two contenders judge the same dead process's lock in the same instant; one clears it
      and acquires, then the other clears the new lock and acquires as well.  Every hold is
      short, and both hold. */
  lemma GapBreaksExclusion() returns (r: Run)
    ensures Legal(r) && Always(r, Short) && !Exclusive(r.s)
  {
    r := Begin(State(0, 30, 1, Present(0, 0, Written(3, 0)), map[], {3}));
    r := Contend(r, 1);
    r := Contend(r, 2);
    r := Reclaim(r, 1);
    r := Reclaim(r, 2);
    assert r.s.Owner(1) && r.s.Owner(2);
  }

  /** A live holder outstays `stale_after`; a second process reclaims with nothing in its
      gap and nobody crashing, and both hold. */
  lemma LongHoldBreaksExclusion() returns (r: Run)
    ensures Legal(r) && EachStep(r, Undisturbed) && r.s.dead == {} && !Exclusive(r.s)
  {
    r := Begin(State(0, 30, 0, Absent, map[], {}));
    r := Go(r, Call(1, 5));
    r := Go(r, Open(1));
    r := Step(r, Tick(31), Next(r.s, Tick(31)));
    r := Contend(r, 2);
    r := Reclaim(r, 2);
    assert r.s.Owner(1) && r.s.Owner(2);
  }
}
