/** Inbound delivery over the claims of `mailbox.py`. */
module InboundClaims {

  /* `Api.federation_inbox`: requests are concurrent retries of activities; each goes claim,
     store, complete, with a release when the delivery fails, and any of them may die between
     two steps.  The claim, completion and release are single statements of the store. */

  import opened Wrappers

  type Id = string
  type Request = nat
  type Time = int

  const CLAIM_LEASE_SECONDS: nat := 300

  datatype Row = Row(seen: Time, delivered: bool)
  type Rows = map<Id, Row>

  /** A claim succeeds on no row, or over an incomplete row strictly older than the lease. */
  predicate Claimable(rows: Rows, id: Id, now: Time) {
    id in rows ==> !rows[id].delivered && rows[id].seen < now - CLAIM_LEASE_SECONDS
  }

  function Claimed(rows: Rows, id: Id, now: Time): Rows {
    if Claimable(rows, id, now) then rows[id := Row(now, false)] else rows
  }

  function Completed(rows: Rows, id: Id): Rows {
    if id in rows then rows[id := rows[id].(delivered := true)] else rows
  }

  function Released(rows: Rows, id: Id): Rows {
    if id in rows && !rows[id].delivered then rows - {id} else rows
  }

  /** The claim methods of `Mailbox` and one uninterrupted `federation_inbox`. */
  class Mailbox {
    var rows: Rows
    var stored: multiset<Id>
    var now: Time

    constructor ()
      ensures rows == map[] && stored == multiset{}
    {
      rows, stored, now := map[], multiset{}, 0;
    }

    method ClaimActivity(id: Id) returns (mine: bool)
      modifies this`rows
      ensures mine == Claimable(old(rows), id, now)
      ensures mine <==> id !in old(rows) || (!old(rows)[id].delivered && now - old(rows)[id].seen > 300)
      ensures rows == Claimed(old(rows), id, now)
      ensures rows == if mine then old(rows)[id := Row(now, false)] else old(rows)
    {
      var stale := now - CLAIM_LEASE_SECONDS;
      if id !in rows {
        rows := rows[id := Row(now, false)];
        return true;
      }
      if rows[id].delivered {
        return false;
      }
      if rows[id].seen < stale {
        rows := rows[id := Row(now, false)];
        return true;
      }
      return false;
    }

    method CompleteActivity(id: Id)
      modifies this`rows
      ensures rows == Completed(old(rows), id)
      ensures rows == if id in old(rows) then old(rows)[id := Row(old(rows)[id].seen, true)] else old(rows)
    {
      if id in rows {
        rows := rows[id := Row(rows[id].seen, true)];
      }
    }

    method ReleaseActivity(id: Id)
      modifies this`rows
      ensures rows == Released(old(rows), id)
      ensures rows == if id in old(rows) && !old(rows)[id].delivered then old(rows) - {id} else old(rows)
    {
      if id in rows && !rows[id].delivered {
        rows := rows - {id};
      }
    }

    /** Alone on the hub: `accepted` is whether the recipients are ours and the send works.
        A success is stored once and claimed for ever; a failure leaves no trace but an
        expired claim taken over and given back. */
    method FederationInbox(id: Id, accepted: bool) returns (delivered: bool, raised: bool)
      modifies this`rows, this`stored
      ensures var won := Claimable(old(rows), id, now); delivered == (won && accepted) && raised == (won && !accepted)
      ensures stored == if delivered then old(stored) + multiset{id} else old(stored)
      ensures delivered ==> rows == old(rows)[id := Row(now, true)]
      ensures raised ==> rows == old(rows) - {id}
      ensures !delivered && !raised ==> rows == old(rows)
    {
      var mine := ClaimActivity(id);
      if !mine {
        return false, false;
      }
      if !accepted {
        ReleaseActivity(id);
        return false, true;
      }
      stored := stored + multiset{id};
      CompleteActivity(id);
      return true, false;
    }
  }

  // --- concurrent requests -----------------------------------------------------------

  datatype Phase =
    | Idle
    | Delivering(id: Id, since: Time)
    | Stored(id: Id, since: Time)
    | Failing(id: Id, since: Time)

  datatype State = State(now: Time, rows: Rows, stored: multiset<Id>, requests: map<Request, Phase>) {
    function At(r: Request): Phase {
      if r in requests then requests[r] else Idle
    }

    predicate Active(r: Request, id: Id) {
      !At(r).Idle? && At(r).id == id
    }

    function Put(r: Request, phase: Phase): State {
      this.(requests := requests[r := phase])
    }
  }

  datatype Event =
    | Tick(elapsed: nat)
    | Claim(r: Request, id: Id)
    | Store(r: Request)
    | Refuse(r: Request)
    | Abort(r: Request)
    | Release(r: Request, ok: bool)
    | Complete(r: Request, ok: bool)
    | Crash(r: Request)

  predicate Enabled(s: State, e: Event) {
    match e
    case Tick(_) => true
    case Claim(r, _) => s.At(r).Idle?
    case Store(r) => s.At(r).Delivering?
    case Refuse(r) => s.At(r).Delivering?
    case Abort(r) => s.At(r).Stored?
    case Release(r, _) => s.At(r).Failing?
    case Complete(r, _) => s.At(r).Stored?
    case Crash(r) => !s.At(r).Idle?
  }

  function Next(s: State, e: Event): State
    requires Enabled(s, e)
  {
    match e
    case Tick(elapsed) => s.(now := s.now + elapsed)
    case Claim(r, id) =>
      if Claimable(s.rows, id, s.now) then
        s.(rows := Claimed(s.rows, id, s.now)).Put(r, Delivering(id, s.now))
      else s
    case Store(r) => s.(stored := s.stored + multiset{s.At(r).id}).Put(r, Stored(s.At(r).id, s.At(r).since))
    // The send was refused or failed before storing; after storing it is an abort.
    case Refuse(r) => s.Put(r, Failing(s.At(r).id, s.At(r).since))
    case Abort(r) => s.Put(r, Failing(s.At(r).id, s.At(r).since))
    case Release(r, ok) => (if ok then s.(rows := Released(s.rows, s.At(r).id)) else s).Put(r, Idle)
    case Complete(r, ok) => (if ok then s.(rows := Completed(s.rows, s.At(r).id)) else s).Put(r, Idle)
    case Crash(r) => s.Put(r, Idle)
  }

  datatype Run = Begin(s: State) | Step(before: Run, e: Event, s: State)

  /** A run starts on a hub that has seen nothing. */
  ghost predicate Legal(r: Run) {
    match r
    case Begin(s) => s.rows == map[] && s.stored == multiset{} && s.requests == map[]
    case Step(before, e, s) => Legal(before) && Enabled(before.s, e) && s == Next(before.s, e)
  }

  ghost predicate Always(r: Run, P: State -> bool) {
    P(r.s) && (r.Step? ==> Always(r.before, P))
  }

  ghost predicate EachStep(r: Run, Q: (State, Event) -> bool) {
    r.Step? ==> Q(r.before.s, r.e) && EachStep(r.before, Q)
  }

  /** Every delivery under way is still inside its lease. */
  ghost predicate Prompt(s: State) {
    forall r: Request :: !s.At(r).Idle? ==> s.now - s.At(r).since <= CLAIM_LEASE_SECONDS
  }

  /** Nothing comes between a message being stored and its claim being completed. */
  ghost predicate Sealed(s: State, e: Event) {
    && !e.Abort?
    && (e.Complete? ==> e.ok)
    && (e.Crash? ==> !s.At(e.r).Stored?)
  }

  /** One request on its own, step by step: a claimable activity is claimed, and then stored
      once and completed, or refused and given back; one that is not claimable changes nothing.
      A send that fails after storing gives the claim back too. */
  lemma OneRequest(s: State, r: Request, id: Id)
    requires s.At(r).Idle?
    ensures !Claimable(s.rows, id, s.now) ==> Next(s, Claim(r, id)) == s
    ensures Claimable(s.rows, id, s.now) ==>
              var claimed := Next(s, Claim(r, id));
              && claimed.rows == s.rows[id := Row(s.now, false)] && claimed.stored == s.stored
              && Enabled(claimed, Store(r)) && Enabled(claimed, Refuse(r)) &&
              var stored, refused := Next(claimed, Store(r)), Next(claimed, Refuse(r));
              && stored.stored == s.stored + multiset{id}
              && Enabled(stored, Complete(r, true)) && Enabled(stored, Abort(r))
              && Next(stored, Complete(r, true)).rows == s.rows[id := Row(s.now, true)]
              && Next(stored, Complete(r, true)).stored == s.stored + multiset{id}
              && Next(stored, Complete(r, false)).rows == claimed.rows
              && Enabled(refused, Release(r, false)) && Next(refused, Release(r, false)).rows == claimed.rows
              && GivesBack(Next(stored, Abort(r)), r, s.rows - {id}, s.stored + multiset{id})
              && GivesBack(refused, r, s.rows - {id}, s.stored)
  {
    var claimed := s.rows[id := Row(s.now, false)];
    assert claimed - {id} == s.rows - {id};
    assert claimed[id := Row(s.now, true)] == s.rows[id := Row(s.now, true)];
  }

  /** Releasing what it claimed, the request leaves these rows and this store. */
  predicate GivesBack(s: State, r: Request, rows: Rows, stored: multiset<Id>) {
    && Enabled(s, Release(r, true))
    && Next(s, Release(r, true)).rows == rows && Next(s, Release(r, true)).stored == stored
    && Next(s, Release(r, true)).At(r).Idle?
  }

  // --- always: completed means stored, and nothing unstored is lost ------------------

  ghost predicate Honest(s: State) {
    && (forall id :: id in s.rows && s.rows[id].delivered ==> s.stored[id] >= 1)
    && (forall r: Request :: s.At(r).Stored? ==> s.stored[s.At(r).id] >= 1)
    && (forall id :: id in s.rows ==> s.rows[id].seen <= s.now)
  }

  lemma {:induction false} RunIsHonest(r: Run)
    requires Legal(r)
    ensures Honest(r.s)
  {
    if r.Step? {
      RunIsHonest(r.before);
      StepIsHonest(r.before.s, r.e);
    }
  }

  lemma StepIsHonest(s: State, e: Event)
    requires Honest(s) && Enabled(s, e)
    ensures Honest(Next(s, e))
  {
    var t := Next(s, e);
    forall id ensures s.stored[id] <= t.stored[id] {
    }
    forall q: Request | t.At(q).Stored? ensures t.stored[t.At(q).id] >= 1 {
      assert s.At(q) == t.At(q) || (e.Store? && e.r == q);
    }
  }

  /** In every run, with no assumption at all: a completed claim means the message is in
      the store, and a message not in the store is claimable after one lease at the latest,
      so a crash costs a delay and never the message. */
  lemma CompletedIsStoredAndNothingIsLost(r: Run, id: Id)
    requires Legal(r)
    ensures id in r.s.rows && r.s.rows[id].delivered ==> r.s.stored[id] >= 1
    ensures r.s.stored[id] == 0 ==> Claimable(r.s.rows, id, r.s.now + 301)
  {
    RunIsHonest(r);
  }

  /** Completed is for ever: no later claim, release or crash takes it back. */
  lemma {:induction false} CompletedStays(r: Run, earlier: Run, id: Id)
    requires Legal(r) && Before(earlier, r) && id in earlier.s.rows && earlier.s.rows[id].delivered
    ensures id in r.s.rows && r.s.rows[id] == earlier.s.rows[id]
    decreases r
  {
    if r != earlier {
      CompletedStays(r.before, earlier, id);
    }
  }

  ghost predicate Before(earlier: Run, r: Run) {
    earlier == r || (r.Step? && Before(earlier, r.before))
  }

  /** A retry is told "already seen" for a completed activity and for as long as the lease of
      the claim it lost to, and never else; so only for a stored message or within a lease. */
  lemma RefusalIsHonest(r: Run, id: Id)
    requires Legal(r)
    ensures !Claimable(r.s.rows, id, r.s.now) <==>
              id in r.s.rows && (r.s.rows[id].delivered || r.s.now - r.s.rows[id].seen <= 300)
    ensures !Claimable(r.s.rows, id, r.s.now) ==> r.s.stored[id] >= 1 || r.s.now - r.s.rows[id].seen <= 300
  {
    RunIsHonest(r);
  }

  // --- at most once ------------------------------------------------------------------

  ghost predicate Owned(s: State, id: Id) {
    && s.stored[id] <= 1
    && (forall q: Request, r: Request :: s.Active(q, id) && s.Active(r, id) ==> q == r)
    && (forall r: Request :: s.Active(r, id) ==>
          && id in s.rows && s.rows[id] == Row(s.At(r).since, false)
          && (s.At(r).Stored? <==> s.stored[id] == 1))
    && (s.stored[id] == 1 ==> (id in s.rows && s.rows[id].delivered) || exists r: Request :: s.Active(r, id))
  }

  /** Under a prompt delivery nobody else can take the claim. */
  lemma ActiveBlocksClaims(s: State, r: Request, id: Id)
    requires Owned(s, id) && Prompt(s) && s.Active(r, id)
    ensures !Claimable(s.rows, id, s.now)
  {
  }

  lemma StepKeepsOneOwner(s: State, e: Event, id: Id, q: Request, r: Request)
    requires Enabled(s, e) && Owned(s, id) && Prompt(s)
    requires Next(s, e).Active(q, id) && Next(s, e).Active(r, id)
    ensures q == r
  {
    var t := Next(s, e);
    assert (e.Tick? || e.r != q || !e.Claim?) ==> s.Active(q, id);
    assert (e.Tick? || e.r != r || !e.Claim?) ==> s.Active(r, id);
    if s.Active(q, id) {
      ActiveBlocksClaims(s, q, id);
    } else if s.Active(r, id) {
      ActiveBlocksClaims(s, r, id);
    }
  }

  lemma ClaimableIsUnstored(s: State, id: Id)
    requires Owned(s, id) && Prompt(s) && Claimable(s.rows, id, s.now)
    ensures s.stored[id] == 0
  {
    if r: Request :| s.Active(r, id) {
      ActiveBlocksClaims(s, r, id);
    }
  }

  lemma StepKeepsOwnersRow(s: State, e: Event, id: Id, r: Request)
    requires Enabled(s, e) && Owned(s, id) && Prompt(s) && Sealed(s, e) && Honest(s)
    requires Next(s, e).Active(r, id)
    ensures var t := Next(s, e);
            && id in t.rows && t.rows[id] == Row(t.At(r).since, false)
            && (t.At(r).Stored? <==> t.stored[id] == 1) && t.stored[id] <= 1
  {
    var t := Next(s, e);
    if !e.Tick? && e.r != r {
      assert t.At(r) == s.At(r) && s.Active(r, id);
      ActiveBlocksClaims(s, r, id);
      assert !s.Active(e.r, id);
    } else if e.Claim? && Claimable(s.rows, e.id, s.now) {
      ClaimableIsUnstored(s, id);
    } else {
      assert s.Active(r, id);
    }
  }

  lemma StepKeepsOwned(s: State, e: Event, id: Id)
    requires Enabled(s, e) && Owned(s, id) && Prompt(s) && Sealed(s, e) && Honest(s)
    ensures Owned(Next(s, e), id)
  {
    var t := Next(s, e);
    forall q: Request, r: Request | t.Active(q, id) && t.Active(r, id) ensures q == r {
      StepKeepsOneOwner(s, e, id, q, r);
    }
    forall r: Request | t.Active(r, id)
      ensures id in t.rows && t.rows[id] == Row(t.At(r).since, false) && (t.At(r).Stored? <==> t.stored[id] == 1)
    {
      StepKeepsOwnersRow(s, e, id, r);
    }
    if e.Store? && s.Active(e.r, id) {
      assert t.Active(e.r, id);
      StepKeepsOwnersRow(s, e, id, e.r);
    } else {
      assert t.stored[id] == s.stored[id];
      if s.stored[id] == 1 && !(id in s.rows && s.rows[id].delivered) {
        var r: Request :| s.Active(r, id);
        assert e.Tick? || e.r != r ==> t.Active(r, id);
      }
    }
  }

  /** In every run of concurrent retries, crashes and lease expiries: if each delivery ends
      inside its lease and nothing falls between storing and completing, each activity is
      stored at most once. */
  lemma {:induction false} AtMostOnce(r: Run, id: Id)
    requires Legal(r) && Always(r, Prompt) && EachStep(r, Sealed)
    ensures r.s.stored[id] <= 1 && Owned(r.s, id)
  {
    if r.Step? {
      AtMostOnce(r.before, id);
      RunIsHonest(r.before);
      StepKeepsOwned(r.before.s, r.e, id);
    }
  }

  // --- neither hypothesis can be dropped ---------------------------------------------

  lemma Go(r: Run, e: Event) returns (q: Run)
    requires Legal(r) && Enabled(r.s, e)
    ensures Legal(q) && q.s == Next(r.s, e)
    ensures EachStep(r, Sealed) && Sealed(r.s, e) ==> EachStep(q, Sealed)
    ensures Always(r, Prompt) && Prompt(q.s) ==> Always(q, Prompt)
  {
    q := Step(r, e, Next(r.s, e));
  }

  /** One request claims and stores: what its steps leave, whoever else is under way. */
  lemma ClaimAndStore(r: Run, q: Request, id: Id) returns (t: Run)
    requires Legal(r) && r.s.At(q).Idle? && Claimable(r.s.rows, id, r.s.now)
    ensures Legal(t) && (EachStep(r, Sealed) ==> EachStep(t, Sealed)) && (Always(r, Prompt) ==> Always(t, Prompt))
    ensures t.s.now == r.s.now && t.s.rows == r.s.rows[id := Row(r.s.now, false)]
    ensures t.s.stored == r.s.stored + multiset{id}
    ensures t.s.At(q) == Stored(id, r.s.now) && forall o: Request :: o != q ==> t.s.At(o) == r.s.At(o)
  {
    t := Go(r, Claim(q, id));
    assert t.s.At(q) == Delivering(id, r.s.now) && (forall o: Request :: o != q ==> t.s.At(o) == r.s.At(o));
    var before := t;
    t := Go(t, Store(q));
    assert forall o: Request :: o != q ==> t.s.At(o) == before.s.At(o);
  }

  /** A delivery that outlives its lease: a retry takes the claim over and both store. */
  lemma SlowDeliveryStoresTwice() returns (r: Run)
    ensures Legal(r) && EachStep(r, Sealed) && r.s.stored["a"] == 2
  {
    r := Begin(State(0, map[], multiset{}, map[]));
    r := Go(r, Claim(1, "a"));
    r := Go(r, Tick(301));
    assert r.s.At(1) == Delivering("a", 0) && r.s.rows["a"] == Row(0, false) && r.s.At(2) == Idle;
    r := ClaimAndStore(r, 2, "a");
    assert r.s.At(1) == Delivering("a", 0) && r.s.stored["a"] == 1;
    r := Go(r, Store(1));
  }

  /** A crash after storing and before completing: the claim expires and a retry stores
      again, every delivery having stayed inside its lease. */
  lemma CrashAfterStoringStoresTwice() returns (r: Run)
    ensures Legal(r) && Always(r, Prompt) && r.s.stored["a"] == 2
  {
    r := Begin(State(0, map[], multiset{}, map[]));
    r := ClaimAndStore(r, 1, "a");
    var stored := r.s;
    r := Go(r, Crash(1));
    assert forall o: Request :: o != 1 ==> r.s.At(o) == stored.At(o);
    assert forall o: Request :: r.s.At(o) == Idle;
    var dead := r.s;
    r := Go(r, Tick(301));
    assert forall o: Request :: r.s.At(o) == dead.At(o);
    assert r.s.rows["a"] == Row(0, false) && r.s.stored["a"] == 1;
    r := ClaimAndStore(r, 2, "a");
  }
}
