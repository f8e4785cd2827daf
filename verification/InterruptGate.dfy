/** Who may interrupt: `interrupt.py`. */
module InterruptGate {

  /* The rate limiter remembers only what it needs.  Times are seconds of a clock that never
     goes back. */

  import opened Sorting
  import opened Text

  type Time = real

  const RATE_WINDOW_SECONDS: Time := 60.0

  datatype Reason = Wake | NotConfigured | IdentityUnverified | SenderNotTrusted | RateLimited | NoAdapter

  /** The text for the log, by what it says. */
  datatype Detail = NoDetail | NobodyConfigured | NamesUnchecked | Counted(within: nat, cap: nat) | NothingInstalled

  datatype Policy = Policy(wakeFrom: set<string>, maxPerMinute: nat)

  datatype Arrival = Arrival(sender: string, id: string, subject: string, published: string)

  datatype Decision = Decision(wake: bool, reason: Reason, sender: string, id: string, detail: Detail)

  function InWindow(now: Time): Time -> bool {
    at => now - at < RATE_WINDOW_SECONDS
  }

  function Within(recent: seq<Time>, now: Time): seq<Time> {
    Filter(recent, InWindow(now))
  }

  /** `decide`.  It wakes exactly for a trusted name on a hub that checks names, with room
      under the cap and something to wake with. */
  function Decide(a: Arrival, p: Policy, recent: seq<Time>, now: Time, verified: bool, ready: bool): (d: Decision)
    ensures d.wake <==>
              verified && Strip(a.sender) in p.wakeFrom && |Within(recent, now)| < p.maxPerMinute && ready
    ensures d.wake <==> d.reason == Wake
    ensures d.sender == Strip(a.sender) && d.id == a.id
    ensures d.reason == RateLimited ==> d.detail == Counted(|Filter(recent, at => now - at < 60.0)|, p.maxPerMinute)
  {
    var sender := Strip(a.sender);
    if p.wakeFrom == {} then Decision(false, NotConfigured, sender, a.id, NobodyConfigured)
    else if !verified then Decision(false, IdentityUnverified, sender, a.id, NamesUnchecked)
    else if sender !in p.wakeFrom then Decision(false, SenderNotTrusted, sender, a.id, NoDetail)
    else
      var within := Within(recent, now);
      if |within| >= p.maxPerMinute then
        Decision(false, RateLimited, sender, a.id, Counted(|within|, p.maxPerMinute))
      else if !ready then Decision(false, NoAdapter, sender, a.id, NothingInstalled)
      else Decision(true, Wake, sender, a.id, NoDetail)
  }

  /** Each refusal names the first thing to mend, and mending nothing else is enough to get
      past it: trust first needs somebody trusted, then a hub that checks names, then this
      name on the list, then room, then an adapter. */
  lemma ReasonsNameTheFirstObstacle(a: Arrival, p: Policy, recent: seq<Time>, now: Time, verified: bool, ready: bool)
    ensures
      var d := Decide(a, p, recent, now, verified, ready);
      && (d.reason == NotConfigured <==> forall name :: name !in p.wakeFrom)
      && (d.reason == IdentityUnverified ==>
            !verified && Decide(a, p, recent, now, true, ready).reason != IdentityUnverified)
      && (d.reason == SenderNotTrusted ==>
            Decide(a, p.(wakeFrom := p.wakeFrom + {Strip(a.sender)}), recent, now, verified, ready).reason
              in {RateLimited, NoAdapter, Wake})
      && (d.reason == RateLimited && p.maxPerMinute > 0 ==>
            Decide(a, p, [], now, verified, ready).reason in {NoAdapter, Wake})
      && (d.reason == NoAdapter <==> !ready && Decide(a, p, recent, now, verified, true).wake)
  {
  }

  function DequeSize(p: Policy): nat {
    if p.maxPerMinute > 1 then p.maxPerMinute else 1
  }

  /** `append` on a deque of this size: the oldest entry falls out. */
  function Pushed(recent: seq<Time>, at: Time, size: nat): seq<Time> {
    var longer := recent + [at];
    if |longer| <= size then longer else longer[|longer| - size..]
  }

  class Gatekeeper {
    const policy: Policy
    const ready: bool
    var verified: bool
    var recent: seq<Time>

    constructor (policy: Policy, ready: bool, verified: bool)
      ensures this.policy == policy && this.ready == ready && this.verified == verified && recent == []
    {
      this.policy, this.ready, this.verified, recent := policy, ready, verified, [];
    }

    method SetIdentityVerified(verified: bool)
      modifies this`verified
      ensures this.verified == verified
      ensures Gate(this.verified, recent) ==
                NextGate(Setup(policy, ready, verified), old(Gate(this.verified, recent)), SetVerified(verified))
    {
      this.verified := verified;
    }

    /** `raises` is whether the adapter fails when it is called. */
    method Consider(a: Arrival, now: Time, raises: bool) returns (d: Decision, failed: bool)
      modifies this`recent
      ensures d == Decide(a, policy, old(recent), now, verified, ready)
      ensures d == Answer(Setup(policy, ready, verified), old(Gate(verified, recent)), Arrive(a, now, raises))
      ensures recent == if d.wake then Pushed(old(recent), now, DequeSize(policy)) else old(recent)
      ensures Gate(verified, recent) ==
                NextGate(Setup(policy, ready, verified), old(Gate(verified, recent)), Arrive(a, now, raises))
      ensures failed == (d.wake && raises)
    {
      failed := false;
      d := Decide(a, policy, recent, now, verified, ready);
      if d.wake {
        recent := recent + [now];
        if |recent| > DequeSize(policy) {
          recent := recent[|recent| - DequeSize(policy)..];
        }
        failed := raises;
      }
    }
  }

  // --- runs --------------------------------------------------------------------------

  datatype Event = Arrive(a: Arrival, now: Time, raises: bool) | SetVerified(verified: bool)

  /** A gatekeeper's life; `recent` is its deque. */
  datatype Gate = Gate(verified: bool, recent: seq<Time>)

  datatype Setup = Setup(policy: Policy, ready: bool, verified: bool)

  function Answer(u: Setup, g: Gate, e: Event): Decision
    requires e.Arrive?
  {
    Decide(e.a, u.policy, g.recent, e.now, g.verified, u.ready)
  }

  /** One event, with `size` entries remembered at most. */
  function NextGate(u: Setup, g: Gate, e: Event): Gate {
    match e
    case SetVerified(v) => g.(verified := v)
    case Arrive(_, now, _) =>
      if Answer(u, g, e).wake then g.(recent := Pushed(g.recent, now, DequeSize(u.policy))) else g
  }

  function GateAfter(u: Setup, events: seq<Event>): Gate {
    if events == [] then Gate(u.verified, [])
    else NextGate(u, GateAfter(u, events[..|events| - 1]), events[|events| - 1])
  }

  /** The same gatekeeper if it remembered every interruption for ever. */
  function NextLedger(u: Setup, g: Gate, e: Event): Gate {
    match e
    case SetVerified(v) => g.(verified := v)
    case Arrive(_, now, _) => if Answer(u, g, e).wake then g.(recent := g.recent + [now]) else g
  }

  function LedgerAfter(u: Setup, events: seq<Event>): Gate {
    if events == [] then Gate(u.verified, [])
    else NextLedger(u, LedgerAfter(u, events[..|events| - 1]), events[|events| - 1])
  }

  /** The times the gatekeeper woke the session. */
  function Wakes(u: Setup, events: seq<Event>): seq<Time> {
    if events == [] then []
    else
      var before, e := events[..|events| - 1], events[|events| - 1];
      Wakes(u, before) + if e.Arrive? && Answer(u, GateAfter(u, before), e).wake then [e.now] else []
  }

  ghost predicate ClockForward(events: seq<Event>) {
    forall i, j :: 0 <= i < j < |events| && events[i].Arrive? && events[j].Arrive? ==> events[i].now <= events[j].now
  }

  // --- the bounded deque is enough ---------------------------------------------------

  ghost predicate Ascending(h: seq<Time>) {
    forall i, j :: 0 <= i < j < |h| ==> h[i] <= h[j]
  }

  /** Any `cap + 1` successive times span a whole window. */
  ghost predicate Spaced(h: seq<Time>, cap: nat) {
    forall i {:trigger Apart(h, cap, i)} :: 0 <= i && i + cap < |h| ==> Apart(h, cap, i)
  }

  ghost predicate Apart(h: seq<Time>, cap: nat, i: nat)
    requires i + cap < |h|
  {
    h[i + cap] - h[i] >= RATE_WINDOW_SECONDS
  }

  function LastOf(h: seq<Time>, n: nat): seq<Time> {
    if |h| <= n then h else h[|h| - n..]
  }

  /** In a spaced history whatever is still in the window is among the last `cap`. */
  lemma OldTimesDoNotCount(h: seq<Time>, cap: nat, size: nat, now: Time)
    requires Ascending(h) && Spaced(h, cap) && cap <= size
    requires h == [] || h[|h| - 1] <= now
    ensures Within(LastOf(h, size), now) == Within(h, now)
  {
    if |h| > size {
      var k := |h| - size;
      assert h == h[..k] + h[k..];
      forall at | at in h[..k] ensures !InWindow(now)(at) {
        var i :| 0 <= i < k && h[i] == at;
        assert Apart(h, cap, i) && h[i + cap] <= now;
      }
      FilterNone(h[..k], InWindow(now));
      FilterConcat(h[..k], h[k..], InWindow(now));
    }
  }

  /** Waking when fewer than `cap` are in the window keeps the history spaced. */
  lemma WakeKeepsSpaced(h: seq<Time>, cap: nat, now: Time)
    requires Ascending(h) && Spaced(h, cap) && (h == [] || h[|h| - 1] <= now)
    requires |Within(h, now)| < cap
    ensures Ascending(h + [now]) && Spaced(h + [now], cap)
  {
    var t := h + [now];
    if |h| >= cap > 0 {
      FullWindow(h, cap, now);
    }
    forall i | 0 <= i && i + cap < |t| ensures Apart(t, cap, i) {
      if i + cap < |h| {
        assert Apart(h, cap, i);
      }
    }
  }

  /** With the `cap`-th last time still in the window, the window holds `cap` of them. */
  lemma FullWindow(h: seq<Time>, cap: nat, now: Time)
    requires Ascending(h) && 0 < cap <= |h|
    ensures now - h[|h| - cap] < RATE_WINDOW_SECONDS ==> |Within(h, now)| >= cap
  {
    if now - h[|h| - cap] < RATE_WINDOW_SECONDS {
      var k := |h| - cap;
      assert h == h[..k] + h[k..];
      FilterConcat(h[..k], h[k..], InWindow(now));
      FilterAll(h[k..], InWindow(now));
    }
  }

  ghost predicate SameMemory(u: Setup, g: Gate, ledger: Gate, wakes: seq<Time>) {
    && g.verified == ledger.verified
    && g.recent == LastOf(ledger.recent, DequeSize(u.policy))
    && wakes == ledger.recent
    && Ascending(ledger.recent)
    && Spaced(ledger.recent, u.policy.maxPerMinute)
  }

  lemma SameMemorySameAnswer(u: Setup, g: Gate, ledger: Gate, wakes: seq<Time>, e: Event)
    requires SameMemory(u, g, ledger, wakes) && e.Arrive?
    requires ledger.recent == [] || ledger.recent[|ledger.recent| - 1] <= e.now
    ensures Answer(u, g, e) == Answer(u, ledger, e)
  {
    OldTimesDoNotCount(ledger.recent, u.policy.maxPerMinute, DequeSize(u.policy), e.now);
  }

  lemma PushKeepsLast(h: seq<Time>, now: Time, size: nat)
    requires size > 0
    ensures Pushed(LastOf(h, size), now, size) == LastOf(h + [now], size)
  {
  }

  lemma ArrivalKeepsMemory(u: Setup, g: Gate, ledger: Gate, wakes: seq<Time>, e: Event)
    requires SameMemory(u, g, ledger, wakes) && e.Arrive? && (wakes == [] || wakes[|wakes| - 1] <= e.now)
    ensures SameMemory(u, NextGate(u, g, e), NextLedger(u, ledger, e),
                       wakes + if Answer(u, g, e).wake then [e.now] else [])
  {
    SameMemorySameAnswer(u, g, ledger, wakes, e);
    if Answer(u, ledger, e).wake {
      WakeKeepsSpaced(wakes, u.policy.maxPerMinute, e.now);
      PushKeepsLast(wakes, e.now, DequeSize(u.policy));
    } else {
      assert wakes + [] == wakes;
    }
  }

  /** What it remembers, whatever the clock does: the last of its interruptions, as many as
      the cap, and one at least. */
  lemma {:induction false} RemembersTheLast(u: Setup, events: seq<Event>)
    ensures GateAfter(u, events).recent ==
              LastOf(Wakes(u, events), if u.policy.maxPerMinute > 1 then u.policy.maxPerMinute else 1)
  {
    if events != [] {
      var before, e := events[..|events| - 1], events[|events| - 1];
      RemembersTheLast(u, before);
      PushKeepsLast(Wakes(u, before), if e.Arrive? then e.now else 0.0, DequeSize(u.policy));
      assert Wakes(u, before) + [] == Wakes(u, before);
    }
  }

  ghost predicate NotAfter(events: seq<Event>, times: seq<Time>) {
    forall at <- times :: exists i :: 0 <= i < |events| && events[i].Arrive? && events[i].now == at
  }

  lemma {:induction false} MemoryHolds(u: Setup, events: seq<Event>)
    requires ClockForward(events)
    ensures SameMemory(u, GateAfter(u, events), LedgerAfter(u, events), Wakes(u, events))
    ensures NotAfter(events, Wakes(u, events))
  {
    if events != [] {
      var before, e := events[..|events| - 1], events[|events| - 1];
      MemoryHolds(u, before);
      var g, ledger, wakes := GateAfter(u, before), LedgerAfter(u, before), Wakes(u, before);
      if e.Arrive? {
        if wakes != [] {
          assert wakes[|wakes| - 1] in wakes;
        }
        ArrivalKeepsMemory(u, g, ledger, wakes, e);
      } else {
        assert Wakes(u, events) == wakes;
      }
      forall at | at in Wakes(u, events)
        ensures exists i :: 0 <= i < |events| && events[i].Arrive? && events[i].now == at
      {
        if at in Wakes(u, before) {
          var i :| 0 <= i < |before| && before[i].Arrive? && before[i].now == at;
          assert events[i] == before[i];
        }
      }
    }
  }

  lemma ForwardBefore(before: seq<Event>, e: Event)
    requires ClockForward(before + [e])
    ensures ClockForward(before)
  {
    forall i, j | 0 <= i < j < |before| && before[i].Arrive? && before[j].Arrive?
      ensures before[i].now <= before[j].now
    {
      assert (before + [e])[i] == before[i] && (before + [e])[j] == before[j];
    }
  }

  /** Remembering `max(1, cap)` times answers exactly as remembering all of them would, down
      to the count in the log. */
  lemma BoundedDequeIsEnough(u: Setup, before: seq<Event>, e: Event)
    requires ClockForward(before + [e]) && e.Arrive?
    ensures Answer(u, GateAfter(u, before), e) == Answer(u, LedgerAfter(u, before), e)
  {
    ForwardBefore(before, e);
    MemoryHolds(u, before);
    var h := LedgerAfter(u, before).recent;
    if h != [] {
      assert h[|h| - 1] in Wakes(u, before);
      var i :| 0 <= i < |before| && before[i].Arrive? && before[i].now == h[|h| - 1];
      assert (before + [e])[i] == before[i] && (before + [e])[|before|] == e;
    }
    SameMemorySameAnswer(u, GateAfter(u, before), LedgerAfter(u, before), h, e);
  }

  /** The promise of the limiter: any `cap + 1` successive interruptions span at least a
      minute, across every change of whether the hub checks names. */
  lemma RateIsKept(u: Setup, events: seq<Event>, i: nat)
    requires ClockForward(events) && i + u.policy.maxPerMinute < |Wakes(u, events)|
    ensures Wakes(u, events)[i + u.policy.maxPerMinute] - Wakes(u, events)[i] >= 60.0
  {
    MemoryHolds(u, events);
    assert Apart(Wakes(u, events), u.policy.maxPerMinute, i);
  }

  /** Exactly who wakes the session, over any life of the gatekeeper: a trusted name, on a hub
      that checks names, with something to wake with, when the last minute held fewer than
      `cap` interruptions.  A whole minute later an interruption counts no more. */
  lemma WakesExactlyWhen(u: Setup, before: seq<Event>, e: Event)
    requires ClockForward(before + [e]) && e.Arrive?
    ensures
      var lastMinute := Filter(Wakes(u, before), at => e.now - at < 60.0);
      Answer(u, GateAfter(u, before), e).wake <==>
        && Checked(u, before) && u.ready && Strip(e.a.sender) in u.policy.wakeFrom
        && |lastMinute| < u.policy.maxPerMinute
  {
    BoundedDequeIsEnough(u, before, e);
    CheckedIsTheLastSaid(u, before);
    ForwardBefore(before, e);
    MemoryHolds(u, before);
    FilterAgrees(Wakes(u, before), InWindow(e.now), at => e.now - at < 60.0);
  }

  ghost predicate AllArrive(events: seq<Event>) {
    forall e <- events :: e.Arrive?
  }

  ghost predicate LastSaid(events: seq<Event>, i: nat) {
    i < |events| && events[i].SetVerified? && AllArrive(events[i + 1..])
  }

  /** The hub checks names: as last said, or else as it was at the start. */
  ghost predicate Checked(u: Setup, events: seq<Event>) {
    if AllArrive(events) then u.verified else exists i: nat :: LastSaid(events, i) && events[i].verified
  }

  lemma CheckedAfterOneMore(u: Setup, before: seq<Event>, e: Event)
    ensures Checked(u, before + [e]) <==> if e.SetVerified? then e.verified else Checked(u, before)
  {
    var events := before + [e];
    assert e in events && (forall d <- before :: d in events);
    assert events[|before|] == e && events[|before| + 1..] == [];
    forall i: nat | i < |before| ensures LastSaid(events, i) <==> e.Arrive? && LastSaid(before, i) {
      assert events[i] == before[i] && events[i + 1..] == before[i + 1..] + [e];
      assert e in events[i + 1..];
    }
    if e.SetVerified? {
      assert LastSaid(events, |before|);
    } else {
      assert AllArrive(events) <==> AllArrive(before);
      if i: nat :| LastSaid(before, i) && before[i].verified {
        assert LastSaid(events, i) && events[i].verified;
      }
    }
  }

  lemma {:induction false} CheckedIsTheLastSaid(u: Setup, events: seq<Event>)
    ensures GateAfter(u, events).verified <==> Checked(u, events)
  {
    if events != [] {
      var before, e := events[..|events| - 1], events[|events| - 1];
      CheckedIsTheLastSaid(u, before);
      CheckedAfterOneMore(u, before, e);
      assert events == before + [e];
    }
  }

  lemma WakesOneMore(u: Setup, events: seq<Event>, e: Event)
    requires e.Arrive?
    ensures
      var d := Answer(u, GateAfter(u, events), e);
      && Wakes(u, events + [e]) == Wakes(u, events) + (if d.wake then [e.now] else [])
      && GateAfter(u, events + [e]) == NextGate(u, GateAfter(u, events), e)
  {
    assert (events + [e])[..|events|] == events;
  }

  /** A trusted arrival with room wakes, and its time is remembered. */
  lemma WakesWithRoom(u: Setup, events: seq<Event>, a: Arrival, now: Time)
    requires u.ready && Strip(a.sender) in u.policy.wakeFrom
    requires
      var g := GateAfter(u, events);
      g.verified && |Within(g.recent, now)| < u.policy.maxPerMinute
    ensures
      var e := Arrive(a, now, false);
      && Wakes(u, events + [e]) == Wakes(u, events) + [now]
      && GateAfter(u, events + [e]) == Gate(true, Pushed(GateAfter(u, events).recent, now, DequeSize(u.policy)))
  {
    WakesOneMore(u, events, Arrive(a, now, false));
  }

  /** A clock that goes back breaks it: three interruptions at 100, 0 and 101 seconds under a
      cap of two, the last one second after the first. */
  lemma ClockBackBreaksTheRate(a: Arrival)
    ensures
      var u := Setup(Policy({Strip(a.sender)}, 2), true, true);
      Wakes(u, [Arrive(a, 100.0, false), Arrive(a, 0.0, false), Arrive(a, 101.0, false)]) == [100.0, 0.0, 101.0]
  {
    var u := Setup(Policy({Strip(a.sender)}, 2), true, true);
    var first, second, third := Arrive(a, 100.0, false), Arrive(a, 0.0, false), Arrive(a, 101.0, false);
    OneInWindow();
    WakesWithRoom(u, [], a, 100.0);
    assert [] + [first] == [first] && [] + [100.0] == [100.0] && GateAfter(u, [first]).recent == [100.0];
    WakesWithRoom(u, [first], a, 0.0);
    assert [first] + [second] == [first, second] && GateAfter(u, [first, second]).recent == [100.0, 0.0];
    WakesWithRoom(u, [first, second], a, 101.0);
    assert [first, second] + [third] == [first, second, third];
  }

  lemma OneInWindow()
    ensures Within([], 100.0) == [] && |Within([100.0], 0.0)| == 1 && |Within([100.0, 0.0], 101.0)| == 1
  {
    assert [100.0, 0.0][1..] == [0.0] && Within([0.0], 101.0) == [];
  }

  // --- non-interference --------------------------------------------------------------

  /** Everything but arrivals from senders the policy does not name. */
  function Trusted(u: Setup, events: seq<Event>): seq<Event> {
    if events == [] then []
    else
      var e := events[|events| - 1];
      Trusted(u, events[..|events| - 1])
        + if e.Arrive? && Strip(e.a.sender) !in u.policy.wakeFrom then [] else [e]
  }

  /** Equal in the sender, the id and the time: subjects, dates and failing adapters may
      differ. */
  predicate Alike(d: Event, e: Event) {
    match (d, e)
    case (SetVerified(v), SetVerified(w)) => v == w
    case (Arrive(a, s, _), Arrive(b, t, _)) => a.sender == b.sender && a.id == b.id && s == t
    case _ => false
  }

  ghost predicate AllAlike(xs: seq<Event>, ys: seq<Event>) {
    |xs| == |ys| && forall i :: 0 <= i < |xs| ==> Alike(xs[i], ys[i])
  }

  lemma {:induction false} UntrustedLeaveNoTrace(u: Setup, events: seq<Event>)
    ensures GateAfter(u, Trusted(u, events)) == GateAfter(u, events)
    ensures forall e <- Trusted(u, events) ::
              e in events && (e.Arrive? ==> Strip(e.a.sender) in u.policy.wakeFrom)
  {
    if events != [] {
      var before, e := events[..|events| - 1], events[|events| - 1];
      UntrustedLeaveNoTrace(u, before);
      assert (Trusted(u, before) + [e])[..|Trusted(u, before)|] == Trusted(u, before);
      assert Trusted(u, before) + [] == Trusted(u, before);
    }
  }

  lemma {:induction false} AlikeEventsSameGate(u: Setup, xs: seq<Event>, ys: seq<Event>)
    requires AllAlike(xs, ys)
    ensures GateAfter(u, xs) == GateAfter(u, ys)
  {
    if xs != [] {
      AlikeEventsSameGate(u, xs[..|xs| - 1], ys[..|ys| - 1]);
      assert Alike(xs[|xs| - 1], ys[|ys| - 1]);
    }
  }

  /** Nobody outside the trust list, and nothing a trusted sender types, has any influence:
      if two lives of the gatekeeper agree on who trusted wrote, which id and when, they
      answer the next arrival alike, however many strangers wrote in either and whatever
      the adapters did. */
  lemma NonInterference(u: Setup, life: seq<Event>, other: seq<Event>, e: Event, f: Event)
    requires AllAlike(Trusted(u, life), Trusted(u, other))
    requires e.Arrive? && Alike(e, f)
    ensures Answer(u, GateAfter(u, life), e) == Answer(u, GateAfter(u, other), f)
  {
    UntrustedLeaveNoTrace(u, life);
    UntrustedLeaveNoTrace(u, other);
    AlikeEventsSameGate(u, Trusted(u, life), Trusted(u, other));
  }
}
