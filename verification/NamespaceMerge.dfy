/** `merge.py`: one namespace of operators and mailboxes. */
module NamespaceMerge {

  /* `normalize` of `naming.py` is left open as any function on text. */

  import opened Folds
  import opened Text
  import opened Wrappers

  /** Everything about an operator but the username. */
  datatype Account = Account(passwordHash: string, enrolment: string, totp: Option<string>, created: string,
                             lastLogin: Option<string>, email: string, group: string)

  datatype Kind = Service | Group | Person

  datatype Actor = Actor(kind: Kind, profile: map<string, string>, created: string, lastSeen: string)

  /** Both stores.  Recovery codes are (username, code), sessions (session, username). */
  datatype State = State(users: map<string, Account>, recovery: set<(string, string)>, sessions: set<(string, string)>,
                         actors: map<string, Actor>)

  datatype Renamed = Renamed(was: string, now: string)

  datatype Collision = Collision(was: string, wouldBe: string, takenBy: string)

  datatype Migration = Migration(already: seq<string>, promoted: seq<string>, renamed: seq<Renamed>,
                                 collisions: seq<Collision>, claimed: seq<string>)

  // --- names -------------------------------------------------------------------------

  const ADDRESSING_KEYWORDS := {"local", "all", "any", "public", "me", "everyone"}

  predicate IsAlnum(c: char) {
    'a' <= c <= 'z' || '0' <= c <= '9'
  }

  /** The pattern an actor name matches. */
  predicate IsName(s: string) {
    && 1 <= |s| <= 64 && IsAlnum(s[0]) && IsAlnum(s[|s| - 1])
    && forall c <- s :: IsAlnum(c) || c == '_'
  }

  /** `validate_operator_name`, or None where it raises. */
  function Validated(raw: string): Option<string> {
    var candidate := Lower(Strip(raw));
    if candidate == "" || candidate in ADDRESSING_KEYWORDS || !IsName(candidate) then None else Some(candidate)
  }

  /** Which names are valid, and what they become: trimmed and in lower case, one to sixty-four
      letters, digits and underscores, none of the addressing keywords, and an underscore
      neither first nor last. */
  lemma ValidatedExactlyWhen(raw: string, name: string)
    ensures Validated(raw) == Some(name) <==>
              && name == Lower(Strip(raw)) && 1 <= |name| <= 64
              && (forall c <- name :: 'a' <= c <= 'z' || '0' <= c <= '9' || c == '_')
              && name[0] != '_' && name[|name| - 1] != '_'
              && name !in {"local", "all", "any", "public", "me", "everyone"}
  {
    if name != "" {
      assert name[0] in name && name[|name| - 1] in name;
    }
  }

  lemma ValidatedTwice(raw: string)
    requires Validated(raw).Some?
    ensures Validated(Validated(raw).value) == Validated(raw)
  {
    var c := Validated(raw).value;
    assert !IsSpace(c[0]) && !IsSpace(c[|c| - 1]);
    StrippedStays(c);
    assert Lower(c) == c;
  }

  /** `_usable`. */
  function Usable(normalize: string -> string): string -> Option<string> {
    (username: string) =>
      if Validated(username).Some? then Validated(username)
      else
        var candidate := normalize(username);
        if candidate == "" then None else Validated(candidate)
  }

  /** The name an operator can use: its own if that is valid, else what normalising makes of it
      if that is. */
  lemma UsableExactlyWhen(normalize: string -> string, username: string)
    ensures Validated(username).Some? ==> Usable(normalize)(username) == Validated(username)
    ensures Validated(username).None? ==> Usable(normalize)(username) == Validated(normalize(username))
  {
    assert Lower(Strip("")) == "";
  }

  /** The name each operator may come to hold, if any. */
  type Choice = string -> Option<string>

  /** The usable name of a usable name is itself. */
  ghost predicate Lasting(usable: Choice) {
    forall u {:trigger LastsAt(usable, u)} :: LastsAt(usable, u)
  }

  ghost predicate LastsAt(usable: Choice, u: string) {
    usable(u).Some? ==> usable(usable(u).value) == usable(u)
  }

  /** Whatever `normalize` does, so it is with the names `_usable` gives: what is proved below
      of every lasting choice of names holds of these. */
  lemma UsableLasts(normalize: string -> string)
    ensures Lasting(Usable(normalize))
  {
    forall u ensures LastsAt(Usable(normalize), u) {
      if Validated(u).Some? {
        ValidatedTwice(u);
      } else if Usable(normalize)(u).Some? {
        ValidatedTwice(normalize(u));
      }
    }
  }

  // --- one operator ------------------------------------------------------------------

  function WithoutCodes(rows: set<(string, string)>, username: string): set<(string, string)> {
    set row | row in rows && row.0 != username
  }

  function WithoutSessions(rows: set<(string, string)>, username: string): set<(string, string)> {
    set row | row in rows && row.1 != username
  }

  function UserRemoved(s: State, username: string): State {
    if username in s.users then
      s.(users := s.users - {username}, recovery := WithoutCodes(s.recovery, username),
         sessions := WithoutSessions(s.sessions, username))
    else s
  }

  /** `_rename`. */
  function RenamedUser(s: State, was: string, account: Account, now: string): State {
    UserRemoved(s.(users := s.users[now := account]), was)
  }

  /** `claim_name`, else `_promote`. */
  function WithPerson(s: State, name: string, stamp: string): State {
    if name !in s.actors then s.(actors := s.actors[name := Actor(Person, map[], stamp, stamp)])
    else s.(actors := s.actors[name := s.actors[name].(kind := Person)])
  }

  predicate Free(s: State, name: string) {
    name !in s.actors && name !in s.users
  }

  datatype Progress = Progress(state: State, report: Migration, names: map<string, string>)

  predicate Collides(s: State, was: string, usable: Choice) {
    match usable(was)
    case None => true
    case Some(wanted) => wanted != was && !Free(s, wanted)
  }

  /** The name an operator ends under. */
  function NameAfter(s: State, was: string, usable: Choice): string {
    if Collides(s, was, usable) then was else usable(was).value
  }

  function StateAfter(s: State, was: string, account: Account, usable: Choice, stamp: string): State {
    var name := NameAfter(s, was, usable);
    if Collides(s, was, usable) then s
    else WithPerson(if name == was then s else RenamedUser(s, was, account, name), name, stamp)
  }

  function CollisionOf(u: string, usable: Choice): Collision {
    match usable(u)
    case None => Collision(u, "", "")
    case Some(w) => Collision(u, w, w)
  }

  function ReportAfter(r: Migration, s: State, was: string, usable: Choice): Migration {
    var name := NameAfter(s, was, usable);
    if Collides(s, was, usable) then r.(collisions := r.collisions + [CollisionOf(was, usable)])
    else
      var renamed := r.renamed + if name != was then [Renamed(was, name)] else [];
      if name !in s.actors then r.(renamed := renamed, claimed := r.claimed + [name])
      else r.(renamed := renamed, already := r.already + [name],
              promoted := r.promoted + if s.actors[name].kind != Person then [name] else [])
  }

  /** What happens to the operator `was` in turn; `names` is where each operator is now. */
  function AdoptOne(p: Progress, was: string, account: Account, usable: Choice, stamp: string): Progress {
    Progress(StateAfter(p.state, was, account, usable, stamp), ReportAfter(p.report, p.state, was, usable),
             p.names[was := NameAfter(p.state, was, usable)])
  }

  function Start(s: State): Progress {
    Progress(s, Migration([], [], [], [], []), map[])
  }

  function StepOf(users: map<string, Account>, usable: Choice, stamps: nat -> string):
    (Progress, string, nat) -> Progress
  {
    (p: Progress, was: string, i: nat) => if was in users then AdoptOne(p, was, users[was], usable, stamps(i)) else p
  }

  /** `adopt_existing` over the first `n` operators of the list it read at the start. */
  function Adopted(s: State, order: seq<string>, usable: Choice, stamps: nat -> string, n: nat): Progress
    requires n <= |order|
  {
    Fold(Start(s), order, StepOf(s.users, usable, stamps), n)
  }

  /** The list of operators: each once. */
  ghost predicate Lists(order: seq<string>, users: map<string, Account>) {
    && (forall n {:trigger order[..n]} :: 0 <= n < |order| ==> order[n] !in order[..n])
    && (forall u :: u in order <==> u in users)
  }

  // --- a new human -------------------------------------------------------------------

  datatype Error = NameUnavailable | OperatorExists | LastOperator

  /** `create_human`; `rival` is an actor somebody claims under the name between the check and
      the claim. */
  function Created(s: State, username: string, account: Account, rival: Option<Actor>, stamp: string):
    (State, Result<string, Error>)
  {
    match Validated(username)
    case None => (s, Err(NameUnavailable))
    case Some(name) =>
      if name in s.actors || name in s.users then (s, Err(OperatorExists))
      else match rival {
        case None =>
          var person := Actor(Person, map[], stamp, stamp);
          (s.(users := s.users[name := account], actors := s.actors[name := person]), Ok(name))
        case Some(actor) =>
          var lost := s.(users := s.users[name := account], actors := s.actors[name := actor]);
          if s.users == map[] then (lost, Err(LastOperator)) else (UserRemoved(lost, name), Err(OperatorExists))
      }
  }

  // --- the code ----------------------------------------------------------------------

  class Stores {
    var state: State

    constructor (state: State)
      ensures this.state == state
    {
      this.state := state;
    }

    method ClaimName(name: string, stamp: string) returns (claimed: bool)
      modifies this`state
      ensures claimed == (name !in old(state).actors)
      ensures state == if claimed then WithPerson(old(state), name, stamp) else old(state)
    {
      claimed := name !in state.actors;
      if claimed {
        state := state.(actors := state.actors[name := Actor(Person, map[], stamp, stamp)]);
      }
    }

    /** `_promote`. */
    method Promote(name: string) returns (changed: bool)
      modifies this`state
      ensures changed == (name in old(state).actors && old(state).actors[name].kind != Person)
      ensures state == if name in old(state).actors then WithPerson(old(state), name, "") else old(state)
    {
      if name !in state.actors || state.actors[name].kind == Person {
        assert name in state.actors ==> state.actors[name := state.actors[name].(kind := Person)] == state.actors;
        return false;
      }
      var actor := state.actors[name];
      state := state.(actors := state.actors[name := Actor(Person, actor.profile, actor.created, actor.lastSeen)]);
      return true;
    }

    method Rename(was: string, account: Account, now: string)
      modifies this`state
      ensures state == RenamedUser(old(state), was, account, now)
    {
      state := state.(users := state.users[now := account]);
      RemoveUser(was);
    }

    method RemoveUser(username: string)
      modifies this`state
      ensures state == UserRemoved(old(state), username)
      ensures username !in old(state).users ==> state == old(state)
    {
      if username in state.users {
        state := state.(users := state.users - {username}, recovery := WithoutCodes(state.recovery, username),
                        sessions := WithoutSessions(state.sessions, username));
      }
    }

    /** `create_human`, up to the one-time password. */
    method CreateHuman(username: string, account: Account, rival: Option<Actor>, stamp: string)
      returns (r: Result<string, Error>)
      modifies this`state
      ensures (state, r) == Created(old(state), username, account, rival, stamp)
    {
      var valid := Validated(username);
      if valid.None? {
        return Err(NameUnavailable);
      }
      var name := valid.value;
      if name in state.actors || name in state.users {
        return Err(OperatorExists);
      }
      state := state.(users := state.users[name := account]);
      if rival.Some? {
        state := state.(actors := state.actors[name := rival.value]);
      }
      var claimed := ClaimName(name, stamp);
      if claimed {
        return Ok(name);
      }
      if state.users.Keys == {name} {
        assert forall u <- old(state).users :: u in state.users;
        assert old(state).users == map[];
        return Err(LastOperator);
      }
      assert old(state).users != map[];
      RemoveUser(name);
      return Err(OperatorExists);
    }

    /** The body of the loop: the report so far, and where the operator ends. */
    method AdoptUser(r: Migration, was: string, account: Account, usable: Choice, stamp: string)
      returns (report: Migration, name: string)
      modifies this`state
      ensures state == StateAfter(old(state), was, account, usable, stamp)
      ensures report == ReportAfter(r, old(state), was, usable)
      ensures name == NameAfter(old(state), was, usable)
    {
      report, name := r, was;
      var usable := usable(was);
      if usable.None? {
        report := report.(collisions := report.collisions + [Collision(was, "", "")]);
        return;
      }
      var wanted := usable.value;
      if wanted != was {
        if wanted in state.actors || wanted in state.users {
          report := report.(collisions := report.collisions + [Collision(was, wanted, wanted)]);
          return;
        }
        Rename(was, account, wanted);
        report := report.(renamed := report.renamed + [Renamed(was, wanted)]);
      }
      name := wanted;
      var claimed := ClaimName(wanted, stamp);
      if claimed {
        report := report.(claimed := report.claimed + [wanted]);
      } else {
        report := report.(already := report.already + [wanted]);
        var changed := Promote(wanted);
        if changed {
          report := report.(promoted := report.promoted + [wanted]);
        }
      }
    }

    /** `adopt_existing`; `order` is the list of operators as first read. */
    method AdoptExisting(order: seq<string>, usable: Choice, stamps: nat -> string)
      returns (report: Migration, ghost names: map<string, string>)
      requires Lists(order, state.users)
      modifies this`state
      ensures Progress(state, report, names) == Adopted(old(state), order, usable, stamps, |order|)
    {
      var snapshot := state.users;
      report, names := Migration([], [], [], [], []), map[];
      for i := 0 to |order|
        invariant Progress(state, report, names) == Adopted(old(state), order, usable, stamps, i)
      {
        var name;
        report, name := AdoptUser(report, order[i], snapshot[order[i]], usable, stamps(i));
        names := names[order[i] := name];
      }
    }
  }

  // --- nobody is lost ----------------------------------------------------------------

  function NameOf(names: map<string, string>, u: string): string {
    if u in names then names[u] else u
  }

  /** Operator `u` of the start still has an account, the same but for the username. */
  ghost predicate Home(p: Progress, first: State, u: string) {
    u in first.users && NameOf(p.names, u) in p.state.users && p.state.users[NameOf(p.names, u)] == first.users[u]
  }

  ghost predicate Apart(p: Progress, u: string, v: string) {
    NameOf(p.names, u) != NameOf(p.names, v)
  }

  ghost predicate SomeonesName(p: Progress, first: State, name: string) {
    exists u :: u in first.users && NameOf(p.names, u) == name
  }

  /** Every operator of the start has one account, no two share one, and there are no others. */
  ghost predicate Conserved(p: Progress, first: State) {
    && (forall u {:trigger Home(p, first, u)} :: u in first.users ==> Home(p, first, u))
    && (forall u, v {:trigger Apart(p, u, v)} :: u in first.users && v in first.users && u != v ==> Apart(p, u, v))
    && (forall name {:trigger SomeonesName(p, first, name)} :: name in p.state.users ==> SomeonesName(p, first, name))
    && |p.state.users| == |first.users|
  }

  lemma OneMovesIn(users: map<string, Account>, was: string, account: Account, now: string)
    requires was in users && now !in users
    ensures |users[now := account] - {was}| == |users|
  {
    var after := users[now := account] - {was};
    assert after.Keys == users.Keys + {now} - {was};
    assert |users.Keys + {now}| == |users| + 1;
    assert |after.Keys| == |users|;
  }

  lemma MovingIsConserved(p: Progress, first: State, was: string, now: string, q: Progress)
    requires Conserved(p, first) && was in first.users && was !in p.names && now !in p.state.users
    requires q.names == p.names[was := now]
    requires q.state.users == p.state.users[now := first.users[was]] - {was}
    ensures Conserved(q, first)
  {
    assert Home(p, first, was);
    OneMovesIn(p.state.users, was, first.users[was], now);
    forall u | u in first.users ensures Home(q, first, u) {
      assert Home(p, first, u) && (u != was ==> Apart(p, u, was));
    }
    forall u, v | u in first.users && v in first.users && u != v ensures Apart(q, u, v) {
      assert Apart(p, u, v) && Home(p, first, u) && Home(p, first, v);
    }
    forall name | name in q.state.users ensures SomeonesName(q, first, name) {
      if name == now {
        assert NameOf(q.names, was) == name;
      } else {
        assert SomeonesName(p, first, name);
        var u :| u in first.users && NameOf(p.names, u) == name;
        assert NameOf(q.names, u) == name;
      }
    }
  }

  lemma StayingIsConserved(p: Progress, first: State, was: string, q: Progress)
    requires Conserved(p, first) && was !in p.names
    requires q.names == p.names[was := was] && q.state.users == p.state.users
    ensures Conserved(q, first)
  {
    forall u ensures NameOf(q.names, u) == NameOf(p.names, u) {
    }
    forall u | u in first.users ensures Home(q, first, u) {
      assert Home(p, first, u);
    }
    forall u, v | u in first.users && v in first.users && u != v ensures Apart(q, u, v) {
      assert Apart(p, u, v);
    }
    forall name | name in q.state.users ensures SomeonesName(q, first, name) {
      assert SomeonesName(p, first, name);
      var u :| u in first.users && NameOf(p.names, u) == name;
      assert NameOf(q.names, u) == name;
    }
  }

  lemma RenamedUsers(s: State, was: string, account: Account, now: string)
    requires was in s.users
    ensures var t := RenamedUser(s, was, account, now);
            t.users == s.users[now := account] - {was} && t.actors == s.actors
  {
  }

  /** A step moves one account to a free name, or no account at all. */
  lemma StepMovesOne(s: State, was: string, account: Account, usable: Choice, stamp: string)
    requires was in s.users
    ensures
      var (now, t) := (NameAfter(s, was, usable), StateAfter(s, was, account, usable, stamp));
      if now == was then t.users == s.users
      else Free(s, now) && t.users == s.users[now := account] - {was}
  {
    if !Collides(s, was, usable) && NameAfter(s, was, usable) != was {
      RenamedUsers(s, was, account, NameAfter(s, was, usable));
    }
  }

  lemma StepIsConserved(p: Progress, first: State, was: string, q: Progress, now: string)
    requires Conserved(p, first) && was in first.users && was !in p.names
    requires q.names == p.names[was := now]
    requires if now == was then q.state.users == p.state.users
             else Free(p.state, now) && q.state.users == p.state.users[now := first.users[was]] - {was}
    ensures Conserved(q, first)
  {
    if now == was {
      StayingIsConserved(p, first, was, q);
    } else {
      MovingIsConserved(p, first, was, now, q);
    }
  }

  lemma UnnamedIsHome(p: Progress, first: State, was: string)
    requires Conserved(p, first) && was in first.users && was !in p.names
    ensures was in p.state.users && p.state.users[was] == first.users[was]
  {
    assert Home(p, first, was);
  }

  lemma StepConserves(p: Progress, first: State, was: string, usable: Choice, stamp: string)
    requires Conserved(p, first) && was in first.users && was !in p.names
    ensures Conserved(AdoptOne(p, was, first.users[was], usable, stamp), first)
  {
    UnnamedIsHome(p, first, was);
    StepMovesOne(p.state, was, first.users[was], usable, stamp);
    StepIsConserved(p, first, was, AdoptOne(p, was, first.users[was], usable, stamp),
                    NameAfter(p.state, was, usable));
  }

  lemma StartIsConserved(s: State)
    ensures Conserved(Start(s), s)
  {
    forall name | name in s.users ensures SomeonesName(Start(s), s, name) {
      assert NameOf(Start(s).names, name) == name;
    }
  }

  // --- actors ------------------------------------------------------------------------

  /** No actor goes and none changes but in becoming a person. */
  ghost predicate ActorsKept(first: State, s: State) {
    forall name <- first.actors ::
      && name in s.actors
      && (s.actors[name].kind == first.actors[name].kind || s.actors[name].kind == Person)
      && s.actors[name] == first.actors[name].(kind := s.actors[name].kind)
  }

  /** Every other actor is a person's, with an empty profile. */
  ghost predicate OthersAreNew(first: State, s: State) {
    forall name <- s.actors :: name !in first.actors ==>
      && s.actors[name].kind == Person && s.actors[name].profile == map[]
      && s.actors[name].created == s.actors[name].lastSeen
  }

  lemma StepAddsPersons(first: State, s: State, was: string, account: Account, usable: Choice, stamp: string)
    requires ActorsKept(first, s) && OthersAreNew(first, s)
    ensures OthersAreNew(first, StateAfter(s, was, account, usable, stamp))
  {
  }

  lemma StepKeepsActors(
      first: State, s: State, was: string, account: Account, usable: Choice, stamp: string)
    requires ActorsKept(first, s)
    ensures ActorsKept(first, StateAfter(s, was, account, usable, stamp))
  {
  }

  // --- what became of each operator --------------------------------------------------

  ghost predicate IsPerson(s: State, name: string) {
    name in s.actors && s.actors[name].kind == Person
  }

  /** Under its usable name, with a person's mailbox of that name. */
  ghost predicate Settled(p: Progress, u: string, usable: Choice) {
    usable(u) == Some(NameOf(p.names, u)) && IsPerson(p.state, NameOf(p.names, u))
  }

  /** Left as it was, and reported, because there is no usable name or somebody holds it. */
  ghost predicate Stuck(p: Progress, u: string, usable: Choice) {
    && NameOf(p.names, u) == u
    && usable(u) != Some(u)
    && Collides(p.state, u, usable)
    && CollisionOf(u, usable) in p.report.collisions
  }

  ghost predicate Judged(p: Progress, usable: Choice) {
    && Lasting(usable)
    && (forall u <- p.names :: Settled(p, u, usable) || Stuck(p, u, usable))
    && (forall c <- p.report.collisions ::
          c.was in p.names && c == CollisionOf(c.was, usable) && Stuck(p, c.was, usable))
  }

  /** A collision stays one: a step never frees a usable name. */
  lemma CollisionsStay(s: State, was: string, account: Account, usable: Choice, stamp: string, u: string)
    requires Lasting(usable)
    requires was in s.users && Collides(s, u, usable)
    ensures Collides(StateAfter(s, was, account, usable, stamp), u, usable)
  {
    StepMovesOne(s, was, account, usable, stamp);
    StepKeepsActors(s, s, was, account, usable, stamp);
    if usable(u).Some? {
      assert LastsAt(usable, u);
    }
  }

  lemma PersonsStay(s: State, was: string, account: Account, usable: Choice, stamp: string, name: string)
    requires IsPerson(s, name)
    ensures IsPerson(StateAfter(s, was, account, usable, stamp), name)
  {
    StepKeepsActors(s, s, was, account, usable, stamp);
  }

  lemma OthersStayJudged(p: Progress, was: string, account: Account, usable: Choice, stamp: string,
                         u: string)
    requires Lasting(usable)
    requires was in p.state.users && u != was
    ensures var q := AdoptOne(p, was, account, usable, stamp);
            && (Settled(p, u, usable) ==> Settled(q, u, usable))
            && (Stuck(p, u, usable) ==> Stuck(q, u, usable))
  {
    if Settled(p, u, usable) {
      PersonsStay(p.state, was, account, usable, stamp, NameOf(p.names, u));
    }
    if Stuck(p, u, usable) {
      CollisionsStay(p.state, was, account, usable, stamp, u);
    }
  }

  /** The operator in turn settles exactly when its usable name is its own or free. */
  lemma OneIsJudged(p: Progress, was: string, account: Account, usable: Choice, stamp: string)
    requires was in p.state.users
    ensures var q := AdoptOne(p, was, account, usable, stamp);
            if Collides(p.state, was, usable)
            then Stuck(q, was, usable) && q.report.collisions == p.report.collisions + [CollisionOf(was, usable)]
            else Settled(q, was, usable) && q.report.collisions == p.report.collisions
  {
  }

  lemma StepIsJudged(p: Progress, was: string, account: Account, usable: Choice, stamp: string)
    requires Judged(p, usable) && was in p.state.users && was !in p.names
    ensures Judged(AdoptOne(p, was, account, usable, stamp), usable)
  {
    var q := AdoptOne(p, was, account, usable, stamp);
    OneIsJudged(p, was, account, usable, stamp);
    forall u | u in q.names ensures Settled(q, u, usable) || Stuck(q, u, usable) {
      if u != was {
        OthersStayJudged(p, was, account, usable, stamp, u);
      }
    }
    forall c | c in q.report.collisions
      ensures c.was in q.names && c == CollisionOf(c.was, usable) && Stuck(q, c.was, usable)
    {
      if c in p.report.collisions {
        OthersStayJudged(p, was, account, usable, stamp, c.was);
      }
    }
  }

  // --- renames -----------------------------------------------------------------------

  /** Every rename went to a name nobody held at the start, and is the operator's name now. */
  ghost predicate RenamesWereFree(p: Progress, first: State) {
    forall r <- p.report.renamed ::
      && r.was in p.names && p.names[r.was] == r.now && r.was != r.now
      && r.now !in first.actors && r.now !in first.users
  }

  lemma ValidUsersStay(p: Progress, first: State, usable: Choice, w: string)
    requires Conserved(p, first) && Judged(p, usable) && w in first.users && usable(w) == Some(w)
    ensures w in p.state.users
  {
    assert Home(p, first, w);
  }

  lemma StepRenamesToFree(p: Progress, first: State, was: string, usable: Choice, stamp: string)
    requires Conserved(p, first) && Judged(p, usable) && ActorsKept(first, p.state) && RenamesWereFree(p, first)
    requires was in first.users && was !in p.names
    ensures RenamesWereFree(AdoptOne(p, was, first.users[was], usable, stamp), first)
  {
    var now := NameAfter(p.state, was, usable);
    if now != was {
      assert LastsAt(usable, was);
      if now in first.users {
        ValidUsersStay(p, first, usable, now);
      }
    }
  }

  // --- the report --------------------------------------------------------------------

  ghost predicate Taken(p: Progress, name: string) {
    exists u :: u in p.names && p.names[u] == name
  }

  /** Actors whose name nobody took so far are as they were, and only taken names are reported. */
  ghost predicate OnlyTaken(p: Progress, first: State) {
    && (forall name {:trigger Taken(p, name)} :: !Taken(p, name) ==>
          (name in p.state.actors <==> name in first.actors)
          && (name in first.actors ==> p.state.actors[name] == first.actors[name]))
    && (forall name {:trigger Taken(p, name)} ::
          name in p.report.claimed || name in p.report.already || name in p.report.promoted ==> Taken(p, name))
    && (forall r <- p.report.renamed :: r.was in p.names)
  }

  /** The report says of a settled operator whether its mailbox is new, was there, was made a
      person's, and whether it was renamed. */
  ghost predicate Reported(p: Progress, first: State, u: string) {
    var name := NameOf(p.names, u);
    && (name in p.report.claimed <==> name !in first.actors)
    && (name in p.report.already <==> name in first.actors)
    && (name in p.report.promoted <==> name in first.actors && first.actors[name].kind != Person)
    && (Renamed(u, name) in p.report.renamed <==> name != u)
  }

  ghost predicate ReportedAll(p: Progress, first: State, usable: Choice) {
    forall u <- p.names :: Settled(p, u, usable) ==> Reported(p, first, u)
  }

  /** The name an operator comes to hold was nobody's before. */
  lemma NameIsNotTaken(p: Progress, first: State, was: string, usable: Choice)
    requires Conserved(p, first) && was in first.users && was !in p.names
    requires forall u :: u in p.names ==> u in first.users
    ensures !Taken(p, NameAfter(p.state, was, usable))
  {
    var now := NameAfter(p.state, was, usable);
    forall u | u in p.names ensures p.names[u] != now {
      assert Home(p, first, u) && Apart(p, u, was);
    }
  }

  lemma StepTakesOne(p: Progress, first: State, was: string, usable: Choice, stamp: string)
    requires OnlyTaken(p, first) && was in first.users && was !in p.names
    ensures OnlyTaken(AdoptOne(p, was, first.users[was], usable, stamp), first)
  {
    var q := AdoptOne(p, was, first.users[was], usable, stamp);
    var now := NameAfter(p.state, was, usable);
    assert q.names[was] == now && Taken(q, now);
    forall name ensures Taken(p, name) ==> Taken(q, name) {
      if Taken(p, name) {
        var u :| u in p.names && p.names[u] == name;
        assert q.names[u] == name;
      }
    }
  }

  lemma StepReports(p: Progress, first: State, was: string, usable: Choice, stamp: string)
    requires Conserved(p, first) && OnlyTaken(p, first) && ReportedAll(p, first, usable)
    requires was in first.users && was !in p.names && forall u :: u in p.names ==> u in first.users
    ensures ReportedAll(AdoptOne(p, was, first.users[was], usable, stamp), first, usable)
  {
    var q := AdoptOne(p, was, first.users[was], usable, stamp);
    NameIsNotTaken(p, first, was, usable);
    forall u | u in q.names && Settled(q, u, usable) ensures Reported(q, first, u) {
      if u == was {
        NewlyReported(p, first, was, usable, stamp);
      } else {
        EarlierReported(p, first, was, usable, stamp, u);
      }
    }
  }

  lemma NewlyReported(p: Progress, first: State, was: string, usable: Choice, stamp: string)
    requires OnlyTaken(p, first) && was in first.users && was !in p.names
    requires !Taken(p, NameAfter(p.state, was, usable)) && !Collides(p.state, was, usable)
    ensures Reported(AdoptOne(p, was, first.users[was], usable, stamp), first, was)
  {
  }

  lemma EarlierReported(p: Progress, first: State, was: string, usable: Choice, stamp: string, u: string)
    requires was in first.users && u in p.names && u != was && !Taken(p, NameAfter(p.state, was, usable))
    requires Settled(p, u, usable) ==> Reported(p, first, u)
    requires Settled(AdoptOne(p, was, first.users[was], usable, stamp), u, usable)
    ensures Reported(AdoptOne(p, was, first.users[was], usable, stamp), first, u)
  {
    assert p.names[u] != NameAfter(p.state, was, usable) by {
      assert p.names[u] == NameAfter(p.state, was, usable) ==> Taken(p, NameAfter(p.state, was, usable));
    }
    OtherActorsStay(p.state, was, first.users[was], usable, stamp, p.names[u]);
    ReportsOne(p.report, p.state, was, usable, p.names[u]);
    RenamesOne(p.report, p.state, was, usable, Renamed(u, p.names[u]));
  }

  lemma OtherActorsStay(
      s: State, was: string, account: Account, usable: Choice, stamp: string, name: string)
    requires name != NameAfter(s, was, usable)
    ensures IsPerson(StateAfter(s, was, account, usable, stamp), name) <==> IsPerson(s, name)
  {
  }

  /** A step reports on the name it gives and on no other. */
  lemma ReportsOne(r: Migration, s: State, was: string, usable: Choice, name: string)
    requires name != NameAfter(s, was, usable)
    ensures name in ReportAfter(r, s, was, usable).claimed <==> name in r.claimed
    ensures name in ReportAfter(r, s, was, usable).already <==> name in r.already
    ensures name in ReportAfter(r, s, was, usable).promoted <==> name in r.promoted
  {
  }

  lemma RenamesOne(r: Migration, s: State, was: string, usable: Choice, other: Renamed)
    requires other.was != was
    ensures other in ReportAfter(r, s, was, usable).renamed <==> other in r.renamed
  {
  }

  /** Who was renamed. */
  function Gone(renamed: seq<Renamed>): set<string> {
    set r | r in renamed :: r.was
  }

  /** The recovery codes and sessions of those renamed are deleted, nobody else's. */
  ghost predicate CodesGone(p: Progress, first: State) {
    && p.state.recovery == (set row | row in first.recovery && row.0 !in Gone(p.report.renamed))
    && p.state.sessions == (set row | row in first.sessions && row.1 !in Gone(p.report.renamed))
  }

  lemma StepDropsCodes(
      p: Progress, first: State, was: string, account: Account, usable: Choice, stamp: string)
    requires CodesGone(p, first) && was in p.state.users
    ensures CodesGone(AdoptOne(p, was, account, usable, stamp), first)
  {
    var now := NameAfter(p.state, was, usable);
    if !Collides(p.state, was, usable) && now != was {
      assert Gone(p.report.renamed + [Renamed(was, now)]) == Gone(p.report.renamed) + {was};
    } else {
      assert p.report.renamed + [] == p.report.renamed;
    }
  }

  // --- whole runs --------------------------------------------------------------------

  ghost predicate Named(p: Progress, order: seq<string>, n: nat) {
    n <= |order| && forall u :: u in p.names <==> u in order[..n]
  }

  /** All of the above. */
  ghost predicate Sound(p: Progress, first: State, order: seq<string>, usable: Choice, n: nat) {
    && Named(p, order, n) && Conserved(p, first) && Judged(p, usable)
    && ActorsKept(first, p.state) && OthersAreNew(first, p.state)
    && RenamesWereFree(p, first) && CodesGone(p, first) && OnlyTaken(p, first) && ReportedAll(p, first, usable)
  }

  lemma StepIsSound(p: Progress, first: State, order: seq<string>, usable: Choice, stamp: string, n: nat)
    requires n < |order| && Lists(order, first.users) && Sound(p, first, order, usable, n)
    ensures Sound(AdoptOne(p, order[n], first.users[order[n]], usable, stamp), first, order, usable, n + 1)
  {
    var was := order[n];
    assert order[n] !in order[..n];
    assert order[..n + 1] == order[..n] + [was];
    assert forall u :: u in p.names ==> u in first.users by {
      assert forall u :: u in order[..n] ==> u in order;
    }
    UnnamedIsHome(p, first, was);
    StepReports(p, first, was, usable, stamp);
    StepTakesOne(p, first, was, usable, stamp);
    StepConserves(p, first, was, usable, stamp);
    StepKeepsActors(first, p.state, was, first.users[was], usable, stamp);
    StepAddsPersons(first, p.state, was, first.users[was], usable, stamp);
    StepIsJudged(p, was, first.users[was], usable, stamp);
    StepRenamesToFree(p, first, was, usable, stamp);
    StepDropsCodes(p, first, was, first.users[was], usable, stamp);
  }

  lemma StartIsSound(s: State, order: seq<string>, usable: Choice)
    requires Lasting(usable)
    ensures Sound(Start(s), s, order, usable, 0)
  {
    StartIsConserved(s);
    assert Gone([]) == {};
  }

  lemma RunIsSound(s: State, order: seq<string>, usable: Choice, stamps: nat -> string, n: nat)
    requires Lasting(usable)
    requires n <= |order| && Lists(order, s.users)
    ensures Sound(Adopted(s, order, usable, stamps, n), s, order, usable, n)
  {
    StartIsSound(s, order, usable);
    var step := StepOf(s.users, usable, stamps);
    var inv := (p: Progress, i: nat) => Sound(p, s, order, usable, i);
    forall p: Progress, i: nat | i < |order| && inv(p, i) ensures inv(step(p, order[i], i), i + 1) {
      StepIsSound(p, s, order, usable, stamps(i), i);
    }
    FoldKeeps(Start(s), order, step, n, inv);
  }

  /** What a migration leaves: the same accounts but for usernames, no two under one, every
      actor but for its kind, and new ones only for people, every operator either settled under its own name or left and
      reported, renames only to names nobody held, the renamed without their codes, and a
      report that says of each whether its mailbox is new, was there or was promoted. */
  lemma MigrationIsSound(s: State, order: seq<string>, usable: Choice, stamps: nat -> string)
    requires Lasting(usable)
    requires Lists(order, s.users)
    ensures
      var p := Adopted(s, order, usable, stamps, |order|);
      && Conserved(p, s) && ActorsKept(s, p.state) && OthersAreNew(s, p.state) && Judged(p, usable)
      && RenamesWereFree(p, s) && CodesGone(p, s) && ReportedAll(p, s, usable)
      && forall u :: u in p.names <==> u in s.users
  {
    RunIsSound(s, order, usable, stamps, |order|);
    assert order[..|order|] == order;
  }

  /** Nobody with a usable free name is left out, and nobody else is touched: who ends without
      a mailbox of its own is exactly who the report names. */
  lemma ReportedExactlyTheStuck(
      s: State, order: seq<string>, usable: Choice, stamps: nat -> string, u: string)
    requires Lasting(usable)
    requires Lists(order, s.users) && u in s.users
    ensures
      var p := Adopted(s, order, usable, stamps, |order|);
      && u in p.names
      && (Settled(p, u, usable) <==> !exists c <- p.report.collisions :: c.was == u)
      && (Stuck(p, u, usable) <==> exists c <- p.report.collisions :: c.was == u)
      && (Stuck(p, u, usable) ==>
            (if usable(u).Some? then Collision(u, usable(u).value, usable(u).value) else Collision(u, "", ""))
              in p.report.collisions)
  {
    MigrationIsSound(s, order, usable, stamps);
    var p := Adopted(s, order, usable, stamps, |order|);
    assert Settled(p, u, usable) || Stuck(p, u, usable);
    assert CollisionOf(u, usable).was == u;
  }

  // --- two operators, one usable name ------------------------------------------------

  lemma HolderIsSomeone(p: Progress, first: State, w: string)
    requires Conserved(p, first)
    ensures w in p.state.users ==> SomeonesName(p, first, w)
  {
  }

  /** Nobody comes to hold a free name that no operator so far could use. */
  lemma UnwantedStaysFree(p: Progress, first: State, order: seq<string>, usable: Choice, n: nat, w: string)
    requires Sound(p, first, order, usable, n) && Lists(order, first.users) && Free(first, w)
    requires forall k :: 0 <= k < n ==> usable(order[k]) != Some(w)
    ensures Free(p.state, w)
  {
    forall u | u in first.users ensures NameOf(p.names, u) != w {
      if u in p.names {
        assert u in order[..n];
        assert Settled(p, u, usable) || Stuck(p, u, usable);
      }
    }
    assert forall u <- p.names :: u in order[..n] && u in order && u in first.users;
    assert !Taken(p, w) by {
      assert forall u <- p.names :: NameOf(p.names, u) == p.names[u];
    }
    HolderIsSomeone(p, first, w);
  }

  lemma {:induction false} NamesStay(
      first: Progress, order: seq<string>, step: (Progress, string, nat) -> Progress, n: nat, m: nat, u: string)
    requires n <= m <= |order| && u in Fold(first, order, step, n).names
    requires forall p: Progress, i: nat {:trigger step(p, order[i], i)} :: n <= i < |order| && u in p.names ==>
               u in step(p, order[i], i).names && step(p, order[i], i).names[u] == p.names[u]
    ensures u in Fold(first, order, step, m).names
    ensures Fold(first, order, step, m).names[u] == Fold(first, order, step, n).names[u]
  {
    if n < m {
      NamesStay(first, order, step, n, m - 1, u);
    }
  }

  lemma TakenAtItsTurn(
      first: Progress, order: seq<string>, step: (Progress, string, nat) -> Progress, i: nat, w: string)
    requires i < |order|
    requires
      var q := step(Fold(first, order, step, i), order[i], i);
      order[i] in q.names && q.names[order[i]] == w
    requires forall p: Progress, k: nat {:trigger step(p, order[k], k)} ::
               i + 1 <= k < |order| && order[i] in p.names ==>
                 order[i] in step(p, order[k], k).names && step(p, order[k], k).names[order[i]] == p.names[order[i]]
    ensures
      var p := Fold(first, order, step, |order|);
      order[i] in p.names && p.names[order[i]] == w
  {
    NamesStay(first, order, step, i + 1, |order|, order[i]);
  }

  lemma TurnOf(
      users: map<string, Account>, usable: Choice, stamps: nat -> string, p: Progress, was: string, k: nat)
    ensures StepOf(users, usable, stamps)(p, was, k) ==
              if was in users then AdoptOne(p, was, users[was], usable, stamps(k)) else p
  {
  }

  lemma AnotherTurn(
      users: map<string, Account>, usable: Choice, stamps: nat -> string, p: Progress, was: string, k: nat,
      u: string)
    requires was != u && u in p.names
    ensures
      var q := StepOf(users, usable, stamps)(p, was, k);
      u in q.names && q.names[u] == p.names[u]
  {
    TurnOf(users, usable, stamps, p, was, k);
    assert was in users ==> AdoptOne(p, was, users[was], usable, stamps(k)).names ==
                              p.names[was := NameAfter(p.state, was, usable)];
  }

  lemma OwnTurn(
      users: map<string, Account>, usable: Choice, stamps: nat -> string, p: Progress, was: string, k: nat,
      w: string)
    requires was in users && usable(was) == Some(w) && Free(p.state, w)
    ensures
      var q := StepOf(users, usable, stamps)(p, was, k);
      was in q.names && q.names[was] == w
  {
    TurnOf(users, usable, stamps, p, was, k);
    assert AdoptOne(p, was, users[was], usable, stamps(k)).names ==
           p.names[was := NameAfter(p.state, was, usable)];
    assert NameAfter(p.state, was, usable) == w;
  }

  /** The first operator that can use a free name comes to hold it, for good. */
  lemma FirstTakesTheName(
      s: State, order: seq<string>, usable: Choice, stamps: nat -> string, i: nat, w: string)
    requires Lasting(usable)
    requires Lists(order, s.users) && i < |order| && Free(s, w) && usable(order[i]) == Some(w)
    requires forall k :: 0 <= k < i ==> usable(order[k]) != Some(w)
    ensures
      var p := Adopted(s, order, usable, stamps, |order|);
      order[i] in p.names && p.names[order[i]] == w
  {
    var u, step := order[i], StepOf(s.users, usable, stamps);
    assert u in order && u in s.users;
    RunIsSound(s, order, usable, stamps, i);
    UnwantedStaysFree(Adopted(s, order, usable, stamps, i), s, order, usable, i, w);
    OwnTurn(s.users, usable, stamps, Fold(Start(s), order, step, i), u, i, w);
    forall p: Progress, k: nat {:trigger step(p, order[k], k)} | i + 1 <= k < |order| && u in p.names
      ensures u in step(p, order[k], k).names && step(p, order[k], k).names[u] == p.names[u]
    {
      assert order[k] !in order[..k] && u in order[..k];
      AnotherTurn(s.users, usable, stamps, p, order[k], k, u);
    }
    TakenAtItsTurn(Start(s), order, step, i, w);
  }

  /** Once `u` holds a name that `v` could use, `u` is settled and `v` is reported. */
  lemma OneHoldsTheName(p: Progress, first: State, usable: Choice, u: string, v: string, w: string)
    requires Conserved(p, first) && Judged(p, usable) && ReportedAll(p, first, usable)
    requires u in first.users && v in first.users && u != v && u in p.names && v in p.names
    requires p.names[u] == w && w !in first.users && usable(v) == Some(w)
    ensures Settled(p, u, usable) && Renamed(u, w) in p.report.renamed
    ensures Stuck(p, v, usable) && Collision(v, w, w) in p.report.collisions
  {
    assert Apart(p, u, v);
    assert Settled(p, u, usable) || Stuck(p, u, usable);
    assert Settled(p, v, usable) || Stuck(p, v, usable);
  }

  /** Of several operators whose usernames become one free name, the one read first is renamed
      to it, and every other is left as it was and reported.  The type of the report says
      that neither is migrated. */
  lemma FirstOfTwoIsRenamed(
      s: State, order: seq<string>, usable: Choice, stamps: nat -> string, i: nat, v: string, w: string)
    requires Lasting(usable)
    requires Lists(order, s.users) && i < |order| && Free(s, w) && usable(order[i]) == Some(w)
    requires forall k :: 0 <= k < i ==> usable(order[k]) != Some(w)
    requires v in s.users && v != order[i] && usable(v) == Some(w)
    ensures
      var p, u := Adopted(s, order, usable, stamps, |order|), order[i];
      && NameOf(p.names, u) == w && Settled(p, u, usable) && Renamed(u, w) in p.report.renamed
      && NameOf(p.names, v) == v && Stuck(p, v, usable) && Collision(v, w, w) in p.report.collisions
      && !exists c <- p.report.collisions :: c.was == u
  {
    assert order[i] in order && order[i] in s.users;
    FirstTakesTheName(s, order, usable, stamps, i, w);
    MigrationIsSound(s, order, usable, stamps);
    OneHoldsTheName(Adopted(s, order, usable, stamps, |order|), s, usable, order[i], v, w);
    ReportedExactlyTheStuck(s, order, usable, stamps, order[i]);
  }

  /** Exactly who is left as it was and reported: an operator without a usable name, and one
      whose usable name is another than its own and was held at the start, by anybody, or could
      be used by an operator read before it. */
  lemma StuckExactlyWhen(s: State, order: seq<string>, usable: Choice, stamps: nat -> string, i: nat)
    requires Lasting(usable)
    requires Lists(order, s.users) && i < |order|
    ensures
      var p, u := Adopted(s, order, usable, stamps, |order|), order[i];
      Stuck(p, u, usable) <==>
        match usable(u)
        case None => true
        case Some(w) =>
          w != u && (w in s.actors || w in s.users || exists k :: 0 <= k < i && usable(order[k]) == Some(w))
  {
    var p, u := Adopted(s, order, usable, stamps, |order|), order[i];
    assert u in order && u in s.users;
    MigrationIsSound(s, order, usable, stamps);
    assert Settled(p, u, usable) || Stuck(p, u, usable);
    if usable(u).Some? && usable(u) != Some(u) {
      var w := usable(u).value;
      if k :| 0 <= k < i && usable(order[k]) == Some(w) && w !in s.actors && w !in s.users {
        var first := FirstAble(order, usable, w, k);
        assert order[first] in order && order[first] !in order[..first] && order[first] in order[..i];
        assert order[i] !in order[..i];
        FirstTakesTheName(s, order, usable, stamps, first, w);
        OneHoldsTheName(p, s, usable, order[first], u, w);
      } else {
        if Settled(p, u, usable) {
          SettledNameWasFree(p, s, usable, u, w);
        }
        if w !in s.actors && w !in s.users {
          FirstTakesTheName(s, order, usable, stamps, i, w);
        }
      }
    }
  }

  lemma FirstAble(order: seq<string>, usable: Choice, w: string, k: nat) returns (first: nat)
    requires k < |order| && usable(order[k]) == Some(w)
    ensures first <= k && usable(order[first]) == Some(w)
    ensures forall j :: 0 <= j < first ==> usable(order[j]) != Some(w)
  {
    first := 0;
    while usable(order[first]) != Some(w)
      invariant first <= k && forall j :: 0 <= j < first ==> usable(order[j]) != Some(w)
      decreases k - first
    {
      first := first + 1;
    }
  }

  lemma SettledNameWasFree(p: Progress, s: State, usable: Choice, u: string, w: string)
    requires RenamesWereFree(p, s) && ReportedAll(p, s, usable) && u in p.names && Settled(p, u, usable)
    requires usable(u) == Some(w) && w != u
    ensures w !in s.actors && w !in s.users
  {
    assert Renamed(u, w) in p.report.renamed;
  }

  // --- a second run ------------------------------------------------------------------

  /** A run over this operator would change nothing. */
  ghost predicate Quiet(s: State, u: string, usable: Choice) {
    Collides(s, u, usable) || (usable(u) == Some(u) && IsPerson(s, u))
  }

  lemma MigratedIsQuiet(p: Progress, first: State, usable: Choice, name: string)
    requires Conserved(p, first) && Judged(p, usable) && (forall u :: u in first.users ==> u in p.names)
    requires name in p.state.users
    ensures Quiet(p.state, name, usable)
    ensures Collides(p.state, name, usable) ==> CollisionOf(name, usable) in p.report.collisions
  {
    assert SomeonesName(p, first, name);
    var u :| u in first.users && NameOf(p.names, u) == name;
    assert Settled(p, u, usable) || Stuck(p, u, usable);
    if Settled(p, u, usable) {
      assert LastsAt(usable, u);
    }
  }

  /** So far nothing changed and exactly the colliding were reported. */
  ghost predicate Unchanged(q: Progress, s: State, order: seq<string>, usable: Choice, n: nat) {
    && n <= |order| && q.state == s
    && q.report.renamed == [] && q.report.claimed == [] && q.report.promoted == []
    && (forall c :: c in q.report.collisions <==>
          c.was in order[..n] && Collides(s, c.was, usable) && c == CollisionOf(c.was, usable))
  }

  lemma QuietStep(q: Progress, s: State, order: seq<string>, usable: Choice, stamp: string, n: nat)
    requires n < |order| && order[n] in s.users && Quiet(s, order[n], usable) && Unchanged(q, s, order, usable, n)
    ensures Unchanged(AdoptOne(q, order[n], s.users[order[n]], usable, stamp), s, order, usable, n + 1)
  {
    var u := order[n];
    assert order[..n + 1] == order[..n] + [u];
    if !Collides(s, u, usable) {
      assert s.actors[u := s.actors[u].(kind := Person)] == s.actors;
      assert WithPerson(s, u, stamp) == s;
    }
  }

  /** Run again, in any order and at any time, the migration changes nothing and reports the
      same collisions. */
  lemma SecondRunChangesNothing(s: State, order: seq<string>, again: seq<string>, usable: Choice,
                                stamps: nat -> string, later: nat -> string)
    requires Lasting(usable)
    requires Lists(order, s.users)
    requires Lists(again, Adopted(s, order, usable, stamps, |order|).state.users)
    ensures
      var p := Adopted(s, order, usable, stamps, |order|);
      var q := Adopted(p.state, again, usable, later, |again|);
      && q.state == p.state
      && q.report.renamed == [] && q.report.claimed == [] && q.report.promoted == []
      && (forall c :: c in q.report.collisions <==> c in p.report.collisions)
  {
    MigrationIsSound(s, order, usable, stamps);
    RunAfter(Adopted(s, order, usable, stamps, |order|), s, again, usable, later);
  }

  lemma RunAfter(p: Progress, first: State, again: seq<string>, usable: Choice, later: nat -> string)
    requires Conserved(p, first) && Judged(p, usable) && forall u :: u in p.names <==> u in first.users
    requires Lists(again, p.state.users)
    ensures
      var q := Adopted(p.state, again, usable, later, |again|);
      && q.state == p.state
      && q.report.renamed == [] && q.report.claimed == [] && q.report.promoted == []
      && (forall c :: c in q.report.collisions <==> c in p.report.collisions)
  {
    QuietRun(p.state, p, first, again, usable, later);
    SameReport(Adopted(p.state, again, usable, later, |again|), p, first, again, usable);
  }

  lemma SameReport(q: Progress, p: Progress, first: State, again: seq<string>, usable: Choice)
    requires Conserved(p, first) && Judged(p, usable) && forall u :: u in p.names <==> u in first.users
    requires Lists(again, p.state.users) && Unchanged(q, p.state, again, usable, |again|)
    ensures q.state == p.state
    ensures q.report.renamed == [] && q.report.claimed == [] && q.report.promoted == []
    ensures forall c :: c in q.report.collisions <==> c in p.report.collisions
  {
    assert again[..|again|] == again;
    forall c ensures c in q.report.collisions <==> c in p.report.collisions {
      SameCollision(p, first, usable, c);
    }
  }

  lemma SameCollision(p: Progress, first: State, usable: Choice, c: Collision)
    requires Conserved(p, first) && Judged(p, usable) && forall u :: u in p.names <==> u in first.users
    ensures c in p.report.collisions <==>
              c.was in p.state.users && Collides(p.state, c.was, usable) && c == CollisionOf(c.was, usable)
  {
    if c.was in p.state.users && Collides(p.state, c.was, usable) {
      MigratedIsQuiet(p, first, usable, c.was);
    }
    if c in p.report.collisions {
      assert Stuck(p, c.was, usable) && Home(p, first, c.was);
    }
  }

  lemma QuietRun(t: State, p: Progress, first: State, again: seq<string>, usable: Choice,
                 later: nat -> string)
    requires t == p.state && Conserved(p, first) && Judged(p, usable)
    requires forall u :: u in first.users ==> u in p.names
    requires Lists(again, t.users)
    ensures Unchanged(Adopted(t, again, usable, later, |again|), t, again, usable, |again|)
  {
    var step := StepOf(t.users, usable, later);
    var inv := (q: Progress, i: nat) => Unchanged(q, t, again, usable, i);
    forall q: Progress, i: nat | i < |again| && inv(q, i) ensures inv(step(q, again[i], i), i + 1) {
      assert again[i] in again;
      MigratedIsQuiet(p, first, usable, again[i]);
      QuietStep(q, t, again, usable, later(i), i);
    }
    FoldKeeps(Start(t), again, step, |again|, inv);
  }

  // --- both halves or neither --------------------------------------------------------

  /** A new human has both halves or neither: an account exactly when also a person's mailbox of
      that name.  The one exception is a race lost on a hub without any other operator, where
      the undo is refused and an account without its mailbox stays. */
  lemma WholeOrAbsent(s: State, username: string, account: Account, rival: Option<Actor>, stamp: string)
    ensures
      var (t, r) := Created(s, username, account, rival, stamp);
      && (r.Ok? ==> r.value !in s.users && r.value !in s.actors && t.users == s.users[r.value := account]
                    && IsPerson(t, r.value) && (rival.None? ==> ActorsKept(s, t)))
      && (r.Err? ==> (t.users == s.users <==> r.error != LastOperator))
      && (r.Ok? <==>
            && Validated(username).Some? && rival.None?
            && Validated(username).value !in s.users && Validated(username).value !in s.actors)
      && (r.Ok? ==> r.value == Validated(username).value)
      && (r == Err(NameUnavailable) <==> Validated(username).None?)
      && (r == Err(LastOperator) <==>
            && Validated(username).Some? && Free(s, Validated(username).value) && rival.Some? && s.users == map[])
  {
    if Validated(username).Some? && Free(s, Validated(username).value) && rival.Some? {
      var name := Validated(username).value;
      assert s.users[name := account] - {name} == s.users;
      assert name in s.users[name := account];
    }
  }
}
