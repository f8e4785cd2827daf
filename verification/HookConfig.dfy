/** Hooks in a settings file others write too. */
module HookConfig {

  /* `hookconfig.py`: installing and removing our hooks.  JSON objects keep the order of their
     keys. */

  import opened Wrappers
  import opened Sorting

  datatype Json =
    | Null
    | Bool(value: bool)
    | Num(digits: string)
    | Str(text: string)
    | Arr(items: seq<Json>)
    | Obj(fields: Dict)

  type Dict = seq<(string, Json)>

  datatype Error = TypeError | AttributeError

  const MARKER := "wake-check"
  const EVENTS := ["SessionStart", "UserPromptSubmit", "Stop"]

  predicate Hooked(event: string) {
    event == "SessionStart" || event == "UserPromptSubmit" || event == "Stop"
  }

  lemma HookedAreTheEvents(event: string)
    ensures Hooked(event) <==> event in EVENTS
  {
  }

  // --- dicts -------------------------------------------------------------------------

  function Get(d: Dict, key: string): Option<Json> {
    if d == [] then None else if d[0].0 == key then Some(d[0].1) else Get(d[1..], key)
  }

  /** `d[key] = value`: in place, or at the end. */
  function Put(d: Dict, key: string, value: Json): Dict {
    if d == [] then [(key, value)]
    else if d[0].0 == key then [(key, value)] + d[1..]
    else [d[0]] + Put(d[1..], key, value)
  }

  function Del(d: Dict, key: string): Dict {
    if d == [] then [] else if d[0].0 == key then d[1..] else [d[0]] + Del(d[1..], key)
  }

  ghost predicate Keyed(d: Dict) {
    forall i, j :: 0 <= i < j < |d| ==> d[i].0 != d[j].0
  }

  predicate Has(d: Dict, key: string) {
    Get(d, key).Some?
  }

  lemma {:induction false} HasMeans(d: Dict, key: string)
    ensures Has(d, key) <==> exists f <- d :: f.0 == key
  {
    if d != [] {
      HasMeans(d[1..], key);
      assert forall f <- d :: f == d[0] || f in d[1..];
    }
  }

  lemma {:induction false} GetPut(d: Dict, key: string, value: Json, other: string)
    ensures Get(Put(d, key, value), other) == if other == key then Some(value) else Get(d, other)
  {
    if d != [] && d[0].0 != key {
      GetPut(d[1..], key, value, other);
      assert ([d[0]] + Put(d[1..], key, value))[1..] == Put(d[1..], key, value);
    } else if d != [] {
      assert ([(key, value)] + d[1..])[1..] == d[1..];
    }
  }

  lemma {:induction false} PutSame(d: Dict, key: string, value: Json)
    requires Get(d, key) == Some(value)
    ensures Put(d, key, value) == d
  {
    if d[0].0 != key {
      PutSame(d[1..], key, value);
    }
  }

  lemma {:induction false} PutTwice(d: Dict, key: string, v: Json, w: Json)
    ensures Put(Put(d, key, v), key, w) == Put(d, key, w)
  {
    if d == [] {
    } else if d[0].0 == key {
      assert ([(key, v)] + d[1..])[1..] == d[1..];
    } else {
      PutTwice(d[1..], key, v, w);
      assert ([d[0]] + Put(d[1..], key, v))[1..] == Put(d[1..], key, v);
    }
  }

  lemma {:induction false} PutThenDel(d: Dict, key: string, value: Json)
    requires !Has(d, key)
    ensures Del(Put(d, key, value), key) == d
  {
    if d != [] {
      assert d[0].0 != key && !Has(d[1..], key);
      PutThenDel(d[1..], key, value);
      assert ([d[0]] + Put(d[1..], key, value))[1..] == Put(d[1..], key, value);
    }
  }

  lemma {:induction false} DelLeavesNone(d: Dict, key: string)
    requires Keyed(d)
    ensures !Has(Del(d, key), key)
  {
    if d == [] {
    } else if d[0].0 == key {
      HasMeans(d[1..], key);
    } else {
      DelLeavesNone(d[1..], key);
      assert ([d[0]] + Del(d[1..], key))[1..] == Del(d[1..], key);
    }
  }

  // --- ours and not ours -------------------------------------------------------------

  predicate Contains(s: string, part: string) {
    |part| <= |s| && (s[..|part|] == part || (s != "" && Contains(s[1..], part)))
  }

  /** `marker in str(value)`: inside a rendered list or object the marker can only lie inside
      one of the strings in it, since it holds no quote, bracket, comma, space or escape. */
  predicate MarkerIn(value: Json) {
    match value
    case Str(text) => Contains(text, MARKER)
    case Arr(items) => exists j <- items :: MarkerIn(j)
    case Obj(fields) => exists f <- fields :: Contains(f.0, MARKER) || MarkerIn(f.1)
    case _ => false
  }

  function GetOr(d: Dict, key: string, default: Json): Json {
    match Get(d, key)
    case Some(v) => v
    case None => default
  }

  /** `_is_ours`. */
  predicate IsOurs(hook: Json) {
    hook.Obj? && Get(hook.fields, "type") == Some(Str("command")) && MarkerIn(GetOr(hook.fields, "command", Str("")))
  }

  predicate NotOurs(hook: Json) {
    !IsOurs(hook)
  }

  // --- strip -------------------------------------------------------------------------

  predicate Iterable(value: Json) {
    value.Arr? || value.Str? || value.Obj?
  }

  /** What iterating the value yields: the items, the characters or the keys. */
  function Iter(value: Json): seq<Json> {
    match value
    case Arr(items) => items
    case Str(text) => seq(|text|, i requires 0 <= i < |text| => Str([text[i]]))
    case Obj(fields) => seq(|fields|, i requires 0 <= i < |fields| => Str(fields[i].0))
    case _ => []
  }

  predicate SoundGroup(group: Json) {
    group.Obj? ==> Iterable(GetOr(group.fields, "hooks", Arr([])))
  }

  /** The hook entries of a group. */
  function Entries(group: Json): seq<Json> {
    if group.Obj? then Iter(GetOr(group.fields, "hooks", Arr([]))) else []
  }

  /** What `strip` keeps of one group: nothing, or the group with our entries gone. */
  function KeptGroup(group: Json): seq<Json> {
    if !group.Obj? then [group]
    else
      var inner := Filter(Entries(group), NotOurs);
      if inner != [] then [Obj(Put(group.fields, "hooks", Arr(inner)))]
      else if !Has(group.fields, "hooks") then [group]
      else []
  }

  function KeptGroups(groups: seq<Json>): seq<Json> {
    if groups == [] then [] else KeptGroup(groups[0]) + KeptGroups(groups[1..])
  }

  function KeptEvent(event: string, value: Json): Dict {
    if !value.Arr? then [(event, value)]
    else
      var kept := KeptGroups(value.items);
      if kept != [] then [(event, Arr(kept))] else []
  }

  function KeptEvents(hooks: Dict): Dict {
    if hooks == [] then [] else KeptEvent(hooks[0].0, hooks[0].1) + KeptEvents(hooks[1..])
  }

  predicate SoundEvents(hooks: Dict) {
    forall f <- hooks :: f.1.Arr? ==> forall g <- f.1.items :: SoundGroup(g)
  }

  function HooksOf(settings: Dict): Option<Dict> {
    match Get(settings, "hooks")
    case Some(Obj(hooks)) => Some(hooks)
    case _ => None
  }

  function WithHooks(settings: Dict, hooks: Dict): Dict {
    if hooks == [] then Del(settings, "hooks") else Put(settings, "hooks", Obj(hooks))
  }

  /** What `strip` leaves of settings it can read. */
  function Stripped(settings: Dict): Dict {
    match HooksOf(settings)
    case None => settings
    case Some(hooks) => WithHooks(settings, KeptEvents(hooks))
  }

  predicate Readable(settings: Dict) {
    match HooksOf(settings)
    case None => true
    case Some(hooks) => SoundEvents(hooks)
  }

  /** `strip`; iterating a number, a boolean or null is a TypeError. */
  function Strip(settings: Dict): Result<Dict, Error> {
    if Readable(settings) then Ok(Stripped(settings)) else Err(TypeError)
  }

  // --- apply and codex_apply ---------------------------------------------------------

  datatype Install = Claude(command: string, rewake: bool) | Codex(command: string)

  function HookCommand(install: Install, event: string): string {
    var plain := install.command + " --event " + event;
    if install.Claude? && install.rewake && event == "Stop"
    then plain + " --wait --poll-interval 5 --wait-timeout 28800" else plain
  }

  function Entry(install: Install, event: string): Json {
    var command := ("command", Str(HookCommand(install, event)));
    match install
    case Claude(_, rewake) =>
      if event == "Stop" && rewake then
        Obj([("type", Str("command")), command, ("timeout", Num("28810")), ("async", Bool(true)),
             ("asyncRewake", Bool(true))])
      else Obj([("type", Str("command")), command, ("timeout", Num("10"))])
    case Codex(_) =>
      Obj([("type", Str("command")), command, ("timeout", Num("10")),
           ("statusMessage", Str("agent-inbox: checking for mail"))])
  }

  function OurGroup(install: Install, event: string): Json {
    Obj([("hooks", Arr([Entry(install, event)]))])
  }

  function GroupsAt(hooks: Dict, event: string): seq<Json> {
    match Get(hooks, event)
    case Some(Arr(groups)) => groups
    case _ => []
  }

  function Added(hooks: Dict, install: Install, event: string): Dict {
    Put(hooks, event, Arr(GroupsAt(hooks, event) + [OurGroup(install, event)]))
  }

  function AddedAll(hooks: Dict, install: Install, events: seq<string>): Dict {
    if events == [] then hooks
    else Added(AddedAll(hooks, install, events[..|events| - 1]), install, events[|events| - 1])
  }

  function Installed(stripped: Dict, install: Install): Dict {
    var hooks := match HooksOf(stripped) { case Some(h) => h case None => [] };
    Put(stripped, "hooks", Obj(AddedAll(hooks, install, EVENTS)))
  }

  /** `apply` and `codex_apply`; a `hooks` value that is not an object is an AttributeError. */
  function Apply(settings: Dict, install: Install): Result<Dict, Error> {
    match Strip(settings)
    case Err(e) => Err(e)
    case Ok(out) =>
      if Has(out, "hooks") && HooksOf(out).None? then Err(AttributeError) else Ok(Installed(out, install))
  }

  // --- what is ours, and what raises -------------------------------------------------

  lemma {:induction false} ContainsSplits(s: string, part: string) returns (before: string, after: string)
    requires Contains(s, part)
    ensures s == before + part + after
  {
    if s[..|part|] == part {
      before, after := "", s[|part|..];
    } else {
      before, after := ContainsSplits(s[1..], part);
      assert s == [s[0]] + s[1..];
      before := [s[0]] + before;
    }
  }

  lemma {:induction false} SplitContains(before: string, part: string, after: string)
    ensures Contains(before + part + after, part)
  {
    var s := before + part + after;
    if before == "" {
      assert s[..|part|] == part;
    } else {
      SplitContains(before[1..], part, after);
      assert s[1..] == before[1..] + part + after;
    }
  }

  /** An entry is ours exactly when it is a command whose text holds `wake-check`; a command that
      is no text is not, unless a text in it does. */
  lemma OursExactlyWhen(hook: Json)
    ensures IsOurs(hook) <==>
              && hook.Obj? && Get(hook.fields, "type") == Some(Str("command"))
              && match Get(hook.fields, "command")
                 case Some(Str(text)) => Contains(text, "wake-check")
                 case Some(Arr(items)) => exists j <- items :: MarkerIn(j)
                 case Some(Obj(fields)) => exists f <- fields :: Contains(f.0, "wake-check") || MarkerIn(f.1)
                 case _ => false
  {
    assert !Contains("", MARKER);
  }

  /** A list of hooks that is null, a truth value or a number. */
  ghost predicate NoList(group: Json) {
    group.Obj? && match Get(group.fields, "hooks") {
      case Some(v) => v.Null? || v.Bool? || v.Num?
      case None => false
    }
  }

  /** When the two functions raise, and what: `strip` for a group of some event whose hooks cannot
      be iterated, an install for that or for a `hooks` value that is no object. */
  lemma RaisesExactlyWhen(settings: Dict, install: Install)
    requires Keyed(settings)
    ensures Strip(settings).Err? <==>
              && Get(settings, "hooks").Some? && Get(settings, "hooks").value.Obj?
              && exists f <- Get(settings, "hooks").value.fields ::
                   f.1.Arr? && exists g <- f.1.items :: NoList(g)
    ensures Strip(settings).Err? ==> Strip(settings).error == TypeError
    ensures Apply(settings, install).Err? <==>
              Strip(settings).Err? || (Get(settings, "hooks").Some? && !Get(settings, "hooks").value.Obj?)
    ensures Apply(settings, install).Err? ==>
              Apply(settings, install).error == if Strip(settings).Err? then TypeError else AttributeError
  {
    forall g: Json ensures SoundGroup(g) <==> !NoList(g) {
    }
    if Readable(settings) && HooksOf(settings).Some? {
      StrippedHooks(settings);
    }
  }

  lemma StrippedHooks(settings: Dict)
    requires Keyed(settings) && HooksOf(settings).Some?
    ensures Has(Stripped(settings), "hooks") ==> HooksOf(Stripped(settings)).Some?
  {
    var kept := KeptEvents(HooksOf(settings).value);
    GetPut(settings, "hooks", Obj(kept), "hooks");
    DelLeavesNone(settings, "hooks");
  }

  // --- strip removes ours once and for all -------------------------------------------

  lemma {:induction false} KeptGroupsConcat(a: seq<Json>, b: seq<Json>)
    ensures KeptGroups(a + b) == KeptGroups(a) + KeptGroups(b)
  {
    if a == [] {
      assert a + b == b;
    } else {
      assert (a + b)[1..] == a[1..] + b;
      KeptGroupsConcat(a[1..], b);
    }
  }

  lemma KeptGroupStays(group: Json)
    ensures KeptGroups(KeptGroup(group)) == KeptGroup(group)
  {
    if group.Obj? {
      var inner := Filter(Entries(group), NotOurs);
      if inner != [] {
        var slim := Obj(Put(group.fields, "hooks", Arr(inner)));
        GetPut(group.fields, "hooks", Arr(inner), "hooks");
        assert Entries(slim) == inner;
        forall h | h in inner ensures NotOurs(h) {
          FilterMembers(Entries(group), NotOurs, h);
        }
        FilterAll(inner, NotOurs);
        PutTwice(group.fields, "hooks", Arr(inner), Arr(inner));
      }
    }
  }

  lemma {:induction false} KeptGroupsStay(groups: seq<Json>)
    ensures KeptGroups(KeptGroups(groups)) == KeptGroups(groups)
  {
    if groups != [] {
      KeptGroupStays(groups[0]);
      KeptGroupsStay(groups[1..]);
      KeptGroupsConcat(KeptGroup(groups[0]), KeptGroups(groups[1..]));
    }
  }

  lemma {:induction false} KeptEventsConcat(a: Dict, b: Dict)
    ensures KeptEvents(a + b) == KeptEvents(a) + KeptEvents(b)
  {
    if a == [] {
      assert a + b == b;
    } else {
      assert (a + b)[1..] == a[1..] + b;
      KeptEventsConcat(a[1..], b);
    }
  }

  lemma {:induction false} KeptEventsStay(hooks: Dict)
    ensures KeptEvents(KeptEvents(hooks)) == KeptEvents(hooks)
  {
    if hooks != [] {
      KeptEventsStay(hooks[1..]);
      if hooks[0].1.Arr? {
        KeptGroupsStay(hooks[0].1.items);
      }
      KeptEventsConcat(KeptEvent(hooks[0].0, hooks[0].1), KeptEvents(hooks[1..]));
    }
  }

  lemma {:induction false} GetKept(hooks: Dict, event: string)
    requires Keyed(hooks)
    ensures GroupsAt(KeptEvents(hooks), event) == KeptGroups(GroupsAt(hooks, event))
    ensures
      var v := Get(KeptEvents(hooks), event);
      (v.Some? && !v.value.Arr?) <==> (Has(hooks, event) && !Get(hooks, event).value.Arr?)
    ensures Has(KeptEvents(hooks), event) ==> Has(hooks, event)
  {
    if hooks != [] {
      GetKept(hooks[1..], event);
      var rest := KeptEvents(hooks[1..]);
      var kept := KeptEvent(hooks[0].0, hooks[0].1);
      if kept != [] {
        assert (kept + rest)[1..] == rest;
      } else {
        assert kept + rest == rest;
      }
      if hooks[0].0 == event {
        HasMeans(hooks[1..], event);
      }
    }
  }

  // --- our marker --------------------------------------------------------------------

  lemma {:induction false} NoMarkerWithoutK(s: string)
    requires 'k' !in s
    ensures !Contains(s, MARKER)
  {
    if |MARKER| <= |s| {
      assert s[..|MARKER|][2] == s[2] != 'k';
      assert MARKER[2] == 'k';
    }
    if s != "" {
      NoMarkerWithoutK(s[1..]);
    }
  }

  /** A suffix that starts with a space and holds no `k` adds no marker. */
  lemma {:induction false} SuffixAddsNoMarker(s: string, suffix: string)
    requires suffix != "" && suffix[0] == ' ' && 'k' !in suffix
    ensures Contains(s + suffix, MARKER) <==> Contains(s, MARKER)
  {
    if s == "" {
      assert s + suffix == suffix;
      NoMarkerWithoutK(suffix);
    } else {
      SuffixAddsNoMarker(s[1..], suffix);
      var all := s + suffix;
      assert all[1..] == s[1..] + suffix;
      if |s| < |MARKER| <= |all| {
        assert all[..|MARKER|][|s|] == suffix[0];
        assert forall i :: 0 <= i < |MARKER| ==> MARKER[i] != ' ';
      }
      assert |MARKER| <= |s| ==> all[..|MARKER|] == s[..|MARKER|];
    }
  }

  lemma NoKInEvents(event: string)
    requires event in EVENTS
    ensures 'k' !in " --event " + event
  {
    assert event == "SessionStart" || event == "UserPromptSubmit" || event == "Stop";
  }

  lemma EventSuffixesAreClean(install: Install, event: string)
    requires event in EVENTS
    ensures Contains(HookCommand(install, event), MARKER) <==> Contains(install.command, MARKER)
  {
    var suffix := " --event " + event;
    assert install.command + " --event " + event == install.command + suffix;
    NoKInEvents(event);
    SuffixAddsNoMarker(install.command, suffix);
    SuffixAddsNoMarker(install.command + suffix, " --wait --poll-interval 5 --wait-timeout 28800");
  }

  lemma CommandIsOurs(fields: Dict, command: string)
    requires |fields| >= 2 && fields[0] == ("type", Str("command")) && fields[1] == ("command", Str(command))
    ensures IsOurs(Obj(fields)) <==> Contains(command, MARKER)
  {
    assert Get(fields, "type") == Some(Str("command"));
    assert fields[1..][0] == fields[1];
    assert Get(fields, "command") == Some(Str(command));
  }

  /** What we install is recognised as ours exactly when the command holds the marker. */
  lemma OursIffMarked(install: Install, event: string)
    requires event in EVENTS
    ensures IsOurs(Entry(install, event)) <==> Contains(install.command, MARKER)
  {
    CommandIsOurs(Entry(install, event).fields, HookCommand(install, event));
    EventSuffixesAreClean(install, event);
  }

  lemma OurGroupHolds(install: Install, event: string)
    ensures Has(OurGroup(install, event).fields, "hooks")
    ensures Entries(OurGroup(install, event)) == [Entry(install, event)]
  {
    assert Get(OurGroup(install, event).fields, "hooks") == Some(Arr([Entry(install, event)]));
  }

  lemma OurGroupKept(install: Install, event: string)
    requires event in EVENTS
    ensures KeptGroups([OurGroup(install, event)]) ==
              if Contains(install.command, MARKER) then [] else [OurGroup(install, event)]
  {
    var entry, group := Entry(install, event), OurGroup(install, event);
    OursIffMarked(install, event);
    OurGroupHolds(install, event);
    assert Filter([entry], NotOurs) == if NotOurs(entry) then [entry] else [];
    PutSame(group.fields, "hooks", Arr([entry]));
    assert KeptGroups([group]) == KeptGroup(group) + [];
  }

  // --- the install law ---------------------------------------------------------------

  predicate Plain(hooks: Dict, event: string) {
    match Get(hooks, event)
    case Some(v) => v.Arr?
    case None => true
  }

  /** Adding a group that `strip` drops changes nothing `strip` sees. */
  lemma {:induction false} StripForgetsOurs(hooks: Dict, install: Install, event: string)
    requires event in EVENTS && Contains(install.command, MARKER) && Plain(hooks, event)
    ensures KeptEvents(Added(hooks, install, event)) == KeptEvents(hooks)
  {
    var ours := OurGroup(install, event);
    OurGroupKept(install, event);
    KeptGroupsConcat(GroupsAt(hooks, event), [ours]);
    if hooks == [] {
      assert [] + [ours] == [ours];
    } else if hooks[0].0 == event {
      var groups := GroupsAt(hooks, event);
      assert hooks[0].1 == Arr(groups);
      assert KeptGroups(groups + [ours]) == KeptGroups(groups);
      assert KeptEvent(event, Arr(groups + [ours])) == KeptEvent(event, Arr(groups));
      assert Added(hooks, install, event)[1..] == hooks[1..];
    } else {
      StripForgetsOurs(hooks[1..], install, event);
      assert Added(hooks, install, event)[1..] == Added(hooks[1..], install, event);
    }
  }

  lemma {:induction false} GetAdded(hooks: Dict, install: Install, events: seq<string>, event: string)
    requires NoRepeat(events)
    ensures Get(AddedAll(hooks, install, events), event) ==
              if event in events then Some(Arr(GroupsAt(hooks, event) + [OurGroup(install, event)]))
              else Get(hooks, event)
  {
    if events != [] {
      var before, last := events[..|events| - 1], events[|events| - 1];
      GetAdded(hooks, install, before, event);
      GetAdded(hooks, install, before, last);
      var d := AddedAll(hooks, install, before);
      GetPut(d, last, Arr(GroupsAt(d, last) + [OurGroup(install, last)]), event);
      assert events == before + [last];
    }
  }

  lemma {:induction false} StripForgetsAllOurs(hooks: Dict, install: Install, events: seq<string>)
    requires NoRepeat(events) && Contains(install.command, MARKER)
    requires forall e <- events :: e in EVENTS && Plain(hooks, e)
    ensures KeptEvents(AddedAll(hooks, install, events)) == KeptEvents(hooks)
  {
    if events != [] {
      var before, last := events[..|events| - 1], events[|events| - 1];
      assert events == before + [last];
      StripForgetsAllOurs(hooks, install, before);
      GetAdded(hooks, install, before, last);
      StripForgetsOurs(AddedAll(hooks, install, before), install, last);
    }
  }

  lemma {:induction false} AddedKeepsKeyed(hooks: Dict, key: string, value: Json)
    requires Keyed(hooks)
    ensures Keyed(Put(hooks, key, value))
    ensures forall f <- Put(hooks, key, value) :: f.0 == key || f in hooks
  {
    if hooks != [] && hooks[0].0 != key {
      AddedKeepsKeyed(hooks[1..], key, value);
      HasMeans(hooks[1..], hooks[0].0);
    }
  }

  lemma {:induction false} AddedAllKeepsKeyed(hooks: Dict, install: Install, events: seq<string>)
    requires Keyed(hooks)
    ensures Keyed(AddedAll(hooks, install, events))
  {
    if events != [] {
      var before, last := events[..|events| - 1], events[|events| - 1];
      AddedAllKeepsKeyed(hooks, install, before);
      var d := AddedAll(hooks, install, before);
      AddedKeepsKeyed(d, last, Arr(GroupsAt(d, last) + [OurGroup(install, last)]));
    }
  }

  function UnlistedEvent(hooks: Dict, events: seq<string>): (r: string)
    requires exists e <- events :: !Plain(hooks, e)
    ensures r in events && !Plain(hooks, r)
  {
    if !Plain(hooks, events[0]) then events[0] else UnlistedEvent(hooks, events[1..])
  }

  lemma InstalledShows(kept: Dict, install: Install, event: string)
    requires Keyed(kept) && KeptEvents(kept) == kept && event in EVENTS
    requires !Contains(install.command, MARKER) || !Plain(kept, event)
    requires Keyed(AddedAll(kept, install, EVENTS))
    ensures KeptEvents(AddedAll(kept, install, EVENTS)) != kept
  {
    var all := AddedAll(kept, install, EVENTS);
    GetAdded(kept, install, EVENTS, event);
    OurGroupKept(install, event);
    KeptGroupsConcat(GroupsAt(kept, event), [OurGroup(install, event)]);
    GetKept(all, event);
    GetKept(kept, event);
  }

  /** On stripped hooks: the install is forgotten by `strip` exactly when the command is
      marked and no event of ours holds something that is not a list. */
  lemma InstallLawOnEvents(kept: Dict, install: Install)
    requires Keyed(kept) && KeptEvents(kept) == kept
    ensures KeptEvents(AddedAll(kept, install, EVENTS)) == kept <==>
              Contains(install.command, MARKER) && forall e <- EVENTS :: Plain(kept, e)
  {
    if Contains(install.command, MARKER) && forall e <- EVENTS :: Plain(kept, e) {
      StripForgetsAllOurs(kept, install, EVENTS);
    } else {
      var event := if !Contains(install.command, MARKER) then EVENTS[0] else UnlistedEvent(kept, EVENTS);
      AddedAllKeepsKeyed(kept, install, EVENTS);
      InstalledShows(kept, install, event);
    }
  }

  // --- the laws on whole settings ----------------------------------------------------

  /** A JSON object has each key once. */
  ghost predicate Valid(settings: Dict) {
    Keyed(settings) && match HooksOf(settings) { case Some(h) => Keyed(h) case None => true }
  }

  function HooksOrNone(settings: Dict): Dict {
    match HooksOf(settings)
    case Some(h) => h
    case None => []
  }

  /** The event holds a list or nothing; anything else `apply` replaces. */
  predicate PlainEvents(settings: Dict) {
    forall e <- EVENTS :: Plain(HooksOrNone(settings), e)
  }

  lemma {:induction false} KeptKeysAreOld(hooks: Dict)
    requires Keyed(hooks)
    ensures Keyed(KeptEvents(hooks))
    ensures forall f <- KeptEvents(hooks) :: exists g <- hooks :: g.0 == f.0
  {
    if hooks != [] {
      KeptKeysAreOld(hooks[1..]);
      var kept, rest := KeptEvent(hooks[0].0, hooks[0].1), KeptEvents(hooks[1..]);
      forall f: (string, Json) | f in kept + rest ensures exists g <- hooks :: g.0 == f.0 {
        if f in kept {
          assert hooks[0].0 == f.0;
        } else {
          var g :| g in hooks[1..] && g.0 == f.0;
          assert g in hooks;
        }
      }
      forall f: (string, Json) | f in rest ensures f.0 != hooks[0].0 {
        var g :| g in hooks[1..] && g.0 == f.0;
      }
    }
  }

  lemma {:induction false} DelKeepsKeyed(d: Dict, key: string)
    requires Keyed(d)
    ensures Keyed(Del(d, key)) && forall f <- Del(d, key) :: f in d
  {
    if d != [] && d[0].0 != key {
      DelKeepsKeyed(d[1..], key);
      var rest := Del(d[1..], key);
      forall f: (string, Json) | f in rest ensures f.0 != d[0].0 {
        assert f in d[1..];
      }
    }
  }

  /** What `strip` leaves: a valid object whose hooks are stripped and not empty. */
  lemma StrippedIsStripped(settings: Dict)
    requires Valid(settings) && (HooksOf(settings).Some? || !Has(settings, "hooks"))
    ensures var out := Stripped(settings);
            && Valid(out) && HooksOrNone(out) == KeptEvents(HooksOrNone(settings))
            && (HooksOf(out).Some? ==> HooksOrNone(out) != [])
            && (HooksOf(out).Some? || !Has(out, "hooks"))
  {
    if HooksOf(settings).Some? {
      var kept := KeptEvents(HooksOrNone(settings));
      KeptKeysAreOld(HooksOrNone(settings));
      if kept == [] {
        DelKeepsKeyed(settings, "hooks");
        DelLeavesNone(settings, "hooks");
      } else {
        AddedKeepsKeyed(settings, "hooks", Obj(kept));
        GetPut(settings, "hooks", Obj(kept), "hooks");
      }
    }
  }

  lemma HooksAfterPut(out: Dict, hooks: Dict)
    ensures HooksOf(Put(out, "hooks", Obj(hooks))) == Some(hooks)
  {
    GetPut(out, "hooks", Obj(hooks), "hooks");
  }

  /** Stripping an install gives `out` back when the events come back. */
  lemma EventsComeBack(out: Dict, all: Dict)
    requires KeptEvents(all) == HooksOrNone(out)
    requires HooksOf(out).Some? ==> HooksOrNone(out) != []
    requires HooksOf(out).Some? || !Has(out, "hooks")
    ensures Stripped(Put(out, "hooks", Obj(all))) == out
  {
    var kept := HooksOrNone(out);
    HooksAfterPut(out, all);
    if kept == [] {
      PutThenDel(out, "hooks", Obj(all));
    } else {
      PutTwice(out, "hooks", Obj(all), Obj(kept));
      PutSame(out, "hooks", Obj(kept));
    }
  }

  lemma EventsDiffer(out: Dict, all: Dict)
    requires Keyed(out) && KeptEvents(all) != HooksOrNone(out)
    ensures Stripped(Put(out, "hooks", Obj(all))) != out
  {
    var t, again := Put(out, "hooks", Obj(all)), KeptEvents(all);
    HooksAfterPut(out, all);
    if again == [] {
      AddedKeepsKeyed(out, "hooks", Obj(all));
      DelLeavesNone(t, "hooks");
      assert HooksOrNone(Del(t, "hooks")) == [];
    } else {
      HooksAfterPut(t, again);
    }
  }

  lemma PlainStays(settings: Dict)
    requires Valid(settings)
    ensures (forall e <- EVENTS :: Plain(KeptEvents(HooksOrNone(settings)), e)) <==> PlainEvents(settings)
  {
    var hooks := HooksOrNone(settings);
    forall e | e in EVENTS ensures Plain(KeptEvents(hooks), e) <==> Plain(hooks, e) {
      GetKept(hooks, e);
    }
  }

  lemma {:induction false} KeptGroupsAreSound(groups: seq<Json>)
    requires forall g <- groups :: SoundGroup(g)
    ensures forall g <- KeptGroups(groups) :: SoundGroup(g)
  {
    if groups != [] {
      KeptGroupsAreSound(groups[1..]);
      if groups[0].Obj? {
        var inner := Filter(Entries(groups[0]), NotOurs);
        GetPut(groups[0].fields, "hooks", Arr(inner), "hooks");
      }
    }
  }

  lemma {:induction false} KeptEventsAreSound(hooks: Dict)
    requires SoundEvents(hooks)
    ensures SoundEvents(KeptEvents(hooks))
  {
    if hooks != [] {
      KeptEventsAreSound(hooks[1..]);
      if hooks[0].1.Arr? {
        KeptGroupsAreSound(hooks[0].1.items);
      }
    }
  }

  lemma {:induction false} PutKeepsSound(hooks: Dict, event: string, groups: seq<Json>)
    requires SoundEvents(hooks) && forall g <- groups :: SoundGroup(g)
    ensures SoundEvents(Put(hooks, event, Arr(groups)))
  {
    if hooks != [] && hooks[0].0 != event {
      PutKeepsSound(hooks[1..], event, groups);
    }
  }

  lemma {:induction false} GetIsSound(hooks: Dict, event: string)
    requires SoundEvents(hooks)
    ensures forall g <- GroupsAt(hooks, event) :: SoundGroup(g)
  {
    if hooks != [] && hooks[0].0 != event {
      GetIsSound(hooks[1..], event);
    }
  }

  lemma {:induction false} AddedAreSound(hooks: Dict, install: Install, events: seq<string>)
    requires SoundEvents(hooks)
    ensures SoundEvents(AddedAll(hooks, install, events))
  {
    if events != [] {
      var before, last := events[..|events| - 1], events[|events| - 1];
      AddedAreSound(hooks, install, before);
      var d := AddedAll(hooks, install, before);
      GetIsSound(d, last);
      OurGroupHolds(install, last);
      PutKeepsSound(d, last, GroupsAt(d, last) + [OurGroup(install, last)]);
    }
  }

  /** The install law, as ordered JSON: what an install leaves once stripped is what the
      settings would be stripped, exactly when the command is marked and no event of ours
      held something other than a list. */
  lemma InstallLaw(settings: Dict, install: Install)
    requires Valid(settings) && Apply(settings, install).Ok?
    ensures Strip(Apply(settings, install).value) == Strip(settings) <==>
              Contains(install.command, MARKER) && PlainEvents(settings)
  {
    StrippedIsStripped(settings);
    var out := Stripped(settings);
    var hooks := HooksOrNone(settings);
    KeptEventsStay(hooks);
    KeptEventsAreSound(hooks);
    var all := AddedAll(HooksOrNone(out), install, EVENTS);
    if KeptEvents(all) == HooksOrNone(out) {
      EventsComeBack(out, all);
    } else {
      EventsDiffer(out, all);
    }
    InstallLawOnEvents(HooksOrNone(out), install);
    PlainStays(settings);
    InstalledIsReadable(out, install);
  }

  lemma InstalledIsReadable(out: Dict, install: Install)
    requires Readable(out) || SoundEvents(HooksOrNone(out))
    ensures Readable(Installed(out, install))
    ensures HooksOf(Installed(out, install)) == Some(AddedAll(HooksOrNone(out), install, EVENTS))
  {
    AddedAreSound(HooksOrNone(out), install, EVENTS);
    GetPut(out, "hooks", Obj(AddedAll(HooksOrNone(out), install, EVENTS)), "hooks");
  }

  /** Stripping twice is stripping once. */
  lemma StripIsIdempotent(settings: Dict)
    requires Valid(settings) && Strip(settings).Ok?
    ensures Strip(Strip(settings).value) == Strip(settings)
  {
    if HooksOf(settings).Some? {
      var out, kept := Stripped(settings), KeptEvents(HooksOrNone(settings));
      StrippedIsStripped(settings);
      KeptEventsStay(HooksOrNone(settings));
      KeptEventsAreSound(HooksOrNone(settings));
      if HooksOf(out).Some? {
        PutSame(out, "hooks", Obj(kept));
      }
    }
  }

  /** The last install wins, whatever was installed before and for whichever harness, so a
      reinstall renders the same file. */
  lemma LastInstallWins(settings: Dict, first: Install, second: Install)
    requires Valid(settings) && Apply(settings, first).Ok?
    requires Contains(first.command, MARKER) && PlainEvents(settings)
    ensures Apply(Apply(settings, first).value, second) == Apply(settings, second)
  {
    InstallLaw(settings, first);
  }

  // --- what other tools installed ----------------------------------------------------

  function AllEntries(groups: seq<Json>): seq<Json> {
    if groups == [] then [] else Entries(groups[0]) + AllEntries(groups[1..])
  }

  /** The hook entries of an event, in order. */
  function EntriesAt(settings: Dict, event: string): seq<Json> {
    AllEntries(GroupsAt(HooksOrNone(settings), event))
  }

  lemma {:induction false} AllEntriesConcat(a: seq<Json>, b: seq<Json>)
    ensures AllEntries(a + b) == AllEntries(a) + AllEntries(b)
  {
    if a == [] {
      assert a + b == b;
    } else {
      assert (a + b)[1..] == a[1..] + b;
      AllEntriesConcat(a[1..], b);
    }
  }

  lemma KeptGroupEntries(group: Json)
    ensures AllEntries(KeptGroup(group)) == Filter(Entries(group), NotOurs)
  {
    if group.Obj? {
      var inner := Filter(Entries(group), NotOurs);
      GetPut(group.fields, "hooks", Arr(inner), "hooks");
    }
  }

  lemma {:induction false} KeptGroupsEntries(groups: seq<Json>)
    ensures AllEntries(KeptGroups(groups)) == Filter(AllEntries(groups), NotOurs)
  {
    if groups != [] {
      KeptGroupEntries(groups[0]);
      KeptGroupsEntries(groups[1..]);
      AllEntriesConcat(KeptGroup(groups[0]), KeptGroups(groups[1..]));
      FilterConcat(Entries(groups[0]), AllEntries(groups[1..]), NotOurs);
    }
  }

  /** Strip removes our entries of every event and keeps everybody else's, in order. */
  lemma StripKeepsForeignEntries(settings: Dict, event: string)
    requires Valid(settings) && (HooksOf(settings).Some? || !Has(settings, "hooks"))
    ensures EntriesAt(Stripped(settings), event) == Filter(EntriesAt(settings, event), NotOurs)
  {
    StrippedIsStripped(settings);
    GetKept(HooksOrNone(settings), event);
    KeptGroupsEntries(GroupsAt(HooksOrNone(settings), event));
  }

  /** A group that nobody needs to touch: no object, or without hooks, or with some of which none
      is ours. */
  predicate Foreign(group: Json) {
    group.Obj? && Has(group.fields, "hooks") ==>
      && Get(group.fields, "hooks").value.Arr? && Entries(group) != []
      && forall h <- Entries(group) :: !IsOurs(h)
  }

  lemma {:induction false} ForeignGroupsStay(groups: seq<Json>)
    requires forall g <- groups :: Foreign(g)
    ensures KeptGroups(groups) == groups
  {
    if groups != [] {
      ForeignGroupsStay(groups[1..]);
      ForeignGroupStays(groups[0]);
    }
  }

  lemma ForeignGroupStays(group: Json)
    requires Foreign(group)
    ensures KeptGroup(group) == [group]
  {
    if group.Obj? && Has(group.fields, "hooks") {
      FilterAll(Entries(group), NotOurs);
      PutSame(group.fields, "hooks", Arr(Entries(group)));
    } else if group.Obj? {
      assert Get(group.fields, "hooks").None? && Entries(group) == [];
    }
  }

  /** Not only the entries: an event whose groups all belong to others keeps them as they are, and
      an install puts ours behind them. */
  lemma ForeignEventsStay(settings: Dict, install: Install, event: string)
    requires Valid(settings) && Apply(settings, install).Ok?
    requires forall g <- GroupsAt(HooksOrNone(settings), event) :: Foreign(g)
    ensures GroupsAt(HooksOrNone(Stripped(settings)), event) == GroupsAt(HooksOrNone(settings), event)
    ensures GroupsAt(HooksOrNone(Apply(settings, install).value), event) ==
              GroupsAt(HooksOrNone(settings), event) + (if Hooked(event) then [OurGroup(install, event)] else [])
  {
    StrippedIsStripped(settings);
    GetKept(HooksOrNone(settings), event);
    ForeignGroupsStay(GroupsAt(HooksOrNone(settings), event));
    HookedAreTheEvents(event);
    InstalledGroups(Stripped(settings), install, event, event in EVENTS);
  }

  lemma InstalledGroups(out: Dict, install: Install, event: string, hooked: bool)
    requires hooked == (event in EVENTS)
    ensures GroupsAt(HooksOrNone(Installed(out, install)), event) ==
              GroupsAt(HooksOrNone(out), event) + (if hooked then [OurGroup(install, event)] else [])
  {
    HooksAfterPut(out, AddedAll(HooksOrNone(out), install, EVENTS));
    GetAdded(HooksOrNone(out), install, EVENTS, event);
  }

  /** The entry itself: it runs the command for the event and times out after ten seconds;
      only the waiting one on `Stop` waits, for eight hours, in the background, and wakes the
      session; only the Codex one says what it does. */
  lemma OurEntry(install: Install, event: string)
    ensures
      var waits := install.Claude? && install.rewake && event == "Stop";
      var command := install.command + " --event " + event
                       + if waits then " --wait --poll-interval 5 --wait-timeout 28800" else "";
      var entry := Entry(install, event);
      && entry.Obj? && |entry.fields| == (if waits then 5 else if install.Codex? then 4 else 3)
      && ("type", Str("command")) in entry.fields && ("command", Str(command)) in entry.fields
      && ("timeout", Num(if waits then "28810" else "10")) in entry.fields
      && (waits ==> ("async", Bool(true)) in entry.fields && ("asyncRewake", Bool(true)) in entry.fields)
      && (install.Codex? ==> ("statusMessage", Str("agent-inbox: checking for mail")) in entry.fields)
  {
    var fields := Entry(install, event).fields;
    assert fields[0] in fields && fields[1] in fields && fields[2] in fields;
    assert |fields| > 3 ==> fields[3] in fields;
    assert |fields| > 4 ==> fields[4] in fields;
    var plain := install.command + " --event " + event;
    assert plain + "" == plain;
  }

  /** After an install every event holds everybody else's entries in their order, and ours
      exactly once, last, on the three events we hook and on no other. */
  lemma InstallAddsOneEntry(settings: Dict, install: Install, event: string)
    requires Valid(settings) && Apply(settings, install).Ok?
    ensures EntriesAt(Apply(settings, install).value, event) ==
              Filter(EntriesAt(settings, event), NotOurs) + (if Hooked(event) then [Entry(install, event)] else [])
  {
    StripKeepsForeignEntries(settings, event);
    HookedAreTheEvents(event);
    InstalledEntries(Stripped(settings), install, event, event in EVENTS);
  }

  lemma InstalledEntries(out: Dict, install: Install, event: string, hooked: bool)
    requires hooked == (event in EVENTS)
    ensures EntriesAt(Installed(out, install), event) ==
              EntriesAt(out, event) + (if hooked then [Entry(install, event)] else [])
  {
    HooksAfterPut(out, AddedAll(HooksOrNone(out), install, EVENTS));
    AddedEntries(HooksOrNone(out), install, EVENTS, event);
  }

  lemma AddedEntries(hooks: Dict, install: Install, events: seq<string>, event: string)
    requires NoRepeat(events)
    ensures AllEntries(GroupsAt(AddedAll(hooks, install, events), event)) ==
              AllEntries(GroupsAt(hooks, event)) + (if event in events then [Entry(install, event)] else [])
  {
    GetAdded(hooks, install, events, event);
    if event in events {
      var ours := OurGroup(install, event);
      assert GroupsAt(AddedAll(hooks, install, events), event) == GroupsAt(hooks, event) + [ours];
      AllEntriesConcat(GroupsAt(hooks, event), [ours]);
      OurGroupHolds(install, event);
      assert AllEntries([ours]) == Entries(ours) + [];
    }
  }

  /** With a marked command the sequence of foreign entries of every event is unchanged, and
      ours is one entry on each event we hook and none elsewhere. */
  lemma ForeignEntriesSurvive(settings: Dict, install: Install, event: string)
    requires Valid(settings) && Apply(settings, install).Ok? && Contains(install.command, MARKER)
    ensures
      var after := EntriesAt(Apply(settings, install).value, event);
      && Filter(after, NotOurs) == Filter(EntriesAt(settings, event), NotOurs)
      && Filter(after, IsOurs) == if Hooked(event) then [Entry(install, event)] else []
  {
    InstallAddsOneEntry(settings, install, event);
    if Hooked(event) {
      HookedAreTheEvents(event);
      OursIffMarked(install, event);
      OursBehind(EntriesAt(settings, event), [Entry(install, event)]);
    } else {
      OursBehind(EntriesAt(settings, event), []);
    }
  }

  lemma OursBehind(entries: seq<Json>, ours: seq<Json>)
    requires forall h <- ours :: IsOurs(h)
    ensures Filter(Filter(entries, NotOurs) + ours, NotOurs) == Filter(entries, NotOurs)
    ensures Filter(Filter(entries, NotOurs) + ours, IsOurs) == ours
  {
    var foreign := Filter(entries, NotOurs);
    forall h | h in foreign ensures NotOurs(h) {
      FilterMembers(entries, NotOurs, h);
    }
    FilterConcat(foreign, ours, NotOurs);
    FilterAll(foreign, NotOurs);
    FilterNone(ours, NotOurs);
    FilterConcat(foreign, ours, IsOurs);
    FilterNone(foreign, IsOurs);
    FilterAll(ours, IsOurs);
  }

  lemma {:induction false} GetDel(d: Dict, key: string, other: string)
    requires other != key
    ensures Get(Del(d, key), other) == Get(d, other)
  {
    if d != [] && d[0].0 != key {
      GetDel(d[1..], key, other);
      assert ([d[0]] + Del(d[1..], key))[1..] == Del(d[1..], key);
    }
  }

  /** Nothing outside `hooks` changes. */
  lemma OtherSettingsUntouched(settings: Dict, install: Install, key: string)
    requires key != "hooks" && Apply(settings, install).Ok?
    ensures Get(Strip(settings).value, key) == Get(settings, key)
    ensures Get(Apply(settings, install).value, key) == Get(settings, key)
  {
    var out := Stripped(settings);
    GetDel(settings, "hooks", key);
    GetPut(settings, "hooks", Obj(KeptEvents(HooksOrNone(settings))), key);
    GetPut(out, "hooks", Obj(AddedAll(HooksOrNone(out), install, EVENTS)), key);
  }

  // --- the code ----------------------------------------------------------------------

  lemma {:induction false} PutMiddle(a: Dict, key: string, v: Json, b: Dict, w: Json)
    requires forall f <- a :: f.0 != key
    ensures Put(a + [(key, v)] + b, key, w) == a + [(key, w)] + b
  {
    var all := a + [(key, v)] + b;
    if a == [] {
      assert all[0] == (key, v) && all[1..] == b;
    } else {
      assert all[0] == a[0] && all[1..] == a[1..] + [(key, v)] + b;
      PutMiddle(a[1..], key, v, b, w);
      assert [a[0]] + (a[1..] + [(key, w)] + b) == a + [(key, w)] + b;
    }
  }

  lemma {:induction false} GetMiddle(a: Dict, key: string, v: Json, b: Dict)
    requires forall f <- a :: f.0 != key
    ensures Get(a + [(key, v)] + b, key) == Some(v)
  {
    var all := a + [(key, v)] + b;
    if a == [] {
      assert all[0] == (key, v);
    } else {
      assert all[0] == a[0] && all[1..] == a[1..] + [(key, v)] + b;
      GetMiddle(a[1..], key, v, b);
    }
  }

  lemma {:induction false} DelMiddle(a: Dict, key: string, v: Json, b: Dict)
    requires forall f <- a :: f.0 != key
    ensures Del(a + [(key, v)] + b, key) == a + b
  {
    var all := a + [(key, v)] + b;
    if a == [] {
      assert all[0] == (key, v) && all[1..] == b;
    } else {
      assert all[0] == a[0] && all[1..] == a[1..] + [(key, v)] + b;
      DelMiddle(a[1..], key, v, b);
      assert [a[0]] + (a[1..] + b) == a + b;
    }
  }

  /** The loop over the groups of one event. */
  method StripGroups(groups: seq<Json>) returns (kept: seq<Json>, sound: bool)
    ensures sound <==> forall g <- groups :: SoundGroup(g)
    ensures sound ==> kept == KeptGroups(groups)
  {
    kept, sound := [], true;
    for i := 0 to |groups|
      invariant sound && forall g <- groups[..i] :: SoundGroup(g)
      invariant kept == KeptGroups(groups[..i])
    {
      var group := groups[i];
      assert groups[..i + 1] == groups[..i] + [group];
      KeptGroupsConcat(groups[..i], [group]);
      assert KeptGroups([group]) == KeptGroup(group);
      if !group.Obj? {
        kept := kept + [group];
        continue;
      }
      var listed := GetOr(group.fields, "hooks", Arr([]));
      if !Iterable(listed) {
        assert group in groups && !SoundGroup(group);
        return [], false;
      }
      var inner := Filter(Iter(listed), NotOurs);
      if inner != [] {
        kept := kept + [Obj(Put(group.fields, "hooks", Arr(inner)))];
      } else if !Has(group.fields, "hooks") {
        kept := kept + [group];
      }
    }
    assert groups[..|groups|] == groups;
  }

  /** The loop over the events. */
  method StripEvents(before: Dict) returns (hooks: Dict, sound: bool)
    requires Keyed(before)
    ensures sound <==> SoundEvents(before)
    ensures sound ==> hooks == KeptEvents(before)
  {
    hooks, sound := before, true;
    for i := 0 to |before|
      invariant sound && SoundEvents(before[..i])
      invariant hooks == KeptEvents(before[..i]) + before[i..]
    {
      var event := before[i].0;
      StripOneMore(before, i, hooks);
      var value := GetOr(hooks, event, Null);
      if !value.Arr? {
        continue;
      }
      var kept, fine := StripGroups(value.items);
      if !fine {
        assert before[i] in before;
        return [], false;
      }
      if kept != [] {
        hooks := Put(hooks, event, Arr(kept));
      } else {
        hooks := Del(hooks, event);
      }
    }
    assert before[..|before|] == before;
  }

  /** What the loop must turn `hooks` into for the event at `i`. */
  lemma StripOneMore(before: Dict, i: nat, hooks: Dict)
    requires Keyed(before) && i < |before| && hooks == KeptEvents(before[..i]) + before[i..]
    ensures Get(hooks, before[i].0) == Some(before[i].1)
    ensures before[..i + 1] == before[..i] + [before[i]]
    ensures
      var (event, value) := before[i];
      var next := KeptEvents(before[..i + 1]) + before[i + 1..];
      var kept := KeptEvent(event, value);
      if kept == [] then Del(hooks, event) == next
      else Put(hooks, event, kept[0].1) == next && (kept[0].1 == value ==> hooks == next)
  {
    var (event, value) := before[i];
    var a, b := KeptEvents(before[..i]), before[i + 1..];
    assert hooks == a + [(event, value)] + b;
    KeptKeysAreOld(before[..i]);
    forall f: (string, Json) | f in a ensures f.0 != event {
      var g: (string, Json) :| g in before[..i] && g.0 == f.0;
    }
    GetMiddle(a, event, value, b);
    DelMiddle(a, event, value, b);
    assert before[..i + 1] == before[..i] + [before[i]];
    KeptEventsConcat(before[..i], [before[i]]);
    var kept := KeptEvent(event, value);
    assert KeptEvents([before[i]]) == kept;
    if kept != [] {
      PutMiddle(a, event, value, b, kept[0].1);
      assert kept == [(event, kept[0].1)];
    } else {
      assert a + [] == a;
    }
  }

  method StripSettings(settings: Dict) returns (r: Result<Dict, Error>)
    requires Valid(settings)
    ensures r == Strip(settings)
  {
    var out := settings;
    if HooksOf(out).None? {
      return Ok(out);
    }
    var hooks, sound := StripEvents(HooksOf(out).value);
    if !sound {
      return Err(TypeError);
    }
    if hooks == [] {
      out := Del(out, "hooks");
    } else {
      out := Put(out, "hooks", Obj(hooks));
    }
    return Ok(out);
  }

  /** `apply` and `codex_apply`. */
  method ApplySettings(settings: Dict, install: Install) returns (r: Result<Dict, Error>)
    requires Valid(settings)
    ensures r == Apply(settings, install)
  {
    r := StripSettings(settings);
    if r.Err? {
      return;
    }
    var out := r.value;
    var hooks: Dict := [];
    if Has(out, "hooks") {
      if HooksOf(out).None? {
        return Err(AttributeError);
      }
      hooks := HooksOf(out).value;
    }
    ghost var first := hooks;
    for i := 0 to |EVENTS|
      invariant hooks == AddedAll(first, install, EVENTS[..i])
    {
      assert EVENTS[..i + 1][..i] == EVENTS[..i];
      var event := EVENTS[i];
      var groups := GetOr(hooks, event, Arr([]));
      if !groups.Arr? {
        groups := Arr([]);
      }
      hooks := Put(hooks, event, Arr(groups.items + [OurGroup(install, event)]));
    }
    assert EVENTS[..|EVENTS|] == EVENTS;
    return Ok(Put(out, "hooks", Obj(hooks)));
  }
}
