/** `Mailbox.send` of `mailbox.py`. */
module MailboxSend {

  /* Over the audience rules of `rules.py`: who a message is filed for, and when it is refused
     before anything is stored. */

  import opened Addressing
  import opened Sorting
  import opened Text
  import opened Wrappers

  const EVERYONE := "everyone"

  /** Who has joined, and the groups their profiles name. */
  datatype Roster = Roster(actors: set<string>, groups: map<string, set<string>>) {
    predicate Knows(name: string) {
      name in actors || name in groups || name == EVERYONE
    }
  }

  /** A stored message: who it went to, local names and remote URIs, and what was typed. */
  datatype Record = Record(sender: string, to: seq<string>, cc: seq<string>, audience: seq<string>)

  datatype Error =
    | UnknownActor
    | BadAddress(fault: Malformed)
    | RemoteMailbox(address: string)
    | UnknownRecipient(names: seq<string>)
    | DeliversToNobody
    | NotKept(why: string)

  /** `addressing.local_name`. */
  function LocalName(hubName: string): string -> Result<string, Error> {
    text => match Parse(text)
      case Err(e) => Err(BadAddress(e))
      case Ok(a) => if a.IsLocalTo(hubName) then Ok(a.name) else Err(RemoteMailbox(text))
  }

  // --- the audience ------------------------------------------------------------------

  function Copies(name: string, roster: Roster): set<string> {
    if name == EVERYONE then roster.actors
    else if name in roster.groups then roster.groups[name]
    else if name in roster.actors then {name} else {}
  }

  function Audience(names: seq<string>, roster: Roster): set<string> {
    if names == [] then {} else Audience(names[..|names| - 1], roster) + Copies(names[|names| - 1], roster)
  }

  /** `resolve_audience`. */
  method ResolveAudience(names: seq<string>, roster: Roster) returns (resolved: set<string>)
    ensures resolved == Audience(names, roster)
    ensures forall who :: who in resolved <==> exists name <- names ::
              || (name == "everyone" && who in roster.actors)
              || (name != "everyone" && name in roster.groups && who in roster.groups[name])
              || (name != "everyone" && name !in roster.groups && name == who && who in roster.actors)
  {
    resolved := {};
    for i := 0 to |names|
      invariant resolved == Audience(names[..i], roster)
    {
      assert names[..i + 1][..i] == names[..i];
      var name := names[i];
      if name == EVERYONE {
        resolved := resolved + roster.actors;
      } else if name in roster.groups {
        resolved := resolved + roster.groups[name];
      } else if name in roster.actors {
        resolved := resolved + {name};
      }
    }
    assert names[..|names|] == names;
    forall who ensures who in resolved <==> exists name <- names :: who in Copies(name, roster) {
      AudienceMembers(names, roster, who);
    }
  }

  /** Whom one name stands for: `everyone` for every actor; else a group for its members, and
      only a name that is no group's for the actor who has it. */
  lemma CopiesOf(name: string, roster: Roster, who: string)
    ensures who in Copies(name, roster) <==>
              || (name == "everyone" && who in roster.actors)
              || (name != "everyone" && name in roster.groups && who in roster.groups[name])
              || (name != "everyone" && name !in roster.groups && name == who && who in roster.actors)
  {
  }

  lemma {:induction false} AudienceMembers(names: seq<string>, roster: Roster, who: string)
    ensures who in Audience(names, roster) <==> exists name <- names :: who in Copies(name, roster)
  {
    if names != [] {
      var before, last := names[..|names| - 1], names[|names| - 1];
      AudienceMembers(before, roster, who);
      assert names == before + [last];
    }
  }

  /** Who `to` reaches: its audience without the sender, unless the sender named itself. */
  function ReachedBy(recipients: seq<string>, sender: string, roster: Roster): set<string> {
    Audience(recipients, roster) - {sender} + if sender in recipients then {sender} else {}
  }

  /** Who only `cc` reaches. */
  function AlsoReached(recipients: seq<string>, copies: seq<string>, sender: string, roster: Roster): set<string> {
    var reached := ReachedBy(recipients, sender, roster);
    Audience(copies, roster) - {sender} - reached + if sender in copies && sender !in reached then {sender} else {}
  }

  function Receivers(recipients: seq<string>, copies: seq<string>, sender: string, roster: Roster): set<string> {
    ReachedBy(recipients, sender, roster) + AlsoReached(recipients, copies, sender, roster)
  }

  lemma Reaches(recipients: seq<string>, copies: seq<string>, sender: string, roster: Roster, who: string)
    ensures who in Receivers(recipients, copies, sender, roster) <==>
              if who == sender then who in recipients + copies
              else exists name <- recipients + copies :: who in Copies(name, roster)
  {
    AudienceMembers(recipients, roster, who);
    AudienceMembers(copies, roster, who);
  }

  /** Everybody named receives a copy, and nobody else: every actor when `everyone` is named,
      the members of a named group, an actor named in person; the sender exactly when it wrote
      its own name. */
  lemma WhoReceives(recipients: seq<string>, copies: seq<string>, sender: string, roster: Roster, who: string)
    ensures who in Receivers(recipients, copies, sender, roster) <==>
              if who == sender then sender in recipients || sender in copies
              else exists name <- recipients + copies ::
                     || (name == "everyone" && who in roster.actors)
                     || (name != "everyone" && name in roster.groups && who in roster.groups[name])
                     || (name != "everyone" && name !in roster.groups && name == who && who in roster.actors)
  {
    Reaches(recipients, copies, sender, roster, who);
    forall name | name in recipients + copies
      ensures who in Copies(name, roster) <==>
                || (name == "everyone" && who in roster.actors)
                || (name != "everyone" && name in roster.groups && who in roster.groups[name])
                || (name != "everyone" && name !in roster.groups && name == who && who in roster.actors)
    {
      CopiesOf(name, roster, who);
    }
  }

  /** Of those, the ones `to` reaches are filed under `to`, and only the rest under `cc`. */
  lemma ToBeforeCc(recipients: seq<string>, copies: seq<string>, sender: string, roster: Roster, who: string)
    ensures who in ReachedBy(recipients, sender, roster) <==> who in Receivers(recipients, [], sender, roster)
    ensures who in AlsoReached(recipients, copies, sender, roster) <==>
              && who in Receivers(recipients, copies, sender, roster)
              && who !in Receivers(recipients, [], sender, roster)
  {
    AudienceMembers([], roster, who);
  }

  // --- sorted(a set) -----------------------------------------------------------------

  predicate Lowest(low: string, names: set<string>) {
    low in names && forall other <- names :: other == low || Below(low, other)
  }

  lemma LowestOfMore(low: string, names: set<string>, one: string) returns (r: string)
    requires Lowest(low, names) && one !in names
    ensures Lowest(r, names + {one})
  {
    BelowTotal(one, low);
    r := if Below(one, low) then one else low;
    forall other | other in names && r == one ensures Below(one, other) {
      if other != low {
        BelowTransitive(one, low, other);
      }
    }
  }

  lemma {:induction false} LowestExists(names: set<string>)
    requires names != {}
    ensures exists low :: Lowest(low, names)
  {
    var one :| one in names;
    var others := names - {one};
    assert names == others + {one};
    if others == {} {
      assert Lowest(one, names);
    } else {
      LowestExists(others);
      var low :| Lowest(low, others);
      var r := LowestOfMore(low, others, one);
    }
  }

  lemma LowestIsOne(names: set<string>)
    ensures forall a, b :: Lowest(a, names) && Lowest(b, names) ==> a == b
  {
    forall a, b | Lowest(a, names) && Lowest(b, names) ensures a == b {
      BelowAsymmetric(a, b);
    }
  }

  function Alphabetical(names: set<string>): (r: seq<string>)
    ensures forall name :: name in r <==> name in names
    ensures NoRepeat(r)
    ensures forall i, j :: 0 <= i < j < |r| ==> Below(r[i], r[j])
  {
    if names == {} then []
    else
      LowestExists(names);
      LowestIsOne(names);
      var low :| Lowest(low, names);
      [low] + Alphabetical(names - {low})
  }

  // --- sending -----------------------------------------------------------------------

  function Missing(names: seq<string>, roster: Roster): seq<string> {
    Filter(names, name => !roster.Knows(name))
  }

  /** What is filed for these local names, or why it is refused. */
  function Filing(
    recipients: seq<string>, copies: seq<string>, remoteTo: seq<string>, audience: seq<string>, sender: string,
    roster: Roster): Result<Record, Error>
  {
    var missing := Missing(recipients + copies, roster);
    if missing != [] then Err(UnknownRecipient(missing))
    else
      var to := Alphabetical(ReachedBy(recipients, sender, roster)) + remoteTo;
      var cc := Alphabetical(AlsoReached(recipients, copies, sender, roster));
      if to + cc == [] && recipients + copies != [] then Err(DeliversToNobody)
      else Ok(Record(sender, to, cc, if audience != [] then audience else recipients + copies))
  }

  /** The rest of a send whose addresses are read: filing, and the store. */
  function Kept(
    recipients: seq<string>, copies: seq<string>, remoteTo: seq<string>, audience: seq<string>, sender: string,
    roster: Roster, broken: Option<string>): Result<Record, Error>
  {
    var filing := Filing(recipients, copies, remoteTo, audience, sender, roster);
    if filing.Ok? && broken.Some? then Err(NotKept(broken.value)) else filing
  }

  /** `send`, given the sender if it is known and what the store says if it fails. */
  function Posted(
    to: seq<string>, cc: seq<string>, remoteTo: seq<string>, audience: seq<string>, sender: Option<string>,
    roster: Roster, broken: Option<string>, hubName: string): Result<Record, Error>
  {
    match sender
    case None => Err(UnknownActor)
    case Some(who) =>
      match Each(LocalName(hubName), to)
      case Err(e) => Err(e)
      case Ok(recipients) =>
        match Each(LocalName(hubName), cc)
        case Err(e) => Err(e)
        case Ok(copies) => Kept(recipients, copies, remoteTo, audience, who, roster, broken)
  }

  method FileFor(
    recipients: seq<string>, copies: seq<string>, remoteTo: seq<string>, audience: seq<string>, sender: string,
    roster: Roster) returns (r: Result<Record, Error>)
    ensures r == Filing(recipients, copies, remoteTo, audience, sender, roster)
  {
    var missing := Missing(recipients + copies, roster);
    if missing != [] {
      return Err(UnknownRecipient(missing));
    }
    var reached := ResolveAudience(recipients, roster);
    reached := reached - {sender};
    if sender in recipients {
      reached := reached + {sender};
    }
    var also := ResolveAudience(copies, roster);
    also := also - {sender} - reached;
    if sender in copies && sender !in reached {
      also := also + {sender};
    }
    assert reached == ReachedBy(recipients, sender, roster);
    assert also == AlsoReached(recipients, copies, sender, roster);
    var resolvedTo, resolvedCc := Alphabetical(reached) + remoteTo, Alphabetical(also);
    if resolvedTo + resolvedCc == [] && recipients + copies != [] {
      return Err(DeliversToNobody);
    }
    return Ok(Record(sender, resolvedTo, resolvedCc, if audience != [] then audience else recipients + copies));
  }

  class Mailbox {
    const hubName: string
    var objects: seq<Record>

    constructor (hubName: string)
      ensures this.hubName == hubName && objects == []
    {
      this.hubName, objects := hubName, [];
    }

    method LocalNames(texts: seq<string>) returns (r: Result<seq<string>, Error>)
      ensures r == Each(LocalName(hubName), texts)
    {
      var names: seq<string> := [];
      for i := 0 to |texts|
        invariant Each(LocalName(hubName), texts[..i]) == Ok(names)
      {
        EachOneMore(LocalName(hubName), texts, i, names);
        var one := LocalName(hubName)(texts[i]);
        if one.Err? {
          return Err(one.error);
        }
        names := names + [one.value];
      }
      assert texts[..|texts|] == texts;
      return Ok(names);
    }

    /** One record is stored, or the call raises and nothing is. */
    method Send(
      to: seq<string>, cc: seq<string>, remoteTo: seq<string>, audience: seq<string>, sender: Option<string>,
      roster: Roster, broken: Option<string>)
      returns (r: Result<Record, Error>)
      modifies this`objects
      ensures r == Posted(to, cc, remoteTo, audience, sender, roster, broken, hubName)
      ensures objects == old(objects) + if r.Ok? then [r.value] else []
    {
      if sender.None? {
        return Err(UnknownActor);
      }
      var parsedTo := LocalNames(to);
      if parsedTo.Err? {
        return Err(parsedTo.error);
      }
      var parsedCc := LocalNames(cc);
      if parsedCc.Err? {
        return Err(parsedCc.error);
      }
      var filing := FileFor(parsedTo.value, parsedCc.value, remoteTo, audience, sender.value, roster);
      if filing.Err? {
        return Err(filing.error);
      }
      if broken.Some? {
        return Err(NotKept(broken.value));
      }
      objects := objects + [filing.value];
      return Ok(filing.value);
    }
  }

  // --- what is filed -----------------------------------------------------------------

  /** Nobody is filed twice, and `cc` never repeats `to`. */
  lemma FiledOnce(recipients: seq<string>, copies: seq<string>, sender: string, roster: Roster)
    ensures
      var to := Alphabetical(ReachedBy(recipients, sender, roster));
      var cc := Alphabetical(AlsoReached(recipients, copies, sender, roster));
      NoRepeat(to + cc) && forall who :: who in to + cc <==> who in Receivers(recipients, copies, sender, roster)
  {
    NoRepeatConcat(Alphabetical(ReachedBy(recipients, sender, roster)),
                   Alphabetical(AlsoReached(recipients, copies, sender, roster)));
  }

  /** Who is filed, from the addresses and the roster alone: besides the URIs handed over,
      everybody named but the sender, and the sender exactly when it wrote its own name; under
      `to` whoever `to` alone reaches, under `cc` the rest. */
  lemma FiledExactlyFor(
      recipients: seq<string>, copies: seq<string>, remoteTo: seq<string>, audience: seq<string>, sender: string,
      roster: Roster, who: string)
    requires Filing(recipients, copies, remoteTo, audience, sender, roster).Ok? && who !in remoteTo
    ensures
      var record := Filing(recipients, copies, remoteTo, audience, sender, roster).value;
      && record.sender == sender && record.audience == (if audience != [] then audience else recipients + copies)
      && |remoteTo| <= |record.to| && record.to[|record.to| - |remoteTo|..] == remoteTo
      && (who in record.to <==> who in Receivers(recipients, [], sender, roster))
      && (who in record.to ==> who !in record.cc)
      && (who in record.to || who in record.cc <==>
            if who == sender then sender in recipients || sender in copies
            else exists name <- recipients + copies ::
                   || (name == "everyone" && who in roster.actors)
                   || (name != "everyone" && name in roster.groups && who in roster.groups[name])
                   || (name != "everyone" && name !in roster.groups && name == who && who in roster.actors))
  {
    WhoReceives(recipients, copies, sender, roster, who);
    ToBeforeCc(recipients, copies, sender, roster, who);
  }

  /** What an address is to this mailbox: a name held here, when its hub is `local` or this one. */
  lemma ReadsOwnNames(hubName: string, text: string)
    ensures
      LocalName(hubName)(text) ==
        if Parse(text).Err? then Err(BadAddress(Parse(text).error))
        else if Parse(text).value.hub in {"local", hubName} then Ok(Parse(text).value.name)
        else Err(RemoteMailbox(text))
  {
  }

  /** A text among these reads as this name. */
  ghost predicate Names(read: string -> Result<string, Error>, texts: seq<string>, name: string) {
    exists text <- texts :: read(text) == Ok(name)
  }

  lemma NamesRead(read: string -> Result<string, Error>, texts: seq<string>, name: string)
    requires Each(read, texts).Ok?
    ensures name in Each(read, texts).value <==> Names(read, texts, name)
  {
    if name in Each(read, texts).value {
      var text := EachFrom(read, texts, name);
    }
    if text :| text in texts && read(text) == Ok(name) {
      EachGives(read, texts, text);
    }
  }

  /** A text among these reads as a name that stands for `who`. */
  ghost predicate Calls(read: string -> Result<string, Error>, texts: seq<string>, roster: Roster, who: string) {
    exists name :: Names(read, texts, name) &&
      (|| (name == "everyone" && who in roster.actors)
       || (name != "everyone" && name in roster.groups && who in roster.groups[name])
       || (name != "everyone" && name !in roster.groups && name == who && who in roster.actors))
  }

  lemma CallsReach(
      read: string -> Result<string, Error>, texts: seq<string>, sender: string, roster: Roster, who: string)
    requires Each(read, texts).Ok?
    ensures who in Receivers(Each(read, texts).value, [], sender, roster) <==>
              if who == sender then Names(read, texts, sender) else Calls(read, texts, roster, who)
  {
    var names := Each(read, texts).value;
    WhoReceives(names, [], sender, roster, who);
    forall name ensures name in names + [] <==> Names(read, texts, name) {
      NamesRead(read, texts, name);
    }
  }

  /** A whole send, from what was typed: whom the stored record is for, and under which of `to`
      and `cc`. */
  lemma PostedExactlyFor(
      to: seq<string>, cc: seq<string>, remoteTo: seq<string>, audience: seq<string>, sender: Option<string>,
      roster: Roster, broken: Option<string>, hubName: string, who: string)
    requires Posted(to, cc, remoteTo, audience, sender, roster, broken, hubName).Ok? && who !in remoteTo
    ensures
      var record := Posted(to, cc, remoteTo, audience, sender, roster, broken, hubName).value;
      var read := LocalName(hubName);
      && sender == Some(record.sender) && broken.None?
      && (audience != [] ==> record.audience == audience)
      && |remoteTo| <= |record.to| && record.to[|record.to| - |remoteTo|..] == remoteTo
      && (who in record.to <==> if sender == Some(who) then Names(read, to, who) else Calls(read, to, roster, who))
      && (who in record.cc <==>
            && who !in record.to
            && if sender == Some(who) then Names(read, cc, who) else Calls(read, cc, roster, who))
  {
    var read := LocalName(hubName);
    var recipients, copies := Each(read, to).value, Each(read, cc).value;
    FiledExactlyFor(recipients, copies, remoteTo, audience, sender.value, roster, who);
    ToOrCc(recipients, copies, sender.value, roster, who);
    CallsReach(read, to, sender.value, roster, who);
    CallsReach(read, cc, sender.value, roster, who);
  }

  lemma ToOrCc(recipients: seq<string>, copies: seq<string>, sender: string, roster: Roster, who: string)
    ensures who in Receivers(recipients, copies, sender, roster) <==>
              || who in Receivers(recipients, [], sender, roster)
              || who in Receivers(copies, [], sender, roster)
  {
    Reaches(recipients, copies, sender, roster, who);
    Reaches(recipients, [], sender, roster, who);
    Reaches(copies, [], sender, roster, who);
  }

  /** Refused exactly for a name nobody holds, and then by all such names, or for names of
      which none reaches anybody. */
  lemma RefusedExactlyWhen(
      recipients: seq<string>, copies: seq<string>, remoteTo: seq<string>, audience: seq<string>, sender: string,
      roster: Roster)
    ensures Filing(recipients, copies, remoteTo, audience, sender, roster).Err? <==>
              || (exists name <- recipients + copies ::
                    name !in roster.actors && name !in roster.groups && name != "everyone")
              || (recipients + copies != [] && remoteTo == [] && Receivers(recipients, copies, sender, roster) == {})
    ensures
      var r := Filing(recipients, copies, remoteTo, audience, sender, roster);
      r.Err? ==>
        if r.error == DeliversToNobody then forall name <- recipients + copies :: roster.Knows(name)
        else r.error.UnknownRecipient? && forall name :: name in r.error.names <==>
               && name in recipients + copies
               && name !in roster.actors && name !in roster.groups && name != "everyone"
  {
    var names := recipients + copies;
    forall name ensures name in Missing(names, roster) <==> name in names && !roster.Knows(name) {
      FilterMembers(names, n => !roster.Knows(n), name);
    }
    if name :| name in names && !roster.Knows(name) {
      FilterMembers(names, n => !roster.Knows(n), name);
    } else {
      FilterNone(names, n => !roster.Knows(n));
    }
    FiledOnce(recipients, copies, sender, roster);
    var all := Alphabetical(ReachedBy(recipients, sender, roster))
      + Alphabetical(AlsoReached(recipients, copies, sender, roster));
    assert all == [] <==> Receivers(recipients, copies, sender, roster) == {} by {
      if all != [] {
        assert all[0] in Receivers(recipients, copies, sender, roster);
      }
    }
  }

  /** `rules.recipients_of` of a stored message. */
  function RecipientsOf(record: Record, roster: Roster): set<string> {
    ReachedBy(record.to + record.cc, record.sender, roster)
  }

  /** No actor answers to a group's name or to `everyone`, and group members are actors. */
  ghost predicate NamesApart(roster: Roster) {
    && roster.actors !! roster.groups.Keys && EVERYONE !in roster.actors
    && forall group <- roster.groups :: roster.groups[group] <= roster.actors
  }

  /** Whoever a message was filed for finds it, and nobody else: the rule that reads it back
      agrees with the rule that filed it. */
  lemma ReadersAgree(
      recipients: seq<string>, copies: seq<string>, remoteTo: seq<string>, audience: seq<string>, sender: string,
      roster: Roster)
    requires NamesApart(roster) && forall uri <- remoteTo :: !roster.Knows(uri) && uri != sender
    requires sender in recipients + copies ==> sender in roster.actors
    requires Filing(recipients, copies, remoteTo, audience, sender, roster).Ok?
    ensures RecipientsOf(Filing(recipients, copies, remoteTo, audience, sender, roster).value, roster) ==
              Receivers(recipients, copies, sender, roster)
  {
    var record := Filing(recipients, copies, remoteTo, audience, sender, roster).value;
    var receivers := Receivers(recipients, copies, sender, roster);
    FiledFor(recipients, copies, remoteTo, audience, sender, roster);
    ReceiversAreActors(recipients, copies, sender, roster);
    forall who ensures who in RecipientsOf(record, roster) <==> who in receivers {
      ReadBack(record.to + record.cc, sender, receivers, roster, who);
    }
  }

  lemma FiledFor(
      recipients: seq<string>, copies: seq<string>, remoteTo: seq<string>, audience: seq<string>, sender: string,
      roster: Roster)
    requires Filing(recipients, copies, remoteTo, audience, sender, roster).Ok?
    ensures
      var record := Filing(recipients, copies, remoteTo, audience, sender, roster).value;
      && record.sender == sender
      && forall name :: name in record.to + record.cc <==>
                          name in remoteTo || name in Receivers(recipients, copies, sender, roster)
  {
    FiledOnce(recipients, copies, sender, roster);
  }

  lemma ReceiversAreActors(recipients: seq<string>, copies: seq<string>, sender: string, roster: Roster)
    requires NamesApart(roster) && (sender in recipients + copies ==> sender in roster.actors)
    ensures forall who <- Receivers(recipients, copies, sender, roster) ::
              who in roster.actors && Copies(who, roster) == {who}
  {
    forall who | who in Receivers(recipients, copies, sender, roster) ensures who in roster.actors {
      Reaches(recipients, copies, sender, roster, who);
    }
  }

  lemma ReadBack(names: seq<string>, sender: string, receivers: set<string>, roster: Roster, who: string)
    requires forall one <- receivers :: Copies(one, roster) == {one} && one in names
    requires forall name <- names :: name in receivers || (Copies(name, roster) == {} && name != sender)
    ensures who in ReachedBy(names, sender, roster) <==> who in receivers
  {
    AudienceMembers(names, roster, who);
  }

  lemma KeptAs(
      recipients: seq<string>, copies: seq<string>, remoteTo: seq<string>, audience: seq<string>, sender: string,
      roster: Roster, broken: Option<string>)
    requires Kept(recipients, copies, remoteTo, audience, sender, roster, broken).Ok?
    ensures
      var record := Kept(recipients, copies, remoteTo, audience, sender, roster, broken).value;
      var reached := Alphabetical(ReachedBy(recipients, sender, roster));
      && record.sender == sender && record.to == reached + remoteTo
      && reached <= record.to && record.to[|reached|..] == remoteTo
      && record.cc == Alphabetical(AlsoReached(recipients, copies, sender, roster))
      && record.audience == (if audience != [] then audience else recipients + copies)
  {
  }

  // --- after the fork ----------------------------------------------------------------

  lemma BareNameIsItsOwn(text: string, a: Address, hubName: string)
    requires Parse(text) == Ok(a)
    ensures LocalName(hubName)(a.name) == Ok(a.name)
  {
    ParsedIsCanonical(text);
    BareNameParses(a.name);
  }

  lemma EachAppended<T, U, E>(parse: T -> Result<U, E>, texts: seq<T>, parsed: seq<U>, text: T)
    requires Each(parse, texts) == Ok(parsed) && parse(text).Ok?
    ensures Each(parse, texts + [text]) == Ok(parsed + [parse(text).value])
  {
    assert (texts + [text])[..|texts|] == texts;
  }

  /** A list the fork found all local reads as the local names it gave. */
  lemma {:induction false} AllLocalRead(texts: seq<string>, parsed: seq<Address>, hubName: string)
    requires Each(Parse, texts) == Ok(parsed) && Side(parsed, hubName, false) == []
    ensures Each(LocalName(hubName), texts) == Ok(Side(parsed, hubName, true))
  {
    if texts != [] {
      AllLocalRead(texts[..|texts| - 1], parsed[..|parsed| - 1], hubName);
    }
  }

  lemma {:induction false} OwnNamesRead<E>(read: string -> Result<string, E>, parsed: seq<Address>, hubName: string)
    requires forall a <- parsed :: read(a.name) == Ok(a.name)
    ensures var names := Side(parsed, hubName, true); Each(read, names) == Ok(names)
  {
    if parsed != [] {
      var before, last := parsed[..|parsed| - 1], parsed[|parsed| - 1];
      OwnNamesRead(read, before, hubName);
      if last.IsLocalTo(hubName) {
        EachAppended(read, Side(before, hubName, true), Side(before, hubName, true), last.name);
      } else {
        assert Side(parsed, hubName, true) == Side(before, hubName, true);
      }
    }
  }

  /** The local names the fork gave read as themselves. */
  lemma LocalNamesRead(texts: seq<string>, parsed: seq<Address>, hubName: string)
    requires Each(Parse, texts) == Ok(parsed)
    ensures var names := Side(parsed, hubName, true); Each(LocalName(hubName), names) == Ok(names)
  {
    forall a | a in parsed ensures LocalName(hubName)(a.name) == Ok(a.name) {
      var text := EachFrom(Parse, texts, a);
      BareNameIsItsOwn(text, a, hubName);
    }
    OwnNamesRead(LocalName(hubName), parsed, hubName);
  }

  // --- the local half ----------------------------------------------------------------

  predicate HasScheme(s: string) {
    |s| >= 3 && (s[..3] == "://" || HasScheme(s[1..]))
  }

  predicate SchemeAt(s: string, i: nat) {
    i + 3 <= |s| && s[i] == ':' && s[i + 1] == '/' && s[i + 2] == '/'
  }

  lemma {:induction false} SchemeExactlyWhen(s: string)
    ensures HasScheme(s) <==> exists i: nat :: SchemeAt(s, i)
  {
    if |s| >= 3 {
      SchemeExactlyWhen(s[1..]);
      assert s[..3] == "://" <==> SchemeAt(s, 0);
      assert forall i: nat :: SchemeAt(s[1..], i) <==> SchemeAt(s, i + 1);
      assert forall i: nat :: i > 0 && SchemeAt(s, i) ==> SchemeAt(s[1..], i - 1);
    }
  }

  /** Actor names, group names and members hold no `://`, as naming rules give them. */
  ghost predicate PlainRoster(roster: Roster) {
    && (forall name <- roster.actors :: !HasScheme(name))
    && (forall group <- roster.groups :: !HasScheme(group) && forall name <- roster.groups[group] :: !HasScheme(name))
  }

  lemma {:induction false} NoColonNoScheme(s: string)
    requires ':' !in s
    ensures !HasScheme(s)
  {
    if |s| >= 3 {
      assert s[0] in s;
      NoColonNoScheme(s[1..]);
    }
  }

  lemma ReceiversArePlain(recipients: seq<string>, copies: seq<string>, sender: string, roster: Roster)
    requires PlainRoster(roster) && forall name <- recipients + copies :: roster.Knows(name)
    ensures forall who <- Receivers(recipients, copies, sender, roster) :: !HasScheme(who)
  {
    NoColonNoScheme(EVERYONE);
    forall who | who in Receivers(recipients, copies, sender, roster) ensures !HasScheme(who) {
      Reaches(recipients, copies, sender, roster, who);
    }
  }
}
