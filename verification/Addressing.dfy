/** `addressing.py`: `name@hub`, and the fork between this mailbox and other ones.  A text is
    parsed by its one `@`, both parts trimmed and in lower case; a bare name is held here.
    The fork goes through a list in order and stops at the first malformed address. */
module Addressing {
  import opened Text
  import opened Wrappers

  const LOCAL := "local"

  datatype Address = Address(name: string, hub: string) {
    function Print(): string {
      name + "@" + hub
    }

    predicate IsLocalTo(hubName: string) {
      hub == LOCAL || hub == hubName
    }
  }

  datatype Malformed = EmptyAddress | ManyAts | NoName | NoHub

  /** `parse` with the default hub. */
  function Parse(text: string): Result<Address, Malformed> {
    var raw := Strip(text);
    if raw == "" then Err(EmptyAddress)
    else if multiset(raw)['@'] > 1 then Err(ManyAts)
    else
      var parts := Partition(raw, '@');
      var name, hub := Strip(parts.0), Strip(parts.1);
      if name == "" then Err(NoName)
      else if '@' in raw && hub == "" then Err(NoHub)
      else Ok(Address(Lower(name), Lower(if hub != "" then hub else LOCAL)))
  }

  lemma LowerTwice(s: string)
    ensures Lower(Lower(s)) == Lower(s)
    ensures Stripped(s) ==> Stripped(Lower(s))
    ensures '@' !in s ==> '@' !in Lower(s)
  {
    if '@' in Lower(s) {
      var i :| 0 <= i < |s| && Lower(s)[i] == '@';
      assert s[i] == '@';
    }
  }

  lemma AfterTheOnlyAt(raw: string)
    requires multiset(raw)['@'] <= 1
    ensures '@' !in Partition(raw, '@').1
  {
    var (before, after) := Partition(raw, '@');
    if '@' in raw {
      assert multiset(raw) == multiset(before) + multiset(['@']) + multiset(after);
      assert '@' in after <==> multiset(after)['@'] > 0;
    }
  }

  /** What both parts of a parsed address look like. */
  ghost predicate CanonicalPart(s: string) {
    s != "" && Stripped(s) && '@' !in s && Lower(s) == s
  }

  ghost predicate Canonical(a: Address) {
    CanonicalPart(a.name) && CanonicalPart(a.hub)
  }

  lemma PartIsCanonical(part: string)
    requires '@' !in part && Strip(part) != ""
    ensures CanonicalPart(Lower(Strip(part)))
  {
    LowerTwice(Strip(part));
  }

  lemma LocalIsCanonical()
    ensures CanonicalPart(Lower(LOCAL))
  {
    LowerTwice(LOCAL);
  }

  lemma ParsedIsCanonical(text: string)
    requires Parse(text).Ok?
    ensures Canonical(Parse(text).value)
  {
    var parts := Partition(Strip(text), '@');
    AfterTheOnlyAt(Strip(text));
    PartIsCanonical(parts.0);
    if Strip(parts.1) != "" {
      PartIsCanonical(parts.1);
    } else {
      LocalIsCanonical();
    }
  }

  lemma LowerLocal()
    ensures Lower(LOCAL) == LOCAL
  {
    assert forall c <- LOCAL :: LowerChar(c) == c;
  }

  lemma NoAt(name: string)
    requires '@' !in name
    ensures multiset(name)['@'] == 0
  {
  }

  /** A bare name in canonical form is held here under itself. */
  lemma BareNameParses(name: string)
    requires CanonicalPart(name)
    ensures Parse(name) == Ok(Address(name, LOCAL))
  {
    StrippedStays(name);
    NoAt(name);
    assert Partition(name, '@') == (name, "") && Strip("") == "";
    LowerLocal();
  }

  lemma CanonicalParses(a: Address)
    requires Canonical(a)
    ensures Parse(a.Print()) == Ok(a)
  {
    var text := a.Print();
    assert text[0] == a.name[0] && text[|text| - 1] == a.hub[|a.hub| - 1];
    StrippedStays(text);
    assert text == a.name + ['@'] + a.hub;
    PartitionAt(a.name, '@', a.hub);
    StrippedStays(a.name);
    StrippedStays(a.hub);
    OnlyAt(a.name, a.hub);
  }

  lemma OnlyAt(name: string, hub: string)
    requires '@' !in name && '@' !in hub
    ensures multiset(name + ['@'] + hub)['@'] == 1
  {
    assert multiset(name + ['@'] + hub) == multiset(name) + multiset(['@']) + multiset(hub);
    assert multiset(name)['@'] == 0 && multiset(hub)['@'] == 0;
  }

  /** Printing and parsing again gives the same address, for every text `parse` accepts. */
  lemma PrintedParsesBack(text: string)
    requires Parse(text).Ok?
    ensures Parse(Parse(text).value.Print()) == Parse(text)
  {
    ParsedIsCanonical(text);
    CanonicalParses(Parse(text).value);
  }

  /** `@local` in any case and spacing is held by every hub, whatever its name. */
  lemma LocalStaysLocal(name: string, hub: string, hubName: string)
    requires '@' !in name && '@' !in hub && Lower(Strip(hub)) == LOCAL
    requires Parse(name + "@" + hub).Ok?
    ensures Parse(name + "@" + hub).value.IsLocalTo(hubName)
  {
    var text := name + "@" + hub;
    var raw := Strip(text);
    StripAround(name, hub);
    PartitionAt(StripLeft(name), '@', StripRight(hub));
    StripRightThenLeft(hub);
  }

  lemma {:induction false} StripLeftAround(name: string, rest: string)
    requires rest != "" && !IsSpace(rest[0])
    ensures StripLeft(name + rest) == StripLeft(name) + rest
  {
    if name == "" {
      assert name + rest == rest;
    } else if IsSpace(name[0]) {
      assert (name + rest)[1..] == name[1..] + rest;
      StripLeftAround(name[1..], rest);
    }
  }

  lemma {:induction false} StripRightAround(rest: string, hub: string)
    requires rest != "" && !IsSpace(rest[|rest| - 1])
    ensures StripRight(rest + hub) == rest + StripRight(hub)
  {
    var all := rest + hub;
    if hub == "" {
      assert all == rest;
    } else if IsSpace(hub[|hub| - 1]) {
      assert all[..|all| - 1] == rest + hub[..|hub| - 1];
      StripRightAround(rest, hub[..|hub| - 1]);
    }
  }

  lemma StripAround(name: string, hub: string)
    ensures Strip(name + "@" + hub) == StripLeft(name) + ['@'] + StripRight(hub)
  {
    assert name + "@" + hub == name + ("@" + hub);
    StripLeftAround(name, "@" + hub);
    assert StripLeft(name) + ("@" + hub) == (StripLeft(name) + "@") + hub;
    StripRightAround(StripLeft(name) + "@", hub);
  }

  lemma {:induction false} StripRightThenLeft(s: string)
    ensures Strip(StripRight(s)) == Strip(s)
  {
    if s != "" && IsSpace(s[0]) {
      LeadingSpace(s);
      StripRightThenLeft(s[1..]);
    } else {
      assert StripLeft(s) == s;
      StripRightTwice(s);
    }
  }

  lemma {:induction false} StripRightTwice(s: string)
    ensures StripRight(StripRight(s)) == StripRight(s)
    ensures s != "" && !IsSpace(s[0]) ==> StripRight(s) != "" && StripRight(s)[0] == s[0]
  {
    if s != "" && IsSpace(s[|s| - 1]) {
      StripRightTwice(s[..|s| - 1]);
    }
  }

  lemma {:induction false} LeadingSpace(s: string)
    requires s != "" && IsSpace(s[0])
    ensures Strip(StripRight(s)) == Strip(StripRight(s[1..]))
  {
    if IsSpace(s[|s| - 1]) {
      if |s| > 1 {
        assert s[..|s| - 1][1..] == s[1..][..|s[1..]| - 1];
        LeadingSpace(s[..|s| - 1]);
      }
    }
  }

  lemma StripLeftTwice(s: string)
    ensures Strip(StripLeft(s)) == Strip(s)
  {
    assert StripLeft(StripLeft(s)) == StripLeft(s);
  }

  /** What a text with one `@` is read as: both parts trimmed and in lower case, and each of
      them needed. */
  lemma ParsesAs(name: string, hub: string)
    requires '@' !in name && '@' !in hub
    ensures Parse(name + "@" + hub) ==
              if Strip(name) == "" then Err(NoName)
              else if Strip(hub) == "" then Err(NoHub)
              else Ok(Address(Lower(Strip(name)), Lower(Strip(hub))))
  {
    StripAround(name, hub);
    PartitionAt(StripLeft(name), '@', StripRight(hub));
    StripLeftTwice(name);
    StripRightThenLeft(hub);
    assert '@' !in StripLeft(name) && '@' !in StripRight(hub);
    OnlyAt(StripLeft(name), StripRight(hub));
  }

  /** A text without one is a name held here. */
  lemma BareParsesAs(name: string)
    requires '@' !in name
    ensures Parse(name) ==
              if Strip(name) == "" then Err(EmptyAddress) else Ok(Address(Lower(Strip(name)), "local"))
  {
    var raw := Strip(name);
    NoAt(raw);
    assert Partition(raw, '@') == (raw, "") && Strip("") == "";
    StrippedStays(raw);
    LowerLocal();
  }

  /** A text with more is refused. */
  lemma ManyAtsAreRefused(text: string)
    requires multiset(text)['@'] > 1
    ensures Parse(text) == Err(ManyAts)
  {
    var left, right := StripTakesTheEnds(text);
    assert multiset(text) == multiset(left) + multiset(Strip(text)) + multiset(right);
    assert '@' !in left && '@' !in right;
    NoAt(left);
    NoAt(right);
  }

  // --- the fork ----------------------------------------------------------------------

  /** The results of a parser over a list, or its first error. */
  function Each<T, U, E>(parse: T -> Result<U, E>, texts: seq<T>): (r: Result<seq<U>, E>)
    ensures r.Ok? ==> |r.value| == |texts|
  {
    if texts == [] then Ok([])
    else match Each(parse, texts[..|texts| - 1]) {
      case Err(e) => Err(e)
      case Ok(before) =>
        match parse(texts[|texts| - 1]) {
          case Err(e) => Err(e)
          case Ok(a) => Ok(before + [a])
        }
    }
  }

  lemma EachOneMore<T, U, E>(parse: T -> Result<U, E>, texts: seq<T>, i: nat, parsed: seq<U>)
    requires i < |texts| && Each(parse, texts[..i]) == Ok(parsed)
    ensures parse(texts[i]).Ok? ==> Each(parse, texts[..i + 1]) == Ok(parsed + [parse(texts[i]).value])
    ensures parse(texts[i]).Err? ==> Each(parse, texts) == Err(parse(texts[i]).error)
  {
    assert texts[..i + 1][..i] == texts[..i];
    if parse(texts[i]).Err? {
      ErrorStops(parse, texts, i + 1);
    }
  }

  lemma {:induction false} ErrorStops<T, U, E>(parse: T -> Result<U, E>, texts: seq<T>, i: nat)
    requires i <= |texts| && Each(parse, texts[..i]).Err?
    ensures Each(parse, texts).Err? && Each(parse, texts).error == Each(parse, texts[..i]).error
  {
    if i == |texts| {
      assert texts[..i] == texts;
    } else {
      var before := texts[..|texts| - 1];
      assert before[..i] == texts[..i];
      ErrorStops(parse, before, i);
    }
  }

  lemma {:induction false} EachFrom<T, U, E>(parse: T -> Result<U, E>, texts: seq<T>, a: U) returns (text: T)
    requires Each(parse, texts).Ok? && a in Each(parse, texts).value
    ensures text in texts && parse(text) == Ok(a)
  {
    var before, last := texts[..|texts| - 1], texts[|texts| - 1];
    assert texts == before + [last];
    if a in Each(parse, before).value {
      text := EachFrom(parse, before, a);
    } else {
      text := last;
    }
  }

  /** How an address is written after the fork: a bare name here, in full elsewhere. */
  function Written(a: Address, hubName: string): string {
    if a.IsLocalTo(hubName) then a.name else a.Print()
  }

  /** The addresses on one side of the fork, as written. */
  function Side(parsed: seq<Address>, hubName: string, local: bool): seq<string> {
    if parsed == [] then []
    else
      var last := parsed[|parsed| - 1];
      Side(parsed[..|parsed| - 1], hubName, local)
        + if last.IsLocalTo(hubName) == local then [Written(last, hubName)] else []
  }

  /** `split_recipients`. */
  function Split(addresses: seq<string>, hubName: string): Result<(seq<string>, seq<string>), Malformed> {
    match Each(Parse, addresses)
    case Err(e) => Err(e)
    case Ok(parsed) => Ok((Side(parsed, hubName, true), Side(parsed, hubName, false)))
  }

  lemma SideOneMore(parsed: seq<Address>, a: Address, hubName: string, local: bool)
    ensures Side(parsed + [a], hubName, local) ==
              Side(parsed, hubName, local) + if a.IsLocalTo(hubName) == local then [Written(a, hubName)] else []
  {
    assert (parsed + [a])[..|parsed|] == parsed;
  }

  method SplitRecipients(addresses: seq<string>, hubName: string)
    returns (r: Result<(seq<string>, seq<string>), Malformed>)
    ensures r == Split(addresses, hubName)
  {
    var local, remote: seq<string> := [], [];
    ghost var parsed: seq<Address> := [];
    for i := 0 to |addresses|
      invariant Each(Parse, addresses[..i]) == Ok(parsed)
      invariant local == Side(parsed, hubName, true)
      invariant remote == Side(parsed, hubName, false)
    {
      EachOneMore(Parse, addresses, i, parsed);
      var one := Parse(addresses[i]);
      if one.Err? {
        return Err(one.error);
      }
      var address := one.value;
      SideOneMore(parsed, address, hubName, true);
      SideOneMore(parsed, address, hubName, false);
      if address.IsLocalTo(hubName) {
        local := local + [address.name];
      } else {
        remote := remote + [address.Print()];
      }
      parsed := parsed + [address];
    }
    assert addresses[..|addresses|] == addresses;
    return Ok((local, remote));
  }

  /** Putting the two halves back together by which side each address went to. */
  function Reunited(locals: seq<bool>, local: seq<string>, remote: seq<string>): seq<string> {
    if locals == [] then []
    else
      var last := |locals| - 1;
      if locals[last] then
        if local == [] then [] else Reunited(locals[..last], local[..|local| - 1], remote) + [local[|local| - 1]]
      else
        if remote == [] then [] else Reunited(locals[..last], local, remote[..|remote| - 1]) + [remote[|remote| - 1]]
  }

  function Sides(parsed: seq<Address>, hubName: string): (r: seq<bool>)
    ensures |r| == |parsed|
  {
    seq(|parsed|, i requires 0 <= i < |parsed| => parsed[i].IsLocalTo(hubName))
  }

  function AllWritten(parsed: seq<Address>, hubName: string): (r: seq<string>)
    ensures |r| == |parsed|
  {
    seq(|parsed|, i requires 0 <= i < |parsed| => Written(parsed[i], hubName))
  }

  /** The fork is an order-preserving partition: the two halves interleave back to the whole
      list, every address once. */
  lemma {:induction false} HalvesReunite(parsed: seq<Address>, hubName: string)
    ensures |Side(parsed, hubName, true)| + |Side(parsed, hubName, false)| == |parsed|
    ensures Reunited(Sides(parsed, hubName), Side(parsed, hubName, true), Side(parsed, hubName, false))
              == AllWritten(parsed, hubName)
  {
    if parsed != [] {
      var before, last := parsed[..|parsed| - 1], parsed[|parsed| - 1];
      HalvesReunite(before, hubName);
      assert Sides(parsed, hubName)[..|parsed| - 1] == Sides(before, hubName);
      assert AllWritten(parsed, hubName) == AllWritten(before, hubName) + [Written(last, hubName)];
      var side := last.IsLocalTo(hubName);
      var mine := Side(parsed, hubName, side);
      assert mine[..|mine| - 1] == Side(before, hubName, side);
      assert Side(parsed, hubName, !side) == Side(before, hubName, !side);
    }
  }

  lemma {:induction false} EachGives<T, U, E>(parse: T -> Result<U, E>, texts: seq<T>, text: T)
    requires Each(parse, texts).Ok? && text in texts
    ensures parse(text).Ok? && parse(text).value in Each(parse, texts).value
  {
    var before, last := texts[..|texts| - 1], texts[|texts| - 1];
    assert texts == before + [last];
    if text in before {
      EachGives(parse, before, text);
    }
  }

  lemma {:induction false} SideMembers(parsed: seq<Address>, hubName: string, local: bool, text: string)
    ensures text in Side(parsed, hubName, local) <==>
              exists a <- parsed :: a.IsLocalTo(hubName) == local && text == Written(a, hubName)
  {
    if parsed != [] {
      var before, last := parsed[..|parsed| - 1], parsed[|parsed| - 1];
      assert parsed == before + [last];
      SideMembers(before, hubName, local, text);
    }
  }

  lemma SidesByHub<E>(parse: string -> Result<Address, E>, addresses: seq<string>, hubName: string, text: string)
    requires Each(parse, addresses).Ok?
    ensures text in Side(Each(parse, addresses).value, hubName, true) <==>
              exists given <- addresses :: parse(given).Ok? && text == parse(given).value.name
                                           && parse(given).value.hub in {"local", hubName}
    ensures text in Side(Each(parse, addresses).value, hubName, false) <==>
              exists given <- addresses :: parse(given).Ok? && parse(given).value.hub !in {"local", hubName}
                                           && text == parse(given).value.name + "@" + parse(given).value.hub
  {
    var parsed := Each(parse, addresses).value;
    SideMembers(parsed, hubName, true, text);
    SideMembers(parsed, hubName, false, text);
    forall given | given in addresses ensures parse(given).Ok? && parse(given).value in parsed {
      EachGives(parse, addresses, given);
    }
    forall a | a in parsed ensures exists given <- addresses :: parse(given) == Ok(a) {
      var given := EachFrom(parse, addresses, a);
    }
  }

  /** Which half an address goes to, and how it is written there: by its name alone when its
      hub is `local` or this one, in full otherwise. */
  lemma SplitByHub(addresses: seq<string>, hubName: string, text: string)
    requires Split(addresses, hubName).Ok?
    ensures text in Split(addresses, hubName).value.0 <==>
              exists given <- addresses :: Parse(given).Ok? && text == Parse(given).value.name
                                           && Parse(given).value.hub in {"local", hubName}
    ensures text in Split(addresses, hubName).value.1 <==>
              exists given <- addresses :: Parse(given).Ok? && Parse(given).value.hub !in {"local", hubName}
                                           && text == Parse(given).value.name + "@" + Parse(given).value.hub
  {
    SidesByHub(Parse, addresses, hubName, text);
  }

  lemma {:induction false} RemoteCameFrom(parsed: seq<Address>, hubName: string, text: string) returns (a: Address)
    requires text in Side(parsed, hubName, false)
    ensures a in parsed && !a.IsLocalTo(hubName) && text == a.Print()
  {
    var before, last := parsed[..|parsed| - 1], parsed[|parsed| - 1];
    if text in Side(before, hubName, false) {
      a := RemoteCameFrom(before, hubName, text);
    } else {
      a := last;
    }
  }

  /** Nothing in the remote half is held here, and nothing in it says `@local`. */
  lemma RemoteIsRemote(addresses: seq<string>, hubName: string, text: string) returns (a: Address)
    requires Split(addresses, hubName).Ok? && text in Split(addresses, hubName).value.1
    ensures Parse(text) == Ok(a) && !a.IsLocalTo(hubName) && a.hub != LOCAL
    ensures exists given <- addresses :: Parse(given) == Ok(a)
  {
    a := RemoteCameFrom(Each(Parse, addresses).value, hubName, text);
    var given := EachFrom(Parse, addresses, a);
    PrintedParsesBack(given);
  }
}
