/** The writers of the machine-wide file in `client.py`. */
module MachineConfig {

  /* `write_global`, `unset_global` and `_set_machine_hub`.  A file that TOML cannot read is
     read as an empty one, so the next writer replaces it whole. */

  import opened Wrappers
  import opened Text
  import opened ProjectToml
  import opened ConfigWriters
  import Shared = SharedFile
  import L = Locking

  datatype Machine = Good(settings: Table) | Bad

  /** What TOML makes of keys that are not plain: anything. */
  type OddKeys = Table -> Machine

  datatype MachineWriter =
    | WriteGlobal(settings: map<string, string>)
    | UnsetGlobal(name: string)
    | SetMachineHub(hub: string)

  /** `load_global`. */
  function Load(f: Machine): Table {
    if f.Good? then f.settings else map[]
  }

  function HubOf(data: Table): string {
    Strip(TextOf(Field(data, "hub")))
  }

  function MachineHub(f: Machine): string {
    HubOf(Load(f))
  }

  predicate LegibleData(data: Table) {
    forall key <- data :: FitsPair((key, data[key].Printed()))
  }

  predicate PlainKeys(data: Table) {
    forall key <- data :: Plain(key)
  }

  /** `_render_global` prints every value as a text. */
  function AsTexts(data: Table): Table {
    map key | key in data :: Str(data[key].Printed())
  }

  /** What the next reader finds after a render. */
  function RenderedGlobal(odd: OddKeys, data: Table): Machine {
    if LegibleData(data) then Good(AsTexts(data)) else if PlainKeys(data) then Bad else odd(data)
  }

  // --- the text of the file ----------------------------------------------------------

  ghost predicate Lines(order: seq<string>, data: Table) {
    && (forall key :: key in order <==> key in data)
    && (forall i, j :: 0 <= i < j < |order| ==> order[i] != order[j])
  }

  function PairsOf(order: seq<string>, data: Table): Pairs
    requires forall key <- order :: key in data
  {
    seq(|order|, i requires 0 <= i < |order| => (order[i], data[order[i]].Printed()))
  }

  function LoadedGlobal(read: Option<Doc>): Machine {
    match read
    case None => Bad
    case Some(doc) => Good(Texts(doc.top))
  }

  lemma {:induction false} PutAllMisses(read: Entry, settings: Pairs, key: string)
    requires forall p <- settings :: p.0 != key
    ensures key in PutAll(read, settings) <==> key in read
    ensures key in read ==> PutAll(read, settings)[key] == read[key]
    decreases |settings|
  {
    if settings != [] {
      assert settings[0] in settings;
      PutAllMisses(read[settings[0].0 := settings[0].1], settings[1..], key);
    }
  }

  lemma {:induction false} PutAllFinds(read: Entry, settings: Pairs, p: (string, string))
    requires DistinctKeys(settings) && p in settings
    ensures p.0 in PutAll(read, settings) && PutAll(read, settings)[p.0] == p.1
    decreases |settings|
  {
    var next := read[settings[0].0 := settings[0].1];
    if p == settings[0] {
      PutAllMisses(next, settings[1..], p.0);
    } else {
      PutAllFinds(next, settings[1..], p);
    }
  }

  lemma PairsFit(order: seq<string>, data: Table)
    requires Lines(order, data)
    ensures DistinctKeys(PairsOf(order, data))
    ensures (forall p <- PairsOf(order, data) :: FitsPair(p)) <==> LegibleData(data)
    ensures (forall p <- PairsOf(order, data) :: Plain(p.0)) <==> PlainKeys(data)
  {
    var pairs := PairsOf(order, data);
    forall key | key in data ensures (key, data[key].Printed()) in pairs {
      var i :| 0 <= i < |order| && order[i] == key;
      assert pairs[i] == (key, data[key].Printed());
    }
    forall p | p in pairs ensures p.0 in data && p.1 == data[p.0].Printed() {
    }
  }

  lemma PairsRead(order: seq<string>, data: Table)
    requires Lines(order, data)
    ensures Texts(PutAll(map[], PairsOf(order, data))) == AsTexts(data)
  {
    var pairs := PairsOf(order, data);
    PairsFit(order, data);
    forall key
      ensures key in PutAll(map[], pairs) <==> key in data
      ensures key in data && key in PutAll(map[], pairs) ==> PutAll(map[], pairs)[key] == data[key].Printed()
    {
      if key in data {
        var i :| 0 <= i < |order| && order[i] == key;
        assert pairs[i] == (key, data[key].Printed());
        PutAllFinds(map[], pairs, pairs[i]);
      } else {
        PutAllMisses(map[], pairs, key);
      }
    }
  }

  /** `RenderedGlobal` is what the text of the file says: for plain keys, reading the text
      `_render_global` writes, in any order of its lines, gives exactly that file. */
  lemma GlobalReadsBack(odd: OddKeys, above: seq<string>, data: Table, order: seq<string>)
    requires Comments(above) && Lines(order, data) && PlainKeys(data)
    ensures LoadedGlobal(Read(Terminated(above + PairLines(PairsOf(order, data))))) == RenderedGlobal(odd, data)
  {
    PairsFit(order, data);
    GlobalRoundTrip(above, PairsOf(order, data));
    PairsRead(order, data);
  }

  // --- the writers -------------------------------------------------------------------

  /** What a writer renders, or None when it writes nothing. */
  function GlobalWrites(w: MachineWriter, data: Table): Option<Table> {
    match w
    case WriteGlobal(settings) => Some(data + Texts(settings))
    case UnsetGlobal(name) => if name in data then Some(data - {name}) else None
    case SetMachineHub(hub) =>
      if HubOf(data) != "" && HubOf(data) != hub then None else Some(data["hub" := Str(hub)])
  }

  function MachineEffect(odd: OddKeys, w: MachineWriter, f: Machine): Option<Machine> {
    match GlobalWrites(w, Load(f))
    case None => None
    case Some(data) => Some(RenderedGlobal(odd, data))
  }

  function MachineEffects(odd: OddKeys): (MachineWriter, Machine) -> Option<Machine> {
    (w: MachineWriter, f: Machine) => MachineEffect(odd, w, f)
  }

  class MachineFile {
    var file: Machine
    const odd: OddKeys

    constructor (file: Machine, odd: OddKeys)
      ensures this.file == file && this.odd == odd
    {
      this.file := file;
      this.odd := odd;
    }

    /** `_set_machine_hub` with the lock held.  A hub that is set, and another than the one
        offered, stays with the whole file. */
    method SetHub(hub: string)
      modifies this
      ensures file == Shared.Written(MachineEffects(odd), SetMachineHub(hub), old(file), old(file))
      ensures MachineHub(old(file)) != "" && MachineHub(old(file)) != hub ==> file == old(file)
    {
      var data := if file.Good? then file.settings else map[];
      var current := Strip(TextOf(Field(data, "hub")));
      if current != "" && current != hub {
        return;
      }
      data := data + map["hub" := Str(hub)];
      assert data == Load(old(file))["hub" := Str(hub)];
      file := RenderedGlobal(odd, data);
    }
  }

  // --- what the writers keep ---------------------------------------------------------

  /** What the caller of a writer can check first. */
  predicate CleanGlobal(w: MachineWriter, f: Machine) {
    match w
    case WriteGlobal(settings) => forall key <- settings :: FitsPair((key, settings[key]))
    case UnsetGlobal(_) => true
    case SetMachineHub(hub) => Safe(hub)
  }

  predicate PlainWriter(w: MachineWriter) {
    w.WriteGlobal? ==> forall key <- w.settings :: Plain(key)
  }

  /** The writer could change this setting. */
  predicate Sets(w: MachineWriter, key: string) {
    match w
    case WriteGlobal(settings) => key in settings
    case UnsetGlobal(name) => name == key
    case SetMachineHub(_) => key == "hub"
  }

  predicate Shows(f: Machine, key: string, value: string) {
    f.Good? && LegibleData(f.settings) && key in f.settings && f.settings[key].Printed() == value
  }

  predicate Gone(f: Machine, key: string) {
    (f.Good? ==> LegibleData(f.settings)) && key !in Load(f)
  }

  lemma HubIsBare()
    ensures Bare("hub") && Plain("hub")
  {
    BareIsPlain("hub");
  }

  lemma GlobalIsLegibleExactlyWhenClean(w: MachineWriter, f: Machine)
    requires LegibleData(Load(f)) && GlobalWrites(w, Load(f)).Some?
    ensures LegibleData(GlobalWrites(w, Load(f)).value) <==> CleanGlobal(w, f)
    ensures PlainWriter(w) ==> PlainKeys(GlobalWrites(w, Load(f)).value)
  {
    var data := GlobalWrites(w, Load(f)).value;
    HubIsBare();
    forall key | key in data && key in Load(f) ensures Plain(key) {
      BareIsPlain(key);
    }
    match w {
      case WriteGlobal(settings) =>
        forall key | key in settings ensures key in data && data[key].Printed() == settings[key] {
        }
      case UnsetGlobal(name) =>
      case SetMachineHub(hub) =>
        assert "hub" in data && data["hub"].Printed() == hub;
    }
  }

  lemma CleanGlobalWrite(odd: OddKeys, w: MachineWriter, f: Machine)
    requires LegibleData(Load(f)) && CleanGlobal(w, f) && GlobalWrites(w, Load(f)).Some?
    ensures MachineEffect(odd, w, f) == Some(Good(AsTexts(GlobalWrites(w, Load(f)).value)))
  {
    GlobalIsLegibleExactlyWhenClean(w, f);
  }

  /** A clean machine-wide write merges: every setting it names takes the new value, every other
      keeps the old one. */
  lemma GlobalWriteMerges(odd: OddKeys, settings: map<string, string>, f: Machine, key: string)
    requires LegibleData(Load(f)) && CleanGlobal(WriteGlobal(settings), f)
    ensures
      match MachineEffect(odd, WriteGlobal(settings), f)
      case Some(Good(after)) =>
        && (key in after <==> key in settings || key in Load(f))
        && (key in after ==> after[key] == Str(if key in settings then settings[key] else Load(f)[key].Printed()))
      case _ => false
  {
    CleanGlobalWrite(odd, WriteGlobal(settings), f);
  }

  /** A machine-wide unset writes exactly when the setting is there, and removes that one. */
  lemma GlobalUnsetRemovesOne(odd: OddKeys, name: string, f: Machine, key: string)
    requires LegibleData(Load(f))
    ensures
      match MachineEffect(odd, UnsetGlobal(name), f)
      case None => name !in Load(f)
      case Some(Good(after)) =>
        && name in Load(f)
        && (key in after <==> key in Load(f) && key != name)
        && (key in after ==> after[key] == Str(Load(f)[key].Printed()))
      case _ => false
  {
    if name in Load(f) {
      CleanGlobalWrite(odd, UnsetGlobal(name), f);
    }
  }

  lemma SettingStaysUnlessUnclean(odd: OddKeys, w: MachineWriter, f: Machine, key: string, value: string)
    requires !Sets(w, key) && PlainWriter(w) && MachineEffect(odd, w, f).Some?
    ensures Shows(f, key, value) ==>
              if CleanGlobal(w, f) then Shows(MachineEffect(odd, w, f).value, key, value)
              else Gone(MachineEffect(odd, w, f).value, key)
    ensures Gone(f, key) ==> Gone(MachineEffect(odd, w, f).value, key)
  {
    if LegibleData(Load(f)) {
      GlobalIsLegibleExactlyWhenClean(w, f);
      var data := GlobalWrites(w, Load(f)).value;
      assert key in data <==> key in Load(f);
      assert LegibleData(data) ==> LegibleData(AsTexts(data));
    }
  }

  ghost predicate PlainFrom(log: seq<(nat, MachineWriter)>, i: nat) {
    forall j :: i <= j < |log| ==> PlainWriter(log[j].1)
  }

  /** A machine-wide setting, the shared token for one, that no later writer names is still
      there exactly when every later write was clean.  After one that was not, the file
      cannot be read, the next writer starts from nothing, and the setting is gone. */
  lemma SettingSurvivesExactlyWhen(
      odd: OddKeys, r: Shared.Run<MachineWriter, Machine>, i: nat, key: string, value: string)
    requires Shared.Legal(r, MachineEffects(odd))
    requires L.Always(Shared.Locks(r), L.Short) && L.EachStep(Shared.Locks(r), L.Undisturbed)
    requires i <= |r.s.log| && PlainFrom(r.s.log, i)
    requires forall j :: i <= j < |r.s.log| ==> !Sets(r.s.log[j].1, key)
    requires Shows(Shared.Replay(MachineEffects(odd), Shared.First(r).file, r.s.log[..i]), key, value)
    ensures if Shared.EachClean(MachineEffects(odd), CleanGlobal, Shared.First(r).file, r.s.log, i)
            then Shows(r.s.file, key, value) else Gone(r.s.file, key)
  {
    var effect, first, log := MachineEffects(odd), Shared.First(r).file, r.s.log;
    var kept, lost := (f: Machine) => Shows(f, key, value), (f: Machine) => Gone(f, key);
    Shared.Serialises(r, effect);
    forall j, f {:trigger effect(log[j].1, f)} | i <= j < |log| && effect(log[j].1, f).Some?
      ensures kept(f) ==>
                if CleanGlobal(log[j].1, f) then kept(effect(log[j].1, f).value) else lost(effect(log[j].1, f).value)
      ensures lost(f) ==> lost(effect(log[j].1, f).value)
    {
      SettingStaysUnlessUnclean(odd, log[j].1, f, key, value);
    }
    Shared.KeptExactlyWhenClean(effect, CleanGlobal, first, log, i, kept, lost);
  }

  // --- the machine-wide hub ----------------------------------------------------------

  ghost predicate OnlyOffers(log: seq<(nat, MachineWriter)>) {
    forall i :: 0 <= i < |log| ==> log[i].1.SetMachineHub?
  }

  function Offers(log: seq<(nat, MachineWriter)>): seq<string>
    requires OnlyOffers(log)
  {
    seq(|log|, i requires 0 <= i < |log| => log[i].1.hub)
  }

  /** The first hub offered that is not blank and can be written. */
  function FirstSafe(offers: seq<string>): string {
    if offers == [] then ""
    else if Strip(offers[0]) != "" && Safe(offers[0]) then Strip(offers[0])
    else FirstSafe(offers[1..])
  }

  function AfterFirst(offers: seq<string>, hub: string): seq<string> {
    if offers == [] then [] else if offers[0] == hub then offers[1..] else AfterFirst(offers[1..], hub)
  }

  /** The machine-wide hub after these offers, by what the file held before the first. */
  function HubAfter(f: Machine, offers: seq<string>): string {
    var h := MachineHub(f);
    if h != "" then
      if h !in offers || LegibleData(Load(f)["hub" := Str(h)]) then h else FirstSafe(AfterFirst(offers, h))
    else if offers == [] then ""
    else if LegibleData(Load(f) - {"hub"}) then FirstSafe(offers)
    else FirstSafe(offers[1..])
  }

  /** The file after these offers, one after another. */
  function Offered(
    effect: (MachineWriter, Machine) -> Option<Machine>, f: Machine, offers: seq<string>): Machine
    decreases |offers|
  {
    if offers == [] then f
    else Offered(effect, Shared.Written(effect, SetMachineHub(offers[0]), f, f), offers[1..])
  }

  lemma {:induction false} OfferedIsReplay(
      effect: (MachineWriter, Machine) -> Option<Machine>, first: Machine, log: seq<(nat, MachineWriter)>)
    requires OnlyOffers(log)
    ensures Shared.Replay(effect, first, log) == Offered(effect, first, Offers(log))
  {
    if log != [] {
      var before := log[..|log| - 1];
      OfferedIsReplay(effect, first, before);
      assert Offers(log) == Offers(before) + [log[|log| - 1].1.hub];
      OneMoreOffer(effect, first, Offers(before), log[|log| - 1].1.hub);
    }
  }

  lemma {:induction false} OneMoreOffer(
      effect: (MachineWriter, Machine) -> Option<Machine>, f: Machine, offers: seq<string>, last: string)
    ensures
      var before := Offered(effect, f, offers);
      Offered(effect, f, offers + [last]) == Shared.Written(effect, SetMachineHub(last), before, before)
    decreases |offers|
  {
    if offers == [] {
      assert ([] + [last])[1..] == [];
    } else {
      assert (offers + [last])[1..] == offers[1..] + [last];
      OneMoreOffer(effect, Shared.Written(effect, SetMachineHub(offers[0]), f, f), offers[1..], last);
    }
  }

  /** One offer: what it makes of the hub and of whether the file can be written again. */
  lemma OneOffer(odd: OddKeys, f: Machine, hub: string)
    requires PlainKeys(Load(f))
    ensures
      var h := MachineHub(f);
      var next := Shared.Written(MachineEffects(odd), SetMachineHub(hub), f, f);
      && PlainKeys(Load(next))
      && (h != "" && h != hub ==> next == f)
      && (h == "" || h == hub ==>
            if LegibleData(Load(f) - {"hub"}) && Safe(hub)
            then next.Good? && LegibleData(Load(next)) && MachineHub(next) == Strip(hub)
            else next == Bad)
  {
    var data := Load(f)["hub" := Str(hub)];
    HubIsBare();
    DataWithHub(Load(f), hub);
    assert LegibleData(data) ==> LegibleData(AsTexts(data));
    assert AsTexts(data)["hub"] == Str(hub) && data["hub"] == Str(hub);
    BlankHub(hub);
  }

  lemma BlankHub(hub: string)
    ensures Strip(TextOf(Str(hub))) == Strip(hub)
  {
  }

  lemma DataWithHub(data: Table, hub: string)
    ensures LegibleData(data["hub" := Str(hub)]) <==> LegibleData(data - {"hub"}) && Safe(hub)
    ensures PlainKeys(data) ==> PlainKeys(data["hub" := Str(hub)])
  {
    HubIsBare();
    var with := data["hub" := Str(hub)];
    assert "hub" in with && with["hub"].Printed() == hub;
    assert forall key <- data :: key != "hub" ==> key in with && with[key] == data[key] && key in data - {"hub"};
  }

  /** A join against a hub records it for the whole machine when nobody has yet: the project
      pins none, the engine holds no token and is given none, and the machine-wide file holds
      no hub and can be written. */
  lemma JoinRecordsTheHub(
      odd: OddKeys, f: Machine, hub: string, name: string, engine: string, role: string, force: bool, c: Config)
    requires EntryKey(c.agents, engine) !in c.agents || force
    requires Strip(TextOf(c.hub)) == "" && hub != ""
    requires !Field(EntryOf(c.agents, EntryKey(c.agents, engine)), "token").Truthy()
    requires MachineHub(f) == "" && PlainKeys(Load(f)) && LegibleData(Load(f) - {"hub"}) && Safe(hub)
    ensures
      var offer := MachineOffer(WriteConfig(hub, name, engine, role, "", force), c);
      && offer == Some(hub)
      && MachineHub(Shared.Written(MachineEffects(odd), SetMachineHub(offer.value), f, f)) == Strip(hub)
  {
    OffersExactlyWhen(hub, name, engine, role, "", force, c);
    OneOffer(odd, f, hub);
  }

  lemma WithoutHub(data: Table)
    requires LegibleData(data)
    ensures LegibleData(data - {"hub"}) && LegibleData(data["hub" := Str(HubOf(data))])
  {
    HubIsBare();
    if "hub" in data {
      assert FitsPair(("hub", data["hub"].Printed()));
      StripIsSafe(TextOf(Field(data, "hub")));
    }
    DataWithHub(data, HubOf(data));
  }

  /** The hub after any list of offers, in closed form. */
  lemma {:induction false} OffersEndAt(odd: OddKeys, f: Machine, offers: seq<string>)
    requires PlainKeys(Load(f))
    ensures MachineHub(Offered(MachineEffects(odd), f, offers)) == HubAfter(f, offers)
    decreases |offers|
  {
    if offers != [] {
      var next := Shared.Written(MachineEffects(odd), SetMachineHub(offers[0]), f, f);
      OneOffer(odd, f, offers[0]);
      OffersEndAt(odd, next, offers[1..]);
      FirstOffer(f, next, offers);
    }
  }

  lemma FirstOffer(f: Machine, next: Machine, offers: seq<string>)
    requires offers != []
    requires
      var h := MachineHub(f);
      && (h != "" && h != offers[0] ==> next == f)
      && (h == "" || h == offers[0] ==>
            if LegibleData(Load(f) - {"hub"}) && Safe(offers[0])
            then next.Good? && LegibleData(Load(next)) && MachineHub(next) == Strip(offers[0])
            else next == Bad)
    ensures HubAfter(next, offers[1..]) == HubAfter(f, offers)
  {
    var h := MachineHub(f);
    if h != "" && h != offers[0] {
      assert h in offers <==> h in offers[1..];
    } else {
      DataWithHub(Load(f), h);
      if next == Bad {
        AfterBad(offers[1..]);
      } else {
        WithoutHub(Load(next));
        if h != "" {
          StrippedStays(h);
        }
      }
    }
  }

  lemma AfterBad(offers: seq<string>)
    ensures HubAfter(Bad, offers) == FirstSafe(offers)
  {
  }

  /** Over any interleaving of `_set_machine_hub` calls the hub is the closed form's. */
  lemma MachineHubAfterOffers(odd: OddKeys, r: Shared.Run<MachineWriter, Machine>)
    requires Shared.Legal(r, MachineEffects(odd))
    requires L.Always(Shared.Locks(r), L.Short) && L.EachStep(Shared.Locks(r), L.Undisturbed)
    requires OnlyOffers(r.s.log) && PlainKeys(Load(Shared.First(r).file))
    ensures MachineHub(r.s.file) == HubAfter(Shared.First(r).file, Offers(r.s.log))
  {
    Shared.Serialises(r, MachineEffects(odd));
    OfferedIsReplay(MachineEffects(odd), Shared.First(r).file, r.s.log);
    OffersEndAt(odd, Shared.First(r).file, Offers(r.s.log));
  }

  ghost predicate HubStands(odd: OddKeys, f: Machine, offers: seq<string>) {
    forall n :: 0 <= n <= |offers| ==> MachineHub(Offered(MachineEffects(odd), f, offers[..n])) == MachineHub(f)
  }

  /** A hub somebody chose stands through every prefix of the offers exactly when nobody
      offers that very hub or the file it stands in can be rendered and read again. */
  lemma ChosenHubStandsExactlyWhen(odd: OddKeys, f: Machine, offers: seq<string>)
    requires PlainKeys(Load(f)) && MachineHub(f) != ""
    ensures HubStands(odd, f, offers) <==>
              MachineHub(f) !in offers || LegibleData(Load(f)["hub" := Str(MachineHub(f))])
  {
    var h := MachineHub(f);
    if h !in offers || LegibleData(Load(f)["hub" := Str(h)]) {
      forall n | 0 <= n <= |offers| ensures MachineHub(Offered(MachineEffects(odd), f, offers[..n])) == h {
        OffersEndAt(odd, f, offers[..n]);
      }
    } else {
      var n := FirstAt(offers, h);
      OffersEndAt(odd, f, offers[..n + 1]);
      NothingAfter(offers[..n + 1], h);
      assert MachineHub(Offered(MachineEffects(odd), f, offers[..n + 1])) == "";
    }
  }

  function FirstAt(offers: seq<string>, hub: string): (n: nat)
    requires hub in offers
    ensures n < |offers| && offers[n] == hub && hub !in offers[..n]
  {
    if offers[0] == hub then 0
    else
      var n := FirstAt(offers[1..], hub);
      assert offers[..n + 1] == [offers[0]] + offers[1..][..n];
      n + 1
  }

  lemma {:induction false} NothingAfter(offers: seq<string>, hub: string)
    requires offers != [] && offers[|offers| - 1] == hub && hub !in offers[..|offers| - 1]
    ensures AfterFirst(offers, hub) == [] && hub in offers
  {
    if |offers| > 1 {
      assert offers[0] in offers[..|offers| - 1];
      assert offers[1..][..|offers| - 2] == offers[..|offers| - 1][1..];
      NothingAfter(offers[1..], hub);
    }
  }

  lemma TwoOffers(
      effect: (MachineWriter, Machine) -> Option<Machine>, f: Machine, first: string, second: string)
    ensures
      var next := Shared.Written(effect, SetMachineHub(first), f, f);
      && Offered(effect, f, [first]) == next
      && Offered(effect, f, [first, second]) == Shared.Written(effect, SetMachineHub(second), next, next)
  {
    assert [first][1..] == [];
    OneMoreOffer(effect, f, [first], second);
    assert [first] + [second] == [first, second];
  }

  /** A hub that cannot be written is accepted all the same: the file becomes unreadable, and
      the next hub offered takes its place. */
  lemma UnsafeOfferIsReplaced(odd: OddKeys, f: Machine, first: string, second: string)
    requires PlainKeys(Load(f)) && MachineHub(f) == "" && !Safe(first) && Safe(second)
    ensures Offered(MachineEffects(odd), f, [first]) == Bad
    ensures MachineHub(Offered(MachineEffects(odd), f, [first, second])) == Strip(second)
  {
    TwoOffers(MachineEffects(odd), f, first, second);
    OneOffer(odd, f, first);
    OneOffer(odd, Bad, second);
  }

  /** The run that fails. */
  lemma ControlCharacterIsOverwritten(odd: OddKeys)
    ensures MachineHub(Offered(MachineEffects(odd), Good(map[]), ["http://a\U{1}", "http://b"])) == "http://b"
  {
    var first, second := "http://a\U{1}", "http://b";
    assert first[8] in first && !Safe(first);
    StrippedStays(second);
    UnsafeOfferIsReplaced(odd, Good(map[]), first, second);
  }
}
