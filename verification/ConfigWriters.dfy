/** The writers of the project file in `client.py`. */
module ConfigWriters {

  /* What survives any interleaving of them.  A render that TOML cannot read is part of the
     model: every writer after it raises before it writes. */

  import opened Wrappers
  import opened Text
  import opened ProjectToml
  import Shared = SharedFile
  import L = Locking

  /** A TOML value: a text, or anything else by what `str` makes of it. */
  datatype Value = Str(text: string) | NonText(printed: string) {
    function Printed(): string {
      if Str? then text else printed
    }

    /** Python's truth of the value. */
    predicate Truthy() {
      Printed() != "" && (NonText? ==> printed !in {"0", "0.0", "-0.0", "False", "[]", "{}"})
    }
  }

  type Table = map<string, Value>

  /** The identity file as `tomllib` reads it: `rest` is every other top-level key.  A missing
      file reads like an empty one, a missing `hub` like an empty text. */
  datatype Config = Config(hub: Value, agents: map<string, Table>, rest: Table)

  datatype File = Readable(config: Config) | Unreadable

  /** What a writer hands to `_render_project`. */
  datatype Draft = Draft(hub: string, agents: map<string, Table>)

  /** What TOML makes of engine names that are not plain: anything. */
  type Odd = Draft -> File

  datatype Writer =
    | WriteProject(settings: map<string, string>, engine: string)
    | UnsetProject(name: string, engine: string)
    | WriteConfig(hub: string, name: string, engine: string, role: string, token: string, force: bool)

  const LEGACY_ENGINE_KEYS: map<string, string> := map["omp" := "ohmypi"]

  /** The whitelist of the renderer. */
  const FIELDS := {"name", "role", "token", "wake"}

  /** `entry_key`: the engine itself, else its legacy spelling if only that is present. */
  function EntryKey(entries: map<string, Table>, engine: string): string {
    if engine in entries then engine
    else if engine in LEGACY_ENGINE_KEYS && LEGACY_ENGINE_KEYS[engine] in entries then LEGACY_ENGINE_KEYS[engine]
    else engine
  }

  function EntryOf(entries: map<string, Table>, key: string): Table {
    if key in entries then entries[key] else map[]
  }

  function Field(item: Table, key: string): Value {
    if key in item then item[key] else Str("")
  }

  /** What Python takes for true: a text that is not empty, and anything else but nought, false and
      what is empty. */
  lemma TruthyExactlyWhen(text: string)
    ensures Str(text).Truthy() <==> text != ""
    ensures NonText(text).Truthy() <==> text !in {"", "0", "0.0", "-0.0", "False", "[]", "{}"}
  {
  }

  /** An engine's entry is the one under its name; only `omp`, and only without one, answers to
      an `ohmypi` that is there. */
  lemma EntryKeyExactlyWhen(entries: map<string, Table>, engine: string)
    ensures EntryKey(entries, engine) ==
              if engine == "omp" && "omp" !in entries && "ohmypi" in entries then "ohmypi" else engine
  {
  }

  function Texts(item: Entry): Table {
    map key | key in item :: Str(item[key])
  }

  function TextOf(value: Value): string {
    if value.Truthy() then value.Printed() else ""
  }

  // --- rendering and reading back ----------------------------------------------------

  /** The texts the renderer prints of one entry. */
  function Flat(item: Table): Entry {
    map key | key in item.Keys * FIELDS && (key == "role" || item[key].Truthy()) :: item[key].Printed()
  }

  predicate Legible(d: Draft) {
    Safe(d.hub) && forall key <- d.agents :: Fits((key, Flat(d.agents[key])))
  }

  predicate PlainNames(agents: map<string, Table>) {
    forall key <- agents :: Plain(key)
  }

  function ReRead(item: Table): Table {
    Texts(Normal(Flat(item)))
  }

  function AllNormal(agents: map<string, Table>): map<string, Entry> {
    map key | key in agents :: Normal(Flat(agents[key]))
  }

  function AllTexts(agents: map<string, Entry>): map<string, Table> {
    map key | key in agents :: Texts(agents[key])
  }

  function Normalised(d: Draft): Config {
    Config(Str(d.hub), AllTexts(AllNormal(d.agents)), map[])
  }

  /** What the next reader finds after a render. */
  function Rendered(odd: Odd, d: Draft): File {
    if Legible(d) then Readable(Normalised(d)) else if PlainNames(d.agents) then Unreadable else odd(d)
  }

  /** Of names that need quoting or a dot nothing is taken for granted: the next reader may find
      anything. */
  lemma OddNamesAreLeftOpen(d: Draft, found: File)
    requires !Legible(d) && !PlainNames(d.agents)
    ensures Rendered(_ => found, d) == found
  {
  }

  function Listed(order: seq<string>, agents: map<string, Table>): Agents
    requires forall key <- order :: key in agents
  {
    seq(|order|, i requires 0 <= i < |order| => (order[i], Flat(agents[order[i]])))
  }

  ghost predicate Lists(order: seq<string>, agents: map<string, Table>) {
    && (forall key :: key in order <==> key in agents)
    && (forall i, j :: 0 <= i < j < |order| ==> order[i] != order[j])
  }

  function Loaded(read: Option<Doc>): File {
    match read
    case None => Unreadable
    case Some(doc) => Readable(Config(Str(Get(doc.top, "hub")), AllTexts(doc.agents), map[]))
  }

  lemma ListedFits(order: seq<string>, hub: string, agents: map<string, Table>)
    requires Lists(order, agents)
    ensures (Safe(hub) && forall e <- Listed(order, agents) :: Fits(e)) <==> Legible(Draft(hub, agents))
    ensures (forall e <- Listed(order, agents) :: Plain(e.0)) <==> PlainNames(agents)
    ensures Distinct(Listed(order, agents))
  {
    var listed := Listed(order, agents);
    forall key | key in agents ensures (key, Flat(agents[key])) in listed {
      var i :| 0 <= i < |order| && order[i] == key;
      assert listed[i] == (key, Flat(agents[key]));
    }
    forall e | e in listed ensures e.0 in agents && e.1 == Flat(agents[e.0]) {
    }
  }

  lemma ListedReads(order: seq<string>, agents: map<string, Table>)
    requires Lists(order, agents)
    ensures AddAll(map[], Listed(order, agents)) == AllNormal(agents)
  {
    var listed := Listed(order, agents);
    ListedFits(order, "", agents);
    forall key | key in agents ensures exists e :: e in listed && e.0 == key {
      var i :| 0 <= i < |order| && order[i] == key;
      assert listed[i] in listed;
    }
    AddAllIs(listed, AllNormal(agents));
  }

  lemma LegibleLoads(order: seq<string>, hub: string, agents: map<string, Table>)
    requires Lists(order, agents)
    ensures Loaded(Some(AsRead(hub, Listed(order, agents)))) == Readable(Normalised(Draft(hub, agents)))
  {
    ListedReads(order, agents);
  }

  /** `Rendered` is what the text of the file says: for plain engine names, reading the text
      `_render_project` writes gives exactly that file. */
  lemma RenderReadsBack(
      odd: Odd, above: seq<string>, below: seq<string>, hub: string, agents: map<string, Table>, order: seq<string>)
    requires Comments(above) && Comments(below) && Lists(order, agents) && PlainNames(agents)
    ensures Loaded(Read(Terminated(FileLines(above, below, hub, Listed(order, agents))))) ==
              Rendered(odd, Draft(hub, agents))
  {
    var listed := Listed(order, agents);
    ListedFits(order, hub, agents);
    FileRoundTrip(above, below, hub, listed);
    LegibleLoads(order, hub, agents);
  }

  // --- the writers -------------------------------------------------------------------

  /** The token a re-join keeps: the one given, else the one already held. */
  function KeptToken(w: Writer, c: Config): Value
    requires w.WriteConfig?
  {
    if w.token != "" then Str(w.token) else Field(EntryOf(c.agents, EntryKey(c.agents, w.engine)), "token")
  }

  function JoinEntry(name: string, role: string, token: Value): Table {
    map["name" := Str(name), "role" := Str(role)] + (if token.Truthy() then map["token" := token] else map[])
  }

  /** A join writes the hub it was given into the project file. */
  predicate Pins(w: Writer, c: Config) {
    w.WriteConfig? && Strip(TextOf(c.hub)) == "" && KeptToken(w, c).Truthy()
  }

  /** What a writer renders over the file it read, or None when it writes nothing. */
  function Writes(w: Writer, c: Config): Option<Draft> {
    var key := EntryKey(c.agents, w.engine);
    var mine := EntryOf(c.agents, key);
    match w
    case WriteProject(settings, _) =>
      var offered := Get(settings, "hub");
      Some(Draft(Strip(if offered != "" then offered else TextOf(c.hub)),
                 c.agents[key := mine + Texts(settings - {"hub"})]))
    case UnsetProject(name, _) =>
      if name == "hub" then
        if c.hub.Truthy() then Some(Draft("", c.agents)) else None
      else if name !in mine then None
      else Some(Draft(TextOf(c.hub), c.agents[key := mine - {name}]))
    case WriteConfig(hub, name, _, role, _, force) =>
      if key in c.agents && !force then None
      else Some(Draft(if Pins(w, c) then hub else Strip(TextOf(c.hub)),
                      c.agents[key := JoinEntry(name, role, KeptToken(w, c))]))
  }

  /** What a writer leaves for the next reader; over an unreadable file it raises. */
  function Effect(odd: Odd, w: Writer, f: File): Option<File> {
    match f
    case Unreadable => None
    case Readable(c) =>
      match Writes(w, c)
      case None => None
      case Some(d) => Some(Rendered(odd, d))
  }

  function Effects(odd: Odd): (Writer, File) -> Option<File> {
    (w: Writer, f: File) => Effect(odd, w, f)
  }

  /** The machine-wide hub a `write_config` offers to `_set_machine_hub`, if it does. */
  function MachineOffer(w: Writer, c: Config): Option<string> {
    if w.WriteConfig? && Writes(w, c).Some? && Strip(TextOf(c.hub)) == "" && w.hub != "" && !KeptToken(w, c).Truthy()
    then Some(w.hub) else None
  }

  /** The writer could hold this key as its own. */
  predicate Names(w: Writer, key: string) {
    w.engine == key || (w.engine in LEGACY_ENGINE_KEYS && LEGACY_ENGINE_KEYS[w.engine] == key)
  }

  /** That is, in some file its entry is under this key. */
  lemma NamesExactlyWhen(w: Writer, key: string)
    ensures Names(w, key) <==> exists entries: map<string, Table> :: EntryKey(entries, w.engine) == key
  {
    var none, legacy: map<string, Table> := map[], map[key := map[]];
    assert EntryKey(none, w.engine) == w.engine;
    if Names(w, key) && w.engine != key {
      assert EntryKey(legacy, w.engine) == key;
    }
  }

  /** What the caller of a writer can check first: the engine is a bare key, and of what it
      passes nothing that would be rendered holds a control character the escape leaves. */
  predicate Clean(w: Writer, c: Config) {
    match w
    case WriteProject(settings, engine) =>
      Bare(engine) && Safe(Strip(Get(settings, "hub"))) && forall field <- FIELDS :: Safe(Get(settings, field))
    case UnsetProject(_, _) => true
    case WriteConfig(hub, name, engine, role, token, _) =>
      Bare(engine) && Safe(name) && Safe(role) && Safe(token) && (Pins(w, c) ==> Safe(hub))
  }

  // --- the writers as the source runs them -------------------------------------------

  function ItemsOf(items: seq<(string, string)>): map<string, string> {
    if items == [] then map[]
    else ItemsOf(items[..|items| - 1])[items[|items| - 1].0 := items[|items| - 1].1]
  }

  lemma OneMoreSetting(prior: Table, settings: seq<(string, string)>, i: nat)
    requires i < |settings|
    ensures
      var before := prior + Texts(ItemsOf(settings[..i]) - {"hub"});
      prior + Texts(ItemsOf(settings[..i + 1]) - {"hub"}) ==
        if settings[i].0 != "hub" then before[settings[i].0 := Str(settings[i].1)] else before
  {
    assert settings[..i + 1][..i] == settings[..i];
  }

  /** The loop of `write_project`. */
  method Merge(prior: Table, settings: seq<(string, string)>) returns (mine: Table)
    ensures mine == prior + Texts(ItemsOf(settings) - {"hub"})
  {
    mine := prior;
    for i := 0 to |settings|
      invariant mine == prior + Texts(ItemsOf(settings[..i]) - {"hub"})
    {
      OneMoreSetting(prior, settings, i);
      if settings[i].0 != "hub" {
        mine := mine[settings[i].0 := Str(settings[i].1)];
      }
    }
    assert settings[..|settings|] == settings;
  }

  /** The project file with the lock held. */
  class ProjectFile {
    var file: File
    const odd: Odd

    constructor (file: File, odd: Odd)
      ensures this.file == file && this.odd == odd
    {
      this.file := file;
      this.odd := odd;
    }

    /** Raises, and leaves the file, exactly when the file cannot be read. */
    method Write(settings: seq<(string, string)>, engine: string) returns (raised: bool)
      modifies this
      ensures raised == old(file).Unreadable?
      ensures file == Shared.Written(Effects(odd), WriteProject(ItemsOf(settings), engine), old(file), old(file))
    {
      if file.Unreadable? {
        return true;
      }
      var config := file.config;
      var key := EntryKey(config.agents, engine);
      var offered := Get(ItemsOf(settings), "hub");
      var hub := Strip(if offered != "" then offered else TextOf(config.hub));
      var mine := Merge(EntryOf(config.agents, key), settings);
      file := Rendered(odd, Draft(hub, config.agents[key := mine]));
      return false;
    }

    method Unset(name: string, engine: string) returns (raised: bool, removed: bool)
      modifies this
      ensures raised == old(file).Unreadable?
      ensures removed == Effect(odd, UnsetProject(name, engine), old(file)).Some?
      ensures file == Shared.Written(Effects(odd), UnsetProject(name, engine), old(file), old(file))
    {
      if file.Unreadable? {
        return true, false;
      }
      var config := file.config;
      if name == "hub" {
        if !config.hub.Truthy() {
          return false, false;
        }
        file := Rendered(odd, Draft("", config.agents));
        return false, true;
      }
      var key := EntryKey(config.agents, engine);
      var mine := EntryOf(config.agents, key);
      if name !in mine {
        return false, false;
      }
      mine := mine - {name};
      file := Rendered(odd, Draft(TextOf(config.hub), config.agents[key := mine]));
      return false, true;
    }

    /** `write_config`; it raises over an unreadable file and for an entry held without force.
        `offer` is what it passes to `_set_machine_hub` on the way. */
    method Join(hub: string, name: string, engine: string, role: string, token: string, force: bool)
      returns (raised: bool, offer: Option<string>)
      modifies this
      ensures
        var w := WriteConfig(hub, name, engine, role, token, force);
        && raised == Effect(odd, w, old(file)).None?
        && file == Shared.Written(Effects(odd), w, old(file), old(file))
        && offer == if old(file).Readable? then MachineOffer(w, old(file).config) else None
      ensures old(file).Readable? ==>
                var c := old(file).config;
                var key := EntryKey(c.agents, engine);
                offer ==
                  if && (key !in c.agents || force) && Strip(TextOf(c.hub)) == "" && hub != ""
                     && token == "" && !Field(EntryOf(c.agents, key), "token").Truthy()
                  then Some(hub) else None
    {
      offer := None;
      if file.Unreadable? {
        return true, None;
      }
      var config := file.config;
      var key := EntryKey(config.agents, engine);
      var prior := EntryOf(config.agents, key);
      if key in config.agents && !force {
        return true, None;
      }
      var entry := map["name" := Str(name), "role" := Str(role)];
      var kept := if token != "" then Str(token) else Field(prior, "token");
      if kept.Truthy() {
        entry := entry["token" := kept];
      }
      assert entry == JoinEntry(name, role, kept);
      var agents := config.agents[key := entry];
      var pinned := Strip(TextOf(config.hub));
      if pinned == "" && hub != "" && !kept.Truthy() {
        offer := Some(hub);
      } else if pinned == "" && hub != "" {
        pinned := hub;
      }
      file := Rendered(odd, Draft(pinned, agents));
      raised := false;
    }
  }

  // --- one render --------------------------------------------------------------------

  /** What readers see of an entry. */
  function Shown(item: Table, field: string): string {
    if field == "role" then RoleOf(Flat(item)) else Get(Flat(item), field)
  }

  /** A render prints what readers see. */
  lemma RenderShowsTheSame(item: Table)
    ensures forall field <- FIELDS :: Shown(ReRead(item), field) == Shown(item, field)
    ensures Normal(Flat(ReRead(item))) == Normal(Flat(item))
  {
    FlatOfReRead(item);
    NormalAgain(Flat(item));
  }

  lemma FlatOfReRead(item: Table)
    ensures Flat(ReRead(item)) == Normal(Flat(item))
  {
    var kept := Normal(Flat(item));
    assert kept.Keys <= FIELDS;
    assert forall key <- kept :: key == "role" || kept[key] != "";
    FlatOfTexts(kept);
  }

  lemma FlatOfTexts(kept: Entry)
    requires kept.Keys <= FIELDS && forall key <- kept :: key == "role" || kept[key] != ""
    ensures Flat(Texts(kept)) == kept
  {
  }

  lemma NormalAgain(item: Entry)
    ensures Normal(Normal(item)) == Normal(item)
    ensures RoleOf(Normal(item)) == RoleOf(item)
    ensures forall field <- FIELDS :: field != "role" ==> Get(Normal(item), field) == Get(item, field)
  {
  }

  lemma FitsShown(key: string, item: Table)
    ensures Fits((key, Flat(item))) <==> Bare(key) && forall field <- FIELDS :: Safe(Shown(item, field))
  {
  }

  predicate Whitelisted(item: Table) {
    && "role" in item && item.Keys <= FIELDS
    && forall key <- item :: item[key].Str? && (key != "role" ==> item[key].text != "")
  }

  /** A role is always printed, another field when it is not empty, always as text. */
  lemma ReReadField(item: Table, field: string)
    ensures field in ReRead(item) <==> field == "role" || (field in FIELDS && Shown(item, field) != "")
    ensures field in ReRead(item) ==> ReRead(item)[field] == Str(Shown(item, field))
  {
  }

  lemma UnchangedEntry(item: Table)
    ensures ReRead(item) == item <==> Whitelisted(item)
  {
    forall field
      ensures field in ReRead(item) ==> field in FIELDS && ReRead(item)[field].Str?
      ensures field in ReRead(item) && field != "role" ==> ReRead(item)[field].text != ""
      ensures Whitelisted(item) ==> (field in ReRead(item) <==> field in item)
      ensures Whitelisted(item) && field in item ==> ReRead(item)[field] == item[field]
    {
      ReReadField(item, field);
    }
    ReReadField(item, "role");
  }

  /** A render loses nothing exactly when the file had nothing outside the whitelist: no other
      table at the top, such as `interrupt`, no other field, nothing empty but a role, and
      nothing that is not text. */
  lemma UnchangedExactlyWhen(odd: Odd, c: Config)
    requires Legible(Draft(TextOf(c.hub), c.agents))
    ensures Rendered(odd, Draft(TextOf(c.hub), c.agents)) == Readable(c) <==>
              c.hub == Str(TextOf(c.hub)) && c.rest == map[] && forall key <- c.agents :: Whitelisted(c.agents[key])
  {
    UnchangedAgents(c.agents);
  }

  lemma UnchangedAgents(agents: map<string, Table>)
    ensures AllTexts(AllNormal(agents)) == agents <==> forall key <- agents :: Whitelisted(agents[key])
  {
    if forall key <- agents :: Whitelisted(agents[key]) {
      WhitelistedStay(agents);
    } else {
      var key :| key in agents && !Whitelisted(agents[key]);
      UnchangedAt(agents, key);
    }
  }

  lemma WhitelistedStay(agents: map<string, Table>)
    requires forall key <- agents :: Whitelisted(agents[key])
    ensures AllTexts(AllNormal(agents)) == agents
  {
    forall key | key in agents ensures AllTexts(AllNormal(agents))[key] == agents[key] {
      UnchangedAt(agents, key);
    }
    SameMaps(AllTexts(AllNormal(agents)), agents);
  }

  lemma SameMaps<V>(a: map<string, V>, b: map<string, V>)
    requires a.Keys == b.Keys && forall key <- b :: a[key] == b[key]
    ensures a == b
  {
  }

  lemma UnchangedAt(agents: map<string, Table>, key: string)
    requires key in agents
    ensures AllTexts(AllNormal(agents))[key] == agents[key] <==> Whitelisted(agents[key])
  {
    UnchangedEntry(agents[key]);
  }

  // --- what one writer keeps ---------------------------------------------------------

  /** Another render of this file would be readable.  Every readable file a render left is so
      (`RenderStaysLegible`); one edited by hand is unless it spells a control character as
      an escape or an engine as a quoted key. */
  predicate LegibleConfig(c: Config) {
    Legible(Draft(TextOf(c.hub), c.agents))
  }

  lemma RenderStaysLegible(d: Draft)
    requires Legible(d)
    ensures LegibleConfig(Normalised(d))
  {
    forall key | key in d.agents ensures Fits((key, Flat(ReRead(d.agents[key])))) {
      FitsShown(key, d.agents[key]);
      RenderShowsTheSame(d.agents[key]);
      FitsShown(key, ReRead(d.agents[key]));
    }
  }

  lemma MergedShows(mine: Table, settings: map<string, string>, field: string)
    requires field in FIELDS
    ensures Shown(mine + Texts(settings - {"hub"}), field) ==
              if field in settings then settings[field] else Shown(mine, field)
  {
  }

  lemma JoinShows(name: string, role: string, token: Value)
    ensures
      var mine := JoinEntry(name, role, token);
      && Shown(mine, "name") == name && Shown(mine, "role") == role
      && Shown(mine, "token") == TextOf(token) && Shown(mine, "wake") == ""
  {
  }

  lemma UnsetShows(mine: Table, name: string, field: string)
    requires field in FIELDS
    ensures Shown(mine - {name}, field) ==
              if field != name then Shown(mine, field) else if field == "role" then "agent" else ""
  {
  }

  /** A draft over a legible file is legible when the hub and the writer's own entry are. */
  lemma OnlyTheNewCanSpoil(c: Config, hub: string, key: string, item: Table)
    requires LegibleConfig(c)
    ensures Legible(Draft(hub, c.agents[key := item])) <==>
              Safe(hub) && Bare(key) && forall field <- FIELDS :: Safe(Shown(item, field))
  {
    FitsShown(key, item);
    var agents := c.agents[key := item];
    assert key in agents;
    assert forall other <- agents :: other != key ==> agents[other] == c.agents[other] && other in c.agents;
  }

  lemma KnownKeyIsBare(c: Config, engine: string)
    requires LegibleConfig(c)
    ensures Bare(EntryKey(c.agents, engine)) <==> Bare(engine)
    ensures EntryKey(c.agents, engine) in c.agents ==> Bare(engine)
    ensures forall field <- FIELDS :: Safe(Shown(EntryOf(c.agents, EntryKey(c.agents, engine)), field))
  {
    var key := EntryKey(c.agents, engine);
    assert key != engine ==> engine == "omp";
    assert Bare("omp");
    if key in c.agents {
      assert Fits((key, Flat(c.agents[key])));
      FitsShown(key, c.agents[key]);
    } else {
      assert Flat(map[]) == map[];
    }
  }

  lemma StripIsSafe(s: string)
    requires Safe(s)
    ensures Safe(Strip(s))
  {
  }

  /** From a legible file a writer leaves a readable one exactly when it is clean. */
  lemma WriteIsLegibleExactlyWhenClean(w: Writer, c: Config)
    requires LegibleConfig(c) && Writes(w, c).Some?
    ensures Legible(Writes(w, c).value) <==> Clean(w, c)
  {
    var key := EntryKey(c.agents, w.engine);
    var mine := EntryOf(c.agents, key);
    var d := Writes(w, c).value;
    KnownKeyIsBare(c, w.engine);
    StripIsSafe(TextOf(c.hub));
    match w {
      case WriteProject(settings, _) =>
        MergeIsLegibleExactlyWhen(settings, c, key, mine);
      case UnsetProject(name, _) =>
        if name != "hub" {
          UnsetIsLegible(c, key, mine, name);
        }
      case WriteConfig(_, name, _, role, token, _) =>
        JoinIsLegibleExactlyWhen(c, d.hub, key, name, role, KeptToken(w, c));
        TokenIsSafeExactlyWhen(w, c, mine);
    }
  }

  lemma UnsetIsLegible(c: Config, key: string, mine: Table, name: string)
    requires LegibleConfig(c) && Bare(key) && forall field <- FIELDS :: Safe(Shown(mine, field))
    ensures Legible(Draft(TextOf(c.hub), c.agents[key := mine - {name}]))
  {
    OnlyTheNewCanSpoil(c, TextOf(c.hub), key, mine - {name});
    forall field | field in FIELDS ensures Safe(Shown(mine - {name}, field)) {
      UnsetShows(mine, name, field);
    }
  }

  lemma JoinIsLegibleExactlyWhen(c: Config, hub: string, key: string, name: string, role: string, token: Value)
    requires LegibleConfig(c)
    ensures Legible(Draft(hub, c.agents[key := JoinEntry(name, role, token)])) <==>
              Safe(hub) && Bare(key) && Safe(name) && Safe(role) && Safe(TextOf(token))
  {
    var entry := JoinEntry(name, role, token);
    OnlyTheNewCanSpoil(c, hub, key, entry);
    JoinShows(name, role, token);
    assert "name" in FIELDS && "role" in FIELDS && "token" in FIELDS;
  }

  lemma MergeIsLegibleExactlyWhen(settings: map<string, string>, c: Config, key: string, mine: Table)
    requires LegibleConfig(c) && Safe(Strip(TextOf(c.hub)))
    requires forall field <- FIELDS :: Safe(Shown(mine, field))
    ensures
      var hub := Strip(if Get(settings, "hub") != "" then settings["hub"] else TextOf(c.hub));
      Legible(Draft(hub, c.agents[key := mine + Texts(settings - {"hub"})])) <==>
        Bare(key) && Safe(Strip(Get(settings, "hub"))) && forall field <- FIELDS :: Safe(Get(settings, field))
  {
    var merged := mine + Texts(settings - {"hub"});
    OnlyTheNewCanSpoil(c, Strip(if Get(settings, "hub") != "" then settings["hub"] else TextOf(c.hub)), key, merged);
    forall field | field in FIELDS ensures Safe(Shown(merged, field)) <==> Safe(Get(settings, field)) {
      MergedShows(mine, settings, field);
    }
  }

  lemma TokenIsSafeExactlyWhen(w: Writer, c: Config, mine: Table)
    requires w.WriteConfig? && mine == EntryOf(c.agents, EntryKey(c.agents, w.engine))
    requires Safe(Shown(mine, "token"))
    ensures Safe(TextOf(KeptToken(w, c))) <==> Safe(w.token)
  {
    assert Shown(mine, "token") == TextOf(Field(mine, "token"));
  }

  /** What a reader finds under a key, on the rendered fields; None also when nothing can be
      read at all. */
  function Seen(f: File, key: string): Option<Entry> {
    if f.Readable? && key in f.config.agents then Some(Normal(Flat(f.config.agents[key]))) else None
  }

  /** What a reader finds, field by field: name, token and wake as they are when they are true, and
      a role that is there, or else `agent`. */
  lemma SeenOnFields(f: File, key: string)
    ensures Seen(f, key).Some? <==> f.Readable? && key in f.config.agents
    ensures Seen(f, key).Some? ==>
              var (entry, item) := (Seen(f, key).value, f.config.agents[key]);
              && Get(entry, "name") == TextOf(Field(item, "name"))
              && Get(entry, "token") == TextOf(Field(item, "token"))
              && Get(entry, "wake") == TextOf(Field(item, "wake"))
              && Get(entry, "role") == if "role" in item then item["role"].Printed() else "agent"
  {
    if Seen(f, key).Some? {
      var item := f.config.agents[key];
      NormalAgain(Flat(item));
      assert "name" in FIELDS && "token" in FIELDS && "wake" in FIELDS && "role" in FIELDS;
    }
  }

  /** From a legible file a writer with a plain engine name leaves everybody else's entries as
      they were when it is clean, and leaves nobody's when it is not. */
  lemma OthersSurvive(odd: Odd, w: Writer, c: Config, key: string)
    requires LegibleConfig(c) && !Names(w, key)
    ensures
      var after := Shared.Written(Effects(odd), w, Readable(c), Readable(c));
      && (Writes(w, c).None? || Clean(w, c) ==>
            after.Readable? && LegibleConfig(after.config) && Seen(after, key) == Seen(Readable(c), key))
      && (Writes(w, c).Some? && !Clean(w, c) && Plain(w.engine) ==> after == Unreadable)
  {
    if Writes(w, c).Some? {
      WriteIsLegibleExactlyWhenClean(w, c);
      OnlyOnesOwnKey(w, c, key);
      if Clean(w, c) {
        SeenAfterRender(odd, Writes(w, c).value, c, key);
      } else if Plain(w.engine) {
        KeysStayPlain(w, c);
      }
    }
  }

  lemma OnlyOnesOwnKey(w: Writer, c: Config, key: string)
    requires Writes(w, c).Some? && !Names(w, key)
    ensures key in Writes(w, c).value.agents <==> key in c.agents
    ensures key in c.agents ==> Writes(w, c).value.agents[key] == c.agents[key]
  {
    assert EntryKey(c.agents, w.engine) != key;
  }

  lemma SeenAfterRender(odd: Odd, d: Draft, c: Config, key: string)
    requires Legible(d) && (key in d.agents <==> key in c.agents)
    requires key in c.agents ==> d.agents[key] == c.agents[key]
    ensures
      var after := Rendered(odd, d);
      after.Readable? && LegibleConfig(after.config) && Seen(after, key) == Seen(Readable(c), key)
  {
    RenderStaysLegible(d);
    if key in c.agents {
      RenderShowsTheSame(c.agents[key]);
    }
  }

  lemma KeysStayPlain(w: Writer, c: Config)
    requires LegibleConfig(c) && Writes(w, c).Some? && Plain(w.engine)
    ensures PlainNames(Writes(w, c).value.agents)
  {
    forall key | key in Writes(w, c).value.agents ensures Plain(key) {
      if key in c.agents {
        assert Fits((key, Flat(c.agents[key])));
        BareIsPlain(key);
      }
    }
  }

  /** What a clean write put under a key is what the next reader sees there. */
  lemma CleanWriteShows(odd: Odd, w: Writer, c: Config, key: string)
    requires LegibleConfig(c) && Writes(w, c).Some? && Clean(w, c) && key in Writes(w, c).value.agents
    ensures
      var d := Writes(w, c).value;
      var after := Effect(odd, w, Readable(c)).value;
      && after == Readable(Normalised(d)) && key in after.config.agents
      && after.config.agents[key] == ReRead(d.agents[key])
      && forall f <- FIELDS :: Shown(after.config.agents[key], f) == Shown(d.agents[key], f)
  {
    WriteIsLegibleExactlyWhenClean(w, c);
    RenderShowsTheSame(Writes(w, c).value.agents[key]);
  }

  lemma UncleanWriteLoses(odd: Odd, w: Writer, c: Config)
    requires LegibleConfig(c) && Writes(w, c).Some? && !Clean(w, c) && Plain(w.engine)
    ensures Effect(odd, w, Readable(c)) == Some(Unreadable)
  {
    WriteIsLegibleExactlyWhenClean(w, c);
    KeysStayPlain(w, c);
  }

  /** A clean project write merges: of its own entry every field it names takes the new value
      and every other keeps the old one, the role included; the hub is the one given, else
      the one that was there.  One that is not clean, under a plain name, leaves nothing. */
  lemma WriteMergesItsEntry(odd: Odd, settings: map<string, string>, engine: string, c: Config, field: string)
    requires LegibleConfig(c) && field in {"name", "role", "token", "wake"}
    ensures
      var w := WriteProject(settings, engine);
      var after := Effect(odd, w, Readable(c)).value;
      var key := EntryKey(c.agents, engine);
      && (Clean(w, c) ==>
            && after.Readable? && key in after.config.agents
            && Shown(after.config.agents[key], field) ==
                 (if field in settings then settings[field] else Shown(EntryOf(c.agents, key), field))
            && after.config.hub ==
                 Str(Strip(if Get(settings, "hub") != "" then settings["hub"] else TextOf(c.hub))))
      && (!Clean(w, c) && Plain(engine) ==> after == Unreadable)
  {
    var w := WriteProject(settings, engine);
    var key := EntryKey(c.agents, engine);
    if Clean(w, c) {
      CleanWrite(odd, w, c);
      CleanWriteShows(odd, w, c, key);
      MergedShows(EntryOf(c.agents, key), settings, field);
    } else if Plain(engine) {
      UncleanWriteLoses(odd, w, c);
    }
  }

  /** An unset writes exactly when the setting is there.  It then removes that one setting, the
      hub or a field, and keeps the hub, the entry's other fields and the keys.  It never
      spoils a legible file. */
  lemma UnsetRemovesOneField(odd: Odd, name: string, engine: string, c: Config, field: string)
    requires LegibleConfig(c) && field in {"name", "role", "token", "wake"}
    ensures
      var key := EntryKey(c.agents, engine);
      match Effect(odd, UnsetProject(name, engine), Readable(c))
      case None => if name == "hub" then !c.hub.Truthy() else name !in EntryOf(c.agents, key)
      case Some(after) =>
        && (if name == "hub" then c.hub.Truthy() else name in EntryOf(c.agents, key))
        && after.Readable? && after.config.agents.Keys == c.agents.Keys
        && after.config.hub == Str(if name == "hub" then "" else TextOf(c.hub))
        && (key in c.agents ==>
              Shown(after.config.agents[key], field) ==
                if field != name then Shown(c.agents[key], field) else if field == "role" then "agent" else "")
  {
    var w := UnsetProject(name, engine);
    var key := EntryKey(c.agents, engine);
    UnsetWrites(name, engine, c, field);
    if Writes(w, c).Some? {
      CleanWrite(odd, w, c);
      if key in c.agents {
        CleanWriteShows(odd, w, c, key);
      }
    }
  }

  lemma UnsetWrites(name: string, engine: string, c: Config, field: string)
    requires field in FIELDS
    ensures
      var key := EntryKey(c.agents, engine);
      match Writes(UnsetProject(name, engine), c)
      case None => if name == "hub" then !c.hub.Truthy() else name !in EntryOf(c.agents, key)
      case Some(d) =>
        && (if name == "hub" then c.hub.Truthy() else name in EntryOf(c.agents, key))
        && d.agents.Keys == c.agents.Keys && d.hub == (if name == "hub" then "" else TextOf(c.hub))
        && (key in c.agents ==>
              Shown(d.agents[key], field) ==
                if field != name then Shown(c.agents[key], field) else if field == "role" then "agent" else "")
  {
    var key := EntryKey(c.agents, engine);
    if key in c.agents {
      UnsetShows(c.agents[key], name, field);
    }
  }

  lemma CleanWrite(odd: Odd, w: Writer, c: Config)
    requires LegibleConfig(c) && Writes(w, c).Some? && Clean(w, c)
    ensures
      var d := Writes(w, c).value;
      var after := Effect(odd, w, Readable(c)).value;
      after.Readable? && after.config.hub == Str(d.hub) && after.config.agents.Keys == d.agents.Keys
  {
    WriteIsLegibleExactlyWhenClean(w, c);
    LegibleIsRead(odd, Writes(w, c).value);
  }

  lemma LegibleIsRead(odd: Odd, d: Draft)
    requires Legible(d)
    ensures Rendered(odd, d) == Readable(Normalised(d)) && Normalised(d).hub == Str(d.hub)
    ensures Normalised(d).agents.Keys == d.agents.Keys
  {
    assert AllTexts(AllNormal(d.agents)).Keys == d.agents.Keys;
  }

  /** An engine never ends up with two entries: a legacy entry is reused, not doubled. */
  lemma AtMostOneNewKey(w: Writer, c: Config)
    requires Writes(w, c).Some?
    ensures Writes(w, c).value.agents.Keys ==
              c.agents.Keys + (if w.UnsetProject? then {} else {EntryKey(c.agents, w.engine)})
    ensures w.engine == "omp" && "ohmypi" in c.agents && "omp" !in c.agents ==>
              "omp" !in Writes(w, c).value.agents
  {
  }

  /** A forced join forgets a recorded refusal of waking: it rebuilds its own entry. */
  lemma JoinDropsWake(odd: Odd, w: Writer, c: Config)
    requires LegibleConfig(c) && w.WriteConfig? && Writes(w, c).Some? && Clean(w, c)
    ensures
      var after := Effect(odd, w, Readable(c)).value;
      var key := EntryKey(c.agents, w.engine);
      && after.Readable? && key in after.config.agents
      && var mine := after.config.agents[key];
         && "wake" !in mine && Shown(mine, "name") == w.name && Shown(mine, "role") == w.role
         && Shown(mine, "token") == TextOf(KeptToken(w, c))
  {
    var key := EntryKey(c.agents, w.engine);
    var entry := JoinEntry(w.name, w.role, KeptToken(w, c));
    JoinWrites(w, c);
    var mine := CleanWriteLeaves(odd, w, c, key, entry);
    JoinReads(w.name, w.role, KeptToken(w, c));
  }

  lemma JoinWrites(w: Writer, c: Config)
    requires w.WriteConfig? && Writes(w, c).Some?
    ensures
      var (key, agents) := (EntryKey(c.agents, w.engine), Writes(w, c).value.agents);
      key in agents && agents[key] == JoinEntry(w.name, w.role, KeptToken(w, c))
  {
  }

  lemma CleanWriteLeaves(odd: Odd, w: Writer, c: Config, key: string, entry: Table) returns (mine: Table)
    requires LegibleConfig(c) && Writes(w, c).Some? && Clean(w, c)
    requires key in Writes(w, c).value.agents && Writes(w, c).value.agents[key] == entry
    ensures
      var after := Effect(odd, w, Readable(c)).value;
      after.Readable? && key in after.config.agents && after.config.agents[key] == mine == ReRead(entry)
  {
    CleanWriteShows(odd, w, c, key);
    mine := ReRead(entry);
  }

  lemma JoinReads(name: string, role: string, token: Value)
    ensures
      var mine := ReRead(JoinEntry(name, role, token));
      && "wake" !in mine && Shown(mine, "name") == name && Shown(mine, "role") == role
      && Shown(mine, "token") == TextOf(token)
  {
    RenderShowsTheSame(JoinEntry(name, role, token));
    JoinShows(name, role, token);
    ReReadField(JoinEntry(name, role, token), "wake");
  }

  /** A join offers its hub to the whole machine exactly when it writes, this project pins no
      hub, and no token is given or held. */
  lemma OffersExactlyWhen(
      hub: string, name: string, engine: string, role: string, token: string, force: bool, c: Config)
    ensures
      var key := EntryKey(c.agents, engine);
      MachineOffer(WriteConfig(hub, name, engine, role, token, force), c) ==
        if && (key !in c.agents || force) && Strip(TextOf(c.hub)) == "" && hub != ""
           && token == "" && !Field(EntryOf(c.agents, key), "token").Truthy()
        then Some(hub) else None
  {
  }

  /** A credential keeps its hub beside it: a join that keeps a token and knows a hub pins
      that hub in the same file and offers nothing machine-wide; without a token and
      without a pinned hub it pins nothing. */
  lemma TokenKeepsItsHub(w: Writer, c: Config)
    requires w.WriteConfig? && Writes(w, c).Some?
    ensures KeptToken(w, c).Truthy() && (w.hub != "" || Strip(TextOf(c.hub)) != "") ==>
              Writes(w, c).value.hub != "" && MachineOffer(w, c).None?
    ensures !KeptToken(w, c).Truthy() ==> Writes(w, c).value.hub == Strip(TextOf(c.hub))
    ensures MachineOffer(w, c).Some? ==> Writes(w, c).value.hub == ""
  {
  }

  // --- over whole runs ---------------------------------------------------------------

  predicate CleanFor(w: Writer, f: File) {
    f.Readable? ==> Clean(w, f.config)
  }

  ghost predicate PlainFrom(log: seq<(nat, Writer)>, i: nat) {
    forall j :: i <= j < |log| ==> Plain(log[j].1.engine)
  }

  predicate Shows(f: File, key: string, item: Entry) {
    f.Readable? && LegibleConfig(f.config) && Seen(f, key) == Some(item)
  }

  lemma ShownUntilUnclean(odd: Odd, w: Writer, f: File, key: string, item: Entry)
    requires !Names(w, key) && Shows(f, key, item) && Effect(odd, w, f).Some?
    ensures CleanFor(w, f) ==> Shows(Effect(odd, w, f).value, key, item)
    ensures !CleanFor(w, f) && Plain(w.engine) ==> Effect(odd, w, f).value == Unreadable
  {
    OthersSurvive(odd, w, f.config, key);
  }

  lemma EachWriterKeeps(odd: Odd, log: seq<(nat, Writer)>, i: nat, key: string, item: Entry)
    requires forall j :: i <= j < |log| ==> !Names(log[j].1, key)
    ensures forall j, f {:trigger Effects(odd)(log[j].1, f)} ::
              i <= j < |log| && Shows(f, key, item) && Effects(odd)(log[j].1, f).Some? ==>
                && (CleanFor(log[j].1, f) ==> Shows(Effects(odd)(log[j].1, f).value, key, item))
                && (!CleanFor(log[j].1, f) && Plain(log[j].1.engine) ==> Effects(odd)(log[j].1, f).value == Unreadable)
  {
    forall j, f {:trigger Effects(odd)(log[j].1, f)} |
      i <= j < |log| && Shows(f, key, item) && Effects(odd)(log[j].1, f).Some?
      ensures CleanFor(log[j].1, f) ==> Shows(Effects(odd)(log[j].1, f).value, key, item)
      ensures !CleanFor(log[j].1, f) && Plain(log[j].1.engine) ==> Effects(odd)(log[j].1, f).value == Unreadable
    {
      ShownUntilUnclean(odd, log[j].1, f, key, item);
    }
  }

  lemma EachPlainWriterKeepsOrLoses(odd: Odd, log: seq<(nat, Writer)>, i: nat, key: string, item: Entry)
    requires PlainFrom(log, i) && forall j :: i <= j < |log| ==> !Names(log[j].1, key)
    ensures forall j, f {:trigger Effects(odd)(log[j].1, f)} ::
              i <= j < |log| && Shows(f, key, item) && Effects(odd)(log[j].1, f).Some? ==>
                if CleanFor(log[j].1, f) then Shows(Effects(odd)(log[j].1, f).value, key, item)
                else Effects(odd)(log[j].1, f).value == Unreadable
  {
    EachWriterKeeps(odd, log, i, key, item);
  }

  /** What a list of clean writers leaves of an entry that none of them names. */
  lemma SurvivesCleanReplay(odd: Odd, first: File, log: seq<(nat, Writer)>, i: nat, key: string, item: Entry)
    requires i <= |log| && Shows(Shared.Replay(Effects(odd), first, log[..i]), key, item)
    requires forall j :: i <= j < |log| ==> !Names(log[j].1, key)
    requires Shared.EachClean(Effects(odd), CleanFor, first, log, i)
    ensures Seen(Shared.Replay(Effects(odd), first, log), key) == Some(item)
  {
    EachWriterKeeps(odd, log, i, key, item);
    Shared.CleanWritersKeep(Effects(odd), CleanFor, first, log, i, (f: File) => Shows(f, key, item));
  }

  /** With plain engine names, one write that is not clean loses it. */
  lemma LostByUncleanReplay(odd: Odd, first: File, log: seq<(nat, Writer)>, i: nat, key: string, item: Entry)
    requires i <= |log| && Shows(Shared.Replay(Effects(odd), first, log[..i]), key, item)
    requires PlainFrom(log, i) && forall j :: i <= j < |log| ==> !Names(log[j].1, key)
    requires !Shared.EachClean(Effects(odd), CleanFor, first, log, i)
    ensures Shared.Replay(Effects(odd), first, log) == Unreadable
  {
    EachPlainWriterKeepsOrLoses(odd, log, i, key, item);
    Shared.KeptExactlyWhenClean(Effects(odd), CleanFor, first, log, i,
                                (f: File) => Shows(f, key, item), (f: File) => f == Unreadable);
  }

  /** No lost update, with its exact condition.  In every interleaving that respects the
      lock's hypotheses the file is the completed writers run one after another in lock
      order.  An entry of a legible file that no later writer names is still there with all
      its rendered fields if every later write was clean; with plain engine names, exactly
      then, and otherwise no entry of anybody can be read any more. */
  lemma NoLostUpdate(odd: Odd, r: Shared.Run<Writer, File>, i: nat, key: string, item: Entry)
    requires Shared.Legal(r, Effects(odd))
    requires L.Always(Shared.Locks(r), L.Short) && L.EachStep(Shared.Locks(r), L.Undisturbed)
    requires i <= |r.s.log| && forall j :: i <= j < |r.s.log| ==> !Names(r.s.log[j].1, key)
    requires Shows(Shared.Replay(Effects(odd), Shared.First(r).file, r.s.log[..i]), key, item)
    ensures Shared.InLockOrder(r.s.log)
    ensures r.s.file == Shared.Replay(Effects(odd), Shared.First(r).file, r.s.log)
    ensures Shared.EachClean(Effects(odd), CleanFor, Shared.First(r).file, r.s.log, i) ==>
              Seen(r.s.file, key) == Some(item)
    ensures PlainFrom(r.s.log, i) ==>
              if Shared.EachClean(Effects(odd), CleanFor, Shared.First(r).file, r.s.log, i)
              then Seen(r.s.file, key) == Some(item) else r.s.file == Unreadable
  {
    Shared.Serialises(r, Effects(odd));
    if Shared.EachClean(Effects(odd), CleanFor, Shared.First(r).file, r.s.log, i) {
      SurvivesCleanReplay(odd, Shared.First(r).file, r.s.log, i, key, item);
    } else if PlainFrom(r.s.log, i) {
      LostByUncleanReplay(odd, Shared.First(r).file, r.s.log, i, key, item);
    }
  }

  /** The run that fails: in any legible file, a name with the control character 1, or an
      engine name with a space in it, and every identity in the file is gone. */
  lemma OneControlCharacterLosesAll(odd: Odd, c: Config)
    requires LegibleConfig(c)
    ensures Effect(odd, WriteProject(map["name" := "x\U{1}"], "b"), Readable(c)) == Some(Unreadable)
    ensures Effect(odd, WriteProject(map["name" := "x"], "b c"), Readable(c)) == Some(Unreadable)
    ensures forall w :: Effect(odd, w, Unreadable) == None
  {
    var control, plain := map["name" := "x\U{1}"], map["name" := "x"];
    NotClean(c);
    WriteMergesItsEntry(odd, control, "b", c, "name");
    WriteMergesItsEntry(odd, plain, "b c", c, "name");
  }

  lemma NotClean(c: Config)
    ensures !Clean(WriteProject(map["name" := "x\U{1}"], "b"), c) && Plain("b")
    ensures !Clean(WriteProject(map["name" := "x"], "b c"), c) && Plain("b c")
  {
    assert "x\U{1}"[1] in "x\U{1}" && !Safe("x\U{1}");
    assert "b c"[1] in "b c" && !Bare("b c");
    assert "name" in FIELDS;
  }
}
