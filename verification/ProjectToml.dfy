/** The configuration files of `client.py` as text. */
module ProjectToml {

  /* `_toml_str`, `_render_project` and `_render_global`, against a reader for the part of TOML
     v1.0.0 they write: comments, bare keys, standard tables and basic strings, as its
     sections "Keys", "String" and "Table" define them. */

  import opened Text
  import opened Wrappers
  import opened Sorting

  // --- one basic string --------------------------------------------------------------

  /** `_toml_str`: five replacements, one after another, over the whole value. */
  function FivePasses(value: string): string {
    var out := ReplaceChar(ReplaceChar(value, '\\', "\\\\"), '"', "\\\"");
    ReplaceChar(ReplaceChar(ReplaceChar(out, '\n', "\\n"), '\r', "\\r"), '\t', "\\t")
  }

  function Quoted(value: string): string {
    "\"" + FivePasses(value) + "\""
  }

  function EscapeChar(c: char): string {
    if c == '\\' then "\\\\" else if c == '"' then "\\\""
    else if c == '\n' then "\\n" else if c == '\r' then "\\r" else if c == '\t' then "\\t" else [c]
  }

  function Escape(value: string): string {
    if value == "" then "" else EscapeChar(value[0]) + Escape(value[1..])
  }

  lemma FivePassesConcat(a: string, b: string)
    ensures FivePasses(a + b) == FivePasses(a) + FivePasses(b)
  {
    var a1, b1 := ReplaceChar(a, '\\', "\\\\"), ReplaceChar(b, '\\', "\\\\");
    var a2, b2 := ReplaceChar(a1, '"', "\\\""), ReplaceChar(b1, '"', "\\\"");
    var a3, b3 := ReplaceChar(a2, '\n', "\\n"), ReplaceChar(b2, '\n', "\\n");
    var a4, b4 := ReplaceChar(a3, '\r', "\\r"), ReplaceChar(b3, '\r', "\\r");
    ReplaceCharConcat(a, b, '\\', "\\\\");
    ReplaceCharConcat(a1, b1, '"', "\\\"");
    ReplaceCharConcat(a2, b2, '\n', "\\n");
    ReplaceCharConcat(a3, b3, '\r', "\\r");
    ReplaceCharConcat(a4, b4, '\t', "\\t");
  }

  lemma ReplaceOne(d: char, c: char, by_: string)
    ensures ReplaceChar([d], c, by_) == if d == c then by_ else [d]
  {
    assert ReplaceChar([d][1..], c, by_) == "";
  }

  lemma ReplaceTwo(d: char, e: char, c: char, by_: string)
    requires d != c && e != c
    ensures ReplaceChar([d, e], c, by_) == [d, e]
  {
    assert [d, e][1..] == [e];
    ReplaceOne(e, c, by_);
  }

  lemma FivePassesOnOne(c: char)
    ensures FivePasses([c]) == EscapeChar(c)
  {
    ReplaceOne(c, '\\', "\\\\");
    ReplaceOne(c, '"', "\\\"");
    ReplaceOne(c, '\n', "\\n");
    ReplaceOne(c, '\r', "\\r");
    ReplaceOne(c, '\t', "\\t");
    if c == '\\' {
      ReplaceTwo('\\', '\\', '"', "\\\"");
      ReplaceTwo('\\', '\\', '\n', "\\n");
      ReplaceTwo('\\', '\\', '\r', "\\r");
      ReplaceTwo('\\', '\\', '\t', "\\t");
    } else if c == '"' {
      ReplaceTwo('\\', '"', '\n', "\\n");
      ReplaceTwo('\\', '"', '\r', "\\r");
      ReplaceTwo('\\', '"', '\t', "\\t");
    } else if c == '\n' {
      ReplaceTwo('\\', 'n', '\r', "\\r");
      ReplaceTwo('\\', 'n', '\t', "\\t");
    } else if c == '\r' {
      ReplaceTwo('\\', 'r', '\t', "\\t");
    }
  }

  /** The order of the five passes is right: together they are one escape per character. */
  lemma {:induction false} FivePassesAreOneEscape(value: string)
    ensures FivePasses(value) == Escape(value)
    ensures Quoted(value) == "\"" + Escape(value) + "\""
  {
    if value != "" {
      FivePassesAreOneEscape(value[1..]);
      FivePassesOnOne(value[0]);
      assert value == [value[0]] + value[1..];
      FivePassesConcat([value[0]], value[1..]);
    }
  }

  /** Characters a basic string may not hold unescaped. */
  predicate Control(c: char) {
    c < ' ' || c == '\U{7F}'
  }

  /** Control characters `_toml_str` leaves as they are. */
  predicate Unsafe(c: char) {
    Control(c) && c != '\n' && c != '\r' && c != '\t'
  }

  predicate Safe(value: string) {
    forall c <- value :: !Unsafe(c)
  }

  function HexDigit(c: char): Option<nat> {
    if '0' <= c <= '9' then Some((c - '0') as nat)
    else if 'a' <= c <= 'f' then Some((c - 'a') as nat + 10)
    else if 'A' <= c <= 'F' then Some((c - 'A') as nat + 10)
    else None
  }

  function Hex(s: string): Option<nat> {
    if s == "" then Some(0)
    else match (Hex(s[..|s| - 1]), HexDigit(s[|s| - 1])) {
      case (Some(high), Some(low)) => Some(16 * high + low)
      case _ => None
    }
  }

  /** A `\uXXXX` or `\UXXXXXXXX` escape, for Unicode scalar values only. */
  function Scalar(digits: string): Option<char> {
    match Hex(digits)
    case Some(n) => if n < 0xD800 || 0xE000 <= n < 0x11_0000 then Some(n as char) else None
    case None => None
  }

  /** Reads a basic string after its opening quote: the value, and what follows the closing
      quote.  None when the text is not a valid basic string. */
  function Unquote(s: string): Option<(string, string)> {
    if s == "" then None
    else if s[0] == '"' then Some(("", s[1..]))
    else if s[0] == '\\' then
      if |s| < 2 then None
      else
        match s[1] {
          case 'b' => Prefix('\U{8}', Unquote(s[2..]))
          case 't' => Prefix('\t', Unquote(s[2..]))
          case 'n' => Prefix('\n', Unquote(s[2..]))
          case 'f' => Prefix('\U{C}', Unquote(s[2..]))
          case 'r' => Prefix('\r', Unquote(s[2..]))
          case '"' => Prefix('"', Unquote(s[2..]))
          case '\\' => Prefix('\\', Unquote(s[2..]))
          case 'u' =>
            if |s| < 6 || Scalar(s[2..6]).None? then None
            else Prefix(Scalar(s[2..6]).value, Unquote(s[6..]))
          case 'U' =>
            if |s| < 10 || Scalar(s[2..10]).None? then None
            else Prefix(Scalar(s[2..10]).value, Unquote(s[10..]))
          case _ => None
        }
    else if Control(s[0]) && s[0] != '\t' then None
    else Prefix(s[0], Unquote(s[1..]))
  }

  function Prefix(c: char, rest: Option<(string, string)>): Option<(string, string)> {
    match rest
    case Some((value, tail)) => Some(([c] + value, tail))
    case None => None
  }

  lemma {:induction false} UnquoteEscaped(value: string, tail: string)
    ensures Unquote(Escape(value) + "\"" + tail) == if Safe(value) then Some((value, tail)) else None
  {
    if value == "" {
      assert (Escape(value) + "\"" + tail)[1..] == tail;
    } else {
      var c, rest := value[0], value[1..];
      assert value == [c] + rest;
      UnquoteEscaped(rest, tail);
      var s := Escape(value) + "\"" + tail;
      var after := Escape(rest) + "\"" + tail;
      assert s == EscapeChar(c) + after;
      if |EscapeChar(c)| == 2 {
        assert s[2..] == after;
      } else {
        assert s[1..] == after;
      }
      assert Safe(value) <==> !Unsafe(c) && Safe(rest);
    }
  }

  /** What `_toml_str` writes reads back as the value exactly when the value holds no
      control character other than tab, LF and CR; otherwise it is not a TOML string at
      all, and the file that carries it no longer parses. */
  lemma QuotedRoundTrip(value: string, tail: string)
    ensures Quoted(value) != "" && Quoted(value)[0] == '"'
    ensures Unquote(Quoted(value)[1..] + tail) == Some((value, tail)) <==> Safe(value)
    ensures Unquote(Quoted(value)[1..] + tail).None? <==> !Safe(value)
  {
    FivePassesAreOneEscape(value);
    UnquoteEscaped(value, tail);
    assert Quoted(value)[1..] + tail == Escape(value) + "\"" + tail;
  }

  // --- the reader's other escapes ----------------------------------------------------

  /** The number these hexadecimal digits stand for. */
  function ValueOf(digits: seq<nat>): nat {
    if digits == [] then 0 else 16 * ValueOf(digits[..|digits| - 1]) + digits[|digits| - 1]
  }

  predicate IsDigit(c: char, d: nat) {
    d < 16 && (c as int) in if d < 10 then {48 + d} else {65 + d - 10, 97 + d - 10}
  }

  /** The text writes the digits, those above nine as small letters or capitals. */
  ghost predicate Spells(text: string, digits: seq<nat>) {
    |text| == |digits| && forall i :: 0 <= i < |text| ==> IsDigit(text[i], digits[i])
  }

  lemma DigitReads(c: char, d: nat)
    requires IsDigit(c, d)
    ensures HexDigit(c) == Some(d)
  {
  }

  lemma {:induction false} SpelledReads(text: string, digits: seq<nat>)
    requires Spells(text, digits)
    ensures Hex(text) == Some(ValueOf(digits))
  {
    if text != "" {
      SpelledReads(text[..|text| - 1], digits[..|digits| - 1]);
      DigitReads(text[|text| - 1], digits[|digits| - 1]);
    }
  }

  lemma ScalarReads(text: string, c: char)
    requires Hex(text) == Some(c as nat)
    ensures Scalar(text) == Some(c)
  {
  }

  /** The reader takes any character as an escape too, in four digits or in eight; so a file
      edited by hand can hold what the renderer cannot. */
  lemma EscapesReadBack(c: char, text: string, digits: seq<nat>, tail: string)
    requires Spells(text, digits) && ValueOf(digits) == c as nat
    ensures |text| == 4 ==> Unquote("\\u" + text + tail) == Prefix(c, Unquote(tail))
    ensures |text| == 8 ==> Unquote("\\U" + text + tail) == Prefix(c, Unquote(tail))
  {
    SpelledReads(text, digits);
    ScalarReads(text, c);
    if |text| == 4 {
      var s := "\\u" + text + tail;
      assert s[2..6] == text && s[6..] == tail;
    }
    if |text| == 8 {
      var s := "\\U" + text + tail;
      assert s[2..10] == text && s[10..] == tail;
    }
  }

  /** And the two short escapes that the renderer does not write. */
  lemma BackspaceAndFormFeedRead(tail: string)
    ensures Unquote("\\b" + tail) == Prefix('\U{8}', Unquote(tail))
    ensures Unquote("\\f" + tail) == Prefix('\U{C}', Unquote(tail))
  {
    assert ("\\b" + tail)[2..] == tail && ("\\f" + tail)[2..] == tail;
  }

  /** What a value may hold: tab, line feed, return, and everything from the space on but 127. */
  lemma SafeExactlyWhen(value: string)
    ensures Safe(value) <==>
              forall c <- value :: (c as int) in {9, 10, 13} || (32 <= (c as int) && (c as int) != 127)
  {
  }

  lemma {:induction false} EscapeHasNoBreak(value: string)
    ensures '\n' !in Escape(value)
  {
    if value != "" {
      EscapeHasNoBreak(value[1..]);
    }
  }

  // --- the file ----------------------------------------------------------------------

  type Entry = map<string, string>
  type Agents = seq<(string, Entry)>

  function Get(item: Entry, key: string): string {
    if key in item then item[key] else ""
  }

  function RoleOf(item: Entry): string {
    if "role" in item then item["role"] else "agent"
  }

  function With(kept: Entry, item: Entry, key: string): Entry {
    if Get(item, key) != "" then kept[key := item[key]] else kept
  }

  function NameAndRole(item: Entry): Entry {
    With(map[], item, "name")["role" := RoleOf(item)]
  }

  /** The fields that survive a write: the renderer is the whitelist. */
  function Normal(item: Entry): Entry {
    With(With(NameAndRole(item), item, "token"), item, "wake")
  }

  /** What a render keeps of an entry: name, token and wake where they are not empty, and always a
      role. */
  lemma NormalOnFields(item: Entry, key: string)
    ensures key in Normal(item) <==>
              key == "role" || (key in {"name", "token", "wake"} && key in item && item[key] != "")
    ensures key in Normal(item) ==> Normal(item)[key] == if key in item then item[key] else "agent"
  {
  }

  function Pair(key: string, value: string): string {
    key + " = " + Quoted(value)
  }

  function Optional(item: Entry, key: string): seq<string> {
    if Get(item, key) != "" then [Pair(key, item[key])] else []
  }

  function EntryLines(key: string, item: Entry): seq<string> {
    (["", "[agents." + key + "]"] + Optional(item, "name") + [Pair("role", RoleOf(item))])
      + (Optional(item, "token") + Optional(item, "wake"))
  }

  function AllEntryLines(agents: Agents): seq<string> {
    if agents == [] then [] else EntryLines(agents[0].0, agents[0].1) + AllEntryLines(agents[1..])
  }

  predicate ByKey(a: (string, Entry), b: (string, Entry)) {
    !Below(b.0, a.0)
  }

  function Pinned(hub: string): seq<string> {
    if hub != "" then [Pair("hub", hub), ""] else []
  }

  /** `_render_project` up to the write, with any comment lines above and below the hub. */
  function FileLines(above: seq<string>, below: seq<string>, hub: string, agents: Agents): seq<string> {
    above + [""] + Pinned(hub) + below + AllEntryLines(Sort(agents, ByKey))
  }

  /** The tables are rendered in order of their engines' names. */
  lemma TablesInOrder(agents: Agents, i: nat, j: nat)
    requires i < j < |agents|
    ensures var sorted := Sort(agents, ByKey); !Below(sorted[j].0, sorted[i].0)
  {
    forall a: (string, Entry), b: (string, Entry) ensures ByKey(a, b) || ByKey(b, a) {
      BelowAsymmetric(a.0, b.0);
    }
    forall a: (string, Entry), b: (string, Entry), c: (string, Entry) | ByKey(a, b) && ByKey(b, c) ensures ByKey(a, c) {
      ByKeyChains(a.0, b.0, c.0);
    }
    SortSorts(agents, ByKey);
  }

  lemma ByKeyChains(a: string, b: string, c: string)
    requires !Below(b, a) && !Below(c, b)
    ensures !Below(c, a)
  {
    BelowTotal(a, b);
    BelowTotal(b, c);
    if Below(c, a) {
      BelowAsymmetric(c, a);
      if a != b && b != c {
        BelowTransitive(a, b, c);
      }
    }
  }

  method RenderEntry(key: string, item: Entry) returns (lines: seq<string>)
    ensures lines == EntryLines(key, item)
  {
    lines := ["", "[agents." + key + "]"];
    if Get(item, "name") != "" {
      lines := lines + [Pair("name", item["name"])];
    }
    lines := lines + [Pair("role", RoleOf(item))];
    ghost var first := lines;
    if Get(item, "token") != "" {
      lines := lines + [Pair("token", item["token"])];
    }
    assert lines == first + Optional(item, "token");
    if Get(item, "wake") != "" {
      lines := lines + [Pair("wake", item["wake"])];
    }
    Regroup(first, Optional(item, "token"), Optional(item, "wake"));
  }

  lemma EntriesFrom(sorted: Agents, i: nat, lines: seq<string>)
    requires i < |sorted|
    ensures lines + AllEntryLines(sorted[i..]) ==
              (lines + EntryLines(sorted[i].0, sorted[i].1)) + AllEntryLines(sorted[i + 1..])
  {
    var here, rest := EntryLines(sorted[i].0, sorted[i].1), AllEntryLines(sorted[i + 1..]);
    assert sorted[i..][1..] == sorted[i + 1..];
    Regroup(lines, here, rest);
  }

  /** The loop of `_render_project`: one engine's lines after another. */
  method AppendEntries(start: seq<string>, sorted: Agents) returns (lines: seq<string>)
    ensures lines == start + AllEntryLines(sorted)
  {
    lines := start;
    var i := 0;
    while i < |sorted|
      invariant 0 <= i <= |sorted|
      invariant lines + AllEntryLines(sorted[i..]) == start + AllEntryLines(sorted)
    {
      EntriesFrom(sorted, i, lines);
      var entry := RenderEntry(sorted[i].0, sorted[i].1);
      lines := lines + entry;
      i := i + 1;
    }
    assert sorted[i..] == [];
    assert lines + [] == lines;
  }

  method RenderProject(above: seq<string>, below: seq<string>, hub: string, agents: Agents) returns (text: string)
    ensures text == Terminated(FileLines(above, below, hub, agents))
  {
    var lines := above + [""];
    if hub != "" {
      lines := lines + [Pair("hub", hub), ""];
    }
    lines := lines + below;
    assert hub == "" ==> above + [""] + [] + below == above + [""] + below;
    lines := AppendEntries(lines, Sort(agents, ByKey));
    text := Terminated(lines);
  }

  // --- the reader --------------------------------------------------------------------

  datatype Doc = Doc(top: Entry, agents: map<string, Entry>)

  datatype Reader = Reader(doc: Doc, table: Option<string>)

  predicate Bare(key: string) {
    key != "" && forall c <- key :: 'a' <= c <= 'z' || 'A' <= c <= 'Z' || '0' <= c <= '9' || c == '_' || c == '-'
  }

  /** A name that needs no dotted or quoted key and leaves its line a line.  Written as a key
      without quotes it is read as itself or, when it is not bare, not at all. */
  predicate Plain(key: string) {
    && (forall c <- key :: c != '.' && c != '"' && c != '\'' && c != ']' && c != '#' && c != '\n')
    && Stripped(key)
  }

  /** Letters of ASCII, digits, underscores and dashes. */
  lemma BareExactlyWhen(key: string)
    ensures Bare(key) <==>
              key != "" && forall c <- key ::
                var n := c as int; 48 <= n <= 57 || 65 <= n <= 90 || 97 <= n <= 122 || n == 45 || n == 95
  {
  }

  lemma BareIsPlain(key: string)
    requires Bare(key)
    ensures Plain(key)
  {
    assert key[0] in key && key[|key| - 1] in key;
  }

  function SkipBlanks(s: string): string {
    if s != "" && (s[0] == ' ' || s[0] == '\t') then SkipBlanks(s[1..]) else s
  }

  function DropBlanks(s: string): string {
    if s != "" && (s[|s| - 1] == ' ' || s[|s| - 1] == '\t') then DropBlanks(s[..|s| - 1]) else s
  }

  function ReadHeader(r: Reader, line: string): Option<Reader> {
    if |line| > 9 && line[..8] == "[agents." && line[|line| - 1] == ']' then
      var key := line[8..|line| - 1];
      if Bare(key) && key !in r.doc.agents then
        Some(Reader(r.doc.(agents := r.doc.agents[key := map[]]), Some(key)))
      else None
    else None
  }

  function ReadPair(line: string): Option<(string, string)> {
    var (left, right) := Partition(line, '=');
    var key, value := DropBlanks(SkipBlanks(left)), SkipBlanks(right);
    if !Bare(key) || value == "" || value[0] != '"' then None
    else match Unquote(value[1..]) {
      case Some((text, tail)) =>
        if SkipBlanks(tail) == "" || SkipBlanks(tail)[0] == '#' then Some((key, text)) else None
      case None => None
    }
  }

  function ReadLine(r: Reader, line: string): Option<Reader> {
    if line == "" || line[0] == '#' then Some(r)
    else if line[0] == '[' then ReadHeader(r, line)
    else match ReadPair(line) {
      case None => None
      case Some((key, value)) =>
        match r.table {
          case None =>
            if key in r.doc.top then None else Some(r.(doc := r.doc.(top := r.doc.top[key := value])))
          case Some(table) =>
            if table !in r.doc.agents || key in r.doc.agents[table] then None
            else Some(r.(doc := r.doc.(agents := r.doc.agents[table := r.doc.agents[table][key := value]])))
        }
    }
  }

  function ReadLines(r: Reader, lines: seq<string>): Option<Reader>
    decreases |lines|
  {
    if lines == [] then Some(r)
    else match ReadLine(r, lines[0]) {
      case None => None
      case Some(next) => ReadLines(next, lines[1..])
    }
  }

  function SplitLines(text: string): seq<string>
    decreases |text|
  {
    var (line, rest) := Partition(text, '\n');
    if '\n' in text then [line] + SplitLines(rest) else [line]
  }

  function Read(text: string): Option<Doc> {
    match ReadLines(Reader(Doc(map[], map[]), None), SplitLines(text))
    case None => None
    case Some(r) => Some(r.doc)
  }

  lemma {:induction false} ReadLinesConcat(r: Reader, a: seq<string>, b: seq<string>)
    ensures ReadLines(r, a + b) == match ReadLines(r, a) { case None => None case Some(next) => ReadLines(next, b) }
    decreases |a|
  {
    if a == [] {
      assert a + b == b;
    } else {
      assert (a + b)[1..] == a[1..] + b;
      match ReadLine(r, a[0]) {
        case None =>
        case Some(next) => ReadLinesConcat(next, a[1..], b);
      }
    }
  }

  lemma {:induction false} SplitTerminated(lines: seq<string>)
    requires forall line <- lines :: '\n' !in line
    ensures SplitLines(Terminated(lines)) == lines + [""]
  {
    if lines != [] {
      SplitTerminated(lines[1..]);
      PartitionAt(lines[0], '\n', Terminated(lines[1..]));
      assert lines[0] + "\n" + Terminated(lines[1..]) == lines[0] + ['\n'] + Terminated(lines[1..]);
      assert lines == [lines[0]] + lines[1..];
    }
  }

  lemma {:induction false} ReadComments(r: Reader, lines: seq<string>)
    requires Comments(lines)
    ensures ReadLines(r, lines) == Some(r)
  {
    if lines != [] {
      ReadComments(r, lines[1..]);
    }
  }

  lemma KeyBeforeEquals(key: string, right: string)
    requires Bare(key)
    ensures Partition(key + " = " + right, '=') == (key + " ", " " + right)
    ensures DropBlanks(SkipBlanks(key + " ")) == key
  {
    assert key + " = " + right == (key + " ") + ['='] + (" " + right);
    assert '=' !in key + " ";
    PartitionAt(key + " ", '=', " " + right);
    SpacedKey(key);
  }

  lemma SpacedKey(key: string)
    requires Bare(key)
    ensures DropBlanks(SkipBlanks(key + " ")) == key
  {
    assert key[0] in key && key[|key| - 1] in key;
    assert (key + " ")[..|key|] == key;
    assert SkipBlanks(key + " ") == key + " ";
    assert DropBlanks(key + " ") == DropBlanks(key) == key;
  }

  lemma ReadPairOf(key: string, value: string)
    requires Bare(key)
    ensures ReadPair(Pair(key, value)) == if Safe(value) then Some((key, value)) else None
  {
    var quoted := Quoted(value);
    KeyBeforeEquals(key, quoted);
    QuotedRoundTrip(value, "");
    assert (" " + quoted)[1..] == quoted;
    assert SkipBlanks(" " + quoted) == SkipBlanks(quoted) == quoted;
    assert quoted[1..] + "" == quoted[1..];
  }

  predicate Blanks(s: string) {
    forall c <- s :: c == ' ' || c == '\t'
  }

  lemma {:induction false} BlanksSkipped(blanks: string, rest: string)
    requires Blanks(blanks) && (rest == "" || (rest[0] != ' ' && rest[0] != '\t'))
    ensures SkipBlanks(blanks + rest) == rest
  {
    if blanks == "" {
      assert blanks + rest == rest;
    } else {
      assert blanks[0] in blanks && forall c <- blanks[1..] :: c in blanks;
      assert (blanks + rest)[1..] == blanks[1..] + rest;
      BlanksSkipped(blanks[1..], rest);
    }
  }

  lemma {:induction false} BlanksDropped(rest: string, blanks: string)
    requires Blanks(blanks) && rest != "" && rest[|rest| - 1] != ' ' && rest[|rest| - 1] != '\t'
    ensures DropBlanks(rest + blanks) == rest
  {
    if blanks == "" {
      assert rest + blanks == rest;
    } else {
      var all := rest + blanks;
      var fewer := blanks[..|blanks| - 1];
      assert blanks[|blanks| - 1] in blanks;
      forall c | c in fewer ensures c in blanks {
      }
      assert Blanks(fewer) && all[..|all| - 1] == rest + fewer;
      BlanksDropped(rest, fewer);
    }
  }

  lemma BlankKey(before: string, key: string, between: string)
    requires Blanks(before) && Blanks(between) && Bare(key)
    ensures DropBlanks(SkipBlanks(before + key + between)) == key && '=' !in before + key + between
  {
    assert key[0] in key && key[|key| - 1] in key;
    assert before + key + between == before + (key + between);
    assert (key + between)[0] == key[0];
    BlanksSkipped(before, key + between);
    BlanksDropped(key, between);
  }

  /** The reader takes blanks around the key and the value, and a comment behind it; so a line
      edited by hand reads as the one the renderer writes. */
  lemma SpacedPairReads(
      before: string, key: string, between: string, gap: string, value: string, behind: string, comment: string)
    requires Blanks(before) && Blanks(between) && Blanks(gap) && Blanks(behind) && Bare(key) && Safe(value)
    requires comment == "" || comment[0] == '#'
    ensures ReadPair(before + key + between + ['='] + (gap + Quoted(value) + (behind + comment))) == Some((key, value))
  {
    var quoted, tail := Quoted(value), behind + comment;
    BlankKey(before, key, between);
    PartitionAt(before + key + between, '=', gap + quoted + tail);
    QuotedRoundTrip(value, tail);
    assert gap + quoted + tail == gap + (quoted + tail) && (quoted + tail)[0] == '"';
    BlanksSkipped(gap, quoted + tail);
    assert (quoted + tail)[1..] == quoted[1..] + tail;
    BlanksSkipped(behind, comment);
  }

  /** A key twice in one table is refused, and so are a table twice and any table but an agent's. */
  lemma TwiceIsRefused(r: Reader, key: string, value: string)
    requires Bare(key)
    ensures (r.table.None? && key in r.doc.top)
            || (r.table.Some? && r.table.value in r.doc.agents && key in r.doc.agents[r.table.value]) ==>
              ReadLine(r, Pair(key, value)).None?
    ensures key in r.doc.agents ==> ReadLine(r, "[agents." + key + "]").None?
    ensures !("[agents." <= "[" + value) ==> ReadLine(r, "[" + value).None?
  {
    ReadPairOf(key, value);
    assert key[0] in key && Pair(key, value)[0] == key[0];
    var line := "[agents." + key + "]";
    assert line[8..|line| - 1] == key && line[0] == '[';
  }

  predicate SafeEntry(item: Entry) {
    && Safe(RoleOf(item))
    && Safe(Get(item, "name")) && Safe(Get(item, "token")) && Safe(Get(item, "wake"))
  }

  function Opened(r: Reader, key: string, item: Entry): Reader {
    Reader(r.doc.(agents := r.doc.agents[key := item]), Some(key))
  }

  /** Reading one pair into the open table. */
  lemma ReadInto(r: Reader, table: string, kept: Entry, key: string, value: string)
    requires Bare(key) && key !in kept
    ensures ReadLine(Opened(r, table, kept), Pair(key, value)) ==
              if Safe(value) then Some(Opened(r, table, kept[key := value])) else None
  {
    ReadPairOf(key, value);
    assert key[0] in key && Pair(key, value)[0] == key[0];
    ReadLineInto(r, table, kept, Pair(key, value), key, value);
  }

  lemma ReadLineInto(r: Reader, table: string, kept: Entry, line: string, key: string, value: string)
    requires key !in kept && line != "" && line[0] != '#' && line[0] != '['
    ensures ReadPair(line) == Some((key, value)) ==>
              ReadLine(Opened(r, table, kept), line) == Some(Opened(r, table, kept[key := value]))
    ensures ReadPair(line).None? ==> ReadLine(Opened(r, table, kept), line).None?
  {
    LastPutStays(r.doc.agents, table, kept, kept[key := value]);
  }

  lemma LastPutStays<K, V>(m: map<K, V>, key: K, first: V, last: V)
    ensures m[key := first][key := last] == m[key := last]
  {
  }

  lemma ReadOptional(r: Reader, table: string, kept: Entry, item: Entry, key: string)
    requires Bare(key) && key !in kept
    ensures ReadLines(Opened(r, table, kept), Optional(item, key)) ==
              if Safe(Get(item, key)) then Some(Opened(r, table, With(kept, item, key))) else None
  {
    if Get(item, key) != "" {
      ReadInto(r, table, kept, key, item[key]);
      assert [Pair(key, item[key])][1..] == [];
    }
  }

  lemma ReadOpening(r: Reader, key: string)
    requires Bare(key) && key !in r.doc.agents
    ensures ReadLines(r, ["", "[agents." + key + "]"]) ==
              Some(Opened(r, key, map[]))
  {
    var line := "[agents." + key + "]";
    assert line[8..|line| - 1] == key && line[..8] == "[agents.";
    ReadComments(r, [""]);
    ReadLinesConcat(r, [""], [line]);
    assert [""] + [line] == ["", line];
  }

  lemma ReadFirstHalf(r: Reader, key: string, item: Entry)
    requires Bare(key) && key !in r.doc.agents
    ensures ReadLines(r, ["", "[agents." + key + "]"] + Optional(item, "name") + [Pair("role", RoleOf(item))]) ==
              if Safe(Get(item, "name")) && Safe(RoleOf(item)) then Some(Opened(r, key, NameAndRole(item))) else None
  {
    var l0, l1, l2 := ["", "[agents." + key + "]"], Optional(item, "name"), [Pair("role", RoleOf(item))];
    ReadLinesConcat(r, l0 + l1, l2);
    ReadLinesConcat(r, l0, l1);
    ReadOpening(r, key);
    ReadOptional(r, key, map[], item, "name");
    if Safe(Get(item, "name")) {
      ReadInto(r, key, With(map[], item, "name"), "role", RoleOf(item));
      assert l2[1..] == [];
    }
  }

  lemma ReadSecondHalf(r: Reader, key: string, item: Entry)
    ensures ReadLines(Opened(r, key, NameAndRole(item)), Optional(item, "token") + Optional(item, "wake")) ==
              if Safe(Get(item, "token")) && Safe(Get(item, "wake")) then Some(Opened(r, key, Normal(item))) else None
  {
    ReadLinesConcat(Opened(r, key, NameAndRole(item)), Optional(item, "token"), Optional(item, "wake"));
    ReadOptional(r, key, NameAndRole(item), item, "token");
    if Safe(Get(item, "token")) {
      ReadOptional(r, key, With(NameAndRole(item), item, "token"), item, "wake");
    }
  }

  /** A table's header under a key that is not bare is no header. */
  lemma ReadNoOpening(r: Reader, key: string, rest: seq<string>)
    requires !Bare(key)
    ensures ReadLines(r, ["", "[agents." + key + "]"] + rest).None?
  {
    var line := "[agents." + key + "]";
    assert |line| > 9 ==> line[8..|line| - 1] == key;
    ReadLinesConcat(r, ["", line], rest);
    ReadLinesConcat(r, [""], [line]);
    ReadComments(r, [""]);
    assert [""] + [line] == ["", line];
  }

  /** What the renderer was given for one engine can be read back. */
  predicate Fits(e: (string, Entry)) {
    Bare(e.0) && SafeEntry(e.1)
  }

  /** One engine's table reads back as the fields a write keeps, or not at all. */
  lemma ReadEntry(r: Reader, key: string, item: Entry)
    requires key !in r.doc.agents
    ensures ReadLines(r, EntryLines(key, item)) ==
              if Fits((key, item)) then Some(Opened(r, key, Normal(item))) else None
  {
    if !Bare(key) {
      var header, name, role := ["", "[agents." + key + "]"], Optional(item, "name"), [Pair("role", RoleOf(item))];
      Regroup(header, name, role);
      Regroup(header, name + role, Optional(item, "token") + Optional(item, "wake"));
      ReadNoOpening(r, key, name + role + (Optional(item, "token") + Optional(item, "wake")));
      return;
    }
    ReadLinesConcat(r, ["", "[agents." + key + "]"] + Optional(item, "name") + [Pair("role", RoleOf(item))],
                    Optional(item, "token") + Optional(item, "wake"));
    ReadFirstHalf(r, key, item);
    ReadSecondHalf(r, key, item);
  }

  // --- the whole file ----------------------------------------------------------------

  /** Engine names as a Python dict holds them: no name twice. */
  ghost predicate Distinct(agents: Agents) {
    forall i, j :: 0 <= i < j < |agents| ==> agents[i].0 != agents[j].0
  }

  function AddAll(read: map<string, Entry>, agents: Agents): map<string, Entry>
    decreases |agents|
  {
    if agents == [] then read else AddAll(read[agents[0].0 := Normal(agents[0].1)], agents[1..])
  }

  /** The file's content once normalised: every engine with the fields a write keeps. */
  function AsRead(hub: string, agents: Agents): Doc {
    Doc(if hub != "" then map["hub" := hub] else map[], AddAll(map[], agents))
  }

  lemma {:induction false} AddAllMisses(read: map<string, Entry>, agents: Agents, key: string)
    requires forall e <- agents :: e.0 != key
    ensures key in AddAll(read, agents) <==> key in read
    ensures key in read ==> AddAll(read, agents)[key] == read[key]
    decreases |agents|
  {
    if agents != [] {
      assert agents[0] in agents;
      AddAllMisses(read[agents[0].0 := Normal(agents[0].1)], agents[1..], key);
    }
  }

  lemma {:induction false} AddAllFinds(read: map<string, Entry>, agents: Agents, e: (string, Entry))
    requires Distinct(agents) && e in agents
    ensures e.0 in AddAll(read, agents) && AddAll(read, agents)[e.0] == Normal(e.1)
    decreases |agents|
  {
    var next := read[agents[0].0 := Normal(agents[0].1)];
    if e == agents[0] {
      AddAllMisses(next, agents[1..], e.0);
    } else {
      AddAllFinds(next, agents[1..], e);
    }
  }

  lemma AddAllIs(agents: Agents, all: map<string, Entry>)
    requires Distinct(agents)
    requires forall e <- agents :: e.0 in all && all[e.0] == Normal(e.1)
    requires forall key <- all :: exists e :: e in agents && e.0 == key
    ensures AddAll(map[], agents) == all
  {
    var read := AddAll(map[], agents);
    forall key
      ensures key in read <==> key in all
      ensures key in read && key in all ==> read[key] == all[key]
    {
      if e :| e in agents && e.0 == key {
        AddAllFinds(map[], agents, e);
      } else {
        AddAllMisses(map[], agents, key);
      }
    }
  }

  lemma {:induction false} InsertKeepsDistinct(e: (string, Entry), agents: Agents)
    requires Distinct(agents) && forall o <- agents :: o.0 != e.0
    ensures Distinct(Insert(e, agents, ByKey))
  {
    if agents != [] && !ByKey(e, agents[0]) {
      InsertKeepsDistinct(e, agents[1..]);
      var rest := Insert(e, agents[1..], ByKey);
      forall j | 0 <= j < |rest| ensures rest[j].0 != agents[0].0 {
        InsertedMembers(e, agents[1..], ByKey, rest[j]);
      }
    }
  }

  lemma {:induction false} SortKeepsDistinct(agents: Agents)
    requires Distinct(agents)
    ensures Distinct(Sort(agents, ByKey))
  {
    if agents != [] {
      SortKeepsDistinct(agents[1..]);
      forall o | o in Sort(agents[1..], ByKey) ensures o.0 != agents[0].0 {
        SortedMembers(agents[1..], ByKey, o);
      }
      InsertKeepsDistinct(agents[0], Sort(agents[1..], ByKey));
    }
  }

  lemma SameEntriesSameMap(a: Agents, b: Agents)
    requires Distinct(a) && Distinct(b) && forall e :: e in a <==> e in b
    ensures AddAll(map[], a) == AddAll(map[], b)
  {
    var x, y := AddAll(map[], a), AddAll(map[], b);
    forall key ensures key in x <==> key in y
               ensures key in x && key in y ==> x[key] == y[key] {
      if e :| e in a && e.0 == key {
        AddAllFinds(map[], a, e);
        AddAllFinds(map[], b, e);
      } else {
        AddAllMisses(map[], a, key);
        AddAllMisses(map[], b, key);
      }
    }
  }

  lemma SortKeepsEntries(agents: Agents)
    requires Distinct(agents)
    ensures Distinct(Sort(agents, ByKey)) && forall e :: e in Sort(agents, ByKey) <==> e in agents
    ensures AddAll(map[], Sort(agents, ByKey)) == AddAll(map[], agents)
  {
    var sorted := Sort(agents, ByKey);
    SortKeepsDistinct(agents);
    forall e ensures e in sorted <==> e in agents {
      SortedMembers(agents, ByKey, e);
    }
    SameEntriesSameMap(sorted, agents);
  }

  predicate AllFit(agents: Agents) {
    forall e <- agents :: Fits(e)
  }

  lemma FirstFits(agents: Agents)
    requires agents != []
    ensures agents[0] in agents
    ensures AllFit(agents) <==> Fits(agents[0]) && AllFit(agents[1..])
  {
    assert agents == [agents[0]] + agents[1..];
  }

  lemma {:induction false} ReadEntries(r: Reader, agents: Agents)
    requires Distinct(agents) && forall e <- agents :: e.0 !in r.doc.agents
    ensures if AllFit(agents)
            then ReadLines(r, AllEntryLines(agents)).Some?
                 && ReadLines(r, AllEntryLines(agents)).value.doc == Doc(r.doc.top, AddAll(r.doc.agents, agents))
            else ReadLines(r, AllEntryLines(agents)).None?
    decreases |agents|
  {
    if agents != [] {
      var (key, item) := agents[0];
      FirstFits(agents);
      ReadLinesConcat(r, EntryLines(key, item), AllEntryLines(agents[1..]));
      ReadEntry(r, key, item);
      if Fits((key, item)) {
        ReadEntries(Opened(r, key, Normal(item)), agents[1..]);
      }
    }
  }

  ghost predicate Comments(lines: seq<string>) {
    forall line <- lines :: '\n' !in line && (line == "" || line[0] == '#')
  }

  lemma HasNoBreak(key: string, value: string)
    requires Bare(key)
    ensures '\n' !in Pair(key, value)
  {
    FivePassesAreOneEscape(value);
    EscapeHasNoBreak(value);
  }

  lemma {:induction false} EntriesHaveNoBreak(agents: Agents)
    requires forall e <- agents :: Plain(e.0)
    ensures forall line <- AllEntryLines(agents) :: '\n' !in line
  {
    if agents != [] {
      assert agents[0] in agents;
      EntriesHaveNoBreak(agents[1..]);
      EntryHasNoBreak(agents[0].0, agents[0].1);
    }
  }

  ghost predicate OneLiners(lines: seq<string>) {
    forall line <- lines :: '\n' !in line
  }

  lemma OptionalHasNoBreak(item: Entry, key: string)
    requires Bare(key)
    ensures OneLiners(Optional(item, key))
  {
    HasNoBreak(key, Get(item, key));
  }

  lemma EntryHasNoBreak(key: string, item: Entry)
    requires Plain(key)
    ensures OneLiners(EntryLines(key, item))
  {
    OptionalHasNoBreak(item, "name");
    HasNoBreak("role", RoleOf(item));
    OptionalHasNoBreak(item, "token");
    OptionalHasNoBreak(item, "wake");
    HeaderHasNoBreak(key);
    assert OneLiners(["", "[agents." + key + "]"] + Optional(item, "name") + [Pair("role", RoleOf(item))]);
    assert OneLiners(Optional(item, "token") + Optional(item, "wake"));
  }

  lemma HeaderHasNoBreak(key: string)
    requires Plain(key)
    ensures OneLiners(["", "[agents." + key + "]"])
  {
    assert '\n' !in "[agents." + key + "]";
  }

  function Top(hub: string): Reader {
    Reader(Doc(if hub != "" then map["hub" := hub] else map[], map[]), None)
  }

  lemma ReadPinned(hub: string)
    ensures ReadLines(Top(""), Pinned(hub)) == if Safe(hub) then Some(Top(hub)) else None
  {
    if hub != "" {
      ReadPairOf("hub", hub);
      ReadLinesConcat(Top(""), [Pair("hub", hub)], [""]);
      assert [Pair("hub", hub)] + [""] == Pinned(hub);
      assert [Pair("hub", hub)][1..] == [];
      ReadComments(Top(hub), [""]);
      assert map[]["hub" := hub] == map["hub" := hub];
    }
  }

  /** Everything above the first engine's table yields the hub alone. */
  lemma ReadTop(above: seq<string>, pinned: seq<string>, below: seq<string>, rest: seq<string>, hub: string)
    requires Comments(above) && Comments(below) && pinned == Pinned(hub)
    ensures ReadLines(Top(""), above + [""] + pinned + below + rest) ==
              if Safe(hub) then ReadLines(Top(hub), rest) else None
  {
    ReadLinesConcat(Top(""), above + [""] + pinned + below, rest);
    ReadLinesConcat(Top(""), above + [""] + pinned, below);
    ReadLinesConcat(Top(""), above + [""], pinned);
    ReadComments(Top(""), above + [""]);
    ReadPinned(hub);
    ReadComments(Top(hub), below);
  }

  lemma FileLinesHaveNoBreak(above: seq<string>, below: seq<string>, hub: string, agents: Agents)
    requires Comments(above) && Comments(below) && forall e <- agents :: Plain(e.0)
    ensures forall line <- FileLines(above, below, hub, agents) :: '\n' !in line
  {
    var sorted := Sort(agents, ByKey);
    forall e | e in sorted ensures Plain(e.0) {
      SortedMembers(agents, ByKey, e);
    }
    EntriesHaveNoBreak(sorted);
    HasNoBreak("hub", hub);
  }

  /** Reads back what `_render_project` writes: the hub and, for every engine, the fields a
      write keeps, exactly when every engine's name is a bare key and every value written is
      free of the control characters that `_toml_str` does not escape.  With one such name
      or value anywhere, the whole file no longer parses and every identity in it is lost. */
  lemma FileRoundTrip(above: seq<string>, below: seq<string>, hub: string, agents: Agents)
    requires Comments(above) && Comments(below)
    requires Distinct(agents) && forall e <- agents :: Plain(e.0)
    ensures Read(Terminated(FileLines(above, below, hub, agents))) ==
              if Safe(hub) && forall e <- agents :: Fits(e) then Some(AsRead(hub, agents)) else None
  {
    var sorted := Sort(agents, ByKey);
    var entries := AllEntryLines(sorted);
    SortKeepsEntries(agents);
    FileLinesHaveNoBreak(above, below, hub, agents);
    SplitTerminated(FileLines(above, below, hub, agents));
    Regroup(above + [""] + Pinned(hub) + below, entries, [""]);
    ReadTop(above, Pinned(hub), below, entries + [""], hub);
    ReadLinesConcat(Top(hub), entries, [""]);
    ReadEntries(Top(hub), sorted);
    if ReadLines(Top(hub), entries).Some? {
      ReadComments(ReadLines(Top(hub), entries).value, [""]);
    }
  }

  // --- the machine-wide file ---------------------------------------------------------

  type Pairs = seq<(string, string)>

  function PairLines(settings: Pairs): seq<string> {
    if settings == [] then [] else [Pair(settings[0].0, settings[0].1)] + PairLines(settings[1..])
  }

  ghost predicate DistinctKeys(settings: Pairs) {
    forall i, j :: 0 <= i < j < |settings| ==> settings[i].0 != settings[j].0
  }

  predicate FitsPair(p: (string, string)) {
    Bare(p.0) && Safe(p.1)
  }

  function PutAll(read: Entry, settings: Pairs): Entry
    decreases |settings|
  {
    if settings == [] then read else PutAll(read[settings[0].0 := settings[0].1], settings[1..])
  }

  lemma {:induction false} SpacesAroundPlain(key: string)
    requires Stripped(key)
    ensures DropBlanks(SkipBlanks(key + " ")) == key
  {
    if key == "" {
      assert key + " " == " " && " "[1..] == "";
    } else {
      assert (key + " ")[..|key|] == key;
      assert SkipBlanks(key + " ") == key + " ";
      assert DropBlanks(key + " ") == DropBlanks(key) == key;
    }
  }

  lemma {:induction false} SkipFindsNoQuote(after: string, rest: string)
    requires '"' !in after
    ensures SkipBlanks(after + " = " + rest) != "" && SkipBlanks(after + " = " + rest)[0] != '"'
  {
    if after == "" {
      assert (after + " = " + rest)[1..] == "= " + rest;
    } else {
      assert (after + " = " + rest)[1..] == after[1..] + " = " + rest;
      SkipFindsNoQuote(after[1..], rest);
    }
  }

  lemma PairUnderNoKey(r: Reader, key: string, value: string)
    requires Plain(key) && !Bare(key)
    ensures ReadLine(r, Pair(key, value)).None?
  {
    var quoted, line := Quoted(value), Pair(key, value);
    assert line[|line| - 1] == '"';
    if '=' in key {
      var (before, after) := Partition(key, '=');
      assert line == before + ['='] + (after + " = " + quoted);
      PartitionAt(before, '=', after + " = " + quoted);
      assert forall c <- after :: c in key;
      SkipFindsNoQuote(after, quoted);
    } else {
      assert line == (key + " ") + ['='] + (" " + quoted);
      PartitionAt(key + " ", '=', " " + quoted);
      SpacesAroundPlain(key);
    }
    assert key != "" ==> key[0] in key && line[0] == key[0];
  }

  lemma ReadTopPair(r: Reader, key: string, value: string)
    requires Plain(key) && r.table.None? && key !in r.doc.top
    ensures ReadLine(r, Pair(key, value)) ==
              if FitsPair((key, value)) then Some(r.(doc := r.doc.(top := r.doc.top[key := value]))) else None
  {
    if Bare(key) {
      ReadPairOf(key, value);
      assert key[0] in key && Pair(key, value)[0] == key[0];
    } else {
      PairUnderNoKey(r, key, value);
    }
  }

  predicate AllPairsFit(settings: Pairs) {
    forall p <- settings :: FitsPair(p)
  }

  lemma FirstPairFits(settings: Pairs)
    requires settings != []
    ensures settings[0] in settings
    ensures AllPairsFit(settings) <==> FitsPair(settings[0]) && AllPairsFit(settings[1..])
  {
    assert settings == [settings[0]] + settings[1..];
  }

  lemma {:induction false} ReadPairs(r: Reader, settings: Pairs)
    requires DistinctKeys(settings) && r.table.None?
    requires forall p <- settings :: Plain(p.0) && p.0 !in r.doc.top
    ensures ReadLines(r, PairLines(settings)) ==
              if AllPairsFit(settings)
              then Some(r.(doc := r.doc.(top := PutAll(r.doc.top, settings)))) else None
    decreases |settings|
  {
    if settings != [] {
      var (key, value) := settings[0];
      FirstPairFits(settings);
      ReadTopPair(r, key, value);
      assert PairLines(settings)[1..] == PairLines(settings[1..]);
      if FitsPair((key, value)) {
        ReadPairs(r.(doc := r.doc.(top := r.doc.top[key := value])), settings[1..]);
      }
    }
  }

  lemma {:induction false} PairsHaveNoBreak(settings: Pairs)
    requires forall p <- settings :: Plain(p.0)
    ensures OneLiners(PairLines(settings))
  {
    if settings != [] {
      assert settings[0] in settings;
      PairsHaveNoBreak(settings[1..]);
      FivePassesAreOneEscape(settings[0].1);
      EscapeHasNoBreak(settings[0].1);
      assert '\n' !in Pair(settings[0].0, settings[0].1);
    }
  }

  /** Reads back what `_render_global` writes, whatever the order of its lines: every setting,
      exactly when every key is bare and every value is free of those control characters. */
  lemma GlobalRoundTrip(above: seq<string>, settings: Pairs)
    requires Comments(above) && DistinctKeys(settings) && forall p <- settings :: Plain(p.0)
    ensures Read(Terminated(above + PairLines(settings))) ==
              if forall p <- settings :: FitsPair(p) then Some(Doc(PutAll(map[], settings), map[])) else None
  {
    var lines := PairLines(settings);
    PairsHaveNoBreak(settings);
    SplitTerminated(above + lines);
    Regroup(above, lines, [""]);
    ReadLinesConcat(Top(""), above, lines + [""]);
    ReadComments(Top(""), above);
    ReadLinesConcat(Top(""), lines, [""]);
    ReadPairs(Top(""), settings);
    if ReadLines(Top(""), lines).Some? {
      ReadComments(ReadLines(Top(""), lines).value, [""]);
    }
  }
}
