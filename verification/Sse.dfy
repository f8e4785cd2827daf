/** `SseParser` of `client.py`, fed a chunk at a time. */
module Sse {

  /* The format is a subset of the WHATWG HTML Living Standard, sections 9.2.5 and 9.2.6: a
     lone CR does not end a line, and the last event id does not outlive its event. */

  import opened LineFold
  import opened Text
  import opened Wrappers

  datatype SseEvent = SseEvent(event: string, data: string, id: Option<string>)

  /** What has accumulated since the last dispatched event. */
  datatype Fields = Fields(data: seq<string>, event: string, id: Option<string>)

  const BLANK := Fields([], "message", None)

  datatype Parser = Parser(fields: Fields, buffer: string)

  const FRESH := Parser(BLANK, "")

  function Joined(lines: seq<string>): string
    requires lines != []
  {
    if |lines| == 1 then lines[0] else lines[0] + "\n" + Joined(lines[1..])
  }

  /** The fields in progress and the events dispatched so far. */
  datatype Progress = Progress(fields: Fields, out: seq<SseEvent>)

  /** `_line`: one complete line without its terminator. */
  function Line(p: Progress, line: string): Progress {
    var f := p.fields;
    if line != "" && line[0] == ':' then p
    else if line == "" then
      if f.data == [] then p.(fields := BLANK)
      else Progress(BLANK, p.out + [SseEvent(f.event, Joined(f.data), f.id)])
    else
      var (field, rest) := Partition(line, ':');
      var value := if rest != "" && rest[0] == ' ' then rest[1..] else rest;
      if field == "data" then p.(fields := f.(data := f.data + [value]))
      else if field == "event" then p.(fields := f.(event := value))
      else if field == "id" then p.(fields := f.(id := Some(value)))
      else p
  }

  /** What any one line does.  A comment does nothing.  A blank line ends the event, and
      dispatches it if it has data.  Of the other lines the text before the colon decides:
      a `data` line adds a line, `event` and `id` replace, and anything else is ignored; one
      space after the colon does not count, and a line without a colon has an empty value. */
  lemma WhatALineDoes(p: Progress, field: string, value: string)
    requires field != "" && ':' !in field && (value == "" || value[0] != ' ')
    ensures
      var f := p.fields;
      var next :=
        if field == "data" then p.(fields := Fields(f.data + [value], f.event, f.id))
        else if field == "event" then p.(fields := Fields(f.data, value, f.id))
        else if field == "id" then p.(fields := Fields(f.data, f.event, Some(value)))
        else p;
      && Line(p, field + [':'] + value) == next && Line(p, field + [':'] + (" " + value)) == next
      && (value == "" ==> Line(p, field) == next)
    ensures Line(p, ":" + value) == p
    ensures Line(p, "").fields == Fields([], "message", None)
    ensures p.fields.data == [] ==> Line(p, "").out == p.out
    ensures p.fields.data != [] ==>
              Line(p, "").out == p.out + [SseEvent(p.fields.event, Joined(p.fields.data), p.fields.id)]
  {
    PartitionAt(field, ':', value);
    PartitionAt(field, ':', " " + value);
    assert (" " + value)[1..] == value;
    assert Partition(field, ':') == (field, "");
  }

  /** `feed`: the parser after a chunk, and the events that chunk completed. */
  function Feed(p: Parser, chunk: string): (Parser, seq<SseEvent>) {
    var (done, left) := Drain(Line, Progress(p.fields, []), p.buffer + chunk);
    (Parser(done.fields, left), done.out)
  }

  function FeedAll(p: Parser, chunks: seq<string>): (Parser, seq<SseEvent>)
    decreases |chunks|
  {
    if chunks == [] then (p, [])
    else
      var (next, done) := Feed(p, chunks[0]);
      var (last, later) := FeedAll(next, chunks[1..]);
      (last, done + later)
  }

  class SseParser {
    var buffer: string
    var data: seq<string>
    var event: string
    var id: Option<string>

    ghost function State(): Parser
      reads this
    {
      Parser(Fields(data, event, id), buffer)
    }

    constructor ()
      ensures State() == FRESH
    {
      buffer, data, event, id := "", [], "message", None;
    }

    method FeedChunk(chunk: string) returns (events: seq<SseEvent>)
      modifies this
      ensures (State(), events) == Feed(old(State()), chunk)
    {
      buffer := buffer + chunk;
      events := [];
      ghost var all := Drain(Line, Progress(State().fields, []), buffer);
      while '\n' in buffer
        invariant Drain(Line, Progress(State().fields, events), buffer) == all
        decreases |buffer|
      {
        var (line, rest) := Partition(buffer, '\n');
        buffer := rest;
        var done := OneLine(StripReturns(line), events);
        if done.Some? {
          events := events + [done.value];
        }
      }
    }

    method OneLine(line: string, ghost out: seq<SseEvent>) returns (done: Option<SseEvent>)
      modifies this`data, this`event, this`id
      ensures
        var emitted := match done { case Some(e) => out + [e] case None => out };
        Progress(State().fields, emitted) == Line(Progress(old(State().fields), out), line)
    {
      if line != "" && line[0] == ':' {
        return None;
      }
      if line == "" {
        if data == [] {
          event, id := "message", None;
          return None;
        }
        done := Some(SseEvent(event, Joined(data), id));
        data, event, id := [], "message", None;
        return;
      }
      var (field, rest) := Partition(line, ':');
      var value := if rest != "" && rest[0] == ' ' then rest[1..] else rest;
      if field == "data" {
        data := data + [value];
      } else if field == "event" {
        event := value;
      } else if field == "id" {
        id := Some(value);
      }
      return None;
    }
  }

  // --- chunk independence ------------------------------------------------------------

  lemma LineAppends(p: Progress, line: string, earlier: seq<SseEvent>)
    ensures Line(p.(out := earlier + p.out), line) == Line(p, line).(out := earlier + Line(p, line).out)
  {
  }

  /** Events already dispatched do not influence later ones. */
  lemma {:induction false} DrainAppends(f: Fields, earlier: seq<SseEvent>, out: seq<SseEvent>, text: string)
    ensures
      var (done, left) := Drain(Line, Progress(f, out), text);
      Drain(Line, Progress(f, earlier + out), text) == (done.(out := earlier + done.out), left)
    decreases |text|
  {
    if '\n' in text {
      var (line, rest) := Partition(text, '\n');
      LineAppends(Progress(f, out), StripReturns(line), earlier);
      var next := Line(Progress(f, out), StripReturns(line));
      DrainAppends(next.fields, earlier, next.out, rest);
    }
  }

  function Flatten(chunks: seq<string>): string {
    if chunks == [] then "" else chunks[0] + Flatten(chunks[1..])
  }

  /** A step for which events already dispatched do not matter. */
  ghost predicate Forgets(step: (Progress, string) -> Progress) {
    forall f, earlier, text {:trigger ForgetsFrom(step, f, earlier, text)} :: ForgetsFrom(step, f, earlier, text)
  }

  ghost predicate ForgetsFrom(
    step: (Progress, string) -> Progress, f: Fields, earlier: seq<SseEvent>, text: string)
  {
    var (done, left) := Drain(step, Progress(f, []), text);
    Drain(step, Progress(f, earlier), text) == (done.(out := earlier + done.out), left)
  }

  lemma LineForgets()
    ensures Forgets(Line)
  {
    forall f, earlier, text ensures ForgetsFrom(Line, f, earlier, text) {
      DrainAppends(f, earlier, [], text);
      assert earlier + [] == earlier;
    }
  }

  lemma DrainAgain(step: (Progress, string) -> Progress, f: Fields, text: string, rest: string)
    requires Forgets(step)
    ensures
      var (done, left) := Drain(step, Progress(f, []), text);
      var (last, over) := Drain(step, Progress(done.fields, []), left + rest);
      Drain(step, Progress(f, []), text + rest) == (last.(out := done.out + last.out), over)
  {
    var (done, left) := Drain(step, Progress(f, []), text);
    DrainInTwo(step, Progress(f, []), text, rest);
    DrainsOn(step, done, left + rest);
  }

  lemma DrainsOn(step: (Progress, string) -> Progress, p: Progress, text: string)
    requires Forgets(step)
    ensures
      var (done, left) := Drain(step, Progress(p.fields, []), text);
      Drain(step, p, text) == (done.(out := p.out + done.out), left)
  {
    assert ForgetsFrom(step, p.fields, p.out, text);
  }

  /** Two chunks are one. */
  lemma FeedInTwo(p: Parser, chunk: string, rest: string)
    ensures
      var (next, done) := Feed(p, chunk);
      var (last, later) := Feed(next, rest);
      '\n' !in next.buffer && Feed(p, chunk + rest) == (last, done + later)
  {
    LineForgets();
    DrainAgain(Line, p.fields, p.buffer + chunk, rest);
    DrainLeavesNoBreak(Line, Progress(p.fields, []), p.buffer + chunk);
    assert p.buffer + chunk + rest == p.buffer + (chunk + rest);
  }

  /** However an input is cut into chunks, the events and the final state of the parser are
      those of feeding it in one piece. */
  lemma {:induction false} ChunkIndependence(p: Parser, chunks: seq<string>)
    requires '\n' !in p.buffer
    ensures FeedAll(p, chunks) == Feed(p, Flatten(chunks))
    decreases |chunks|
  {
    if chunks == [] {
      assert p.buffer + "" == p.buffer;
    } else {
      FeedInTwo(p, chunks[0], Flatten(chunks[1..]));
      ChunkIndependence(Feed(p, chunks[0]).0, chunks[1..]);
    }
  }

  // --- round trip --------------------------------------------------------------------

  /** The pieces of a payload, one per `data:` line. */
  function Pieces(data: string): (r: seq<string>)
    ensures r != []
    decreases |data|
  {
    var (piece, rest) := Partition(data, '\n');
    if '\n' in data then [piece] + Pieces(rest) else [piece]
  }

  lemma {:induction false} PiecesJoin(data: string)
    ensures Joined(Pieces(data)) == data
    decreases |data|
  {
    if '\n' in data {
      var (piece, rest) := Partition(data, '\n');
      PiecesJoin(rest);
      assert Pieces(data)[1..] == Pieces(rest);
      assert piece + "\n" + rest == piece + ['\n'] + rest;
    }
  }

  function DataLines(pieces: seq<string>): seq<string> {
    if pieces == [] then [] else ["data: " + pieces[0]] + DataLines(pieces[1..])
  }

  /** The `event:` and `id:` lines of an event, in either order; the default name and an
      absent id may be left out. */
  predicate Heads(e: SseEvent, head: seq<string>) {
    var name := "event: " + e.event;
    match e.id
    case None => head == [name] || (head == [] && e.event == "message")
    case Some(id) =>
      head == [name, "id: " + id] || head == ["id: " + id, name] || (head == ["id: " + id] && e.event == "message")
  }

  /** The lines that announce the events, each under its own `event:` and `id:` lines. */
  function Framed(events: seq<SseEvent>, heads: seq<seq<string>>): seq<string>
    requires |heads| == |events|
  {
    if events == [] then [] else Frame(events[0], heads[0]) + Framed(events[1..], heads[1..])
  }

  function Frame(e: SseEvent, head: seq<string>): seq<string> {
    head + DataLines(Pieces(e.data)) + [""]
  }

  ghost predicate HeadsFit(events: seq<SseEvent>, heads: seq<seq<string>>) {
    |heads| == |events| && (events != [] ==> Heads(events[0], heads[0]) && HeadsFit(events[1..], heads[1..]))
  }

  lemma DataLine(p: Progress, value: string)
    ensures Line(p, "data: " + value) == p.(fields := p.fields.(data := p.fields.data + [value]))
  {
    assert "data: " + value == "data" + [':'] + (" " + value);
    PartitionAt("data", ':', " " + value);
    assert (" " + value)[1..] == value;
  }

  lemma EventLine(p: Progress, value: string)
    ensures Line(p, "event: " + value) == p.(fields := p.fields.(event := value))
  {
    assert "event: " + value == "event" + [':'] + (" " + value);
    PartitionAt("event", ':', " " + value);
    assert (" " + value)[1..] == value;
  }

  lemma IdLine(p: Progress, value: string)
    ensures Line(p, "id: " + value) == p.(fields := p.fields.(id := Some(value)))
  {
    assert "id: " + value == "id" + [':'] + (" " + value);
    PartitionAt("id", ':', " " + value);
    assert (" " + value)[1..] == value;
  }

  lemma FoldOne(p: Progress, line: string)
    ensures FoldLines(Line, p, [line]) == Line(p, line)
  {
    assert [line][1..] == [];
  }

  lemma FoldTwo(p: Progress, first: string, second: string)
    ensures FoldLines(Line, p, [first, second]) == Line(Line(p, first), second)
  {
    assert [first, second] == [first] + [second];
    FoldInTwo(Line, p, [first], [second]);
    FoldOne(p, first);
    FoldOne(Line(p, first), second);
  }

  ghost predicate AppendsAt(step: (Progress, string) -> Progress, p: Progress, value: string) {
    step(p, "data: " + value) == p.(fields := p.fields.(data := p.fields.data + [value]))
  }

  /** A step that appends the value of a `data` line appends them all. */
  lemma {:induction false} FoldData(
      step: (Progress, string) -> Progress, f: Fields, out: seq<SseEvent>, pieces: seq<string>)
    requires forall p, value {:trigger AppendsAt(step, p, value)} :: AppendsAt(step, p, value)
    ensures FoldLines(step, Progress(f, out), DataLines(pieces)) == Progress(f.(data := f.data + pieces), out)
    decreases |pieces|
  {
    if pieces == [] {
      assert f.data + [] == f.data;
    } else {
      var lines := ["data: " + pieces[0]] + DataLines(pieces[1..]);
      assert lines[0] == "data: " + pieces[0] && lines[1..] == DataLines(pieces[1..]);
      assert AppendsAt(step, Progress(f, out), pieces[0]);
      FoldData(step, f.(data := f.data + [pieces[0]]), out, pieces[1..]);
      assert (f.data + [pieces[0]]) + pieces[1..] == f.data + pieces;
    }
  }

  lemma ReadData(f: Fields, out: seq<SseEvent>, pieces: seq<string>)
    ensures FoldLines(Line, Progress(f, out), DataLines(pieces)) == Progress(f.(data := f.data + pieces), out)
  {
    forall p, value ensures AppendsAt(Line, p, value) {
      DataLine(p, value);
    }
    FoldData(Line, f, out, pieces);
  }

  lemma ReadNameAndId(event: string, id: string, out: seq<SseEvent>)
    ensures FoldLines(Line, Progress(BLANK, out), ["event: " + event, "id: " + id]) ==
              Progress(Fields([], event, Some(id)), out)
    ensures FoldLines(Line, Progress(BLANK, out), ["id: " + id, "event: " + event]) ==
              Progress(Fields([], event, Some(id)), out)
  {
    var start := Progress(BLANK, out);
    EventLine(start, event);
    IdLine(start, id);
    FoldTwo(start, "event: " + event, "id: " + id);
    FoldTwo(start, "id: " + id, "event: " + event);
    IdLine(Progress(Fields([], event, None), out), id);
    EventLine(Progress(Fields([], "message", Some(id)), out), event);
  }

  lemma ReadHeads(e: SseEvent, head: seq<string>, out: seq<SseEvent>)
    requires Heads(e, head)
    ensures FoldLines(Line, Progress(BLANK, out), head) == Progress(Fields([], e.event, e.id), out)
  {
    var start := Progress(BLANK, out);
    if |head| == 2 {
      ReadNameAndId(e.event, e.id.value, out);
    } else if |head| == 1 {
      FoldOne(start, head[0]);
      assert head == [head[0]];
      EventLine(start, e.event);
      if e.id.Some? {
        IdLine(start, e.id.value);
      }
    }
  }

  lemma ReadFrame(e: SseEvent, head: seq<string>, out: seq<SseEvent>)
    requires Heads(e, head)
    ensures FoldLines(Line, Progress(BLANK, out), Frame(e, head)) == Progress(BLANK, out + [e])
  {
    var body := DataLines(Pieces(e.data));
    FoldInTwo(Line, Progress(BLANK, out), head + body, [""]);
    FoldInTwo(Line, Progress(BLANK, out), head, body);
    ReadHeads(e, head, out);
    ReadData(Fields([], e.event, e.id), out, Pieces(e.data));
    assert [] + Pieces(e.data) == Pieces(e.data);
    PiecesJoin(e.data);
    FoldOne(Progress(Fields(Pieces(e.data), e.event, e.id), out), "");
  }

  ghost predicate FrameAt(
    step: (Progress, string) -> Progress, e: SseEvent, head: seq<string>, before: seq<SseEvent>)
  {
    Heads(e, head) ==> FoldLines(step, Progress(BLANK, before), Frame(e, head)) == Progress(BLANK, before + [e])
  }

  /** Any step that turns each frame into its event turns all frames into all events. */
  lemma {:induction false} FoldFramed(
      step: (Progress, string) -> Progress, events: seq<SseEvent>, heads: seq<seq<string>>, out: seq<SseEvent>)
    requires HeadsFit(events, heads)
    requires forall e, head, before {:trigger FrameAt(step, e, head, before)} :: FrameAt(step, e, head, before)
    ensures FoldLines(step, Progress(BLANK, out), Framed(events, heads)) == Progress(BLANK, out + events)
    decreases |events|
  {
    if events == [] {
      assert out + [] == out;
    } else {
      FoldInTwo(step, Progress(BLANK, out), Frame(events[0], heads[0]), Framed(events[1..], heads[1..]));
      assert FrameAt(step, events[0], heads[0], out);
      FoldFramed(step, events[1..], heads[1..], out + [events[0]]);
      assert (out + [events[0]]) + events[1..] == out + events;
    }
  }

  predicate Comment(line: string) {
    line != "" && line[0] == ':'
  }

  /** The round trip: frame any events, put comment lines anywhere between the lines, end
      each line with LF after any number of CRs, cut the text into any chunks; the parser
      gives exactly the events back, in order, and is as fresh as before. */
  lemma RoundTrip(events: seq<SseEvent>, heads: seq<seq<string>>, raw: seq<string>, chunks: seq<string>)
    requires HeadsFit(events, heads)
    requires forall line <- raw :: '\n' !in line
    requires Meant(raw, Comment) == Framed(events, heads)
    requires Flatten(chunks) == Terminated(raw)
    ensures FeedAll(FRESH, chunks) == (FRESH, events)
  {
    ChunkIndependence(FRESH, chunks);
    assert "" + Terminated(raw) == Terminated(raw);
    DrainTerminated(Line, Progress(BLANK, []), raw, Comment);
    forall e, head, before ensures FrameAt(Line, e, head, before) {
      if Heads(e, head) {
        ReadFrame(e, head, before);
      }
    }
    FoldFramed(Line, events, heads, []);
    assert [] + events == events;
  }

  // --- rendering ---------------------------------------------------------------------

  /** Fields a line can carry: no break inside, no return at the end. */
  predicate Plain(text: string) {
    '\n' !in text && (text == "" || text[|text| - 1] != '\r')
  }

  predicate Renderable(e: SseEvent) {
    Plain(e.event) && (e.id.Some? ==> Plain(e.id.value)) && forall piece <- Pieces(e.data) :: Plain(piece)
  }

  /** One way to render: name, then id, then data, every line ended by CR LF. */
  function HeadOf(e: SseEvent): seq<string> {
    ["event: " + e.event] + (if e.id.Some? then ["id: " + e.id.value] else [])
  }

  function HeadsOf(events: seq<SseEvent>): (r: seq<seq<string>>)
    ensures HeadsFit(events, r)
  {
    if events == [] then [] else [HeadOf(events[0])] + HeadsOf(events[1..])
  }

  function WithReturns(lines: seq<string>): seq<string> {
    if lines == [] then [] else [lines[0] + "\r"] + WithReturns(lines[1..])
  }

  lemma {:induction false} ReturnsAreDropped(lines: seq<string>)
    requires forall line <- lines :: Plain(line) && !Comment(line)
    ensures Meant(WithReturns(lines), Comment) == lines
    ensures forall line <- WithReturns(lines) :: '\n' !in line
  {
    if lines != [] {
      ReturnsAreDropped(lines[1..]);
      var line, rest := lines[0], WithReturns(lines[1..]);
      assert line in lines;
      assert (line + "\r")[..|line|] == line;
      assert StripReturns(line) == line;
      assert ([line + "\r"] + rest)[1..] == rest;
      assert lines == [line] + lines[1..];
    }
  }

  lemma {:induction false} DataLinesArePlain(pieces: seq<string>)
    requires forall piece <- pieces :: Plain(piece)
    ensures forall line <- DataLines(pieces) :: Plain(line) && !Comment(line)
  {
    if pieces != [] {
      DataLinesArePlain(pieces[1..]);
      assert pieces[0] in pieces;
      assert Plain("data: " + pieces[0]);
    }
  }

  lemma {:induction false} FramedIsPlain(events: seq<SseEvent>)
    requires forall e <- events :: Renderable(e)
    ensures forall line <- Framed(events, HeadsOf(events)) :: Plain(line) && !Comment(line)
    decreases |events|
  {
    if events != [] {
      var e := events[0];
      assert e in events && HeadsOf(events)[1..] == HeadsOf(events[1..]) && HeadsOf(events)[0] == HeadOf(e);
      FramedIsPlain(events[1..]);
      DataLinesArePlain(Pieces(e.data));
      assert Plain("event: " + e.event) && !Comment("event: " + e.event);
      if e.id.Some? {
        assert Plain("id: " + e.id.value) && !Comment("id: " + e.id.value);
      }
    }
  }

  /** Any events whose fields fit on lines survive being rendered with CR LF and parsed from
      any chunks. */
  lemma RenderedRoundTrip(events: seq<SseEvent>, chunks: seq<string>)
    requires forall e <- events :: Renderable(e)
    requires Flatten(chunks) == Terminated(WithReturns(Framed(events, HeadsOf(events))))
    ensures FeedAll(FRESH, chunks) == (FRESH, events)
  {
    FramedIsPlain(events);
    ReturnsAreDropped(Framed(events, HeadsOf(events)));
    RoundTrip(events, HeadsOf(events), WithReturns(Framed(events, HeadsOf(events))), chunks);
  }
}
