/** Retry-safe replies of `mcp_client.py`. */
module Replies {

  /* Look before sending, one at a time and in batches.  Authors and parents of notes are the
     last segments of their URIs. */

  import opened Addressing
  import opened Sorting
  import opened Text
  import opened Wrappers

  const BATCH_CAP: nat := 25

  datatype Note = Note(id: nat, author: string, parent: string, body: string)

  /** What becomes of a posted reply: stored and answered, stored with the answer lost on the
      way back, or never stored. */
  datatype Post = Answered | AnswerLost | NotStored

  datatype Weather = Weather(threadReadable: bool, post: Post)

  datatype Outcome = Delivered(receipt: Note) | Failed | Duplicate(found: Option<Note>) | Unknown | NotAttempted

  /** Is this note our reply with exactly this body? */
  predicate IsReply(n: Note, me: string, parent: string, body: string) {
    n.author == me && n.parent == parent && n.body == body
  }

  /** `_existing_reply` on a thread it could read: the first such note. */
  function Existing(notes: seq<Note>, me: string, parent: string, body: string): Option<Note> {
    if notes == [] then None
    else if IsReply(notes[0], me, parent, body) then Some(notes[0])
    else Existing(notes[1..], me, parent, body)
  }

  /** A client: the name it is configured with, and the name the hub files its notes under. */
  datatype Self = Self(name: string, filed: string)

  /** The hub files under the local name of what the client says it is called. */
  function Configured(name: string): Self {
    Self(name, if Parse(name).Ok? then Parse(name).value.name else name)
  }

  /** So a client finds its own notes exactly when it is configured with its name as the hub
      knows it: a bare name, trimmed and in lower case. */
  lemma OwnNameExactlyWhen(name: string)
    requires Parse(name).Ok?
    ensures Configured(name).name == name && CanonicalPart(Configured(name).filed)
    ensures OwnName(Configured(name)) <==> CanonicalPart(name)
  {
    ParsedIsCanonical(name);
    if CanonicalPart(name) {
      BareNameParses(name);
    }
  }

  /** The client knows its notes by the name they come back under. */
  predicate OwnName(me: Self) {
    me.filed == me.name
  }

  function NewNote(notes: seq<Note>, me: Self, parent: string, body: string): Note {
    Note(|notes|, me.filed, parent, body)
  }

  function Replied(notes: seq<Note>, me: Self, parent: string, body: string, w: Weather): Outcome {
    if !w.threadReadable then Unknown
    else if Existing(notes, me.name, parent, body).Some? then Duplicate(Existing(notes, me.name, parent, body))
    else if w.post == Answered then Delivered(NewNote(notes, me, parent, body))
    else Failed
  }

  function NotesAfter(notes: seq<Note>, me: Self, parent: string, body: string, w: Weather): seq<Note> {
    if !w.threadReadable || Existing(notes, me.name, parent, body).Some? || w.post == NotStored then notes
    else notes + [NewNote(notes, me, parent, body)]
  }

  /** The hub: what it stores, and which threads it was asked for. */
  class Hub {
    var notes: seq<Note>
    var asked: seq<string>

    constructor (notes: seq<Note>)
      ensures this.notes == notes && asked == []
    {
      this.notes, asked := notes, [];
    }

    method ReadThread(id: string, w: Weather) returns (thread: Option<seq<Note>>)
      modifies this`asked
      ensures asked == old(asked) + [id]
      ensures thread == if w.threadReadable then Some(notes) else None
    {
      asked := asked + [id];
      thread := if w.threadReadable then Some(notes) else None;
    }

    method PostReply(me: Self, id: string, body: string, w: Weather) returns (receipt: Option<Note>)
      modifies this`notes
      ensures notes == old(notes) + if w.post == NotStored then [] else [NewNote(old(notes), me, Leaf(id), body)]
      ensures receipt == if w.post == Answered then Some(NewNote(old(notes), me, Leaf(id), body)) else None
    {
      receipt := None;
      if w.post != NotStored {
        var note := NewNote(notes, me, Leaf(id), body);
        notes := notes + [note];
        if w.post == Answered {
          receipt := Some(note);
        }
      }
    }
  }

  class Client {
    const me: Self
    const hub: Hub

    constructor (me: Self, hub: Hub)
      ensures this.me == me && this.hub == hub
    {
      this.me, this.hub := me, hub;
    }

    method ExistingReply(thread: seq<Note>, id: string, body: string) returns (found: Option<Note>)
      ensures found == Existing(thread, me.name, Leaf(id), body)
    {
      var parent := Leaf(id);
      for i := 0 to |thread|
        invariant Existing(thread, me.name, parent, body) == Existing(thread[i..], me.name, parent, body)
      {
        if IsReply(thread[i], me.name, parent, body) {
          return Some(thread[i]);
        }
      }
      return None;
    }

    /** `_reply_once`. */
    method ReplyOnce(id: string, body: string, w: Weather) returns (outcome: Outcome)
      modifies hub
      ensures outcome == Replied(old(hub.notes), me, Leaf(id), body, w)
      ensures hub.notes == NotesAfter(old(hub.notes), me, Leaf(id), body, w)
      ensures hub.asked == old(hub.asked) + [id]
    {
      var thread := hub.ReadThread(id, w);
      if thread.None? {
        return Unknown;
      }
      var found := ExistingReply(thread.value, id, body);
      if found.Some? {
        return Duplicate(found);
      }
      var receipt := hub.PostReply(me, id, body, w);
      return if receipt.Some? then Delivered(receipt.value) else Failed;
    }
  }

  // --- one reply at most -------------------------------------------------------------

  function Held(notes: seq<Note>, me: string, parent: string, body: string): seq<Note> {
    Filter(notes, n => IsReply(n, me, parent, body))
  }

  lemma {:induction false} FoundWhenHeld(notes: seq<Note>, me: string, parent: string, body: string)
    ensures Existing(notes, me, parent, body).Some? <==> Held(notes, me, parent, body) != []
    ensures Existing(notes, me, parent, body).Some? ==>
              Existing(notes, me, parent, body).value == Held(notes, me, parent, body)[0]
  {
    if notes != [] {
      FoundWhenHeld(notes[1..], me, parent, body);
    }
  }

  lemma HeldAfterOne(notes: seq<Note>, n: Note, me: string, parent: string, body: string)
    ensures Held(notes + [n], me, parent, body) ==
              Held(notes, me, parent, body) + if IsReply(n, me, parent, body) then [n] else []
  {
    FilterConcat(notes, [n], x => IsReply(x, me, parent, body));
    assert Filter([n], x => IsReply(x, me, parent, body)) == if IsReply(n, me, parent, body) then [n] else [];
  }

  /** At most one reply by this author for each parent and body. */
  ghost predicate NoDoubles(notes: seq<Note>, author: string) {
    forall parent: string, body: string :: |Held(notes, author, parent, body)| <= 1
  }

  lemma ReplyAddsNoDouble(notes: seq<Note>, me: Self, to: string, body: string, w: Weather)
    requires OwnName(me) && NoDoubles(notes, me.name)
    ensures NoDoubles(NotesAfter(notes, me, to, body, w), me.name)
  {
    FoundWhenHeld(notes, me.name, to, body);
    var after := NotesAfter(notes, me, to, body, w);
    if after != notes {
      forall parent: string, text: string ensures |Held(after, me.name, parent, text)| <= 1 {
        HeldAfterOne(notes, NewNote(notes, me, to, body), me.name, parent, text);
      }
    }
  }

  datatype Event = Reply(id: string, body: string, w: Weather) | Elsewhere(n: Note)

  /** The hub's notes after a history of our replies and of notes by anybody else. */
  function After(first: seq<Note>, me: Self, events: seq<Event>): seq<Note> {
    if events == [] then first
    else
      var before := After(first, me, events[..|events| - 1]);
      match events[|events| - 1]
      case Reply(id, body, w) => NotesAfter(before, me, Leaf(id), body, w)
      case Elsewhere(n) => before + [n]
  }

  /** No note is ever lost: those there at first, and those of everybody else. */
  lemma {:induction false} HistoryKeeps(first: seq<Note>, me: Self, events: seq<Event>, n: Note)
    ensures first <= After(first, me, events)
    ensures Elsewhere(n) in events ==> n in After(first, me, events)
  {
    if events != [] {
      var before := events[..|events| - 1];
      HistoryKeeps(first, me, before, n);
      assert events == before + [events[|events| - 1]];
    }
  }

  ghost predicate OthersAreOthers(events: seq<Event>, me: Self) {
    forall e <- events :: e.Elsewhere? ==> e.n.author != me.filed
  }

  lemma {:induction false} NeverTwice(first: seq<Note>, me: Self, events: seq<Event>)
    requires OwnName(me) && NoDoubles(first, me.name) && OthersAreOthers(events, me)
    ensures NoDoubles(After(first, me, events), me.name)
  {
    if events != [] {
      var before := After(first, me, events[..|events| - 1]);
      NeverTwice(first, me, events[..|events| - 1]);
      match events[|events| - 1]
      case Reply(id, body, w) => ReplyAddsNoDouble(before, me, Leaf(id), body, w);
      case Elsewhere(n) =>
        forall parent: string, body: string ensures |Held(before + [n], me.name, parent, body)| <= 1 {
          HeldAfterOne(before, n, me.name, parent, body);
        }
    }
  }

  const CLEAR := Weather(true, Answered)

  function ClearSky(i: nat): Weather {
    CLEAR
  }

  /** A client configured with another spelling of its name never finds its own reply: the
      same reply, sent twice in the clearest weather, is held twice. */
  lemma OtherSpellingDoubles(me: Self, id: string, body: string)
    requires !OwnName(me)
    ensures |Held(After([], me, [Reply(id, body, CLEAR), Reply(id, body, CLEAR)]), me.filed, Leaf(id), body)| == 2
  {
    var parent, once := Leaf(id), Reply(id, body, CLEAR);
    var one := [NewNote([], me, parent, body)];
    assert After([], me, []) == [];
    assert [once][..0] == [] && After([], me, [once]) == one;
    assert one[1..] == [] && Existing(one, me.name, parent, body) == None;
    assert [once, once][..1] == [once] && After([], me, [once, once]) == one + [NewNote(one, me, parent, body)];
    HeldAfterOne([], one[0], me.filed, parent, body);
    assert [] + [one[0]] == one;
    HeldAfterOne(one, NewNote(one, me, parent, body), me.filed, parent, body);
  }

  /** Replies never double, whatever happens, exactly for a client configured with its own
      name as the hub files it. */
  lemma NeverTwiceExactlyWhen(me: Self)
    ensures OwnName(me) <==>
              forall events: seq<Event> :: OthersAreOthers(events, me) ==>
                                             NoDoubles(After([], me, events), me.filed)
  {
    if OwnName(me) {
      forall events: seq<Event> | OthersAreOthers(events, me) ensures NoDoubles(After([], me, events), me.name) {
        NeverTwice([], me, events);
      }
    } else {
      OtherSpellingDoubles(me, "m", "done");
      var events := [Reply("m", "done", CLEAR), Reply("m", "done", CLEAR)];
      assert OthersAreOthers(events, me);
      assert !NoDoubles(After([], me, events), me.filed);
    }
  }

  /** Retrying is safe: whatever checks failed, requests were lost and receipts went missing
      before, an answer of delivered or duplicate means the hub holds exactly this one
      reply, the one the receipt shows; and unknown means nothing was sent. */
  lemma AnswersAreTrue(first: seq<Note>, me: Self, events: seq<Event>, id: string, body: string, w: Weather)
    requires OwnName(me) && NoDoubles(first, me.name) && OthersAreOthers(events, me)
    ensures
      var before := After(first, me, events);
      var after := NotesAfter(before, me, Leaf(id), body, w);
      match Replied(before, me, Leaf(id), body, w)
      case Delivered(receipt) =>
        Held(after, me.name, Leaf(id), body) == [receipt] && Held(before, me.name, Leaf(id), body) == []
      case Duplicate(found) => found.Some? && Held(after, me.name, Leaf(id), body) == [found.value] && after == before
      case Unknown => after == before
      case _ => Held(before, me.name, Leaf(id), body) == []
  {
    NeverTwice(first, me, events);
    var before := After(first, me, events);
    FoundWhenHeld(before, me.name, Leaf(id), body);
    HeldAfterOne(before, NewNote(before, me, Leaf(id), body), me.name, Leaf(id), body);
    assert |Held(before, me.name, Leaf(id), body)| <= 1;
  }

  lemma HeldOnFields(notes: seq<Note>, author: string, parent: string, body: string)
    ensures Held(notes, author, parent, body) != [] <==>
              exists n <- notes :: n.author == author && n.parent == parent && n.body == body
    ensures forall n :: n in Held(notes, author, parent, body) <==>
                          n in notes && n.author == author && n.parent == parent && n.body == body
  {
    var held := Held(notes, author, parent, body);
    forall n ensures n in held <==> n in notes && n.author == author && n.parent == parent && n.body == body {
      FilterMembers(notes, x => IsReply(x, author, parent, body), n);
    }
    if held != [] {
      assert held[0] in held;
    }
  }

  /** When each answer is given, after any history: nothing is sent blind; a reply that is
      there is not sent again; and one that was sent is delivered exactly when its receipt
      came, whatever the hub kept of it. */
  lemma AnswersExactlyWhen(first: seq<Note>, me: Self, events: seq<Event>, id: string, body: string, w: Weather)
    ensures
      var before := After(first, me, events);
      var after := NotesAfter(before, me, Leaf(id), body, w);
      var answer := Replied(before, me, Leaf(id), body, w);
      var note := Note(|before|, me.filed, Leaf(id), body);
      var there := exists n <- before :: n.author == me.name && n.parent == Leaf(id) && n.body == body;
      && (answer.Unknown? <==> !w.threadReadable)
      && (answer.Duplicate? <==> w.threadReadable && there)
      && (answer.Delivered? <==> w.threadReadable && !there && w.post == Answered)
      && (answer.Failed? <==> w.threadReadable && !there && w.post != Answered)
      && (answer.Delivered? ==> answer.receipt == note)
      && after == if w.threadReadable && !there && w.post != NotStored then before + [note] else before
    ensures
      var before := After(first, me, events);
      var answer := Replied(before, me, Leaf(id), body, w);
      answer.Duplicate? ==>
        && answer.found.Some? && answer.found.value in before
        && answer.found.value.author == me.name && answer.found.value.parent == Leaf(id)
        && answer.found.value.body == body
  {
    var before := After(first, me, events);
    FoundWhenHeld(before, me.name, Leaf(id), body);
    HeldOnFields(before, me.name, Leaf(id), body);
  }

  lemma TwoAreHeld(notes: seq<Note>, i: nat, j: nat, author: string, parent: string, body: string)
    requires i < j < |notes|
    requires IsReply(notes[i], author, parent, body) && IsReply(notes[j], author, parent, body)
    ensures |Held(notes, author, parent, body)| >= 2
  {
    assert notes == notes[..j] + notes[j..];
    FilterConcat(notes[..j], notes[j..], n => IsReply(n, author, parent, body));
    assert notes[..j][i] in notes[..j] && notes[j..][0] in notes[j..];
    HeldOnFields(notes[..j], author, parent, body);
    HeldOnFields(notes[j..], author, parent, body);
  }

  lemma {:induction false} TwoFound(notes: seq<Note>, author: string, parent: string, body: string)
      returns (k: nat, l: nat)
    requires |Held(notes, author, parent, body)| >= 2
    ensures k < l < |notes| && IsReply(notes[k], author, parent, body) && IsReply(notes[l], author, parent, body)
  {
    var rest := notes[1..];
    if IsReply(notes[0], author, parent, body) {
      HeldOnFields(rest, author, parent, body);
      var n :| n in rest && IsReply(n, author, parent, body);
      l :| 0 <= l < |rest| && rest[l] == n;
      k, l := 0, l + 1;
    } else {
      k, l := TwoFound(rest, author, parent, body);
      k, l := k + 1, l + 1;
    }
  }

  lemma HeldOnce(notes: seq<Note>, author: string, parent: string, body: string)
    requires forall k, l {:trigger notes[k], notes[l]} :: 0 <= k < l < |notes| ==>
               notes[k].author != author || notes[l].author != author
               || notes[k].parent != notes[l].parent || notes[k].body != notes[l].body
    ensures |Held(notes, author, parent, body)| <= 1
  {
    if |Held(notes, author, parent, body)| >= 2 {
      var k, l := TwoFound(notes, author, parent, body);
    }
  }

  /** On the fields: of the notes of a client under its own name, no two ever have the same
      parent and the same body. */
  lemma NeverTwiceOnFields(first: seq<Note>, me: Self, events: seq<Event>, i: nat, j: nat)
    requires me.filed == me.name && OthersAreOthers(events, me)
    requires forall k, l {:trigger first[k], first[l]} :: 0 <= k < l < |first| ==>
               first[k].author != me.name || first[l].author != me.name
               || first[k].parent != first[l].parent || first[k].body != first[l].body
    requires i < j < |After(first, me, events)|
    ensures
      var a, b := After(first, me, events)[i], After(first, me, events)[j];
      a.author == b.author == me.name ==> a.parent != b.parent || a.body != b.body
  {
    forall parent: string, body: string ensures |Held(first, me.name, parent, body)| <= 1 {
      HeldOnce(first, me.name, parent, body);
    }
    NeverTwice(first, me, events);
    var a, b := After(first, me, events)[i], After(first, me, events)[j];
    if a.author == b.author == me.name && a.parent == b.parent && a.body == b.body {
      TwoAreHeld(After(first, me, events), i, j, me.name, a.parent, a.body);
    }
  }

  // --- a batch -----------------------------------------------------------------------

  datatype Item = Item(id: string, body: string)

  /** An item as the batch reads it: its id trimmed, and the message that id names. */
  datatype Asked = Asked(id: string, parent: string, body: string)

  function Ask(item: Item): Asked {
    Asked(Strip(item.id), Leaf(Strip(item.id)), item.body)
  }

  function AskAll(items: seq<Item>): (r: seq<Asked>)
    ensures |r| == |items| && forall i :: 0 <= i < |items| ==> r[i] == Ask(items[i])
    ensures forall i :: 0 <= i < |items| ==>
              r[i].id == Strip(items[i].id) && r[i].parent == Leaf(Strip(items[i].id)) && r[i].body == items[i].body
  {
    seq(|items|, i requires 0 <= i < |items| => Ask(items[i]))
  }

  datatype Result = Result(id: string, outcome: Outcome)

  /** `tried` is whom the batch asked the hub about, so the count `attempted` is its length. */
  datatype Progress = Progress(notes: seq<Note>, seen: set<string>, tried: seq<string>, results: seq<Result>)

  function BatchStep(p: Progress, me: Self, item: Asked, w: Weather): Progress {
    var id := item.id;
    if id == "" || item.body == "" then p.(results := p.results + [Result(id, Failed)])
    else if id in p.seen then p.(results := p.results + [Result(id, Duplicate(None))])
    else if |p.tried| >= BATCH_CAP then
      p.(seen := p.seen + {id}, results := p.results + [Result(id, NotAttempted)])
    else
      Progress(NotesAfter(p.notes, me, item.parent, item.body, w), p.seen + {id}, p.tried + [id],
               p.results + [Result(id, Replied(p.notes, me, item.parent, item.body, w))])
  }

  function Batch(notes: seq<Note>, me: Self, items: seq<Asked>, sky: nat -> Weather, n: nat): Progress
    requires n <= |items|
  {
    if n == 0 then Progress(notes, {}, [], [])
    else BatchStep(Batch(notes, me, items, sky, n - 1), me, items[n - 1], sky(n - 1))
  }

  /** A result per item in order; the ids asked about all different, at most twenty-five, and
      every one of them noted; no reply doubled. */
  ghost predicate Orderly(p: Progress, me: Self, items: seq<Asked>, n: nat)
    requires n <= |items|
  {
    && |p.results| == n && (forall i :: 0 <= i < n ==> p.results[i].id == items[i].id)
    && NoRepeat(p.tried) && |p.tried| <= 25 && (forall id <- p.tried :: id in p.seen)
    && NoDoubles(p.notes, me.name)
  }

  lemma StepIsOrderly(p: Progress, me: Self, items: seq<Asked>, n: nat, w: Weather)
    requires OwnName(me) && n < |items| && Orderly(p, me, items, n)
    ensures Orderly(BatchStep(p, me, items[n], w), me, items, n + 1)
  {
    ReplyAddsNoDouble(p.notes, me, items[n].parent, items[n].body, w);
    var q := BatchStep(p, me, items[n], w);
    if q.tried != p.tried {
      NoRepeatConcat(p.tried, [items[n].id]);
    }
  }

  /** Every batch is orderly, whatever the hub and the network do. */
  lemma {:induction false} BatchIsOrderly(notes: seq<Note>, me: Self, items: seq<Asked>, sky: nat -> Weather, n: nat)
    requires OwnName(me) && n <= |items| && NoDoubles(notes, me.name)
    ensures Orderly(Batch(notes, me, items, sky, n), me, items, n)
  {
    if n > 0 {
      BatchIsOrderly(notes, me, items, sky, n - 1);
      StepIsOrderly(Batch(notes, me, items, sky, n - 1), me, items, n - 1, sky(n - 1));
    }
  }

  predicate Confirms(o: Outcome) {
    o.Delivered? || (o.Duplicate? && o.found.Some?)
  }

  lemma ConfirmedIsHeld(notes: seq<Note>, me: Self, parent: string, body: string, w: Weather)
    requires OwnName(me) && Confirms(Replied(notes, me, parent, body, w))
    ensures Held(NotesAfter(notes, me, parent, body, w), me.name, parent, body) != []
  {
    FoundWhenHeld(notes, me.name, parent, body);
    HeldAfterOne(notes, NewNote(notes, me, parent, body), me.name, parent, body);
  }

  function HeldFor(notes: seq<Note>, me: Self, item: Asked): seq<Note> {
    Held(notes, me.name, item.parent, item.body)
  }

  // --- what a batch leaves on the hub ------------------------------------------------

  /** The batch asks the hub about its k-th item, and the hub would store the reply. */
  predicate StoresAt(notes: seq<Note>, me: Self, items: seq<Asked>, sky: nat -> Weather, k: nat)
    requires k < |items|
  {
    var p, id := Batch(notes, me, items, sky, k), items[k].id;
    && id != "" && items[k].body != "" && id !in p.seen && |p.tried| < BATCH_CAP
    && sky(k).threadReadable && sky(k).post != NotStored
  }

  predicate StoresReplyAt(
    notes: seq<Note>, me: Self, items: seq<Asked>, sky: nat -> Weather, k: nat, parent: string, body: string)
    requires k < |items|
  {
    StoresAt(notes, me, items, sky, k) && items[k].parent == parent && items[k].body == body
  }

  ghost predicate StoredByThen(
    notes: seq<Note>, me: Self, items: seq<Asked>, sky: nat -> Weather, n: nat, parent: string, body: string)
    requires n <= |items|
  {
    exists k :: 0 <= k < n && StoresReplyAt(notes, me, items, sky, k, parent, body)
  }

  lemma StepHolds(
      notes: seq<Note>, me: Self, items: seq<Asked>, sky: nat -> Weather, k: nat, parent: string, body: string)
    requires OwnName(me) && k < |items|
    ensures
      Held(Batch(notes, me, items, sky, k + 1).notes, me.name, parent, body) != [] <==>
        || Held(Batch(notes, me, items, sky, k).notes, me.name, parent, body) != []
        || StoresReplyAt(notes, me, items, sky, k, parent, body)
  {
    var before, item := Batch(notes, me, items, sky, k).notes, items[k];
    FoundWhenHeld(before, me.name, item.parent, item.body);
    HeldAfterOne(before, NewNote(before, me, item.parent, item.body), me.name, parent, body);
  }

  lemma OneMoreByThen(
      notes: seq<Note>, me: Self, items: seq<Asked>, sky: nat -> Weather, n: nat, parent: string, body: string)
    requires n < |items|
    ensures StoredByThen(notes, me, items, sky, n + 1, parent, body) <==>
              || StoredByThen(notes, me, items, sky, n, parent, body)
              || StoresReplyAt(notes, me, items, sky, n, parent, body)
  {
  }

  /** What a batch leaves on the hub: a reply is held afterwards exactly when it was held
      before or the hub would store it for one of the items the batch asked about. */
  lemma {:induction false} HeldAfterBatchExactlyWhen(
      notes: seq<Note>, me: Self, items: seq<Asked>, sky: nat -> Weather, n: nat, parent: string, body: string)
    requires OwnName(me) && n <= |items|
    ensures Held(Batch(notes, me, items, sky, n).notes, me.name, parent, body) != [] <==>
              Held(notes, me.name, parent, body) != [] || StoredByThen(notes, me, items, sky, n, parent, body)
  {
    if n > 0 {
      HeldAfterBatchExactlyWhen(notes, me, items, sky, n - 1, parent, body);
      StepHolds(notes, me, items, sky, n - 1, parent, body);
      OneMoreByThen(notes, me, items, sky, n - 1, parent, body);
    }
  }

  lemma StepAppends(p: Progress, me: Self, item: Asked, w: Weather)
    ensures
      var q := BatchStep(p, me, item, w);
      |q.results| == |p.results| + 1 && q.results[..|p.results|] == p.results
  {
  }

  lemma {:induction false} BatchLength(notes: seq<Note>, me: Self, items: seq<Asked>, sky: nat -> Weather, n: nat)
    requires n <= |items|
    ensures |Batch(notes, me, items, sky, n).results| == n
  {
    if n > 0 {
      BatchLength(notes, me, items, sky, n - 1);
    }
  }

  lemma BatchAppends(notes: seq<Note>, me: Self, items: seq<Asked>, sky: nat -> Weather, k: nat)
    requires k < |items|
    ensures
      var p, q := Batch(notes, me, items, sky, k), Batch(notes, me, items, sky, k + 1);
      |p.results| == k && |q.results| == k + 1 && q.results[..k] == p.results
  {
    BatchLength(notes, me, items, sky, k);
    StepAppends(Batch(notes, me, items, sky, k), me, items[k], sky(k));
  }

  lemma {:induction false} ResultStays(
      notes: seq<Note>, me: Self, items: seq<Asked>, sky: nat -> Weather, n: nat, i: nat)
    requires i < n <= |items|
    ensures
      var p, q := Batch(notes, me, items, sky, n), Batch(notes, me, items, sky, i + 1);
      |p.results| == n && |q.results| == i + 1 && p.results[i] == q.results[i]
  {
    BatchAppends(notes, me, items, sky, n - 1);
    if i < n - 1 {
      ResultStays(notes, me, items, sky, n - 1, i);
      StaysInLonger(Batch(notes, me, items, sky, n - 1).results, Batch(notes, me, items, sky, n).results, i);
    }
  }

  lemma StaysInLonger<T>(s: seq<T>, longer: seq<T>, i: nat)
    requires i < |s| <= |longer| && longer[..|s|] == s
    ensures longer[i] == s[i]
  {
    assert longer[..|s|][i] == longer[i];
  }

  lemma StepConfirms(p: Progress, me: Self, item: Asked, w: Weather)
    requires OwnName(me)
    ensures
      var q := BatchStep(p, me, item, w);
      |q.results| == |p.results| + 1 && (Confirms(q.results[|p.results|].outcome) ==> HeldFor(q.notes, me, item) != [])
  {
    if Confirms(Replied(p.notes, me, item.parent, item.body, w)) {
      ConfirmedIsHeld(p.notes, me, item.parent, item.body, w);
    }
  }

  lemma BatchConfirms(notes: seq<Note>, me: Self, items: seq<Asked>, sky: nat -> Weather, n: nat, i: nat)
    requires OwnName(me) && i < n <= |items|
    ensures
      var p := Batch(notes, me, items, sky, n);
      |p.results| == n && (Confirms(p.results[i].outcome) ==> HeldFor(p.notes, me, items[i]) != [])
  {
    ResultStays(notes, me, items, sky, n, i);
    ConfirmedAtItsTurn(notes, me, items, sky, i);
    if HeldFor(Batch(notes, me, items, sky, i + 1).notes, me, items[i]) != [] {
      HeldStaysInBatch(notes, me, items, sky, i + 1, n, items[i].parent, items[i].body);
    }
  }

  lemma ConfirmedAtItsTurn(notes: seq<Note>, me: Self, items: seq<Asked>, sky: nat -> Weather, i: nat)
    requires OwnName(me) && i < |items|
    ensures
      var q := Batch(notes, me, items, sky, i + 1);
      |q.results| == i + 1 && (Confirms(q.results[i].outcome) ==> HeldFor(q.notes, me, items[i]) != [])
  {
    BatchLength(notes, me, items, sky, i);
    StepConfirms(Batch(notes, me, items, sky, i), me, items[i], sky(i));
  }

  lemma HeldStaysInBatch(
      notes: seq<Note>, me: Self, items: seq<Asked>, sky: nat -> Weather, m: nat, n: nat, parent: string, body: string)
    requires OwnName(me) && m <= n <= |items|
    requires Held(Batch(notes, me, items, sky, m).notes, me.name, parent, body) != []
    ensures Held(Batch(notes, me, items, sky, n).notes, me.name, parent, body) != []
  {
    HeldAfterBatchExactlyWhen(notes, me, items, sky, m, parent, body);
    HeldAfterBatchExactlyWhen(notes, me, items, sky, n, parent, body);
  }

  /** Every item a batch confirms, delivered or found on the thread, is held by the hub
      exactly once when the batch ends. */
  lemma BatchAnswersHold(notes: seq<Note>, me: Self, items: seq<Asked>, sky: nat -> Weather, i: nat)
    requires OwnName(me) && i < |items| && NoDoubles(notes, me.name)
    ensures
      var p := Batch(notes, me, items, sky, |items|);
      && |p.results| == |items|
      && (Confirms(p.results[i].outcome) ==> |Held(p.notes, me.name, items[i].parent, items[i].body)| == 1)
  {
    BatchConfirms(notes, me, items, sky, |items|, i);
    BatchIsOrderly(notes, me, items, sky, |items|);
  }

  // --- what an item is told ----------------------------------------------------------

  /** The ids of the first `n` items that have an id and a body. */
  function IdsBefore(items: seq<Asked>, n: nat): set<string>
    requires n <= |items|
  {
    set k | 0 <= k < n && items[k].id != "" && items[k].body != "" :: items[k].id
  }

  lemma OneMoreId(items: seq<Asked>, n: nat)
    requires n < |items|
    ensures IdsBefore(items, n + 1) ==
              IdsBefore(items, n) + if items[n].id != "" && items[n].body != "" then {items[n].id} else {}
  {
  }

  lemma {:induction false} SeenAndTried(notes: seq<Note>, me: Self, items: seq<Asked>, sky: nat -> Weather, n: nat)
    requires n <= |items|
    ensures
      var p, ids := Batch(notes, me, items, sky, n), IdsBefore(items, n);
      p.seen == ids && |p.tried| == if |ids| <= 25 then |ids| else 25
  {
    if n > 0 {
      SeenAndTried(notes, me, items, sky, n - 1);
      OneMoreId(items, n - 1);
    }
  }

  /** What the i-th item of any batch is told: failed without an id or a body; handled earlier
      when its id came before; not attempted when twenty-five other ids did; and otherwise what
      the hub answers. */
  lemma ToldExactlyWhen(notes: seq<Note>, me: Self, items: seq<Asked>, sky: nat -> Weather, i: nat)
    requires i < |items|
    ensures
      var item, ids := items[i], IdsBefore(items, i);
      var p, q := Batch(notes, me, items, sky, i).notes, Batch(notes, me, items, sky, |items|);
      && |q.results| == |items| && q.results[i].id == item.id
      && q.results[i].outcome ==
           if item.id == "" || item.body == "" then Failed
           else if item.id in ids then Duplicate(None)
           else if |ids| >= 25 then NotAttempted
           else Replied(p, me, item.parent, item.body, sky(i))
  {
    ResultStays(notes, me, items, sky, |items|, i);
    SeenAndTried(notes, me, items, sky, i);
    BatchLength(notes, me, items, sky, i);
  }

  // --- repeated ids in a batch -------------------------------------------------------

  lemma DuplicateWasSeen(notes: seq<Note>, me: Self, items: seq<Asked>, sky: nat -> Weather, i: nat)
    requires i < |items|
    requires |Batch(notes, me, items, sky, i + 1).results| == i + 1
    requires Batch(notes, me, items, sky, i + 1).results[i].outcome == Duplicate(None)
    ensures items[i].id in Batch(notes, me, items, sky, i).seen
  {
    BatchLength(notes, me, items, sky, i);
  }

  /** Of any batch, an item reported as a duplicate handled earlier in the batch: an item
      before it had its id, and its own reply is on the hub at the end exactly when it was
      there at the start or some item the batch asked about, to the same message with the
      same body, was stored.  The report does not tell. */
  lemma HandledEarlierExactlyWhen(notes: seq<Note>, me: Self, items: seq<Asked>, sky: nat -> Weather, i: nat)
    requires OwnName(me) && i < |items|
    requires |Batch(notes, me, items, sky, |items|).results| == |items|
    requires Batch(notes, me, items, sky, |items|).results[i].outcome == Duplicate(None)
    ensures exists k :: 0 <= k < i && items[k].id == items[i].id
    ensures HeldFor(Batch(notes, me, items, sky, |items|).notes, me, items[i]) != [] <==>
              || HeldFor(notes, me, items[i]) != []
              || StoredByThen(notes, me, items, sky, |items|, items[i].parent, items[i].body)
  {
    HeldAfterBatchExactlyWhen(notes, me, items, sky, |items|, items[i].parent, items[i].body);
    ResultStays(notes, me, items, sky, |items|, i);
    DuplicateWasSeen(notes, me, items, sky, i);
    SeenEarlier(notes, me, items, sky, i, items[i].id);
  }

  lemma {:induction false} SeenEarlier(
      notes: seq<Note>, me: Self, items: seq<Asked>, sky: nat -> Weather, n: nat, id: string)
    requires n <= |items| && id in Batch(notes, me, items, sky, n).seen
    ensures exists k :: 0 <= k < n && items[k].id == id
  {
    if id in Batch(notes, me, items, sky, n - 1).seen {
      SeenEarlier(notes, me, items, sky, n - 1, id);
    } else {
      assert items[n - 1].id == id;
    }
  }

  /** The run that fails: two different replies to one message in a batch, all weather clear.
      The second is reported as handled, and was not sent. */
  lemma SecondReplyIsDropped(me: Self, first: string, second: string)
    requires OwnName(me) && first != "" && second != "" && first != second
    ensures
      var p := Batch([], me, AskAll([Item("m", first), Item("m", second)]), ClearSky, 2);
      |p.results| == 2 && p.results[1].outcome == Duplicate(None) && Held(p.notes, me.name, "m", second) == []
  {
    var items := [Asked("m", "m", first), Asked("m", "m", second)];
    StrippedStays("m");
    LeafIsTheLastSegment("", "m", "");
    assert AskAll([Item("m", first), Item("m", second)]) == items;
    var none, one, two :=
      Batch([], me, items, ClearSky, 0), Batch([], me, items, ClearSky, 1), Batch([], me, items, ClearSky, 2);
    assert one == BatchStep(none, me, items[0], CLEAR) && two == BatchStep(one, me, items[1], CLEAR);
    assert "m" in one.seen;
    BatchLength([], me, items, ClearSky, 2);
    BatchLength([], me, items, ClearSky, 1);
    assert !StoresAt([], me, items, ClearSky, 1);
    HeldAfterBatchExactlyWhen([], me, items, ClearSky, 2, "m", second);
  }

  // --- the report --------------------------------------------------------------------

  datatype Kind = DeliveredOnes | FailedOnes | DuplicateOnes | UnknownOnes | NotAttemptedOnes

  function KindOf(r: Result): Kind {
    match r.outcome
    case Delivered(_) => DeliveredOnes
    case Failed => FailedOnes
    case Duplicate(_) => DuplicateOnes
    case Unknown => UnknownOnes
    case NotAttempted => NotAttemptedOnes
  }

  function Tally(results: seq<Result>, kind: Kind): nat {
    |Filter(results, r => KindOf(r) == kind)|
  }

  lemma {:induction false} TalliesAddUp(results: seq<Result>)
    ensures Tally(results, DeliveredOnes) + Tally(results, FailedOnes) + Tally(results, DuplicateOnes)
              + Tally(results, UnknownOnes) + Tally(results, NotAttemptedOnes) == |results|
  {
    if results != [] {
      TalliesAddUp(results[1..]);
    }
  }

  /** What each tally counts. */
  lemma {:induction false} TalliesCount(results: seq<Result>)
    ensures Tally(results, DeliveredOnes) == |Filter(results, (r: Result) => r.outcome.Delivered?)|
    ensures Tally(results, FailedOnes) == |Filter(results, (r: Result) => r.outcome.Failed?)|
    ensures Tally(results, DuplicateOnes) == |Filter(results, (r: Result) => r.outcome.Duplicate?)|
    ensures Tally(results, UnknownOnes) == |Filter(results, (r: Result) => r.outcome.Unknown?)|
    ensures Tally(results, NotAttemptedOnes) == |Filter(results, (r: Result) => r.outcome.NotAttempted?)|
  {
    if results != [] {
      TalliesCount(results[1..]);
    }
  }

  lemma {:induction false} NoneNotAttempted(results: seq<Result>)
    ensures Tally(results, NotAttemptedOnes) == 0 <==> forall one <- results :: one.outcome != NotAttempted
  {
    if results != [] {
      NoneNotAttempted(results[1..]);
    }
  }

  datatype Report = Report(requested: nat, tally: map<Kind, nat>, complete: bool, results: seq<Result>)

  const ALL_KINDS: set<Kind> := {DeliveredOnes, FailedOnes, DuplicateOnes, UnknownOnes, NotAttemptedOnes}

  /** The report of a batch: its five tallies add up to the request, and it is complete when
      every item was attempted. */
  function ReportOf(items: seq<Item>, results: seq<Result>): (r: Report)
    requires |results| == |items|
    ensures r.tally.Keys == ALL_KINDS
    ensures r.requested == |items| && r.results == results
    ensures r.tally[DeliveredOnes] + r.tally[FailedOnes] + r.tally[DuplicateOnes] + r.tally[UnknownOnes]
              + r.tally[NotAttemptedOnes] == r.requested
    ensures r.complete <==> forall one <- results :: one.outcome != NotAttempted
  {
    TalliesAddUp(results);
    NoneNotAttempted(results);
    var tally := map kind | kind in ALL_KINDS :: Tally(results, kind);
    Report(|items|, tally, tally[NotAttemptedOnes] == 0, results)
  }

  /** One turn of the loop, for the progress `p` so far. */
  method ReplyItem(client: Client, item: Item, seen: set<string>, attempted: nat, w: Weather, ghost p: Progress)
    returns (result: Result, seenNow: set<string>, attemptedNow: nat, ghost after: Progress)
    requires p.notes == client.hub.notes && p.seen == seen && |p.tried| == attempted
    modifies client.hub
    ensures after == BatchStep(p, client.me, Ask(item), w) && after.results == p.results + [result]
    ensures after.notes == client.hub.notes && after.seen == seenNow && |after.tried| == attemptedNow
    ensures client.hub.asked == old(client.hub.asked) + after.tried[|p.tried|..]
    ensures p.tried <= after.tried
  {
    after := BatchStep(p, client.me, Ask(item), w);
    var id, body := Strip(item.id), item.body;
    seenNow, attemptedNow := seen, attempted;
    if id == "" || body == "" {
      result := Result(id, Failed);
      return;
    }
    if id in seen {
      result := Result(id, Duplicate(None));
      return;
    }
    seenNow := seen + {id};
    if attempted >= BATCH_CAP {
      result := Result(id, NotAttempted);
      return;
    }
    attemptedNow := attempted + 1;
    var outcome := client.ReplyOnce(id, body, w);
    result := Result(id, outcome);
  }

  /** `reply_messages`. */
  method ReplyMessages(client: Client, replies: seq<Item>, sky: nat -> Weather) returns (report: Report)
    modifies client.hub
    ensures
      var p := Batch(old(client.hub.notes), client.me, AskAll(replies), sky, |replies|);
      && |p.results| == |replies| && report == ReportOf(replies, p.results)
      && client.hub.notes == p.notes && client.hub.asked == old(client.hub.asked) + p.tried
  {
    var results: seq<Result> := [];
    var seen: set<string> := {};
    var attempted := 0;
    ghost var asked := AskAll(replies);
    ghost var p := Progress(client.hub.notes, {}, [], []);
    for i := 0 to |replies|
      invariant p == Batch(old(client.hub.notes), client.me, asked, sky, i)
      invariant p.notes == client.hub.notes && p.seen == seen && |p.tried| == attempted && p.results == results
      invariant client.hub.asked == old(client.hub.asked) + p.tried
    {
      var result;
      ghost var next;
      result, seen, attempted, next := ReplyItem(client, replies[i], seen, attempted, sky(i), p);
      TriedGrows(old(client.hub.asked), p.tried, next.tried);
      results := results + [result];
      p := next;
    }
    BatchLength(old(client.hub.notes), client.me, asked, sky, |replies|);
    report := ReportOf(replies, results);
  }

  lemma TriedGrows(before: seq<string>, tried: seq<string>, more: seq<string>)
    requires tried <= more
    ensures before + tried + more[|tried|..] == before + more
  {
  }
}
