/** Cursor paging of `Api.inbox` in `api.py`. */
module CursorPaging {

  /* A poll consumes nothing, and the cursor it returns is the caller's only bookmark. */

  import opened Sorting
  import opened Text

  datatype Message = Message(id: string, published: string)

  datatype View = Count | Summaries

  datatype Page = Page(shown: seq<Message>, cursor: string, unread: nat, more: nat)

  const PAGE: nat := 50

  /** A message's place in the order a cursor walks. */
  datatype Key = Key(published: string, id: string)

  function KeyOf(m: Message): Key {
    Key(m.published, m.id)
  }

  /** Python's `<` on the two-string tuples. */
  predicate KeyBelow(a: Key, b: Key) {
    Below(a.published, b.published) || (a.published == b.published && Below(a.id, b.id))
  }

  predicate InOrder(a: Message, b: Message) {
    !KeyBelow(KeyOf(b), KeyOf(a))
  }

  function Unmangled(value: string): string {
    ReplaceChar(value, ' ', "+")
  }

  /** What a URL does to a pasted value. */
  function Mangled(value: string): string {
    ReplaceChar(value, '+', " ")
  }

  function CursorText(key: Key): string {
    key.published + "|" + key.id
  }

  function CursorParts(cursor: string): Key {
    var parts := Partition(cursor, '|');
    Key(Unmangled(parts.0), parts.1)
  }

  // --- one poll ----------------------------------------------------------------------

  function Since(after: Key): Message -> bool {
    m => KeyBelow(after, KeyOf(m))
  }

  function Remaining(waiting: seq<Message>, since: string): seq<Message> {
    if since == "" then waiting else Filter(waiting, Since(CursorParts(Unmangled(since))))
  }

  function FirstPage(waiting: seq<Message>): (r: seq<Message>)
    ensures |r| <= PAGE && |r| <= |waiting|
  {
    var sorted := Sort(waiting, InOrder);
    if |sorted| <= PAGE then sorted else sorted[..PAGE]
  }

  function MaxKey(ms: seq<Message>): Key
    requires ms != []
  {
    if |ms| == 1 then KeyOf(ms[0])
    else
      var best := MaxKey(ms[..|ms| - 1]);
      if KeyBelow(best, KeyOf(ms[|ms| - 1])) then KeyOf(ms[|ms| - 1]) else best
  }

  function NextCursor(described: seq<Message>, since: string, now: string): string {
    if described != [] then CursorText(MaxKey(described))
    else if since != "" then Unmangled(since)
    else CursorText(Key(now, ""))
  }

  /** What one poll answers. */
  function Polled(waiting: seq<Message>, view: View, since: string, now: string): Page {
    var rest := Remaining(waiting, since);
    if view.Count? then Page([], NextCursor(rest, since, now), |rest|, 0)
    else
      var shown := FirstPage(rest);
      Page(shown, NextCursor(shown, since, now), |rest|, |rest| - |shown|)
  }

  method Newest(ms: seq<Message>) returns (best: Key)
    requires ms != []
    ensures best == MaxKey(ms)
  {
    best := KeyOf(ms[0]);
    for i := 1 to |ms|
      invariant best == MaxKey(ms[..i])
    {
      assert ms[..i + 1][..i] == ms[..i];
      if KeyBelow(best, KeyOf(ms[i])) {
        best := KeyOf(ms[i]);
      }
    }
    assert ms[..|ms|] == ms;
  }

  method Inbox(unread: seq<Message>, view: View, since: string, now: string) returns (page: Page)
    ensures page == Polled(unread, view, since, now)
  {
    var waiting, since := unread, if since != "" then Unmangled(since) else since;
    UnmangledTwice(since);
    if since != "" {
      var after := CursorParts(since);
      waiting := Filter(waiting, Since(after));
    }
    var total := |waiting|;
    if view != Count {
      waiting := FirstPage(waiting);
    }
    var cursor := "";
    if waiting != [] {
      var best := Newest(waiting);
      cursor := CursorText(best);
    }
    if cursor == "" {
      cursor := if since != "" then since else CursorText(Key(now, ""));
    }
    page := if view == Count then Page([], cursor, total, 0) else Page(waiting, cursor, total, total - |waiting|);
  }

  // --- cursors as text ---------------------------------------------------------------

  lemma {:induction false} ReplacedOne(s: string, c: char, d: char)
    ensures |ReplaceChar(s, c, [d])| == |s|
    ensures forall i :: 0 <= i < |s| ==> ReplaceChar(s, c, [d])[i] == if s[i] == c then d else s[i]
  {
    if s != [] {
      ReplacedOne(s[1..], c, d);
    }
  }

  lemma UnmangledTwice(s: string)
    ensures Unmangled(Unmangled(s)) == Unmangled(s)
    ensures Unmangled(s) == "" <==> s == ""
  {
    ReplacedOne(s, ' ', '+');
    ReplacedOne(Unmangled(s), ' ', '+');
  }

  lemma MangledAndBack(s: string)
    ensures Unmangled(Mangled(s)) == Unmangled(s)
    ensures Mangled(s) == "" <==> s == ""
  {
    ReplacedOne(s, ' ', '+');
    ReplacedOne(s, '+', ' ');
    ReplacedOne(Mangled(s), ' ', '+');
  }

  /** A cursor pasted into a URL without escaping gives the same page, for every mailbox and
      every cursor text. */
  lemma MangledCursorSamePage(waiting: seq<Message>, view: View, since: string, now: string)
    ensures Polled(waiting, view, Mangled(since), now) == Polled(waiting, view, since, now)
  {
    MangledAndBack(since);
  }

  predicate Clean(key: Key) {
    ' ' !in key.published && '|' !in key.published && ' ' !in key.id
  }

  lemma UnmangledClean(s: string)
    ensures Unmangled(s) == s <==> ' ' !in s
  {
    ReplacedOne(s, ' ', '+');
    if ' ' in s {
      var i :| 0 <= i < |s| && s[i] == ' ';
      assert Unmangled(s)[i] == '+';
    }
  }

  lemma UnmangledCursor(key: Key)
    ensures Unmangled(CursorText(key)) == Unmangled(key.published) + ['|'] + Unmangled(key.id)
  {
    ReplaceCharConcat(key.published + "|", key.id, ' ', "+");
    ReplaceCharConcat(key.published, "|", ' ', "+");
    assert ReplaceChar("|", ' ', "+") == "|";
  }

  lemma FirstBarCuts(s: string, c: char, t: string)
    requires c in s
    ensures |Partition(s + [c] + t, c).0| < |s|
  {
    var i :| 0 <= i < |s| && s[i] == c;
    assert (s + [c] + t)[i] == c;
  }

  lemma BarsStay(s: string)
    ensures '|' in Unmangled(s) <==> '|' in s
  {
    ReplacedOne(s, ' ', '+');
    if '|' in s {
      var i :| 0 <= i < |s| && s[i] == '|';
      assert Unmangled(s)[i] == '|';
    }
  }

  /** A cursor comes back as the key it was made from exactly when neither part holds a
      space and the timestamp holds no bar.  The whole cursor is unmangled, so a space in an
      id would be lost too. */
  lemma CursorRoundTrip(key: Key)
    ensures CursorParts(Unmangled(CursorText(key))) == key <==> Clean(key)
  {
    var published, id := Unmangled(key.published), Unmangled(key.id);
    UnmangledCursor(key);
    BarsStay(key.published);
    if '|' in key.published {
      FirstBarCuts(published, '|', id);
      ReplacedOne(key.published, ' ', '+');
      ReplacedOne(Partition(published + ['|'] + id, '|').0, ' ', '+');
    } else {
      PartitionAt(published, '|', id);
      UnmangledTwice(key.published);
      UnmangledClean(key.published);
      UnmangledClean(key.id);
    }
  }

  // --- the order ---------------------------------------------------------------------

  lemma KeyBelowTotal(a: Key, b: Key)
    ensures a == b || KeyBelow(a, b) || KeyBelow(b, a)
  {
    BelowTotal(a.published, b.published);
    BelowTotal(a.id, b.id);
  }

  lemma KeyBelowAsymmetric(a: Key, b: Key)
    ensures !(KeyBelow(a, b) && KeyBelow(b, a))
  {
    BelowAsymmetric(a.published, b.published);
    BelowAsymmetric(a.id, b.id);
  }

  lemma KeyBelowTransitive(a: Key, b: Key, c: Key)
    requires KeyBelow(a, b) && KeyBelow(b, c)
    ensures KeyBelow(a, c)
  {
    if Below(a.published, b.published) && Below(b.published, c.published) {
      BelowTransitive(a.published, b.published, c.published);
    } else if a.published == b.published == c.published {
      BelowTransitive(a.id, b.id, c.id);
    }
  }

  lemma OrderIsTotal()
    ensures TotalPreorder(InOrder)
  {
    forall a: Message, b: Message ensures InOrder(a, b) || InOrder(b, a) {
      KeyBelowAsymmetric(KeyOf(a), KeyOf(b));
    }
    forall a: Message, b: Message, c: Message | InOrder(a, b) && InOrder(b, c) ensures InOrder(a, c) {
      KeyBelowTotal(KeyOf(a), KeyOf(b));
      if KeyBelow(KeyOf(c), KeyOf(a)) && KeyBelow(KeyOf(a), KeyOf(b)) {
        KeyBelowTransitive(KeyOf(c), KeyOf(a), KeyOf(b));
      }
    }
  }

  /** No two messages share a key, and the keys survive the cursor text. */
  ghost predicate Numbered(mail: seq<Message>) {
    && (forall i, j :: 0 <= i < j < |mail| ==> KeyOf(mail[i]) != KeyOf(mail[j]))
    && (forall m <- mail :: Clean(KeyOf(m)))
  }

  ghost predicate Increasing(ms: seq<Message>) {
    forall i, j {:trigger KeyBelow(KeyOf(ms[i]), KeyOf(ms[j]))} ::
      0 <= i < j < |ms| ==> KeyBelow(KeyOf(ms[i]), KeyOf(ms[j]))
  }

  lemma NumberedIsKeyed(mail: seq<Message>, a: Message, b: Message)
    requires Numbered(mail) && a in mail && b in mail && a != b
    ensures KeyOf(a) != KeyOf(b)
  {
  }

  lemma SortedMailIncreases(mail: seq<Message>)
    requires Numbered(mail)
    ensures Increasing(Sort(mail, InOrder)) && |Sort(mail, InOrder)| == |mail|
    ensures forall m :: m in Sort(mail, InOrder) <==> m in mail
  {
    var sorted := Sort(mail, InOrder);
    OrderIsTotal();
    SortSorts(mail, InOrder);
    SortKeepsNoRepeat(mail, InOrder);
    forall m ensures m in sorted <==> m in mail {
      SortedMembers(mail, InOrder, m);
    }
    forall i, j | 0 <= i < j < |sorted| ensures KeyBelow(KeyOf(sorted[i]), KeyOf(sorted[j])) {
      assert sorted[i] in mail && sorted[j] in mail;
      KeyBelowTotal(KeyOf(sorted[i]), KeyOf(sorted[j]));
      assert InOrder(sorted[i], sorted[j]);
    }
  }

  lemma {:induction false} NewestIsLast(ms: seq<Message>)
    requires ms != [] && Increasing(ms)
    ensures MaxKey(ms) == KeyOf(ms[|ms| - 1])
  {
    if |ms| > 1 {
      NewestIsLast(ms[..|ms| - 1]);
    }
  }

  lemma PastTheCut(sorted: seq<Message>, k: nat)
    requires Increasing(sorted) && 0 < k <= |sorted|
    ensures Filter(sorted, Since(KeyOf(sorted[k - 1]))) == sorted[k..]
  {
    var keep := Since(KeyOf(sorted[k - 1]));
    assert sorted == sorted[..k] + sorted[k..];
    FilterConcat(sorted[..k], sorted[k..], keep);
    forall m | m in sorted[..k] ensures !keep(m) {
      var i :| 0 <= i < k && sorted[i] == m;
      KeyBelowAsymmetric(KeyOf(sorted[i]), KeyOf(sorted[k - 1]));
      KeyBelowAsymmetric(KeyOf(m), KeyOf(m));
    }
    FilterNone(sorted[..k], keep);
    FilterAll(sorted[k..], keep);
  }

  // --- on the fields -----------------------------------------------------------------

  /** `a` may stand before `b`: it was published no later, and in one instant its id is not
      the larger. */
  predicate NoLater(a: Message, b: Message) {
    !Below(b.published, a.published) && (a.published == b.published ==> !Below(b.id, a.id))
  }

  ghost predicate OldestFirst(ms: seq<Message>) {
    forall i, j {:trigger ms[i], ms[j]} :: 0 <= i < j < |ms| ==>
      && !Below(ms[j].published, ms[i].published)
      && (ms[i].published == ms[j].published ==> Below(ms[i].id, ms[j].id))
  }

  lemma InOrderOnFields(a: Message, b: Message)
    ensures InOrder(a, b) <==> NoLater(a, b)
  {
    BelowTotal(a.published, b.published);
    BelowAsymmetric(a.published, b.published);
  }

  lemma IncreasingOnFields(ms: seq<Message>)
    requires Increasing(ms)
    ensures OldestFirst(ms)
  {
    forall i, j | 0 <= i < j < |ms|
      ensures !Below(ms[j].published, ms[i].published)
      ensures ms[i].published == ms[j].published ==> Below(ms[i].id, ms[j].id)
    {
      assert KeyBelow(KeyOf(ms[i]), KeyOf(ms[j]));
      BelowAsymmetric(ms[i].published, ms[j].published);
      BelowAsymmetric(ms[i].published, ms[i].published);
    }
  }

  /** What a cursor lets through: what was published later, or in that instant under a larger id. */
  lemma PastTheCursor(waiting: seq<Message>, since: string, m: Message)
    ensures
      var cursor := CursorParts(Unmangled(since));
      m in Remaining(waiting, since) <==>
        m in waiting && (since == "" || Below(cursor.published, m.published)
                         || (cursor.published == m.published && Below(cursor.id, m.id)))
  {
    FilterMembers(waiting, Since(CursorParts(Unmangled(since))), m);
  }

  /** A page of any mailbox reads forwards in time, and what was cut off is no older than
      anything on it. */
  lemma PageReadsForwards(waiting: seq<Message>, since: string, now: string, i: nat, j: nat)
    requires i < j < |Sort(Remaining(waiting, since), InOrder)|
    ensures
      var page := Polled(waiting, Summaries, since, now).shown;
      var sorted := Sort(Remaining(waiting, since), InOrder);
      && page <= sorted && multiset(sorted) == multiset(Remaining(waiting, since))
      && NoLater(sorted[i], sorted[j])
  {
    var rest := Remaining(waiting, since);
    OrderIsTotal();
    SortSorts(rest, InOrder);
    SortPermutes(rest, InOrder);
    InOrderOnFields(Sort(rest, InOrder)[i], Sort(rest, InOrder)[j]);
  }

  // --- draining a fixed mailbox ------------------------------------------------------

  lemma CleanTextStays(key: Key)
    requires Clean(key)
    ensures Unmangled(CursorText(key)) == CursorText(key) && CursorParts(CursorText(key)) == key
  {
    CursorRoundTrip(key);
    UnmangledClean(CursorText(key));
  }

  /** The cursor that stands after the first `k` messages of the sorted mailbox. */
  function CursorAt(mail: seq<Message>, k: nat): string
    requires k <= |mail|
  {
    CursorAfter(Sort(mail, InOrder), k)
  }

  function CursorAfter(sorted: seq<Message>, k: nat): string
    requires k <= |sorted|
  {
    if k == 0 then "" else CursorText(KeyOf(sorted[k - 1]))
  }

  function Upto(size: nat, k: nat): nat {
    if k + PAGE <= size then k + PAGE else size
  }

  /** How many messages `n` polls show. */
  function Reached(size: nat, n: nat): (r: nat)
    ensures r == if 50 * n <= size then 50 * n else size
  {
    if n == 0 then 0 else Upto(size, Reached(size, n - 1))
  }

  lemma RemainingFrom(mail: seq<Message>, since: string, k: nat)
    requires Numbered(mail) && k <= |mail| && since == CursorAt(mail, k)
    ensures Sort(Remaining(mail, since), InOrder) == Sort(mail, InOrder)[k..]
    ensures k > 0 ==> Unmangled(since) == since != ""
  {
    if k > 0 {
      var sorted := Sort(mail, InOrder);
      SortedMailIncreases(mail);
      assert sorted[k - 1] in mail;
      CleanTextStays(KeyOf(sorted[k - 1]));
      OrderIsTotal();
      SortThenFilter(mail, InOrder, Since(KeyOf(sorted[k - 1])));
      PastTheCut(sorted, k);
    }
  }

  lemma SliceIncreases(sorted: seq<Message>, from: nat, upTo: nat)
    requires Increasing(sorted) && from <= upTo <= |sorted|
    ensures Increasing(sorted[from..upTo])
  {
    var slice := sorted[from..upTo];
    forall i, j | 0 <= i < j < |slice| ensures KeyBelow(KeyOf(slice[i]), KeyOf(slice[j])) {
      assert slice[i] == sorted[from + i] && slice[j] == sorted[from + j];
      assert KeyBelow(KeyOf(sorted[from + i]), KeyOf(sorted[from + j]));
    }
  }

  lemma SliceOfTail<T>(s: seq<T>, k: nat, upTo: nat)
    requires k <= upTo <= |s|
    ensures s[k..][..upTo - k] == s[k..upTo]
  {
  }

  lemma PageOf(sorted: seq<Message>, rest: seq<Message>, k: nat)
    requires k <= |sorted| && Sort(rest, InOrder) == sorted[k..]
    ensures |rest| == |sorted| - k && FirstPage(rest) == sorted[k..Upto(|sorted|, k)]
  {
    SliceOfTail(sorted, k, Upto(|sorted|, k));
  }

  lemma PageEnds(sorted: seq<Message>, k: nat, upTo: nat)
    requires Increasing(sorted) && k < upTo <= |sorted|
    ensures MaxKey(sorted[k..upTo]) == KeyOf(sorted[upTo - 1])
  {
    SliceIncreases(sorted, k, upTo);
    NewestIsLast(sorted[k..upTo]);
  }

  /** One poll from such a cursor. */
  lemma PollFrom(mail: seq<Message>, since: string, k: nat, now: string)
    requires Numbered(mail) && mail != [] && k <= |mail| && since == CursorAt(mail, k)
    ensures
      var page := Polled(mail, Summaries, since, now);
      && page.shown == Sort(mail, InOrder)[k..Upto(|mail|, k)]
      && page.unread == |mail| - k && page.more == |mail| - Upto(|mail|, k)
      && page.cursor == CursorAt(mail, Upto(|mail|, k))
  {
    RemainingFrom(mail, since, k);
    PageOf(Sort(mail, InOrder), Remaining(mail, since), k);
    SortedMailIncreases(mail);
    CursorFrom(Sort(mail, InOrder), since, k, now);
  }

  lemma CursorFrom(sorted: seq<Message>, since: string, k: nat, now: string)
    requires Increasing(sorted) && sorted != [] && k <= |sorted| && since == CursorAfter(sorted, k)
    requires k > 0 ==> Unmangled(since) == since != ""
    ensures NextCursor(sorted[k..Upto(|sorted|, k)], since, now) == CursorAfter(sorted, Upto(|sorted|, k))
  {
    var upTo := Upto(|sorted|, k);
    if k < |sorted| {
      PageEnds(sorted, k, upTo);
    } else {
      assert sorted[k..upTo] == [];
    }
  }

  /** Some polls of one mailbox, each handing in the cursor of the one before. */
  datatype Polls = Start | Then(before: Polls, now: string, page: Page)

  function Cursor(polls: Polls): string {
    if polls.Start? then "" else polls.page.cursor
  }

  ghost predicate Drains(mail: seq<Message>, polls: Polls) {
    polls.Then? ==>
      Drains(mail, polls.before) && polls.page == Polled(mail, Summaries, Cursor(polls.before), polls.now)
  }

  function Length(polls: Polls): nat {
    if polls.Start? then 0 else Length(polls.before) + 1
  }

  function AllShown(polls: Polls): seq<Message> {
    if polls.Start? then [] else AllShown(polls.before) + polls.page.shown
  }

  /** The pages of a fixed mailbox concatenate to its sorted messages, fifty at a time and
      each once; `unread` and `more` are exact; and once everything is shown the cursor no
      longer moves, on an empty mailbox from the first poll on. */
  lemma {:induction false} Drain(mail: seq<Message>, polls: Polls)
    requires Numbered(mail) && Drains(mail, polls)
    ensures AllShown(polls) == Sort(mail, InOrder)[..Reached(|mail|, Length(polls))]
    ensures polls.Then? ==>
              && polls.page.unread == |mail| - Reached(|mail|, Length(polls) - 1)
              && polls.page.more == |mail| - Reached(|mail|, Length(polls))
    ensures mail != [] ==> Cursor(polls) == CursorAt(mail, Reached(|mail|, Length(polls)))
    ensures mail == [] && polls.Then? ==> Unmangled(Cursor(polls)) == Unmangled(FirstCursor(polls))
  {
    if polls.Then? {
      var k := Reached(|mail|, Length(polls.before));
      Drain(mail, polls.before);
      if mail == [] {
        EmptyPoll(Cursor(polls.before), polls.now);
      } else {
        OneMorePage(mail, polls, k);
      }
    }
  }

  /** The pages read forwards in time, each and from one to the next. */
  lemma DrainReadsForwards(mail: seq<Message>, polls: Polls)
    requires Numbered(mail) && Drains(mail, polls)
    ensures OldestFirst(AllShown(polls))
  {
    Drain(mail, polls);
    var sorted, n := Sort(mail, InOrder), Reached(|mail|, Length(polls));
    SortedMailIncreases(mail);
    SliceIncreases(sorted, 0, n);
    assert sorted[0..n] == sorted[..n];
    IncreasingOnFields(sorted[..n]);
  }

  lemma OneMorePage(mail: seq<Message>, polls: Polls, k: nat)
    requires Numbered(mail) && mail != [] && k <= |mail| && polls.Then?
    requires polls.page == Polled(mail, Summaries, Cursor(polls.before), polls.now)
    requires AllShown(polls.before) == Sort(mail, InOrder)[..k] && Cursor(polls.before) == CursorAt(mail, k)
    ensures AllShown(polls) == Sort(mail, InOrder)[..Upto(|mail|, k)]
    ensures polls.page.unread == |mail| - k && polls.page.more == |mail| - Upto(|mail|, k)
    ensures Cursor(polls) == CursorAt(mail, Upto(|mail|, k))
  {
    PollFrom(mail, Cursor(polls.before), k, polls.now);
    PageAfterPage(Sort(mail, InOrder), k, Upto(|mail|, k));
  }

  function FirstCursor(polls: Polls): string
    requires polls.Then?
  {
    if polls.before.Start? then polls.page.cursor else FirstCursor(polls.before)
  }

  lemma EmptyPoll(since: string, now: string)
    ensures Polled([], Summaries, since, now) ==
              Page([], if since != "" then Unmangled(since) else CursorText(Key(now, "")), 0, 0)
    ensures Unmangled(Unmangled(since)) == Unmangled(since)
    ensures Unmangled(since) == "" <==> since == ""
  {
    UnmangledTwice(since);
  }

  lemma PageAfterPage<T>(s: seq<T>, k: nat, upTo: nat)
    requires k <= upTo <= |s|
    ensures s[..k] + s[k..upTo] == s[..upTo]
  {
  }

  lemma {:induction false} NewestCovers(mail: seq<Message>) returns (key: Key)
    requires mail != []
    ensures key == MaxKey(mail) && exists m <- mail :: KeyOf(m) == key
    ensures forall m <- mail :: !KeyBelow(key, KeyOf(m))
  {
    var last := mail[|mail| - 1];
    key := MaxKey(mail);
    if |mail| == 1 {
      KeyBelowAsymmetric(key, key);
      assert KeyOf(mail[0]) == key;
    } else {
      var best := NewestCovers(mail[..|mail| - 1]);
      assert mail == mail[..|mail| - 1] + [last];
      KeyBelowAsymmetric(best, KeyOf(last));
      KeyBelowAsymmetric(key, key);
      forall m | m in mail ensures !KeyBelow(key, KeyOf(m)) {
        if m in mail[..|mail| - 1] && KeyBelow(best, KeyOf(last)) && KeyBelow(key, KeyOf(m)) {
          KeyBelowTransitive(best, key, KeyOf(m));
        }
      }
    }
  }

  // --- mail arriving while the caller polls ------------------------------------------

  /** The mailbox, the cursor the caller keeps, and everything shown to it so far. */
  datatype State = State(mail: seq<Message>, since: string, shown: seq<Message>)

  /** A poll may hand its cursor in escaped or as a URL mangles it. */
  datatype Event = Arrive(m: Message) | Poll(view: View, now: string, mangled: bool)

  function Sent(since: string, mangled: bool): string {
    if mangled then Mangled(since) else since
  }

  function Next(s: State, e: Event): State {
    match e
    case Arrive(m) => s.(mail := s.mail + [m])
    case Poll(view, now, mangled) =>
      var page := Polled(s.mail, view, Sent(s.since, mangled), now);
      s.(since := page.cursor, shown := s.shown + page.shown)
  }

  datatype Run = Begin | Step(before: Run, e: Event, s: State)

  function Now(r: Run): State {
    if r.Begin? then State([], "", []) else r.s
  }

  ghost predicate Legal(r: Run) {
    r.Step? ==> Legal(r.before) && r.s == Next(Now(r.before), r.e)
  }

  /** The cursor is above this message. */
  ghost predicate Covered(since: string, m: Message) {
    since != "" && !KeyBelow(CursorParts(since), KeyOf(m))
  }

  /** Every message has a key of its own, and keys and instants survive the cursor text. */
  ghost predicate InForm(s: State, e: Event) {
    match e
    case Arrive(m) => Clean(KeyOf(m)) && forall x <- s.mail :: KeyOf(x) != KeyOf(m)
    case Poll(_, now, _) => Clean(Key(now, ""))
  }

  ghost predicate EachInForm(r: Run) {
    r.Step? ==> InForm(Now(r.before), r.e) && EachInForm(r.before)
  }

  /** Later mail is later than the cursor already handed out, and the cursor of a count is
      kept only when the count is nought. */
  ghost predicate InTime(s: State, e: Event) {
    match e
    case Arrive(m) => !Covered(s.since, m)
    case Poll(view, _, _) => view.Count? ==> Remaining(s.mail, s.since) == []
  }

  ghost predicate EachInTime(r: Run) {
    r.Step? ==> InTime(Now(r.before), r.e) && EachInTime(r.before)
  }

  /** What one event puts behind the cursor without showing it: a message that turns up at or
      below it, and everything a count counted. */
  ghost function HiddenBy(s: State, e: Event): set<Message> {
    match e
    case Arrive(m) => if Covered(s.since, m) then {m} else {}
    case Poll(view, _, _) => if view.Count? then set m | m in Remaining(s.mail, s.since) else {}
  }

  ghost function Hidden(r: Run): set<Message> {
    if r.Begin? then {} else Hidden(r.before) + HiddenBy(Now(r.before), r.e)
  }

  /** Of the mail at or below the cursor, exactly what is not hidden has been shown, in order
      and once; nothing hidden was shown. */
  ghost predicate Shown(s: State, hidden: set<Message>) {
    && Numbered(s.mail)
    && Increasing(s.shown)
    && Unmangled(s.since) == s.since
    && (forall m <- s.shown :: m in s.mail)
    && (forall m <- hidden :: m in s.mail && Covered(s.since, m))
    && (forall m <- s.mail :: m in s.shown <==> Covered(s.since, m) && m !in hidden)
  }

  /** A cursor allows mail sent in the very instant of an empty poll. */
  lemma InstantOfAnEmptyPoll(now: string, m: Message)
    requires m.published == now && m.id != ""
    ensures KeyBelow(Key(now, ""), KeyOf(m))
  {
  }

  lemma ArrivalKeepsShown(s: State, hidden: set<Message>, m: Message)
    requires Shown(s, hidden) && InForm(s, Arrive(m))
    ensures Shown(Next(s, Arrive(m)), hidden + HiddenBy(s, Arrive(m)))
  {
    var t, now := Next(s, Arrive(m)), hidden + HiddenBy(s, Arrive(m));
    assert m !in s.mail;
    forall x | x in t.mail ensures x in t.shown <==> Covered(t.since, x) && x !in now {
      assert x in s.mail || x == m;
    }
  }

  /** The rest is what the cursor does not cover. */
  lemma RestIsUncovered(mail: seq<Message>, since: string, m: Message)
    requires Unmangled(since) == since
    ensures m in Remaining(mail, since) <==> m in mail && !Covered(since, m)
  {
    if since != "" {
      FilterMembers(mail, Since(CursorParts(since)), m);
    }
  }

  lemma RestIsNumbered(mail: seq<Message>, since: string)
    requires Numbered(mail) && Unmangled(since) == since
    ensures Numbered(Remaining(mail, since))
  {
    if since != "" {
      var rest := Remaining(mail, since);
      FilterKeepsNoRepeat(mail, Since(CursorParts(since)));
      forall m | m in rest ensures m in mail && Clean(KeyOf(m)) {
        RestIsUncovered(mail, since, m);
      }
      forall i, j | 0 <= i < j < |rest| ensures KeyOf(rest[i]) != KeyOf(rest[j]) {
        assert rest[i] in mail && rest[j] in mail;
        NumberedIsKeyed(mail, rest[i], rest[j]);
      }
    }
  }

  /** A page that is not empty ends at the returned cursor. */
  lemma PageEndsAtCursor(rest: seq<Message>)
    requires Numbered(rest) && rest != []
    ensures
      var page := FirstPage(rest);
      var cursor := CursorText(MaxKey(page));
      && page != [] && Increasing(page) && page <= Sort(rest, InOrder)
      && (forall m <- page :: m in rest)
      && MaxKey(page) == KeyOf(page[|page| - 1])
      && Unmangled(cursor) == cursor != "" && CursorParts(cursor) == KeyOf(page[|page| - 1])
  {
    var sorted, page := Sort(rest, InOrder), FirstPage(rest);
    SortedMailIncreases(rest);
    SliceIncreases(sorted, 0, |page|);
    assert page == sorted[0..|page|];
    NewestIsLast(page);
    assert sorted[|page| - 1] in rest;
    CleanTextStays(MaxKey(page));
  }

  /** Of what was left, the cursor then covers exactly the page. */
  lemma PageIsCovered(rest: seq<Message>, m: Message)
    requires Numbered(rest) && rest != [] && m in rest
    ensures m in FirstPage(rest) <==> Covered(CursorText(MaxKey(FirstPage(rest))), m)
  {
    var sorted, page := Sort(rest, InOrder), FirstPage(rest);
    PageEndsAtCursor(rest);
    SortedMailIncreases(rest);
    var i :| 0 <= i < |sorted| && sorted[i] == m;
    SplitAt(sorted, |page|, i);
    if i < |page| {
      assert page[i] == m;
    }
    if m in page {
      var j :| 0 <= j < |page| && page[j] == m;
      SplitAt(sorted, |page|, j);
    }
  }

  lemma SplitAt(sorted: seq<Message>, k: nat, i: nat)
    requires Increasing(sorted) && 0 < k <= |sorted| && i < |sorted|
    ensures i < k <==> !KeyBelow(KeyOf(sorted[k - 1]), KeyOf(sorted[i]))
  {
    if i < k - 1 {
      assert KeyBelow(KeyOf(sorted[i]), KeyOf(sorted[k - 1]));
    } else if i >= k {
      assert KeyBelow(KeyOf(sorted[k - 1]), KeyOf(sorted[i]));
    }
    KeyBelowAsymmetric(KeyOf(sorted[k - 1]), KeyOf(sorted[i]));
  }

  lemma CoveredComesFirst(since: string, m: Message, later: Message)
    requires Covered(since, m) && !Covered(since, later)
    ensures KeyBelow(KeyOf(m), KeyOf(later))
  {
    KeyBelowTotal(CursorParts(since), KeyOf(m));
    if CursorParts(since) != KeyOf(m) {
      KeyBelowTransitive(KeyOf(m), CursorParts(since), KeyOf(later));
    }
  }

  lemma ShownThenPageIncreases(s: State, hidden: set<Message>, page: seq<Message>)
    requires Shown(s, hidden) && Increasing(page) && forall m <- page :: m in s.mail && !Covered(s.since, m)
    ensures Increasing(s.shown + page)
  {
    var all := s.shown + page;
    forall i, j | 0 <= i < j < |all| ensures KeyBelow(KeyOf(all[i]), KeyOf(all[j])) {
      if j < |s.shown| {
        assert KeyBelow(KeyOf(s.shown[i]), KeyOf(s.shown[j]));
      } else if i < |s.shown| {
        assert s.shown[i] in s.mail && page[j - |s.shown|] in page;
        CoveredComesFirst(s.since, s.shown[i], all[j]);
      } else {
        assert KeyBelow(KeyOf(page[i - |s.shown|]), KeyOf(page[j - |s.shown|]));
      }
    }
  }

  /** The cursor only rises. */
  lemma CoveredStays(since: string, next: Message, m: Message)
    requires Clean(KeyOf(next)) && !Covered(since, next) && Covered(since, m)
    ensures Covered(CursorText(KeyOf(next)), m)
  {
    CleanTextStays(KeyOf(next));
    CoveredComesFirst(since, m, next);
    KeyBelowAsymmetric(KeyOf(m), KeyOf(next));
  }

  lemma CursorMovesUp(s: State, hidden: set<Message>, m: Message)
    requires Shown(s, hidden) && m in s.mail && Remaining(s.mail, s.since) != []
    ensures
      var page := FirstPage(Remaining(s.mail, s.since));
      var cursor := CursorText(MaxKey(page));
      && page != [] && (m in hidden ==> Covered(cursor, m))
      && (m in s.shown + page <==> Covered(cursor, m) && m !in hidden)
  {
    var rest := Remaining(s.mail, s.since);
    var page := FirstPage(rest);
    RestIsNumbered(s.mail, s.since);
    PageEndsAtCursor(rest);
    RestIsUncovered(s.mail, s.since, m);
    if m in rest {
      PageIsCovered(rest, m);
    } else {
      var last := page[|page| - 1];
      RestIsUncovered(s.mail, s.since, last);
      CoveredStays(s.since, last, m);
    }
  }

  lemma PageKeepsShown(s: State, hidden: set<Message>, t: State)
    requires Shown(s, hidden) && Remaining(s.mail, s.since) != []
    requires
      var page := FirstPage(Remaining(s.mail, s.since));
      page != [] && t == State(s.mail, CursorText(MaxKey(page)), s.shown + page)
    ensures Shown(t, hidden)
  {
    var rest := Remaining(s.mail, s.since);
    var page := FirstPage(rest);
    RestIsNumbered(s.mail, s.since);
    PageEndsAtCursor(rest);
    forall m | m in page ensures m in s.mail && !Covered(s.since, m) {
      RestIsUncovered(s.mail, s.since, m);
    }
    ShownThenPageIncreases(s, hidden, page);
    forall m | m in s.mail
      ensures m in t.shown <==> Covered(t.since, m) && m !in hidden
      ensures m in hidden ==> Covered(t.since, m)
    {
      CursorMovesUp(s, hidden, m);
    }
  }

  /** What a count leaves: the cursor covers everything it counted. */
  lemma CountCovers(s: State, hidden: set<Message>, m: Message)
    requires Shown(s, hidden) && m in s.mail && Remaining(s.mail, s.since) != []
    ensures
      var cursor := CursorText(MaxKey(Remaining(s.mail, s.since)));
      Unmangled(cursor) == cursor && Covered(cursor, m)
  {
    var rest := Remaining(s.mail, s.since);
    var key := NewestCovers(rest);
    var newest :| newest in rest && KeyOf(newest) == key;
    RestIsNumbered(s.mail, s.since);
    CleanTextStays(key);
    RestIsUncovered(s.mail, s.since, m);
    RestIsUncovered(s.mail, s.since, newest);
    if m !in rest {
      CoveredStays(s.since, newest, m);
    }
  }

  lemma CoveringAllHidesTheRest(s: State, hidden: set<Message>, t: State, rest: set<Message>)
    requires Shown(s, hidden) && t.mail == s.mail && t.shown == s.shown && Unmangled(t.since) == t.since
    requires forall m <- s.mail :: Covered(t.since, m)
    requires forall m :: m in rest <==> m in s.mail && !Covered(s.since, m)
    ensures Shown(t, hidden + rest)
  {
  }

  lemma CountKeepsShown(s: State, hidden: set<Message>, t: State)
    requires Shown(s, hidden) && Remaining(s.mail, s.since) != []
    requires t == State(s.mail, CursorText(MaxKey(Remaining(s.mail, s.since))), s.shown)
    ensures Shown(t, hidden + set m | m in Remaining(s.mail, s.since))
  {
    var rest := set m | m in Remaining(s.mail, s.since);
    forall m ensures m in rest <==> m in s.mail && !Covered(s.since, m) {
      RestIsUncovered(s.mail, s.since, m);
    }
    forall m | m in s.mail ensures Covered(t.since, m) {
      CountCovers(s, hidden, m);
    }
    assert Remaining(s.mail, s.since)[0] in s.mail by {
      RestIsUncovered(s.mail, s.since, Remaining(s.mail, s.since)[0]);
    }
    CountCovers(s, hidden, Remaining(s.mail, s.since)[0]);
    CoveringAllHidesTheRest(s, hidden, t, rest);
  }

  lemma QuietKeepsShown(s: State, hidden: set<Message>, t: State)
    requires Shown(s, hidden) && Remaining(s.mail, s.since) == []
    requires t.mail == s.mail && t.shown == s.shown + [] && Unmangled(t.since) == t.since
    requires t.since == s.since || s.since == ""
    ensures Shown(t, hidden)
  {
    forall m | m in s.mail ensures Covered(s.since, m) {
      RestIsUncovered(s.mail, s.since, m);
    }
  }

  lemma NextOf(s: State, e: Event)
    requires e.Poll? && Unmangled(s.since) == s.since
    ensures
      var rest := Remaining(s.mail, s.since);
      Next(s, e) ==
        if rest == [] then s.(since := if s.since != "" then s.since else CursorText(Key(e.now, "")))
        else if e.view.Count? then s.(since := CursorText(MaxKey(rest)))
        else s.(since := NextCursor(FirstPage(rest), s.since, e.now), shown := s.shown + FirstPage(rest))
  {
    MangledCursorSamePage(s.mail, e.view, s.since, e.now);
  }

  lemma PollKeepsShown(s: State, hidden: set<Message>, e: Event)
    requires e.Poll? && Shown(s, hidden) && InForm(s, e)
    ensures Shown(Next(s, e), hidden + HiddenBy(s, e))
  {
    var rest := Remaining(s.mail, s.since);
    NextOf(s, e);
    if rest == [] {
      CleanTextStays(Key(e.now, ""));
      assert hidden + HiddenBy(s, e) == hidden;
      QuietKeepsShown(s, hidden, Next(s, e));
    } else if e.view.Count? {
      CountKeepsShown(s, hidden, Next(s, e));
    } else {
      assert hidden + HiddenBy(s, e) == hidden;
      RestIsNumbered(s.mail, s.since);
      PageEndsAtCursor(rest);
      PageKeepsShown(s, hidden, Next(s, e));
    }
  }

  /** What has been shown, over any interleaving of arrivals and polls of either view, the
      first poll of an empty mailbox included and each cursor escaped or mangled: in order,
      without repeats, and of the mail at or below the cursor exactly what is not hidden. */
  lemma {:induction false} ShownExactlyWhen(r: Run)
    requires Legal(r) && EachInForm(r)
    ensures Shown(Now(r), Hidden(r)) && NoRepeat(Now(r).shown) && OldestFirst(Now(r).shown)
  {
    if r.Step? {
      ShownExactlyWhen(r.before);
      match r.e
      case Arrive(m) => ArrivalKeepsShown(Now(r.before), Hidden(r.before), m);
      case Poll(_, _, _) => PollKeepsShown(Now(r.before), Hidden(r.before), r.e);
    }
    var shown := Now(r).shown;
    IncreasingOnFields(shown);
    forall i, j | 0 <= i < j < |shown| ensures shown[i] != shown[j] {
      assert KeyBelow(KeyOf(shown[i]), KeyOf(shown[j]));
      KeyBelowAsymmetric(KeyOf(shown[i]), KeyOf(shown[j]));
    }
  }

  /** Nothing is hidden exactly when mail comes in time and count cursors are not kept over
      waiting mail. */
  lemma {:induction false} NothingHiddenExactlyWhen(r: Run)
    requires Legal(r) && EachInForm(r)
    ensures Hidden(r) == {} <==> EachInTime(r)
  {
    if r.Step? {
      NothingHiddenExactlyWhen(r.before);
      HidesNothing(Now(r.before), r.e);
    }
  }

  lemma HidesNothing(s: State, e: Event)
    ensures HiddenBy(s, e) == {} <==> InTime(s, e)
  {
    match e {
      case Arrive(m) => assert Covered(s.since, m) ==> m in HiddenBy(s, e);
      case Poll(view, _, _) =>
        var rest := Remaining(s.mail, s.since);
        if view.Count? && rest != [] {
          assert rest[0] in HiddenBy(s, e);
        }
    }
  }

  /** Never hides and never repeats: then what has been shown is exactly the mail at or below
      the cursor. */
  lemma NeverHidesNeverRepeats(r: Run)
    requires Legal(r) && EachInForm(r) && EachInTime(r)
    ensures Shown(Now(r), {}) && NoRepeat(Now(r).shown) && OldestFirst(Now(r).shown)
    ensures forall m <- Now(r).mail :: m in Now(r).shown <==> Covered(Now(r).since, m)
  {
    ShownExactlyWhen(r);
    NothingHiddenExactlyWhen(r);
  }

  ghost predicate Continues(r: Run, longer: Run) {
    r == longer || (longer.Step? && Continues(r, longer.before))
  }

  lemma {:induction false} HiddenStays(r: Run, longer: Run)
    requires Continues(r, longer)
    ensures Hidden(r) <= Hidden(longer)
  {
    if r != longer {
      HiddenStays(r, longer.before);
    }
  }

  /** What is hidden is shown in no continuation of the run. */
  lemma HiddenForGood(r: Run, longer: Run, m: Message)
    requires Legal(longer) && EachInForm(longer) && Continues(r, longer) && m in Hidden(r)
    ensures m !in Now(longer).shown
  {
    HiddenStays(r, longer);
    ShownExactlyWhen(longer);
    assert m in Now(longer).mail;
  }

  /** A message that turns up at or below the cursor, say in the same instant under a smaller
      id, is shown in no continuation. */
  lemma LateBelowTheCursorIsHidden(before: Run, m: Message, longer: Run)
    requires Legal(longer) && EachInForm(longer)
    requires Continues(Step(before, Arrive(m), Next(Now(before), Arrive(m))), longer)
    requires Covered(Now(before).since, m)
    ensures m !in Now(longer).shown
  {
    HiddenForGood(Step(before, Arrive(m), Next(Now(before), Arrive(m))), longer, m);
  }

  /** The cursor of a count, kept, hides exactly what it counted: whatever the cursor before,
      each message waiting then is shown in no continuation, and nothing else is hidden. */
  lemma CountCursorHidesTheMail(before: Run, e: Event, longer: Run, m: Message)
    requires e.Poll? && e.view.Count?
    requires Legal(longer) && EachInForm(longer) && Continues(Step(before, e, Next(Now(before), e)), longer)
    ensures m in Remaining(Now(before).mail, Now(before).since) ==> m !in Now(longer).shown
    ensures Hidden(Step(before, e, Next(Now(before), e))) ==
              Hidden(before) + set x | x in Remaining(Now(before).mail, Now(before).since)
    ensures Polled(Now(before).mail, Count, Sent(Now(before).since, e.mangled), e.now).unread ==
              |Remaining(Now(before).mail, Now(before).since)|
  {
    MangledCursorSamePage(Now(before).mail, Count, Now(before).since, e.now);
    if m in Remaining(Now(before).mail, Now(before).since) {
      HiddenForGood(Step(before, e, Next(Now(before), e)), longer, m);
    }
  }

  function Then(r: Run, e: Event): Run {
    Step(r, e, Next(Now(r), e))
  }

  lemma ThenIsLegal(r: Run, e: Event)
    requires Legal(r) && EachInForm(r) && InForm(Now(r), e)
    ensures Legal(Then(r, e)) && EachInForm(Then(r, e)) && Hidden(Then(r, e)) == Hidden(r) + HiddenBy(Now(r), e)
  {
  }

  /** Such runs: one message shown, and one that comes late in the same instant. */
  lemma ALateMessage(m: Message, late: Message, now: string)
    requires Clean(KeyOf(m)) && Clean(KeyOf(late)) && Clean(Key(now, "")) && KeyBelow(KeyOf(late), KeyOf(m))
    ensures
      var r := Then(Then(Then(Begin, Arrive(m)), Poll(Summaries, now, false)), Arrive(late));
      Legal(r) && EachInForm(r) && Now(r).shown == [m] && late in Hidden(r)
  {
    var one := Then(Begin, Arrive(m));
    var two := Then(one, Poll(Summaries, now, false));
    ThenIsLegal(Begin, Arrive(m));
    ThenIsLegal(one, Poll(Summaries, now, false));
    KeyBelowAsymmetric(KeyOf(late), KeyOf(m));
    KeyBelowAsymmetric(KeyOf(m), KeyOf(m));
    OnePoll(m, now);
    ThenIsLegal(two, Arrive(late));
    CleanTextStays(KeyOf(m));
  }

  lemma OnePoll(m: Message, now: string)
    ensures Polled([m], Summaries, "", now) == Page([m], CursorText(KeyOf(m)), 1, 0)
    ensures Polled([m], Count, "", now) == Page([], CursorText(KeyOf(m)), 1, 0)
  {
    assert Sort([m], InOrder) == [m];
  }

  /** And one message counted, with the cursor kept. */
  lemma ACountedMessage(m: Message, now: string)
    requires Clean(KeyOf(m)) && Clean(Key(now, ""))
    ensures
      var r := Then(Then(Begin, Arrive(m)), Poll(Count, now, false));
      Legal(r) && EachInForm(r) && Now(r).shown == [] && m in Hidden(r)
  {
    var one := Then(Begin, Arrive(m));
    ThenIsLegal(Begin, Arrive(m));
    ThenIsLegal(one, Poll(Count, now, false));
    assert Now(one) == State([m], "", []);
    OnePoll(m, now);
  }

  /** The next poll's `unread` counts exactly the mail not shown yet, its page is at most
      fifty of those, and when `more` is zero everything that arrived has been shown once. */
  lemma NextPollIsExact(r: Run, now: string, mangled: bool)
    requires Legal(r) && EachInForm(r) && EachInTime(r)
    ensures
      var s := Now(r);
      var page := Polled(s.mail, Summaries, Sent(s.since, mangled), now);
      && page.unread == |s.mail| - |s.shown| && |page.shown| <= 50 && page.more == page.unread - |page.shown|
      && (page.more == 0 ==> multiset(s.shown + page.shown) == multiset(s.mail))
  {
    var s := Now(r);
    NeverHidesNeverRepeats(r);
    MangledCursorSamePage(s.mail, Summaries, s.since, now);
    var rest := Remaining(s.mail, s.since);
    ShownAndRest(s);
    if |rest| <= 50 {
      SortPermutes(rest, InOrder);
      assert multiset(s.shown + FirstPage(rest)) == multiset(s.shown) + multiset(FirstPage(rest));
      assert multiset(s.shown + rest) == multiset(s.shown) + multiset(rest);
    }
  }

  lemma ShownAndRest(s: State)
    requires Shown(s, {}) && NoRepeat(s.shown)
    ensures multiset(s.shown + Remaining(s.mail, s.since)) == multiset(s.mail)
    ensures |Remaining(s.mail, s.since)| == |s.mail| - |s.shown|
  {
    var rest := Remaining(s.mail, s.since);
    NumberedDiffers(s.mail);
    RestIsNumbered(s.mail, s.since);
    NumberedDiffers(rest);
    forall m ensures m in rest <==> m in s.mail && m !in s.shown {
      RestIsUncovered(s.mail, s.since, m);
    }
    NoRepeatConcat(s.shown, rest);
    SameMembersSameMultiset(s.shown + rest, s.mail);
    assert |multiset(s.shown + rest)| == |s.shown + rest| && |multiset(s.mail)| == |s.mail|;
  }

  lemma NumberedDiffers(mail: seq<Message>)
    requires Numbered(mail)
    ensures NoRepeat(mail)
  {
    forall i, j | 0 <= i < j < |mail| ensures mail[i] != mail[j] {
      assert KeyOf(mail[i]) != KeyOf(mail[j]);
    }
  }
}
