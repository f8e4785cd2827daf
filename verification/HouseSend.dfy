/** One message to this hub and others. */
module HouseSend {

  /* `House.send` of `house.py` and the receipts of `delivery.py`. */

  import opened Addressing
  import opened Sorting
  import opened Text
  import opened Wrappers
  import M = MailboxSend

  const NOT_DURABLE :=
    "waiting for the peer to become reachable. This wait is held in memory and "
    + "does not survive a restart of this hub."

  datatype Fate = Queued | Delivered | Failed

  datatype Receipt = Receipt(recipient: string, delivered: bool, detail: Option<string>, queued: bool) {
    function State(): Fate {
      if queued then Queued else if delivered then Delivered else Failed
    }
  }

  datatype Sent = Sent(record: M.Record, receipts: seq<Receipt>, localRecipients: seq<string>) {
    predicate ReachedNobody() {
      if localRecipients != [] then false
      else if exists r <- receipts :: r.queued then false
      else receipts != [] && !exists r <- receipts :: r.delivered
    }
  }

  datatype Error =
    | Refused
    | BadAddress(fault: Malformed)
    | CannotFederate(remote: seq<string>)
    | NotStored(why: M.Error)

  datatype Outcome = Arrived | Waiting | Broken(why: string)

  /** What the collaborators answer: the policy, the resolver and the peer of the i-th remote
      recipient; and what the mailbox finds: the sender, who has joined, and the store's
      failure if it fails. */
  datatype World = World(
    allowed: bool,
    resolve: nat -> Result<string, string>,
    deliver: nat -> Outcome,
    sender: Option<string>,
    roster: M.Roster,
    broken: Option<string>)

  datatype Effect =
    | Resolve(address: string)
    | Store(record: M.Record)
    | Attempt(uri: string)
    | Log(ok: bool)

  /** A remote recipient that resolved: the i-th, and its actor URI. */
  datatype Resolved = Resolved(address: string, at: nat, uri: string)

  function ReceiptFor(address: string, outcome: Outcome): Receipt {
    match outcome
    case Arrived => Receipt(address, true, None, false)
    case Waiting => Receipt(address, false, Some(NOT_DURABLE), true)
    case Broken(why) => Receipt(address, false, Some(why), false)
  }

  // --- what a send does, step by step ------------------------------------------------

  /** The first `n` remote recipients that resolved. */
  function ResolvedOf(remote: seq<string>, w: World, n: nat): seq<Resolved>
    requires n <= |remote|
  {
    if n == 0 then []
    else
      var last := match w.resolve(n - 1)
        case Ok(uri) => [Resolved(remote[n - 1], n - 1, uri)]
        case Err(_) => [];
      ResolvedOf(remote, w, n - 1) + last
  }

  /** The receipts of those that did not. */
  function UnresolvedOf(remote: seq<string>, w: World, n: nat): seq<Receipt>
    requires n <= |remote|
  {
    if n == 0 then []
    else
      var last := match w.resolve(n - 1)
        case Ok(_) => []
        case Err(why) => [ReceiptFor(remote[n - 1], Broken(why))];
      UnresolvedOf(remote, w, n - 1) + last
  }

  function Uris(resolved: seq<Resolved>): (r: seq<string>)
    ensures |r| == |resolved|
  {
    seq(|resolved|, i requires 0 <= i < |resolved| => resolved[i].uri)
  }

  function Resolves(remote: seq<string>): (r: seq<Effect>)
    ensures |r| == |remote|
  {
    seq(|remote|, i requires 0 <= i < |remote| => Resolve(remote[i]))
  }

  function Attempts(resolved: seq<Resolved>): (r: seq<Effect>)
    ensures |r| == |resolved|
  {
    seq(|resolved|, i requires 0 <= i < |resolved| => Attempt(resolved[i].uri))
  }

  function Answers(resolved: seq<Resolved>, w: World): (r: seq<Receipt>)
    ensures |r| == |resolved|
  {
    seq(|resolved|, i requires 0 <= i < |resolved| => ReceiptFor(resolved[i].address, w.deliver(resolved[i].at)))
  }

  /** The addresses of a record that are not URIs in its `to`. */
  function Reached(record: M.Record): seq<string> {
    Filter(record.to + record.cc, who => !(who in record.to && M.HasScheme(who)))
  }

  datatype Forked = Forked(localTo: seq<string>, localCc: seq<string>, remote: seq<string>)

  function Fork(to: seq<string>, cc: seq<string>, hubName: string): Result<Forked, Malformed> {
    match Split(to, hubName)
    case Err(e) => Err(e)
    case Ok(first) =>
      match Split(cc, hubName)
      case Err(e) => Err(e)
      case Ok(second) => Ok(Forked(first.0, second.0, first.1 + second.1))
  }

  /** What the mailbox makes of the local names, the resolved URIs and, when somebody is
      remote, everything typed. */
  function Record(to: seq<string>, cc: seq<string>, f: Forked, w: World): Result<M.Record, M.Error> {
    var uris := Uris(ResolvedOf(f.remote, w, |f.remote|));
    match w.sender
    case None => Err(M.UnknownActor)
    case Some(who) =>
      M.Kept(f.localTo, f.localCc, uris, if f.remote != [] then to + cc else [], who, w.roster, w.broken)
  }

  /** What the caller is told once the recipients are forked. */
  function Told(to: seq<string>, cc: seq<string>, f: Forked, federated: bool, w: World): Result<Sent, Error> {
    if f.remote != [] && !federated then Err(CannotFederate(f.remote))
    else
      var resolved := ResolvedOf(f.remote, w, |f.remote|);
      match Record(to, cc, f, w)
      case Err(why) => Err(NotStored(why))
      case Ok(record) =>
        Ok(Sent(record, UnresolvedOf(f.remote, w, |f.remote|) + Answers(resolved, w), Reached(record)))
  }

  function AfterStoring(sent: Sent, resolved: seq<Resolved>): seq<Effect> {
    [Store(sent.record)] + Attempts(resolved) + [Log(!sent.ReachedNobody())]
  }

  /** What happens meanwhile, in order. */
  function Done(to: seq<string>, cc: seq<string>, f: Forked, federated: bool, w: World): seq<Effect> {
    if f.remote != [] && !federated then [Log(false)]
    else
      match Record(to, cc, f, w)
      case Err(_) => Resolves(f.remote) + [Log(false)]
      case Ok(record) =>
        Resolves(f.remote)
          + AfterStoring(Told(to, cc, f, federated, w).value, ResolvedOf(f.remote, w, |f.remote|))
  }

  /** Where an address goes: to this mailbox by its name, from `to` or from `cc`, when its hub is
      `local` or this one, and to another hub in full otherwise. */
  lemma ForkByHub(to: seq<string>, cc: seq<string>, hubName: string, text: string)
    requires Fork(to, cc, hubName).Ok?
    ensures
      var f := Fork(to, cc, hubName).value;
      && (text in f.localTo <==> exists given <- to :: Parse(given).Ok? && text == Parse(given).value.name
                                                       && Parse(given).value.hub in {"local", hubName})
      && (text in f.localCc <==> exists given <- cc :: Parse(given).Ok? && text == Parse(given).value.name
                                                       && Parse(given).value.hub in {"local", hubName})
      && (text in f.remote <==>
            exists given <- to + cc :: Parse(given).Ok? && Parse(given).value.hub !in {"local", hubName}
                                       && text == Parse(given).value.name + "@" + Parse(given).value.hub)
  {
    SplitByHub(to, hubName, text);
    SplitByHub(cc, hubName, text);
  }

  /** The mailbox reads whatever it is handed after the fork as the fork's local names. */
  lemma MailboxReadsTheFork(to: seq<string>, cc: seq<string>, hubName: string)
    requires Fork(to, cc, hubName).Ok?
    ensures
      var f := Fork(to, cc, hubName).value;
      && Each(M.LocalName(hubName), if f.remote != [] then f.localTo else to) == Ok(f.localTo)
      && Each(M.LocalName(hubName), if f.remote != [] then f.localCc else cc) == Ok(f.localCc)
  {
    var first, second := Each(Parse, to).value, Each(Parse, cc).value;
    M.LocalNamesRead(to, first, hubName);
    M.LocalNamesRead(cc, second, hubName);
    if Fork(to, cc, hubName).value.remote == [] {
      assert Side(first, hubName, false) == [] && Side(second, hubName, false) == [];
      M.AllLocalRead(to, first, hubName);
      M.AllLocalRead(cc, second, hubName);
    }
  }

  // --- the code ----------------------------------------------------------------------

  class House {
    const mailbox: M.Mailbox
    const federated: bool
    var log: seq<Effect>

    constructor (mailbox: M.Mailbox, federated: bool)
      ensures this.mailbox == mailbox && this.federated == federated && log == []
    {
      this.mailbox, this.federated, log := mailbox, federated, [];
    }

    method ResolveAll(remote: seq<string>, w: World) returns (resolved: seq<Resolved>, receipts: seq<Receipt>)
      modifies this`log
      ensures resolved == ResolvedOf(remote, w, |remote|)
      ensures receipts == UnresolvedOf(remote, w, |remote|)
      ensures log == old(log) + Resolves(remote)
    {
      resolved, receipts := [], [];
      for i := 0 to |remote|
        invariant resolved == ResolvedOf(remote, w, i)
        invariant receipts == UnresolvedOf(remote, w, i)
        invariant log == old(log) + Resolves(remote)[..i]
      {
        log := log + [Resolve(remote[i])];
        match w.resolve(i) {
          case Ok(uri) => resolved := resolved + [Resolved(remote[i], i, uri)];
          case Err(why) => receipts := receipts + [ReceiptFor(remote[i], Broken(why))];
        }
      }
    }

    method DeliverAll(resolved: seq<Resolved>, w: World) returns (receipts: seq<Receipt>)
      modifies this`log
      ensures receipts == Answers(resolved, w)
      ensures log == old(log) + Attempts(resolved)
    {
      receipts := [];
      for i := 0 to |resolved|
        invariant receipts == Answers(resolved, w)[..i]
        invariant log == old(log) + Attempts(resolved)[..i]
      {
        log := log + [Attempt(resolved[i].uri)];
        receipts := receipts + [ReceiptFor(resolved[i].address, w.deliver(resolved[i].at))];
      }
    }

    /** `send`. */
    method Send(to: seq<string>, cc: seq<string>, w: World) returns (r: Result<Sent, Error>)
      modifies this`log, mailbox`objects
      ensures !w.allowed ==> r == Err(Refused) && log == old(log)
      ensures w.allowed && Fork(to, cc, mailbox.hubName).Err? ==>
                r == Err(BadAddress(Fork(to, cc, mailbox.hubName).error)) && log == old(log)
      ensures w.allowed && Fork(to, cc, mailbox.hubName).Ok? ==>
                && r == Told(to, cc, Fork(to, cc, mailbox.hubName).value, federated, w)
                && log == old(log) + Done(to, cc, Fork(to, cc, mailbox.hubName).value, federated, w)
      ensures mailbox.objects == old(mailbox.objects) + if r.Ok? then [r.value.record] else []
      ensures r.Ok? ==> StoredThenTried(log[|old(log)|..], r.value.record)
      ensures r.Err? ==> forall e <- log[|old(log)|..] :: !e.Store? && !e.Attempt?
      ensures r.Ok? && M.PlainRoster(w.roster) ==>
                var f := Fork(to, cc, mailbox.hubName).value;
                WebUris(f.remote, w) ==>
                  (r.value.ReachedNobody() <==>
                     && M.Receivers(f.localTo, f.localCc, w.sender.value, w.roster) == {}
                     && f.remote != []
                     && forall i :: 0 <= i < |f.remote| ==> Owed(f.remote, w, i).State() == Failed)
    {
      if !w.allowed {
        return Err(Refused);
      }
      var first := SplitRecipients(to, mailbox.hubName);
      if first.Err? {
        return Err(BadAddress(first.error));
      }
      var second := SplitRecipients(cc, mailbox.hubName);
      if second.Err? {
        return Err(BadAddress(second.error));
      }
      MailboxReadsTheFork(to, cc, mailbox.hubName);
      var f := Forked(first.value.0, second.value.0, first.value.1 + second.value.1);
      if f.remote != [] && !federated {
        log := log + [Log(false)];
        r := Err(CannotFederate(f.remote));
      } else {
        r := Dispatch(to, cc, f, w);
      }
      assert log[|old(log)|..] == Done(to, cc, f, federated, w);
      WhatASendDoes(to, cc, f, federated, w);
    }

    /** The call into the mailbox. */
    method Post(to: seq<string>, cc: seq<string>, f: Forked, uris: seq<string>, w: World)
      returns (r: Result<M.Record, M.Error>)
      requires Each(M.LocalName(mailbox.hubName), if f.remote != [] then f.localTo else to) == Ok(f.localTo)
      requires Each(M.LocalName(mailbox.hubName), if f.remote != [] then f.localCc else cc) == Ok(f.localCc)
      requires uris == Uris(ResolvedOf(f.remote, w, |f.remote|))
      modifies mailbox`objects
      ensures r == Record(to, cc, f, w)
      ensures mailbox.objects == old(mailbox.objects) + if r.Ok? then [r.value] else []
    {
      if f.remote != [] {
        r := mailbox.Send(f.localTo, f.localCc, uris, to + cc, w.sender, w.roster, w.broken);
      } else {
        r := mailbox.Send(to, cc, uris, [], w.sender, w.roster, w.broken);
      }
    }

    /** From the stored record on. */
    method Deliver(record: M.Record, resolved: seq<Resolved>, receipts: seq<Receipt>, w: World) returns (sent: Sent)
      modifies this`log
      ensures sent == Sent(record, receipts + Answers(resolved, w), Reached(record))
      ensures log == old(log) + AfterStoring(sent, resolved)
    {
      log := log + [Store(record)];
      var answers := DeliverAll(resolved, w);
      sent := Sent(record, receipts + answers, Reached(record));
      log := log + [Log(!sent.ReachedNobody())];
      Regroup(old(log), [Store(record)], Attempts(resolved));
      Regroup(old(log), [Store(record)] + Attempts(resolved), [Log(!sent.ReachedNobody())]);
    }

    /** Resolve, store, deliver. */
    method Dispatch(to: seq<string>, cc: seq<string>, f: Forked, w: World) returns (r: Result<Sent, Error>)
      requires Each(M.LocalName(mailbox.hubName), if f.remote != [] then f.localTo else to) == Ok(f.localTo)
      requires Each(M.LocalName(mailbox.hubName), if f.remote != [] then f.localCc else cc) == Ok(f.localCc)
      modifies this`log, mailbox`objects
      ensures r == Told(to, cc, f, true, w)
      ensures log == old(log) + Done(to, cc, f, true, w)
      ensures mailbox.objects == old(mailbox.objects) + if r.Ok? then [r.value.record] else []
    {
      var resolved, receipts := ResolveAll(f.remote, w);
      var posted := Post(to, cc, f, Uris(resolved), w);
      if posted.Err? {
        NotStoredTold(to, cc, f, w);
        Regroup(old(log), Resolves(f.remote), [Log(false)]);
        log := log + [Log(false)];
        r := Err(NotStored(posted.error));
      } else {
        var sent := Deliver(posted.value, resolved, receipts, w);
        StoredTold(to, cc, f, w, sent);
        Regroup(old(log), Resolves(f.remote), AfterStoring(sent, resolved));
        r := Ok(sent);
      }
    }
  }

  lemma NotStoredTold(to: seq<string>, cc: seq<string>, f: Forked, w: World)
    requires Record(to, cc, f, w).Err?
    ensures Told(to, cc, f, true, w) == Err(NotStored(Record(to, cc, f, w).error))
    ensures Done(to, cc, f, true, w) == Resolves(f.remote) + [Log(false)]
  {
  }

  lemma StoredTold(to: seq<string>, cc: seq<string>, f: Forked, w: World, sent: Sent)
    requires Record(to, cc, f, w) == Ok(sent.record) && sent.localRecipients == Reached(sent.record)
    requires sent.receipts ==
               UnresolvedOf(f.remote, w, |f.remote|) + Answers(ResolvedOf(f.remote, w, |f.remote|), w)
    ensures Told(to, cc, f, true, w) == Ok(sent)
    ensures Done(to, cc, f, true, w) == Resolves(f.remote) + AfterStoring(sent, ResolvedOf(f.remote, w, |f.remote|))
  {
  }

  // --- conservation ------------------------------------------------------------------

  /** The receipt the i-th remote recipient is owed. */
  function Owed(remote: seq<string>, w: World, i: nat): Receipt
    requires i < |remote|
  {
    match w.resolve(i)
    case Err(why) => ReceiptFor(remote[i], Broken(why))
    case Ok(_) => ReceiptFor(remote[i], w.deliver(i))
  }

  function AllOwed(remote: seq<string>, w: World, n: nat): (r: seq<Receipt>)
    requires n <= |remote|
    ensures |r| == n
  {
    if n == 0 then [] else AllOwed(remote, w, n - 1) + [Owed(remote, w, n - 1)]
  }

  function AnsweredOf(remote: seq<string>, w: World, n: nat): seq<Receipt>
    requires n <= |remote|
  {
    if n == 0 then []
    else AnsweredOf(remote, w, n - 1) + if w.resolve(n - 1).Ok? then [Owed(remote, w, n - 1)] else []
  }

  lemma {:induction false} AnswersInOrder(remote: seq<string>, w: World, n: nat)
    requires n <= |remote|
    ensures Answers(ResolvedOf(remote, w, n), w) == AnsweredOf(remote, w, n)
  {
    if n > 0 {
      AnswersInOrder(remote, w, n - 1);
    }
  }

  lemma {:induction false} ReceiptsAreOwed(remote: seq<string>, w: World, n: nat, r: Receipt)
    requires n <= |remote|
    ensures Occurrences(UnresolvedOf(remote, w, n), r) + Occurrences(AnsweredOf(remote, w, n), r) ==
              Occurrences(AllOwed(remote, w, n), r)
  {
    if n > 0 {
      ReceiptsAreOwed(remote, w, n - 1, r);
      var owed := [Owed(remote, w, n - 1)];
      OccurrencesConcat(AllOwed(remote, w, n - 1), owed, r);
      OccurrencesConcat(UnresolvedOf(remote, w, n - 1), if w.resolve(n - 1).Ok? then [] else owed, r);
      OccurrencesConcat(AnsweredOf(remote, w, n - 1), if w.resolve(n - 1).Ok? then owed else [], r);
    }
  }

  /** A send that returns gives every remote recipient exactly one receipt, the one its own
      resolution and delivery earned, whatever fails and however often an address repeats. */
  lemma OneReceiptEach(to: seq<string>, cc: seq<string>, f: Forked, federated: bool, w: World)
    requires Told(to, cc, f, federated, w).Ok?
    ensures multiset(Told(to, cc, f, federated, w).value.receipts) == multiset(AllOwed(f.remote, w, |f.remote|))
  {
    var n := |f.remote|;
    var receipts, owed := Told(to, cc, f, federated, w).value.receipts, AllOwed(f.remote, w, n);
    AnswersInOrder(f.remote, w, n);
    forall r ensures multiset(receipts)[r] == multiset(owed)[r] {
      ReceiptsAreOwed(f.remote, w, n, r);
      OccurrencesConcat(UnresolvedOf(f.remote, w, n), AnsweredOf(f.remote, w, n), r);
      OccurrencesCount(receipts, r);
      OccurrencesCount(owed, r);
    }
  }

  /** Three states, told apart: delivered exactly on arrival, queued exactly while waiting and
      never without saying that the wait does not last, failed otherwise, with the reason. */
  lemma OwedState(remote: seq<string>, w: World, i: nat)
    requires i < |remote|
    ensures
      var r := Owed(remote, w, i);
      && r.recipient == remote[i]
      && (r.State() == Delivered <==> w.resolve(i).Ok? && w.deliver(i) == Arrived)
      && (r.State() == Queued <==> w.resolve(i).Ok? && w.deliver(i) == Waiting)
      && (r.delivered <==> w.resolve(i).Ok? && w.deliver(i) == Arrived)
      && (r.queued <==> w.resolve(i).Ok? && w.deliver(i) == Waiting)
      && (r.State() == Queued ==> r.detail == Some(NOT_DURABLE))
      && (r.State() == Failed ==>
            r.detail == Some(if w.resolve(i).Err? then w.resolve(i).error else w.deliver(i).why))
  {
  }

  /** Storing comes before every delivery: a send that returns wrote exactly one record, and
      tried nobody before that. */
  ghost predicate StoredThenTried(done: seq<Effect>, record: M.Record) {
    exists at :: && 0 <= at < |done| && done[at] == Store(record)
                 && (forall i :: 0 <= i < |done| && done[i].Store? ==> i == at)
                 && (forall i :: 0 <= i < |done| && done[i].Attempt? ==> at < i)
  }

  /** In the log of a send that returns, one record is stored, after every resolution and
      before the attempts, which are exactly the resolved recipients in order, and whether it
      reached anybody is logged last; a send that raises neither stores nor tries, and logs that. */
  lemma StoredOnceBeforeDelivery(to: seq<string>, cc: seq<string>, f: Forked, federated: bool, w: World)
    ensures
      var done := Done(to, cc, f, federated, w);
      match Told(to, cc, f, federated, w)
      case Err(_) =>
        done != [] && done[|done| - 1] == Log(false) && forall e <- done :: e.Resolve? || e == Log(false)
      case Ok(sent) =>
        && StoredThenTried(done, sent.record)
        && done == Resolves(f.remote) + [Store(sent.record)] + Attempts(ResolvedOf(f.remote, w, |f.remote|))
                     + [Log(!sent.ReachedNobody())]
  {
    if Told(to, cc, f, federated, w).Ok? {
      var sent, resolved := Told(to, cc, f, federated, w).value, ResolvedOf(f.remote, w, |f.remote|);
      Regroup(Resolves(f.remote), [Store(sent.record)] + Attempts(resolved), [Log(!sent.ReachedNobody())]);
      Regroup(Resolves(f.remote), [Store(sent.record)], Attempts(resolved));
      StoreBeforeAttempts(f.remote, sent.record, resolved, Log(!sent.ReachedNobody()));
    }
  }

  /** Who is tried: once the record is stored, exactly the actor URIs that remote recipients
      resolved to, in order; and who is asked about: exactly the remote recipients. */
  lemma TriedExactly(to: seq<string>, cc: seq<string>, f: Forked, federated: bool, w: World, at: string)
    ensures
      var done := Done(to, cc, f, federated, w);
      && (Effect.Attempt(at) in done <==>
            Told(to, cc, f, federated, w).Ok? && exists i :: 0 <= i < |f.remote| && w.resolve(i) == Ok(at))
      && (Effect.Resolve(at) in done <==> at in f.remote && federated)
  {
    var resolved := ResolvedOf(f.remote, w, |f.remote|);
    UrisResolved(f.remote, w, |f.remote|, at);
    TriedAre(resolved, at);
    AskedAre(f.remote, at);
  }

  lemma TriedAre(resolved: seq<Resolved>, uri: string)
    ensures Effect.Attempt(uri) in Attempts(resolved) <==> uri in Uris(resolved)
    ensures forall address: string :: Effect.Resolve(address) !in Attempts(resolved)
  {
    assert forall i :: 0 <= i < |resolved| ==>
        Attempts(resolved)[i] == Effect.Attempt(resolved[i].uri) && Uris(resolved)[i] == resolved[i].uri;
    if uri in Uris(resolved) {
      var i :| 0 <= i < |resolved| && Uris(resolved)[i] == uri;
      assert Attempts(resolved)[i] == Effect.Attempt(uri);
    }
  }

  lemma AskedAre(remote: seq<string>, address: string)
    ensures Effect.Resolve(address) in Resolves(remote) <==> address in remote
    ensures forall uri: string :: Effect.Attempt(uri) !in Resolves(remote)
  {
    if address in remote {
      var i :| 0 <= i < |remote| && remote[i] == address;
      assert Resolves(remote)[i] == Effect.Resolve(address);
    }
  }

  lemma StoreBeforeAttempts(remote: seq<string>, record: M.Record, resolved: seq<Resolved>, last: Effect)
    requires last.Log?
    ensures StoredThenTried(Resolves(remote) + [Store(record)] + Attempts(resolved) + [last], record)
  {
    var done, at := Resolves(remote) + [Store(record)] + Attempts(resolved) + [last], |remote|;
    forall i | 0 <= i < |done| && i != at ensures !done[i].Store? && (done[i].Attempt? ==> at < i) {
      if i < at {
        assert done[i] == Resolves(remote)[i];
      } else if i < |done| - 1 {
        assert done[i] == Attempts(resolved)[i - at - 1];
      }
    }
    assert done[at] == Store(record);
  }

  /** What is filed: the local recipients in order of their names, then the URIs of exactly
      those remote recipients that resolved; and as its audience everything typed, or the
      names it was read as when nobody is remote. */
  lemma StoredAsAddressed(
      to: seq<string>, cc: seq<string>, hubName: string, f: Forked, federated: bool, w: World, uri: string)
    requires Fork(to, cc, hubName) == Ok(f) && Told(to, cc, f, federated, w).Ok?
    ensures
      var record := Told(to, cc, f, federated, w).value.record;
      var reached := M.Alphabetical(M.ReachedBy(f.localTo, record.sender, w.roster));
      && w.sender == Some(record.sender) && reached <= record.to
      && record.audience == (if f.remote != [] then to + cc else f.localTo + f.localCc)
      && record.cc == M.Alphabetical(M.AlsoReached(f.localTo, f.localCc, record.sender, w.roster))
      && (uri in record.to[|reached|..] <==> exists i :: 0 <= i < |f.remote| && w.resolve(i) == Ok(uri))
  {
    var uris := Uris(ResolvedOf(f.remote, w, |f.remote|));
    UrisResolved(f.remote, w, |f.remote|, uri);
    var audience := if f.remote != [] then to + cc else [];
    M.KeptAs(f.localTo, f.localCc, uris, audience, w.sender.value, w.roster, w.broken);
  }

  lemma {:induction false} UrisResolved(remote: seq<string>, w: World, n: nat, uri: string)
    requires n <= |remote|
    ensures uri in Uris(ResolvedOf(remote, w, n)) <==> exists i :: 0 <= i < n && w.resolve(i) == Ok(uri)
  {
    if n > 0 {
      UrisResolved(remote, w, n - 1, uri);
      var before := ResolvedOf(remote, w, n - 1);
      match w.resolve(n - 1) {
        case Ok(last) => assert Uris(ResolvedOf(remote, w, n)) == Uris(before) + [last];
        case Err(_) => assert ResolvedOf(remote, w, n) == before;
      }
    }
  }

  /** When a send raises, once the addresses are read: a remote recipient without federation, an
      unknown sender, a local name nobody holds, names that reach nobody with nobody remote
      resolved, or a store that fails.  Then nothing is stored and nobody is tried. */
  lemma FailureTouchesNobody(to: seq<string>, cc: seq<string>, f: Forked, federated: bool, w: World)
    ensures Told(to, cc, f, federated, w).Err? <==>
              || (f.remote != [] && !federated) || w.sender.None? || w.broken.Some?
              || (exists name <- f.localTo + f.localCc :: !w.roster.Knows(name))
              || (f.localTo + f.localCc != [] && ResolvedOf(f.remote, w, |f.remote|) == []
                  && M.Receivers(f.localTo, f.localCc, w.sender.value, w.roster) == {})
    ensures Told(to, cc, f, federated, w).Err? ==>
              forall e <- Done(to, cc, f, federated, w) :: e.Resolve? || e == Log(false)
  {
    var uris := Uris(ResolvedOf(f.remote, w, |f.remote|));
    if w.sender.Some? {
      var audience := if f.remote != [] then to + cc else [];
      M.RefusedExactlyWhen(f.localTo, f.localCc, uris, audience, w.sender.value, w.roster);
    }
    StoredOnceBeforeDelivery(to, cc, f, federated, w);
  }

  /** Without a way to reach other hubs a remote recipient is refused by name, not dropped,
      and nothing is resolved, stored or sent; without remote recipients nothing changes. */
  lemma RefusedNotDropped(to: seq<string>, cc: seq<string>, f: Forked, w: World)
    ensures f.remote != [] ==>
              Told(to, cc, f, false, w) == Err(CannotFederate(f.remote)) && Done(to, cc, f, false, w) == [Log(false)]
    ensures f.remote == [] ==>
              && Told(to, cc, f, false, w) == Told(to, cc, f, true, w)
              && Done(to, cc, f, false, w) == Done(to, cc, f, true, w)
  {
  }

  // --- reaching nobody ---------------------------------------------------------------

  /** Every actor URI the resolver finds has a scheme. */
  ghost predicate WebUris(remote: seq<string>, w: World) {
    forall i :: 0 <= i < |remote| && w.resolve(i).Ok? ==> M.HasScheme(w.resolve(i).value)
  }

  lemma ReachedIsTheLocalHalf(local: seq<string>, uris: seq<string>, copies: seq<string>, record: M.Record)
    requires record.to == local + uris && record.cc == copies
    requires forall who <- local + copies :: !M.HasScheme(who)
    requires forall uri <- uris :: M.HasScheme(uri)
    ensures Reached(record) == local + copies
  {
    FilterMiddle(local, uris, copies, who => !(who in record.to && M.HasScheme(who)));
  }

  lemma FilterMiddle(first: seq<string>, middle: seq<string>, last: seq<string>, keep: string -> bool)
    requires forall x <- first + last :: keep(x)
    requires forall x <- middle :: !keep(x)
    ensures Filter(first + middle + last, keep) == first + last
  {
    assert Filter(first, keep) == first by {
      assert forall x <- first :: x in first + last;
      FilterAll(first, keep);
    }
    assert Filter(last, keep) == last by {
      assert forall x <- last :: x in first + last;
      FilterAll(last, keep);
    }
    FilterNone(middle, keep);
    FilterConcat(first, middle, keep);
    FilterConcat(first + middle, last, keep);
    assert first + [] + last == first + last;
  }

  /** `local_recipients`, worked out of a record that mixes names and URIs, is exactly who the
      mailbox filed the message for on this hub: nobody remote, nobody missing. */
  lemma LocalRecipientsAreTheFiled(to: seq<string>, cc: seq<string>, f: Forked, federated: bool, w: World)
    requires Told(to, cc, f, federated, w).Ok? && M.PlainRoster(w.roster) && WebUris(f.remote, w)
    ensures
      var sent := Told(to, cc, f, federated, w).value;
      && sent.localRecipients == M.Alphabetical(M.ReachedBy(f.localTo, sent.record.sender, w.roster))
           + M.Alphabetical(M.AlsoReached(f.localTo, f.localCc, sent.record.sender, w.roster))
      && forall who :: who in sent.localRecipients <==>
                         who in M.Receivers(f.localTo, f.localCc, sent.record.sender, w.roster)
  {
    var sender := w.sender.value;
    var local := M.Alphabetical(M.ReachedBy(f.localTo, sender, w.roster));
    var copies := M.Alphabetical(M.AlsoReached(f.localTo, f.localCc, sender, w.roster));
    var uris := Uris(ResolvedOf(f.remote, w, |f.remote|));
    M.FiledOnce(f.localTo, f.localCc, sender, w.roster);
    forall name | name in f.localTo + f.localCc ensures w.roster.Knows(name) {
      FilterMembers(f.localTo + f.localCc, n => !w.roster.Knows(n), name);
    }
    M.ReceiversArePlain(f.localTo, f.localCc, sender, w.roster);
    forall uri | uri in uris ensures M.HasScheme(uri) {
      UrisResolved(f.remote, w, |f.remote|, uri);
    }
    ReachedIsTheLocalHalf(local, uris, copies, Told(to, cc, f, federated, w).value.record);
  }

  lemma {:induction false} OwedInOrder(remote: seq<string>, w: World, n: nat, i: nat)
    requires i < n <= |remote|
    ensures AllOwed(remote, w, n)[i] == Owed(remote, w, i)
  {
    if i < n - 1 {
      OwedInOrder(remote, w, n - 1, i);
    }
  }

  lemma ReceiptsAreTheOwed(to: seq<string>, cc: seq<string>, f: Forked, federated: bool, w: World)
    requires Told(to, cc, f, federated, w).Ok?
    ensures
      var receipts := Told(to, cc, f, federated, w).value.receipts;
      && |receipts| == |f.remote|
      && forall r :: r in receipts <==> exists i :: 0 <= i < |f.remote| && r == Owed(f.remote, w, i)
  {
    var receipts, owed := Told(to, cc, f, federated, w).value.receipts, AllOwed(f.remote, w, |f.remote|);
    OneReceiptEach(to, cc, f, federated, w);
    assert |multiset(receipts)| == |multiset(owed)|;
    forall i | 0 <= i < |f.remote| ensures owed[i] == Owed(f.remote, w, i) {
      OwedInOrder(f.remote, w, |f.remote|, i);
    }
    forall r ensures r in receipts <==> r in owed {
      assert r in receipts <==> r in multiset(receipts);
      assert r in owed <==> r in multiset(owed);
    }
  }

  lemma AllFailed(sent: Sent)
    ensures sent.ReachedNobody() <==>
              sent.localRecipients == [] && sent.receipts != [] && forall r <- sent.receipts :: r.State() == Failed
  {
  }

  /** `reached_nobody`, end to end: the message was filed for nobody here, somebody remote was
      addressed, and everybody remote failed to resolve or to take it. */
  lemma ReachedNobodyExactlyWhen(to: seq<string>, cc: seq<string>, f: Forked, federated: bool, w: World)
    requires Told(to, cc, f, federated, w).Ok? && M.PlainRoster(w.roster) && WebUris(f.remote, w)
    ensures Told(to, cc, f, federated, w).value.ReachedNobody() <==>
              && M.Receivers(f.localTo, f.localCc, w.sender.value, w.roster) == {}
              && f.remote != []
              && forall i :: 0 <= i < |f.remote| ==> Owed(f.remote, w, i).State() == Failed
  {
    LocalRecipientsAreTheFiled(to, cc, f, federated, w);
    ReceiptsAreTheOwed(to, cc, f, federated, w);
    NobodyReached(Told(to, cc, f, federated, w).value, f.remote, w,
                  M.Receivers(f.localTo, f.localCc, w.sender.value, w.roster));
  }

  lemma NobodyReached(sent: Sent, remote: seq<string>, w: World, receivers: set<string>)
    requires forall who :: who in sent.localRecipients <==> who in receivers
    requires |sent.receipts| == |remote|
    requires forall r :: r in sent.receipts <==> exists i :: 0 <= i < |remote| && r == Owed(remote, w, i)
    ensures sent.ReachedNobody() <==>
              receivers == {} && remote != [] && forall i :: 0 <= i < |remote| ==> Owed(remote, w, i).State() == Failed
  {
    AllFailed(sent);
    if sent.localRecipients != [] {
      assert sent.localRecipients[0] in receivers;
    }
    forall i | 0 <= i < |remote| ensures Owed(remote, w, i) in sent.receipts {
    }
  }

  lemma WhatASendDoes(to: seq<string>, cc: seq<string>, f: Forked, federated: bool, w: World)
    ensures
      var (done, told) := (Done(to, cc, f, federated, w), Told(to, cc, f, federated, w));
      && (told.Ok? ==> w.sender.Some? && StoredThenTried(done, told.value.record))
      && (told.Err? ==> forall e <- done :: !e.Store? && !e.Attempt?)
      && (told.Ok? && M.PlainRoster(w.roster) && WebUris(f.remote, w) ==>
            (told.value.ReachedNobody() <==>
               && M.Receivers(f.localTo, f.localCc, w.sender.value, w.roster) == {}
               && f.remote != []
               && forall i :: 0 <= i < |f.remote| ==> Owed(f.remote, w, i).State() == Failed))
  {
    StoredOnceBeforeDelivery(to, cc, f, federated, w);
    if Told(to, cc, f, federated, w).Ok? && M.PlainRoster(w.roster) && WebUris(f.remote, w) {
      ReachedNobodyExactlyWhen(to, cc, f, federated, w);
    }
  }

  /** Without `WebUris`: an actor URI that has no scheme is taken for somebody here, so a send
      that reached nobody passes for one that did. */
  lemma UriWithoutSchemeCountsAsReached(uri: string, record: M.Record, receipts: seq<Receipt>)
    requires uri in record.to && !M.HasScheme(uri)
    ensures !Sent(record, receipts, Reached(record)).ReachedNobody()
  {
    FilterMembers(record.to + record.cc, who => !(who in record.to && M.HasScheme(who)), uri);
  }

  /** Mail addressed to `@local` never leaves: nothing the resolver is asked about is local,
      on any hub. */
  lemma NothingLocalLeaves(
      to: seq<string>, cc: seq<string>, hubName: string, federated: bool, w: World, address: string)
    requires Fork(to, cc, hubName).Ok?
    requires Effect.Resolve(address) in Done(to, cc, Fork(to, cc, hubName).value, federated, w)
    ensures Parse(address).Ok? && Parse(address).value.hub != LOCAL && !Parse(address).value.IsLocalTo(hubName)
  {
    var f := Fork(to, cc, hubName).value;
    AskedIsRemote(to, cc, f, federated, w, address);
    if address in Split(to, hubName).value.1 {
      var a := RemoteIsRemote(to, hubName, address);
    } else {
      var a := RemoteIsRemote(cc, hubName, address);
    }
  }

  lemma AskedIsRemote(to: seq<string>, cc: seq<string>, f: Forked, federated: bool, w: World, address: string)
    requires Effect.Resolve(address) in Done(to, cc, f, federated, w)
    ensures address in f.remote
  {
  }
}
