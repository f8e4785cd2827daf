# Proofs about the agent-inbox hub and its clients

This project models the parts of agent-inbox whose docstrings promise something exact, and
proves those promises in Dafny. Run `dafny verify dfyconfig.toml` here.

What is modelled, one module each:

- `Locking`, `SharedFile`, `ConfigWriters`, `MachineConfig`: the advisory lock file as a machine
  of single file operations of any number of processes, read-merge-write on top of it, and the
  writers of the project and machine files on top of that, renders that cannot be read included.
- `IdentityFile`, `ProjectToml`: where the identity file lives, how a write replaces and
  migrates it when the process may die between any two file operations, and the text it is
  written as and read back from.
- `InboundClaims`: an inbound activity going through claim, store, complete or release, with
  concurrent retries, leases and crashes.
- `Sse` over `LineFold`: the chunk-fed event stream parser (a subset of the WHATWG HTML Living
  Standard, sections 9.2.5 and 9.2.6).
- `ThreadTree` over `Forests` and `Ancestry`, and `ThreadGroups`: laying out a thread and
  gathering a page into conversations from parent pointers that may form cycles.
- `CursorPaging`: the inbox cursor, over whole polling runs.
- `InterruptGate`: who may interrupt, and the rate limiter's bounded memory.
- `HookConfig`: installing and removing our hooks in ordered JSON that others write too.
- `NamespaceMerge`: giving every operator a mailbox of its own name.
- `Replies`: replies that are safe to retry, alone and in batches.
- `HouseSend`, `MailboxSend`, `Addressing`: one message to this hub and others, whom it is filed
  for, its receipts, and addresses.
- `Sorting`, `Folds`, `Text`, `Wrappers`: stable sort, loops and gathering by a key as functions,
  the string operations the rest shares, options and results.

Code that updates things in place is a class or a method with a loop, proved equal to a
function of its old state; the theorems are lemmas about that function. The lock and the
inbound claims are interleavings of many processes and so are machines of single steps, with
runs as values. Hypotheses of the run theorems are predicates on states, steps or inputs
(`Short`, `Undisturbed`, `Prompt`, `Sealed`, `InTime`, `ClockForward`, `Clean`, `OwnName`,
`WebUris`), and beside each theorem stands a run or an input that fails without them; for
`InTime`, `Clean` and `OwnName`, and for exclusion through `Intact`, it is an if and only if.

What an order, an audience, an answer or a flag means is stated on the fields themselves, beside
the theorems that speak of it through the function that computes it.

Where the code does not do what its own text says, the model follows the code:

- `_toml_str` says it escapes what TOML requires; control characters other than newline, return
  and tab stay, and one of them, or an engine name that is not a bare key, makes the whole file
  unreadable (`ProjectToml.FileRoundTrip`): every identity in it is lost and every later writer
  raises (`ConfigWriters.OneControlCharacterLosesAll`, `NoLostUpdate`). `write_config` says that
  every value is escaped, so an awkward character cannot lose the entries below it.
- `_set_machine_hub` says it never changes a hub that is set; over a file that cannot be read it
  does, and the shared token goes with the file (`MachineConfig.ChosenHubStandsExactlyWhen`,
  `UnsafeOfferIsReplaced`, `SettingSurvivesExactlyWhen`).
- `_render_project` keeps only name, role, token and wake, so a write drops any other field and
  table, an `interrupt` table included (`ConfigWriters.UnchangedExactlyWhen`), and
  `write_config` drops `wake` (`ConfigWriters.JoinDropsWake`).
- The message of the both-files branch at client.py:943-948 is false of the unlink at 1046-1047;
  no writer reaches it (`IdentityFile.BothFilesIsUnreachable`, `BothFilesBranchWouldRemove`).
- `unmangled_timestamp` says it is for timestamps and never for an id, but api.py:1086 applies
  it to the whole cursor (`CursorPaging.CursorRoundTrip`).
- The cursor of `view=count` passes over mail nobody was shown
  (`CursorPaging.CountCursorHidesTheMail`).
- `reply_messages` reports a repeated id as a duplicate that was handled, also when the body
  differs or the first item was not sent (`Replies.HandledEarlierExactlyWhen`,
  `SecondReplyIsDropped`). A client configured with another spelling of its name than the hub
  files never finds its own reply and doubles it (`Replies.NeverTwiceExactlyWhen`).
- `_rename` says it keeps everything else about the operator; recovery codes and sessions go
  (`NamespaceMerge.StepDropsCodes`). `adopt_existing` says a later run reports only `already`;
  it reports the collisions again (`NamespaceMerge.SecondRunChangesNothing`). `Collision` says
  that of two usernames becoming one name neither is migrated; the first read is
  (`NamespaceMerge.FirstOfTwoIsRenamed`).
- `create_human` says a lost race undoes the account; on a hub without another operator the
  undo is refused (`NamespaceMerge.WholeOrAbsent`).

## Model

| member | source | states |
|---|---|---|
| `Locking.Exclusion` | src/agent_inbox/locking.py:134-223 | In every interleaving of any number of processes, with a crash at any step, no two live processes hold the lock in any state, provided live holds stay within `stale_after` and no acquisition falls between a judgement and its unlink |
| `Locking.NoCrashNoReclaim` | src/agent_inbox/locking.py:109-223 | With no crash, no failed release and short holds, no reclaiming unlink ever happens and exclusion needs no assumption about the gap |
| `Locking.IntactExactlyWithoutTheft` | src/agent_inbox/locking.py:150-223 | A run keeps every live holder's own file at the path exactly when no step unlinks a file another live process holds |
| `Locking.DoubleHoldNeedsTheft` | src/agent_inbox/locking.py:150-223 | In any run, two live holders mean that some step before unlinked the file of a live holder |
| `Locking.TheftHasACause` | src/agent_inbox/locking.py:109-130 | Such an unlink hits a holder that acquired after the unlinker decided, or one older than `stale_after`; a release only the first kind |
| `Locking.CrashedHolderIsReclaimable` | src/agent_inbox/locking.py:109-130 | A dead holder's lock is judged abandoned at once when its claim was written, and otherwise exactly when the file is older than `stale_after` |
| `Locking.GapBreaksExclusion` | src/agent_inbox/locking.py:150-155 | The admitted gap: a run with short holds in which two contenders clear one dead lock and both end up holding |
| `Locking.LongHoldBreaksExclusion` | src/agent_inbox/locking.py:109-130 | A run without crash and without the gap in which a hold longer than `stale_after` leads to two holders |
| `Locking.StepKeepsIntactUnlessTheft` | src/agent_inbox/locking.py:156-223 | One step keeps every holder's file in place if and only if it is not such an unlink |
| `Locking.SafeExactlyWhenIntact` | src/agent_inbox/locking.py:134-223 | From any reachable state, every continuation without another theft keeps exclusion if and only if every live holder's file still stands at the path |
| `Locking.BrokenLeadsToDoubleHold` | src/agent_inbox/locking.py:134-223 | Once a live holder's file is gone, a continuation without another theft ends with two holders |
| `Locking.GivesUpOnlyWhenTimeIsUp` | src/agent_inbox/locking.py:162-203 | In any run a waiting process gives up without being denied the file only once the time of its own call is up and a file is there or turned it away |
| `Locking.TurnedAway` | src/agent_inbox/locking.py:179-199 | Turned away by a lock that is not abandoned, a live caller gives up at once when its time is up, and before that tries again with the same deadline |
| `Locking.LooksAgain` | src/agent_inbox/locking.py:190-199 | After a pause or a clearing it gives up exactly when its time is up and a file is there |
| `Locking.GivesUpInTime` | src/agent_inbox/locking.py:179-187 | Past its deadline, under a lock that stays, its own next steps end in giving up |
| `Locking.TakesOver` | src/agent_inbox/locking.py:109-203 | A waiter clears a lock exactly when the writer of its claim is dead or its time is more than `stale_after` ago, and then holds it after its own next steps |
| `Locking.LeavesWithItsOwn` | src/agent_inbox/locking.py:216-223 | A holder that leaves removes the file if the claim in it is its own, and leaves any other alone |
| `Locking.DeniedOrDead` | src/agent_inbox/locking.py:200-203 | Being denied the file ends the call and dying ends every step of that process, and both leave the file as it is |
| `SharedFile.Serialises` | src/agent_inbox/client.py:272-292 | Read-merge-write under the lock: the file always equals the completed writers run alone one after another, in the order they acquired the lock |
| `SharedFile.LocksAreLegal` | src/agent_inbox/client.py:279-292 | Every run of writers is, seen from the lock, a run of the lock protocol |
| `SharedFile.WriterAlone` | src/agent_inbox/client.py:279-292 | A writer alone over a free lock takes it, reads, leaves what it makes of the file, and leaves the lock free |
| `SharedFile.TwoInsideLoseOne` | src/agent_inbox/client.py:279-292 | Without exclusion, of two writers that read the same file the one that stores first is lost |
| `SharedFile.KeptExactlyWhenClean` | src/agent_inbox/client.py:272-292 | Over any list of writers, what clean writes keep and an unclean write loses for good is kept exactly when every writer that wrote was clean where it found the file |
| `ConfigWriters.NoLostUpdate` | src/agent_inbox/client.py:256-292 | Over any interleaving of the three project writers the file is their replay in lock order; an entry of a legible file that no later writer names keeps all its rendered fields if every later write is clean, and with plain engine names exactly then: otherwise the file cannot be read and nobody's entry can |
| `ConfigWriters.OthersSurvive` | src/agent_inbox/client.py:256-292 | From a legible file a clean writer leaves every entry it does not name as it was, on the rendered fields, and the file legible; one that is not clean, under a plain engine name, leaves a file nobody can read |
| `ConfigWriters.SeenOnFields` | src/agent_inbox/client.py:1024-1036 | What a reader finds of an entry, field by field |
| `ConfigWriters.WriteIsLegibleExactlyWhenClean` | src/agent_inbox/client.py:740-845 | From a legible file a writer renders one that reads back exactly when its engine is a bare key and no value it passes for rendering holds a control character the escape leaves |
| `ConfigWriters.RenderReadsBack` | src/agent_inbox/client.py:995-1039 | The file each writer is said to leave is what reading the rendered text gives, for any engine names that need no quoted or dotted key |
| `ConfigWriters.OneControlCharacterLosesAll` | src/agent_inbox/client.py:740-750 | The failing input: one name with a control character, or one engine name with a space, and no identity in the file can be read nor any later writer write |
| `ConfigWriters.UnchangedExactlyWhen` | src/agent_inbox/client.py:1001-1036 | A render leaves a legible file as it was exactly when it has no other top-level key such as `interrupt`, and every entry only the four rendered fields, a role, text values and no empty name, token or wake |
| `ConfigWriters.AtMostOneNewKey` | src/agent_inbox/client.py:97-110 | A write renders at most one entry more, and a legacy spelling that is present is reused, never doubled |
| `ConfigWriters.EntryKeyExactlyWhen` | src/agent_inbox/client.py:97-110 | An engine's entry is the one under its name; only `omp`, and only without one, answers to an `ohmypi` that is there |
| `ConfigWriters.NamesExactlyWhen` | src/agent_inbox/client.py:97-110 | The keys a writer can hold as its own are those its engine's entry has in some file |
| `ConfigWriters.JoinDropsWake` | src/agent_inbox/client.py:753-845 | A clean forced join rebuilds its own entry: name, role and kept token are right, a recorded `wake` is gone |
| `ConfigWriters.TokenKeepsItsHub` | src/agent_inbox/client.py:826-845 | A join that keeps a token pins its hub in the same file and offers none machine-wide; without a token it pins none |
| `ConfigWriters.OffersExactlyWhen` | src/agent_inbox/client.py:826-845 | A join offers its hub machine-wide exactly when it writes, the project pins none, the hub is not empty, and no token is given or held; and then that hub |
| `ConfigWriters.WriteMergesItsEntry` | src/agent_inbox/client.py:279-292 | A clean project write merges: of name, role, token and wake those it names take the new value and the others stay, and the hub is the one given or else the one there; one that is not clean, under a plain name, leaves an unreadable file |
| `ConfigWriters.UnsetRemovesOneField` | src/agent_inbox/client.py:306-338 | An unset writes exactly when the setting, the hub or a field, was there; it removes that one, keeps the hub, the other fields and the keys, and never spoils a legible file |
| `ConfigWriters.ProjectFile.Write` | src/agent_inbox/client.py:256-292 | The settings loop gives exactly the specified file, and raises over an unreadable one |
| `ConfigWriters.ProjectFile.Unset` | src/agent_inbox/client.py:306-338 | Whether it raised, whether a setting was there, and the file with it removed or untouched |
| `ConfigWriters.ProjectFile.Join` | src/agent_inbox/client.py:753-845 | Whether it raised, the new file, and the hub offered machine-wide: the one given, exactly when the join writes, this project pins none and no token is given or held |
| `MachineConfig.MachineFile.SetHub` | src/agent_inbox/client.py:848-893 | The file after an offer: a different machine hub that is set stays with its whole file, and an unreadable file reads as empty and is replaced |
| `MachineConfig.OffersEndAt` | src/agent_inbox/client.py:848-893 | From any machine file with plain keys, the hub after any list of offers in closed form: the chosen one unless it is offered again over a file that cannot be rendered, else the first offer that is not blank and can be written |
| `MachineConfig.MachineHubAfterOffers` | src/agent_inbox/client.py:848-893 | The same over any interleaving of `_set_machine_hub` calls |
| `MachineConfig.ChosenHubStandsExactlyWhen` | src/agent_inbox/client.py:848-893 | A hub somebody chose stands through every prefix of the offers exactly when nobody offers that very hub or the file it stands in can be rendered and read again |
| `MachineConfig.SettingSurvivesExactlyWhen` | src/agent_inbox/client.py:189-241 | Over any interleaving of the three machine writers a setting nobody names later, such as the shared token, stays exactly when every later write is clean, and is gone otherwise |
| `MachineConfig.GlobalWriteMerges` | src/agent_inbox/client.py:208-219 | A clean machine-wide write merges: the settings it names take the new values and every other stays |
| `MachineConfig.GlobalUnsetRemovesOne` | src/agent_inbox/client.py:295-303 | A machine-wide unset writes exactly when the setting is there and removes that one |
| `MachineConfig.JoinRecordsTheHub` | src/agent_inbox/client.py:841-893 | A join without a token, in a project that pins no hub, records its hub for the machine when the machine file holds none and can be written |
| `MachineConfig.UnsafeOfferIsReplaced` | src/agent_inbox/client.py:392-398 | An offered hub that cannot be written is accepted, makes the file unreadable, and the next offer takes its place |
| `MachineConfig.ControlCharacterIsOverwritten` | src/agent_inbox/client.py:848-893 | The failing run: `http://a` with a control character, then `http://b`, ends at `http://b` |
| `MachineConfig.GlobalReadsBack` | src/agent_inbox/client.py:222-241 | The machine file each writer is said to leave is what reading the rendered text gives, in any order of its lines |
| `IdentityFile.CrashSafe` | src/agent_inbox/client.py:995-1048 | Wherever a write dies, every reader resolves to the complete old identity before the rename and the complete new one after, from every combination of files |
| `IdentityFile.RunsAreCrashSafe` | src/agent_inbox/client.py:995-1048 | The same over any sequence of writers each dying anywhere: the identity is what the committed ones made of it |
| `IdentityFile.BothFilesIsUnreachable` | src/agent_inbox/client.py:937-949 | A writer that located its target through `find_config` never reaches the both-files branch, and never changes a legacy file beside a current one |
| `IdentityFile.BothFilesBranchWouldRemove` | src/agent_inbox/client.py:943-1047 | Reached with a legacy target, that branch would report the older file left alone and the render would remove it |
| `IdentityFile.MigratesUnlessTracked` | src/agent_inbox/client.py:896-975 | A complete write moves a legacy file to the current name exactly when git does not track it; a tracked one is rewritten in place |
| `IdentityFile.HalfMigrationStays` | src/agent_inbox/client.py:1040-1047 | Dying between rename and unlink leaves both files, and no later writer touches the older one |
| `IdentityFile.TargetIsTheNearest` | src/agent_inbox/client.py:525-545 | Where a writer writes, from the directories alone: the nearest that holds either file or is a repository root, the current name before the legacy one, and the start if none is; and the identity in force is what stands there |
| `IdentityFile.Project.FindConfig` | src/agent_inbox/client.py:525-545 | The directory loop finds the nearest file, current name first, and stops at a repository root |
| `IdentityFile.Project.ProjectRoot` | src/agent_inbox/client.py:726-737 | The nearest repository root, else the starting directory |
| `IdentityFile.Project.RenderProject` | src/agent_inbox/client.py:995-1048 | Temporary file, rename and unlink in this order, cut after any number of operations |
| `IdentityFile.Project.Update` | src/agent_inbox/client.py:279-292 | Locate, read what is in force, render, and die anywhere |
| `ProjectToml.FivePassesAreOneEscape` | src/agent_inbox/client.py:740-750 | The five sequential `replace` passes equal one character-by-character escape |
| `ProjectToml.QuotedRoundTrip` | src/agent_inbox/client.py:740-750 | Reading a quoted value back as a TOML basic string gives the value exactly when it holds no control character other than newline, return and tab; otherwise it does not parse |
| `ProjectToml.SafeExactlyWhen` | src/agent_inbox/client.py:740-750 | What a value may hold to be read back: tab, line feed, return, and everything from the space on but 127 |
| `ProjectToml.EscapesReadBack` | src/agent_inbox/client.py:279-292 | Reading the file, any character written as a hexadecimal escape is that character |
| `ProjectToml.FileRoundTrip` | src/agent_inbox/client.py:995-1039 | Reading back a rendered file gives the hub and every normalised entry exactly when every engine name is a bare key and every value is free of those characters; one such name or value and no identity can be read |
| `ProjectToml.GlobalRoundTrip` | src/agent_inbox/client.py:222-241 | Reading back the machine-wide file gives every setting exactly when every key is bare and every value is free of those characters |
| `ProjectToml.RenderEntry` | src/agent_inbox/client.py:1024-1036 | The lines of one engine's table |
| `ProjectToml.AppendEntries` | src/agent_inbox/client.py:1017-1036 | The loop over the engines appends every table in order |
| `ProjectToml.TablesInOrder` | src/agent_inbox/client.py:1017-1023 | The tables are rendered in order of their engines' names |
| `ProjectToml.NormalOnFields` | src/agent_inbox/client.py:1024-1036 | What a render keeps of an entry: name, token and wake where they are not empty, and always a role |
| `ProjectToml.RenderProject` | src/agent_inbox/client.py:1006-1039 | The whole file for any hub and entries |
| `InboundClaims.AtMostOnce` | src/agent_inbox/api.py:1590-1633 | Over concurrent retries, crashes and lease expiries each activity is stored at most once, if each delivery ends inside its lease and nothing falls between storing and completing |
| `InboundClaims.CompletedIsStoredAndNothingIsLost` | src/agent_inbox/api.py:1626-1632 | In every run a completed claim means the message is stored, and one not stored is claimable after one lease |
| `InboundClaims.RefusalIsHonest` | src/agent_inbox/mailbox.py:133-145 | A retry is refused exactly for a completed activity and within 300 seconds of the claim it lost to, and so only for a stored message or inside a lease |
| `InboundClaims.OneRequest` | src/agent_inbox/api.py:1590-1633 | One request step by step: claimed, then stored once and completed, or refused and given back, or nothing changed |
| `InboundClaims.CompletedStays` | src/agent_inbox/mailbox.py:133-153 | In every run a completed activity stays completed, whatever is claimed, released or dies later |
| `InboundClaims.SlowDeliveryStoresTwice` | src/agent_inbox/mailbox.py:133-145 | A delivery that outlives its lease: a run that stores twice |
| `InboundClaims.CrashAfterStoringStoresTwice` | src/agent_inbox/api.py:1624-1632 | A crash between storing and completing: a run that stores twice with every delivery inside its lease |
| `InboundClaims.Mailbox.ClaimActivity` | src/agent_inbox/mailbox.py:133-145 | Won exactly on no row or an incomplete row older than the lease, and the row is then ours from now |
| `InboundClaims.Mailbox.CompleteActivity` | src/agent_inbox/mailbox.py:147-149 | The row is delivered for ever |
| `InboundClaims.Mailbox.ReleaseActivity` | src/agent_inbox/mailbox.py:151-153 | An undelivered row is given back, a delivered one is not |
| `InboundClaims.Mailbox.FederationInbox` | src/agent_inbox/api.py:1577-1633 | Alone: stored once and claimed for ever, or raised and no claim left, or refused and nothing changed |
| `Sse.ChunkIndependence` | src/agent_inbox/client.py:1706-1739 | For every splitting of an input into chunks the events and the final parser state equal those of one feed |
| `Sse.WhatALineDoes` | src/agent_inbox/client.py:1717-1739 | What any one line does: comments, blank lines, `data`, `event` and `id` with and without a space or a colon, and any other field |
| `Sse.RoundTrip` | src/agent_inbox/client.py:1680-1739 | Frame any events, put comment lines anywhere between the lines, end lines with LF after any number of CRs, cut anywhere: parsing gives exactly the list back and a fresh parser |
| `Sse.RenderedRoundTrip` | src/agent_inbox/client.py:1680-1739 | Any event list whose fields fit on lines survives being rendered with CR LF and fed in any chunks |
| `Sse.SseParser.FeedChunk` | src/agent_inbox/client.py:1706-1715 | The buffer loop computes exactly the whole-input specification |
| `Sse.SseParser.OneLine` | src/agent_inbox/client.py:1717-1739 | One line's effect on data, event and id, and the event dispatched at a blank line |
| `Sse.DrainAppends` | src/agent_inbox/client.py:1706-1715 | Events already dispatched do not influence later ones |
| `LineFold.DrainInTwo` | src/agent_inbox/client.py:1709-1714 | Draining a text is draining its first part and then the rest after what was left over |
| `ThreadTree.ThreadTree` | src/agent_inbox/console.py:382-433 | The grouping loop, the recursive walk and the final sweep compute the specified rows, and end on any parent pointers |
| `ThreadTree.EveryTurnOnce` | src/agent_inbox/console.py:419-432 | Every turn is shown exactly once, self-loops and cycles included |
| `ThreadTree.DepthIsTheChain` | src/agent_inbox/console.py:419-423 | A turn whose chain of parents ends is shown at min(chain length, 6) and flagged exactly when its parent is named but absent |
| `ThreadTree.UnreachableComeLast` | src/agent_inbox/console.py:427-432 | Exactly the turns whose chain never ends come last, in the order given, at depth 0 and flagged |
| `ThreadTree.AnswersFollowTheirParent` | src/agent_inbox/console.py:419-423 | Preorder: an answer stands after its parent and everything between descends from that parent |
| `ThreadTree.SiblingsReadForwards` | src/agent_inbox/console.py:414-426 | The top of the thread and the answers to any shown turn are all the turns that belong there, ordered by `published`, ties as they came |
| `ThreadTree.ChainedTurnsStand` | src/agent_inbox/console.py:400-426 | From ids and URIs alone: a turn whose chain of answered turns ends stands as deep as the chain is long, at most six, after the turn it answers, and is flagged exactly when it names a turn that is not here |
| `ThreadTree.AnswersStandUnder` | src/agent_inbox/console.py:404-423 | A turn whose `inReplyTo` ends in the last segment of a reached turn's id stands after that turn, one deeper up to the cap, and is not flagged |
| `ThreadTree.AnswersNobodyHere` | src/agent_inbox/console.py:404-412 | A turn that names no turn of the list stands at depth 0, flagged if it names one at all |
| `ThreadTree.ReachedExactlyWhenChained` | src/agent_inbox/console.py:419-432 | The walk reaches a turn exactly when its chain of answered turns ends |
| `ThreadTree.Layout.Group` | src/agent_inbox/console.py:400-412 | The loop fills children, roots and orphans as the parent pointers say |
| `ThreadTree.Layout.Walk` | src/agent_inbox/console.py:419-423 | The recursive walk appends exactly the rows under a turn |
| `ThreadTree.Layout.WalkEach` | src/agent_inbox/console.py:422-426 | The sibling loop appends the walks one after another |
| `ThreadTree.AppendUnreached` | src/agent_inbox/console.py:427-433 | What the walk never reached is appended |
| `Forests.VisitedExactlyWhenReachable` | src/agent_inbox/console.py:419-426 | The walk visits a turn at a depth if and only if its chain of parents has that length and ends at a root |
| `Forests.SiblingsKeepTheirOrder` | src/agent_inbox/console.py:422-426 | Over a whole walk the turns under one visited turn keep the order of its sorted children, the roots that of the sorted roots |
| `ThreadGroups.GatherThreads` | src/agent_inbox/api.py:1283-1324 | The grouping and summarising loops compute the specified summaries |
| `ThreadGroups.GroupByRoot` | src/agent_inbox/api.py:1305-1307 | The dict of groups: keys in order of first appearance, each with exactly its messages in order |
| `Folds.FirstSeenGrows` | src/agent_inbox/api.py:1305-1307 | The keys of the dict stand in the order they first came: later messages only add keys behind |
| `ThreadGroups.RootOf` | src/agent_inbox/api.py:1295-1303 | The loop with its `seen` set ends on cyclic data at the specified root |
| `ThreadGroups.ThreadsPartitionThePage` | src/agent_inbox/api.py:1305-1319 | The unread counts add up to the page, whatever the pointers say |
| `ThreadGroups.AcyclicTurnsShareTheirTop` | src/agent_inbox/api.py:1295-1303 | Two messages whose chains end share a conversation exactly when they share the topmost message on the page |
| `ThreadGroups.CycleMembersRootThemselves` | src/agent_inbox/api.py:1299-1303 | Every member of a cycle is its own root |
| `ThreadGroups.TailsRootAtTheirEntry` | src/agent_inbox/api.py:1299-1303 | A tail into a cycle belongs to the message it enters the cycle at |
| `ThreadGroups.RootsAtTheTop` | src/agent_inbox/api.py:1295-1303 | On the fields: a message's conversation is named after the message its chain of answered messages ends at |
| `ThreadGroups.RootsWhereItTurnsBack` | src/agent_inbox/api.py:1299-1303 | Or, when that chain turns back on itself, after the message it turns back to |
| `ThreadGroups.ThreadsAreNewestFirst` | src/agent_inbox/api.py:1309-1324 | Conversations come newest first, count all their messages, quote one of them that none is newer than, and take the subject from one that none is older than, or else from the last |
| `CursorPaging.ShownExactlyWhen` | src/agent_inbox/api.py:1086-1150 | Over any interleaving of arrivals and polls of either view, cursors escaped or mangled: what was shown is in order, without repeats, and of the mail at or below the cursor exactly what was not hidden by arriving late or by a kept count cursor |
| `CursorPaging.NothingHiddenExactlyWhen` | src/agent_inbox/api.py:1089-1135 | Nothing is ever hidden if and only if no message arrives at or below the cursor and no count cursor is kept over waiting mail |
| `CursorPaging.NeverHidesNeverRepeats` | src/agent_inbox/api.py:1086-1132 | Then what was shown is in order, without repeats, and exactly the mail the cursor covers |
| `CursorPaging.HiddenForGood` | src/agent_inbox/api.py:1089-1091 | What is hidden is shown in no continuation of the run |
| `CursorPaging.NextPollIsExact` | src/agent_inbox/api.py:1093-1146 | `unread` counts exactly what was not shown, a page has at most fifty, `more` is the remainder, and at zero all mail has been shown once |
| `CursorPaging.Drain` | src/agent_inbox/api.py:1086-1146 | The pages of a fixed mailbox, an empty one included, concatenate to its sorted messages, fifty at a time, with exact counts and a cursor that then stands still |
| `CursorPaging.MangledCursorSamePage` | src/agent_inbox/api.py:201-227 | A cursor whose `+` became spaces gives the same page, for every mailbox and cursor |
| `CursorPaging.PageReadsForwards` | src/agent_inbox/api.py:1086-1103 | A page of any mailbox is the start of what the cursor lets through, in order of `published` and, in one instant, of id |
| `CursorPaging.PastTheCursor` | src/agent_inbox/api.py:1086-1090 | A cursor lets through exactly what was published later, or in that instant under a larger id |
| `CursorPaging.DrainReadsForwards` | src/agent_inbox/api.py:1102-1103 | The pages of a fixed mailbox read forwards in time, each and from one to the next |
| `CursorPaging.CursorRoundTrip` | src/agent_inbox/api.py:192-238 | A cursor parses back to its key exactly when neither part holds a space and the timestamp no bar |
| `CursorPaging.CountCursorHidesTheMail` | src/agent_inbox/api.py:1093-1135 | From any cursor, the kept cursor of `view=count` hides exactly the mail it counted: none of it is shown in any continuation |
| `CursorPaging.LateBelowTheCursorIsHidden` | src/agent_inbox/api.py:1089-1091 | A message that arrives at or below the cursor is shown in no continuation of the run |
| `CursorPaging.ALateMessage` | src/agent_inbox/api.py:1089-1091 | Such a run: one message shown, and one later in the same instant under a smaller id hidden |
| `CursorPaging.InstantOfAnEmptyPoll` | src/agent_inbox/api.py:1111-1126 | The cursor of an empty poll still shows mail of that very instant |
| `CursorPaging.Inbox` | src/agent_inbox/api.py:1086-1150 | Filter, sort, cut at fifty, take the maximum key: the specified page |
| `CursorPaging.Newest` | src/agent_inbox/api.py:1107 | The maximum key of a page |
| `InterruptGate.Decide` | src/agent_inbox/interrupt.py:170-248 | Wakes exactly for a trusted name on a hub that checks names, with room under the cap and an adapter |
| `InterruptGate.ReasonsNameTheFirstObstacle` | src/agent_inbox/interrupt.py:200-246 | Each refusal names the first obstacle: mending that alone gets past it |
| `InterruptGate.BoundedDequeIsEnough` | src/agent_inbox/interrupt.py:280-282 | Remembering max(1, cap) times answers as remembering all would, down to the count in the record |
| `InterruptGate.RateIsKept` | src/agent_inbox/interrupt.py:225-333 | Any cap + 1 successive interruptions span at least 60 seconds, across every change of `identity_verified` |
| `InterruptGate.WakesExactlyWhen` | src/agent_inbox/interrupt.py:205-289 | Over any life of the gatekeeper an arrival wakes exactly for a trusted name, names checked as last said, an adapter ready, and fewer interruptions than the cap in the last 60 seconds |
| `InterruptGate.RemembersTheLast` | src/agent_inbox/interrupt.py:292-333 | It remembers exactly the last of its interruptions, as many as the cap and one at least, on any clock |
| `InterruptGate.ClockBackBreaksTheRate` | src/agent_inbox/interrupt.py:225-333 | A clock that goes back breaks it: a run with three interruptions under a cap of two, the last a second after the first |
| `InterruptGate.NonInterference` | src/agent_inbox/interrupt.py:182-248 | Lives that agree on what trusted senders sent, by sender, id and time, answer the next arrival alike, whatever strangers wrote and adapters did |
| `InterruptGate.UntrustedLeaveNoTrace` | src/agent_inbox/interrupt.py:222-223 | Arrivals from senders outside the list leave the gate as if they had never come |
| `InterruptGate.Gatekeeper.Consider` | src/agent_inbox/interrupt.py:315-333 | The decision, the history after it and the step of the state machine, whether or not the adapter raises |
| `InterruptGate.Gatekeeper.SetIdentityVerified` | src/agent_inbox/interrupt.py:292-313 | Changes the flag and keeps the history |
| `HookConfig.InstallLaw` | src/agent_inbox/hookconfig.py:54-117 | Stripping an install gives the stripped settings, as ordered JSON, exactly when the command holds the marker and none of our three events held a value that is not a list |
| `HookConfig.LastInstallWins` | src/agent_inbox/hookconfig.py:85-203 | An install over an install is the second one alone, for either harness, so a reinstall renders the same file |
| `HookConfig.StripIsIdempotent` | src/agent_inbox/hookconfig.py:54-82 | Stripping twice is stripping once |
| `HookConfig.ForeignEntriesSurvive` | src/agent_inbox/hookconfig.py:85-117 | The foreign hook entries of every event are unchanged in order, and ours is one entry on each event we hook and none elsewhere |
| `HookConfig.ForeignEventsStay` | src/agent_inbox/hookconfig.py:64-117 | An event whose groups all belong to others keeps them as they are, and an install puts ours behind them |
| `HookConfig.InstallAddsOneEntry` | src/agent_inbox/hookconfig.py:96-117 | After an install an event holds everybody else's entries and then ours once |
| `HookConfig.OurEntry` | src/agent_inbox/hookconfig.py:85-203 | What our entry holds: the command for the event, the timeout, and the keys of the waiting and of the Codex one |
| `HookConfig.StripKeepsForeignEntries` | src/agent_inbox/hookconfig.py:54-82 | Strip removes exactly our entries of an event |
| `HookConfig.OursIffMarked` | src/agent_inbox/hookconfig.py:46-51 | What we install is recognised as ours exactly when the base command holds the marker |
| `HookConfig.OursExactlyWhen` | src/agent_inbox/hookconfig.py:46-51 | An entry is ours exactly when it is a command whose text, or a text in it, holds `wake-check` |
| `HookConfig.RaisesExactlyWhen` | src/agent_inbox/hookconfig.py:54-117 | When stripping and installing raise, and what: for hooks that cannot be iterated, and for a `hooks` value that is no object |
| `HookConfig.OtherSettingsUntouched` | src/agent_inbox/hookconfig.py:54-117 | Nothing outside `hooks` changes |
| `HookConfig.StripGroups` | src/agent_inbox/hookconfig.py:64-76 | The loop over the groups of an event, and where it raises |
| `HookConfig.StripEvents` | src/agent_inbox/hookconfig.py:60-80 | The loop that edits and deletes events in place |
| `HookConfig.StripSettings` | src/agent_inbox/hookconfig.py:54-82 | `strip`, with its TypeError |
| `HookConfig.ApplySettings` | src/agent_inbox/hookconfig.py:85-203 | `apply` and `codex_apply`, with their errors |
| `NamespaceMerge.MigrationIsSound` | src/agent_inbox/merge.py:153-235 | Accounts keep their number and every field but the username, no two share a name, no actor goes or changes but into a person, every operator settles or is reported as a collision, renames go to names nobody held, the renamed lose their codes, and the report says of each whether its mailbox is new, was there or was promoted |
| `NamespaceMerge.ReportedExactlyTheStuck` | src/agent_inbox/merge.py:172-199 | An operator ends with a person's mailbox under its own username exactly when the report holds no collision for it, and otherwise is where it was |
| `NamespaceMerge.StuckExactlyWhen` | src/agent_inbox/merge.py:172-199 | From the start alone: an operator is left and reported exactly when it has no usable name, or one that is not its own and that anybody held at the start or an operator read before it could use |
| `NamespaceMerge.FirstOfTwoIsRenamed` | src/agent_inbox/merge.py:172-199 | Of several operators whose usernames become one free name the one read first is renamed to it, and every other stays as it was and is reported |
| `NamespaceMerge.SecondRunChangesNothing` | src/agent_inbox/merge.py:158-160 | A second run, in any order, changes no state and reports the same collisions |
| `NamespaceMerge.StepDropsCodes` | src/agent_inbox/merge.py:279-293 | A rename deletes the recovery codes and sessions of the renamed operator and nobody else's |
| `NamespaceMerge.StepRenamesToFree` | src/agent_inbox/merge.py:182-201 | A rename goes to a name that no operator and no actor held at the start |
| `NamespaceMerge.UsableLasts` | src/agent_inbox/merge.py:264-276 | The usable name of a usable name is itself, whatever `normalize` does, so what is proved of the migration for every such choice of names holds of `_usable` |
| `NamespaceMerge.UsableExactlyWhen` | src/agent_inbox/merge.py:264-276 | The name an operator can use is its own if valid, else what normalising makes of it if that is valid |
| `NamespaceMerge.ValidatedTwice` | src/agent_inbox/naming.py:103-146 | A validated operator name validates to itself |
| `NamespaceMerge.ValidatedExactlyWhen` | src/agent_inbox/naming.py:103-146 | Which names are valid and what they become |
| `NamespaceMerge.WholeOrAbsent` | src/agent_inbox/merge.py:107-150 | A new human gets account and mailbox or neither, except for a race lost on a hub without operators, where the undo is refused |
| `NamespaceMerge.Stores.AdoptExisting` | src/agent_inbox/merge.py:153-235 | The loop computes the specified migration |
| `NamespaceMerge.Stores.AdoptUser` | src/agent_inbox/merge.py:172-222 | One turn of the loop: the state, the report and the operator's name after it |
| `NamespaceMerge.Stores.Promote` | src/agent_inbox/merge.py:238-261 | Only the kind of the actor changes, and whether it did |
| `NamespaceMerge.Stores.Rename` | src/agent_inbox/merge.py:279-293 | The account under its new name, the old one gone |
| `NamespaceMerge.Stores.CreateHuman` | src/agent_inbox/merge.py:107-150 | The stores and the answer after creating a human |
| `Replies.AnswersAreTrue` | src/agent_inbox/mcp_client.py:725-757 | Whatever was lost before, delivered or duplicate means the hub holds exactly the one reply of the receipt, and unknown that nothing was sent |
| `Replies.AnswersExactlyWhen` | src/agent_inbox/mcp_client.py:725-757 | After any history: unknown exactly when the thread cannot be read, duplicate exactly when a note of ours with that parent and body is there, delivered exactly when it was posted and answered, with its receipt, and failed otherwise; and what the hub then holds |
| `Replies.NeverTwice` | src/agent_inbox/mcp_client.py:701-757 | Over any sequence of replies, failed checks, unsent requests and lost receipts the hub holds at most one reply per parent and body |
| `Replies.NeverTwiceExactlyWhen` | src/agent_inbox/mcp_client.py:701-722 | This holds of every history exactly for a client configured with its name as the hub files it |
| `Replies.NeverTwiceOnFields` | src/agent_inbox/mcp_client.py:701-757 | On the fields of the notes: no two of ours ever have the same parent and body |
| `Replies.HistoryKeeps` | src/agent_inbox/mcp_client.py:725-757 | No note that was there, or that anybody else wrote, is lost |
| `Replies.OwnNameExactlyWhen` | src/agent_inbox/addressing.py:110-123 | That is a bare name, trimmed and in lower case |
| `Replies.BatchIsOrderly` | src/agent_inbox/mcp_client.py:1242-1283 | A result per item in order, each id asked about at most once and at most 25 in all, no reply doubled |
| `Replies.BatchAnswersHold` | src/agent_inbox/mcp_client.py:1242-1283 | Every item confirmed by a batch is held exactly once at its end |
| `Replies.ReportOf` | src/agent_inbox/mcp_client.py:1284-1293 | The five tallies add up to the request, and it is complete exactly when every item was attempted |
| `Replies.HeldAfterBatchExactlyWhen` | src/agent_inbox/mcp_client.py:1242-1283 | For any batch, a reply is on the hub afterwards exactly when it was there before or the hub stored it for an item the batch asked about |
| `Replies.HandledEarlierExactlyWhen` | src/agent_inbox/mcp_client.py:1260-1269 | Of any batch, an item reported as a duplicate handled earlier has its reply on the hub at the end exactly when it was there at the start or an item asked about, to the same message with the same body, was stored |
| `Replies.ToldExactlyWhen` | src/agent_inbox/mcp_client.py:1248-1283 | What each item of any batch is told: failed without an id or a body, handled earlier when its id came before, not attempted when 25 other ids did, otherwise what the hub answers |
| `Replies.TalliesCount` | src/agent_inbox/mcp_client.py:1284-1293 | Each tally of the report counts the items with that outcome |
| `Replies.SecondReplyIsDropped` | src/agent_inbox/mcp_client.py:1260-1269 | The failing batch: two different replies to one message, the second reported as handled and not sent |
| `Replies.Client.ExistingReply` | src/agent_inbox/mcp_client.py:701-722 | The loop finds the first own reply with this parent and body |
| `Replies.Client.ReplyOnce` | src/agent_inbox/mcp_client.py:725-757 | The outcome, the notes and the thread asked for |
| `Replies.ReplyMessages` | src/agent_inbox/mcp_client.py:1242-1293 | The batch loop computes the specified report, notes and requests |
| `HouseSend.OneReceiptEach` | src/agent_inbox/house.py:188-236 | Exactly one receipt per remote recipient, the one its own resolution and delivery earned, repeats included |
| `HouseSend.OwedState` | src/agent_inbox/delivery.py:38-72 | Delivered, queued and failed told apart, and queued never without saying that the wait does not last |
| `HouseSend.StoredOnceBeforeDelivery` | src/agent_inbox/house.py:197-236 | The log of a send that returns holds exactly one store, after every resolution and before every attempt, which are the resolved recipients in order; a send that raises neither stores nor tries |
| `HouseSend.StoredAsAddressed` | src/agent_inbox/house.py:197-217 | What is filed: the local recipients in order of their names, then exactly the URIs that resolved, with everything typed as its audience |
| `HouseSend.FailureTouchesNobody` | src/agent_inbox/house.py:160-218 | Exactly when a send raises, and that it then stores nothing and tries nobody |
| `HouseSend.RefusedNotDropped` | src/agent_inbox/house.py:176-190 | Without federation a remote recipient is refused by name and nothing else happens |
| `HouseSend.LocalRecipientsAreTheFiled` | src/agent_inbox/house.py:239-247 | `local_recipients`, worked out of a record that mixes names and URIs, is exactly whom the mailbox filed the message for here |
| `HouseSend.ReachedNobodyExactlyWhen` | src/agent_inbox/delivery.py:94-113 | The message was filed for nobody here, somebody remote was addressed, and every one of them failed |
| `HouseSend.UriWithoutSchemeCountsAsReached` | src/agent_inbox/house.py:241-247 | Without a scheme in actor URIs it fails: such a URI passes for a local recipient |
| `HouseSend.NothingLocalLeaves` | src/agent_inbox/addressing.py:92-97 | No recipient held here or written `@local` is ever resolved or delivered elsewhere |
| `HouseSend.House.Send` | src/agent_inbox/house.py:135-264 | The answer, the effects in order and the mailbox, for every pattern of outcomes; one store before every attempt or none at all; and `reached_nobody` exactly when nobody was filed or reached |
| `HouseSend.House.ResolveAll` | src/agent_inbox/house.py:191-201 | The resolved recipients, the failed receipts, and who was asked |
| `HouseSend.House.DeliverAll` | src/agent_inbox/house.py:220-236 | A receipt per resolved recipient, in order |
| `HouseSend.MailboxReadsTheFork` | src/agent_inbox/house.py:203-209 | What the mailbox is handed after the fork it reads as the fork's local names |
| `HouseSend.ForkByHub` | src/agent_inbox/house.py:160-190 | Where each typed address goes: to this mailbox, from `to` or `cc`, or to another hub |
| `HouseSend.TriedExactly` | src/agent_inbox/house.py:191-236 | Exactly the URIs that resolved are tried, and exactly the remote recipients are asked about |
| `MailboxSend.WhoReceives` | src/agent_inbox/rules.py:43-97 | Who receives a copy, written out: every actor when `everyone` is named, the members of a named group, an actor named in person, and the sender exactly when it wrote its own name |
| `MailboxSend.FiledOnce` | src/agent_inbox/mailbox.py:346-366 | Nobody is filed twice, `cc` never repeats `to`, and together they are exactly the receivers |
| `MailboxSend.FiledExactlyFor` | src/agent_inbox/mailbox.py:346-392 | From the addresses and the roster alone: whom the stored `to` and `cc` hold besides the URIs handed over, what is under `to` and what under `cc`, and the audience kept |
| `MailboxSend.PostedExactlyFor` | src/agent_inbox/mailbox.py:284-394 | The same for a whole send, from the texts typed: whom the stored record is for, and under which of `to` and `cc` |
| `MailboxSend.ReadsOwnNames` | src/agent_inbox/addressing.py:110-123 | An address is a name held here exactly when its hub is `local` or this one, and refused with its reason otherwise |
| `MailboxSend.RefusedExactlyWhen` | src/agent_inbox/mailbox.py:397-450 | Refused exactly for a name nobody holds, and then by all such names, or for names of which none reaches anybody when nobody remote is added |
| `MailboxSend.ReadersAgree` | src/agent_inbox/rules.py:69-92 | The rule that reads a stored message back finds exactly the receivers it was filed for, when no actor answers to a group's name |
| `MailboxSend.ResolveAudience` | src/agent_inbox/rules.py:43-63 | The loop over the names gives every actor for `everyone`, the members of a named group, and an actor named in person, and nobody else |
| `MailboxSend.FileFor` | src/agent_inbox/mailbox.py:324-369 | The refusals in order, and the record to file |
| `MailboxSend.Mailbox.Send` | src/agent_inbox/mailbox.py:284-394 | One record stored and returned, or an error and nothing stored |
| `Addressing.PrintedParsesBack` | src/agent_inbox/addressing.py:43-76 | For every text `parse` accepts, parsing its printed form gives the same address |
| `Addressing.ParsesAs` | src/agent_inbox/addressing.py:61-76 | A text with one `@` is read as its two parts, trimmed and in lower case, or refused for the part that is missing |
| `Addressing.BareParsesAs` | src/agent_inbox/addressing.py:61-76 | A text without one is a name held here, or empty |
| `Addressing.ManyAtsAreRefused` | src/agent_inbox/addressing.py:66-69 | A text with more is refused |
| `Addressing.HalvesReunite` | src/agent_inbox/addressing.py:79-107 | The split is an order-preserving partition of the whole list |
| `Addressing.SplitByHub` | src/agent_inbox/addressing.py:79-107 | Which half an address goes to and how it is written there: by name alone when its hub is `local` or this one, in full otherwise |
| `Addressing.RemoteIsRemote` | src/agent_inbox/addressing.py:92-107 | An address in the remote half is not local to this hub, does not say `local`, and was given |
| `Addressing.LocalStaysLocal` | src/agent_inbox/addressing.py:56-76 | `@local` in any case and spacing is local to every hub |
| `Addressing.SplitRecipients` | src/agent_inbox/addressing.py:79-107 | The loop, stopping at the first malformed address |
| `Text.LeafIsTheLastSegment` | src/agent_inbox/console.py:439-440 | The leaf of a URI is its last segment, whatever stands before it and however many slashes end it, and a bare name is its own leaf |
| `Text.BelowExactlyWhen` | src/agent_inbox/api.py:192-194 | The order on instants and ids: the first differing character decides, and a prefix is below |
| `Text.StripTakesTheEnds` | src/agent_inbox/addressing.py:63-71 | Stripping takes off the white space at both ends and nothing else |
| `Sorting.SortIsStable` | src/agent_inbox/console.py:422-425 | Python's `sorted` keeps the order of elements that tie |

## Left out

- Locking.Exclusion: process ids are not reused, an operating system error other than the modelled denials does not occur, and `_abandoned`'s read and comparison are one step; time is an integer that never goes back.
- SharedFile.Serialises: the writers' own effect is one step between reading and storing, because what they compute does not touch the file.
- IdentityFile.CrashSafe: a rename is atomic and survives the crash as the file system promises; directories, permissions and the ignore rules written beside the file are not modelled.
- ProjectToml.FileRoundTrip: the reader is the part of TOML v1.0.0 the renderers write (comments, bare keys, tables of one bare key under `agents`, basic strings); engine names and keys that hold a dot, a quote, a bracket, a hash or a line break, or have white space around them, are outside it.
- ConfigWriters.NoLostUpdate: what TOML makes of such engine names (a dotted one reads as a nested table) is left open as any file; the theorem that clean writers keep every entry holds whatever it is, the converse is stated without such names. `agents` is a table of tables, and the file is UTF-8.
- MachineConfig.SettingSurvivesExactlyWhen: for the same names of settings; a file that is not UTF-8, over which `load_global` raises, is not modelled.
- InboundClaims.AtMostOnce: claim, complete and release are single statements of the store, as the store's contract says; verification of the sender and rendering of the note are parameters of the request.
- Sse.RoundTrip: a lone CR as a terminator and a persistent last event id are not implemented by the parser and not modelled; decoding of bytes happens before it.
- ThreadTree.ThreadTree: every turn has a name of its own, which the hub's message ids guarantee; nothing is said of threads in which two turns share one.
- ThreadGroups.GatherThreads: message ids are unique, as in the store; the root is given as its id, without the URI it is rendered as.
- CursorPaging.ShownExactlyWhen: no two messages share instant and id, and instants and ids hold no space and instants no bar, as the store's timestamps and message ids; `view=count` keeps the cursor it returns, and a caller that throws it away is one that did not poll.
- CursorPaging.Inbox: `view=full` returns no cursor and is not modelled, `summary` and `threads` share one page; authorisation of the caller is not modelled.
- InterruptGate.Decide: reading the policy from a configuration file is not modelled, and the log text is kept by what it says.
- HookConfig.ApplySettings: reading and writing the settings file, the generated plug-in code and shell quoting are not modelled.
- NamespaceMerge.MigrationIsSound: stated for any choice of names that lasts (`UsableLasts`), so `normalize` may be any function on text; `claim_name` is atomic; nothing else writes the stores during a migration.
- Replies.AnswersAreTrue: calls are sequential, a thread the hub returns holds every reply of the caller to that message, and the hub stores a reply with the body it was given.
- HouseSend.House.Send: announcing to listeners is not modelled.
- MailboxSend.Mailbox.Send: whether a reply may join its thread, the subject, the body and the time do not touch whom the message is filed for and are left out; the store keeps a record whole or not at all; a group and its members are given, not read out of profiles.
- Lower: case folding is the ASCII one; a character is a code point.
- Visibility rules, search and purge: the deciding functions are not part of this model.
- Authentication, signatures, keys, peers and outbound transport: foreign calls.
- HTTP routes, console pages, command line output, MCP transport and stream serving: presentation and input or output.
- Engine detection, environment variables, deployment checks, backoff and hub settings: easy members.
