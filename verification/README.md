# Verified models of a coding agent's state machines

This project models the parts of the agent whose correctness is a matter of protocol rather than of plumbing, and proves what
they promise:

- **The shared draft** (`Draft*.dfy`). One composer and one server-held draft are kept in step over a lossy event stream, while
  edits, a debounce timer, input-method composition, failed writes, overtaking replies, other writers and counter resets
  interleave. Every `await` of the source splits a method in two steps.
- **The subagent runtime**: harness actors over one shared capacity pool (`Harness*.dfy`), the turn slot of a child session
  (`TurnSlot*.dfy`), the bounded store of directed messages (`Message*.dfy`), and the topology of agents (`TaskTree*.dfy`).
- **The Cloudflare memory store** (`Store*.dfy`): each request is one atomic batch of guarded statements over tables; on top,
  cursor pagination under concurrent writers and the bounded push loop (`Transfer.dfy`).
- **Algorithms with a specification of their own**: the agent graph (`AgentGraph*.dfy`), lexical retrieval (`Retrieval*.dfy`,
  `StableSorting.dfy`, `CamelCase.dfy`, `Utf8.dfy`) and fuzzy search (`FuzzySearch.dfy`).

Each component has a model module (values and functions on them), one or more modules of theorems about whole runs, and, where
the source updates objects in place, classes whose methods are proved equal to those functions. A run is a sequence of actions
by any of the parties, in any order; the theorems quantify over all of them.

## What the proofs found

- **A counter reset can strand the composer.** If a reset arrives while the text on show is the snapshot's and a write of another
  text is in flight, the composer can settle on a text other than the newest revision it knows, with nothing pending that would
  move it on (web/src/chat/draft.ts:88-97, 162-186). In the run that shows it, the user types the in-flight text again before
  the old reply arrives, and a composition is open when the `flush` resumes that the reset left waiting, if it left one; otherwise
  that `flush` would send the text (`DraftRetries.ResumingStartsWrite`). `DraftTheorems.StrandingIsExact` proves that some run after a reset
  ends so if and only if the reset finds that situation, and `DraftTheorems.StrandedStays` that only the user or the server then
  moves the composer on.
- **A counter reset does not lose the local text.** A write of it starts at once, or a retry is due that cannot be missed: until a
  write starts or the stream confirms the text, some composition is open whose end starts it, or a `flush` waits that will
  (`DraftRetries.ResetKeepsText`, `DraftRetries.ComingRetryIsWritten`).
- **A counter reset can cost unsaved text.** If it arrives while a write is in flight whose text the new counter has never
  held, a later remote text can overwrite the composer's although the server never held it. `DraftTheorems.ForgettingIsExact`
  proves the same kind of if-and-only-if.
- **Losing an own echo is harmful if the reply is lost too.** `DraftTheorems.LostEchoCanDiverge` gives a run that ends with
  nothing dirty, the stream drained, and the composer showing a text other than the server's. What the composer knows is exactly
  what replies, events and resets told it (`DraftTheorems.KnowsWhatItWasTold`), so it knows the newest revision if and only if one
  of them named it; and it shows the server's draft once the stream is drained if every revision of which an event was lost is
  named by a reply (`DraftTheorems.AnsweredLossesDoNoHarm`).
- **A record in the last version cannot be replaced.** A snapshot may hold a record whose version is the largest there is; a
  replace that names it is answered with a conflict, although the row is there in that very version
  (`StoreTables.LastVersionCannotBeReplaced`). `StoreTables.ReplaceErrorIsHonestExactly` proves that in every other case the error
  names a guard that really failed (examples/tact-memory-cloudflare/src/store.rs:509-511).
- **The agent graph drops links next to cycles.** An agent's link to its parent is drawn if and only if its chain of parents ends
  or holds an agent of lower id (`AgentGraphLinks.ExplainedLinks`, `AgentGraphLayout.LayoutAgents`). So not only cycles are broken:
  an agent that hangs from a cycle but has the lowest id on its chain loses its link too, as `AgentGraphLinks.DroppedBesideACycle`
  shows. All links are drawn if and only if the parent links are acyclic.
- **The topology relies on its caller.** `insert` accepts any known parent, so reusing an id can close a cycle, on which the
  walks would not end (`TaskTreeTheorems.InsertCanCloseACycle`); it keeps the forest exactly if the parent is unknown, absent or
  older than the id (`TaskTreeTheorems.InsertKeepsForest`), which inserting under the reserved parent guarantees.

Text that the client sends is compared after newline normalization, as in the source. Unicode tables, `trim`, identities of
memory texts, JSON Schema validation, the tokenizer and the logarithm are parameters. Numbers of the ranking are reals. Id
counters are unbounded, except where the source checks for the end of the range.

## Model

The last part of the table, from `DraftObjects` on, lists refinements: each of these methods leaves its object in the state that
the model's function of the same operation gives, so that the theorems about runs are about the objects' methods. The promises
themselves are in the rows before.

| member | source | states |
|---|---|---|
| DraftText.NormalizeCleans | web/src/chat/draft.ts:67-69 | normalized text holds no carriage return |
| DraftText.NormalizeFixesClean | web/tools/dev-mock.ts:678-679 | the server's normalization leaves an already normalized text alone, so both sides compare the same text |
| DraftText.NormalizeKeepsLines | web/src/chat/draft.ts:67-69 | normalization keeps every line, whichever of the three line ends it had, and ends each in exactly one newline |
| DraftTheorems.RunsAreSound | web/src/chat/draft.ts:85-200 | in every run all the composer knows about the server is true of the current counter, and each newer revision travels or is lost |
| DraftTheorems.RunsConverge | web/src/chat/draft.ts:85-200 | in every run whose resets strand nothing, a clean composer shows the newest revision it knows or holds it for the end of a composition |
| DraftTheorems.KnowsNewest | web/src/chat/draft.ts:98-110 | over any run the composer knows the newest revision exactly if a reply, an event or a reset named it, which once the stream is drained is so unless an event of it was lost and no reply named it |
| DraftTheorems.KnowsWhatItWasTold | web/src/chat/draft.ts:149-168 | the newest revision the composer knows is the newest that replies, events and resets named, in every run |
| DraftTheorems.Convergence | web/src/chat/draft.ts:85-110 | in every state that a run whose resets strand nothing reaches, a quiescent composer shows exactly the newest revision that replies, events and resets named, and so the server's draft if that is the newest |
| DraftTheorems.AnsweredLossesDoNoHarm | web/src/chat/draft.ts:98-110 | in runs whose resets strand nothing, drained and quiescent, the composer shows the server's draft if each revision of which an event was lost is named by a reply |
| DraftTheorems.LostEchoCanDiverge | web/src/chat/draft.ts:98-110 | a run without resets that ends quiescent, drained and different from the server's draft, with one own echo lost and its reply too |
| DraftTheorems.StrandingIsExact | web/src/chat/draft.ts:88-97 | some run after a reset leaves the composer with nothing pending on another text than the newest it knows, exactly if the reset finds the snapshot's text on show and a write of another text in flight |
| DraftTheorems.StrandedStays | web/src/chat/draft.ts:113-141 | such a composer does not move by itself: no callback, retry, waiting `flush` or late reply is left |
| DraftTheorems.OnlySavedTextIsOverwritten | web/src/chat/draft.ts:98-109 | in runs whose resets find no in-flight text that the new counter lacks, whatever step follows, remote text overwrites only a text the server has held, and never one being composed |
| DraftTheorems.TextIsTypedOrOverwritten | web/src/chat/draft.ts:196-200 | the text on show changes only as typed or by a logged overwrite |
| DraftTheorems.ForgettingIsExact | web/src/chat/draft.ts:88-97 | a reset can cost unsaved text exactly if it finds an in-flight text the new counter has never held |
| DraftRetries.ResetKeepsText | web/src/chat/draft.ts:86-97 | a reset keeps the local text, and if the snapshot lacks it then, at the end of any run since, a write has started, the stream has confirmed the text on show, or a retry is due and on its way |
| DraftRetries.ResetRetriesCome | web/src/chat/draft.ts:88-97 | after a reset, and over any run in which no newer write fails, a due retry has an open composition or a waiting `flush` to start it |
| DraftRetries.EndingStartsRetry | web/src/chat/draft.ts:77-82 | ending a composition with a retry due starts the write, or leaves a `flush` waiting for the one in flight |
| DraftRetries.SettlingFreesRetry | web/src/chat/draft.ts:167-187 | however the write in flight settles, a due retry stays due and its `flush` may resume |
| DraftRetries.ResumingStartsWrite | web/src/chat/draft.ts:113-122 | a `flush` that resumes with a retry due or an unsaved text starts a write of the text on show, unless a composition is open |
| DraftRetries.ComingRetryIsWritten | web/src/chat/draft.ts:77-122 | so a due retry on its way is at most three steps from a write of exactly the text on show |
| DraftTheorems.WritesStartInTurn | web/src/chat/draft.ts:155-187 | each step starts at most one write, never while composing or with one in flight, and always of the text on show |
| DraftTheorems.AtMostOneInFlight | web/src/chat/draft.ts:161-174 | of the writes a run starts, all but at most one are settled |
| DraftTheorems.SentAsSeen | web/src/chat/draft.ts:125-136 | a revision from `settledRev` belongs to a server draft with exactly the text on show, so a later submit for it finds the draft changed exactly if another revision is the newest, and otherwise sends the trimmed text, unless that is empty or only for the terminal |
| DraftOutcomes.ChangesMakeRevisions | web/tools/dev-mock.ts:678-686 | writing the text the server already has makes neither a revision nor an event, any other exactly one of each |
| DraftOutcomes.CommitsMakeRevisions | web/tools/dev-mock.ts:348-353 | likewise this tab's own write, whose reply names a revision that holds the text sent |
| DraftOutcomes.ConfirmationClearsRetry | web/src/chat/draft.ts:101-109 | newer news from this tab or a snapshot with the text on show clears a due retry, and with nothing else pending the composer is clean |
| DraftOutcomes.ForeignNewsKeepsRetry | web/src/chat/draft.ts:101-103 | another writer's event leaves a due retry due, even with the same text |
| DraftOutcomes.FailureIsRetried | web/src/chat/draft.ts:167-187 | a failed write of the current counter leaves a retry due, and `retry` then writes the text on show unless a composition is open |
| DraftOutcomes.TypingArmsOnce | web/src/chat/draft.ts:67-71 | however often the user types before the debounce fires, one callback is armed, and it sends what is on show then |
| DraftOutcomes.SettledExactly | web/src/chat/draft.ts:125-136 | `settledRev` answers with a revision exactly if no counter reset came between, nothing is pending and the text on show is the newest saved one |
| DraftOutcomes.TypedTextIsSaved | web/src/chat/draft.ts:67-187 | typing an unsaved text, flushing it and having the write answered saves exactly that text, and `settledRev` names its revision |
| HarnessRuns.ActPreserves | crates/subagents/src/harness.rs:205-472 | every operation keeps each message in exactly one place, answers in the order taken and reports in queue order |
| HarnessSystem.RunsAreSound | crates/subagents/src/harness.rs:205-257 | any interleaving of any number of harnesses keeps the pool accounted for and every harness wakeable |
| HarnessSystem.ActiveCountsTokens | crates/subagents/src/capacity.rs:30-76 | in every reachable state the pool's count is the number of live turn tokens |
| HarnessSystem.ReleaseNeverUnderflows | crates/subagents/src/capacity.rs:66-72 | whoever gives a token back is still counted |
| HarnessSystem.NoLostWakeup | crates/subagents/src/harness.rs:232-257 | an idle harness with queued messages and room in the pool has an unseen revision, or a bump is about to come |
| HarnessSystem.WaitingHarnessCanStart | crates/subagents/src/harness.rs:401-439 | such a harness starts the message at the front of its queues by its own next two steps |
| HarnessSystem.UrgentStartsFirst | crates/subagents/src/harness.rs:401-439 | in every state and by every step, a queued message that is started is the front one, and a deferred one only while no urgent one of the same harness waits |
| HarnessSystem.OneAnswerOneReport | crates/subagents/src/harness.rs:288-451 | every taken delivery has exactly one answer unless in hand, and every queued message at most one report, in queue order |
| HarnessSystem.WhatIsSaidIsSo | crates/subagents/src/harness.rs:288-496 | in every reachable state, an answer says where its message is: its own turn runs, it steered the running turn, it is last in its queue, or it is refused; unless it was queued, no queue holds it. Every step that owes an answer gives the one that is due, and a message is refused only because its queue is full (8 deferred, 4 urgent), its steer broke, its own start failed or the harness refuses its mailboxes. A report says its turn runs, failed to start, or was given up |
| HarnessVerdicts.TakingDecides | crates/subagents/src/harness.rs:288-399 | a released delivery is taken, and steers, is refused for a broken steer, waits for a token, or is queued exactly if its queue has room |
| HarnessVerdicts.ReservingDecides | crates/subagents/src/harness.rs:351-372 | a delivery to an idle harness takes a token exactly if fewer turns are live than the limit allows, and is queued otherwise |
| HarnessVerdicts.ResolvingDecides | crates/subagents/src/harness.rs:357-372 | a started delivery is answered as started while its turn runs, or refused and its token given back |
| HarnessVerdicts.RejectionsHaveReasons | crates/subagents/src/harness.rs:288-472 | the four reasons to refuse a message are the only ones |
| HarnessVerdicts.EnqueueDecides | crates/subagents/src/harness.rs:127-151 | a delivery enters its mailbox exactly if the harness is there and the mailbox has room (8 deferred, 4 urgent) |
| HarnessVerdicts.RefusingGoesOn | crates/subagents/src/harness.rs:441-472 | each refusal comes one step nearer to the end, at which every queued message is reported failed and a running turn is being stopped |
| HarnessSystem.RefusalsEnd | crates/subagents/src/harness.rs:259-286 | left to itself, a harness that refuses its mailboxes empties them and stops its turn |
| HarnessSystem.InterruptStops | crates/subagents/src/harness.rs:259-286 | after an interrupt or close its own next steps refuse all that waits, stop the turn if one runs and give its token back |
| HarnessSystem.NeverAboveLimit | crates/subagents/src/capacity.rs:30-45 | while the limit stays, no more turns are ever live than it allows |
| HarnessSystem.NothingLeftUnsaid | crates/subagents/src/harness.rs:441-472 | a harness that has returned has answered every delivery it took, reported every message it queued and holds no token |
| StoreTables.PruneKeeps | examples/tact-memory-cloudflare/src/store.rs:35-36 | pruning expired probation keeps limits, identities, versions and next ids |
| StoreTables.InsertKeepsTable | examples/tact-memory-cloudflare/src/store.rs:38-38 | the guarded insert keeps a namespace within its limits, identities unique and ids below the next one |
| StoreTables.ReplaceKeepsTable | examples/tact-memory-cloudflare/src/store.rs:39-39 | so does the guarded replace, whose row changes size |
| StoreTables.SnapshotIsGood | examples/tact-memory-cloudflare/src/store.rs:689-726 | a snapshot that validates is a namespace within all limits |
| StoreTables.InsertVerdictMatches | examples/tact-memory-cloudflare/src/store.rs:430-503 | an insert returns a record exactly if its statement added that row, under a free id, and otherwise names a guard that failed |
| StoreRuns.InsertReturns | examples/tact-memory-cloudflare/src/store.rs:430-503 | what an accepted insert returns is there: version 1 of the content, dated at the insert, unused, on probation, under an id that was free |
| StoreRuns.InsertedIsOnProbation | examples/tact-memory-cloudflare/src/store.rs:35-38 | an inserted record stays until its probation ends if it is neither named nor read in time, and then the next pruning drops it, even before a read that asks for it |
| StoreTables.ReplaceVerdictMatches | examples/tact-memory-cloudflare/src/store.rs:506-597 | a replace returns a record exactly if its statement changed that row; a refused one changes nothing beyond the pruning, and at the end of the version range not even that |
| StoreRuns.ReplaceReturns | examples/tact-memory-cloudflare/src/store.rs:506-597 | what an accepted replace returns is there: the new content under the next version, its use forgotten, its creation kept |
| StoreRuns.PutRefuses | examples/tact-memory-cloudflare/src/store.rs:295-316 | a put is refused before any statement exactly for a blank or overlong content or a key of another namespace |
| StoreTables.ReplaceErrorIsHonestExactly | examples/tact-memory-cloudflare/src/store.rs:507-597 | the error of a refused replace names a guard that failed, except exactly when the version is at the end of its range and the row is there in it |
| StoreTables.LastVersionCannotBeReplaced | examples/tact-memory-cloudflare/src/store.rs:509-511 | a snapshot with such a record, and the conflict its replacement is answered with |
| StoreTables.DeleteVerdictMatches | examples/tact-memory-cloudflare/src/store.rs:318-340 | a delete reports a conflict exactly if the row is there in another version, and removes nothing else |
| StoreTables.SyncMirrors | examples/tact-memory-cloudflare/src/store.rs:342-372 | a sync makes the namespace equal to the snapshot, leaves others pruned and never lowers the next id |
| StoreRuns.NextKeeps | examples/tact-memory-cloudflare/src/store.rs:172-372 | every request keeps the whole database good |
| StoreRuns.RunsStayGood | examples/tact-memory-cloudflare/src/store.rs:172-372 | so does every run of requests from all namespaces |
| StoreRuns.IdsAreNeverReused | examples/tact-memory-cloudflare/src/store.rs:342-372 | an id that was ever present is below every id a later insert hands out, syncs included |
| StoreRuns.OneWinnerPerVersion | examples/tact-memory-cloudflare/src/store.rs:318-340 | with no sync of the namespace in between, at most one replace or delete of a key and version takes effect |
| StoreRuns.ReplacedIsOnProbationAgain | examples/tact-memory-cloudflare/src/store.rs:35-39 | a replaced record is on probation again, however much it was used: over any run that neither names it nor reads it in time, it stays until the new probation ends, and then the next pruning drops it, even before a read that asks for it |
| StoreRuns.ReadingProves | examples/tact-memory-cloudflare/src/store.rs:251-279 | a read takes every record it selects, if still there, off probation |
| StoreRuns.ReadingCounts | examples/tact-memory-cloudflare/src/store.rs:251-279 | a read counts one use of each record it selects and dates it; what it does not select stays as it is, but for the pruning |
| StoreRuns.ScanningCounts | examples/tact-memory-cloudflare/src/store.rs:33-34 | a scan counts one scan of each candidate and leaves its probation alone |
| StoreRuns.ProvenRecordsStay | examples/tact-memory-cloudflare/src/store.rs:35-36 | a record that was used is never pruned: over any run it stays as it is until a request names it or a sync sets its namespace |
| StoreObjects.ValidateSnapshot | examples/tact-memory-cloudflare/src/store.rs:689-726 | the loop accepts exactly the valid snapshots |
| StoreObjects.ReportSync | examples/tact-memory-cloudflare/src/store.rs:649-675 | inserted, deleted and unchanged are the counts of those ids, and the counts add up on both sides |
| StoreObjects.CountDeleted | examples/tact-memory-cloudflare/src/store.rs:654-664 | the deleted are the previous ids that do not come in again |
| StoreObjects.Find | examples/tact-memory-cloudflare/src/store.rs:668-669 | the one record with an id is found if there is one |
| StoreObjects.Collect | examples/tact-memory-cloudflare/src/store.rs:621-646 | the loop keeps, for each target, the first selector asked for |
| StoreObjects.EachTargetOnce | examples/tact-memory-cloudflare/src/store.rs:621-646 | no target is dropped altogether and none survives twice |
| StoreObjects.SurvivorsCameFirst | examples/tact-memory-cloudflare/src/store.rs:621-646 | every surviving selector is the first of its target, versioned keys before plain ids |
| StoreExport.PageHolds | examples/tact-memory-cloudflare/src/store.rs:374-425 | a page is sorted, past its cursor, and complete if it has no next cursor |
| StoreExport.PageIsFull | examples/tact-memory-cloudflare/src/store.rs:374-425 | a page has as many records as asked for, at least one and at most 128, unless fewer are left, by namespace and then id |
| StoreExport.PageSplits | examples/tact-memory-cloudflare/src/store.rs:110-115 | the next cursor separates what the page holds from what is left |
| StoreExport.PagesContinue | examples/tact-memory-cloudflare/src/store.rs:374-425 | a page and the sorted rest after its cursor are the sorted whole |
| StoreExport.CollectsInOrder | examples/tact-memory-cloudflare/src/store.rs:872-911 | whatever writers do between pages, following cursors collects strictly increasing keys, each exported by some view |
| StoreExport.CollectsWhatStays | examples/tact-memory-cloudflare/src/store.rs:872-911 | every selected record visible throughout is collected |
| StoreExport.ExportIsComplete | examples/tact-memory-cloudflare/src/store.rs:872-911 | and exactly once |
| StoreExport.UnchangedExport | examples/tact-memory-cloudflare/src/store.rs:872-911 | on an unchanged database the loop ends, in no more pages than needed, with the sorted visible selection |
| AgentGraphModel.BranchGrows | web/src/chat/agent-graph.ts:40-43 | drawing one more child's subtree keeps the boxes apart, the edges a forest and the children in order |
| AgentGraphModel.TreeSettles | web/src/chat/agent-graph.ts:44-46 | settling a parent over its children completes a whole, centred subtree |
| AgentGraphModel.GroveGrows | web/src/chat/agent-graph.ts:48-52 | one more tree from the first row keeps all of it |
| AgentGraphModel.GroundedIsPlaced | web/src/chat/agent-graph.ts:48-48 | once the roots are drawn, every agent whose chain of parents ends is placed |
| AgentGraphLinks.ExplainedLinks | web/src/chat/agent-graph.ts:48-52 | a link is drawn exactly if the agent's chain of parents ends or holds an agent of lower id |
| AgentGraphLinks.MissingExplained | web/src/chat/agent-graph.ts:49-51 | an agent that no earlier tree reached has a chain of parents that neither ends nor holds a lower id |
| AgentGraphLinks.DroppedBesideACycle | web/src/chat/agent-graph.ts:49-51 | a roster in which an agent on no cycle loses its link |
| AgentGraphLayout.SortSorts | web/src/chat/agent-graph.ts:28-28 | the roster in id order |
| AgentGraphLayout.BuildFamily | web/src/chat/agent-graph.ts:28-32 | children by parent and the roots, from the roster's links |
| AgentGraphLayout.FamilyMatches | web/src/chat/agent-graph.ts:29-31 | an agent is a root exactly if no other agent of the roster is its parent |
| AgentGraphLayout.Layout.Below | web/src/chat/agent-graph.ts:38-38 | the children not placed yet, all of them, in order |
| AgentGraphLayout.Layout.PlaceChildren | web/src/chat/agent-graph.ts:40-43 | each child is linked and drawn with its subtree, and its column collected |
| AgentGraphLayout.Layout.Settle | web/src/chat/agent-graph.ts:44-46 | the agent gets the column midway over its children, or the next free one |
| AgentGraphLayout.Layout.Place | web/src/chat/agent-graph.ts:37-47 | draws a whole subtree once and moves nothing drawn before; it ends on any parent links, cycles included |
| AgentGraphLayout.DrawRoster | web/src/chat/agent-graph.ts:48-52 | every agent is placed, and a link is drawn exactly if the agent's chain of parents ends or holds an agent of lower id |
| AgentGraphLayout.LinksDrawnExactlyIfAcyclic | web/src/chat/agent-graph.ts:48-52 | all links are drawn if and only if the parent links are acyclic |
| AgentGraphLayout.Measure | web/src/chat/agent-graph.ts:62-68 | the reported size is the smallest that holds every box with its padding |
| AgentGraphLayout.LayoutAgents | web/src/chat/agent-graph.ts:24-70 | for any roster with unique ids: each agent once, boxes 16 apart in a row and 44 between rows, all inside the reported size and no larger than that takes, tops in the first row, edges a forest of links one row down and exactly those whose chain of parents ends or holds a lower id, parents centred over children in id order, one column for each agent without children |
| TurnSlotTheorems.RunsAreSound | crates/subagents/src/turn.rs:39-121 | over any history tokens strictly increase, only valid values are accepted, each token and each turn at most once, and turns close with what they accepted |
| TurnSlotTheorems.DeadIsNeverAccepted | crates/subagents/src/turn.rs:52-107 | a token once used, replaced or abandoned is never accepted again |
| TurnSlotTheorems.AcceptedAtMostOnce | crates/subagents/src/turn.rs:52-79 | no history accepts a token twice |
| TurnSlotTheorems.HistoriesAreSound | crates/subagents/src/turn.rs:22-121 | all of this holds of every history of a slot from its creation on |
| TurnSlotTheorems.StartIsDue | crates/subagents/src/turn.rs:40-50 | while the counter lasts a turn starts exactly if none is open, and then a valid submission under its token is accepted |
| TurnSlotTheorems.SteerIsDue | crates/subagents/src/turn.rs:82-107 | a steer begins exactly if a turn is open, not being steered and without a result, and whichever way it ends a token works |
| TurnSlotTheorems.SubmissionIsDecided | crates/subagents/src/turn.rs:52-79 | a submission is accepted exactly if none of the five refusals is due, which name at most the first four violations and change nothing |
| TurnSlotTheorems.FinishIsDue | crates/subagents/src/turn.rs:110-116 | finishing closes exactly an open turn, with the result of the log |
| TurnSlotTheorems.CommittedSteerRetires | crates/subagents/src/turn.rs:96-107 | after a committed steer its token works and no earlier one is ever accepted |
| TurnSlotTheorems.FailedSteerRestores | crates/subagents/src/turn.rs:96-107 | a failed steer's token is accepted neither before nor after, and the previous one works again |
| TurnSlotTheorems.LateSteerIsIgnored | crates/subagents/src/turn.rs:95-107 | a steer resolved after it was resolved or its turn ended never changes anything |
| TurnSlotTheorems.ResultIsAccepted | crates/subagents/src/turn.rs:110-116 | a turn's result is a schema-valid value accepted since the turn opened |
| TurnSlotTheorems.FinishReturnsWhatWasAccepted | crates/subagents/src/turn.rs:110-116 | finishing answers exactly if a turn was open, with exactly the value accepted in it |
| MessageRuns.PreparedAnswers | crates/subagents/src/message.rs:110-142 | a request is accepted exactly if its body and reply metadata are right and a reply goes back from the recipient to the sender, and then joins that thread |
| MessageRuns.RefusalsNameTheFault | crates/subagents/src/message.rs:110-142 | a refusal names the first fault of the request: its body, its reply metadata, its target, or its parties |
| MessageRuns.CommitRetains | crates/subagents/src/message.rs:53-72 | a committed message is retained as prepared, last in its thread and in the queue, with its delivery pending |
| MessageRuns.SettlingSettles | crates/subagents/src/message.rs:74-85 | ending a delivery takes its message, and no other, off the pending ones; up to 256 messages nothing else changes |
| MessageRuns.PurgeIsGood | crates/subagents/src/message.rs:161-172 | removing any messages keeps index, threads and queue in agreement |
| MessageRuns.PurgeTwice | crates/subagents/src/message.rs:144-172 | removals add up, in whatever steps they are made |
| MessageRuns.TrimmingIsBounded | crates/subagents/src/message.rs:144-159 | trimming leaves at most 256 messages or none settled, and drops the oldest settled ones only |
| MessageRuns.CommitIsGood | crates/subagents/src/message.rs:53-72 | committing keeps every thread between the same two parties |
| MessageRuns.CommitThenRollback | crates/subagents/src/message.rs:53-108 | a rollback undoes the commit completely |
| MessageRuns.RollbackOfUnknown | crates/subagents/src/message.rs:104-108 | rolling back what is not retained changes nothing |
| MessageRuns.RunsAreSound | crates/subagents/src/message.rs:25-172 | in every run, with any number of messages prepared and not yet committed, the indexes agree and at most 256 messages are settled |
| MessageRuns.StoresAreSound | crates/subagents/src/message.rs:15-172 | so they do in every run of a store from its opening on |
| MessageRuns.PendingIsNeverEvicted | crates/subagents/src/message.rs:53-85 | a message stays, unchanged, until its own delivery ends |
| TaskTreeObjects.TaskTree.AgentForSession | crates/subagents/src/task_tree.rs:48-52 | an agent of the session, if there is one |
| TaskTreeObjects.TaskTree.IsDescendant | crates/subagents/src/task_tree.rs:97-106 | the climbing loop ends and decides descent |
| TaskTreeObjects.TaskTree.Authorize | crates/subagents/src/task_tree.rs:54-66 | a session may manage exactly the known agents below its own, or any if it has none; a refusal names the failing check |
| TaskTreeObjects.TaskTree.SortedUnder | crates/subagents/src/task_tree.rs:108-115 | the children by increasing id, however the map yields them |
| TaskTreeObjects.TaskTree.AppendSubtreePostorder | crates/subagents/src/task_tree.rs:108-121 | appends the postorder of a subtree; the recursion ends |
| TaskTreeObjects.TaskTree.SubtreePostorder | crates/subagents/src/task_tree.rs:72-80 | lists exactly the agent and those below it, each once, descendants first |
| TaskTreeObjects.TaskTree.AllInPostorder | crates/subagents/src/task_tree.rs:82-95 | lists every agent once, descendants first |
| TaskTreeTheorems.PostorderLists | crates/subagents/src/task_tree.rs:108-121 | a subtree's postorder lists its members once, after everyone below them |
| TaskTreeTheorems.ClimbingIsDescending | crates/subagents/src/task_tree.rs:97-121 | climbing from one agent reaches another exactly if descending from that one lists the first below it |
| TaskTreeTheorems.AllPostorderIsComplete | crates/subagents/src/task_tree.rs:82-95 | the whole postorder is a permutation of the tree |
| TaskTreeTheorems.RunsStayForests | crates/subagents/src/task_tree.rs:18-42 | however reservations and insertions interleave, parents are present and have smaller ids |
| TaskTreeTheorems.InsertKeepsForest | crates/subagents/src/task_tree.rs:28-42 | an insertion keeps that exactly if its parent is absent, unknown or older |
| TaskTreeTheorems.InsertCanCloseACycle | crates/subagents/src/task_tree.rs:28-42 | two insertions of one id that close a cycle |
| StableSorting.SortIsStableSort | crates/memory/src/retrieval.rs:57-73 | the sort the ranking uses rearranges, orders and keeps ties in order |
| StableSorting.SortTwiceIsSortByBoth | crates/memory/src/retrieval.rs:57-73 | sorting by one key and then, stably, by another is one lexicographic sort |
| RetrievalObjects.NewDocument | crates/memory/src/retrieval.rs:86-97 | the loop counts how often each token occurs |
| RetrievalObjects.WeightOwn | crates/memory/src/retrieval.rs:65-70 | own candidates are scaled in place, the others left alone |
| RetrievalObjects.Rank | crates/memory/src/retrieval.rs:11-77 | the best candidates in the order the remote store's query states, at most `limit` |
| RetrievalTheorems.TwoSortsAreOne | examples/tact-memory-cloudflare/src/store.rs:43-58 | the two sorts of the ranking equal one sort by weighted score, raw score, namespace and id |
| RetrievalTheorems.OneSortIsEnough | crates/memory/src/retrieval.rs:57-63 | without an own namespace the first sort is that order already |
| RetrievalTheorems.CandidatesShareTokens | crates/memory/src/retrieval.rs:37-55 | a memory is a candidate exactly if it shares a token with the query |
| RetrievalTheorems.ScoresOnSharedTerms | crates/memory/src/retrieval.rs:120-141 | a document's score is positive exactly if it holds a term of the query, and zero otherwise |
| RetrievalTheorems.MoreOftenScoresHigher | crates/memory/src/retrieval.rs:120-141 | of two documents of one length the one holding a term more often scores higher on it, up to a ceiling |
| RetrievalTheorems.ShorterScoresHigher | crates/memory/src/retrieval.rs:120-141 | of two documents holding a term equally often the shorter scores higher on it |
| RetrievalWeights.RarerCountsMore | crates/memory/src/retrieval.rs:99-118 | of two terms that a document holds equally often, the one that fewer documents hold adds more to its score |
| RetrievalWeights.EvidenceIsBm25 | crates/memory/src/retrieval.rs:120-141 | what a term adds is Okapi BM25 with k1 = 1.2 and b = 0.75, over the number of documents that hold it |
| RetrievalWeights.ScoresAdd | crates/memory/src/retrieval.rs:120-141 | a score is the sum over the query's terms |
| RetrievalWeights.OwnCountsMore | crates/memory/src/retrieval.rs:65-70 | an own memory's score is a quarter higher, no other's changes, and nothing else of a candidate does |
| RetrievalWeights.RankingOrders | crates/memory/src/retrieval.rs:57-73 | candidates are ranked by score, then by score before the weight, then by namespace, none first, and id |
| RetrievalTheorems.TruncationKeepsTheBest | crates/memory/src/retrieval.rs:75-75 | nothing left out ranks before anything returned |
| RetrievalTheorems.RankedIsWeighted | crates/memory/src/retrieval.rs:65-70 | foreign scores are unchanged and own ones scaled once |
| RetrievalTheorems.OwnNeverMovesDown | crates/memory/src/retrieval.rs:65-73 | no own memory ranks lower than by raw score alone |
| CamelCase.SplitCamelCase | crates/memory/src/retrieval.rs:181-195 | the parts make up the identifier and are cut exactly where a capital follows a small letter or digit |
| Utf8.BoundariesAreExact | crates/memory/src/retrieval.rs:202-206 | a byte boundary is exactly the end of a prefix of whole characters (section 3 of RFC 3629) |
| Utf8.EncodingReadsBack | crates/memory/src/retrieval.rs:202-206 | a character is encoded in as few bytes as it takes, marked by its first byte, and can be read back (section 3 of RFC 3629) |
| Utf8.Preview | crates/memory/src/retrieval.rs:197-207 | the loop cuts to the longest prefix of whole characters within 64 bytes |
| FuzzySearch.ScoreByScanning | bin/tact/src/search.rs:16-47 | the scanning loop computes the score of the greedy match |
| FuzzySearch.MatchesSubsequences | bin/tact/src/search.rs:13-16 | a text matches exactly if the query is a subsequence of it, case ignored |
| FuzzySearch.GreedyIsEarliest | bin/tact/src/search.rs:28-46 | every other way to match has each character no earlier, so the greedy match ends first |
| FuzzySearch.ScoreIsBounded | bin/tact/src/search.rs:33-44 | query length and end of the match bound the score from both sides |
| FuzzySearch.ScoreCounts | bin/tact/src/search.rs:28-44 | the score is 10 for each character, 15 for each that follows the one before and 8 for each that begins a segment, less the place where the match ends |
| FuzzySearch.ContiguousScoresHigher | bin/tact/src/search.rs:10-15 | a more contiguous match that begins no fewer segments and ends no later scores higher |
| FuzzySearch.Rank | bin/tact/src/search.rs:51-60 | every matching item is listed once, by score, ties in the items' order |
| Transfer.Upload | crates/memory/src/transfer.rs:79-82 | an accepted upload leaves the remote namespace a copy of the corpus, whatever others do elsewhere; a refused one changes nothing |
| Transfer.Attempt | crates/memory/src/transfer.rs:78-93 | one more upload and read: pushed if the corpus stood still, again if it changed |
| Transfer.Push | crates/memory/src/transfer.rs:72-97 | success means the remote held exactly the corpus as last read; at most three uploads, each again only after a read that found a change, and giving up means every read did |
| DraftObjects.DraftSync.constructor | web/src/chat/draft.ts:50-56 | a composer opens on the server's draft with nothing pending |
| DraftObjects.DraftSync.Edit | web/src/chat/draft.ts:67-71 | new state after typing: normalized text and one armed timer |
| DraftObjects.DraftSync.CompositionStart | web/src/chat/draft.ts:73-75 | new state when a composition opens |
| DraftObjects.DraftSync.CompositionEnd | web/src/chat/draft.ts:77-82 | new state when a composition closes: edit, flush if a retry is due, then release what was held |
| DraftObjects.DraftSync.Receive | web/src/chat/draft.ts:85-110 | new state after a draft event, in all its branches: reset, stale, already saved, held, applied |
| DraftObjects.DraftSync.Rebase | web/src/chat/draft.ts:88-97 | new state after a counter reset |
| DraftObjects.DraftSync.Flush | web/src/chat/draft.ts:113-122 | new state when `flush` is called, up to its first suspension |
| DraftObjects.DraftSync.ResumeFlush | web/src/chat/draft.ts:113-122 | new state when a suspended `flush` resumes |
| DraftObjects.DraftSync.SettledRev | web/src/chat/draft.ts:125-136 | outcome of one turn of the loop: again, refused, or the revision of the text on show |
| DraftObjects.DraftSync.Retry | web/src/chat/draft.ts:139-141 | new state after a retry |
| DraftObjects.DraftSync.LatestSaved | web/src/chat/draft.ts:149-153 | the newest revision the composer knows |
| DraftObjects.DraftSync.TimerFires | web/src/chat/draft.ts:70-70 | new state when a debounce callback runs, even one left behind by a retry |
| DraftObjects.DraftSync.Send | web/src/chat/draft.ts:155-167 | new state up to the write: nothing while composing or in flight, else one write of the text on show |
| DraftObjects.DraftSync.WriteSettled | web/src/chat/draft.ts:167-187 | new state when the write resolves or fails, across counter resets |
| DraftObjects.DraftSync.ReleaseHeld | web/src/chat/draft.ts:189-194 | new state after releasing a held draft, if it is still the newest |
| DraftObjects.DraftSync.Apply | web/src/chat/draft.ts:196-200 | remote text replaces the composer's, which is logged |
| DraftObjects.Session.SetDraft | web/tools/dev-mock.ts:678-686 | the server's revision grows by one on a real change, not on a no-op, and the change is published once with its origin |
| DraftObjects.Session.Submit | web/tools/dev-mock.ts:354-372 | a submit that names the current revision sends the trimmed draft and empties it, unless that is empty or only for the terminal; any other, and one for another revision, leaves the draft as it was |
| HarnessObjects.Capacity.constructor | crates/subagents/src/capacity.rs:22-28 | an idle pool |
| HarnessObjects.Capacity.Reserve | crates/subagents/src/capacity.rs:30-45 | a token is handed out exactly if there is room |
| HarnessObjects.Capacity.SetLimit | crates/subagents/src/capacity.rs:47-53 | the limit changes and the revision is bumped |
| HarnessObjects.Capacity.Release | crates/subagents/src/capacity.rs:66-76 | dropping a token gives it back and bumps the revision |
| HarnessObjects.Actor.EnqueueDelivery | crates/subagents/src/harness.rs:127-151 | a delivery enters its bounded mailbox or is refused when that is full or closed |
| HarnessObjects.Actor.AcceptDelivery | crates/subagents/src/harness.rs:288-350 | fate of a taken delivery: rejected, steered, queued, or on to a reservation |
| HarnessObjects.Actor.ReserveForDelivery | crates/subagents/src/harness.rs:351-372 | an idle actor starts the delivery if the pool has room, and queues it otherwise |
| HarnessObjects.Actor.QueueDelivery | crates/subagents/src/harness.rs:374-399 | a delivery is answered as queued and joins the queue of its priority, unless that is full |
| HarnessObjects.Actor.StartResolves | crates/subagents/src/harness.rs:357-439 | a started turn becomes active; a failed start gives its token back and reports the message |
| HarnessObjects.Actor.StartPending | crates/subagents/src/harness.rs:401-439 | an idle actor with room begins the front urgent message, else the front deferred one |
| HarnessObjects.Actor.FailPending | crates/subagents/src/harness.rs:441-451 | every queued message is reported failed, urgent ones first |
| HarnessObjects.Actor.RefuseWaiting | crates/subagents/src/harness.rs:453-460 | the deliveries still in the mailboxes are answered with the reason |
| HarnessObjects.Actor.Refuse | crates/subagents/src/harness.rs:462-472 | a refused delivery is answered once it is released, and dropped otherwise |
| HarnessObjects.Actor.Stop | crates/subagents/src/harness.rs:259-286 | an interrupt or close begins to stop the active turn |
| HarnessObjects.Actor.StopResolves | crates/subagents/src/harness.rs:563-584 | the stopped turn's token is given back |
| HarnessObjects.Actor.TurnFinished | crates/subagents/src/harness.rs:586-592 | a finished turn gives its token back |
| StoreObjects.CloudflareMemoryStore.ContentBytes | examples/tact-memory-cloudflare/src/store.rs:38-39 | the sum the capacity guards are checked against |
| StoreObjects.CloudflareMemoryStore.Insert | examples/tact-memory-cloudflare/src/store.rs:430-503 | database and verdict after an insert batch |
| StoreObjects.CloudflareMemoryStore.Replace | examples/tact-memory-cloudflare/src/store.rs:506-597 | database and verdict after a replace batch |
| StoreObjects.CloudflareMemoryStore.Put | examples/tact-memory-cloudflare/src/store.rs:295-316 | database and verdict of a put, refusals before any statement included |
| StoreObjects.CloudflareMemoryStore.Delete | examples/tact-memory-cloudflare/src/store.rs:318-340 | database and verdict after a delete |
| StoreObjects.CloudflareMemoryStore.Sync | examples/tact-memory-cloudflare/src/store.rs:342-372 | a valid snapshot replaces the namespace and is reported against the rows it replaced; an invalid one changes nothing |
| TurnSlotObjects.TurnSlot.constructor | crates/subagents/src/turn.rs:16-33 | an idle slot that has issued nothing |
| TurnSlotObjects.TurnSlot.Issue | crates/subagents/src/turn.rs:118-121 | the next token, unless the counter is at its end |
| TurnSlotObjects.TurnSlot.Start | crates/subagents/src/turn.rs:40-50 | new state and token of a turn, unless one runs |
| TurnSlotObjects.TurnSlot.Submit | crates/subagents/src/turn.rs:52-79 | new state and refusal of a submission, in the order the source checks |
| TurnSlotObjects.TurnSlot.BeginSteer | crates/subagents/src/turn.rs:82-93 | a running turn without result gets a replacement token |
| TurnSlotObjects.TurnSlot.FinishSteer | crates/subagents/src/turn.rs:96-107 | the steer it names is resolved, any other left alone |
| TurnSlotObjects.TurnSlot.Finish | crates/subagents/src/turn.rs:110-116 | the turn ends with what it accepted |
| MessageObjects.MessageThreads.constructor | crates/subagents/src/message.rs:15-22 | an empty store |
| MessageObjects.MessageThreads.FindReplyThread | crates/subagents/src/message.rs:110-142 | the reply's thread or the refusal; neither expectation of the source can fail |
| MessageObjects.MessageThreads.Prepare | crates/subagents/src/message.rs:25-51 | new counter and message or refusal; the id is spent even if the reply is refused |
| MessageObjects.MessageThreads.Commit | crates/subagents/src/message.rs:53-72 | the message joins its thread, the index, the queue and the pending set |
| MessageObjects.MessageThreads.RemoveMessage | crates/subagents/src/message.rs:161-172 | a message leaves the index and its thread, and the last one takes the thread along |
| MessageObjects.MessageThreads.FirstSettled | crates/subagents/src/message.rs:146-152 | the oldest message that is not pending |
| MessageObjects.MessageThreads.TrimHistory | crates/subagents/src/message.rs:144-159 | the loop removes the oldest settled messages until 256 remain or none is settled |
| MessageObjects.MessageThreads.MarkTerminal | crates/subagents/src/message.rs:82-85 | the message settles and the history is trimmed |
| MessageObjects.MessageThreads.MarkAdmitted | crates/subagents/src/message.rs:74-80 | likewise, unless the message was only queued |
| MessageObjects.MessageThreads.Rollback | crates/subagents/src/message.rs:104-108 | the message is gone as if never committed |
| TaskTreeObjects.TaskTree.Reserve | crates/subagents/src/task_tree.rs:18-26 | the next id, or the unknown parent |
| TaskTreeObjects.TaskTree.Insert | crates/subagents/src/task_tree.rs:28-42 | the agent joins under its parent, or the unknown parent |

## Left out

- The composer's `dispose` and `onError`, and a counter that restarts without its snapshot being noticed (the snapshot's revision is not smaller): the draft model has one counter between detected resets. The server's restart and the composer's noticing it are one step, so a reply of the new counter that overtakes its snapshot is not modelled.
- The registry around the harnesses, delegation changes and their rollback, and a registry that is gone: published events are a log kept by each harness. Timing of channels, tasks and the watch is reduced to steps, a version counter and the last version seen.
- DraftTheorems.Convergence: is about runs whose resets do not find the situation of `DraftTheorems.StrandingIsExact`, after which the composer may, but need not, settle on an older text.
- HarnessSystem.OneAnswerOneReport: message ids are given by the sender and distinct, which `MessageRuns.RunsAreSound` provides.
- Transport errors and retries of the database, sessions and bookmarks, SQL text, full-text search and its scores, `list` and the order of a remote scan's rows: a request is its statements' meaning.
- Snapshot ids at the end of the 64-bit range, and id counters that saturate there.
- StoreExport.ExportIsComplete: one page request is one view of the database; a cursor sent back changed by a client is not modelled.
- The tokenizer, of which only the splitting of identifiers is modelled, and the version in a candidate's key, which no order looks at.
- RetrievalTheorems.OwnNeverMovesDown: asks for distinct keys, which the stores guarantee, since positions of identical records could not be told apart.
- RetrievalObjects.Rank: scores are reals, so rounding, and with it the order in which evidence is added up, plays no part.
- FuzzySearch.Rank: the walk over the workspace that provides the items.
- Transfer.Push: given that nobody else writes the namespace and no probation of it ends during the call, as the source's callers ensure; the session call is one answer, and `pull` is left out.
- TaskTreeTheorems.RunsStayForests: agents are inserted under the parent they were reserved with, as the runtime does; `ids` is left out.
- MessageObjects.MessageThreads.Commit: takes a message that was prepared by the same store, as the runtime does; the lookups `message` and `thread_for_message` are the lookup of a reply's target.
- DOM and terminal code, the dev server beyond its draft commands, benches, evaluation scripts and container images.
