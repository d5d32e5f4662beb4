# Verified models of the OpenSumi core

This project models, in Dafny, the algorithms and state machines of OpenSumi whose behaviour is
hard to see from their code, and proves what they are for. Each file is one component.

| file | component | main results |
|---|---|---|
| LineText.dfy | the editable line array | editing lines is splicing one flat string; exactly when an edit can be undone, when raw splicing would differ, when places outside the text act like the nearest inside, and when ranges given backwards do |
| DocumentChanges.dfy | saving by changes | edits sorted from the end of the text are one simultaneous replacement, two applied from its start on are not; runs of changes act on one flat string |
| ReferenceManager.dfy | shared, lazily created instances | safe in every interleaving exactly under two conditions on listeners and on calls around rejections; every call is answered or fails |
| Batches.dfy | lint batches | the greedy cut is the shortest one |
| ReadyFramer.dfy | waiting for the gateway's ready line | chunk boundaries are invisible; one bounded buffer, at most one settlement |
| GatewayRuntime.dfy | gateway life cycle, startup and fallback, held connections | the status is disciplined in every run exactly when no stop outruns a launch and no launch follows a stop; exactly when the gateway comes up, and fallback never hides an explicit one, whatever happens around the launch |
| Percentile.dfy | nearest-rank percentiles and the acceptance gates | what the percentile is, what it is monotone in, when the gates pass |
| LeastSquares.dfy | the memory growth slope | the one slope with the least squared residuals, and exactly when there is none |
| TaskIdentifier.dfy | task identity keys | prints identify exactly when names have no commas and values are strings, keys of a definition exactly when no `_key` overrides them |
| ProcessTree.dfy, ProcessRoles.dfy | the process tree of a server and its roles | exact reachability and nearest-ancestor roles on cyclic parent links, conserved totals |
| MultiKeyMap.dfy | a map of maps of fixed depth | agrees with one flat map; exactly when short keys do what their documentation says; iteration in order of first insertion |
| ParallelRun.dfy | bounded parallel downloads | every order of completion ends as promised, every slot is used |
| Comparers.dfy | path and search result orders | total preorders, and what comes before what |
| Sequences.dfy | shared notions | optional values, lists without duplicates |
| CommandRegistry.dfy | command handlers and recent commands | handler lists hold the undisposed handlers exactly when disposals are orderly; delegation ends exactly when it meets no command twice; latest uses first, one per id |

Objects that the source updates in place are classes, and their methods are proved to do exactly
what a function of the old state says. The properties over whole runs are lemmas about those
functions. Asynchronous code is a state machine whose steps are the synchronous stretches between
awaits; user code may run between any two of them.

What lies outside is a parameter: file sizes (`Sizes`), the parser of the ready line, process
classification, the collator, locale comparison and lower-casing (`Locale`), whether a handler is
enabled, and whatever happens around a launch (`Environment`). The comparers assume only that
collator and locale comparison are themselves total preorders (`Lawful`).

## Where code and documentation differ

- `MultiKeyMap.delete` is documented for keys shorter than the key length, but removes at most one
  entry: for a key one element short it looks up the last element of that key once more, and for a
  shorter key it removes nothing. `has` finds a short key whose entries are all gone, and does not
  find the empty key however many entries there are (collections.ts lines 66 to 102).
- A handler registered twice for one command is not removed from where it was registered, and
  disposing a registration twice can remove a later one (command.ts lines 404 to 418).
- A command whose delegations lead into a cycle is looked up forever (command.ts lines 481 to 485).
- `sortedStringify` prints different identifiers alike when a name has a comma or a value is no
  string (task-definition.ts lines 27 to 40).
- An edit that starts beyond the end of its line puts the inserted text behind what it joins to that
  line. An edit that ends before it starts repeats text when both are on one line, and loses text when
  the start is on a later line (line-text.ts lines 22 to 92).
- A task definition that declares a property named `_key` lets it override the computed key
  (task-definition.ts lines 41 to 46 and 105 to 141).
- A ready line on which the parser throws, such as `null`, is neither skipped nor reported: the
  exception leaves the data listener (ws-gateway.ts lines 84 to 103 and 280).
- The guard of `ReferenceManager` does not cover listeners of the creation event that call
  `getReference`, nor calls made after a rejection while waiters of it have still to wake: each of
  those clears the guard of the next creation (reference.ts lines 34 to 66).
- A stop of the gateway that gives up on its child while the launch still waits turns from stopped to
  failed when the launch ends (ws-gateway.ts lines 469 to 506).
- `parallelRunPromise` never settles for an empty list (download.js line 38).

## Model

| member | source | states |
|---|---|---|
| LineText.BasicTextLines.constructor | packages/core-common/src/line-text.ts:8 | an instance has the given lines and marker; a line may hold a break other than the marker |
| LineText.BasicTextLines.GetContent | packages/core-common/src/line-text.ts:10-12 | the content is the lines joined with the current marker; splitting it gives the lines back (the array without lines as one empty line) if and only if no line holds a break |
| LineText.BasicTextLines.AcceptEol | packages/core-common/src/line-text.ts:18-20 | changing the marker leaves the lines alone |
| LineText.BasicTextLines.AcceptChange | packages/core-common/src/line-text.ts:22-28 | for any range with line numbers from one on, whatever the lines hold, one edit is the deletion and then the insertion at its start; a range in the text is replaced in one step, so that the flat content is the old one with the offset range replaced by the inserted text, breaks normalised; an edit never puts a break into a line |
| LineText.BasicTextLines.AcceptDeleteRange | packages/core-common/src/line-text.ts:34-58 | within a line, across lines, reversed or beyond the text: what is before the start (its column cut to the line) is joined to what is behind the end, missing lines are filled in; nothing happens only when start and end are the same position |
| LineText.BasicTextLines.AcceptInsertText | packages/core-common/src/line-text.ts:60-93 | at any position, its column cut to the line and missing lines filled in, the split text is glued between the two halves of the line; inserting nothing changes nothing |
| LineText.BasicTextLines.InsertWithinLine | packages/core-common/src/line-text.ts:67-75 | text without a break changes the one line only |
| LineText.DeletedIsStored | packages/core-common/src/line-text.ts:34-58 | deleting a range in the text is the edit with the empty text |
| LineText.InsertedIsStored | packages/core-common/src/line-text.ts:60-93 | inserting at a position in the text is the edit of the empty range there |
| LineText.ChangedInText | packages/core-common/src/line-text.ts:22-28 | for a range in the text the two halves of an edit are the one-step replacement, and splice the flat content, whatever the lines hold |
| LineText.ClampsExactly | packages/core-common/src/line-text.ts:34-75 | columns outside their lines act for every text like the nearest inside if and only if the start is not beyond its line or nothing follows the range on its last line |
| LineText.SplicesExactlyFromAbove | packages/core-common/src/line-text.ts:34-92 | between any two places in the text an edit replaces what the offsets enclose, in their given order, if and only if the start is not on a later line than the end; otherwise the rest of the start's line and the lines between are lost, and the content is stated for that case too |
| LineText.BasicTextLines.InsertSeveralLines | packages/core-common/src/line-text.ts:77-91 | the branch for text with breaks leaves the glue of head, inserted lines and tail |
| LineText.BasicTextLines.InsertFurtherLines | packages/core-common/src/line-text.ts:86-91 | the loop of single splices inserts the remaining lines in order at one place |
| LineText.PlainTextStaysOnLine | packages/core-common/src/line-text.ts:60-93 | inserting a text without CR and LF at a place in the text changes that one line and keeps the line count; a tab is no break |
| LineText.BreakTearsLine | packages/core-common/src/line-text.ts:60-93 | inserting CR, LF or CR LF there tears the line in two at the place |
| LineText.InsertedBelowText | packages/core-common/src/line-text.ts:60-93 | below the text an insertion fills the lines in between with nothing and starts a line of its own |
| LineText.DeletedBelowText | packages/core-common/src/line-text.ts:34-58 | a deletion that ends below the text takes all behind its start; one wholly below the text only fills lines in; one from below the text back into it repeats there what is behind its end |
| TextAlgebra.SplitConcat | packages/core-common/src/line-text.ts:65 | splitting a concatenation is gluing the two splits, unless a carriage return and a line feed meet at the seam |
| TextAlgebra.SplitFused | packages/core-common/src/line-text.ts:65 | where they do meet, the split has one line fewer than the glue |
| TextAlgebra.SplitJoin | packages/core-common/src/line-text.ts:10-12 | a non-empty array of break-free lines survives joining and splitting |
| TextAlgebra.JoinSplit | packages/core-common/src/line-text.ts:10-12 | joining the split of a text rewrites each of its breaks as the marker and changes nothing else |
| TextAlgebra.SplitCounts | packages/core-common/src/line-text.ts:65 | a text has one line more than it has breaks, CR LF counting once |
| TextAlgebra.OneLineExactly | packages/core-common/src/line-text.ts:65 | a text stays one line if and only if it holds neither a carriage return nor a line feed; then it is that line |
| TextAlgebra.EachBreakIsOne | packages/core-common/src/line-text.ts:65 | CR, LF and CR LF are one break each, LF CR is two |
| LineEdits.FlatPieces | packages/core-common/src/line-text.ts:34-58 | the offsets of a range cut the flat text into exactly the text before, in and after it |
| LineEdits.EditSplicesFlatText | packages/core-common/src/line-text.ts:22-92 | main refinement: joined with any marker, the edited lines are the flat text with the range replaced by the inserted text, its breaks normalised |
| LineEdits.EditIsSplitOfSplice | packages/core-common/src/line-text.ts:22-92 | conversely the edited lines are the split of the spliced flat text, if and only if none of them holds a break |
| LineEdits.RawSpliceAgreesExactly | packages/core-common/src/line-text.ts:22-92 | splicing the text without normalising agrees with the lines if and only if no carriage return at its end meets a line feed after the range |
| LineEdits.EditCountsBreaks | packages/core-common/src/line-text.ts:22-92 | the line count changes by breaks inserted minus breaks deleted |
| LineEdits.EditedBreakFree | packages/core-common/src/line-text.ts:22-92 | an edit never puts a break into a line |
| LineEdits.StoredSplices | packages/core-common/src/line-text.ts:22-92 | the same refinement and count for the stored array, the array without lines and lines with breaks included, and break-free lines stay so |
| LineEdits.InsertedRangeCuts | packages/core-common/src/line-text.ts:60-92 | the range of the inserted text is valid afterwards and cuts the new text where the old range cut the old one |
| LineEdits.UndoRestoresLines | packages/core-common/src/line-text.ts:18-92 | replacing that range by the deleted text, joined with either marker, restores the lines if and only if no deleted line holds a break itself |
| LineEdits.UndoRestoresArrayExactly | packages/core-common/src/line-text.ts:18-92 | the stored array itself comes back if and only if moreover the edit did not put text into an array without lines |
| LineEdits.StoredTwice | packages/core-common/src/line-text.ts:22-28 | deleting and then inserting at the start of the range is the one edit, for every stored array |
| DocumentChanges.ApplyChanges | packages/file-scheme/src/node/file-scheme-doc.service.ts:155-168 | for any lines that, joined by the marker, are the content and none of which holds the marker anywhere, the loops over changes and their edits do to them what the changes one after the other do |
| DocumentChanges.ApplyEdits | packages/file-scheme/src/node/file-scheme-doc.service.ts:159-162 | the loop over the edits of one change applies them in their order |
| DocumentChanges.DescendingEditsAreSimultaneous | packages/file-scheme/src/node/file-scheme-doc.service.ts:149-162 | main result: edits given in the text before the change, disjoint and sorted from its end, applied one after the other, are the replacement of all their stretches of the flat text at once |
| DocumentChanges.OrderMatters | packages/file-scheme/src/node/file-scheme-doc.service.ts:161 | any two disjoint ranges applied from the start on give, for some texts, something else |
| DocumentChanges.OneChangeReplaces | packages/file-scheme/src/node/file-scheme-doc.service.ts:155-168 | so one such change turns a content, whatever breaks it holds, into the simultaneous replacement in its lines, and no change leaves it |
| DocumentChanges.ChangesAreFlat | packages/file-scheme/src/node/file-scheme-doc.service.ts:155-168 | over any run of sorted edit changes and marker changes the line array does what replacing stretches of one string and rewriting its breaks does, for lines without breaks |
| DocumentChanges.SplitAtGivesLines | packages/file-scheme/src/node/file-scheme-doc.service.ts:156 | joining the split content with the marker gives it back, and no line of it holds the marker at any place |
| DocumentChanges.LinesAreUnique | packages/file-scheme/src/node/file-scheme-doc.service.ts:156 | no other lines have these two properties |
| DocumentChanges.EveryContentHasLines | packages/file-scheme/src/node/file-scheme-doc.service.ts:156 | so every content has exactly one such list of lines; it is what a split at every kind of break gives if and only if none of them holds another break |
| ReferenceManagers.ReferenceManager.constructor | packages/core-common/src/reference.ts:18-32 | every key starts in the initial state |
| ReferenceManagers.ReferenceManager.GetReference | packages/core-common/src/reference.ts:34-65 | the synchronous part of a call is the protocol step `Call` at its key and leaves every other key alone |
| ReferenceManagers.ReferenceManager.AwaitCreation | packages/core-common/src/reference.ts:36-48 | a call without an instance joins the creation under way or starts the only one |
| ReferenceManagers.ReferenceManager.StartCreation | packages/core-common/src/reference.ts:38-45 | the factory is called and its promise remembered as the guard |
| ReferenceManagers.ReferenceManager.FinishReference | packages/core-common/src/reference.ts:54-65 | ref first, then the guard is lifted and the empty removal deferred behind the creation promise |
| ReferenceManagers.ReferenceManager.GetReferenceIfHasInstance | packages/core-common/src/reference.ts:68-73 | a ref on the stored instance exactly when there is one |
| ReferenceManagers.ReferenceManager.CreateRef | packages/core-common/src/reference.ts:75-85 | a fresh ref holds the stored instance and is counted at its key |
| ReferenceManagers.ReferenceManager.AddRef | packages/core-common/src/reference.ts:87-92 | the ref is appended to the list of its key |
| ReferenceManagers.ReferenceManager.RemoveRef | packages/core-common/src/reference.ts:94-111 | the last ref takes list and instance with it and reports all-disposed once, unless a creation guards the key |
| ReferenceManagers.ReferenceManager.HoldRef | packages/core-common/src/reference.ts:136-141 | holding an undisposed ref gives another ref on the stored instance; holding a disposed one fails and changes nothing |
| ReferenceManagers.ReferenceManager.DisposeRef | packages/core-common/src/reference.ts:78-82 | disposing a ref removes it from its key, and disposing it again does nothing |
| ReferenceManagers.ReferenceManager.SettleFactory | packages/core-common/src/reference.ts:40 | the factory's promise settles and queues the creator |
| ReferenceManagers.ReferenceManager.RunNextJob | packages/core-common/src/reference.ts:39-64 | each queued continuation does what the protocol says, at its key only |
| ReferenceManagers.ReferenceManager.FinishListeners | packages/core-common/src/reference.ts:42-43 | after the listeners the creation promise fulfils and wakes its waiters in order |
| ReferenceProtocol.StepKeepsGood | packages/core-common/src/reference.ts:34-111 | every step keeps the inductive invariant, factories that reject included, as long as listeners do not call and nobody calls before the last waiter of a rejection has woken |
| ReferenceProtocol.RunKeepsGood | packages/core-common/src/reference.ts:34-111 | so does every run, of any length and interleaving |
| ReferenceProtocol.GoodIsSafe | packages/core-common/src/reference.ts:34-111 | the invariant gives: undisposed refs hold the stored instance, one creation at a time, no waiter resumes to a missing instance, the deferred removal drops nothing, creations exceed all-disposed events by one exactly while an instance is stored, at rest an instance is stored exactly when a ref is undisposed, and every call is answered, has failed with its creation or is waiting |
| ReferenceProtocol.DisposeGivesUp | packages/core-common/src/reference.ts:78-82 | disposing takes away one ref, and every other one keeps its instance |
| ReferenceProtocol.GivenUpForGood | packages/core-common/src/reference.ts:75-141 | a disposed ref stays disposed in every run, under every policy: it can be neither held nor disposed again |
| ReferenceProtocol.SafeExactlyUnderStrictPolicy | packages/core-common/src/reference.ts:34-111 | main result: all runs are safe if and only if listeners never call the asynchronous `getReference`, and either factories never reject or nobody calls between a rejection and the waking of its last waiter |
| ReferenceProtocol.ListenerCallBreaksSafety | packages/core-common/src/reference.ts:42-62 | with such a listener a reachable state wakes a waiter with no instance stored |
| ReferenceProtocol.RejectionBreaksSafety | packages/core-common/src/reference.ts:46-52 | with a rejecting factory and such a call a reachable state has two factory calls outstanding for one key |
| ReferenceProtocol.EveryCallIsAnswered | packages/core-common/src/reference.ts:34-66 | from every state of a strict run, however factories settle, the loop drains to rest, each call answered by a ref of its own or failed, and none failed if no factory did |
| ReferenceProtocol.RunIsStrict | packages/core-common/src/reference.ts:34-66 | every run of a policy that meets that condition is a strict run to the same state |
| Batches.CreateBatches | scripts/lint.ts:46-71 | a cut of the list in order into allowed batches, and no cut of the list into allowed batches has fewer |
| Batches.TightIsShortest | scripts/lint.ts:51-64 | a cut in which no batch could have taken the next file is at least as short as any other, from any common position on |
| Batches.FirstBatchReaches | scripts/lint.ts:51-64 | the first batch of such a cut reaches at least as far as that of any other |
| Batches.PartAllowed | scripts/lint.ts:8-9 | a non-empty stretch of an allowed batch is allowed |
| Batches.AllowedMeaning | scripts/lint.ts:8-9 | a batch is allowed if and only if it is one file or has at most 30 files of at most 307200 bytes together |
| ReadyFramer.ReadyWaiter.constructor | server/src/ws-gateway.ts:243-251 | nothing received, nothing decided |
| ReadyFramer.ReadyWaiter.Finish | server/src/ws-gateway.ts:253-264 | only the first outcome counts, and it settles once |
| ReadyFramer.ReadyWaiter.OnData | server/src/ws-gateway.ts:265-289 | after any chunk the outcome is that of reading all output so far line by line; output after settling is ignored; a line the parser throws on ends the reading without settling |
| ReadyFramer.ReadyWaiter.ReadLinesOf | server/src/ws-gateway.ts:267-288 | the chunk loop reads buffer and chunk as one text, keeps the unfinished tail, and its buffer never exceeds the limit |
| ReadyFramer.ReadyWaiter.ReadOnePiece | server/src/ws-gateway.ts:268-288 | each turn of the loop takes a line or the tail, and leaves the rest to be read |
| ReadyFramer.ReadyWaiter.OnExit | server/src/ws-gateway.ts:290-292 | an exit decides only what is still open |
| ReadyFramer.ReadyWaiter.OnError | server/src/ws-gateway.ts:293 | so does a child error |
| ReadyFramer.ReadyWaiter.OnTimeout | server/src/ws-gateway.ts:294-297 | so does the startup timeout |
| ReadyFramer.ReadLinesMeaning | server/src/ws-gateway.ts:265-289 | ready with the first complete line that announces, if and only if that line and all before it are within the limit; too long if and only if the first line over the limit, the unfinished tail included, comes before it; crashed if and only if the first line the parser throws on does |
| ReadyFramer.LineThenRest | server/src/ws-gateway.ts:269-288 | a line feed ends a line, and what is behind it is split on its own |
| ReadyFramer.LimitInCharacters | server/src/ws-gateway.ts:271-275 | an unfinished line of more than 65536 characters is too long, one of at most 16384 never is, and one of ASCII characters only beyond 65536 |
| ReadyFramer.ByteLengthBounds | server/src/ws-gateway.ts:271 | a text has as many bytes as characters if and only if all are ASCII, and never fewer nor more than four times as many |
| ReadyFramer.WiderCharacters | server/src/ws-gateway.ts:271 | a character takes two bytes from U+0080, three from U+0800, four from U+10000 on |
| ReadyFramer.ReadTextResumes | server/src/ws-gateway.ts:265-289 | reading a text and more text is reading the unfinished tail and the new text |
| ReadyFramer.DecisionStands | server/src/ws-gateway.ts:265-289 | output that follows a decision does not change it |
| ReadyFramer.PendingExtends | server/src/ws-gateway.ts:265-289 | as long as nothing is decided, reading goes on with the last line |
| ReadyFramer.Replay | server/src/ws-gateway.ts:238-303 | over any sequence of chunks, exits, errors and timeouts the outcome is the verdict on the whole output before the first other event, settled exactly once, or never while nothing is decided or when the parser threw |
| ReadyFramer.ChunkingIsInvisible | server/src/ws-gateway.ts:265-289 | two ways of cutting the same output give the same verdict, whatever follows |
| GatewayRuntimes.WsGatewayRuntime.constructor | server/src/ws-gateway.ts:337-351 | a runtime starts without child, starting and not degraded |
| GatewayRuntimes.WsGatewayRuntime.LaunchThrowing | server/src/ws-gateway.ts:381-382 | a launch that throws before it spawned settles as failed, leaves the status alone and may be repeated |
| GatewayRuntimes.WsGatewayRuntime.Launch | server/src/ws-gateway.ts:377-433 | a runtime with a child refuses another launch and stays as it is; otherwise spawning is the step `Spawn` |
| GatewayRuntimes.WsGatewayRuntime.OnReady | server/src/ws-gateway.ts:433-468 | readiness of a live child makes the gateway run with its pid; a child already gone fails the launch |
| GatewayRuntimes.WsGatewayRuntime.OnLaunchError | server/src/ws-gateway.ts:469-476 | a failed launch marks the status and starts its own stop |
| GatewayRuntimes.WsGatewayRuntime.RethrowLaunchError | server/src/ws-gateway.ts:476-478 | once that stop is done the launch settles as failed |
| GatewayRuntimes.WsGatewayRuntime.OnChildExit | server/src/ws-gateway.ts:453-468 | an exit of the watched child fails the gateway and calls back, unless it is being stopped |
| GatewayRuntimes.WsGatewayRuntime.Stop | server/src/ws-gateway.ts:481-488 | only the first stop stops, later ones share it |
| GatewayRuntimes.WsGatewayRuntime.FinishStop | server/src/ws-gateway.ts:500-505 | failed stays failed, everything else becomes stopped, without a pid |
| GatewayProtocol.StepKeepsGood | server/src/ws-gateway.ts:377-506 | every step keeps the invariant and moves the status only forward, stops during the launch included, as long as no stop finishes during one and nothing is launched after a stop |
| GatewayProtocol.RunKeepsGood | server/src/ws-gateway.ts:377-506 | so does every such run |
| GatewayProtocol.ThrowingLaunchMayBeRepeated | server/src/ws-gateway.ts:377-382 | a new runtime may be launched under every policy, and after a launch that throws before it spawned the next one does what it would have done at once |
| GatewayProtocol.DisciplinedExactlyUnderStrictPolicy | server/src/ws-gateway.ts:334-507 | main result: in all runs failed is absorbing, degraded means failed, a pid is shown only while running, the callback fires at most once and never after stopping, and a launch that had a child fails only after it was stopped, if and only if no stop called during a launch finishes before it, and nothing launches after a stop |
| GatewayProtocol.StopDuringLaunchBreaks | server/src/ws-gateway.ts:469-506 | a stop that finishes during the launch it was called in reaches a stopped state from which a step leads to failed |
| GatewayProtocol.LaunchAfterStopBreaks | server/src/ws-gateway.ts:377-506 | a launch after a stop reaches a stopped state from which a step leads to running |
| GatewayRuntimes.ResolveMode | server/src/ws-gateway-defaults.ts:15-30 | the source is the default exactly when nothing is set, and the gateway is chosen exactly when asked for or, by default, available |
| GatewayRuntimes.LaunchWsGateway | server/src/start-server.ts:345-393 | whatever strict sequence of ready lines, exits, rejections and stops happens around the launch: it throws exactly when the gateway does not come to serve; then the backend is closed and the runtime stopped, else both are up; the runtime is good in either case |
| GatewayRuntimes.StartServer | server/src/start-server.ts:395-427 | in every such environment: startup fails exactly when an explicitly requested gateway does not come up; an explicit gateway never becomes a direct server; a default gateway that fails leaves a direct server whose readiness is memory alone; whatever happens to the child while the application starts, readiness is memory until the child exits unasked or its stop is done, and the backend listens until the former |
| GatewayRuntimes.PerformWatched | server/src/start-server.ts:369-375 | over any run after the launch an unexpected exit stops the runtime and closes the backend at once |
| GatewayRuntimes.WatchedRunsExactly | server/src/start-server.ts:369-375 | the gateway is shown as running if and only if its child has not exited unasked and its stop is not done |
| GatewayRuntimes.ServesExactlyWhenReadyFirst | server/src/ws-gateway.ts:433-478 | a launch succeeds if and only if the ready line is the first thing that happens to the child; after an exit or a rejection first, nothing that follows makes it succeed |
| GatewayRuntimes.ServesExactly | server/src/start-server.ts:345-393 | the gateway serves if and only if the channel can be created, the backend listens on a usable address, a child is spawned and it is ready first |
| GatewayRuntimes.PerformAll | server/src/ws-gateway.ts:377-506 | the object does over any strict run what the protocol says |
| GatewayRuntimes.ReadyExactlyWhileRunning | server/src/start-server.ts:234-251 | in every state of every strict run ready means that the gateway runs and memory allows it; then its process is alive and not degraded, unless it is being stopped |
| GatewayRuntimes.HealthMeaning | server/src/ws-gateway.ts:339-348 | in every state of every strict run the gateway is reported as configured, as counting for readiness and with its state, and as degraded and with an error exactly when it failed |
| GatewayRuntimes.NeverReadyAgain | server/src/start-server.ts:234-251 | a gateway that failed or stopped is not ready after any further strict run |
| GatewayChannel.PrivateChannel.constructor | server/src/ws-gateway.ts:191-208 | a new channel holds connections and has none |
| GatewayChannel.PrivateChannel.OnConnection | server/src/ws-gateway.ts:194-200 | a connection goes to each attached listener |
| GatewayChannel.PrivateChannel.Wire | server/src/start-server.ts:413 | the real handler is attached beside the holding one |
| GatewayChannel.PrivateChannel.AdoptHeldConnections | server/src/ws-gateway.ts:364-371 | held connections are handed over once, in order, and holding ends |
| GatewayChannel.PrivateChannel.DeliveredOnceExactlyWithoutOverlap | server/src/ws-gateway.ts:357-371 | after adoption the handler has seen each connection once and in order if and only if none arrived while both listeners were attached |
| Percentile.PercentileIsNearestRank | server/scripts/runtime-profile-metrics.ts:42-52 | the result is a value if and only if it is a sample with at most rank samples below it and more than rank samples not above it |
| Percentile.PercentileMeaning | server/scripts/runtime-profile-metrics.ts:42-52 | for n samples and a positive quantile the result is a value if and only if it is a sample with fewer than quantile times n samples below it and at least that many not above it |
| Percentile.ZeroQuantileIsLeast | server/scripts/runtime-profile-metrics.ts:42-52 | for quantile 0 it is the least sample |
| Percentile.CountsAreCounts | server/scripts/runtime-profile-metrics.ts:49-51 | the two counts are the numbers of places in the list with such samples |
| Percentile.FailsExactly | server/scripts/runtime-profile-metrics.ts:43-48 | there is an error if and only if there are no samples, or some and the quantile is not between 0 and 1; which one is stated |
| Percentile.PermutationInvariant | server/scripts/runtime-profile-metrics.ts:49-51 | the order of the samples never matters, nor does it for the errors |
| Percentile.MonotoneInQuantile | server/scripts/runtime-profile-metrics.ts:49-51 | a larger quantile never gives a smaller result |
| Percentile.MonotoneUnderDominance | server/scripts/runtime-profile-metrics.ts:49-51 | samples that are pairwise at most others have a percentile at most theirs |
| Percentile.CommutesWithIncreasing | server/scripts/runtime-profile-metrics.ts:49-51 | percentiles commute with every strictly increasing change of unit |
| Percentile.PositiveExactly | server/scripts/runtime-profile-metrics.ts:178-180 | a percentile is positive if and only if no more samples than its rank are not |
| Percentile.MedianPositiveExactly | server/scripts/runtime-profile-metrics.ts:178-180 | a median is positive if and only if fewer than half of the samples are not |
| Percentile.LatenciesComparableExactly | server/scripts/runtime-profile-metrics.ts:165-180 | the latency comparison succeeds if and only if the runs are paired, there are any, the limit is not negative, and fewer than half of the node latencies are not positive |
| Percentile.LatencyReport | server/scripts/runtime-profile-metrics.ts:176-188 | the report names the node median, the agent median, the ratio of their difference to the former, and the limit, each in its place |
| Percentile.LatencyGateMeaning | server/scripts/runtime-profile-metrics.ts:176-188 | the gate is the bound of the agent median by (1 + limit) times the node median |
| Percentile.PairedRunsMeetLatencyGate | server/scripts/runtime-profile-metrics.ts:160-189 | if every agent run is within the limit of its paired node run the gate passes |
| Percentile.ProfilesComparableExactly | server/scripts/runtime-profile-metrics.ts:114-150 | the memory comparison succeeds if and only if the runs are paired, there are any, and fewer than half of the node runs lack a positive p95, and likewise a positive peak |
| Percentile.ProfileReport | server/scripts/runtime-profile-metrics.ts:133-158 | the reported reductions are those of the p95 and of the peak median, in this order, and the gate asks for a quarter in either |
| Percentile.MemoryGateMeaning | server/scripts/runtime-profile-metrics.ts:133-158 | the gate holds if and only if one of the two agent medians is at most three quarters of the node median |
| Percentile.PairedRunsMeetMemoryGate | server/scripts/runtime-profile-metrics.ts:140-158 | if every agent run uses at most three quarters of the p95 memory of its paired node run the gate passes |
| LeastSquares.LinearSlopeBytesPerMinute | scripts/profile-extension-host.ts:333-350 | no slope if and only if there are fewer than three samples or all are simultaneous; otherwise, per millisecond, the one best slope |
| LeastSquares.FitIsTheBestSlope | scripts/profile-extension-host.ts:341-349 | among all lines a slope minimises the sum of squared residuals if and only if it is the fitted one |
| LeastSquares.ResidualsAgainstFit | scripts/profile-extension-host.ts:341-349 | any line misses the samples by what the fitted line does plus the squared distances between the two lines |
| LeastSquares.DenominatorVanishes | scripts/profile-extension-host.ts:343-347 | the denominator is zero if and only if all sample times are equal |
| TaskIdentifier.KeyIdentifiesPlainObjects | packages/core-common/src/task-definition.ts:27-40 | string-valued identifiers with distinct comma-free names print alike if and only if they are the same map, in whatever order properties were added |
| TaskIdentifier.PrintsInOrder | packages/core-common/src/task-definition.ts:27-40 | the property that sorts first is printed first: a string with its commas doubled, a primitive by its text, a nested object by its own print |
| TaskIdentifier.PrimitivesTellApart | packages/core-common/src/task-definition.ts:27-40 | primitive values under one such name print alike if and only if their texts are equal |
| TaskIdentifier.EscapeDoublesCommas | packages/core-common/src/task-definition.ts:34-36 | escaping turns each comma into two and changes nothing else |
| StringOrder.LessExactly | packages/core-common/src/task-definition.ts:28 | one name sorts before another if and only if at the first place where they differ it has ended or has the smaller character |
| TaskIdentifier.KeyIdentifiesExactly | packages/core-common/src/task-definition.ts:27-40 | main result: all identifiers of a policy print alike exactly when they are the same object, if and only if the policy allows neither commas in names nor values that are no strings |
| TaskIdentifier.EveryCommaNameCollides | packages/core-common/src/task-definition.ts:30-38 | for every name with a comma there are two different objects, one with a property of that name, that print alike |
| TaskIdentifier.OneCommaCollides | packages/core-common/src/task-definition.ts:30-38 | the smallest such pair, written out |
| TaskIdentifier.ChainDecodes | packages/core-common/src/task-definition.ts:30-38 | the printed chain of names and escaped values is uniquely decodable |
| TaskIdentifier.CommaNamesCollide | packages/core-common/src/task-definition.ts:30-38 | a name of three comma-free parts is mistaken for two properties, for all such parts whose first sorts before the last, and every value |
| TaskIdentifier.OtherValuesCollide | packages/core-common/src/task-definition.ts:31-37 | a value that is no string prints like the string of its text |
| TaskIdentifier.Sanitize | packages/core-common/src/task-definition.ts:103-143 | under a registered definition there is no literal if and only if some required property is not given, has no default and is of a kind with no made-up value; otherwise the literal is what `SanitizedMeaning` and `SanitizedType` say |
| TaskIdentifier.SanitizedMeaning | packages/core-common/src/task-definition.ts:109-141 | a given property keeps its value; a required one that is missing gets its default, and without one false, 0 or the empty string by its kind; an optional one that is missing is left out |
| TaskIdentifier.SanitizedType | packages/core-common/src/task-definition.ts:104-105 | the type is that of the definition, unless a property of that name is declared |
| TaskIdentifier.KeyIgnoresUndeclaredProperties | packages/core-common/src/task-definition.ts:91-144 | identifiers that agree on the declared properties print alike and get the same key, whatever else they carry |
| TaskIdentifier.KeysAgreeExactly | packages/core-common/src/task-definition.ts:91-144 | main result: under a definition, plain literals have equal keys exactly when given, default and made-up values agree under every name, if and only if it does not let a property `_key` override the key: one that may be absent, or stands beside another comma-free property, where all required names are comma-free |
| TaskIdentifier.PrintsAgreeExactly | packages/core-common/src/task-definition.ts:27-40 | plain literals print alike if and only if those values agree under every name |
| TaskIdentifier.UnregisteredKeyIdentifies | packages/core-common/src/task-definition.ts:96-101 | without a definition a stale key is dropped and the new one identifies the other properties |
| ProcessTree.IndexByParent | server/scripts/process-tree.ts:127-132 | the index lists the children of each parent in order |
| ProcessTree.SelectProcessTree | server/scripts/process-tree.ts:126-153 | exactly the pids reachable from the root by parent links, each once, root first and last with its pid, in order of their distance from it; of any two others the one whose parent was selected earlier comes first, and of one parent the one listed first; nothing if the root is not listed |
| ProcessTree.LastOneCounts | server/scripts/process-tree.ts:134-135 | of several processes with one pid the last listed is the root |
| ProcessTree.SearchIsExact | server/scripts/process-tree.ts:140-152 | a finished search has found each reachable pid at its least distance |
| ProcessTree.PathsEndSelected | server/scripts/process-tree.ts:143-151 | every path from the root ends in a selected process no deeper than the path is long |
| ProcessTree.SelectionIsReachableProcesses | server/scripts/process-tree.ts:126-153 | with unique pids the selection is the reachable processes themselves |
| ProcessRoles.Attribute | server/scripts/process-tree.ts:215-232 | an other or node process takes the child role of its nearest extension-host or agent ancestor, if it has one, and keeps its role otherwise; the walk ends on cyclic links |
| ProcessRoles.AttributedMeaning | server/scripts/process-tree.ts:215-232 | an other or node process is an extension child if and only if its nearest ancestor that is an extension host, extension child, agent or agent child is one of the first two, an agent child if and only if it is one of the last two, and keeps its role if and only if it has no such ancestor; every other process keeps its role |
| ProcessRoles.AttributedIsUnique | server/scripts/process-tree.ts:215-232 | every process has exactly one attributed role |
| ProcessRoles.StopWithoutLabel | server/scripts/process-tree.ts:219-231 | a walk that runs out of ancestors or meets a visited one has missed no labelled ancestor |
| ProcessRoles.CycleHasNoLabel | server/scripts/process-tree.ts:219-231 | a cycle passed without a label has none further up |
| ProcessRoles.SumByRole | server/scripts/process-tree.ts:233-239 | each role's count and memory are exact and together are the totals |
| ProcessRoles.FiguresOfOne | server/scripts/process-tree.ts:233-239 | a process counts once, with its resident memory, for its own role and for no other |
| ProcessRoles.FiguresAddUp | server/scripts/process-tree.ts:233-239 | counts and memory of a role in two listings add up |
| ProcessRoles.SummarizeProcessTree | server/scripts/process-tree.ts:206-246 | processes keep their places, roles are the nearest-ancestor ones, and counts and memory per role add up to the totals |
| ProcessRoles.CollectTree | server/scripts/process-tree.ts:318-326 | selection and summary compose, whatever the pids of the listing, and counts and memory per role add up to those of the tree |
| MultiKeyMap.MultiKeyMap.constructor | packages/core-common/src/collections.ts:20-23 | a new map is empty |
| MultiKeyMap.MultiKeyMap.Set | packages/core-common/src/collections.ts:33-50 | the flat map gets the value, the former value is returned, the parts of the key not yet on the trail are added at its end, the change is logged, and a key of another length is refused without change |
| MultiKeyMap.MultiKeyMap.Get | packages/core-common/src/collections.ts:52-64 | the flat map's value at the key, or none; a key of another length is refused |
| MultiKeyMap.MultiKeyMap.Has | packages/core-common/src/collections.ts:71-83 | a full key is looked up in the flat map; a shorter one is found exactly when it is not empty and some key under it was ever set; a longer one is refused |
| MultiKeyMap.MultiKeyMap.Delete | packages/core-common/src/collections.ts:90-102 | at most one entry goes: the full key, or, for a key one element short, the key completed with its own last element; the result says whether it was there; the others keep their order |
| MultiKeyMap.MultiKeyMap.ForEach | packages/core-common/src/collections.ts:108-110 | exactly the entries of the flat map, each once with its full key, level by level in the order in which the parts of the keys were first set |
| MultiKeyMap.MultiKeyMap.DoForEach | packages/core-common/src/collections.ts:113-123 | the same for the entries below one inner map, in the same order |
| MultiKeyMap.MultiKeyMap.Descend | packages/core-common/src/collections.ts:56-62 | walking down a key finds the inner map of its prefix if there is one |
| MultiKeyMap.MultiKeyMap.LevelFor | packages/core-common/src/collections.ts:37-45 | the loop of `set` adds exactly the missing inner maps on the way of its key |
| MultiKeyMap.SettingKeepsOrder | packages/core-common/src/collections.ts:33-50 | setting a key never changes the order of what was there, it only adds at the end of each level |
| MultiKeyMap.NewStepComesLast | packages/core-common/src/collections.ts:37-48 | a part of a key that is new on its level comes after every other one there |
| MultiKeyMap.DeletingKeepsOrder | packages/core-common/src/collections.ts:90-102 | deleting an entry keeps the order of the others |
| MultiKeyMap.DeleteKeepsItsPromiseExactly | packages/core-common/src/collections.ts:85-102 | a deletion does what its documentation says of keys of any length if and only if its one target is all there is under the key |
| MultiKeyMap.DeletionMeaning | packages/core-common/src/collections.ts:90-102 | the one entry a deletion can take is that of the full key, or of a key one element short with its last element repeated; a shorter key, or an empty one, takes none |
| MultiKeyMap.HasKeepsItsPromiseExactly | packages/core-common/src/collections.ts:66-83 | after any history of changes, for keys of any length `has` says whether there is an entry under the key, as documented, if and only if an empty key is asked of an empty map only and, if any key under a shorter one was set, some such key was not deleted after it was last set |
| MultiKeyMap.EntriesSurvive | packages/core-common/src/collections.ts:33-102 | a key has an entry if and only if it was set and not deleted after it was last set |
| MultiKeyMap.EmptyKeyIsNotFound | packages/core-common/src/collections.ts:71-83 | the empty key is not found although an entry is under it |
| MultiKeyMap.ShortKeyOutlivesItsEntries | packages/core-common/src/collections.ts:66-83 | a short key is still found after the only entry under it was deleted |
| ParallelRun.Scheduler.constructor | scripts/download.js:21-25 | a scheduler starts in the state of the empty history |
| ParallelRun.Scheduler.AddWorking | scripts/download.js:27-48 | tasks are started in list order until the bound or the end of the list is reached |
| ParallelRun.Scheduler.OnFulfilled | scripts/download.js:33-44 | a fulfilled task extends the history and leads to the state of the longer history |
| ParallelRun.Scheduler.CountResult | scripts/download.js:34-44 | the result is stored in its place, the last one resolves the promise, any other frees its slot and starts the next tasks |
| ParallelRun.Scheduler.OnRejected | scripts/download.js:45 | so does a rejected one, which keeps its slot |
| ParallelRun.StepKeepsSound | scripts/download.js:27-48 | every event keeps all laws (slots within the bound and used while tasks are left, started tasks a prefix of the list, each running, failed or done) and starts at most one task |
| ParallelRun.EveryRunEndsAsPromised | scripts/download.js:21-51 | in every order of completion no task settles twice, the promise rejects with the first failure, resolves if and only if every task was fulfilled, then with the results in list order, and is pending otherwise |
| ParallelRun.SlotsAreUsed | scripts/download.js:28 | without a failure as many tasks run as the bound and the rest of the list allow, exactly the bound while any is unstarted |
| ParallelRun.KeepsGoingExactly | scripts/download.js:21-51 | a pending promise always has a task running that may settle it, if and only if the list is not empty and the bound is at least one |
| Comparers.FileOrderIsPreorder | packages/core-common/src/comparers.ts:19-31 | given a lawful collator the file name order is a total preorder, and with a numeric one only equal names tie |
| Comparers.ComparePaths | packages/core-common/src/comparers.ts:46-73 | the loop computes the order of the parts of the two paths |
| Comparers.PathsAreOrderedExactly | packages/core-common/src/comparers.ts:46-73 | the path order is a total preorder on all strings if and only if the file name order is one on names without a separator |
| Comparers.PathsAreOrdered | packages/core-common/src/comparers.ts:46-73 | with a lawful collator it is |
| Comparers.OwnFilesBeforeSubfolders | packages/core-common/src/comparers.ts:56-65 | a folder's own files come before everything in its subfolders, at the top as well |
| Comparers.NameIsOnePart | packages/core-common/src/comparers.ts:47-48 | a text without a separator is one part |
| Comparers.PartsBelowFolder | packages/core-common/src/comparers.ts:47-48 | at a separator the parts are those of what is before it and then those of what is behind it |
| Comparers.FirstFolderDecides | packages/core-common/src/comparers.ts:33-72 | at the first folder that differs paths are ordered as the two names are, lower-cased unless case matters |
| Comparers.EmptyFolderFirst | packages/core-common/src/comparers.ts:33-44 | a path that starts with a separator comes before one that starts with a folder name |
| Comparers.NamesDecide | packages/core-common/src/comparers.ts:19-31 | in one folder the collator decides, and where it is numeric and sees no difference, the characters of the names as they are |
| Comparers.TiesExactly | packages/core-common/src/comparers.ts:33-73 | two paths tie if and only if they have the same folders, up to case unless it matters, and tying file names |
| Comparers.DistinctPathsNeverTie | packages/core-common/src/comparers.ts:46-73 | where case matters and the collator is numeric, only a path ties with itself |
| Comparers.AnythingIsOrdered | packages/core-common/src/comparers.ts:75-123 | for each search text the order of results is a total preorder |
| Comparers.AnythingMeaning | packages/core-common/src/comparers.ts:75-123 | prefix matches come first, then shorter ones, then suffix matches, then what the collator puts first, then the characters of the lower-cased names, then their locale order; with a numeric collator only names equal but for case tie |
| Comparers.EndsWithExactly | packages/core-common/src/comparers.ts:86-87 | a suffix match is a name that is some text followed by the suffix |
| CommandRegistry.Registry.constructor | packages/core-common/src/command.ts:259-264 | a registry without handlers, history or recent commands |
| CommandRegistry.Registry.RegisterHandler | packages/core-common/src/command.ts:404-410 | the registration is logged and every command's list is the one the log determines |
| CommandRegistry.Registry.DisposeHandler | packages/core-common/src/command.ts:411-416 | so is the disposal |
| CommandRegistry.Registry.GetActiveHandler | packages/core-common/src/command.ts:481-496 | the first enabled handler of the command at the end of the delegations: for every path of commands, each but the last delegating to the next, that starts at the asked one and ends at one that does not delegate, it is the newest enabled registration for the last, after orderly histories the newest undisposed one, or none if there is none |
| CommandRegistry.EndsAtSomeCommand | packages/core-common/src/command.ts:481-485 | a lookup ends if and only if there is such a path |
| CommandRegistry.Registry.SetRecentCommands | packages/core-common/src/command.ts:662-667 | the list is the one the history of used commands determines |
| CommandRegistry.Registry.AddRecentCommand | packages/core-common/src/command.ts:673-685 | a labelled command moves to the front, another changes nothing |
| HandlerStacks.StackHoldsTheLive | packages/core-common/src/command.ts:404-418 | so after an orderly log a command's list is the undisposed handlers, newest first |
| HandlerStacks.DisposalIsExact | packages/core-common/src/command.ts:411-416 | one disposal keeps the list right if and only if it is orderly: a live registration with no other handler between it and the newest of its own, or one disposed before whose handler is not live again |
| HandlerStacks.StackHoldsTheLiveExactly | packages/core-common/src/command.ts:404-418 | main result: over any log of registrations and disposals of whatever handlers the lists are the undisposed handlers, newest first, at every point if and only if every disposal is orderly |
| HandlerStacks.OneAtATimeIsOrderly | packages/core-common/src/command.ts:404-418 | registering a handler only while it is not live, and disposing each registration once, is orderly; registering again after disposal is allowed |
| HandlerStacks.StaleDisposalTakesTheNewOne | packages/core-common/src/command.ts:411-416 | a registration disposed twice takes away a later registration of the same handler |
| HandlerStacks.SharedHandlerIsMovedDown | packages/core-common/src/command.ts:411-416 | a concrete log where it does not |
| CommandRegistry.ActiveHandlerMeaning | packages/core-common/src/command.ts:481-495 | after any orderly log the active handler is that of the newest undisposed registration that is enabled |
| CommandRegistry.CycleNeverEnds | packages/core-common/src/command.ts:482-485 | a command that delegates back to itself, over any number of others, has no end to its chain |
| CommandRegistry.ChainEndsExactly | packages/core-common/src/command.ts:481-485 | the chain of any command ends if and only if it meets no command twice, then within as many steps as there are commands |
| RecentCommands.RecentsAreLatestUses | packages/core-common/src/command.ts:662-685 | over any history the list is the latest uses of labelled commands, latest first |
| RecentCommands.OnePerId | packages/core-common/src/command.ts:678-682 | no id is listed twice |
| RecentCommands.ListedWhenUsedLast | packages/core-common/src/command.ts:673-685 | a command is listed if and only if it is labelled and nothing labelled with its id was used after it |

## Left out

- LineText.BasicTextLines.AcceptChange: takes line numbers from one on, which is where the types of positions and ranges say they start (types/editor.ts lines 9 to 52). `newLengths` is computed but never read in the source. A gap in the array is an empty line.
- DocumentChanges.ApplyChanges: reading and writing the file, its checksum and the sorting of the edits by their sender are not modelled.
- LineText.BasicTextLines.SetLineText: negative indices are not modelled.
- ReferenceManagers.ReferenceManager.RunNextJob: keeps one FIFO queue per key; the interleaving between keys is not modelled, because keys share no state.
- ReferenceManagers.ReferenceManager.GetReference: keys are opaque, so `normalizeFileUrl` is not modelled; factories that call the manager back synchronously are not either.
- ReferenceProtocol.SafeExactlyUnderStrictPolicy: listeners that throw and listeners of the all-disposed event that call the manager are not modelled; a listener may hold, dispose and ask for refs on stored instances.
- GatewayRuntimes.WsGatewayRuntime.Launch: the arguments of the process and its standard error text are not modelled.
- GatewayRuntimes.WsGatewayRuntime.FinishStop: how long a stop waits, and the signals it sends (`waitForExit`, SIGTERM, SIGKILL), are one step.
- GatewayRuntimes.StartServer: failures of starting the server application and of the public port after the fallback are not modelled, nor are the end of the process once an unexpected exit has been stopped and the HTTP routing around the readiness formula. While a failed launch is cleaned up only the child acts.
- GatewayRuntimes.ResolveMode: takes the variable after lower-casing; whether a package is runnable is a parameter.
- GatewayChannel.PrivateChannel.OnConnection: sockets are opaque; pausing and resuming are not modelled.
- ReadyFramer.ReadyWaiter.OnData: works on decoded text; a multi-byte character cut by a chunk boundary is not modelled. Trimming and JSON parsing are the parameter `parse`. An uncaught exception of the parser ends the model; what the process does about it is not part of it.
- Percentile.PercentileIsNearestRank: over real numbers; rounding, infinities and NaN are not modelled. Of the comparison sides only the medians of the tree memory are.
- LeastSquares.LinearSlopeBytesPerMinute: over real numbers; rounding is not modelled.
- TaskIdentifier.KeyIdentifiesPlainObjects: covers string values and comma-free names, because other values and names do collide (`KeyIdentifiesExactly`). Characters are code points where the source sorts by UTF-16 code units; the result holds for any fixed order of names.
- TaskIdentifier.Sanitize: the message to the reporter is not modelled, and a declared property named `type` overrides the type as in the source.
- ProcessRoles.Attribute: roles from the command line (`classifyProcessRole`) are a parameter; with duplicate pids only termination is proved.
- ProcessRoles.CollectTree: the check of the root pid, the time stamp and the cgroup figures are not modelled.
- Batches.CreateBatches: the sizes are read once and do not change during the cut.
- MultiKeyMap.MultiKeyMap.constructor: takes a key length of at least one; `undefined` as a key element or value is not modelled, and neither is `create`.
- MultiKeyMap.MultiKeyMap.ForEach: the handler is a log of its calls, so a handler that changes the map while iterating is not modelled.
- ParallelRun.Scheduler.OnFulfilled: a task that throws before returning its promise is not modelled.
- Comparers.ComparePaths: strings are sequences of code points where the source compares UTF-16 code units, and `caseSensitive` has no effect on file names, as in the source.
- CommandRegistry.Registry.GetActiveHandler: stated for chains that end, as for others the source does not return (`ChainEndsExactly` says which). What a handler answers depends only on the arguments at hand; registering and unregistering commands, interceptors, visibility and permissions are not modelled.
- CommandRegistry.Registry.AddRecentCommand: a missing command counts as one without a label.
- Icon tables, schemas, wiring, extension scanning, terminals, file services and the remaining packages are not modelled.
