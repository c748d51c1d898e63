# A verified model of the lamp field monitor

The program watches an Asterisk server over its manager interface (AMI) and keeps the lamps of desk phones up to date.
Parking and night-mode events switch *buttons*; a *button plan* that sees one of its buttons change re-renders the
cached document of each of its *phone UIs* and pushes it to all of the UI's addresses of record (AoRs). A phone that
registers is told the current document, unless a cache of recently seen phones says that it has it already. That cache
answers from a committed database table while its writes are queued for a single writer thread. Two configuration
readers pick out AoRs and caller IDs with a user-written match expression that is compiled once.

This project models that program in Dafny and proves what holds over all of its runs. `dafny verify dfyconfig.toml`
checks everything.

| file | what it models |
|---|---|
| `Basics.dfy`, `Text.dfy` | enumerations of sets; splitting, decimal printing, `from_chars`, `stoi`, `find` |
| `EndpointTable.dfy` | the `endpoints` table, the two prepared statements with their persistent parameters, liveness |
| `CacheProtocol.dfy`, `DeskphoneCache.dfy` | the write-behind cache as a protocol of atomic steps, and as the object whose methods are those steps |
| `Registrations.dfy` | what lookups answer, in terms of the calls that were made |
| `WriterWait.dfy` | the writer's wait on its condition variable, and the stops it sleeps through |
| `Rendering.dfy` | lamp items, their decoding, the document of a plan |
| `LampField.dfy`, `ParallelInvalidate.dfy` | buttons, phone UIs and plans on the heap; the parallel tasks of an invalidation |
| `LampEvents.dfy`, `EventDispatch.dfy`, `RegisterEvents.dfy` | the AMI event handlers, alone and with each other's events in between; the night button's optimistic push |
| `EndToEnd.dfy`, `StartUp.dfy` | cache and lamps together: what phones have been told; the wiring that a run starts from |
| `Matcher.dfy`, `Providers.dfy` | the compile-once expression matcher and the two configuration readers |
| `ParkingHints.dfy`, `CallerId.dfy`, `PhonebookTtl.dfy` | parking ranges, caller IDs, the phonebook's time-to-live cache |

Where a step is concurrent, it is what happens under one lock, one atomic access or one statement of the writer's
transaction. Objects that the program updates in place are classes. Fields that record history (`log`, `batches`,
`invalidations`, `triggers`, and the connection's list of messages) exist only to state properties.

Main results:

* **Phones show the current lamps** (`EndToEnd.PhonesShowCurrentLamps`). In every run that mixes authentications, lamp
  events, manual expiries and steps of the writer thread, each UI listing an AoR that has authenticated has sent it at
  least one message, and the last one holds the current item of each button, once, and nothing else. The runs start
  from what `StartUp.CreateRegisterEventHandler` is proved to leave behind.
* **One push for each switch of a lamp** (`EventDispatch.Dispatcher.DeliverAll`). Whatever events reach the handlers of
  a plan, each lamp is what its own reading of them says, and the plan is invalidated once for each switch of a lamp.
* **Write-behind refinement** (`CacheProtocol.WriteBehindRefinement` and the lemmas after it). In every reachable state
  the log is committed, in flight and queued operations in that order, the committed table is the sequential fold of
  the committed ones, and neither the batching nor the interleaving can be seen in an answer.
* **What a lookup answers** (`Registrations.KnownExactly`). In every run, over the calls alone: a phone is known iff a
  committed registration of it is less than one expiry old and nothing committed later has overtaken it.
* **Who is told** (`EndToEnd.WhoIsTold`). In every run, an authenticated phone is sent the current document exactly if it
  is new or some button is in the state that makes it critical.
* **Schedules do not matter** (`ParallelInvalidate.AnySchedule`). Every interleaving of the per-UI tasks ends in the
  same caches and the same message sequence for each UI.
* **History does not matter to a match** (`Matcher.ExpressionMatcher.IsMatch`). Whatever documents came before and
  whatever a failed compilation left behind, the answer is the stateless meaning of the expression on this document.

Where a property one might expect is false of the code, the condition under which it holds is proved instead, as an
equivalence, and a lemma or method shows a case where it fails:

* a registered endpoint is stored as its own parse only when it has four fields (`ParsedExactly`; `StalePort`,
  `StaleAddressExample`): the statement keeps the parameters of an earlier row;
* what was enqueued before a stop is committed only when nothing was queued or the writer was at its wait
  (`SurvivesStopExactly`; `LostWriteExample`);
* a stop ends the writer only when its notification does not fall between the test of the wait and the block
  (`WriterWait.StopExactly`; `LostWakeUpExample`): the flag is set and notified without the mutex;
* adding or removing a button keeps the phones' documents right only when no UI is registered yet
  (`AddButtonExactly`, `RemoveButtonExactly`; `StaleAfterAdd`, `StaleAfterRemove`): neither invalidates the plan;
* the destructor's expunge is invisible only to later reads (`ExpungeExactly`; `ExpungeExample`);
* a printed parking range is read back only when it does not begin with a sign, or is symmetric (`RangeOfPairExactly`,
  `HintsOfLotExactly`; `SignedRangeExample`): the sign is taken for the separator;
* a formatted caller ID is read back only when the name has no quote and the number is digits
  (`FormatExtractExactly`; `QuotedNameExample`).

Places where the code and its surroundings suggest different things, and the code was followed: re-registering a known
phone updates all columns of its row, not the expiry alone (it comes to the same for four-field endpoints, which
`ReinsertOnlyMovesExpiry` proves); assertions are taken to be compiled out, so a row refused by the table's constraint
is not stored and the writer goes on, and binding a fifth field or later is refused and ignored.

Assumptions, stated as preconditions or as the shape of a run: AMI callbacks are delivered one at a time; plans and
their UIs are wired before the first authentication, no UI belongs to two plans, and a UI's AoRs are set once; each
button has one handler; the clock is monotone and positive; a key missing from an AMI event reads as the empty string;
what the phonebook provider renders and what the clock reads are parameters.

## Model

| member | source | states |
|---|---|---|
| Text.JoinSplit | src/cache/DeskphoneCache.cpp:173-175 | joining the split fields gives any non-empty endpoint back, and no field holds a separator |
| Text.SplitJoinExactly | src/cache/DeskphoneCache.cpp:173-175 | splitting joined fields gives these fields back iff none holds a separator and they are not one empty field |
| Text.ScanDecimal | src/cache/DeskphoneCache.cpp:183-191 | printed decimal text followed by anything but a digit is read back as its number when it fits 32 bits and reported out of range otherwise |
| Text.FromCharsExactly | src/cache/DeskphoneCache.cpp:183-191 | the port reader yields a number exactly on the texts that begin with a maximal numeral of that value, in range |
| Text.DecimalInjective | src/asterisk/ParkEventHandler.cpp:153 | different numbers print differently |
| Text.DecimalDigits | src/asterisk/ParkEventHandler.cpp:153-154 | how a number is printed, digit by digit |
| Text.ScanLimits | src/cache/DeskphoneCache.cpp:183-191 | a printed number is read back by either reader iff it lies within 32 bits, and is out of range otherwise |
| Text.ScanPrefixes | src/asterisk/ParkEventHandler.cpp:145-151 | only stoi passes over white space and a plus sign; neither finds a number in the empty text |
| EndpointTable.FoldConcat | src/cache/DeskphoneCache.cpp:212-229 | applying two logs in turn is applying their concatenation, parameters included |
| EndpointTable.BatchingIrrelevant | src/cache/DeskphoneCache.cpp:200-236 | however a log is cut into batches, the result is that of the whole log |
| EndpointTable.IpSlot | src/cache/DeskphoneCache.cpp:171-194 | what the ip parameter holds after any log is the third field of the latest insert that had one |
| EndpointTable.RowExplained | src/cache/DeskphoneCache.cpp:161-166 | each row's ip and expiry in terms of the last insert that stored it and the expiries since; rows of earlier sessions stay expired |
| EndpointTable.LiveClosedForm | src/cache/DeskphoneCache.cpp:161-166 | for every log, a key is live at t iff its last storing insert expires after t and no later remove names its AoR and the ip bound for it |
| EndpointTable.LiveByOwnIp | src/cache/DeskphoneCache.cpp:103-112 | for a key whose endpoint has an ip field, that ip is its own third field, whatever other endpoints are in the log |
| EndpointTable.LiveIsJustified | src/cache/DeskphoneCache.cpp:83-93 | a live key was inserted in this session with an expiry after the time asked |
| EndpointTable.RowColumns | src/cache/DeskphoneCache.cpp:162-194 | the four fields of an endpoint go to IP version, transport, address and port in this order, the port as a number or as null |
| EndpointTable.RowsAreParsed | src/cache/DeskphoneCache.cpp:171-219 | a registered four-field endpoint is stored as the parse of itself, whatever was bound before and by whatever endpoints |
| EndpointTable.ReinsertOnlyMovesExpiry | src/cache/DeskphoneCache.cpp:162-166 | re-registering a stored four-field endpoint changes nothing in the table but that row's expiry, after any log |
| EndpointTable.ParsedExactly | src/cache/DeskphoneCache.cpp:171-194 | every log of a session that registers an endpoint stores it as its own parse iff the endpoint has four fields |
| EndpointTable.StalePort | src/cache/DeskphoneCache.cpp:171-219 | for every shorter endpoint, a log of two registrations after which it is not stored as its own parse |
| EndpointTable.StaleAddressExample | src/cache/DeskphoneCache.cpp:171-219 | a two-field endpoint is stored with the previous phone's address, and expiring that address takes it down |
| EndpointTable.ExpungeKeeps | src/cache/DeskphoneCache.cpp:28-33 | the rows left are exactly those that had not expired before now, as they were |
| EndpointTable.ExpungeExactly | src/cache/DeskphoneCache.cpp:28-33 | expunging at now changes no liveness answer for time t, on any table, iff t is not before now - 1 |
| EndpointTable.ExpungeExample | src/cache/DeskphoneCache.cpp:28-33 | a stored phone that an earlier read would find and that the expunge removes |
| CacheProtocol.StepKeepsInv | src/cache/DeskphoneCache.cpp:79-140 | every step of callers, writer and stop keeps the invariant tying the log, the queue, the batch in flight, the open transaction and the committed table |
| CacheProtocol.RunKeepsInv | src/cache/DeskphoneCache.cpp:200-236 | so does every run |
| CacheProtocol.WriteBehindRefinement | src/cache/DeskphoneCache.cpp:196-236 | in every reachable state the log is committed ++ in flight ++ queued, and readers see the fold of the committed batches over the all-expired table |
| CacheProtocol.SameLogSameAnswers | src/cache/DeskphoneCache.cpp:142-146 | two runs over the same stored table that committed the same operations, in whatever batches, answer every lookup alike |
| CacheProtocol.ReadIsJustified | src/cache/DeskphoneCache.cpp:83-93 | a lookup that finds a phone rests on a committed insert of the same key that outlives the time of the lookup |
| CacheProtocol.FirstAnswerIsNew | src/cache/DeskphoneCache.cpp:67-69 | a key not enqueued in this session is never answered as known |
| CacheProtocol.QuietAnswerIsExact | src/cache/DeskphoneCache.cpp:83-100 | with nothing queued or in flight, the answer is exactly the closed form of liveness over the whole log |
| CacheProtocol.LagKept | src/cache/DeskphoneCache.cpp:200-236 | any run keeps the count that puts a logged operation in flight within one commit and in the table within two |
| CacheProtocol.CommittedWithinTwo | src/cache/DeskphoneCache.cpp:200-236 | everything logged is committed, in its positions, once two more commits have happened |
| CacheProtocol.LogGrows | src/cache/DeskphoneCache.cpp:95-111 | along a run the log and the committed batches only grow, and a stop is final |
| CacheProtocol.StopEndsWriting | src/cache/DeskphoneCache.cpp:133-140 | after a stop at most one more batch is committed, and none once the writer is at its flag test |
| CacheProtocol.NoMoreSwaps | src/cache/DeskphoneCache.cpp:200-203 | with the flag down and the writer past its wait, no operation leaves the queue |
| CacheProtocol.LastSwap | src/cache/DeskphoneCache.cpp:200-203 | a writer that was waiting when the flag went down takes the whole queue once more |
| CacheProtocol.SurvivesStopExactly | src/cache/DeskphoneCache.cpp:133-140 | what was enqueued before a stop is committed iff nothing was queued or the writer was at its wait |
| CacheProtocol.LostWriteExample | src/cache/DeskphoneCache.cpp:200-236 | a run in which a write enqueued before the stop is never committed |
| CacheProtocol.CleanStop | src/cache/DeskphoneCache.cpp:20-38 | wherever stop lands, a finished writer leaves whole batches in the table, exactly the rest of the log queued, and the expunge hides nothing later |
| CacheProtocol.WrittenIsSteps | src/cache/DeskphoneCache.cpp:212-229 | the writer's loop over its batch is a run of row steps |
| Registrations.RunIsTraced | src/cache/DeskphoneCache.cpp:79-112 | in every run each enqueue has its own entry in the log, in order: a registration one with the time of its lookup plus the expiry, a manual expiry one with its AoR and ip |
| Registrations.KnownMeansRegistered | src/cache/DeskphoneCache.cpp:79-101 | in every run, a lookup at t that finds a phone rests on a committed registration of the same AoR and endpoint at some n with t < n + expiry |
| Registrations.RegistrationDecides | src/cache/DeskphoneCache.cpp:79-101 | a committed registration at n that no later registration of the phone and no manual expiry of its AoR and own ip has overtaken makes a lookup at t answer known iff t < n + expiry |
| Registrations.KnownExactly | src/cache/DeskphoneCache.cpp:79-112 | for an endpoint with an ip field, what a lookup answers, as an equivalence over the calls made |
| Registrations.CommittedAfterTwo | src/cache/DeskphoneCache.cpp:200-236 | two commits after it was enqueued a registration counts as committed |
| WriterWait.WaitRefines | src/cache/DeskphoneCache.cpp:200-204 | with the wait taken apart into test, block and wake-up, every run is still a run of the protocol |
| WriterWait.FinishExactly | src/cache/DeskphoneCache.cpp:200-236 | with the flag down and nobody else acting, the writer exits iff it is not asleep or about to fall asleep |
| WriterWait.StopExactly | src/cache/DeskphoneCache.cpp:133-140 | after stop's notification the writer exits iff it was not then between a test that found nothing to do and its block; otherwise it sleeps with the flag down |
| WriterWait.SleepsOn | src/cache/DeskphoneCache.cpp:133-140 | a writer that slept through a stop stays asleep until an enqueue or a spurious wake-up |
| WriterWait.LostWakeUpExample | src/cache/DeskphoneCache.cpp:133-140 | a run in which stop's notification is lost |
| DeskphoneCache.Cache.constructor | src/cache/DeskphoneCache.cpp:47-70 | a session starts with every stored row expired, nothing queued and blank parameters |
| DeskphoneCache.Cache.Create | src/cache/DeskphoneCache.cpp:40-45 | the expiry is the configured one, but never shorter than an hour |
| DeskphoneCache.Cache.CheckEndpoint | src/cache/DeskphoneCache.cpp:83-93 | the lookup half of addEndpoint is the protocol's read step |
| DeskphoneCache.Cache.EnqueueEndpoint | src/cache/DeskphoneCache.cpp:95-100 | the locked half is the protocol's enqueue step: it queues the registration with the time of its lookup plus the expiry, and the answer is the negation of what the lookup found |
| DeskphoneCache.Cache.DeleteEndpoint | src/cache/DeskphoneCache.cpp:103-112 | a manual expiry is the protocol's enqueue of a remove |
| DeskphoneCache.Cache.ForEachAor | src/cache/DeskphoneCache.cpp:114-123 | visits exactly the AoRs that have a live endpoint, each once |
| DeskphoneCache.Cache.TestRunFlag | src/cache/DeskphoneCache.cpp:200 | the loop condition is the protocol's flag test |
| DeskphoneCache.Cache.SwapBatch | src/cache/DeskphoneCache.cpp:201-209 | the wake-up is the protocol's swap |
| DeskphoneCache.Cache.BindFields | src/cache/DeskphoneCache.cpp:168-194 | filling the parameters in place refines the pure parse; parameters beyond the endpoint's fields are untouched |
| DeskphoneCache.Cache.ExecuteInsert | src/cache/DeskphoneCache.cpp:213-221 | binding and executing one insert is the fold's step on parameters and table |
| DeskphoneCache.Cache.WriteRows | src/cache/DeskphoneCache.cpp:211-229 | the loop leaves the state that `WrittenIsSteps` reaches row by row |
| DeskphoneCache.Cache.CommitBatch | src/cache/DeskphoneCache.cpp:230-235 | the commit is the protocol's commit: readers now see the transaction's table |
| DeskphoneCache.Cache.ServiceTurn | src/cache/DeskphoneCache.cpp:199-236 | an undisturbed turn commits exactly the fold of the queue and empties it |
| DeskphoneCache.Cache.ClearRunFlag | src/cache/DeskphoneCache.cpp:133-140 | stopping is the protocol's stop step |
| DeskphoneCache.Cache.ExpungeExpired | src/cache/DeskphoneCache.cpp:28-33 | the destructor's delete changes no liveness answer at any later time |
| Rendering.ItemText | src/bridge/yealink/PhoneUi.cpp:34-73 | the text of a button's item, letter by letter: line, colour, and off, on, slowflash or fastflash by its state and flash mode |
| Rendering.UriDecodes | src/bridge/yealink/PhoneUi.cpp:112-113 | the URI text of an item decodes to its line, colour and displayed state |
| Rendering.UriInjective | src/bridge/yealink/PhoneUi.cpp:112-113 | items with the same URI are the same item |
| Rendering.BeepExactly | src/bridge/yealink/PhoneUi.cpp:131-138 | a document beeps iff the seed says so, or some lit button is critical when on, or some dark one when off |
| Rendering.RenderingShows | src/bridge/yealink/PhoneUi.cpp:120-141 | rendering the buttons in any order gives one item a button, and the flag is the disjunction of their critical states |
| Rendering.ShowsNothingElse | src/bridge/yealink/PhoneUi.cpp:131-137 | a rendering holds no other item and no item twice |
| Rendering.OrderIrrelevant | src/button_state/ButtonPlan.cpp:44-51 | the visiting order of the unordered map changes neither the items nor the flag |
| Rendering.ShowsDecodes | src/bridge/yealink/PhoneUi.cpp:131-138 | reading a document's URIs back gives the lamp of a button each time and the lamp of every button |
| LampField.CreateYealinkXml | src/bridge/yealink/PhoneUi.cpp:120-141 | one item a button in order, whose text names the button's line, colour and displayed state; the flag is set iff the seed is or a button is critical in its state |
| LampField.CreateYealinkXmlSingle | src/bridge/yealink/PhoneUi.cpp:99-118 | the same for one button, and equal to the list renderer on a singleton |
| LampField.PhoneButton.Clone | src/button_state/PhoneButton.cpp:33-37 | a fresh button with the same state and no plan |
| LampField.PhoneButton.SetOn | src/button_state/PhoneButton.cpp:98-103 | nothing happens and nothing is sent unless the state changes, then one invalidation with the new state, counted both by the plan and by this button |
| LampField.PhoneButton.TriggerLampFieldUpdate | src/button_state/PhoneButton.cpp:110-115 | one invalidation of the plan, and nothing for a button without one |
| LampField.PhoneUI.Update | src/bridge/PhoneUi.cpp:42-50 | the cache becomes the rendering of the buttons given |
| LampField.PhoneUI.GetAors | src/bridge/PhoneUi.cpp:87-92 | lists every AoR once |
| LampField.ButtonPlan.Create | src/button_state/ButtonPlan.cpp:18-31 | a fresh plan of exactly the configured buttons, all dark and with no UI |
| LampField.ConfiguredExactly | src/button_state/ButtonPlan.cpp:24-28 | of two buttons configured with one id the first is kept, every other is there, and each is at its own id |
| LampField.ButtonPlan.GetButtons | src/button_state/ButtonPlan.cpp:44-51 | a listing whose rendering shows exactly the plan's buttons |
| LampField.ButtonPlan.Push | src/button_state/ButtonPlan.cpp:70-75 | sends the cached document once to each AoR of the UI |
| LampField.ButtonPlan.RefreshAll | src/button_state/ButtonPlan.cpp:65-76 | the loop leaves every UI with the new rendering, and each UI's messages are its own complete push |
| LampField.ButtonPlan.Invalidate | src/button_state/ButtonPlan.cpp:60-77 | makes the plan coherent with its buttons, and sends the new document once to each AoR of each UI and nothing else |
| LampField.ButtonPlan.RegisterUi | src/button_state/ButtonPlan.cpp:79-87 | a UI that is new to the plan starts with a rendering of the current buttons, a known one is left alone, and a coherent plan stays coherent |
| LampField.ButtonPlan.AddButton | src/button_state/ButtonPlan.cpp:101-110 | adds a button unless its place is taken; the plan's new value is `WithButton` of the old one, with every UI cache as it was |
| LampField.ButtonPlan.RemoveButton | src/button_state/ButtonPlan.cpp:38-42 | removes a button; the plan's new value is `WithoutButton` of the old one, with every UI cache as it was |
| LampField.ButtonPlan.GetPhoneUis | src/button_state/ButtonPlan.cpp:89-99 | exactly the UIs that list the AoR, each once |
| LampField.AddButtonExactly | src/button_state/ButtonPlan.cpp:101-110 | adding a button keeps a plan coherent iff no UI is registered |
| LampField.RemoveButtonExactly | src/button_state/ButtonPlan.cpp:38-42 | removing a button keeps a plan coherent iff no UI is registered or the button was not there |
| LampField.StaleAfterAdd | src/button_state/ButtonPlan.cpp:101-110 | a plan with one UI that is no longer coherent after a button was added |
| LampField.StaleAfterRemove | src/button_state/ButtonPlan.cpp:38-42 | a plan with one UI that is no longer coherent after a button was removed |
| LampField.PushStep | src/button_state/ButtonPlan.cpp:70-75 | one UI's notifications leave the message sequences of the others as they were |
| ParallelInvalidate.RunKeepsInv | src/button_state/ButtonPlan.cpp:65-76 | under any schedule, what a task has done depends on its own steps alone |
| ParallelInvalidate.AlwaysCompletes | src/button_state/ButtonPlan.cpp:65-76 | wherever a schedule has got to, it can be carried on until all tasks are done |
| ParallelInvalidate.AnySchedule | src/button_state/ButtonPlan.cpp:65-76 | every complete schedule leaves every cache at the new rendering and each UI with its own fixed message sequence |
| ParallelInvalidate.SchedulesAgree | src/button_state/ButtonPlan.cpp:65-76 | any two complete schedules agree on caches and on each UI's messages |
| ParallelInvalidate.AnyScheduleInvalidates | src/button_state/ButtonPlan.cpp:60-77 | every complete schedule meets the contract of the sequential loop |
| LampEvents.OthersAreIgnored | src/asterisk/ParkEventHandler.cpp:91-102 | an event of another type, or on a hint that is not the handler's, leaves parked set, lamp and count as they were, for the night handler too |
| LampEvents.OnlyHeardMatters | src/asterisk/NightEventHandler.cpp:54-65 | over any events a handler ends where the ExtensionStatus events on its own hints alone would take it |
| LampEvents.ParkedExactly | src/asterisk/ParkEventHandler.cpp:91-114 | after any events, an extension is in the parked set iff its latest ExtensionStatus on one of the hints, among those with status 0 and 1, had status 1 |
| LampEvents.ParkLampExactly | src/asterisk/ParkEventHandler.cpp:104-123 | the park lamp is on iff the latest report of some extension among free and in use was in use |
| LampEvents.NightLampExactly | src/asterisk/NightEventHandler.cpp:52-80 | the night lamp is on iff the latest ExtensionStatus on its hint, among those with status 0 and 1, had status 1 |
| LampEvents.PushesAreFlips | src/button_state/PhoneButton.cpp:98-103 | over any events, a handler triggers one invalidation for each event that switches its lamp and for no other |
| LampEvents.ParkEventHandler.AmiEventHandler | src/asterisk/ParkEventHandler.cpp:91-123 | one event moves parked set, lamp and the button's own invalidation count by the step those lemmas speak of; the plan counts the same, and follows the lamp |
| LampEvents.NightEventHandler.AmiEventHandler | src/asterisk/NightEventHandler.cpp:52-81 | one event moves lamp and invalidation count by the step those lemmas speak of; the plan counts the same, and follows the lamp |
| EventDispatch.TotalIsFlips | src/button_state/PhoneButton.cpp:98-103 | the invalidations of several handlers over a run add up to the lamp switches of all of them |
| EventDispatch.Dispatcher.Call | src/asterisk/NightEventHandler.cpp:19-20 | one handler's callback moves its own state by its step, no other handler's, and the plan's count by what it triggered |
| EventDispatch.Dispatcher.DeliverAll | src/ConfigFileParser.cpp:232-256 | over any events delivered to all handlers of a plan, each ends where its own reading takes it, the plan was invalidated once for each lamp switch of each button and not once more, and a coherent plan stays coherent |
| LampEvents.NightButton.PushButton | src/bridge/NightButton.cpp:40-55 | answers with the toggled button's document, posts INUSE or NOT_INUSE accordingly, once; button, plan and caches are untouched |
| LampEvents.OnlyItem | src/bridge/yealink/PhoneUi.cpp:131-137 | in a coherent UI the only item for a line is that of its button |
| LampEvents.EchoConfirmsPush | src/bridge/yealink/NightButton.cpp:23-30 | after the echo, the item for the button in every UI cache is exactly the one the phone was already given |
| RegisterEvents.SentForOne | src/asterisk/RegisterEventHandler.cpp:68-84 | a UI's publication adds its own messages and changes no other UI's |
| RegisterEvents.RegisterEventHandler.PublishPlan | src/asterisk/RegisterEventHandler.cpp:68-84 | each UI of one plan sends its cached document once if it lists the AoR and the phone is new or the document critical, and nothing otherwise |
| RegisterEvents.RegisterEventHandler.PublishPhoneState | src/asterisk/RegisterEventHandler.cpp:63-86 | the same over all plans, each UI once, and nothing is sent by anyone else |
| RegisterEvents.RegisterEventHandler.AmiEventHandler | src/asterisk/RegisterEventHandler.cpp:43-61 | only a successful PJSIP authentication does anything: a read and an enqueue of the cache, and the publication its answer calls for |
| EndToEnd.AuthCallback | src/asterisk/RegisterEventHandler.cpp:43-86 | what that handler promises for one event is three steps of a run of the whole system |
| EndToEnd.LastToExactly | src/asterisk/RegisterEventHandler.cpp:77-83 | what "last sent" means: sent, and no later message by that UI to that AoR |
| EndToEnd.AuthedExactly | src/asterisk/RegisterEventHandler.cpp:43-61 | the AoRs counted as authenticated are those that a step of the run has published to |
| EndToEnd.WhoIsTold | src/asterisk/RegisterEventHandler.cpp:68-84 | in every run, a UI that lists the authenticated AoR sends it exactly its current document iff the phone is new or some button of the plan is on and critical when on, or off and critical when off |
| EndToEnd.LastToFromUi | src/asterisk/RegisterEventHandler.cpp:68-84 | what a UI sent last to an AoR depends on its own messages alone |
| EndToEnd.KnownWasHandled | src/cache/DeskphoneCache.cpp:83-100 | a phone answered as known has an AoR that was published to earlier in the session |
| EndToEnd.NextKeepsInv | src/asterisk/RegisterEventHandler.cpp:43-86 | every step of the system keeps all authenticated AoRs up to date |
| EndToEnd.RunKeepsInv | src/asterisk/RegisterEventHandler.cpp:43-86 | so does every run |
| EndToEnd.PhonesShowCurrentLamps | src/button_state/ButtonPlan.cpp:60-77 | in every run, what each UI last sent to an authenticated AoR that it lists holds exactly the current items of its plan's buttons, each once and spelled as the phone reads it, and beeps iff some button is critical in its current state |
| StartUp.CreatePhonePlan | src/ConfigFileParser.cpp:397-434 | a phone gets a coherent plan of its configured buttons with its own UI |
| StartUp.CreatePhonePlans | src/ConfigFileParser.cpp:409-443 | so does every phone, and no two plans share a UI |
| StartUp.ReadyIsStarted | src/ConfigFileParser.cpp:409-443 | such plans are coherent, keyed and disjoint, as the runs require of their start |
| StartUp.CreateRegisterEventHandler | src/ConfigFileParser.cpp:446-458 | with a cache that has just been opened, what start-up leaves behind is a start of the runs of the whole program |
| Matcher.CreateSymbolMap | src/match/SymbolMap.cpp:15-27 | a symbol maps to the key of its first mapping, and to nothing when it has none |
| Matcher.MatchesCompare | include/match/JsonExpressionMatcher.hpp:76-89 | a comparison holds iff both operands have values in the document and the relation holds of them |
| Matcher.SymbolAgainstLiteral | src/match/SymbolMap.cpp:29-36 | a symbol is read under the key it is mapped to, or under itself when it is not mapped, for every relation and operand order |
| Matcher.MatchesBoth | include/match/JsonExpressionMatcher.hpp:76-89 | a conjunction matches iff both parts do |
| Matcher.MatchesEither | include/match/JsonExpressionMatcher.hpp:76-89 | a disjunction matches iff one part does and every symbol of both has a key |
| Matcher.MatchesNot | include/match/JsonExpressionMatcher.hpp:56-89 | a negation matches iff the part does not and every symbol has a key; a syntax error matches nothing |
| Matcher.OnlyMappedKeysMatter | include/match/JsonExpressionMatcher.hpp:76-89 | documents that agree on the mapped keys of the expression's symbols get the same answer |
| Matcher.ResolveExactly | include/match/JsonUnknownSymbolResolver.hpp:52-69 | the parser gets to the end iff every symbol was known before or has a key in this document, and then knows exactly those |
| Matcher.ExpressionMatcher.Process | include/match/JsonUnknownSymbolResolver.hpp:52-69 | gives the symbol its document value in a variable that both tables share, or refuses and changes nothing |
| Matcher.ExpressionMatcher.Evaluate | include/match/JsonExpressionMatcher.hpp:76-89 | on a compiled expression, the answer is the stateless meaning, in whatever order the variables are overwritten |
| Matcher.ExpressionMatcher.Compile | include/match/JsonExpressionMatcher.hpp:56-69 | the answer is the stateless meaning, and the tables and the flag are what one parser pass leaves, failed or not |
| Matcher.ExpressionMatcher.IsMatch | include/match/JsonExpressionMatcher.hpp:42-45 | from every state that documents can leave behind, the answer is the stateless meaning on this document; a compiled expression is never compiled again |
| Providers.CreateMatcher | src/bridge/provider/PjsipWizardProvider.cpp:17-23 | the configured mappings, the first for each symbol, are the matcher's symbol map |
| Providers.AnswerAll | src/bridge/provider/PjsipWizardProvider.cpp:17-31 | from a configuration, on every document of a file: a symbol compared with a literal matches iff the document has that value under the symbol's first mapped key, or under the symbol when it has none |
| Providers.GetCompatibleAors | src/bridge/provider/PjsipWizardProvider.cpp:26-42 | with one matcher for the whole file, exactly the values under "endpoint/auth" of the matching documents |
| Providers.OrderOfDocsIrrelevant | src/bridge/provider/PjsipWizardProvider.cpp:26-42 | the set is the same for every order and repetition of the documents |
| Providers.GetCallerDetails | src/phonebook/provider/PjsipWizardProvider.cpp:28-50 | the loop computes the entries that the next two lemmas describe |
| Providers.EntryExactly | src/phonebook/provider/PjsipWizardProvider.cpp:32-46 | a document yields an entry iff it matches and has a caller ID that is not empty, and the quoted text is the name, the bracketed one the number |
| Providers.PositionsExactly | src/phonebook/provider/PjsipWizardProvider.cpp:32-41 | the documents that yield an entry are exactly those that match and have a caller ID, in increasing positions |
| Providers.EntriesInFileOrder | src/phonebook/provider/PjsipWizardProvider.cpp:41-49 | the entries are those of these documents in file order: nothing dropped, added or reordered |
| CallerId.TryAtExactly | src/phonebook/provider/PjsipWizardProvider.cpp:43-45 | at one position the captures are unique, and the scan finds them iff the pattern matches there |
| CallerId.ExtractIsLeftmost | src/phonebook/provider/PjsipWizardProvider.cpp:42-46 | the captures are those of the leftmost match, and both are empty when nothing matches |
| CallerId.FormatExtractExactly | src/phonebook/provider/PjsipWizardProvider.cpp:42-46 | a formatted caller ID is read back iff the name has no quote and the number is digits |
| CallerId.WrittenOut | src/phonebook/provider/PjsipWizardProvider.cpp:42-46 | the quoted name and the number in angle brackets are the first and the second capture |
| CallerId.QuotedNameExample | src/phonebook/provider/PjsipWizardProvider.cpp:42-46 | a name with a quote in it comes back as what follows the quote |
| ParkingHints.AddHints | src/asterisk/ParkEventHandler.cpp:153-157 | the loop adds exactly the hints of the range |
| ParkingHints.GetParkingHints | src/asterisk/ParkEventHandler.cpp:125-163 | the loop over the sections computes what `CollectedExactly` describes; a refused request gives no hints |
| ParkingHints.CollectedExactly | src/asterisk/ParkEventHandler.cpp:136-161 | the hints are those of all sections that have the lot; the first section that cannot be read decides the exception |
| ParkingHints.HintInjective | src/asterisk/ParkEventHandler.cpp:154 | different extensions or contexts never share a hint |
| ParkingHints.HintCount | src/asterisk/ParkEventHandler.cpp:153-157 | a range has one hint per extension |
| ParkingHints.HintSetExactly | src/asterisk/ParkEventHandler.cpp:153-157 | the hint texts of a range are exactly "park:", a number of the range, "@" and the context |
| ParkingHints.RangeOfNumberExactly | src/asterisk/ParkEventHandler.cpp:145-151 | a number on its own is a range of one extension iff it has no sign |
| ParkingHints.RangeOfNegative | src/asterisk/ParkEventHandler.cpp:145-151 | a signed first number -n is read as the range from -n to n, or is out of range |
| ParkingHints.PlainDash | src/asterisk/ParkEventHandler.cpp:145-151 | after a plain number and a dash, what follows the dash is the end, or decides the exception |
| ParkingHints.RangeRefusals | src/asterisk/ParkEventHandler.cpp:145-151 | ranges without a number before or after the dash, and numbers beyond 32 bits, are refused with the fitting exception |
| ParkingHints.RangeOfPairExactly | src/asterisk/ParkEventHandler.cpp:145-151 | "a-b" is read back as a to b iff a has no sign or b is its opposite |
| ParkingHints.SignedRangeExample | src/asterisk/ParkEventHandler.cpp:145-151 | the range printed "-1-2" is read as -1 to 1 |
| ParkingHints.HintsOfLotExactly | src/asterisk/ParkEventHandler.cpp:143-158 | a lot configured "a-b" gets exactly the hints of a to b iff, further, b is not the largest int |
| PhonebookTtl.Phonebook.constructor | src/phonebook/Phonebook.cpp:18-31 | the time to live is the configured one, but never shorter than two hours |
| PhonebookTtl.Phonebook.GetPhonebook | src/phonebook/Phonebook.cpp:33-45 | one call is the step that the next lemmas are about |
| PhonebookTtl.AnswersAreFresh | src/phonebook/Phonebook.cpp:39-44 | every answer is the text of the latest refresh, completed at most one time to live before the clock was read |
| PhonebookTtl.RefreshesAreApart | src/phonebook/Phonebook.cpp:39-43 | refreshes are more than one time to live apart |
| PhonebookTtl.RefreshRate | src/phonebook/Phonebook.cpp:39-43 | a window of width W holds at most W / time-to-live + 1 refreshes |

## Left out

- Fairness of the thread scheduler: it is proved which stops leave a writer that can go on to its exit, not that it is given the time to.
- SQLite itself (journal, busy time-outs, connection pool, lifetime of bound text): a committed snapshot, a transaction table and a parameter array stand for it.
- The AMI connection, HTTP server, routing, signals, logging and configuration parsing (`src/main.cpp`, most of `src/ConfigFileParser.cpp`): of start-up only the wiring of plans, UIs and the registration handler is modelled, without its exits on duplicate names.
- XML bytes and escaping, and the memo of the serialised text: a document is its items and its Beep flag.
- exprtk's lexer, numbers, constants, further string operators and case-insensitive names: an expression is a tree over string variables with equality, inequality and substring tests; symbol names are taken as distinct and not as constants. Text with a syntax error is the sequence of symbols met before the error.
- YAML documents that are not maps from keys to scalars, and mappings without a symbol or a key, which the library reports by exceptions.
- The yealink park button, the snom and yealink phonebook writers, factories, schemas, `toColor` and `toFlashMode`: straight-line formatting or dispatch.
- The commented-out parked-call handling of `src/asterisk/ParkEventHandler.cpp`.
- The plan's map of event handlers and `getButton`: plain insert and lookup; `EventDispatch` takes the handlers of a plan as a list.
- Two lamp events in flight at once on one plan: callbacks are one at a time; the parallelism inside an invalidation is modelled.
- Wrap-around of 64-bit times for extreme configured expiries.
- LampField.ButtonPlan.Invalidate: runs its tasks one after another; that any interleaving does the same is proved on values in `ParallelInvalidate`.
- Matcher.ExpressionMatcher.Evaluate: the compiled expression reads its variables through the symbol table and not through references held in the tree; the table's entries never change once made.
