# Verified models of the SCP firmware

This project models the event-driven core of the SCP firmware in Dafny and proves what its protocols and data
structures promise. `dafny verify dfyconfig.toml` checks all of it.

- **Clock tree** (`ClockTree*.dfy`, `ClockModule.dfy`, `ClockRate.dfy`). A request to run a clock climbs to its first
  running ancestor, replies come back down and start one clock each, and STOP messages climb when a reference count
  reaches zero. `ClockTree` specifies what one event does, branch by branch, for drivers that may answer anything.
  `ClockTreeInvariant` states what holds with messages in flight, and `ClockTreeRequests` what a request starts from.
  `ClockTreeSteps` follows the events of a start, and `ClockTreeStops` those of a STOP message, whatever the drivers
  refuse; `ClockTreeRefusals` says what refusals leave behind. `ClockTreeCalls` foresees the driver calls of a request
  from the state it is made in and what the drivers answer. `ClockTreeFlights` joins all this into one invariant of a
  request, with a measure that goes down and the calls made and still to come adding up to those foreseen.
  `ClockTreeHolds` says which clocks run between requests. `ClockTreeTheorems` draws the conclusions for whole requests,
  `ClockTreeRuns` for sequences of them, and `ClockTreeLosses` says which requests are never answered. `ClockModule` is
  the code of the module over its table of clock contexts. `ClockRate` does the same for the propagation of rates.
- **Event core** (`FwkEvent.dfy`, `FwkEventTheorems.dfy`, `FwkCookies.dfy`, `FwkCookieRuns.dfy`,
  `FwkDelayedTheorems.dfy`, `FwkPuts.dfy`, `FwkCore.dfy`). Slots of a fixed event table move between the free list, the
  event queue, the queue of events raised by interrupts, and the lists of delayed responses. Handlers are arbitrary finite
  sequences of puts, and interrupts may act between any two of them. The order of events, the cookies by which delayed
  responses are found again, and the way of a delayed response are followed over every run. `FwkPuts` spells out every
  field of what a put or a handled event leaves.
- **Intrusive lists and pools** (`Circle.dfy`, `SList.dfy`, `DList.dfy`, `Pool.dfy`). The singly- and doubly-linked
  circular lists are classes over heap nodes and refine a sequence; a pool is a fixed table of records of which every one
  is in one list.
- **Module start** (`Lifecycle.dfy`). Initialisation, two rounds of binding, and starting, with modules that may ask for
  any API at any time.
- **Notifications** (`Notification.dfy`). Subscription records in a pool; sending puts one event per subscriber into the
  event core.
- **Byte ring and buffered log** (`Ring.dfy`, `Log.dfy`). An overwriting ring that copies in two pieces, and a stream of
  length-framed messages on it, drained one character at a time into a device that may be busy or fail.
- **Address translation** (`Atu.dfy`, `AtuMmio.dfy`). Allocation, ownership and translation of regions, and the window
  cache for memory-mapped access on top.
- **Clock source rates** (`Ccsm.dfy`) and **command line** (`Cli.dfy`, `CliSplit.dfy`): rounding and rate selection, the
  bounded number printer, and the in-place argument splitter.

Code that updates state is modelled by classes and methods whose contracts equate the new state with a function of the
old one, or state the promised property outright; the properties of those functions are lemmas.

Where the code does not do what its documentation or its callers expect, it is kept as it is and the condition is
proved:

- A clock request for a state other than RUNNING and STOPPED is answered only if the first query fails, with
  a status other than PENDING (`AnsweredExactlyForValidStates`).
- A clock driver that answers a query with PENDING, or a transition with PENDING or E_SUPPORT, makes the code drop the
  request: it is never answered and its clock refuses every later one (`SetStateAnswered`; `UnsupportedStartWedges` and
  `UnsupportedStopWedges` are such inputs). Dropped at a higher clock, a STOP message is forgotten silently.
- A clock that gives back its last reference asks its parent to stop even if its own driver refused, so a running clock
  may lose its parent and is left without a reference. This is also how the roll-back of a failed start goes wrong
  (`StopsRefused`, `SafeAtEveryEvent`, `FailedStartRollsBack`).
- Connecting the clock tree counts the running children of a clock but not the clock itself
  (`ConnectedExactlyWhenStopped`).
- Two delayed responses may carry the same cookie, because a light request keeps the cookie its slot had before, and
  because the counter wraps (`PutKeepsDistinct`, `LightEventsShareCookies`, `WrapSharesCookie`).
- A response that a handler delays is lost exactly when no event slot is free (`DelayStoresExactly`).
- An API that a module asks for in its own initialisation is handed out in the name of the element initialised last
  (`BindApi`).
- The length byte of a buffered log message covers it only up to 255 bytes, and breaks the stream when it is 0
  (`FramedExactlyWhenShort`, `LogCtx.Buffer`).
- The overlap check of translation regions misses a region that starts below an active one and reaches into it
  (`AddRegion`, `OverlapMissed`, `OverlapAccepted`), and mapping an active region is refused only after it is overwritten
  (`MapRegion`).
- An empty translation region at logical address 0 matches every page, because its end address wraps (`RegistersMatch`).
- The window cache takes block 0 for no block and wraps at the end of the address space (`MmioCtx.MapRegion`,
  `FalseHitWhen`).
- Rounding a rate to the nearest step, or up, goes wrong when rate plus step passes 2^64, and then a fallback rate may
  be selected that is above the nominal one (`NearestIsNearest`, `RoundedToZero`, `SelectRates`; `NearestMisses` and
  `FallbackExceeds` are such inputs).
- The search in the table of rates compares 64-bit rates through a 32-bit difference (`CompareExact`, `SearchFinds`;
  `SearchMistakes` are such inputs).

## Model

| member | source | states |
|---|---|---|
| ClockTreeRuns.WholeRun | module/clock/src/clock_tree_management.c:114-272 | over any run of permitted requests under any driver, with the queue drained in between: after each of them every request on a tree has exactly one response, in order, no clock is busy, and every reference count is the outstanding holds plus the running children, exactly when each request concludes, as can be told from its state and its driver before it is made |
| ClockTreeRuns.RunServedByCompliant | module/clock/src/clock_tree_management.c:114-272 | over any run of permitted requests, if drivers never answer so that the code drops a request, and stops and the queries before them succeed, all this holds after every request |
| ClockTreeTheorems.SetStateServed | module/clock/src/mod_clock.c:359-406 | a request on any clock of a tree, under any driver, ends within 3·depth+4 events and makes exactly the calls foreseen; it has one response carrying the first status a driver fails with, and leaves the tree settled with the holds accounted for, exactly when it concludes: of the calls foreseen none is answered so that the code drops the request, and those of its STOP message succeed, or a stop ends with its first query |
| ClockTreeTheorems.ServedByCompliant | module/clock/src/mod_clock.c:359-406 | all this holds if drivers never answer so that the code drops a request, and stops and the queries before them succeed |
| ClockTreeCalls.LogForeseen | module/clock/src/clock_tree_management.c:114-272 | the calls foreseen of a request have the statuses that the drivers answer; those of a start ask for RUNNING up to the first that fails, all others for STOPPED |
| ClockTreeCalls.TurnedCalls | module/clock/src/clock_tree_management.c:237-257 | the STOP message of a failed start goes as far as clocks did not run before the request |
| ClockTreeCalls.OneMoreReference | module/clock/src/clock_tree_management.c:148-176 | with one more hold on a clock, each clock from there up to the first that ran before has exactly one more reference |
| ClockTreeTheorems.SetStateAnswered | module/clock/src/mod_clock.c:359-406 | from the state and the driver: whether a request is answered and with which status; a start has no response exactly when the first of its calls that fails is a query answered PENDING or a transition answered PENDING or E_SUPPORT, a stop exactly when that happens at its own clock; the clock refuses every later request exactly when this one has no response |
| ClockTreeTheorems.FailedStartRollsBack | module/clock/src/clock_tree_management.c:237-265 | if starting any clock on the chain fails, the failing status is the response and all counts, driver states and contexts are as before, exactly when of the calls foreseen the failing one does not drop the request and the STOP message of the roll-back meets no failing driver; if none fails the whole chain runs |
| ClockTreeTheorems.RolledBackByCompliant | module/clock/src/clock_tree_management.c:237-265 | if drivers never answer so that the code drops a request, and stops and the queries before them succeed, every failed start is answered with its status and leaves every clock as it was |
| ClockTreeTheorems.SafeAtEveryEvent | module/clock/src/clock_tree_management.c:114-272 | after every single event of a request, under any driver, the calls made are the first of those foreseen, and each running clock has a running parent exactly when, of two clocks told to stop one above the other, the upper refused if the lower did |
| ClockTreeTheorems.SafeThroughout | module/clock/src/clock_tree_management.c:114-272 | each running clock has a running parent after all events of a request exactly when, among the calls foreseen, the upper of two neighbours told to stop refuses if the lower does |
| ClockTreeTheorems.SafeByObedient | module/clock/src/clock_tree_management.c:114-272 | if no driver refuses to stop, each running clock has a running parent after every event of a request |
| ClockTreeTheorems.StopsRefused | module/clock/src/clock_tree_management.c:178-209 | after a whole request, a stop or a start that may be rolled back, under any driver: the calls made are those foreseen, STOP messages went from clock to parent; each running clock has a running parent exactly when refusals reach up; the clocks left running with count 0 are exactly those that refused |
| ClockTreeHolds.RunningExactlyWhenHeld | module/clock/src/clock_tree_management.c:178-210 | between requests a clock of a tree runs exactly when a clock at or below it has a hold |
| ClockTreeHolds.HoldsDetermineTree | module/clock/src/clock_tree_management.c:148-215 | the holds alone determine which clocks run and all reference counts |
| ClockTreeHolds.ConnectedExactlyWhenStopped | module/clock/src/clock_tree_management.c:315-355 | the counts built from the drivers account for no holds exactly when every clock of a tree is stopped |
| ClockTreeTheorems.DrainStays | module/clock/src/clock_tree_management.c:114-272 | under any driver the invariant with messages in flight, and with the calls made and still to come adding up to those foreseen, holds after any number of events, and the request ends within its measure |
| ClockTreeLosses.InvalidStateWedges | module/clock/src/clock_tree_management.c:213-215 | a request with any other target state whose query succeeds or is pending is never answered and leaves the clock refusing every later request |
| ClockTreeLosses.InvalidStateAnswered | module/clock/src/clock_tree_management.c:143-146 | a request with any other target state whose query fails is answered with that failure, and the tree is settled |
| ClockTreeLosses.UnsupportedStartWedges | module/clock/src/clock_tree_management.c:154-165 | a stopped root whose driver answers E_SUPPORT: the request to run is never answered and the clock refuses every later one |
| ClockTreeLosses.UnsupportedStopWedges | module/clock/src/clock_tree_management.c:181-192 | the last reference given back to a driver that answers E_SUPPORT: no answer, and a busy clock that runs with count 0 |
| ClockTreeLosses.AnsweredExactlyForValidStates | module/clock/src/clock_tree_management.c:133-215 | from the state and the driver: a tree request is answered exactly when its target state is RUNNING or STOPPED and the code does not drop it, or it is another state and the first query fails with a status other than PENDING |
| ClockTreeStops.StepMessage | module/clock/src/clock_tree_management.c:133-210 | one STOP message under any driver: the query fails, the clock keeps other references, the code drops the message, or it goes on to the parent whatever the status; the message of a request to stop also decides its response |
| ClockTreeRefusals.SafeExactly | module/clock/src/clock_tree_management.c:178-209 | from the accounts of the clocks told to stop, at any event: the rule holds exactly when refusals reach up |
| ClockTreeRefusals.OrphanExactly | module/clock/src/clock_tree_management.c:178-209 | a clock of a tree runs with count 0 exactly when it was told to stop and refused |
| ClockTreeRefusals.AccountedExactly | module/clock/src/clock_tree_management.c:178-209 | once the STOP message is gone, the counts fit the holds without its reference exactly when every query and transition of it succeeded |
| ClockTreeRefusals.KidOnClimb | module/clock/src/clock_tree_management.c:178-209 | the only running child of a clock told to stop is the clock below it that was told to stop before |
| ClockTreeFlights.FlightStep | module/clock/src/clock_tree_management.c:114-272 | every event that can be in flight keeps the invariant, lowers the measure and makes the next of the calls foreseen, under any driver |
| ClockTreeSteps.StepClimb | module/clock/src/clock_tree_management.c:133-176 | a RUNNING request at an idle clock, for any driver: answered by a running clock or a root, passed on by any other, or dropped |
| ClockTreeSteps.StepDown | module/clock/src/clock_tree_management.c:221-265 | a reply of the parent, for any driver: the clock starts and goes on down, or fails and asks the parent to stop, or the request is dropped and the parent keeps its reference |
| ClockTreeStops.StepFailureDown | module/clock/src/clock_tree_management.c:221-265 | a failure reported down while a STOP message climbs: the clock passes it on and nothing else changes |
| ClockTreeSteps.StepRespond | module/clock/src/mod_clock.c:63-106 | the end of a transition sends the response that was kept back and empties the delayed-response list |
| ClockTreeSteps.StepDeliver | module/clock/src/mod_clock.c:63-106 | the response reaches the requester of the request |
| ClockTreeInvariant.CountsSafe | module/clock/src/clock_tree_management.c:148-215 | the account of the reference counts alone implies that a running clock has a running parent |
| ClockTreeInvariant.CountsStart | module/clock/src/clock_tree_management.c:237-249 | a clock that starts moves the reference its parent granted from the messages in flight to its running children |
| ClockTreeInvariant.CountsStop | module/clock/src/clock_tree_management.c:178-209 | a clock that stops turns from a running child into a STOP message in flight |
| ClockModule.ClockCtx.CompleteResponse | module/clock/src/clock_tree_management.c:58-93 | the code of the sub-routine meets its specification |
| ClockModule.ClockCtx.CompleteTransition | module/clock/src/clock_tree_management.c:95-112 | the driver call and its effect, with PENDING reported as unsupported |
| ClockModule.ClockCtx.ProcessStateEvent | module/clock/src/clock_tree_management.c:114-272 | the code of the handler meets the specification of one event; a clock that waits for its parent answers anybody else that it is busy, and nothing else changes |
| ClockModule.ClockCtx.RequestState | module/clock/src/mod_clock.c:359-406 | a clock that is part of a request is busy and nothing changes; a clock with neither parent nor children makes exactly one driver call and returns its status, runs as asked exactly on success, and has its request queued exactly if that is PENDING; a clock of a tree has its two events queued and calls no driver; no other clock changes |
| ClockTreeRuns.SingleForm | module/clock/src/mod_clock.c:379-394 | for a clock with neither parent nor children: the status of the request is that of the one driver call, the driver state changes exactly on success, and nothing else does unless the call is still to complete |
| ClockModule.ClockCtx.CreateAsyncRequest | module/clock/src/mod_clock.c:122-148 | the request event with the next cookie, and the busy mark of this clock only |
| ClockModule.ClockCtx.ProcessRequestEvent | module/clock/src/mod_clock.c:108-120 | the request's cookie is kept and its response delayed |
| ClockModule.ClockCtx.ProcessResponseEvent | module/clock/src/mod_clock.c:63-106 | the first delayed response with the kept cookie is sent to its requester and the busy mark cleared; a missing one changes nothing |
| ClockModule.ClockCtx.ProcessQueue | framework/src/fwk_core.c:310-321 | the queue is processed until it is empty |
| ClockModule.ClockCtx.ServeRequest | module/clock/src/mod_clock.c:359-406 | the code serves a whole request under any driver with the calls foreseen: one response with the first failing status and the tree settled exactly when the request concludes; every running clock has a running parent exactly when refusals reach up |
| ClockModule.ClockCtx.IsSingle | module/clock/src/clock_tree_management.c:308-312 | true exactly for a clock with neither parent nor children |
| ClockModule.ClockCtx.ConnectTree | module/clock/src/clock_tree_management.c:315-355 | builds the lists of children and counts the running children of every clock; the first failing query ends it with its status, PENDING as unsupported |
| ClockModule.ClockCtx.ConnectedTree | module/clock/src/clock_tree_management.c:315-355 | the lists hold every child once, in order, and every count is the number of running children |
| ClockRate.CalledOnce | module/clock/src/clock_tree_management.c:274-306 | among all driver calls that a rate event causes, each descendant reached appears exactly once, with the composition of the drivers above it, and no other clock at all; a clock is reached through clocks that follow and accept their rates and whose earlier siblings did not fail |
| ClockRate.HandleConserves | module/clock/src/clock_tree_management.c:291-304 | calls made plus calls promised by queued events stay the same over every event |
| ClockRate.RateCtx.ProcessRate | module/clock/src/clock_tree_management.c:274-306 | the loop over the children, ended by the first driver that fails: only the last call made may fail, and its status is returned, SUCCESS exactly when none fails |
| ClockRate.ProcessKidsEnds | module/clock/src/clock_tree_management.c:291-304 | the same of the specification |
| ClockRate.RateCtx.PropagateRate | module/clock/src/clock_tree_management.c:274-306 | whatever the drivers answer, the queue drains and the calls made are exactly the promised ones |
| FwkEventTheorems.RunOrdered | framework/src/fwk_core.c:310-321 | over every run: what entered the event queue is what was handled followed by what is queued; raised events keep their order; each enters the queue when everything before it is already handled |
| FwkCookies.RunUnique | framework/src/fwk_core.c:141-144 | over every run in which light events ask for no response and at most 2^32 cookies are given out, no two delayed responses or queued requests share a cookie |
| FwkCookies.PutKeepsDistinct | framework/src/fwk_core.c:86-144 | one put keeps those cookies distinct exactly when it is not a request entering a queue with a cookie that another one carries: the stale one of its slot if it is light, the counter otherwise |
| FwkCookies.InitialUnique | framework/src/fwk_core.c:290-308 | after initialisation the cookies are unique and given out from 0 |
| FwkDelayedTheorems.SendsOwnResponse | framework/src/fwk_core.c:117-134 | with distinct cookies, sending a delayed response moves exactly the entry of its own request, and a second sending is refused |
| FwkDelayedTheorems.DelayedResponseArrives | framework/src/fwk_core.c:212-238 | a response delayed by a handler is still there after any further run in which nobody else sends its cookie and light events ask for no response, and then goes from the target of the request to its source, with its identifier, the sender's parameters and the next cookie |
| FwkDelayedTheorems.RunStores | framework/src/fwk_delayed_resp.c:56-78 | a delayed response stays stored as long as its cookie is not sent |
| FwkCookieRuns.LightEventsShareCookies | framework/src/fwk_core.c:86-93 | a run from initialisation with two light requests after which two delayed responses share a cookie |
| FwkCookieRuns.WrapSharesCookie | framework/src/fwk_core.c:141-144 | a run from initialisation, of standard events only, in which the put after 2^32 others carries the cookie of a response delayed since the first |
| FwkEventTheorems.InitialGood | framework/src/fwk_core.c:290-308 | the state after initialisation is ordered |
| FwkEventTheorems.NextOrdered | framework/src/fwk_core.c:188-284 | every step keeps the order |
| FwkCookies.NextUnique | framework/src/fwk_core.c:104-177 | every step in which light events ask for no response keeps the cookies unique |
| FwkDelayedTheorems.DelayStores | framework/src/fwk_core.c:226-238 | if a slot is free when the handler returns, a delayed response to the requester, with the identifier and cookie of the request and the parameters of the handler, is stored with those of the target |
| FwkDelayedTheorems.DelayStoresExactly | framework/src/fwk_core.c:226-238 | with unique cookies a delayed response is stored exactly when a slot is free when the handler returns; otherwise it is lost |
| FwkEvent.Find | framework/src/fwk_delayed_resp.c:56-78 | the first entry with the cookie |
| FwkEvent.NextKnown | framework/src/fwk_core.c:188-284 | every step leaves only events between valid entities in the queues and no event current |
| FwkEvent.ActsKnown | framework/src/fwk_core.c:104-177 | puts during a handler neither start nor end an event |
| FwkCore.FwkCtx.constructor | framework/src/fwk_core.c:290-308 | all slots are free and every one is in the free list once |
| FwkCore.FwkCtx.DuplicateEvent | framework/src/fwk_core.c:66-102 | a free slot with the event in it, or none when no slot is free; a light event leaves the slot's cookie |
| FwkCore.FwkCtx.PutEvent | framework/src/fwk_core.c:104-177 | the new state, the status and the cookie for delayed, standard and light events in either context |
| FwkCore.FwkCtx.Put | framework/src/fwk_core.c:340-406 | the code puts as specified, with the source, every field, the cookie and the status spelled out (`Puts`) |
| FwkPuts.PutExact | framework/src/fwk_core.c:79-177 | a put inside a handler comes from the entity that handles the event, elsewhere from a valid source or is refused; a standard event is queued with all its fields and the next cookie, a light one with those it has and the rest of its slot, a delayed one from the list with its cookie; without a slot or a delayed response nothing changes; exactly one place grows, by one event at its end |
| FwkCore.FwkCtx.SearchDelayedResponse | framework/src/fwk_delayed_resp.c:56-78 | finds the first delayed response with the cookie |
| FwkCore.FwkCtx.GetDelayedResponse | framework/src/fwk_delayed_resp.c:83-109 | succeeds exactly outside interrupts for a valid entity with such a response, and returns it |
| FwkCore.FwkCtx.ProcessNextEvent | framework/src/fwk_core.c:188-256 | one event, any run of its handler and of interrupts, its response and its release, with the response spelled out (`Responds`) |
| FwkPuts.ResponseQueued | framework/src/fwk_core.c:212-238 | the response to an event goes from its target back to its source, with its identifier, the parameters of the handler and the next cookie, at the end of the queue, exactly when it is asked for, not delayed and a slot is left; otherwise the queue has what the handler left |
| FwkCore.FwkCtx.ProcessIsr | framework/src/fwk_core.c:256-284 | moves the first raised event to the event queue |
| FwkCore.FwkCtx.ProcessEventQueue | framework/src/fwk_core.c:310-321 | performs a run of the event core that uses the handlers in order and ends with both queues empty |
| FwkCore.FwkCtx.Answer | framework/src/fwk_core.c:224-238 | the response of a handled event is put, or stored with the delayed ones |
| Pool.EverySlotOnce | framework/src/fwk_core.c:66-308 | in a partition every slot not in hand is in one list at one position |
| Pool.DroppedPartition | framework/src/fwk_core.c:66-102 | taking a slot out of its list keeps the partition |
| Pool.AppendedPartition | framework/src/fwk_core.c:179-186 | putting a slot in hand into a list keeps the partition |
| SList.List.PushHead | framework/src/fwk_slist.c:73-91 | prepends to the sequence |
| SList.List.PushTail | framework/src/fwk_slist.c:93-109 | appends to the sequence |
| SList.List.PopHead | framework/src/fwk_slist.c:111-134 | removes the first node and unlinks it, or returns null |
| SList.List.Next | framework/src/fwk_slist.c:136-146 | the following node, or null at the end |
| SList.List.Remove | framework/src/fwk_slist.c:148-177 | removes exactly the node, and changes nothing when it is not in the list |
| SList.List.Contains | framework/src/fwk_slist.c:179-200 | true exactly for the nodes of the sequence |
| SList.SplicedInLinked | framework/src/fwk_slist.c:73-109 | a circle with one node linked in represents the sequence with that node inserted |
| SList.SplicedOutLinked | framework/src/fwk_slist.c:111-177 | a circle with one node bridged over represents the sequence without it |
| DList.List.PushHead | framework/src/fwk_dlist.c:17-31 | prepends to the sequence |
| DList.List.PushTail | framework/src/fwk_dlist.c:33-46 | appends to the sequence |
| DList.List.PopHead | framework/src/fwk_dlist.c:48-64 | removes the first node and clears its links, or returns null |
| DList.List.Remove | framework/src/fwk_dlist.c:66-85 | removes exactly the node and clears its links |
| DList.List.Insert | framework/src/fwk_dlist.c:87-115 | inserts before the given node, or at the tail |
| DList.MutualInverses | framework/src/fwk_dlist.c:17-115 | around the circle, header included, next and prev undo each other |
| DList.LinksDetermineNodes | framework/src/fwk_dlist.c:17-115 | the links determine the sequence |
| DList.SplicedInLinked | framework/src/fwk_dlist.c:17-115 | a circle with one node linked in represents the sequence with that node inserted |
| DList.SplicedOutLinked | framework/src/fwk_dlist.c:48-85 | a circle with one node bridged over represents the sequence without it |
| Notification.SubscribeProper | framework/src/fwk_notification.c:180-230 | subscribing never puts a pair twice into a list, whatever it returns |
| Notification.UnsubscribeProper | framework/src/fwk_notification.c:232-272 | after unsubscribing the pair is in the list no more, and the lists stay free of duplicates |
| Notification.UnsubscribeUndoes | framework/src/fwk_notification.c:180-272 | unsubscribing right after subscribing restores every list |
| Notification.TargetsExact | framework/src/fwk_notification.c:125-148 | every subscriber of exactly the source gets one event and nobody else any, also when sub-elements share the list |
| Notification.SendAllQueues | framework/src/fwk_notification.c:119-149 | as many targets as there are free slots get their event, in subscription order with consecutive cookies, and are counted |
| Notification.NotificationCtx.constructor | framework/src/fwk_notification.c:155-169 | all records are unused and nothing is subscribed |
| Notification.NotificationCtx.Subscribe | framework/src/fwk_notification.c:180-230 | succeeds exactly outside interrupts, for valid and matching identifiers, a pair not in the list and a record unused; then the pair is at the end of its list and every other list is as before; each error has its cause, in the order of the checks, and changes nothing |
| Notification.SubscribeExact | framework/src/fwk_notification.c:180-230 | the same of the specification |
| Notification.NotificationCtx.Unsubscribe | framework/src/fwk_notification.c:232-272 | succeeds exactly outside interrupts, for valid and matching identifiers and a pair in the list; then only that pair leaves its list, and its record is unused again; each error has its cause and changes nothing |
| Notification.UnsubscribeExact | framework/src/fwk_notification.c:232-272 | the same of the specification |
| Notification.NotificationCtx.SearchSubscription | framework/src/fwk_notification.c:89-108 | the position of the pair in the list |
| Notification.NotificationCtx.Notify | framework/src/fwk_notification.c:274-317 | completes the source from the event being processed and checks it; then every event queued is a copy for a subscriber to exactly this source, none gets two, and everyone gets his as long as slots are left |
| Notification.SendReaches | framework/src/fwk_notification.c:119-149 | the same of the specification, for any list without duplicates |
| Ring.FwkRing.Push | framework/src/fwk_ring.c:117-167 | leaves the last capacity bytes of the old content and the data, for every position of head and tail |
| Ring.FwkRing.Peek | framework/src/fwk_ring.c:91-115 | copies the oldest bytes out and changes nothing |
| Ring.FwkRing.Pop | framework/src/fwk_ring.c:74-89 | returns the oldest bytes and drops them |
| Ring.FwkRing.GetLength | framework/src/fwk_ring.c:42-51 | the number of bytes held, full or not |
| Ring.FwkRing.GetFree | framework/src/fwk_ring.c:53-58 | the room left |
| Ring.FwkRing.IsFull | framework/src/fwk_ring.c:60-65 | true exactly when the capacity is used up |
| Ring.FwkRing.IsEmpty | framework/src/fwk_ring.c:67-72 | true exactly when nothing is held |
| Ring.PushFits | framework/src/fwk_ring.c:143-153 | without overwriting, split copies append the data |
| Ring.PushOverwrites | framework/src/fwk_ring.c:143-158 | with overwriting, split copies leave the trailing bytes |
| Ring.PeekHeld | framework/src/fwk_ring.c:104-112 | the split copy of a peek reads the oldest bytes |
| Ring.PopHeld | framework/src/fwk_ring.c:82-86 | advancing the head drops the oldest bytes |
| Ring.LastOfLast | framework/src/fwk_ring.c:131-139 | keeping only the trailing bytes of long data changes nothing |
| Log.LogCtx.Buffer | framework/src/fwk_log.c:67-85 | a message of any length is accepted exactly when its frame fits; a short one adds its text and then its terminator to what comes out; of any as much is queued as its length byte says, and the stream stays well-formed exactly when that is not 0 |
| Log.LogCtx.Printf | framework/src/fwk_log.c:220-236 | a message that does not fit is counted as dropped; a message of any length leaves the stream well-formed unless it is accepted with length byte 0 |
| Log.LogCtx.Unbuffer | framework/src/fwk_log.c:247-323 | with something pending, one character goes out or stays as the device answers; else dropped messages are reported; emitted plus pending bytes are always the accepted messages in order |
| Log.LogCtx.Flush | framework/src/fwk_log.c:325-339 | drains while pending; success means that everything accepted has come out |
| Log.FramedExactlyWhenShort | framework/src/fwk_log.c:69-82 | a message is framed with all its bytes exactly when text and terminator fit in 255 bytes, and framed at all exactly when they do not fill a multiple of 256 |
| Log.QueueOne | framework/src/fwk_log.c:81-82 | a frame behind the others keeps the stream consistent |
| Log.TakeFirst | framework/src/fwk_log.c:258-287 | reading a length byte makes the next message current |
| Atu.AtuDevice.constructor | module/atu/src/atu_manage.c:128-169 | a device with all registers clear has no region and no owner |
| Atu.AtuDevice.Configure | module/atu/src/atu_manage.c:176-197 | the configured regions take the slots from 0 on in order, up to the first that is refused |
| Atu.AtuDevice.ValidateRegion | module/atu/src/atu_manage_utils.c:266-321 | the loop that stops after the last active region rejects an aligned region exactly when its start lies in an active one |
| Atu.AtuDevice.GetAvailableRegionIdx | module/atu/src/atu_manage_utils.c:196-224 | the lowest clear bit, or an error when all are set |
| Atu.AtuDevice.ValidateAttributes | module/atu/src/atu_common.c:30-64 | accepts exactly the attributes without a reserved field and without AxNSE passed through |
| Atu.AtuDevice.MapRegion | module/atu/src/atu_manage_utils.c:323-370 | the table, the registers, the owner, the bit and the count of a mapped region; its page registers match exactly its addresses and hold its attributes; an index out of range changes nothing, and an active region is refused after it is overwritten |
| Atu.RegistersMatch | module/atu/src/atu_manage_utils.c:341-348 | the start and end page registers match exactly the addresses of the region; one that passes the end of the address space matches none, and an empty one none unless it starts at 0, where it matches every page |
| Atu.AtuDevice.Programmed | module/atu/src/atu_manage_utils.c:341-366 | the registers of every active region match its addresses and hold its attributes |
| Atu.AtuDevice.UnmapRegion | module/atu/src/atu_manage_utils.c:372-389 | the owner, the table entry, the bit and the count of an unmapped region; an inactive one stays as it is |
| Atu.AtuDevice.AddRegion | module/atu/src/atu_manage.c:52-94 | succeeds exactly when the region is acceptable and a slot is free, takes the lowest, and otherwise changes nothing; the count stays the number of set bits and the owner that of the region whose bit is set; disjoint regions stay disjoint exactly when the new one reaches into none from below |
| Atu.AddedDisjoint | module/atu/src/atu_manage_utils.c:165-193 | a region that passed validation keeps the active regions disjoint exactly when it reaches into none of them from below |
| Atu.OverlapAccepted | module/atu/src/atu_manage.c:52-94 | two regions that are both accepted and overlap |
| Atu.AtuDevice.RemoveRegion | module/atu/src/atu_manage.c:96-118 | only the owner of an active region removes it; otherwise nothing changes |
| Atu.AtuDevice.Translates | module/atu/src/atu_manage_utils.c:339-355 | the registers of an active region translate exactly its own addresses, to those at the same distance from its physical base |
| Atu.TranslationExact | module/atu/src/atu_manage_utils.c:339-355 | page number plus add value modulo 2^64 is the physical page, also when it is below the logical one |
| Atu.OverlapMissed | module/atu/src/atu_manage_utils.c:165-193 | the overlaps not found are exactly those of a region that starts below an active one and reaches into it |
| AtuMmio.MmioCtx.MapRegion | module/atu_mmio/src/mod_atu_mmio.c:94-149 | the returned address lies in the window, and the registers match and translate it to the requested one exactly when the cache made no false claim; a claimed access changes no region, and any other maps the block around it; the module can serve any later access unless a miss asked for block 0 |
| AtuMmio.FalseHitWhen | module/atu_mmio/src/mod_atu_mmio.c:86-91 | the cache claims a block it does not hold exactly for small addresses before anything is mapped and for the last bytes of the address space |
| AtuMmio.AccessInBlock | module/atu_mmio/src/mod_atu_mmio.c:123-128 | a naturally aligned access lies in the aligned block around its address |
| AtuMmio.MmioCtx.InstalledReaches | module/atu_mmio/src/mod_atu_mmio.c:146-148 | with a block installed, the computed address reaches exactly the accesses inside it |
| Ccsm.NearestIsNearest | module/ccsm/src/mod_ccsm.c:248-263 | no multiple of the step is closer, and of two equally close ones the lower is taken, exactly when the rate is a multiple, rate plus step fits 64 bits, or the lower multiple is closest and the wrapped difference lets it be taken |
| Ccsm.NearestMisses | module/ccsm/src/mod_ccsm.c:248-263 | a rate below 2^64 that is not rounded to the closest multiple, and is rounded up to 0 |
| Ccsm.RoundedIsMultiple | module/ccsm/src/mod_ccsm.c:283-308 | every accepted rounding is a multiple, and less than one step away exactly when the rate is below the step or the rounding does not take a next multiple that passes 2^64 |
| Ccsm.RoundedToZero | module/ccsm/src/mod_ccsm.c:248-308 | a rate of a step or more is rounded to 0 exactly when it is no multiple, rate plus step passes 2^64, and the mode is UP, or NEAREST with the lower multiple further away than 2^64 |
| Ccsm.RoundedKeepsOrder | module/ccsm/src/mod_ccsm.c:323-349 | a fallback rounded down stays at or below its nominal rate, however that is rounded, exactly when the fallback is below the step or the rounding of the nominal rate does not pass 2^64 |
| Ccsm.RoundedDirections | module/ccsm/src/mod_ccsm.c:283-308 | DOWN takes the greatest multiple not above the rate, UP the least not below it if rate plus step fits 64 bits |
| Ccsm.SelectedFallback | module/ccsm/src/mod_ccsm.c:332-349 | without a table the fallback is 0 below the threshold and from there on the greatest multiple of the step within the percentage of whole hundredths; with one, the greatest within that of the entry |
| Ccsm.SelectableWhen | module/ccsm/src/mod_ccsm.c:265-354 | a selection succeeds exactly for a multiple or a mode that rounds, a nominal rate in range, and a fallback that is 0 or at least the minimum |
| Ccsm.GetRoundedRate | module/ccsm/src/mod_ccsm.c:283-308 | the rounded rate, or which error |
| Ccsm.SelectRates | module/ccsm/src/mod_ccsm.c:310-354 | succeeds exactly when an entry is found, its rate can be rounded and the result is in range; both rates are multiples of the step, the nominal is in range, the fallback is zero or at least the minimum, and at most the nominal exactly when no table is given, the fallback entry is below the step or the nominal rate does not round past 2^64; each error has its cause |
| Ccsm.FallbackExceeds | module/ccsm/src/mod_ccsm.c:310-354 | a table that passes its check, and a rate for which the selected fallback is above the nominal rate |
| Ccsm.CheckTable | module/ccsm/src/mod_ccsm.c:876-893 | accepts exactly the ascending tables of valid entries whose fallback is at most the nominal rate; the first other entry decides the error |
| Ccsm.GetIndexedRates | module/ccsm/src/mod_ccsm.c:59-95 | the entry that the binary search finds, which has exactly the rate, and is found whenever there is one, if all differences to the rate fit 32 bits |
| Ccsm.CompareExact | module/ccsm/src/mod_ccsm.c:51-57 | the comparison is the difference exactly when that fits a 32-bit integer, and rates less than 2^32 apart compare equal only if they are |
| Ccsm.SearchFinds | module/ccsm/src/mod_ccsm.c:73-84 | in an ascending table whose differences to the rate fit 32 bits, the search finds an entry with the rate exactly when there is one |
| Ccsm.SearchMistakes | module/ccsm/src/mod_ccsm.c:51-84 | a table in which another rate is taken for the requested one, and one in which the entry with the rate is missed |
| Cli.PaddedParse | debugger/src/cli/cli.c:1341-1369 | what is printed parses back to the value, at the larger of the width and the number of digits |
| Cli.HexHalves | debugger/src/cli/cli.c:1439-1457 | the two halves of a 64-bit number, printed one after the other, are its padded digits |
| Cli.Val2Str | debugger/src/cli/cli.c:1341-1369 | writes as many characters of the padded number as there is room for, and nothing else |
| Cli.PrintHex | debugger/src/cli/cli.c:1437-1473 | with room the whole padded number is written, and otherwise its start and a terminator in the last place |
| Cli.TenDigits | debugger/src/cli/cli.c:1348-1354 | a 32-bit number fits the local buffer of digits |
| CliSplit.Split | debugger/src/cli/cli.c:1144-1207 | succeeds exactly when the command has arguments that fit the list, which then points to each of them in order as a terminated string in the command itself |
| CliSplit.SeparatorsAreQuoted | debugger/src/cli/cli.c:1163-1188 | an argument that contains any of the separators stands between quotes in the command |
| CliSplit.NothingLost | debugger/src/cli/cli.c:1163-1199 | a command without quotes has arguments, made of exactly its characters that do not separate, in order |
| CliSplit.SeparatorScanned | debugger/src/cli/cli.c:1163-1169 | a separator outside quotes ends the argument being read |
| CliSplit.QuoteScanned | debugger/src/cli/cli.c:1171-1188 | a quote after a separator opens an argument, and the next one ends it |
| CliSplit.FirstScanned | debugger/src/cli/cli.c:1190-1199 | an ordinary character after separators starts an argument, and a list without room for it is too short |
| Lifecycle.ModuleCtx.BindApi | framework/src/fwk_module.c:760-812 | an API is handed out exactly for a valid request to an initialised module during initialisation, or to any during binding, that the module answers with success and an API, with the status of each refusal; only by a module whose initialisation functions have all been called, and in the name of the element initialised, or module or element bound, last |
| Lifecycle.ModuleCtx.InitModule | framework/src/fwk_module.c:212-269 | a module counts as initialised only after its own, its elements' and its final initialisation function |
| Lifecycle.ModuleCtx.BindModule | framework/src/fwk_module.c:308-333 | a round of binding reaches the module and all its elements, if it has a bind function |
| Lifecycle.ModuleCtx.StartAll | framework/src/fwk_module.c:416-457 | however modules behave and wherever the start ends, APIs were handed out only by ready modules, in the name of what was initialised or bound last; the start succeeds exactly when no function called failed, and ends with the status of one that did; on success every init, post-init, bind and start function there is was called exactly once, phase by phase, modules in order and within a module its own before those of its elements in order, and every module is started |
| Lifecycle.SchedulePlanned | framework/src/fwk_module.c:212-413 | the functions of the four phases are exactly those that modules and elements have, each once and in order |
| Lifecycle.GatedAppend | framework/src/fwk_module.c:783-788 | a record added behind the gate keeps every API handed out by a module that was ready before |

## Left out

Assumptions:

- Clock trees: the parents form a forest, which nothing in the code checks; a driver call that fails leaves the driver's state as it was; requests are served one at a time with the queue drained between them; a STOP gives back a granted hold; reference counts stay below 2^32; and the event table is never exhausted. Overlapping requests take the code's branches in `ProcessState`, but nothing is claimed about them.
- ClockTreeRuns.WholeRun: starts from tree clocks that are stopped and idle, because connecting the tree raises only the count of the parent of a running clock (`ConnectedExactlyWhenStopped`). Once a request does not conclude nothing more is claimed about the run than that not everything is served.
- ClockModule.ClockCtx.RequestState: putting an event never fails, because the queue of the model is unbounded. ClockModule.ClockCtx.CreateAsyncRequest: likewise.
- FwkDelayedTheorems.DelayedResponseArrives: the handler has a free slot left for its response when it returns; without one the response is lost, as `ProcessNextEvent` says.
- FwkCore.FwkCtx.Put: events name valid targets, which the release build does not check.
- Notification.NotificationCtx.Notify: in thread context outside any event, a notification names a valid source.
- Log.LogCtx.Flush: the device stops being busy from some call on; otherwise the loop need not end.
- Log.LogCtx.Unbuffer: nothing is claimed about draining a stream that a message with length byte 0 has broken.
- Atu.AtuDevice.ValidateRegion: the device has at most 32 regions, the number of its registers, and all of them were set through the driver; addresses and sizes have 32 bits on the logical side.
- AtuMmio.MmioCtx.MapRegion: the block size is a power of two, written as its consequence that it divides 2^64 and that masking is a remainder; the start of the window is not covered by a region of somebody else.
- Ccsm.SelectRates: the table has passed its check, or the percentage is at most 100.
- Ccsm.GetIndexedRates: the search of the C library is taken to probe the middle of the remaining entries; where differences do not fit 32 bits the entry found need not have the requested rate, and one that has it may be missed.
- Lifecycle.ModuleCtx.StartAll: a second start after one that failed, which the architecture code does not attempt (framework/src/fwk_arch.c:88-91).
- Cli.Val2Str: bases 10 and 16, the only ones that are used.
- CliSplit.Split: the command contains no NUL character before its end.

Not modelled:

- FwkCore.FwkCtx and Notification.NotificationCtx: hold their lists as sequences of slot numbers; that the intrusive lists are such sequences is proved separately in `SList` and `DList`. High-water marks of lists are not modelled.
- Set-rate requests of the clock module, the notification of rate changes to the requester, pending power-domain transitions and what an asynchronous driver of a single clock reports later.
- Checks of the debug build, interrupts between the list operations of one put, and the idle loop around the event queue.
- Message formatting, the log banner and the input and output streams; message texts are opaque bytes.
- Delegate mode and interrupts of the address translation unit, and cache maintenance of the window.
- Register settings, modulators and droop mitigation of the clock source.
- Signed numbers, strings and terminal handling of the command line.
- The states of elements, stopping and the tables of identifiers in the module start; a failing initialisation function ends the start as the trap of the source does.
- All other drivers and modules.
