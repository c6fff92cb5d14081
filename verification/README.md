# Verified model of a C++ skynet core

The repository rewrites skynet's C core in C++. This project models the four stateful parts of that core
and the session tables that depend on them, and proves what each of them is for:

* **the timer** (`timer`): a hierarchical timing wheel, 256 near lists and four levels of 64 lists under a
  32-bit tick counter that wraps. Over every run it dispatches exactly what a plain list of pending
  deadlines would: each timer once, in the tick that reaches its deadline, equal deadlines in the order
  of adding.
* **the scheduler** (`message_queue`, `global_queue`, `context_message_dispatch`): any number of workers,
  queues and senders. No context is dispatched by two workers, no message is stranded, each call handles an
  exact budget, the global list is served in order, messages are handled in the order they were pushed, and
  from every reachable state the workers alone can handle all of them.
* **the ring** inside `message_queue` and **the intrusive list** `global_queue`: both refine sequences.
* **the handle table** (`handle_storage_t`): a direct-mapped table that doubles; it refines a partial map.
* **sessions** (`newsession` and the callback tables): every armed timeout runs its callback exactly once, and
  no callback waits for good.

## How it is laid out

| file | modules |
|---|---|
| TimingWheel.dfy | `TimingWheel`: where nodes go, what a shift and a tick do. `WheelArithmetic`: digits, carries |
| TimerRuns.dfy | `TimerRuns`: runs, and the plain account of them. `WheelInvariant`, `TimerTheorems` |
| Timer.dfy | `TimerObject`: the class `Timer`, each method proved against its function in `TimingWheel`; uses of a timer over many updates |
| TickClock.dfy | `TickClock`: clock readings to ticks |
| Ring.dfy | `Rings`: the ring and its sequence. `RingRuns`: runs of pushes and pops |
| Overload.dfy | `Overload`: the threshold over runs of pops |
| Doubling.dfy, Forms.dfy | `Doubling`: sizes and thresholds that only double. `Forms`: `Written` or `Repaired` |
| MessageQueue.dfy | `Queues`: the classes `MessageQueue` and `GlobalQueue` |
| Scheduler.dfy | `Scheduler`: the protocol's steps. `SchedulerInvariant`, `SchedulerTheorems` |
| SchedulerLaws.dfy | `DispatchBudget`: messages per call. `ListOrder`: the global list. `RetiredContext`: the written fall-through |
| SchedulerProgress.dfy | `Progress`: every message can be handled |
| HandleTable.dfy, HandleRuns.dfy | `HandleTable`, `HandleTheorems`, `HandleRuns`: the table, its map, runs |
| HandleNames.dfy | `HandleNames`: the name index over runs |
| HandleStorage.dfy | `HandleStorageObject`: the class `HandleStorage` |
| Sessions.dfy | `Sessions`, `SessionRuns`, and the classes of `SessionObjects` |

The code changes its objects in place, so the objects are classes; their methods are proved against
functions on values, and the theorems over whole runs are lemmas about these functions. Shifting right by k
is written `/ 2^k`, masking with 2^k - 1 is `% 2^k`, and 32-bit wrap-around is `Wrap`.

`dafny verify dfyconfig.toml` checks the whole project.

## Where the written code departs from its intent

Five places do not do what the code around them needs. Each is modelled twice, by a parameter that selects
the form `Written` (the code as it is) or `Repaired`. The repaired form meets its main theorem on every run;
for the written form a lemma says, for all runs, exactly which ones meet it, and another gives a run that
does not.

* **Shift** (cpp_sk.cpp:525, 530, 531). The shift loop uses TIME_NEAR_MASK and TIME_NEAR_SHIFT, eight bits a
  level; placement (cpp_sk.cpp:568-585) and the array (cpp_sk.h:419) use six. The written form keeps exact
  firing on the runs of fewer than 2^14 ticks and on no others: tick 2^14 indexes `t_[0][64]`.
* **Ring growth** (cpp_sk.cpp:52-57). `head` becomes 0 and nothing is moved, so the contents are turned by the
  old head. Nothing is lost; a run of distinct messages keeps its order exactly when no push grew the ring
  with a nonzero head, for one ring alone and for each queue of the scheduler. One message in and out and 64
  more in lose it. Repaired: the wrapped prefix moves.
* **Table growth** (cpp_sk.cpp:155-156). Entries stay where they are. The table refines the map of live handles
  at the end of a run exactly when no registration grew it from n to 2n while some live h had h & n; the
  fifth registration loses handle 4. Repaired: entries are re-placed.
* **Names of a retired handle** (cpp_sk.cpp:168-173). The `break` removes one name. The index is right
  throughout a run exactly when no retirement meets a handle with two names. Repaired: all are removed.
* **Dispatch without a context** (cpp_sk.cpp:406-415). The queue is listed and the code goes on to pop from it;
  a popped message is then dispatched through a null context (cpp_sk.cpp:435). Exclusion holds throughout a
  run exactly when no worker begins on such a queue; create, launch, retire and fetch lead to one. Repaired:
  the queue is given up and the call returns the next one, as it does for a queue found empty.

The comment at cpp_sk.cpp:575-582 says that every wrapped deadline is put in `t_[3][0]`. The code puts
there only those whose wrapped value is below 2^26; the others go to `t_[3][k]` with k > 0. The model follows
the code (`TimerTheorems.WrappedDeadlines`), and the placement invariant covers both.

## Model

| member | source | states |
|---|---|---|
| `TimerTheorems.ExactFiring` | cpp_sk.cpp:499-608 | Over every run of adds and ticks, however often the counter wraps and whatever is added while a tick runs: tick k dispatches exactly the timers with deadline k, each once, in order of adding; the wheel holds exactly those still to come |
| `TimerTheorems.FiresInItsTick` | cpp_sk.cpp:537-608 | In every run, a timer added at tick T with timeout d, between ticks or while one runs, is dispatched in the tick that moves the counter to T + d, after equal deadlines added before it and ahead of those added after it |
| `TimerTheorems.PlacementInvariant` | cpp_sk.cpp:561-596 | In every run, between ticks, each node is in the one list computed from its deadline and the time; the list to be drained is empty; index 0 is empty on levels 0 to 2 and holds only wrapped deadlines on level 3 |
| `TimerTheorems.WrappedDeadlines` | cpp_sk.cpp:575-585 | Wrapped deadlines go to level 3, and to index 0 if and only if their wrapped value is below 2^26 |
| `TimerTheorems.BoundedMigration` | cpp_sk.cpp:516-535 | The relinkings of a timer so far and the rank of its level never sum to more than the rank it was placed at, which is at most 4 |
| `TimerTheorems.WrittenShiftExact` | cpp_sk.cpp:516-535 | The written shift picks the list that must move if and only if there is no carry, the counter wraps, or the next eight bits are between 1 and 63 |
| `TimerTheorems.WrittenRunsExact` | cpp_sk.cpp:516-535 | The written timer keeps exact firing on a run if and only if the run has fewer than 2^14 ticks; every longer run asks for `t_[0][64]` |
| `WheelArithmetic.ShiftMovesWhatMustMove` | cpp_sk.cpp:516-535 | One tick changes the place of exactly the deadlines in the list the shift takes apart, and each goes to a strictly lower level |
| `WheelArithmetic.RepairedMoveInArray` | cpp_sk.h:418-419 | The shift loop exits inside the array, with index 0 only when the counter wraps |
| `WheelInvariant.AddKeeps` | cpp_sk.cpp:555-587 | Adding any nodes keeps the placement invariant and appends them to the plain list |
| `WheelInvariant.ShiftKeeps` | cpp_sk.cpp:516-535 | The shift stays in the array and keeps every node, its place and the order of equal deadlines |
| `WheelInvariant.RelinkAppends` | cpp_sk.cpp:589-596 | Relinking a list appends its nodes, for each deadline in list order, to the list that deadline belongs to |
| `WheelInvariant.CurrentEmpty` | cpp_sk.cpp:499-502 | The pass before the shift finds nothing |
| `WheelInvariant.DrainFires` | cpp_sk.cpp:507-515 | The list drained after the shift holds exactly the nodes due now, in order of adding, and draining it leaves the others in place |
| `WheelInvariant.TickFires` | cpp_sk.cpp:499-505 | One tick dispatches exactly the nodes due at the new time and keeps the others and what arrived meanwhile |
| `TimerObject.AddsMissCurrent` | cpp_sk.cpp:537-559 | Whatever positive timeouts are added while the lock is free, none lands in the list being drained |
| `TimerObject.UpdatesAreRuns` | cpp_sk.cpp:493-495 | The ticks of an update are a run, so the theorems about runs hold of `update` |
| `TimerObject.ShiftRound` | cpp_sk.cpp:524-533 | A round that finds zero bits is never the last: the mask does not overflow and the level stays below four |
| `TimerObject.Timer.AddNode` | cpp_sk.cpp:561-587 | The loop over masks links the node into the list `Place` computes and changes nothing else |
| `TimerObject.Timer.MoveList` | cpp_sk.cpp:589-596 | Empties one list and relinks its nodes in order |
| `TimerObject.Timer.TimerAdd` | cpp_sk.cpp:555-559 | Links a node whose deadline is the time plus the timeout, in 32 bits |
| `TimerObject.Timer.TimerExecute` | cpp_sk.cpp:507-515 | With any adds in the window where the lock is free, the loop makes at most one pass, dispatches the whole list, and leaves it empty |
| `TimerObject.Timer.ShiftStop` | cpp_sk.cpp:522-533 | The shift loop stops at the level and index that `ShiftMove` names, in either form, for every counter value |
| `TimerObject.Timer.TimerShift` | cpp_sk.cpp:516-535 | Moves the counter on and takes at most one list apart, the one of `ShiftMove`, or reports an index outside the array |
| `TimerObject.Timer.Timeout` | cpp_sk.cpp:537-553 | A positive timeout is added to the wheel and touches no queue; any other pushes one response from nobody with its session to the queue, listing it if it was not marked, or returns -1 if there is none |
| `TimerObject.Timer.Dispatch` | cpp_sk.cpp:598-608 | Every node of a drained list becomes one response from nobody with the node's session, in node order, in the queue its handle finds, if any; each such queue is listed if it was not marked |
| `TimerObject.Timer.TimerUpdate` | cpp_sk.cpp:499-505 | Execute, shift, execute; the list of the new time is empty afterwards |
| `TimerObject.Timer.Update` | cpp_sk.cpp:481-497 | Runs one tick for each whole centisecond passed, and moves `current_` and `current_point_` accordingly |
| `TickClock.TickAccounting` | cpp_sk.cpp:481-497 | Whatever the clock does: the growth of `current_` never exceeds the sum of its forward moves, and falls short by less than one tick for each update that ran some, one for each step back, and one |
| `TickClock.SteadyClock` | cpp_sk.cpp:481-497 | With a clock that never steps back, the forward moves are what has elapsed |
| `TickClock.RemaindersDropped` | cpp_sk.cpp:490-492 | The shortfall is real: n updates a nanosecond short of two ticks apart run n ticks |
| `TickClock.FollowsSetClock` | cpp_sk.cpp:484-489 | A clock that was set back is followed from there: s seconds later 100 s ticks are run |
| `TimerObject.UpdateAccounting` | cpp_sk.cpp:481-505 | Over every use of a timer, adds and updates in any order: the ticks run are the growth of `current_`, and `time_` is that growth in 32 bits |
| `TimerObject.TicksKeepPace` | cpp_sk.cpp:481-505 | Over every use of a timer, with a clock that may be set back at any time, the ticks of the wheel never exceed its forward moves and fall short by less than one for each update that ran some, one for each step back, and one |
| `Rings.LengthIsLength` | cpp_sk.cpp:29-41 | `length` is the length of the contents, and head equals tail if and only if there are none |
| `Rings.PopTakesFirst` | cpp_sk.cpp:65-78 | A pop takes the first element and keeps the indices in range |
| `Rings.PushKeepsValid` | cpp_sk.cpp:45-57 | The capacity stays 64 doubled some number of times, and doubles exactly when the last free element is filled |
| `Rings.PushAppends` | cpp_sk.cpp:45-57 | A push appends; as written, growth turns the result by exactly the old head |
| `Rings.PushKeepsMessages` | cpp_sk.cpp:45-57 | In either form a push loses and repeats nothing |
| `Rings.WrittenPushExact` | cpp_sk.cpp:52-57 | The written push keeps the order of distinct messages if and only if it does not grow, or grows with head 0 |
| `RingRuns.RepairedIsFifo` | cpp_sk.cpp:45-96 | Over every run of pushes and pops, what came out followed by what is inside is what went in |
| `RingRuns.MessagesConserved` | cpp_sk.cpp:45-96 | In either form, over every run, what came out and what is inside is what went in, as a multiset |
| `RingRuns.WrittenFifoExact` | cpp_sk.cpp:52-57 | A run of distinct messages through the written ring is first in, first out if and only if no push grew it with a nonzero head |
| `RingRuns.WrittenLosesOrder` | cpp_sk.cpp:52-57 | One message in and out and 64 more in, all distinct, are such a run that loses its order |
| `Queues.MessageQueue.constructor` | cpp_sk.cpp:22-25 | A new queue is empty and marked `in_global`, so no send lists it before the launch does |
| `Queues.MessageQueue.Length` | cpp_sk.cpp:29-41 | Returns the number of messages |
| `Queues.MessageQueue.MqOverload` | cpp_sk.cpp:43 | Returns the overload mark and clears it |
| `Queues.MessageQueue.MqPush` | cpp_sk.cpp:45-63 | Stores the message, sets `in_global`, and appends the queue to the global list exactly when it was not marked |
| `Queues.MessageQueue.MqPop` | cpp_sk.cpp:65-96 | Takes the first message and leaves the length within the threshold; finding none, clears `in_global` and resets the threshold |
| `Queues.GlobalQueue.Push` | cpp_sk.cpp:109-118 | The pointers represent the sequence with the queue appended |
| `Queues.GlobalQueue.Pop` | cpp_sk.cpp:120-132 | Removes the first of the sequence, or returns null exactly if it is empty; the assertion that the last one is the tail holds |
| `Overload.RaiseIsDoubling` | cpp_sk.cpp:83-86 | The threshold loop doubles as often as needed and no more, and ends at or above the length |
| `Overload.OverloadAccounting` | cpp_sk.cpp:65-96 | Since the last empty pop: the threshold is 1024 doubled as often as it takes to reach every length seen and no more; the i-th report is a length seen above 1024 doubled i times; none is made exactly if no length exceeded 1024 |
| `SchedulerInvariant.StepKeepsExact` | cpp_sk.cpp:395-449 | Every step keeps the protocol's invariant, except that as written it is kept if and only if the step does not begin on a queue whose context is gone |
| `SchedulerTheorems.ReachedKeepsInv` | cpp_sk.cpp:395-449 | The protocol's invariant holds in every reachable state of any number of workers, queues and senders; as written, if no worker has begun on a retired context |
| `SchedulerInvariant.DeadBeginBreaks` | cpp_sk.cpp:406-415 | Beginning on a queue whose context is gone leaves it listed and in the worker's hands at once |
| `SchedulerTheorems.ActorExclusion` | cpp_sk.cpp:395-449 | In every reachable state no queue is held by two workers, none is listed or launching while held, none listed twice; as written, if no worker has begun on a retired context |
| `SchedulerTheorems.ExclusionExact` | cpp_sk.cpp:395-449 | Exclusion holds throughout every run of the repaired form, and throughout a run of the written one if and only if no worker begins on a retired context |
| `SchedulerTheorems.WrittenLosesExclusion` | cpp_sk.cpp:406-415 | Create, launch, retire, fetch and begin is a run in which the queue is listed and held at once |
| `SchedulerTheorems.NoStrandedMessage` | cpp_sk.cpp:45-96 | In every reachable state a queue with `in_global` false is empty and owned by nobody; one with messages is listed, launching or held |
| `SchedulerTheorems.ExactBudget` | cpp_sk.cpp:417-448 | When a call leaves its loop it has handled the budget for the length it recorded; after the first message the queue is never found empty, whatever is sent meanwhile |
| `DispatchBudget.LengthRead` | cpp_sk.cpp:422-424 | The length read after the first pop is the number of messages pushed by then, less those handled, less the one in hand |
| `DispatchBudget.ShrIsDivision` | cpp_sk.cpp:424 | Shifting right by k divides by 2^k |
| `DispatchBudget.CallHandlesBudget` | cpp_sk.cpp:417-448 | Counted over the run: between beginning on a queue and leaving the loop exactly 1 message of it is handled if weight < 0, else max(1, L / 2^weight), L being what was pushed and neither handled nor in hand when the length was read |
| `ListOrder.ServedInOrder` | cpp_sk.cpp:107-132 | In every run the queues taken from the global list, followed by those in it, are the queues in the order in which they were listed |
| `ListOrder.PopTakesOne` | cpp_sk.cpp:120-132 | A pop of the list takes a queue if and only if more have been listed than taken |
| `ListOrder.TakenAfterThoseAhead` | cpp_sk.cpp:443-447 | The queue at position k of the list is taken after exactly k others, however the run goes on |
| `Progress.HandleOne` | cpp_sk.cpp:395-449 | From every reachable state, if a queue has a message pushed and not handled and its context is not retired (as written, if none is), the workers alone can go on to handle one more |
| `Progress.AllCanBeHandled` | cpp_sk.cpp:395-449 | From every such state the workers alone can handle every message pushed to the queue |
| `RetiredContext.MessageAndProcessLost` | cpp_sk.cpp:406-437 | As written, a worker that begins on a retired context whose queue holds a message loses that message and stops the process |
| `RetiredContext.ListedTwice` | cpp_sk.cpp:406-421 | As written, if that queue is empty the next send lists it a second time |
| `SchedulerTheorems.TraceIsOps` | cpp_sk.cpp:45-96 | In every interleaving, what happens to one queue's ring is a run of single pushes and pops in lock order, so the theorems about rings hold of each queue |
| `SchedulerTheorems.EndToEndOrder` | cpp_sk.cpp:316-449 | In every interleaving, handled, in hand and waiting messages of a queue are, in this order, those pushed; so the handled ones are a prefix |
| `SchedulerTheorems.WrittenOrderExact` | cpp_sk.cpp:45-63 | As written, this holds of a queue, for distinct messages, if and only if no send to that queue grew its ring with a nonzero head |
| `SchedulerTheorems.NothingLost` | cpp_sk.cpp:45-96 | In every interleaving, in either form, each message pushed is handled, in hand or waiting exactly once |
| `SchedulerTheorems.SendOrderExact` | cpp_sk.cpp:45-63 | As written, a send keeps the order if and only if it does not grow the ring with a nonzero head |
| `HandleTheorems.HashIsMask` | cpp_sk.cpp:163 | Harbor bits never change the slot of a handle, since every size divides 2^24 |
| `HandleTheorems.ScanFindsExact` | cpp_sk.cpp:142-154 | A full scan finds a slot if and only if one other than slot 0 is free, or slot 0 is and the scan does not run past 0xffffff and skip residue 0 |
| `HandleTheorems.RegisterTerminates` | cpp_sk.cpp:139-158 | Registration grows at most once, exactly when no slot the scan can meet is free, and fails if and only if the table is at the cap and every slot but slot 0 is taken |
| `HandleTheorems.RepairedGrowthKeeps` | cpp_sk.cpp:155-156 | Re-placing entries loses none: distinct residues modulo n stay distinct modulo 2n |
| `HandleTheorems.GrabIsLookup` | cpp_sk.cpp:205-213 | `grab` is the lookup of the partial map of live handles |
| `HandleTheorems.RetireIsRemove` | cpp_sk.cpp:160-181 | `retire` succeeds if and only if the handle is live, and removes exactly it |
| `HandleRuns.RegisterIsInsert` | cpp_sk.cpp:139-158 | A registration returns a handle that is not live, with nonzero low bits and the table's harbor above bit 24, and inserts it |
| `HandleRuns.RegisterTakesFirst` | cpp_sk.cpp:142-149 | In either form a registration gives out the first free handle from the index on, and leaves the index just after it |
| `HandleRuns.HandlesHaveHarbor` | cpp_sk.cpp:151-152 | In either form, over every run, every handle given out and every live one has exactly the table's harbor above bit 24 |
| `HandleRuns.HarborsApart` | cpp_sk.cpp:151-152 | Handles given out by tables of different harbors are never equal |
| `HandleRuns.RefinesPartialMap` | cpp_sk.cpp:139-213 | Over every run of registrations and retirements, `grab` finds a context if and only if its handle is live |
| `HandleRuns.NoReissue` | cpp_sk.cpp:139-158 | Over every run, each registration issues one handle, never 0 below the harbor bits, and a handle issued again is issued only after a scan has run past 0xffffff in between |
| `HandleRuns.NoReissueBeforeWrap` | cpp_sk.cpp:139-158 | If each registration meets index + 2 size at most 2^24, the handles issued are strictly increasing, one for each registration |
| `HandleRuns.WrittenGrowthGrab` | cpp_sk.cpp:155-156 | After the written growth from n to 2n a live handle h is found if and only if h & n is 0 |
| `HandleRuns.WrittenRegisterExact` | cpp_sk.cpp:139-158 | The written registration keeps the table in step with the map if and only if it does not grow, or h & n is 0 for every live h |
| `HandleRuns.WrittenRunsExact` | cpp_sk.cpp:139-181 | As written, the table refines the map at the end of a run if and only if no registration grew it from n to 2n while some live h had h & n |
| `HandleRuns.FifthRegistrationLosesFour` | cpp_sk.cpp:139-158 | As written, after four registrations the fifth makes handle 4 unknown, though it is live |
| `HandleNames.WrittenNamesExact` | cpp_sk.cpp:168-173 | The written retire leaves no name of the handle if and only if it had at most one; names of others stay |
| `HandleNames.NamesResolveExact` | cpp_sk.cpp:168-227 | Throughout every run a name resolves to the first handle that asked for it while free and is not retired since; as written, if and only if no retirement meets a handle with two names |
| `HandleNames.WrittenLeavesName` | cpp_sk.cpp:168-173 | As written, a handle with two names is retired and one of them still resolves to it |
| `HandleNames.FindsOwner` | cpp_sk.cpp:215-221 | Repaired, looking up a name gives its owner's handle, or 0 if it has none |
| `HandleNames.NameStays` | cpp_sk.cpp:215-227 | In either form a name once given resolves to its handle until that handle is retired |
| `HandleStorageObject.HandleStorage.constructor` | cpp_sk.cpp:135-137 | Four free slots, index 1, and the low eight bits of the harbor |
| `HandleStorageObject.HandleStorage.ScanSlots` | cpp_sk.cpp:142-154 | The loop over handles finds the first free slot, or that there is none |
| `HandleStorageObject.HandleStorage.HandleRegister` | cpp_sk.cpp:139-158 | Returns the handle and leaves the table that `Register` describes |
| `HandleStorageObject.HandleStorage.HandleRetire` | cpp_sk.cpp:160-181 | Frees the slot of a live handle and its names, one or all by the form |
| `HandleStorageObject.HandleStorage.HandleGrab` | cpp_sk.cpp:205-213 | Returns the context of the handle if it is the one in its slot |
| `HandleStorageObject.HandleStorage.HandleNameHandle` | cpp_sk.cpp:223-227 | Gives a name if and only if it is new; a second time changes nothing |
| `Sessions.SessionsDistinctExact` | cpp_sk.h:276-283 | Sessions are positive, and the j-th and k-th are equal if and only if j - k is a multiple of 2^31 - 1 |
| `Sessions.ResolvesOnce` | cpp_sk.h:655-668 | A response runs a callback if and only if its session waits; a second one finds nothing, and no other session is touched |
| `SessionRuns.StepKeeps` | cpp_sk.h:577-586 | Every step of handlers, timers, peers and deliveries keeps the account of every session |
| `SessionRuns.AtMostOneCallback` | cpp_sk.h:655-668 | In every reachable state before the counter wraps: no session waits in both tables, none ran twice, and each callback run is the one given with its session |
| `SessionRuns.TimeoutRunsExactlyOnce` | cpp_sk.h:577-586 | The callback of an armed timeout has run exactly once if its response has left timer and queue, else not at all |
| `SessionRuns.DeliveryFindsExact` | cpp_sk.h:577-586 | A timeout's response in the queue finds its callback if and only if it is not the one being stored, which never is so when a delivery can begin |
| `SessionRuns.RequestRunsAtFirstReply` | cpp_rpc.h:257-269 | A request's callback runs at the first of its responses and at no later one |
| `SessionRuns.EarlyResponseWouldBeLost` | cpp_sk.h:577-586 | Without exclusion a response could meet its callback before it is stored, and would be lost |
| `SessionRuns.CallbackCanRun` | cpp_sk.h:577-668 | From every reachable state before the counter wraps, a callback that was given and has not run can run, without any new session |
| `SessionObjects.Context.Newsession` | cpp_sk.h:276-283 | Moves the counter on to the session it returns |
| `SessionObjects.ModuleMid.Timeout` | cpp_sk.h:577-586 | Takes a session and arms the timer with it, or has one response with it pushed at once, and stores the callback under it, where that response finds it; without a queue to answer to, stores nothing and returns -1 |
| `SessionObjects.ModuleMid.SendRequest` | cpp_rpc.h:247-270 | With a target, takes a session, stores the callback where its response finds it, and pushes the request with that session and the sender's handle, listing the target if it was not marked; without one, changes nothing |
| `SessionObjects.ModuleMid.OnResponse` | cpp_sk.h:655-668 | Erases and runs the callback that `Resolve` finds, the request table first |

## Left out

- Memory layout: `link_list`, `std::deque` and `std::vector` are sequences, so the ownership chain of
  `unique_ptr` nodes and the tail pointer into it are not modelled; `global_queue`, whose nodes are linked
  in place, is modelled with its pointers.
- Lock internals: each locked region is one atomic step. Requests that reach the timer while a tick runs are
  taken, in any number and order, in the window where the lock is free during dispatch, or right after the
  tick if no window opened.
- The loop counter of `update` and `overload_threshold` are unbounded here; both are `int` in the code.
- `SchedulerTheorems.EndToEndOrder`: is about the repaired ring; `SchedulerTheorems.WrittenOrderExact` says when
  the written one keeps the order.
- `SchedulerTheorems.ReachedKeepsInv`: of the written form, covers the runs in which no worker begins on a
  retired context; so do `ActorExclusion`, `NoStrandedMessage`, `ExactBudget`, `NothingLost` and
  `WrittenOrderExact`. `SchedulerTheorems.ExclusionExact` shows that exclusion fails in every other run.
- `SchedulerTheorems.NoStrandedMessage`: of the written form, as `SchedulerTheorems.ReachedKeepsInv`; in the
  runs left out a message can be lost with the process (`RetiredContext.MessageAndProcessLost`).
- `SchedulerTheorems.NothingLost`: of the written form, as `SchedulerTheorems.NoStrandedMessage`.
- `TimerObject.Timer.Dispatch`: which queue each handle finds is given, node by node.
- `HandleRuns.RefinesPartialMap`: is about the repaired growth; `HandleRuns.WrittenRunsExact` says when it holds
  as written.
- `SessionRuns.TimeoutRunsExactlyOnce`: covers runs of at most 2^31 - 1 sessions of a context, after which
  numbers repeat (`Sessions.SessionsDistinctExact`). The overflow of the `int` counter is taken to wrap.
  Replies carry the session of a request, as the peers in cpp_rpc.h send them.
- `context_t::create` assigns the handle after the table's lock is released; here the entry has it at once.
- `mark_release`, which nothing calls, so that `mq_release` always lists the queue; `handle_retireall` and a context that fails to initialise: teardown is object
  lifetime rather than protocol.
- Iteration order of the hash map of names: the written retire removes any one of the names of the handle.
- `SessionObjects.ModuleMid.SendRequest`: the encoded request is an opaque number.
- Sockets, the rpc encoding, message payloads and handlers' own code; messages are opaque values.
- Threads, the sleep and wakeup of workers, monitors, clocks, time zones, configuration, logging and modules.
