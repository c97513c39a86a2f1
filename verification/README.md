# mtcp_lua: timers, red-black tree and coroutine scheduler, verified

A model in Dafny 4.11 of the part of mtcp_lua that decides when a Lua coroutine runs, and proofs of what that
part promises. `dafny verify dfyconfig.toml` checks all of it.

## What is modelled

The program keeps the timers of a thread in an intrusive red-black tree taken over from nginx, and wakes
coroutines from two sides: an expiry pass over that tree, and events the user-level network stack reports
through epoll. The model has three layers.

1. **The tree** (`RbNode`, `RbShape`, `RbHeight`, `RbMemory`, `RbInsert`, `RbShort`, `RbSplice`, `RbTree`).
   `RbTree` works on mutable nodes with `left`, `right`, `parent` and `color`, in place, link by link, as
   rbtree.c does; its loops are the loops of the source. A ghost memory mirrors the fields, and `Focus(p, t)` says
   that it spells out the tree `t` in the hole of the path `p`, so that a loop that climbs by parent links works on
   a path that gets shorter. The pure modules say what each step does to shape, order, colours and memory.
2. **The timer queue** (`TimerList`, `Events`, `EventTimer`). `TimerQueue` keeps, as ghost state, the true unbounded
   deadlines behind the wrapping 64-bit keys, and every operation is proved to do to the list of timers what a
   plain stable sorted list would do.
3. **The scheduler** (`Schedule`, `Runs`, `Program`, `Laws`, `Network`, `Scheduler`, `Thread`). `Thread` has the calls from
   Lua, the handlers, the expiry pass and the event loop, working on the fields of events, sockets and coroutines.
   It is proved against two independent accounts of what should happen.
   - `Context` holds the state of one thread together with a ghost log of the steps it took. `Context.Valid` says that the
     log is legal for the small machine in `Schedule` and that the timer tree, the events and the epoll set are
     what the machine's state says. So the lemmas in `Runs`, which speak of all legal logs, speak of every run.
   - `Context.Now` is the thread as a plain value, its `World`: the log, the state, everybody's sockets, the epoll set
     and the open descriptors. `Program` is an interpreter of Lua programs on worlds, and every method of `Thread` is
     proved to lead to the world the interpreter gives, up to `ThreadEntry`, for the whole run. `Laws` says in
     literal terms what the interpreter does with each call and each handler.

In the tree a branch that the source writes twice, mirrored, is one method with a side, and the bodies of
`rbtree_insert` and `rbtree_delete` are cut into methods by branch. `rbtree_insert_value` and
`rbtree_insert_timer_value` differ in one comparison and are one descent with that comparison as a parameter.

## What is proved

- Insertion and deletion keep the red-black tree valid, from any valid tree, through every case of both fix-up loops,
  and both loops end. The definition of validity used is equivalent to the textbook's (`RbHeight.Textbook`).
- Deletion takes out the node it is given, by identity, and nothing else, also when the successor is spliced in and
  when the successor is the node's own child. The methods' `modifies` clauses show that no other node's key is written.
- The sibling the delete fix-up looks at is always a real node. The fields of the sentinel that are never set, and the
  parent link of the root, which is stale after a root was removed, are never relied on: validity does not
  constrain them (`RbMemory.FreeCells`), and every method is proved from validity alone.
- The keys' signed difference orders timers like their true deadlines exactly when all lie in a window of at
  most 2^63 ms (`TimerList.WindowIsTight`), and under that assumption the tree is the stable sorted list.
- Re-arming with the lazy shortcut keeps the error below 300 ms exactly when the move, in its last 32 bits, does not
  look short or like the least int (`TimerList.RearmedWithinDelay`): the source passes a 64-bit difference through `abs`
  on int. For a series of requests the error never adds up exactly when each differs from the one before by
  less than 2^31 - 299 ms (`TimerList.NoDriftIffShortMoves`); 2^31 is not enough, and the proof names the series.
  `EventTimer.TimerQueue.AddTimers` carries this to the deadline in the tree after a series of calls.
- In every reachable state an event's node is in the tree once if `timer_set` is 1 and not at all if it is 0, and it is 1
  exactly while the event's coroutine waits. So the unchecked clear in sleep and the unchecked deletes in both handlers
  are right, also with coroutines resumed inside `spawn` and in a batch of epoll events.
- Over whole runs: nobody is woken early, every wait is ended by the first pass that reaches its deadline, waits fire in
  the order of deadline and then of asking, and waits are conserved. The coroutine runs again when its wait ends, but for
  one whose connection failed, which is never heard of again.
- A pass fires every timer that was due when it began, and every wait asked for in it for no later than the pass, exactly
  once each; it fires just as many as were due exactly when nothing of the latter kind was asked for. A program in
  which no sleep comes to 0 ms asks for nothing of the kind, whatever its connect and recv timeouts, and then the
  due timers get fewer with each turn of the loop, which is why it ends. With sleeps of no time a pass may go on for any
  number of firings (`Runs.ZeroDelayNeverEnds`).
- The event loop, for any program and any network, does call by call, handler by handler and pass by pass what the
  interpreter does (`Thread.ThreadEntry`), and the interpreter does what the calls promise (`Laws`).
- A socket's `active` flag says exactly whether its descriptor is in the epoll set, so ADD is only asked for what is not
  there and MOD only for what is.

## Assumptions

- The clock does not go back, and it does not get 2^62 ms past a pending deadline or past the start of the pass that is on.
  Otherwise it may run as far as it likes, and wrap around any number of times. At the level of the queue
  alone: deadlines and the time of the operation are less than 2^63 ms apart.
- The network reports an event only while its coroutine is parked in connect or recv (`Thread.EpollWait` states this). When
  a batch names an event again, the same holds at the time it is handled again (`Thread.HandleNext`).
- A socket is used by the coroutine that made it only, is connected while it has no descriptor, gets a
  descriptor that is not in use, is closed once, and is closed only if a coroutine was recorded in it; a read from a
  closed descriptor does not say that there is nothing to read yet (`Thread.Admissible` states this).
- `EPOLL_CTL_DEL` and `MTCP_EPOLL_CTL_DEL` are the same number. The timeout branches of the handlers pass the
  first to `mtcp_lua_epoll_ctl`, which compares with the second; the headers of mTCP are not part of this model.
- `(int)seconds * 1000` (main.c:149) and `abs` of the least int (event_timer.h:68) may overflow, which C leaves undefined.
  The model lets both wrap around, as the usual compilers do on the usual machines.
- What a Lua program does is an arbitrary finite list of calls; results of network calls are part of that list.
  A program that has no call left has ended.

## Where the code does something a reader may not expect

- A connection that fails after it was under way leaves its coroutine without a timer and never resumes it
  (`mtcp_lua_socket_tcp.c:129-132`); the machine has the status `Stuck` for it.
- A connection that succeeds at once (`mtcp_lua_socket_tcp.c:196-200`) sets neither `connected` nor `vm_ctx`: reading
  from such a socket is refused, and closing it would follow a null pointer. Closing it is outside the assumptions.
- An attempt that is refused at once (`mtcp_lua_socket_tcp.c:205-212`) closes `sctx->fd`, which is still -1, so the
  new descriptor is not closed.
- `mtcp_lua_socket_tcp_recv` arms its timer before it registers and does not look at whether the registration
  succeeded; the wait is then ended by the timer alone.
- `rbtree.c:153-154` cannot be reached, since the leftmost node of a subtree has no left child.
- The comment of `event_timer.c:15-19` asks of duplicate keys only that a minimum is found; in fact equal deadlines come
  out in the order in which they were put in.

## Model

| member | source | states |
|---|---|---|
| `RbTree.RbTree.constructor` | rbtree.h:40-53 | only the sentinel's colour is set; the result is a valid empty tree |
| `RbTree.RbTree.LeftRotate` | rbtree.c:10-33 | the memory spells out the tree turned to the left at the node, everything around it the same, whatever the root's parent link is |
| `RbTree.RbTree.RightRotate` | rbtree.c:36-59 | the same to the right |
| `RbShape.RotateShape` | rbtree.c:10-59 | a rotation keeps the nodes and their order |
| `RbTree.RbTree.Descend` | rbtree.c:346-359 | the descent ends at a leaf position that parts what the key is not left of from what it is left of, in at most as many steps as the tree is high |
| `RbTree.RbTree.Attach` | rbtree.c:346-366 | the node hangs there as a red leaf and nothing else has changed |
| `RbInsert.PlainParts` | rbtree.c:322-344 | in a list in the plain order of keys there is a place for any key that parts the keys not greater from the greater |
| `RbInsert.PlainPlaced` | rbtree.c:322-344 | a node put where the plain descent leads is after every key not greater and before every greater one, and the list is in order again |
| `EventTimer.DescentIsExact` | rbtree.c:352-359 | with signed-difference comparison that position is the one after all deadlines not greater than the new one, and before all that are |
| `RbTree.RbTree.RecolorUncle` | rbtree.c:86-90 | red uncle: the memory spells out the recoloured tree and the loop goes on at the grandparent |
| `RbTree.RbTree.TurnUp` | rbtree.c:92-101 | black uncle: after the inner turn, if any, and the outer one the flaw is gone, order and nodes kept |
| `RbInsert.RecolorBalanced` | rbtree.c:86-90 | recolouring moves the only possible flaw two levels up |
| `RbInsert.InnerBalanced` | rbtree.c:93-96 | turning an inner grandchild outward keeps black counts, nodes and order |
| `RbInsert.OuterBalanced` | rbtree.c:98-100 | turning the grandparent leaves the node at a higher level below a black parent |
| `RbTree.RbTree.InsertStep` | rbtree.c:83-122 | one turn keeps order and nodes and leaves a red node strictly higher as the only possible flaw |
| `RbTree.RbTree.InsertLoop` | rbtree.c:82-123 | the loop ends, with no red node below the red node it stopped at having a red parent |
| `RbTree.RbTree.InsertFixup` | rbtree.c:82-125 | a red-black tree again, with the nodes in the order they were in |
| `RbTree.RbTree.Insert` | rbtree.c:62-126 | valid again; in order, the new node stands between two parts of the old sequence: those its key is not left of, and those it is left of; with the plain comparison a tree in the order of keys is so again; no key is written |
| `RbTree.RbTree.Min` | rbtree.h:56-63 | the leftmost node, in fewer steps than the tree is high |
| `RbTree.RbTree.First` | rbtree.h:56-63 | the first node in order, in at most twice the binary logarithm of n + 1 steps |
| `RbTree.RbTree.IsEmpty` | event_timer.c:73-77 | the root is the sentinel exactly when the tree has no node |
| `RbHeight.Textbook` | rbtree.c:82-125 | validity is: black root, no red node with a red child, equally many black nodes on all ways down |
| `RbHeight.HeightBound` | rbtree.h:56-63 | 2^height is at most (n + 1)^2 |
| `RbTree.RbTree.LinksAgree` | rbtree.c:10-59 | in every valid tree child and parent links agree, but for the parent link of the root |
| `RbMemory.FreeCells` | rbtree.c:161-171 | the root's parent link and the sentinel's links may hold anything without a change to the tree |
| `RbTree.RbTree.Successor` | rbtree.c:151-158 | the successor, its colour, and its right child, its left one being a leaf |
| `RbTree.RbTree.Splice` | rbtree.c:175-217 | the successor sits where the node was with its colour; the gap's parent link is right, even if the sentinel fills it |
| `RbSplice.SplicedFocus` | rbtree.c:175-216 | the memory after splicing spells out the new tree, also when the successor is the node's right child |
| `RbSplice.SplicedColors` | rbtree.c:173-197 | a red successor leaves a red-black tree, a black one a tree one black node short at the gap |
| `RbSplice.SplicedOrder` | rbtree.c:175-217 | in order, just the node is gone |
| `RbTree.RbTree.RemoveHere` | rbtree.c:173-222 | a node with one child at most gives way to it; the gap's parent link is right |
| `RbSplice.TakenOut` | rbtree.c:173-226 | a red node leaves no flaw, a black one a gap one black node short |
| `RbTree.RbTree.RemoveRoot` | rbtree.c:161-171 | the root's only child becomes a black root; its parent link stays stale |
| `RbShort.SiblingIsReal` | rbtree.c:231-240 | a gap one black node short has a real sibling, and a red sibling two real black children |
| `RbTree.RbTree.LowerParent` | rbtree.c:234-240 | red sibling: the memory spells out the turned tree, and the gap has a red parent |
| `RbShort.RedSiblingShort` | rbtree.c:234-240 | then the same is one black node short, with a black sibling and nodes in the same order |
| `RbShort.ReddenedShort` | rbtree.c:242-244 | two black nephews: reddening the sibling moves the shortage to the parent |
| `RbShort.TurnedSiblingShort` | rbtree.c:247-252 | red near nephew only: turning the sibling makes the far one red and keeps the shortage where it is |
| `RbShort.SuppliedBalanced` | rbtree.c:254-257 | red far nephew: turning the parent supplies the missing black node to the whole tree |
| `RbTree.RbTree.BlackSibling` | rbtree.c:242-260 | black sibling: one of the three cases is carried out in memory; the loop is then one level higher or at the root |
| `RbTree.RbTree.DeleteStep` | rbtree.c:231-292 | one turn, on the right side even if the gap is filled by the sentinel: one level higher, at a red node, or at the root |
| `RbTree.RbTree.DeleteLoop` | rbtree.c:229-293 | the loop ends at the root or at a red node |
| `RbTree.RbTree.DeleteFixup` | rbtree.c:229-295 | a red-black tree again, with black sentinel, nodes in the order they were in |
| `RbTree.RbTree.DeleteHere` | rbtree.c:142-149 | deletion of a node with one child at most, whole |
| `RbTree.RbTree.DeleteThere` | rbtree.c:150-159 | deletion of a node with two children, whole |
| `RbTree.RbTree.Delete` | rbtree.c:132-296 | valid again; in order, the old sequence without the node; the node's fields are cleared, no other key is written |
| `TimerList.SignedDifference` | event_timer.c:83 | the signed difference of keys is that of times exactly when that fits a signed word |
| `TimerList.WindowIsTight` | rbtree.c:353-354 | the comparison is right on a window exactly when it is no wider than 2^63 |
| `TimerList.StableInsertParts` | rbtree.c:346-366 | a timer goes after all that are due no later, and before the rest |
| `EventTimer.TimerQueue.constructor` | event_timer.c:21-28 | an empty queue |
| `EventTimer.TimerQueue.Insert` | event_timer.h:75-79 | the tree's sequence is the stable sorted list with the timer put in |
| `EventTimer.TimerQueue.Remove` | rbtree.c:132-296 | the tree's sequence is the list without the timer |
| `EventTimer.TimerQueue.First` | event_timer.c:79 | the minimum is the head of the list |
| `EventTimer.TimerQueue.DelTimer` | event_timer.h:28-44 | the timer is gone and the flag cleared, the others untouched |
| `EventTimer.TimerQueue.Prepare` | event_timer.h:58-73 | an armed timer is left alone exactly when the move passes for short, otherwise taken out |
| `EventTimer.TimerQueue.AddTimer` | event_timer.h:47-84 | afterwards the timer is armed, once, for now plus the delay, or for what it was if the move passes for short; the others untouched |
| `EventTimer.TimerQueue.AddTimers` | event_timer.h:47-84 | a series of calls for an armed timer leaves its deadline in the tree where the requests lead, within 300 ms of the last if successive ones differ by less than 2^31 - 299, and the other timers untouched |
| `EventTimer.TimerQueue.FindTimer` | event_timer.c:31-54 | the time left until the first deadline, 0 if it has passed, -1 as a word if there is none |
| `TimerList.RearmedWithinDelay` | event_timer.h:66-70 | one re-arming is off by less than 300 ms exactly when the move does not just look short in 32 bits |
| `TimerList.FarMoveIsLost` | event_timer.h:66-70 | a move by 2^32 ms is dropped |
| `TimerList.LazyBelow300` | event_timer.h:66-70 | a move by less than 300 ms is dropped, and one by 300 ms up to 2^31 is not |
| `TimerList.TruncatedIs` | main.c:149 | an int stays what it is, any other number becomes an int that differs from it by a multiple of 2^32 |
| `TimerList.RearmedAllWithinDelay` | event_timer.h:58-73 | a series of short moves of one deadline is off by less than 300 ms in the end |
| `TimerList.NoDriftIffShortMoves` | event_timer.h:58-73 | so it is for all series of moves below a bound exactly when the bound is at most 2^31 - 299 |
| `Schedule.NextCoherent` | event_timer.h:28-84 | every step keeps: the queue is sorted, has no node twice, and has exactly the parked coroutines with their deadlines |
| `Schedule.RunCoherent` | main.c:387-415 | so it is in every state of every run |
| `Runs.NoEarlyWake` | main.c:142-168 | what is fired was asked for, once, and the pass that fires it had reached the deadline |
| `Runs.NoLateWake` | event_timer.c:69-105 | a wait is over by the end of the first pass that reaches its deadline, by that pass or, unless it is sleep, by the network before; the coroutine runs again, but for one whose connection failed, which is stuck |
| `Runs.WokenInTime` | event_timer.c:69-105 | the same without assuming that the pass ends, in a run that is between passes |
| `Runs.FailedStaysStuck` | mtcp_lua_socket_tcp.c:129-132 | a coroutine whose connection failed is stuck ever after, and no later step is about it |
| `Runs.WaitsConserved` | event_timer.h:28-84 | waits begun equal waits fired, plus delivered, plus pending |
| `Runs.QueueIsStable` | event_timer.c:15-19 | pending timers are in order of deadline, equal ones in the order asked for |
| `Runs.FiresInOrder` | event_timer.c:69-105 | over the whole run firings are in order of deadline, equal ones in the order asked for |
| `Runs.DueTimersFall` | event_timer.c:69-105 | if what the handlers ask for is later than the pass, the due timers fall by one with each firing |
| `Runs.DueTimersCount` | event_timer.c:69-105 | whatever they ask for: fired plus still due equals due before plus asked for no later than the pass |
| `Runs.FiringShrinks` | event_timer.c:69-105 | a firing and all that follows it leave fewer due timers, if every wait is for later than the moment it is asked for |
| `Runs.PatientAsksLater` | event_timer.h:56-79 | waits for later than the moment of asking are for later than the pass |
| `Runs.PassFiresWhatIsDue` | event_timer.c:58-108 | a pass fires what was due when it began plus what was asked for in it for no later; it fires just as many timers as were due exactly when nothing of the kind was asked for |
| `Runs.PassFiresEach` | event_timer.c:58-108 | in every pass each timer that is due when it begins is fired exactly once, whatever the handlers ask for |
| `Runs.PassFiresAsked` | event_timer.c:58-108 | so is each wait asked for in the pass for no later than the pass |
| `Runs.FiredAgainIfAskedAgain` | event_timer.c:58-108 | a coroutine is fired again in the same pass exactly when it asks again for no later than the pass |
| `Runs.NothingDueRemains` | event_timer.c:58-108 | when a pass ends no pending timer is due |
| `Runs.PassConserves` | event_timer.c:58-108 | pending before plus asked for equals fired plus pending after |
| `Runs.PassEnds` | event_timer.c:58-108 | between passes, every pass that began has ended |
| `Runs.ZeroDelayNeverEnds` | event_timer.c:65-105 | with zero delays and a clock that stands still a pass may fire any number of times |
| `Network.Net.EpollCtl` | mtcp_lua_socket_tcp.c:51-75 | ADD on an active socket is MOD; the flag and the epoll set change together, and not at all on failure |
| `Network.Net.SetTimeout` | mtcp_lua_socket_tcp.c:325-346 | timeouts between 1 and 600000 are taken, others change nothing |
| `Network.Net.Close` | mtcp_lua_socket_tcp.c:395-407 | the descriptor is closed and out of the epoll set, the socket not active |
| `Scheduler.Context.TimerSetIsTruth` | event_timer.h:28-84 | in every reachable state: node in the tree, once, exactly if `timer_set`, exactly if the coroutine waits, with the right key |
| `Scheduler.Context.ArmedIfParked` | main.c:160-165 | a running coroutine has no timer in the tree, a parked one has its deadline there |
| `Scheduler.Context.ClearTimerSet` | main.c:162 | the unchecked clear changes nothing |
| `Scheduler.Context.ParkAs` | event_timer.h:47-84 | arming the timer of a running coroutine is the step Park, for the time of the call plus the timeout |
| `Scheduler.Context.Unpark` | mtcp_lua_socket_tcp.c:119-121 | deleting the timer of a parked coroutine unchecked is the step Fire or Deliver |
| `Scheduler.Context.SocketFacts` | mtcp_lua_socket_tcp.c:51-75 | an open socket is active exactly if its descriptor is in the epoll set, for its coroutine's event |
| `Scheduler.Context.NewSocket` | mtcp_lua_socket_tcp.c:78-104 | a new socket without descriptor, held by the coroutine that made it |
| `Scheduler.Context.DueAsKeyTells` | event_timer.c:83 | the first node's key, less the time the pass goes by, as a signed word is the true difference, however often the clock has wrapped around |
| `Scheduler.Context.Deliverable` | main.c:402-411 | an event with a timer and a network handler is that of a coroutine waiting in connect or recv |
| `Thread.SleepFor` | main.c:142-168 | 0 to 2147483 seconds: the step Park for the clock plus 1000 ms a second; a negative number: no step; the world is the interpreter's |
| `Thread.ConnectTo` | mtcp_lua_socket_tcp.c:142-235 | for each outcome of the attempt the world is the interpreter's: descriptor, flags, epoll set, open descriptors, what is waited for, and nothing else has changed |
| `Thread.AwaitConnection` | mtcp_lua_socket_tcp.c:214-235 | the same for an attempt under way: registered and armed, or, if the registration is refused, closed and reset with no timer |
| `Thread.RecvFrom` | mtcp_lua_socket_tcp.c:348-392 | waits exactly if connected and no data is there, with a timer even if the registration fails; the world is the interpreter's |
| `Thread.EndConnect` | mtcp_lua_socket_tcp.c:107-139 | timeout: out of the epoll set, resumed; event: timer gone, then connected and resumed, or stuck; as worlds, so nothing else has changed |
| `Thread.EndRecv` | mtcp_lua_socket_tcp.c:267-280 | timeout: out of the epoll set, the timer being gone; event: the timer goes; the coroutine is about to run in both cases; as worlds |
| `Thread.OnRecv` | mtcp_lua_socket_tcp.c:267-322 | from there the coroutine has the turn the interpreter gives it, whatever was read |
| `Thread.OnConnect` | mtcp_lua_socket_tcp.c:107-139 | the same for a connection, unless it failed: then nothing runs |
| `Thread.OnTimer` | main.c:261-270 | called with `timedout` set and `timer_set` clear, has the coroutine take the turn the interpreter gives it |
| `Thread.SpawnThread` | main.c:88-126 | a coroutine not known before was started and has had the turn the interpreter gives it; the caller still runs, all others are as they were |
| `Thread.RunThread` | main.c:212-258 | the turn of the interpreter: every call of the program that it makes is made, in order, with its effect, until the coroutine waits or ends; all others are as they were; if no call is for a sleep of no time, every wait was for later than the moment of asking |
| `Thread.Perform` | main.c:88-168 | one call has the effect it has in the interpreter, on the world and on what is left of the program |
| `Thread.PerformOnSocket` | mtcp_lua_socket_tcp.c:78-104 | the same for the calls of the socket library |
| `Thread.FireFirst` | event_timer.c:83-101 | one turn of the expiry loop is what the interpreter does when the first timer is due; if no call is for a sleep of no time, fewer timers are due |
| `Thread.TimeOut` | event_timer.c:84-98 | the handler is called with `timer_set` clear and `timedout` set, the node off the tree |
| `Thread.FireAll` | event_timer.c:69-105 | the loop fires, as the interpreter does, until nothing is due; if no call is for a sleep of no time it ends because the due timers get fewer, whatever the length of the program |
| `Thread.FirstDue` | event_timer.c:73-83 | the first timer if it is due at the captured time, otherwise the pass is over |
| `Thread.ExpireTimers` | event_timer.c:57-108 | its steps are one pass from its start to its end, firing by firing as in the interpreter; if no call is for a sleep of no time, all waits asked for in it are for later than the pass, and it fires just as many timers as were due when it began |
| `Thread.EpollWait` | main.c:392 | the assumption about the network: what is delivered is just what is reported of what is awaited |
| `Thread.HandleBatch` | main.c:402-411 | each event of the batch ends its coroutine's wait, whatever the handlers before it did, report by report as in the interpreter; a batch may name an event again |
| `Thread.AwaitsIsWaiting` | main.c:402-411 | the flag and the handler of an event tell exactly whether its coroutine waits for the network |
| `Thread.AimedAt` | main.c:405-408 | an event delivered has a handler |
| `Thread.VmInit` | main.c:283-311 | the main coroutine sleeps until the first pass |
| `Thread.DoRound` | main.c:392-413 | one turn of the loop ends every wait that is awaited and reported, makes exactly one pass, which comes last, and is a round of the interpreter |
| `Thread.ThreadEntry` | main.c:377-415 | after any number of turns, for any network and any Lua program, the log is legal, no coroutine runs, and the world is what the interpreter makes of the program and the network, turn by turn; in every turn all that was awaited and reported has been delivered; if no call is for a sleep of no time, every pass of the run fires just what was due when it began |
| `Program.TurnGoesOn` | main.c:212-258 | a call, and a turn from where it leads, are a turn from where it was made, also if the call had others take turns |
| `Program.TurnIsOver` | main.c:212-258 | what happens after a turn makes no difference to it |
| `Program.ConnectSteps` | mtcp_lua_socket_tcp.c:214-234 | descriptor, event, registration and timer one after the other come to what connect promises |
| `Program.RecvSteps` | mtcp_lua_socket_tcp.c:376-388 | event, timer and registration one after the other come to what recv promises |
| `Program.ReportedAt` | main.c:402-411 | every notice of what is awaited is reported |
| `Laws.OnlyItsOwn` | mtcp_lua_socket_tcp.c:51-407 | a call touches nobody else's sockets, and of one's own only the one it names |
| `Laws.SleepWaits` | main.c:142-168 | s seconds: one step, Park for 1000 s ms from now, and the sockets as they were |
| `Laws.NoSleep` | main.c:149-152 | a negative duration does nothing |
| `Laws.SpawnRunsChild` | main.c:88-126 | the child runs inside the call, here until it sleeps, and then the caller goes on with the calls left |
| `Laws.ReturnFinishes` | main.c:220-226 | returning, or having nothing left to do, is the step Finish |
| `Laws.SocketIsNew` | mtcp_lua_socket_tcp.c:78-104 | a socket without descriptor, with timeouts of 6 seconds |
| `Laws.ConnectWaits` | mtcp_lua_socket_tcp.c:214-234 | the socket has the descriptor, is in the epoll set for its coroutine, and that waits for the connect timeout |
| `Laws.ConnectRefused` | mtcp_lua_socket_tcp.c:223-231 | the registration refused: no descriptor, nothing registered, no wait |
| `Laws.ConnectAtOnce` | mtcp_lua_socket_tcp.c:195-200 | a descriptor, but neither connected nor registered, and no wait |
| `Laws.ConnectFails` | mtcp_lua_socket_tcp.c:164-212 | other attempts change nothing |
| `Laws.RecvWaits` | mtcp_lua_socket_tcp.c:376-391 | nothing to read yet: a wait for the read timeout, registered if the network is willing |
| `Laws.RecvGoesOn` | mtcp_lua_socket_tcp.c:357-374 | data, an error, or a socket without connection: no wait |
| `Laws.SetTimeoutTakes` | mtcp_lua_socket_tcp.c:336-345 | 1 to 600000 ms are taken, other timeouts change nothing |
| `Laws.CloseCloses` | mtcp_lua_socket_tcp.c:395-407 | open no more, and out of the epoll set |
| `Laws.TimeoutDrops` | mtcp_lua_socket_tcp.c:114-118 | a wait on a socket that is over by the clock: the socket is out of the epoll set before the coroutine runs again |
| `Laws.TimeoutWakes` | main.c:261-270 | a sleeper just runs again |
| `Laws.SuccessConnects` | mtcp_lua_socket_tcp.c:119-138 | the socket is connected and stays registered, and the coroutine runs |
| `Laws.FailureIsSilent` | mtcp_lua_socket_tcp.c:129-132 | a failed connection takes the timer off, and nothing runs |
| `Laws.DataWakes` | mtcp_lua_socket_tcp.c:278-321 | the reader runs, its socket as it was |

## Left out

- `rbtree_find` and `rbtree_traverse` (rbtree.c:302-320, 371-398): nobody uses them.
- mtcp_lua.c, mtcp_lua_thread.c, lconf.c, lmbuf.c, ldpdk.c: not built.
- The Lua virtual machine, its stack and its garbage collector, and so `__gc` on sockets: a coroutine is what it calls.
- What is read from or written to a socket, `send`, and the values handed to Lua: whatever they are, the coroutine goes on.
  The read loop of the recv handler (mtcp_lua_socket_tcp.c:288-298) is left out with them.
- Sharing sockets between coroutines, closing twice.
- Process startup, threads, logging, and the exit of the demonstration loop at the tenth turn (main.c:388-391).
- The field `write` of events, which nobody reads, and the fields `busy` and `write_timeout` of sockets.
- Memory that runs out, and numbers of seconds that do not fit an int before they are multiplied.
- Thread.Admissible: calls outside of the assumptions are skipped, not modelled.
- Thread.ConnectTo: a socket that already has a descriptor is not connected again; the source passes the old
  descriptor of the user-level stack to the system's `close` and goes on with a flag that speaks of the old one.
- Thread.RecvFrom: a closed descriptor for which the network answers that there is nothing to read yet is not modelled.
- Thread.RunThread: a program is a finite list of calls, so a coroutine that makes calls for ever without waiting is not
  modelled; the source would not come back from it.
- Thread.ExpireTimers: for a program with sleeps of no time that the pass ends rests on that list being finite; the loop of
  the source need not end then.
- Thread.ThreadEntry: the loop of the source does not end; the model stops after any number of turns, which gives every
  finite beginning of a run.
