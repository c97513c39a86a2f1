/** main.c and mtcp_lua_socket_tcp.c: one thread, its coroutines, and what wakes them. */
module Scheduler {
  import opened RbNode
  import opened RbShape
  import opened RbTree
  import opened TimerList
  import opened Events
  import opened EventTimer
  import opened Network
  import opened Schedule
  import opened Program

  const TWO_62: int := 0x4000_0000_0000_0000

  /** What one step of a coroutine leaves alone: the other coroutines, and that none of them runs. */
  ghost predicate Leaves(s: State, s': State, id: Node) {
    && s'.pass == s.pass
    && (forall i :: i in s.status && i != id ==> i in s'.status && s'.status[i] == s.status[i])
    && (forall i :: i in s'.status && i !in s.status && i != id ==> s'.status[i] != Running)
  }

  /** The coroutine with timer id has had its turn. */
  ghost predicate Resumed(s: State, s': State, id: Node) {
    Leaves(s, s', id) && id in s'.status && s'.status[id] != Running
  }

  /** No coroutine runs. */
  ghost predicate Idle(s: State) {
    forall i :: i in s.status ==> s.status[i] != Running
  }

  class Context {
    const timers: TimerQueue
    const net: Net
    var clock: int
    /** The time by which the pass that is on, if one is, tells what is due. */
    var captured: Pass
    /** When the thread started. */
    const start: int
    /** The coroutines by the timer nodes their events embed; the program gets from the one to the other by offsetof. */
    var who: map<Node, Coroutine>
    ghost var log: seq<Step>
    ghost var repr: set<object>

    /** Where the log leads. */
    ghost var st: State

    ghost predicate Logged()
      reads this`log, this`st
    {
      Legal(Initial(start), log) && st == Run(Initial(start), log)
    }

    /** The coroutines by their timer nodes. */
    ghost predicate Known(s: State)
      reads this`who, this`repr
    {
      && who.Keys == s.status.Keys
      && forall n :: n in who ==>
        n in repr && who[n] in repr && who[n].ev in repr && who[n].ev.timer == n && n != timers.tree.sentinel
    }

    ghost predicate Rooted()
      reads this`repr
    {
      this in repr && timers in repr && timers.tree in repr && timers.tree.sentinel in repr && net in repr
    }

    ghost predicate Framed()
      reads this`repr, timers`due, timers.tree, net`socks
    {
      Rooted() && timers.Synced() && timers.due.Keys <= repr && net.socks <= repr
    }

    /** The sockets a coroutine holds are its own, and every socket of all is held. */
    ghost predicate Own(w: map<Node, Coroutine>, all: set<Socket>)
      reads w.Values`socks
    {
      && (forall n :: n in w ==> Once(w[n].socks))
      && (forall n, s :: n in w && s in w[n].socks ==> s in all && s.owner == w[n])
      && (forall s :: s in all ==>
        s.owner.ev.timer in w && w[s.owner.ev.timer] == s.owner && s in w[s.owner.ev.timer].socks)
    }

    /** The deadlines of q are less than 2^62 ms past, and less than 2^31 ms off. */
    ghost predicate Window(q: seq<Timer>)
      reads this`clock
    {
      forall t :: t in q ==> clock - TWO_62 < t.due < clock + TWO_31
    }

    ghost predicate InTime(s: State)
      reads this`clock, this`captured
    {
      s.clock <= clock && captured == s.pass && (s.pass.PassAt? ==> s.pass.at <= clock < s.pass.at + TWO_62)
    }

    /** c waits on a socket of its own. */
    ghost predicate OnSocket(c: Coroutine)
      reads c`socks, c.ev`data, c.socks`open, c.socks`vm, c.socks`vmCtx
    {
      c.ev.data is Socket && var s := c.ev.data as Socket; s in c.socks && s.open && s.vm == s.vmCtx == c
    }

    /** The event of c is set up for what c waits for. */
    ghost predicate Aimed(c: Coroutine, w: Wait)
      reads c`socks, c.ev`handler, c.ev`data, c.socks`open, c.socks`vm, c.socks`vmCtx
    {
      match w
      case Asleep => c.ev.handler == TimerHandler && c.ev.data == c
      case InConnect => c.ev.handler == ConnectHandler && OnSocket(c)
      case InRecv => c.ev.handler == RecvHandler && OnSocket(c)
    }

    ghost predicate Ready(c: Coroutine, w: Wait)
      reads c`socks, c.ev`handler, c.ev`data, c.ev`timedout, c.socks`open, c.socks`vm, c.socks`vmCtx
    {
      Aimed(c, w) && !c.ev.timedout
    }

    ghost predicate CoroutineOk(c: Coroutine, s: Status)
      reads c.ev`timerSet
      reads c`socks, c.ev`handler, c.ev`data, c.ev`timedout, c.socks`open, c.socks`vm, c.socks`vmCtx
    {
      (c.ev.timerSet <==> s.Parked?) && (s.Parked? ==> Ready(c, s.wait))
    }

    /** The thread is in state s. */
    ghost predicate Matches(s: State)
      reads this, repr
    {
      && Rooted() && Framed() && Known(s) && Own(who, net.socks)
      && timers.Valid() && net.Valid()
      && s.queue == timers.Queue() && Window(s.queue)
      && InTime(s)
      && forall n :: n in who ==> CoroutineOk(who[n], s.status[n])
    }

    /** The log is that of a legal run, and the thread is in the state it leads to. */
    ghost predicate Valid()
      reads this, repr
    {
      Logged() && Matches(st)
    }

    /** The thread starts at time now with an empty timer tree (event_timer_init) and an empty epoll set. */
    constructor (s: Node, now: int)
      modifies s`color
      ensures Valid() && who == map[] && log == [] && st == Initial(now)
      ensures repr == {this, timers, timers.tree, s, net} && fresh(timers) && fresh(timers.tree) && fresh(net)
      ensures clock == now && Now() == World([], Initial(now), map[], map[], {})
    {
      timers := new TimerQueue(s);
      net := new Net();
      clock, start, captured := now, now, NoPass;
      who, log, repr, st := map[], [], {}, Initial(now);
      new;
      hide TimerQueue.Valid;
      hide Net.Valid;
      hide Matches;
      hide Logged;
      hide TimerQueue.Queue;
      repr := {this, timers, timers.tree, s, net};
      Begins();
    }

    lemma Begins()
      requires Rooted() && timers.Valid() && net.Valid() && timers.Synced() && net.socks == {} && timers.due == map[]
      requires who == map[] && log == [] && st == Initial(start) && timers.Queue() == [] && start == clock && captured.NoPass?
      ensures Valid()
    {
      hide TimerQueue.Valid;
      hide Net.Valid;
    }

    // ------------------------------------------------------------ steps

    /** The clock, which never goes back, is read. It does not get 2^62 ms past a pending deadline or the start of the pass that
        is on; otherwise it may run as far as it likes. */
    method ReadClock() returns (now: int)
      requires Valid()
      modifies this`clock
      ensures Valid() && now == clock && old(clock) <= clock
    {
      hide Valid;
      var limited, limit := Limit();
      now :| clock <= now && (limited ==> now < limit);
      assert Within(true, now + 1);
      Tick(now);
    }

    method Limit() returns (limited: bool, limit: int)
      requires Valid()
      ensures (limited ==> clock < limit) && Within(limited, limit)
    {
      hide Valid;
      hide TimerQueue.Valid;
      Roots();
      limited, limit := captured.PassAt?, if captured.PassAt? then captured.at + TWO_62 else 0;
      var empty := timers.IsEmpty();
      if !empty {
        var node := timers.First();
        FirstIsLeast(node);
        DueAsKeyTells(node, clock);
        var least := clock + Signed64(WrapSub(node.key, Word(clock))) + TWO_62;
        limited, limit := true, if limited && limit < least then limit else least;
      }
    }

    /** Up to limit, if there is one, the deadlines and the pass stay in time. */
    ghost predicate Within(limited: bool, limit: int)
      reads this
    {
      && (captured.PassAt? ==> limited && limit <= captured.at + TWO_62)
      && forall t :: t in st.queue ==> limited && limit <= t.due + TWO_62
    }

    lemma FirstIsLeast(node: Node)
      requires Valid() && timers.Synced() && st.queue != [] && node in timers.due
      requires timers.Queue()[0] == Timer(node, timers.due[node])
      ensures st.queue[0] == Timer(node, timers.due[node]) && clock < timers.due[node] + TWO_62
      ensures captured.PassAt? ==> clock < captured.at + TWO_62
      ensures forall t :: t in st.queue ==> timers.due[node] <= t.due
    {
      hide Net.Valid;
      hide Logged;
      assert st.queue[0] in st.queue;
    }

    method Tick(now: int)
      requires Valid() && clock <= now && Within(true, now + 1)
      modifies this`clock
      ensures Valid() && clock == now
    {
      hide TimerQueue.Valid;
      hide Net.Valid;
      hide Logged;
      clock := now;
    }

    /** A step that was possible has been taken. */
    ghost method Log(a: Step)
      requires Logged() && Possible(st, a) && Matches(Next(st, a))
      modifies this`log, this`st
      ensures Valid() && log == old(log) + [a] && st == Next(old(st), a)
    {
      hide TimerQueue.Valid;
      hide Net.Valid;
      hide Window;
      hide Possible;
      hide Next;
      hide CoroutineOk;
      hide Own;
      hide Known;
      hide Legal;
      hide Run;
      Extended(Initial(start), log, a);
      log, st := log + [a], Next(st, a);
    }

    ghost predicate Mine(c: Coroutine)
      reads this`who
    {
      c.ev.timer in who && who[c.ev.timer] == c
    }

    ghost predicate Is(c: Coroutine, s: Status)
      reads this
    {
      Mine(c) && st.Is(c.ev.timer, s)
    }

    /** What a parked coroutine waits for is in the tree, exactly once; nothing else of it is. */
    lemma ArmedIfParked(c: Coroutine)
      requires Valid() && Mine(c)
      ensures c.ev.timer in timers.due <==> st.status[c.ev.timer].Parked?
      ensures st.status[c.ev.timer].Parked? ==> timers.due[c.ev.timer] == st.status[c.ev.timer].due
    {
      hide Net.Valid;
      RunCoherent(start, log);
      timers.QueueIsDue();
    }

    lemma NotArmed(c: Coroutine, d: int)
      requires Valid() && Is(c, Running) && clock <= d < clock + TWO_31
      ensures c.ev.timer !in timers.due && !c.ev.timerSet && timers.Tracks(c.ev)
      ensures Without(timers.Queue(), c.ev.timer) == timers.Queue() && Near(timers.Queue(), d)
      ensures Sorted(timers.Queue())
    {
      ArmedIfParked(c);
      timers.NotQueued(c.ev.timer);
    }

    lemma CanStart(c: Coroutine, w: Wait, now: int, timeout: int)
      requires Valid() && Is(c, Running) && now == clock && 0 <= timeout < TWO_31
      ensures var d := now + timeout;
        && Possible(st, Park(c.ev.timer, w, now, d)) && MatchesBut(st, c.ev.timer) && st.clock <= now
        && timers.Valid() && timers.Tracks(c.ev) && !c.ev.timerSet && timers.Synced() && Near(timers.Queue(), d)
        && Without(timers.Queue(), c.ev.timer) == timers.Queue() == st.queue
        && Window(StableInsert(st.queue, Timer(c.ev.timer, d)))
    {
      NotArmed(c, now + timeout);
      StableInsertWindow(timers.Queue(), Timer(c.ev.timer, now + timeout));
    }

    /** All is in order but for the coroutine with timer id. */
    ghost predicate MatchesBut(s: State, id: Node)
      reads this, repr
    {
      && Rooted() && Framed() && Known(s) && Own(who, net.socks)
      && timers.Valid() && net.Valid()
      && InTime(s)
      && forall n :: n in who && n != id ==> CoroutineOk(who[n], s.status[n])
    }

    lemma Parked(s: State, c: Coroutine, w: Wait, now: int, d: int)
      requires MatchesBut(s, c.ev.timer) && Mine(c) && s.clock <= now == clock
      requires timers.Queue() == StableInsert(s.queue, Timer(c.ev.timer, d)) && Window(timers.Queue())
      requires c.ev.timerSet && Ready(c, w)
      ensures Matches(Next(s, Park(c.ev.timer, w, now, d)))
    {
      hide TimerQueue.Valid;
      hide Net.Valid;
    }

    method StartTimer(c: Coroutine, ghost w: Wait, now: int, timeout: int)
      requires Valid() && Is(c, Running) && Ready(c, w) && 0 <= timeout < TWO_31 && now == clock
      modifies timers`due, timers.tree, timers.tree.sentinel, timers.due.Keys, c.ev`timerSet, c.ev.timer
      ensures Logged() && Possible(st, Park(c.ev.timer, w, now, now + timeout))
      ensures Matches(Next(st, Park(c.ev.timer, w, now, now + timeout)))
    {
      hide TimerQueue.Valid;
      hide Net.Valid;
      hide Logged;
      hide Own;
      hide Ready;
      hide CoroutineOk;
      hide Window;
      hide Next;
      hide Possible;
      hide Matches;
      hide TimerQueue.Tracks;
      hide StableInsert;
      hide Without;
      hide IsLazy;
      CanStart(c, w, now, timeout);
      timers.AddTimer(c.ev, now, timeout);
      Parked(st, c, w, now, now + timeout);
    }

    /** The timer of a running coroutine is armed, and the coroutine waits. */
    method ParkAs(c: Coroutine, ghost w: Wait, timeout: int)
      requires Valid() && Is(c, Running) && Ready(c, w) && 0 <= timeout < TWO_31
      modifies this`clock, this`log, this`st, timers`due, timers.tree, timers.tree.sentinel, timers.due.Keys
      modifies c.ev`timerSet, c.ev.timer
      ensures Valid()
      ensures log == old(log) + [Park(c.ev.timer, w, clock, clock + timeout)]
      ensures st == Next(old(st), Park(c.ev.timer, w, clock, clock + timeout)) && old(clock) <= clock
      ensures Now() == Take(old(Now()), Park(c.ev.timer, w, clock, clock + timeout))
    {
      hide Valid;
      hide Next;
      hide Holders;
      ArmAt(c, w, timeout);
      AllKeep();
    }

    method ArmAt(c: Coroutine, ghost w: Wait, timeout: int)
      requires Valid() && Is(c, Running) && Ready(c, w) && 0 <= timeout < TWO_31
      modifies this`clock, this`log, this`st, timers`due, timers.tree, timers.tree.sentinel, timers.due.Keys
      modifies c.ev`timerSet, c.ev.timer
      ensures Valid()
      ensures log == old(log) + [Park(c.ev.timer, w, clock, clock + timeout)]
      ensures st == Next(old(st), Park(c.ev.timer, w, clock, clock + timeout)) && old(clock) <= clock
    {
      hide TimerQueue.Valid;
      hide Net.Valid;
      hide Logged;
      hide Matches;
      var now := ReadClock();
      StartTimer(c, w, now, timeout);
      Log(Park(c.ev.timer, w, now, now + timeout));
    }

    lemma StableInsertWindow(q: seq<Timer>, t: Timer)
      requires Sorted(q) && Window(q + [t])
      ensures Window(StableInsert(q, t))
    {
      StableInsertSorted(q, t);
      forall x | x in StableInsert(q, t)
        ensures x in q + [t]
      {
        assert x in multiset(StableInsert(q, t));
      }
    }

    lemma CanStop(c: Coroutine)
      requires Valid() && Mine(c) && st.IsParked(c.ev.timer)
      ensures MatchesBut(st, c.ev.timer) && timers.Valid() && c.ev.timer in timers.due
      ensures timers.Synced() && timers.Queue() == st.queue && Window(Without(st.queue, c.ev.timer))
    {
      hide Net.Valid;
      ArmedIfParked(c);
      WithoutSorted(st.queue, c.ev.timer);
    }

    lemma Taken(s: State, c: Coroutine, a: Step)
      requires MatchesBut(s, c.ev.timer) && Mine(c)
      requires timers.Queue() == Without(s.queue, c.ev.timer) && Window(timers.Queue())
      requires !c.ev.timerSet && (a == Fire(c.ev.timer) || (a.Deliver? && a.id == c.ev.timer))
      ensures Matches(Next(s, a))
    {
      hide TimerQueue.Valid;
      hide Net.Valid;
    }

    /** The timer of a parked coroutine goes; that it is armed is nowhere checked. */
    method StopTimer(c: Coroutine, ghost a: Step)
      requires Valid() && Mine(c) && st.IsParked(c.ev.timer)
      requires a == Fire(c.ev.timer) || (a.Deliver? && a.id == c.ev.timer)
      modifies timers`due, timers.tree, timers.tree.sentinel, timers.due.Keys, c.ev`timerSet
      ensures Logged() && Matches(Next(st, a)) && !c.ev.timerSet
    {
      hide TimerQueue.Valid;
      hide Net.Valid;
      hide Logged;
      hide Own;
      hide Ready;
      hide CoroutineOk;
      hide Window;
      hide Next;
      hide Matches;
      CanStop(c);
      timers.DelTimer(c.ev);
      Taken(st, c, a);
    }

    /** A parked coroutine is taken off the tree and is about to run again, or to be forgotten. */
    method Unpark(c: Coroutine, ghost a: Step)
      requires Valid() && Mine(c) && st.IsParked(c.ev.timer) && Possible(st, a)
      requires a == Fire(c.ev.timer) || (a.Deliver? && a.id == c.ev.timer)
      modifies this`log, this`st, timers`due, timers.tree, timers.tree.sentinel, timers.due.Keys, c.ev`timerSet
      ensures Valid() && log == old(log) + [a] && st == Next(old(st), a) && !c.ev.timerSet
      ensures Now() == Take(old(Now()), a)
    {
      hide Holders;
      hide TimerQueue.Valid;
      hide Net.Valid;
      hide Logged;
      hide Matches;
      hide Possible;
      StopTimer(c, a);
      Log(a);
      AllKeep();
    }

    /** What the event of a coroutine that is not parked holds is of no consequence. */
    method WriteEvent(c: Coroutine, data: object?, handler: Handler)
      requires Valid() && Is(c, Running)
      modifies c.ev`data, c.ev`handler, c.ev`timedout
      ensures Valid() && c.ev.data == data && c.ev.handler == handler && !c.ev.timedout
    {
      hide TimerQueue.Valid;
      hide Net.Valid;
      hide Logged;
      hide Own;
      c.ev.data := data;
      c.ev.timedout := false;
      c.ev.handler := handler;
    }

    /** Sleeping clears the flag without a look at it, and changes nothing. */
    method ClearTimerSet(c: Coroutine)
      requires Valid() && Is(c, Running)
      modifies c.ev`timerSet
      ensures Valid() && unchanged(c.ev) && Now() == old(Now())
    {
      hide Holders;
      NotArmed(c, clock);
      c.ev.timerSet := false;
    }

    method SetTimedOut(c: Coroutine)
      requires Valid() && Is(c, Running)
      modifies c.ev`timedout
      ensures Valid() && c.ev.timedout && Now() == old(Now())
    {
      hide Holders;
      hide TimerQueue.Valid;
      hide Net.Valid;
      hide Logged;
      c.ev.timedout := true;
      AllKeep();
    }

    // ------------------------------------------------------------ the world as plain values

    ghost function Sockets(): set<Socket>
      reads this`who, who.Values`socks
    {
      set n, s | n in who && s in who[n].socks :: s
    }

    ghost function Evs(): set<Event>
      reads this`who
    {
      set n | n in who :: who[n].ev
    }

    ghost function Holders(): map<Node, Holder>
      reads this`who, who.Values`socks, Evs()`data, Sockets()
    {
      assert forall n, s :: n in who && s in who[n].socks ==> s in Sockets();
      map n | n in who :: Held(who[n])
    }

    ghost function Now(): World
      reads this`log, this`st, this`who, net`registered, net`open, who.Values`socks, Evs()`data, Sockets()
    {
      World(log, st, Holders(), TimersOf(net.registered), net.open.Keys)
    }

    /** Nobody's sockets have changed. */
    twostate lemma AllKeep()
      requires who == old(who) && forall n: Node :: n in who ==>
        who[n].socks == old(who[n].socks) && who[n].ev.data == old(who[n].ev.data)
      requires forall n: Node, s: Network.Socket :: n in who && s in who[n].socks ==> unchanged(s)
      ensures Holders() == old(Holders())
    {
      forall n | n in who
        ensures Held(who[n]) == old(Held(who[n]))
      {
        forall k: nat | k < |who[n].socks|
          ensures who[n].socks[k].State() == old(who[n].socks[k].State())
        {
          assert who[n].socks[k] in who[n].socks;
        }
        assert States(who[n].socks) == old(States(who[n].socks));
      }
    }

    /** Nothing has changed. */
    twostate lemma StillNow()
      requires log == old(log) && st == old(st) && unchanged(net`registered, net`open)
      requires who == old(who) && forall n: Node :: n in who ==>
        who[n].socks == old(who[n].socks) && who[n].ev.data == old(who[n].ev.data)
      requires forall n: Node, s: Network.Socket :: n in who && s in who[n].socks ==> unchanged(s)
      ensures Now() == old(Now())
    {
      AllKeep();
    }

    /** Only what c holds has changed. */
    twostate lemma OthersKeep(c: Coroutine)
      requires old(Own(who, net.socks)) && old(Known(st)) && who == old(who) && Mine(c)
      requires forall n :: n in who && who[n] != c ==> who[n].socks == old(who[n].socks) && who[n].ev.data == old(who[n].ev.data)
      requires forall s :: s in old(net.socks) && s.owner != c ==> unchanged(s)
      ensures Holders() == old(Holders())[c.ev.timer := Held(c)]
    {
      forall n, k: nat | n in who && who[n] != c && k < |who[n].socks|
        ensures who[n].socks[k].State() == old(who[n].socks[k].State())
      {
        var s := who[n].socks[k];
        assert old(s in who[n].socks);
        assert s in old(net.socks) && unchanged(s);
      }
      forall n | n in who && who[n] != c
        ensures Held(who[n]) == old(Held(who[n]))
      {
        assert States(who[n].socks) == old(States(who[n].socks));
      }
    }

    /** Of the sockets of its owner only s has changed. */
    twostate lemma OneSocket(s: Socket)
      requires old(Own(who, net.socks)) && who == old(who) && s in old(net.socks) && unchanged(s.owner`socks)
      requires forall x :: x in old(net.socks) && x != s ==> unchanged(x)
      ensures var socks := s.owner.socks; States(socks) == old(States(socks))[IndexOf(socks, s) := s.State()]
    {
      var socks := s.owner.socks;
      forall k: nat | k < |socks| && k != IndexOf(socks, s)
        ensures socks[k].State() == old(socks[k].State())
      {
        assert old(socks[k] in s.owner.socks);
        assert socks[k] in old(net.socks) && unchanged(socks[k]);
      }
    }

    /** So the world has changed only there. */
    twostate lemma SocketChanged(s: Socket)
      requires old(Own(who, net.socks)) && who == old(who) && s in old(net.socks)
      requires unchanged(s.owner`socks) && s.owner.ev.data == old(s.owner.ev.data)
      requires forall n :: n in who && who[n] != s.owner ==>
        who[n].socks == old(who[n].socks) && who[n].ev.data == old(who[n].ev.data)
      requires old(Known(st)) && forall x :: x in old(net.socks) && x != s ==> unchanged(x)
      ensures var id, i := s.owner.ev.timer, IndexOf(s.owner.socks, s);
        old(Now()).Has(id, i) && old(Now()).co[id].socks[i] == old(s.State())
        && Holders() == Put(old(Now()), id, i, s.State()).co
    {
      OthersKeep(s.owner);
      OneSocket(s);
    }

    // ------------------------------------------------------------ the growing state

    /** What goes on only adds coroutines and objects. */
    twostate predicate Grown()
      reads this`repr, this`who, this`log
    {
      && old(repr) <= repr && fresh(repr - old(repr))
      && (forall n :: n in old(who) ==> n in who && who[n] == old(who)[n])
      && old(log) <= log
    }

    /** Nobody has come or gone, and the steps a were taken. */
    twostate predicate Took(a: seq<Step>)
      reads this`repr, this`who, this`log
    {
      repr == old(repr) && who == old(who) && log == old(log) + a
    }

    /** And no pass began or ended. */
    twostate predicate Between()
      reads this`repr, this`who, this`log
    {
      && Grown()
      && forall k :: |old(log)| <= k < |log| ==> !log[k].PassStart? && !log[k].PassEnd?
    }

    lemma Footprint(c: Coroutine)
      requires Valid() && Mine(c)
      ensures {this, timers, timers.tree, timers.tree.sentinel, net, c, c.ev, c.ev.timer} <= repr
      ensures timers.due.Keys <= repr && net.socks <= repr && Own(who, net.socks) && Known(st)
      ensures forall s :: s in c.socks ==> s in net.socks && s.owner == c && s in repr
    {
      hide TimerQueue.Valid;
      hide Net.Valid;
      hide Logged;
    }

    /** The queue of the state is that of the timer tree. */
    lemma Roots()
      requires Valid()
      ensures {this, timers, timers.tree, net} <= repr && timers.Valid() && timers.Synced() && st.queue == timers.Queue()
      ensures captured == st.pass && st.clock <= clock && (captured.PassAt? ==> clock < captured.at + TWO_62)
    {
      hide TimerQueue.Valid;
      hide Net.Valid;
      hide Logged;
    }

    lemma IsLogged()
      requires Valid()
      ensures Logged() && Coherent(st)
    {
      hide Matches;
      RunCoherent(start, log);
    }

    /** A new coroutine, about to run. */
    method Create() returns (c: Coroutine)
      requires Valid()
      modifies this`who, this`repr, this`log, this`st
      ensures Valid() && Between() && fresh(c) && fresh(c.ev) && fresh(c.ev.timer) && c.socks == []
      ensures Is(c, Running) && log == old(log) + [Start(c.ev.timer)] && st == Next(old(st), Start(c.ev.timer))
      ensures c.ev.timer !in old(st).status
      ensures Now() == Born(old(Now()), c.ev.timer)
    {
      hide Valid;
      hide Holders;
      Knows();
      c := CreateNamed();
      OneMore(c);
    }

    lemma Knows()
      requires Valid()
      ensures Known(st) && Own(who, net.socks) && net.socks <= repr
    {
      hide TimerQueue.Valid;
      hide Net.Valid;
      hide Logged;
    }

    /** A coroutine without sockets has come. */
    twostate lemma OneMore(new c: Coroutine)
      requires c.ev.timer !in old(who) && who == old(who)[c.ev.timer := c] && c.socks == [] && c.ev.data == c
      requires forall n: Node :: n in old(who) ==> who[n].socks == old(who[n].socks) && who[n].ev.data == old(who[n].ev.data)
      requires forall n: Node, s: Network.Socket :: n in old(who) && s in old(who[n].socks) ==> unchanged(s)
      ensures Holders() == old(Holders())[c.ev.timer := Holder([], -1)]
    {
      forall n | n in old(who)
        ensures Held(who[n]) == old(Held(who[n]))
      {
        forall k: nat | k < |who[n].socks|
          ensures who[n].socks[k].State() == old(who[n].socks[k].State())
        {
          assert old(who[n].socks[k] in who[n].socks);
        }
        assert States(who[n].socks) == old(States(who[n].socks));
      }
      assert States(c.socks) == [];
    }

    method CreateNamed() returns (c: Coroutine)
      requires Valid()
      modifies this`who, this`repr, this`log, this`st
      ensures Valid() && Between() && fresh(c) && fresh(c.ev) && fresh(c.ev.timer) && c.socks == [] && c.ev.data == c
      ensures Is(c, Running) && log == old(log) + [Start(c.ev.timer)] && st == Next(old(st), Start(c.ev.timer))
      ensures c.ev.timer !in old(st).status && c.ev.timer !in old(who) && who == old(who)[c.ev.timer := c]
    {
      hide TimerQueue.Valid;
      hide Net.Valid;
      hide Logged;
      hide Matches;
      c := new Coroutine();
      Welcome(c);
      Log(Start(c.ev.timer));
    }

    lemma OwnMore(c: Coroutine)
      requires Own(who, net.socks) && c.ev.timer !in who && c.socks == []
      ensures Own(who[c.ev.timer := c], net.socks)
    {
    }

    lemma NotWaiting(c: Coroutine)
      requires !c.ev.timerSet
      ensures CoroutineOk(c, Running)
    {
    }

    method Welcome(c: Coroutine)
      requires Valid() && {c, c.ev, c.ev.timer} !! repr && c.socks == [] && !c.ev.timerSet
      modifies this`who, this`repr
      ensures Logged() && Possible(st, Start(c.ev.timer)) && Matches(Next(st, Start(c.ev.timer)))
      ensures who == old(who)[c.ev.timer := c] && repr == old(repr) + {c, c.ev, c.ev.timer} && c.ev.timer !in old(who)
    {
      hide TimerQueue.Valid;
      hide Net.Valid;
      hide Logged;
      hide Matches;
      Stranger(c);
      Include(c);
      Seat(c);
    }

    lemma Stranger(c: Coroutine)
      requires Valid() && {c, c.ev, c.ev.timer} !! repr
      ensures c.ev.timer !in who && c.ev.timer != timers.tree.sentinel && who.Keys == st.status.Keys
    {
      hide TimerQueue.Valid;
      hide Net.Valid;
      hide Logged;
    }

    method Include(c: Coroutine)
      requires Matches(st)
      modifies this`repr
      ensures Matches(st) && repr == old(repr) + {c, c.ev, c.ev.timer}
    {
      hide TimerQueue.Valid;
      hide Net.Valid;
      hide Window;
      hide CoroutineOk;
      hide Own;
      repr := repr + {c, c.ev, c.ev.timer};
    }

    method Seat(c: Coroutine)
      requires Matches(st) && {c, c.ev, c.ev.timer} <= repr && c.socks == [] && !c.ev.timerSet
      requires c.ev.timer !in who && c.ev.timer != timers.tree.sentinel
      modifies this`who
      ensures Matches(Next(st, Start(c.ev.timer))) && who == old(who)[c.ev.timer := c]
    {
      hide TimerQueue.Valid;
      hide Net.Valid;
      hide Window;
      hide CoroutineOk;
      hide Own;
      NotWaiting(c);
      OwnMore(c);
      who := who[c.ev.timer := c];
    }

    method End(c: Coroutine)
      requires Valid() && Is(c, Running)
      modifies this`log, this`st
      ensures Valid() && log == old(log) + [Finish(c.ev.timer)] && st == Next(old(st), Finish(c.ev.timer))
      ensures Now() == Take(old(Now()), Finish(c.ev.timer))
    {
      hide Holders;
      hide TimerQueue.Valid;
      hide Net.Valid;
      hide Logged;
      Log(Finish(c.ev.timer));
      AllKeep();
    }

    // ------------------------------------------------------------ sockets

    method OpenSocket(c: Coroutine) returns (s: Socket)
      requires Valid() && Is(c, Running)
      modifies this`repr, net`socks, c`socks
      ensures Valid() && Between() && fresh(s) && c.socks == old(c.socks) + [s] && s.State() == Blank()
    {
      hide TimerQueue.Valid;
      hide Net.Valid;
      hide Logged;
      hide Matches;
      hide Unlisted;
      s := Make(c);
      Hold(c, s);
      List(s);
    }

    /** All is in order but for a new socket, which does not count among the objects of the thread yet; held are the sockets
        that coroutines hold. */
    ghost predicate Unlisted(s: Socket, held: set<Socket>)
      reads this, repr, net, net.socks
    {
      && Rooted() && timers.Synced() && timers.due.Keys <= repr && net.socks - {s} <= repr && Known(st)
      && s in net.socks && held <= net.socks && Own(who, held)
      && timers.Valid()
      && st.queue == timers.Queue() && Window(st.queue)
      && InTime(st)
      && forall n :: n in who ==> CoroutineOk(who[n], st.status[n])
    }

    method Make(c: Coroutine) returns (s: Socket)
      requires Valid() && Mine(c)
      modifies net`socks
      ensures Unlisted(s, net.socks - {s}) && net.Valid() && fresh(s)
      ensures s.owner == c && s.State() == Blank()
    {
      hide TimerQueue.Valid;
      hide Net.Valid;
      hide Logged;
      hide Window;
      hide CoroutineOk;
      hide Own;
      s := net.NewSocket(c);
      assert net.socks - {s} == old(net.socks);
    }

    method Hold(c: Coroutine, s: Socket)
      requires Unlisted(s, net.socks - {s}) && s.owner == c && Is(c, Running)
      modifies c`socks
      ensures Unlisted(s, net.socks) && c.socks == old(c.socks) + [s]
    {
      hide TimerQueue.Valid;
      hide Window;
      hide Aimed;
      hide Own;
      Append(c, s);
    }

    method List(s: Socket)
      requires Unlisted(s, net.socks) && net.Valid()
      modifies this`repr
      ensures Matches(st) && repr == old(repr) + {s}
    {
      hide TimerQueue.Valid;
      hide Net.Valid;
      hide Window;
      hide CoroutineOk;
      hide Own;
      repr := repr + {s};
    }

    method Append(c: Coroutine, s: Socket)
      requires Own(who, net.socks - {s}) && s in net.socks && s.owner == c && Mine(c)
      modifies c`socks
      ensures Own(who, net.socks) && c.socks == old(c.socks) + [s]
    {
      c.socks := c.socks + [s];
      forall n, x | n in who && x in who[n].socks
        ensures x in net.socks && x.owner == who[n]
      {
        if x in old(who[n].socks) {
          assert old(x in who[n].socks);
          assert x in net.socks - {s};
        } else {
          assert who[n] == c && x == s;
        }
      }
      forall x | x in net.socks
        ensures x.owner.ev.timer in who && who[x.owner.ev.timer] == x.owner && x in who[x.owner.ev.timer].socks
      {
        assert x != s ==> x in old(who[x.owner.ev.timer].socks);
      }
    }

    method WriteTimeout(c: Coroutine, s: Socket, timeout: int) returns (ok: bool)
      requires Valid() && Mine(c) && s in c.socks
      modifies s`connectTimeout, s`readTimeout
      ensures Valid() && ok == (0 < timeout <= 600000)
      ensures if ok then s.connectTimeout == s.readTimeout == timeout else unchanged(s)
    {
      hide TimerQueue.Valid;
      hide Net.Valid;
      hide Logged;
      ok := net.SetTimeout(s, timeout);
    }

    method CallEpoll(c: Coroutine, s: Socket, op: EpollOp, willing: bool) returns (ret: int)
      requires Valid() && Mine(c) && s in c.socks && s.open && s.vmCtx == c && !op.Mod?
      modifies net`registered, s`active
      ensures Valid() && (ret == 0 <==> if op.Add? then willing else old(s.active))
      ensures s.active == if ret == 0 then op.Add? else old(s.active)
      ensures net.registered == if ret != 0 then old(net.registered)
        else if op.Add? then old(net.registered)[s.fd := c.ev] else old(net.registered) - {s.fd}
    {
      hide TimerQueue.Valid;
      hide Net.Valid;
      hide Logged;
      hide CoroutineOk;
      ret := net.EpollCtl(s, op, if op.Add? then c.ev else null, willing);
    }

    method MarkConnected(c: Coroutine, s: Socket)
      requires Valid() && Mine(c) && s in c.socks && s.open && s.vmCtx == c
      modifies s`connected
      ensures Valid() && s.connected
    {
      hide TimerQueue.Valid;
      hide Net.Valid;
      hide Logged;
      net.SetConnected(s);
    }

    /** The socket of a running coroutine gets a descriptor. */
    method GiveDescriptor(c: Coroutine, s: Socket, fd: int, waits: bool)
      requires Valid() && Is(c, Running) && s in c.socks && s.fd == -1 && fd >= 0 && fd !in net.open
      modifies net`open, s`fd, s`vm, s`vmCtx, s`open
      ensures Valid() && s.open && s.fd == fd && (waits ==> s.vm == s.vmCtx == c) && net.open == old(net.open)[fd := s]
      ensures !waits ==> s.vmCtx == old(s.vmCtx)
    {
      hide TimerQueue.Valid;
      hide Net.Valid;
      hide Logged;
      net.Attach(s, fd, if waits then c else null);
    }

    lemma SocketFacts(c: Coroutine, s: Socket)
      requires Valid() && Mine(c) && s in c.socks
      ensures 0 < s.connectTimeout < TWO_31 && 0 < s.readTimeout < TWO_31
      ensures s.connected ==> s.vmCtx == c
      ensures s.vmCtx == null || s.vmCtx == c
      ensures s.open ==> s.fd != -1
      ensures s.fd == -1 ==> !s.connected && !s.open
      ensures !s.open ==> !s.active
      ensures net.registered.Keys <= net.open.Keys
      ensures s.open ==> (s.active <==> s.fd in net.registered) && (s.active ==> net.registered[s.fd] == c.ev)
    {
      hide TimerQueue.Valid;
      hide Logged;
      assert net.SocketOk(s);
      assert forall f :: f in net.registered ==> f in net.open;
    }

    /** The socket will wake the coroutine that reads from it. */
    method WriteVm(c: Coroutine, s: Socket)
      requires Valid() && Is(c, Running) && s in c.socks && s.open && s.vmCtx == c
      modifies s`vm, s`vmCtx
      ensures Valid() && s.vm == s.vmCtx == c
    {
      hide TimerQueue.Valid;
      hide Net.Valid;
      hide Logged;
      net.Claim(s, c);
    }

    method CloseDescriptor(c: Coroutine, s: Socket)
      requires Valid() && Is(c, Running) && s in c.socks && (s.fd != -1 ==> s.open && s.vmCtx == c)
      modifies net`registered, net`open, s`active, s`open
      ensures Valid() && !s.open && !s.active
      ensures net.open == old(net.open) - (if s.fd == -1 then {} else {s.fd})
      ensures net.registered == old(net.registered) - (if s.fd == -1 then {} else {s.fd})
    {
      hide TimerQueue.Valid;
      hide Net.Valid;
      hide Logged;
      net.Close(c, s);
    }

    method ResetSocket(c: Coroutine, s: Socket)
      requires Valid() && Is(c, Running) && s in c.socks && s.open
      modifies net`registered, net`open, s`active, s`open, s`fd, s`connected
      ensures Valid() && !s.open && s.fd == -1 && !s.connected && !s.active
      ensures net.open == old(net.open) - {old(s.fd)} && net.registered == old(net.registered) - {old(s.fd)}
    {
      hide TimerQueue.Valid;
      hide Net.Valid;
      hide Logged;
      net.Abandon(c, s);
    }

    // ------------------------------------------------------------ what these do to the world

    /** What the world says of the sockets of c is what they are. */
    lemma SocketIs(c: Coroutine, s: Socket)
      requires Own(who, net.socks) && Mine(c) && s in c.socks
      ensures var i, w := IndexOf(c.socks, s), Now();
        w.Has(c.ev.timer, i) && c.socks[i] == s && w.co[c.ev.timer] == Held(c) && Held(c).socks[i] == s.State()
      ensures forall i: nat :: i < |c.socks| && c.socks[i] == s ==> IndexOf(c.socks, s) == i
      ensures s in net.socks && s.owner == c
    {
    }

    method NewSocket(c: Coroutine) returns (s: Socket)
      requires Valid() && Is(c, Running)
      modifies this`repr, net`socks, c`socks
      ensures Valid() && Between() && fresh(s) && c.socks == old(c.socks) + [s] && s.fd == -1 && !s.open && !s.connected
      ensures var w, id := old(Now()), c.ev.timer;
        id in w.co && Now() == w.(co := w.co[id := w.co[id].(socks := w.co[id].socks + [Blank()])])
    {
      hide Valid;
      hide Holders;
      hide Own;
      Footprint(c);
      HolderIs(c);
      s := OpenSocket(c);
      OthersKeep(c);
      SocketAdded(c);
    }

    /** The last socket of c is new. */
    twostate lemma SocketAdded(c: Coroutine)
      requires c.socks != [] && c.socks[..|c.socks| - 1] == old(c.socks) && c.ev.data == old(c.ev.data)
      requires fresh(c.socks[|c.socks| - 1]) && forall s :: s in old(c.socks) ==> unchanged(s)
      ensures Held(c) == old(Held(c)).(socks := old(Held(c)).socks + [c.socks[|c.socks| - 1].State()])
    {
      var s := c.socks[|c.socks| - 1];
      assert c.socks == old(c.socks) + [s];
      forall k: nat | k < |old(c.socks)|
        ensures c.socks[k].State() == old(c.socks[k].State())
      {
        assert old(c.socks[k] in c.socks);
      }
      if c.ev.data is Network.Socket {
        IndexOfAdded(old(c.socks), s, c.ev.data as Network.Socket);
      }
    }

    lemma NowIs()
      ensures Now().log == log && Now().st == st && Now().open == net.open.Keys && Now().registered == TimersOf(net.registered)
      ensures Now().co.Keys == who.Keys
    {
    }

    lemma HolderIs(c: Coroutine)
      requires Mine(c)
      ensures c.ev.timer in Now().co && Now().co[c.ev.timer] == Held(c)
    {
    }

    method SetEvent(c: Coroutine, data: object?, handler: Handler)
      requires Valid() && Is(c, Running)
      modifies c.ev`data, c.ev`handler, c.ev`timedout
      ensures Valid() && c.ev.data == data && c.ev.handler == handler && !c.ev.timedout
      ensures c.ev.timer in old(Now()).co && Now() == AimAt(old(Now()), c.ev.timer, AimOf(c.socks, data))
    {
      hide Valid;
      Footprint(c);
      WriteEvent(c, data, handler);
      OthersKeep(c);
    }

    method SetTimeout(c: Coroutine, s: Socket, timeout: int) returns (ok: bool)
      requires Valid() && Mine(c) && s in c.socks
      modifies s`connectTimeout, s`readTimeout
      ensures Valid() && ok == (0 < timeout <= 600000)
      ensures if ok then s.connectTimeout == s.readTimeout == timeout else unchanged(s)
      ensures var i, w := IndexOf(c.socks, s), old(Now());
        w.Has(c.ev.timer, i)
        && Now() == if ok then
            Put(w, c.ev.timer, i, w.co[c.ev.timer].socks[i].(connectTimeout := timeout, readTimeout := timeout))
          else w
    {
      hide Valid;
      hide Holders;
      Footprint(c);
      SocketIs(c, s);
      PutSame(Now(), c.ev.timer, IndexOf(c.socks, s));
      ok := WriteTimeout(c, s, timeout);
      SocketChanged(s);
    }

    method Control(c: Coroutine, s: Socket, op: EpollOp, willing: bool) returns (ret: int)
      requires Valid() && Mine(c) && s in c.socks && s.open && s.vmCtx == c && !op.Mod?
      modifies net`registered, s`active
      ensures Valid() && (ret == 0 <==> if op.Add? then willing else old(s.active))
      ensures s.active == if ret == 0 then op.Add? else old(s.active)
      ensures net.registered == if ret != 0 then old(net.registered)
        else if op.Add? then old(net.registered)[s.fd := c.ev] else old(net.registered) - {s.fd}
      ensures var i, w := IndexOf(c.socks, s), old(Now());
        w.Has(c.ev.timer, i)
        && Now() == if ret != 0 then w else
          Put(w, c.ev.timer, i, w.co[c.ev.timer].socks[i].(active := op.Add?)).(registered :=
            if op.Add? then w.registered[s.fd := c.ev.timer] else w.registered - {s.fd})
    {
      hide Valid;
      hide Holders;
      Footprint(c);
      SocketIs(c, s);
      PutSame(Now(), c.ev.timer, IndexOf(c.socks, s));
      TimersOfChanged(net.registered, s.fd, c.ev);
      ret := CallEpoll(c, s, op, willing);
      hide TimersOf;
      SocketChanged(s);
    }

    method SetConnected(c: Coroutine, s: Socket)
      requires Valid() && Mine(c) && s in c.socks && s.open && s.vmCtx == c
      modifies s`connected
      ensures Valid() && s.connected
      ensures var i, w := IndexOf(c.socks, s), old(Now());
        w.Has(c.ev.timer, i) && Now() == Put(w, c.ev.timer, i, w.co[c.ev.timer].socks[i].(connected := true))
    {
      hide Valid;
      hide Holders;
      Footprint(c);
      SocketIs(c, s);
      MarkConnected(c, s);
      SocketChanged(s);
    }

    method Attach(c: Coroutine, s: Socket, fd: int, waits: bool)
      requires Valid() && Is(c, Running) && s in c.socks && s.fd == -1 && fd >= 0 && fd !in net.open
      modifies net`open, s`fd, s`vm, s`vmCtx, s`open
      ensures Valid() && s.open && s.fd == fd && (waits ==> s.vm == s.vmCtx == c) && net.open == old(net.open)[fd := s]
      ensures var i, w := IndexOf(c.socks, s), old(Now());
        w.Has(c.ev.timer, i)
        && var s' := w.co[c.ev.timer].socks[i].(fd := fd, open := true);
        Now() == Put(w, c.ev.timer, i, if waits then s'.(claimed := true) else s').(open := w.open + {fd})
    {
      hide Valid;
      hide Holders;
      Footprint(c);
      SocketIs(c, s);
      GiveDescriptor(c, s, fd, waits);
      SocketChanged(s);
    }

    method Claim(c: Coroutine, s: Socket)
      requires Valid() && Is(c, Running) && s in c.socks && s.open && s.vmCtx == c
      modifies s`vm, s`vmCtx
      ensures Valid() && s.vm == s.vmCtx == c
      ensures Now() == old(Now())
    {
      hide Valid;
      hide Holders;
      Footprint(c);
      SocketIs(c, s);
      PutSame(Now(), c.ev.timer, IndexOf(c.socks, s));
      WriteVm(c, s);
      SocketChanged(s);
    }

    method Close(c: Coroutine, s: Socket)
      requires Valid() && Is(c, Running) && s in c.socks && (s.fd != -1 ==> s.open && s.vmCtx == c)
      modifies net`registered, net`open, s`active, s`open
      ensures Valid() && !s.open && !s.active
      ensures net.open == old(net.open) - (if s.fd == -1 then {} else {s.fd})
      ensures net.registered == old(net.registered) - (if s.fd == -1 then {} else {s.fd})
      ensures var i, w := IndexOf(c.socks, s), old(Now()); w.Has(c.ev.timer, i) && Now() == Closed(w, c.ev.timer, i)
    {
      hide Valid;
      hide Net.SocketOk;
      hide Own;
      hide Known;
      hide Once;
      hide Mine;
      hide IndexOf;
      hide Holders;
      Footprint(c);
      SocketFacts(c, s);
      SocketIs(c, s);
      TimersOfChanged(net.registered, s.fd, c.ev);
      PutSame(Now(), c.ev.timer, IndexOf(c.socks, s));
      CloseDescriptor(c, s);
      hide TimersOf;
      SocketChanged(s);
    }

    method Abandon(c: Coroutine, s: Socket)
      requires Valid() && Is(c, Running) && s in c.socks && s.open
      modifies net`registered, net`open, s`active, s`open, s`fd, s`connected
      ensures Valid() && !s.open && s.fd == -1 && !s.connected && !s.active
      ensures net.open == old(net.open) - {old(s.fd)} && net.registered == old(net.registered) - {old(s.fd)}
      ensures var i, w := IndexOf(c.socks, s), old(Now());
        w.Has(c.ev.timer, i)
        && var s' := w.co[c.ev.timer].socks[i].(fd := -1, open := false, connected := false, active := false);
        Now() == Put(w, c.ev.timer, i, s').(open := w.open - {old(s.fd)}, registered := w.registered - {old(s.fd)})
    {
      hide Valid;
      hide Holders;
      Footprint(c);
      SocketIs(c, s);
      TimersOfChanged(net.registered, s.fd, c.ev);
      ResetSocket(c, s);
      hide TimersOf;
      SocketChanged(s);
    }

    // ------------------------------------------------------------ passes

    method StartPass() returns (now: int)
      requires Valid() && st.pass.NoPass?
      modifies this`clock, this`captured, this`log, this`st
      ensures Valid() && old(clock) <= now == clock
      ensures log == old(log) + [PassStart(now)] && st == Next(old(st), PassStart(now))
      ensures Now() == Take(old(Now()), PassStart(now))
    {
      hide Valid;
      hide Next;
      hide Holders;
      now := Capture();
      AllKeep();
    }

    method Capture() returns (now: int)
      requires Valid() && st.pass.NoPass?
      modifies this`clock, this`captured, this`log, this`st
      ensures Valid() && old(clock) <= now == clock
      ensures log == old(log) + [PassStart(now)] && st == Next(old(st), PassStart(now))
    {
      hide TimerQueue.Valid;
      hide Net.Valid;
      hide Logged;
      hide Own;
      hide CoroutineOk;
      now := ReadClock();
      captured := PassAt(now);
      Log(PassStart(now));
    }

    method EndPass()
      requires Valid() && Possible(st, PassEnd)
      modifies this`captured, this`log, this`st
      ensures Valid() && log == old(log) + [PassEnd] && st == Next(old(st), PassEnd)
      ensures Now() == Take(old(Now()), PassEnd)
    {
      hide Holders;
      hide TimerQueue.Valid;
      hide Net.Valid;
      hide Logged;
      captured := NoPass;
      Log(PassEnd);
      AllKeep();
    }

    /** What a handler may rely on when it is called for the event of c: the timer is gone if it has fired,
        and is there if it has not. */
    ghost predicate Called(c: Coroutine, w: Wait)
      reads this, c`socks, c.ev, c.socks
    {
      && Mine(c) && Aimed(c, w)
      && if c.ev.timedout then Is(c, Running) && !c.ev.timerSet else Waits(c, w)
    }

    /** c waits for the network. */
    ghost predicate Waits(c: Coroutine, w: Wait)
      reads this
    {
      Mine(c) && st.IsParked(c.ev.timer) && st.status[c.ev.timer].wait == w && !w.Asleep? && st.pass.NoPass?
    }

    lemma ParkedIsAimed(c: Coroutine)
      requires Valid() && Mine(c) && st.IsParked(c.ev.timer)
      ensures Ready(c, st.status[c.ev.timer].wait)
    {
      hide TimerQueue.Valid;
      hide Net.Valid;
      hide Logged;
    }

    /** The first timer is due as its key tells, across the wrap-around of the 64-bit clock: for the clock, and for the time
        a pass goes by. */
    lemma DueAsKeyTells(node: Node, now: int)
      requires Valid() && timers.Synced() && st.queue != [] && (now == clock || captured == PassAt(now))
      requires node in timers.due && timers.Queue()[0] == Timer(node, timers.due[node])
      ensures node in who && who[node].ev.timer == node && st.IsParked(node) && st.queue[0] == Timer(node, timers.due[node])
      ensures Signed64(WrapSub(node.key, Word(now))) == st.queue[0].due - now
    {
      hide Net.Valid;
      RunCoherent(start, log);
      assert st.queue[0] in st.queue;
      SignedDifference(timers.due[node], now);
    }

    /** The epoll set delivers events of coroutines. */
    lemma RegisteredIsOwned(fd: int)
      requires Valid() && fd in net.registered
      ensures var ev := net.registered[fd]; ev.timer in who && who[ev.timer].ev == ev
    {
      hide TimerQueue.Valid;
      hide Logged;
      assert net.SocketOk(net.open[fd]);
    }

    /** An event the network may deliver belongs to a coroutine that waits for the network. */
    lemma Deliverable(fd: int)
      requires Valid() && fd in net.registered && st.pass.NoPass?
      requires net.registered[fd].timerSet && net.registered[fd].handler != TimerHandler
      ensures var ev := net.registered[fd];
        ev.timer in who && who[ev.timer].ev == ev && st.IsParked(ev.timer) && Waits(who[ev.timer], st.status[ev.timer].wait)
    {
      hide TimerQueue.Valid;
      hide Logged;
      assert net.SocketOk(net.open[fd]);
    }

    /** In every state of every run: the flag of an event says whether its node is in the tree, where it is
        only once, with the last 64 bits of its deadline; and it is there exactly while its coroutine waits. */
    lemma TimerSetIsTruth(c: Coroutine)
      requires Valid() && Mine(c)
      ensures Once(InOrder(timers.tree.tree))
      ensures c.ev.timerSet <==> c.ev.timer in InOrder(timers.tree.tree)
      ensures c.ev.timerSet <==> st.status[c.ev.timer].Parked?
      ensures c.ev.timerSet ==> c.ev.timer.key == Word(st.status[c.ev.timer].due)
    {
      hide Net.Valid;
      hide RbTree.Valid;
      ArmedIfParked(c);
      timers.QueueOnce();
      InOrderNodes(timers.tree.tree);
    }
  }
}
