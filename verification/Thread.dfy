/** What the coroutines of a thread may do, and the loop that wakes them (main.c, mtcp_lua_socket_tcp.c). */
module Thread {
  import opened RbNode
  import opened TimerList
  import opened Events
  import opened EventTimer
  import opened Network
  import opened Schedule
  import opened Program
  import opened Runs
  import opened Scheduler

  datatype Delivery = Delivery(ev: Event, failed: bool)

  // ------------------------------------------------------------ calls from Lua

  /** mtcp_lua_mtcp_sleep */
  method SleepFor(t: Context, c: Coroutine, seconds: int) returns (waits: bool)
    requires t.Valid() && t.Is(c, Running)
    modifies t.repr
    ensures t.Valid() && (waits <==> Truncated(seconds * 1000) >= 0)
    ensures Waited(t, c, waits, Asleep, Truncated(seconds * 1000))
    ensures Do(old(t.Now()), c.ev.timer, Sleep(seconds), t.clock) == Made(t.Now(), !waits)
    ensures 0 <= seconds <= 2147483 ==>
      waits && t.log == old(t.log) + [Park(c.ev.timer, Asleep, t.clock, t.clock + 1000 * seconds)]
    ensures -2147483 <= seconds < 0 ==> !waits && t.log == old(t.log)
  {
    hide Context.Valid;
    hide Context.Now;
    hide Context.Own;
    hide Context.Known;
    hide Put;
    hide AimAt;
    hide Take;
    hide Next;
    t.Footprint(c);
    var delay := Truncated(seconds * 1000);
    TruncatedIs(seconds * 1000);
    if delay < 0 {
      return false;
    }
    t.ClearTimerSet(c);
    SleepUntil(t, c, delay);
    return true;
  }

  /** c now waits until timeout from now, or nothing happened. */
  twostate predicate Waited(t: Context, c: Coroutine, waits: bool, w: Wait, timeout: int)
    reads t
  {
    var a := Park(c.ev.timer, w, t.clock, t.clock + timeout);
    if waits then t.Took([a]) && t.st == Next(old(t.st), a) else t.Took([]) && t.st == old(t.st)
  }

  method SleepUntil(t: Context, c: Coroutine, delay: int)
    requires t.Valid() && t.Is(c, Running) && 0 <= delay < TWO_31
    modifies t.repr
    ensures t.Valid() && Waited(t, c, true, Asleep, delay) && old(t.clock) <= t.clock
    ensures c.ev.timer in old(t.Now()).co
    ensures t.Now() == Take(AimAt(old(t.Now()), c.ev.timer, -1), Park(c.ev.timer, Asleep, t.clock, t.clock + delay))
  {
    hide Context.Valid;
    hide Context.Now;
    hide Context.Own;
    hide Context.Known;
    hide Put;
    hide AimAt;
    hide Take;
    hide Next;
    t.Footprint(c);
    t.SetEvent(c, c, TimerHandler);
    t.ParkAs(c, Asleep, delay);
  }

  /** mtcp_lua_socket_tcp_connect, for a socket without a descriptor. */
  method ConnectTo(t: Context, c: Coroutine, s: Socket, ghost i: nat, attempt: Attempt) returns (waits: bool)
    requires t.Valid() && t.Is(c, Running) && i < |c.socks| && c.socks[i] == s && s.fd == -1
    requires attempt.AtOnce? || attempt.InProgress? ==> attempt.fd >= 0 && attempt.fd !in t.net.open
    modifies t.repr
    ensures t.Valid() && (waits <==> attempt.InProgress? && attempt.willing)
    ensures Waited(t, c, waits, InConnect, s.connectTimeout) && 0 < s.connectTimeout
    ensures old(t.Now()).Has(c.ev.timer, i)
    ensures DoConnect(old(t.Now()), c.ev.timer, i, attempt, t.clock) == Made(t.Now(), !waits)
  {
    hide Context.Valid;
    hide Context.Now;
    hide Context.Own;
    hide Context.Known;
    hide Put;
    hide AimAt;
    hide Take;
    hide Next;
    t.Footprint(c);
    t.SocketFacts(c, s);
    t.SocketIs(c, s);
    match attempt
    case NotTried => waits := false;
    case AtOnce(fd) =>
      ConnectedAtOnce(t, c, s, i, fd);
      waits := false;
    case Refused =>
      t.Close(c, s);
      waits := false;
    case InProgress(fd, willing) =>
      waits := AwaitConnection(t, c, s, i, fd, willing);
  }

  method ConnectedAtOnce(t: Context, c: Coroutine, s: Socket, ghost i: nat, fd: int)
    requires t.Valid() && t.Is(c, Running) && i < |c.socks| && c.socks[i] == s && s.fd == -1
    requires fd >= 0 && fd !in t.net.open
    modifies t.repr
    ensures t.Valid() && Waited(t, c, false, InConnect, 0)
    ensures 0 < s.connectTimeout
    ensures old(t.Now()).Has(c.ev.timer, i)
    ensures DoConnect(old(t.Now()), c.ev.timer, i, AtOnce(fd), 0) == Made(t.Now(), true)
  {
    hide Context.Valid;
    hide Context.Now;
    hide Context.Own;
    hide Context.Known;
    hide Put;
    hide AimAt;
    hide Take;
    hide Next;
    t.Footprint(c);
    t.SocketFacts(c, s);
    t.SocketIs(c, s);
    t.Attach(c, s, fd, false);
  }

  method WaitOn(t: Context, c: Coroutine, s: Socket, ghost w: Wait, timeout: int)
    requires t.Valid() && t.Is(c, Running) && t.Ready(c, w) && 0 <= timeout < TWO_31 && s in c.socks
    modifies t.repr
    ensures t.Valid() && Waited(t, c, true, w, timeout) && unchanged(t.net) && unchanged(s) && unchanged(c)
    ensures t.Now() == Take(old(t.Now()), Park(c.ev.timer, w, t.clock, t.clock + timeout))
  {
    hide Context.Valid;
    hide Context.Now;
    hide Context.Own;
    hide Context.Known;
    hide Put;
    hide AimAt;
    hide Take;
    hide Next;
    t.Footprint(c);
    t.ParkAs(c, w, timeout);
  }

  /** The attempt is under way. */
  method AwaitConnection(t: Context, c: Coroutine, s: Socket, ghost i: nat, fd: int, willing: bool) returns (waits: bool)
    requires t.Valid() && t.Is(c, Running) && i < |c.socks| && c.socks[i] == s && s.fd == -1
    requires fd >= 0 && fd !in t.net.open
    modifies t.repr
    ensures t.Valid() && waits == willing
    ensures Waited(t, c, waits, InConnect, s.connectTimeout) && 0 < s.connectTimeout
    ensures old(t.Now()).Has(c.ev.timer, i)
    ensures DoConnect(old(t.Now()), c.ev.timer, i, InProgress(fd, willing), t.clock) == Made(t.Now(), !waits)
  {
    hide Context.Valid;
    hide Context.Now;
    hide Context.Own;
    hide Context.Known;
    hide Put;
    hide AimAt;
    hide Take;
    hide Next;
    hide Tried;
    hide Granted;
    hide Denied;
    hide DoConnect;
    ghost var w := t.Now();
    Try(t, c, s, i, fd);
    waits := Ask(t, c, s, i, willing);
    ConnectSteps(w, c.ev.timer, i, fd, t.clock);
  }

  /** The socket gets its descriptor, and the event its socket. */
  method Try(t: Context, c: Coroutine, s: Socket, ghost i: nat, fd: int)
    requires t.Valid() && t.Is(c, Running) && i < |c.socks| && c.socks[i] == s && s.fd == -1
    requires fd >= 0 && fd !in t.net.open
    modifies t.repr
    ensures t.Valid() && Waited(t, c, false, InConnect, 0) && c.socks == old(c.socks)
    ensures t.Ready(c, InConnect) && s.fd == fd && c.ev.data == s
    ensures 0 < s.connectTimeout < TWO_31 && s.connectTimeout == old(s.connectTimeout)
    ensures var w := old(t.Now());
      && w.Has(c.ev.timer, i) && w.co[c.ev.timer].socks[i] == old(s.State()) && t.Now() == Tried(w, c.ev.timer, i, fd)
      && fd !in w.open && fd !in w.registered && !old(s.connected) && !old(s.active) && !old(s.open)
  {
    hide Context.Valid;
    hide Context.Now;
    hide Context.Own;
    hide Context.Known;
    hide Put;
    hide AimAt;
    hide Take;
    hide Next;
    t.Footprint(c);
    t.SocketFacts(c, s);
    t.SocketIs(c, s);
    t.NowIs();
    t.Attach(c, s, fd, true);
    t.SetEvent(c, s, ConnectHandler);
  }

  /** The network is asked to report on the socket; the timer is armed if it takes the request. */
  method Ask(t: Context, c: Coroutine, s: Socket, ghost i: nat, willing: bool) returns (waits: bool)
    requires t.Valid() && t.Is(c, Running) && i < |c.socks| && c.socks[i] == s && c.ev.data == s && t.Ready(c, InConnect)
    requires 0 < s.connectTimeout < TWO_31
    modifies t.repr
    ensures t.Valid() && waits == willing && s.connectTimeout == old(s.connectTimeout)
    ensures Waited(t, c, waits, InConnect, s.connectTimeout)
    ensures var w, id, fd := old(t.Now()), c.ev.timer, old(s.fd);
      w.Has(id, i)
      && t.Now() == if waits then
          Take(Granted(w, id, i, fd), Park(id, InConnect, t.clock, t.clock + s.connectTimeout))
        else Denied(w, id, i, fd)
  {
    hide Context.Valid;
    hide Context.Now;
    hide Context.Own;
    hide Context.Known;
    hide Put;
    hide AimAt;
    hide Take;
    hide Next;
    t.Footprint(c);
    t.SocketIs(c, s);
    var ret := t.Control(c, s, Add, willing);
    if ret != 0 {
      t.Abandon(c, s);
      return false;
    }
    WaitOn(t, c, s, InConnect, s.connectTimeout);
    return true;
  }

  /** mtcp_lua_socket_tcp_recv: that the registration may fail goes unnoticed. Only an open descriptor has nothing to
      read yet. */
  method RecvFrom(t: Context, c: Coroutine, s: Socket, ghost i: nat, reading: Reading) returns (waits: bool)
    requires t.Valid() && t.Is(c, Running) && i < |c.socks| && c.socks[i] == s && (s.fd != -1 && reading.NotYet? ==> s.open)
    modifies t.repr
    ensures t.Valid() && (waits <==> reading.NotYet? && old(s.connected))
    ensures Waited(t, c, waits, InRecv, s.readTimeout) && 0 < s.readTimeout
    ensures old(t.Now()).Has(c.ev.timer, i)
    ensures DoRecv(old(t.Now()), c.ev.timer, i, reading, t.clock) == Made(t.Now(), !waits)
  {
    hide Context.Valid;
    hide Context.Now;
    hide Context.Own;
    hide Context.Known;
    hide Put;
    hide AimAt;
    hide Take;
    hide Next;
    t.Footprint(c);
    t.SocketFacts(c, s);
    t.SocketIs(c, s);
    if s.fd == -1 || !s.connected || !reading.NotYet? {
      return false;
    }
    AwaitData(t, c, s, i, reading.willing);
    return true;
  }

  /** The timer first, then the registration. */
  method AwaitData(t: Context, c: Coroutine, s: Socket, ghost i: nat, willing: bool)
    requires t.Valid() && t.Is(c, Running) && i < |c.socks| && c.socks[i] == s && s.open && s.connected
    modifies t.repr
    ensures t.Valid() && Waited(t, c, true, InRecv, s.readTimeout) && 0 < s.readTimeout
    ensures old(t.Now()).Has(c.ev.timer, i)
    ensures DoRecv(old(t.Now()), c.ev.timer, i, NotYet(willing), t.clock) == Made(t.Now(), false)
  {
    hide Context.Valid;
    hide Context.Now;
    hide Context.Own;
    hide Context.Known;
    hide Put;
    hide AimAt;
    hide Take;
    hide Next;
    hide Granted;
    hide DoRecv;
    ghost var w := t.Now();
    Listen(t, c, s, i);
    WaitOn(t, c, s, InRecv, s.readTimeout);
    Register(t, c, s, i, willing);
    RecvSteps(w, c.ev.timer, i, t.clock, willing);
  }


  /** The event gets its socket. */
  method Listen(t: Context, c: Coroutine, s: Socket, ghost i: nat)
    requires t.Valid() && t.Is(c, Running) && i < |c.socks| && c.socks[i] == s && s.open && s.connected
    modifies t.repr
    ensures t.Valid() && Waited(t, c, false, InRecv, 0) && c.socks == old(c.socks) && s.open && s.vmCtx == c
    ensures t.Ready(c, InRecv) && 0 < s.readTimeout < TWO_31 && s.fd == old(s.fd) && s.readTimeout == old(s.readTimeout)
    ensures var w := old(t.Now());
      w.Has(c.ev.timer, i) && w.co[c.ev.timer].socks[i] == old(s.State()) && t.Now() == AimAt(w, c.ev.timer, i)
  {
    hide Context.Valid;
    hide Context.Now;
    hide Context.Own;
    hide Context.Known;
    hide Put;
    hide AimAt;
    hide Take;
    hide Next;
    t.Footprint(c);
    t.SocketFacts(c, s);
    t.SocketIs(c, s);
    t.Claim(c, s);
    t.SetEvent(c, s, RecvHandler);
  }

  /** That the network may not take the request goes unnoticed. */
  method Register(t: Context, c: Coroutine, s: Socket, ghost i: nat, willing: bool)
    requires t.Valid() && t.Mine(c) && i < |c.socks| && c.socks[i] == s && s.open && s.vmCtx == c
    modifies t.repr
    ensures t.Valid() && t.Took([]) && t.st == old(t.st) && t.clock == old(t.clock)
    ensures s.readTimeout == old(s.readTimeout)
    ensures var w := old(t.Now());
      w.Has(c.ev.timer, i) && t.Now() == if willing then Granted(w, c.ev.timer, i, old(s.fd)) else w
  {
    hide Context.Valid;
    hide Context.Now;
    hide Context.Own;
    hide Context.Known;
    hide Put;
    hide AimAt;
    hide Take;
    hide Next;
    t.Footprint(c);
    t.SocketIs(c, s);
    var _ := t.Control(c, s, Add, willing);
  }

  /** What the program and the network are assumed to keep to: a socket is connected while it has no descriptor, gets one
      that is not in use, does not wait for data once it is closed, and is closed once, after it has waited. */
  predicate Admissible(t: Context, c: Coroutine, call: Call)
    reads t, t.net, c, c.socks
  {
    match call
    case SetTimeout(i, _) => i < |c.socks|
    case Connect(i, attempt) =>
      && i < |c.socks| && c.socks[i].fd == -1
      && (attempt.AtOnce? || attempt.InProgress? ==> attempt.fd >= 0 && attempt.fd !in t.net.open)
    case Recv(i, reading) => i < |c.socks| && (c.socks[i].fd != -1 && reading.NotYet? ==> c.socks[i].open)
    case Close(i) => i < |c.socks| && (c.socks[i].fd != -1 ==> c.socks[i].open && c.socks[i].vmCtx == c)
    case _ => true
  }

  /** It is the same to say that of the world. */
  lemma AdmissibleIsAllowed(t: Context, c: Coroutine, call: Call)
    requires t.Valid() && t.Mine(c)
    ensures c.ev.timer in t.Now().co
    ensures Admissible(t, c, call) <==> Allowed(t.Now(), c.ev.timer, call)
  {
    hide Context.Valid;
    t.HolderIs(c);
    t.NowIs();
    if call.SetTimeout? || call.Connect? || call.Recv? || call.Close? {
      if call.sock < |c.socks| {
        t.SocketFacts(c, c.socks[call.sock]);
        assert t.Now().co[c.ev.timer].socks[call.sock] == c.socks[call.sock].State();
      }
    }
  }

  /** The call asks to sleep for no time. */
  predicate Naps(call: Call) {
    call.Sleep? && Truncated(call.seconds * 1000) == 0
  }

  /** No call asks to sleep for no time. */
  ghost predicate Restful(lua: seq<Call>) {
    forall call :: call in lua ==> !Naps(call)
  }

  /** Of the calls lua those before rest have been made, and from step n on they were for later times, if lua is restful. */
  ghost predicate Follows(rest: seq<Call>, lua: seq<Call>, log: seq<Step>, n: nat) {
    && |rest| <= |lua| && rest == lua[|lua| - |rest|..]
    && (Restful(lua) ==> Patient(log, n))
  }

  /** Nothing was asked for, or nothing yet. */
  lemma FollowsNone(lua: seq<Call>, log: seq<Step>, n: nat)
    requires forall k :: n <= k < |log| ==> !log[k].Park?
    ensures Follows(lua, lua, log, n)
    ensures lua != [] ==> Follows(lua[1..], lua, log, n)
  {
  }

  lemma FollowsOn(r: seq<Call>, rest: seq<Call>, lua: seq<Call>, before: seq<Step>, log: seq<Step>, n: nat)
    requires Follows(rest, lua, before, n) && Follows(r, rest, log, |before|) && before <= log && n <= |before|
    ensures Follows(r, lua, log, n) && |r| <= |rest| <= |lua| && (Restful(lua) ==> Restful(rest))
  {
    assert forall call :: call in rest ==> call in lua;
    if Restful(lua) {
      forall k | n <= k < |log| && log[k].Park?
        ensures log[k].at < log[k].due
      {
        assert k < |before| ==> log[k] == before[k];
      }
    }
  }

  /** One call of the coroutine c; what the program does next is in lua. */
  method Perform(t: Context, c: Coroutine, call: Call, lua: seq<Call>) returns (rest: seq<Call>, runs: bool)
    requires t.Valid() && t.Is(c, Running) && Admissible(t, c, call)
    modifies t.repr
    ensures t.Valid() && t.Between() && Leaves(old(t.st), t.st, c.ev.timer)
    ensures |rest| <= |lua| && Follows(rest, [call] + lua, t.log, |old(t.log)|)
    ensures t.Mine(c) && c.ev.timer in t.st.status && (runs <==> t.st.status[c.ev.timer].Running?)
    ensures c.ev.timer in old(t.Now()).co && Makes(old(t.Now()), c.ev.timer, [call] + lua, t.Now(), rest, runs)
    decreases |lua|, 3
  {
    hide Context.Valid;
    hide Context.Now;
    hide Context.Own;
    hide Context.Known;
    hide Do;
    hide Allowed;
    hide Makes;
    hide Turns;
    hide Born;
    hide Take;
    AdmissibleIsAllowed(t, c, call);
    t.Footprint(c);
    ghost var w := t.Now();
    rest, runs := lua, true;
    match call
    case Sleep(seconds) =>
      var waits := SleepFor(t, c, seconds);
      runs := !waits;
      FollowsCall(call, lua, t.log, |old(t.log)|);
      MakesDo(w, c.ev.timer, call, lua, t.Now(), runs, t.clock);
    case Spawn =>
      rest := SpawnThread(t, c, lua);
      t.NowIs();
      FollowsFirst(rest, call, lua, t.log, |old(t.log)|);
      MakesSpawn(w, c.ev.timer, lua, t.Now(), rest);
    case Return =>
      EndThread(t, c);
      runs := false;
      DoReturn(w, c.ev.timer);
      FollowsCall(call, lua, t.log, |old(t.log)|);
      MakesDo(w, c.ev.timer, call, lua, t.Now(), runs, 0);
    case _ =>
      runs := PerformOnSocket(t, c, call);
      FollowsCall(call, lua, t.log, |old(t.log)|);
      MakesDo(w, c.ev.timer, call, lua, t.Now(), runs, t.clock);
  }

  lemma DoReturn(w: World, id: Node)
    requires id in w.co
    ensures Allowed(w, id, Return) && Do(w, id, Return, 0) == Made(Take(w, Finish(id)), false)
  {
  }

  lemma MakesSpawn(w: World, id: Node, lua: seq<Call>, w': World, rest: seq<Call>)
    requires id in w.co
    requires var child := ChildOf(w'.log, w, id); Turns(Born(w, child), child, lua, w', rest)
    ensures Makes(w, id, [Spawn] + lua, w', rest, true)
  {
    assert ([Spawn] + lua)[1..] == lua;
  }

  /** The program of c has ended. */
  method EndThread(t: Context, c: Coroutine)
    requires t.Valid() && t.Is(c, Running)
    modifies t.repr
    ensures t.Valid() && t.Took([Finish(c.ev.timer)]) && t.Is(c, Finished)
    ensures Leaves(old(t.st), t.st, c.ev.timer) && t.st.queue == old(t.st.queue)
    ensures t.Now() == Take(old(t.Now()), Finish(c.ev.timer))
    ensures c.ev.timer in old(t.Now()).co
  {
    hide Context.Valid;
    hide Context.Now;
    hide Context.Own;
    hide Context.Known;
    hide Take;
    t.Footprint(c);
    t.HolderIs(c);
    t.End(c);
  }

  /** One call of the socket library. */
  method PerformOnSocket(t: Context, c: Coroutine, call: Call) returns (runs: bool)
    requires t.Valid() && t.Is(c, Running) && Admissible(t, c, call)
    requires call.Socket? || call.SetTimeout? || call.Connect? || call.Recv? || call.Close?
    modifies t.repr
    ensures t.Valid() && t.Between() && Leaves(old(t.st), t.st, c.ev.timer)
    ensures t.Mine(c) && c.ev.timer in t.st.status && (runs <==> t.st.status[c.ev.timer].Running?)
    ensures Patient(t.log, |old(t.log)|)
    ensures c.ev.timer in old(t.Now()).co && Allowed(old(t.Now()), c.ev.timer, call)
    ensures Do(old(t.Now()), c.ev.timer, call, t.clock) == Made(t.Now(), runs)
  {
    hide Context.Valid;
    hide Context.Now;
    hide Context.Own;
    hide Context.Known;
    hide DoConnect;
    hide DoRecv;
    hide Closed;
    hide Put;
    AdmissibleIsAllowed(t, c, call);
    if call.Connect? {
      var waits := ConnectTo(t, c, c.socks[call.sock], call.sock, call.attempt);
      runs := !waits;
    } else if call.Recv? {
      var waits := RecvFrom(t, c, c.socks[call.sock], call.sock, call.reading);
      runs := !waits;
    } else {
      PerformAtOnce(t, c, call);
      runs := true;
    }
  }

  /** One call of the socket library that does not wait. */
  method PerformAtOnce(t: Context, c: Coroutine, call: Call)
    requires t.Valid() && t.Is(c, Running) && Admissible(t, c, call)
    requires call.Socket? || call.SetTimeout? || call.Close?
    modifies t.repr
    ensures t.Valid() && t.Between() && t.log == old(t.log) && t.st == old(t.st) && t.Mine(c)
    ensures c.ev.timer in old(t.Now()).co && Allowed(old(t.Now()), c.ev.timer, call)
    ensures Do(old(t.Now()), c.ev.timer, call, t.clock) == Made(t.Now(), true)
  {
    hide Context.Valid;
    hide Context.Now;
    hide Context.Own;
    hide Context.Known;
    hide Closed;
    hide Put;
    AdmissibleIsAllowed(t, c, call);
    t.Footprint(c);
    match call
    case Socket => var _ := t.NewSocket(c);
    case SetTimeout(i, timeout) =>
      t.SocketIs(c, c.socks[i]);
      var _ := t.SetTimeout(c, c.socks[i], timeout);
    case Close(i) =>
      t.SocketIs(c, c.socks[i]);
      t.Close(c, c.socks[i]);
  }

  lemma FollowsCall(call: Call, lua: seq<Call>, log: seq<Step>, n: nat)
    requires !Naps(call) ==> Patient(log, n)
    ensures Follows(lua, [call] + lua, log, n)
  {
    assert call in [call] + lua;
  }

  lemma FollowsFirst(rest: seq<Call>, call: Call, lua: seq<Call>, log: seq<Step>, n: nat)
    requires Follows(rest, lua, log, n)
    ensures Follows(rest, [call] + lua, log, n)
  {
    assert forall c :: c in lua ==> c in [call] + lua;
  }

  /** mtcp_lua_thread_spawn: the new coroutine runs at once, inside the call. */
  method SpawnThread(t: Context, c: Coroutine, lua: seq<Call>) returns (rest: seq<Call>)
    requires t.Valid() && t.Is(c, Running)
    modifies t.repr
    ensures t.Valid() && t.Between() && Leaves(old(t.st), t.st, c.ev.timer) && t.Is(c, Running)
    ensures Follows(rest, lua, t.log, |old(t.log)|) && |rest| <= |lua|
    ensures var w := old(t.Now()); var child := ChildOf(t.log, w, c.ev.timer);
      child !in w.st.status && Turns(Born(w, child), child, lua, t.Now(), rest)
    decreases |lua|, 2
  {
    hide Context.Valid;
    hide Context.Now;
    hide Context.Own;
    hide Context.Known;
    hide Follows;
    hide Leaves;
    hide Resumed;
    hide Next;
    hide Turns;
    hide Born;
    t.Footprint(c);
    t.NowIs();
    var child := t.Create();
    ghost var before := t.log;
    FollowsNone(lua, before, |old(t.log)|);
    rest := RunThread(t, child, lua);
    FollowsOn(rest, lua, lua, before, t.log, |old(t.log)|);
    ChildResumed(old(t.st), t.st, c.ev.timer, child.ev.timer);
  }

  /** A child that was started and has had its turn leaves its parent running. */
  lemma ChildResumed(s: State, s': State, id: Node, child: Node)
    requires s.Is(id, Running) && child !in s.status && Resumed(Next(s, Start(child)), s', child)
    ensures Leaves(s, s', id) && s'.Is(id, Running)
  {
  }

  /** The call that comes next in lua is made, or skipped if it is not admissible. */
  method CallNext(t: Context, c: Coroutine, lua: seq<Call>) returns (rest: seq<Call>, runs: bool)
    requires t.Valid() && t.Is(c, Running) && lua != []
    modifies t.repr
    ensures t.Valid() && t.Between() && Leaves(old(t.st), t.st, c.ev.timer)
    ensures |rest| < |lua| && Follows(rest, lua, t.log, |old(t.log)|)
    ensures t.Mine(c) && c.ev.timer in t.st.status && (runs <==> t.st.status[c.ev.timer].Running?)
    ensures c.ev.timer in old(t.Now()).co && Makes(old(t.Now()), c.ev.timer, lua, t.Now(), rest, runs)
    decreases |lua|, 0
  {
    hide Context.Valid;
    hide Context.Now;
    hide Context.Own;
    hide Context.Known;
    hide Follows;
    hide Admissible;
    hide Allowed;
    hide Turns;
    hide Do;
    var call := lua[0];
    rest, runs := lua[1..], true;
    assert lua == [call] + rest;
    AdmissibleIsAllowed(t, c, call);
    if Admissible(t, c, call) {
      rest, runs := Perform(t, c, call, rest);
    } else {
      FollowsNone(lua, t.log, |t.log|);
    }
  }

  /** mtcp_lua_run_thread: the coroutine runs until it waits or ends. A program that asks for nothing more has ended. */
  method RunThread(t: Context, c: Coroutine, lua: seq<Call>) returns (rest: seq<Call>)
    requires t.Valid() && t.Is(c, Running)
    modifies t.repr
    ensures t.Valid() && t.Between() && Resumed(old(t.st), t.st, c.ev.timer) && t.Mine(c)
    ensures |rest| < |lua| || (rest == lua && t.st.queue == old(t.st.queue))
    ensures Follows(rest, lua, t.log, |old(t.log)|)
    ensures Turns(old(t.Now()), c.ev.timer, lua, t.Now(), rest)
    decreases |lua|, 1
  {
    hide Context.Valid;
    hide Context.Now;
    hide Context.Own;
    hide Context.Known;
    hide Follows;
    hide Leaves;
    hide Next;
    hide Turns;
    hide Makes;
    ghost var w := t.Now();
    rest := lua;
    if lua == [] {
      FollowsNone(lua, t.log, |t.log|);
      EndThread(t, c);
      FollowsNone(lua, t.log, |old(t.log)|);
      TurnEnds(w, c.ev.timer);
      return;
    }
    var runs;
    rest, runs := CallNext(t, c, lua);
    if !runs {
      TurnStops(w, c.ev.timer, lua, t.Now(), rest);
      return;
    }
    rest := RunOn(t, c, w, old(t.st), |old(t.log)|, lua, rest);
  }

  /** The coroutine has made its first call and goes on. */
  method RunOn(t: Context, c: Coroutine, ghost w: World, ghost s: State, ghost n: nat, ghost all: seq<Call>, lua: seq<Call>)
    returns (rest: seq<Call>)
    requires t.Valid() && t.Is(c, Running) && Leaves(s, t.st, c.ev.timer)
    requires n <= |t.log| && |lua| < |all| && Follows(lua, all, t.log, n)
    requires c.ev.timer in w.co && Makes(w, c.ev.timer, all, t.Now(), lua, true)
    modifies t.repr
    ensures t.Valid() && t.Between() && Resumed(s, t.st, c.ev.timer) && t.Mine(c)
    ensures |rest| <= |lua| && Follows(rest, all, t.log, n)
    ensures Turns(w, c.ev.timer, all, t.Now(), rest)
    decreases |lua|, 2
  {
    hide Context.Valid;
    hide Context.Now;
    hide Context.Own;
    hide Context.Known;
    hide Follows;
    hide Leaves;
    hide Next;
    hide Turns;
    hide Makes;
    ghost var w', before, st := t.Now(), t.log, t.st;
    rest := RunThread(t, c, lua);
    FollowsOn(rest, lua, all, before, t.log, n);
    LeavesOn(s, st, t.st, c.ev.timer);
    TurnGoesOn(w, c.ev.timer, all, w', lua, t.Now(), rest);
  }

  lemma TurnEnds(w: World, id: Node)
    ensures Turns(w, id, [], Take(w, Finish(id)), [])
  {
  }

  lemma LeavesOn(s: State, s': State, s'': State, id: Node)
    ensures Leaves(s, s, id)
    ensures Leaves(s, s', id) && Leaves(s', s'', id) ==> Leaves(s, s'', id)
  {
  }

  // ------------------------------------------------------------ handlers

  /** timer_handler */
  method OnTimer(t: Context, ev: Event, ghost c: Coroutine, lua: seq<Call>) returns (rest: seq<Call>)
    requires t.Valid() && t.Called(c, Asleep) && c.ev == ev
    modifies t.repr
    ensures t.Valid() && t.Between() && Resumed(old(t.st), t.st, ev.timer) && Follows(rest, lua, t.log, |old(t.log)|)
    ensures old(ev.timedout) && (|rest| < |lua| || (rest == lua && t.st.queue == old(t.st.queue)))
    ensures Turns(old(t.Now()), ev.timer, lua, t.Now(), rest)
  {
    hide Context.Valid;
    hide Context.Now;
    hide Context.Own;
    hide Context.Known;
    hide Turns;
    hide Follows;
    t.Footprint(c);
    var ctx := ev.data as Coroutine;
    rest := RunThread(t, ctx, lua);
  }

  /** mtcp_lua_socket_tcp_connect_handler up to its resuming the coroutine, which it does not when the connection failed. */
  method EndConnect(t: Context, ev: Event, ghost c: Coroutine, failed: bool) returns (ctx: Coroutine, resumes: bool)
    requires t.Valid() && t.Called(c, InConnect) && c.ev == ev
    modifies t.repr
    ensures t.Valid() && ctx == c && (resumes <==> old(ev.timedout) || !failed) && (resumes ==> t.Is(c, Running))
    ensures if old(ev.timedout) then t.Took([]) && t.st == old(t.st)
      else t.Took([Deliver(ev.timer, failed)]) && t.st == Next(old(t.st), Deliver(ev.timer, failed))
    ensures var w := old(t.Now());
      t.Now() == if old(ev.timedout) then Dropped(w, ev.timer)
        else if failed then Take(w, Deliver(ev.timer, true))
        else Joined(Take(w, Deliver(ev.timer, false)), ev.timer)
  {
    hide Context.Valid;
    hide Context.Now;
    hide Context.Own;
    hide Context.Known;
    hide Take;
    hide Joined;
    hide Dropped;
    t.Footprint(c);
    var sctx := ev.data as Network.Socket;
    ctx := sctx.vmCtx;
    t.SocketFacts(ctx, sctx);
    if ev.timedout {
      Drop(t, ctx, sctx);
      return ctx, true;
    }
    Answer(t, ctx, sctx, failed);
    return ctx, !failed;
  }

  /** The network has told how the connection went. */
  method Answer(t: Context, ctx: Coroutine, sctx: Network.Socket, failed: bool)
    requires t.Valid() && t.Waits(ctx, InConnect) && t.Aimed(ctx, InConnect) && ctx.ev.data == sctx
    modifies t.repr
    ensures var a := Deliver(ctx.ev.timer, failed); t.Valid() && t.Took([a]) && t.st == Next(old(t.st), a)
    ensures t.Now() ==
      if failed then Take(old(t.Now()), Deliver(ctx.ev.timer, true))
      else Joined(Take(old(t.Now()), Deliver(ctx.ev.timer, false)), ctx.ev.timer)
  {
    hide Context.Valid;
    hide Context.Now;
    hide Context.Own;
    hide Context.Known;
    hide Take;
    hide Put;
    hide Joined;
    t.Footprint(ctx);
    t.SocketIs(ctx, sctx);
    JoinedLater(t.Now(), Deliver(ctx.ev.timer, false), ctx.ev.timer);
    t.Unpark(ctx, Deliver(ctx.ev.timer, failed));
    if !failed {
      t.SetConnected(ctx, sctx);
    }
  }

  lemma JoinedLater(w: World, a: Step, id: Node)
    requires HasAim(w, id)
    ensures var w' := Take(w, a);
      HasAim(w', id) && Joined(w', id) == Put(w', id, w.co[id].aim, w'.co[id].socks[w.co[id].aim].(connected := true))
  {
  }

  /** The wait on a socket has timed out. */
  method Drop(t: Context, ctx: Coroutine, sctx: Network.Socket)
    requires t.Valid() && t.Mine(ctx) && sctx in ctx.socks && sctx.open && sctx.vmCtx == ctx && ctx.ev.data == sctx
    modifies t.repr
    ensures t.Valid() && t.Took([]) && t.st == old(t.st) && t.Now() == Dropped(old(t.Now()), ctx.ev.timer)
  {
    hide Context.Valid;
    hide Context.Now;
    hide Context.Own;
    hide Context.Known;
    hide Put;
    hide Dropped;
    t.Footprint(ctx);
    t.SocketFacts(ctx, sctx);
    t.SocketIs(ctx, sctx);
    t.NowIs();
    DroppedIs(t.Now(), ctx.ev.timer);
    var _ := t.Control(ctx, sctx, Del, true);
  }

  /** What follows the steps of before begins with the step a. */
  ghost predicate Begins(log: seq<Step>, before: seq<Step>, a: Step) {
    before + [a] <= log
  }

  /** mtcp_lua_socket_tcp_connect_handler */
  method OnConnect(t: Context, ev: Event, ghost c: Coroutine, failed: bool, lua: seq<Call>) returns (rest: seq<Call>)
    requires t.Valid() && t.Called(c, InConnect) && c.ev == ev
    modifies t.repr
    ensures t.Valid() && t.Between() && Resumed(old(t.st), t.st, ev.timer)
    ensures |rest| <= |lua| && Follows(rest, lua, t.log, |old(t.log)|)
    ensures old(ev.timedout) ==> |rest| < |lua| || (rest == lua && t.st.queue == old(t.st.queue))
    ensures !old(ev.timedout) ==> Begins(t.log, old(t.log), Deliver(ev.timer, failed))
    ensures var w := old(t.Now());
      if old(ev.timedout) then Turns(Dropped(w, ev.timer), ev.timer, lua, t.Now(), rest)
      else if failed then t.Now() == Take(w, Deliver(ev.timer, true)) && rest == lua
      else Turns(Joined(Take(w, Deliver(ev.timer, false)), ev.timer), ev.timer, lua, t.Now(), rest)
  {
    hide Context.Valid;
    hide Context.Now;
    hide Context.Own;
    hide Context.Known;
    hide Follows;
    hide Resumed;
    hide Next;
    hide Turns;
    hide Take;
    hide Joined;
    hide Dropped;
    var ctx, resumes := EndConnect(t, ev, c, failed);
    if resumes {
      rest := GoOn(t, ctx, old(t.st), |old(t.log)|, lua);
    } else {
      rest := lua;
      FollowsNone(lua, t.log, |old(t.log)|);
      ResumedAfter(old(t.st), t.st, t.st, ev.timer, failed);
    }
  }

  /** A handler has the coroutine run. */
  method GoOn(t: Context, c: Coroutine, ghost s: State, ghost n: nat, lua: seq<Call>) returns (rest: seq<Call>)
    requires t.Valid() && t.Is(c, Running)
    requires t.st == s || t.st == Next(s, Deliver(c.ev.timer, false))
    requires n <= |t.log| && forall k :: n <= k < |t.log| ==> !t.log[k].Park?
    modifies t.repr
    ensures t.Valid() && t.Between() && Resumed(s, t.st, c.ev.timer) && Follows(rest, lua, t.log, n)
    ensures |rest| < |lua| || (rest == lua && t.st.queue == old(t.st.queue))
    ensures Turns(old(t.Now()), c.ev.timer, lua, t.Now(), rest)
  {
    hide Context.Valid;
    hide Context.Now;
    hide Context.Own;
    hide Context.Known;
    hide Follows;
    hide Resumed;
    hide Next;
    hide Turns;
    ghost var before, st := t.log, t.st;
    FollowsNone(lua, before, n);
    rest := RunThread(t, c, lua);
    FollowsOn(rest, lua, lua, before, t.log, n);
    ResumedAfter(s, st, t.st, c.ev.timer, false);
  }

  /** What a handler does before it has the coroutine run is about that coroutine only. */
  lemma ResumedAfter(s: State, s': State, s'': State, id: Node, failed: bool)
    ensures s' == s && Resumed(s', s'', id) ==> Resumed(s, s'', id)
    ensures s' == Next(s, Deliver(id, failed)) && Resumed(s', s'', id) ==> Resumed(s, s'', id)
    ensures s' == Next(s, Deliver(id, true)) ==> Resumed(s, s', id)
    ensures s' == Next(s, Fire(id)) && Resumed(s', s'', id) ==> Resumed(s, s'', id)
  {
  }

  /** mtcp_lua_socket_tcp_recv_handler up to its resuming the coroutine, which it does whatever has been read. */
  method EndRecv(t: Context, ev: Event, ghost c: Coroutine) returns (ctx: Coroutine)
    requires t.Valid() && t.Called(c, InRecv) && c.ev == ev
    modifies t.repr
    ensures t.Valid() && ctx == c && t.Is(c, Running)
    ensures if old(ev.timedout) then t.Took([]) && t.st == old(t.st)
      else t.Took([Deliver(ev.timer, false)]) && t.st == Next(old(t.st), Deliver(ev.timer, false))
    ensures t.Now() ==
      if old(ev.timedout) then Dropped(old(t.Now()), ev.timer) else Take(old(t.Now()), Deliver(ev.timer, false))
  {
    hide Context.Valid;
    hide Context.Now;
    hide Context.Own;
    hide Context.Known;
    hide Take;
    hide Dropped;
    t.Footprint(c);
    var sctx := ev.data as Network.Socket;
    ctx := sctx.vm;
    t.SocketFacts(ctx, sctx);
    if ev.timedout {
      Drop(t, ctx, sctx);
    } else {
      t.Unpark(ctx, Deliver(ev.timer, false));
    }
  }

  /** mtcp_lua_socket_tcp_recv_handler */
  method OnRecv(t: Context, ev: Event, ghost c: Coroutine, lua: seq<Call>) returns (rest: seq<Call>)
    requires t.Valid() && t.Called(c, InRecv) && c.ev == ev
    modifies t.repr
    ensures t.Valid() && t.Between() && Resumed(old(t.st), t.st, ev.timer)
    ensures |rest| <= |lua| && Follows(rest, lua, t.log, |old(t.log)|)
    ensures old(ev.timedout) ==> |rest| < |lua| || (rest == lua && t.st.queue == old(t.st.queue))
    ensures !old(ev.timedout) ==> Begins(t.log, old(t.log), Deliver(ev.timer, false))
    ensures var w := old(t.Now());
      Turns(if old(ev.timedout) then Dropped(w, ev.timer) else Take(w, Deliver(ev.timer, false)), ev.timer, lua, t.Now(), rest)
  {
    hide Context.Valid;
    hide Context.Now;
    hide Context.Own;
    hide Context.Known;
    hide Follows;
    hide Resumed;
    hide Next;
    hide Turns;
    hide Take;
    hide Dropped;
    var ctx := EndRecv(t, ev, c);
    rest := GoOn(t, ctx, old(t.st), |old(t.log)|, lua);
  }

  /** ev->handler(ev) */
  method Handle(t: Context, ev: Event, ghost c: Coroutine, ghost wait: Wait, failed: bool, lua: seq<Call>)
    returns (rest: seq<Call>)
    requires t.Valid() && t.Called(c, wait) && c.ev == ev
    modifies t.repr
    ensures t.Valid() && t.Between() && Resumed(old(t.st), t.st, ev.timer)
    ensures |rest| <= |lua| && Follows(rest, lua, t.log, |old(t.log)|)
    ensures old(ev.timedout) ==> |rest| < |lua| || (rest == lua && t.st.queue == old(t.st.queue))
    ensures !old(ev.timedout) ==> Begins(t.log, old(t.log), Deliver(ev.timer, failed && wait.InConnect?))
    ensures old(ev.timedout) ==>
      Turns(if wait.Asleep? then old(t.Now()) else Dropped(old(t.Now()), ev.timer), ev.timer, lua, t.Now(), rest)
    ensures !old(ev.timedout) ==> Told(t.log, old(t.Now()), ev.timer, failed, lua) == Outcome(t.Now(), rest)
  {
    hide Context.Valid;
    hide Context.Now;
    hide Context.Own;
    hide Context.Known;
    hide Follows;
    hide Resumed;
    hide Next;
    hide Begins;
    hide Take;
    hide Joined;
    hide Dropped;
    hide Turns;
    hide Told;
    t.NowIs();
    match ev.handler {
      case TimerHandler => rest := OnTimer(t, ev, c, lua);
      case ConnectHandler => rest := OnConnect(t, ev, c, failed, lua);
      case RecvHandler => rest := OnRecv(t, ev, c, lua);
      case NoHandler => rest := lua;
    }
    t.NowIs();
    ToldIs(old(t.Now()), ev.timer, wait, failed, lua, t.Now(), rest);
  }

  lemma ToldIs(w: World, id: Node, wait: Wait, failed: bool, lua: seq<Call>, w': World, rest: seq<Call>)
    ensures w.st.IsParked(id) && w.st.status[id].wait == wait && !wait.Asleep?
      && (if wait.InRecv? then Turns(Take(w, Deliver(id, false)), id, lua, w', rest)
        else if failed then w' == Take(w, Deliver(id, true)) && rest == lua
        else Turns(Joined(Take(w, Deliver(id, false)), id), id, lua, w', rest))
      ==> Told(w'.log, w, id, failed, lua) == Outcome(w', rest)
  {
  }

  // ------------------------------------------------------------ expiry

  /** One turn of the loop of event_expire_timers: the first timer is due and goes off. One timer less is due, if the
      coroutine asks for nothing, or if the program asks for later times only. */
  method FireFirst(t: Context, node: Node, ghost now: int, lua: seq<Call>) returns (rest: seq<Call>)
    requires t.Valid() && t.st.pass == PassAt(now) && Upcoming(t, node)
    modifies t.repr
    ensures Begins(t.log, old(t.log), Fire(node))
    ensures t.Valid() && t.Between() && Resumed(old(t.st), t.st, node) && Follows(rest, lua, t.log, |old(t.log)|)
    ensures |rest| < |lua| || (rest == lua && Due(t.st.queue, now) < Due(old(t.st.queue), now))
    ensures Restful(lua) ==> Due(t.st.queue, now) < Due(old(t.st.queue), now)
    ensures IsDue(old(t.Now()), now) && Fired(t.log, old(t.Now()), lua) == Outcome(t.Now(), rest)
  {
    hide Context.Valid;
    hide Context.Now;
    hide Context.Own;
    hide Context.Known;
    hide Follows;
    hide Resumed;
    hide Due;
    hide Fired;
    t.IsLogged();
    t.NowIs();
    FirstShrinks(t.st, now);
    ghost var before := t.log;
    assert t.st.queue[0].node == node;
    rest := TakeFirst(t, node, lua);
    if Restful(lua) {
      FollowsIsPatient(rest, lua, t.log, |before|);
      t.IsLogged();
      assert t.log[..|before|] == before && t.log[|before|] == Fire(node);
      FiringShrinks(t.start, t.log, |before|, now);
    }
  }

  method TakeFirst(t: Context, node: Node, lua: seq<Call>) returns (rest: seq<Call>)
    requires t.Valid() && Upcoming(t, node)
    modifies t.repr
    ensures t.Valid() && t.Between() && Resumed(old(t.st), t.st, node) && Follows(rest, lua, t.log, |old(t.log)|)
    ensures Begins(t.log, old(t.log), Fire(node))
    ensures |rest| < |lua| || (rest == lua && t.st.queue == Without(old(t.st.queue), node))
    ensures old(t.Now()).st.queue != [] && Fired(t.log, old(t.Now()), lua) == Outcome(t.Now(), rest)
  {
    hide Context.Valid;
    hide Context.Now;
    hide Context.Own;
    hide Context.Known;
    hide Follows;
    hide Resumed;
    hide Context.Called;
    hide Turns;
    hide Take;
    hide Dropped;
    hide Fired;
    var ev := t.who[node].ev;
    ghost var c, wait := t.who[node], t.st.status[node].wait;
    ghost var w := t.Now();
    t.NowIs();
    t.Footprint(c);
    TimeOut(t, t.who[node]);
    ghost var before, st := t.log, t.st;
    FollowsNone(lua, before, |old(t.log)|);
    rest := Handle(t, ev, c, wait, false, lua);
    t.NowIs();
    FollowsOn(rest, lua, lua, before, t.log, |old(t.log)|);
    ResumedAfter(old(t.st), st, t.st, node, false);
    FiredIs(w, wait, lua, t.Now(), rest);
  }

  lemma FiredIs(w: World, wait: Wait, lua: seq<Call>, w': World, rest: seq<Call>)
    requires w.st.queue != [] && w.st.IsParked(w.st.queue[0].node) && w.st.status[w.st.queue[0].node].wait == wait
    requires var id := w.st.queue[0].node; var f := Take(w, Fire(id));
      Turns(if wait.Asleep? then f else Dropped(f, id), id, lua, w', rest)
    ensures Fired(w'.log, w, lua) == Outcome(w', rest)
  {
  }

  /** The first timer is taken off the tree, with timer_set clear and timedout set for its handler to see. */
  method TimeOut(t: Context, c: Coroutine)
    requires t.Valid() && t.Mine(c) && t.st.IsParked(c.ev.timer) && Possible(t.st, Fire(c.ev.timer))
    modifies t.repr
    ensures t.Valid() && t.Took([Fire(c.ev.timer)]) && t.st == Next(old(t.st), Fire(c.ev.timer))
    ensures t.Called(c, old(t.st).status[c.ev.timer].wait) && c.ev.timedout && !c.ev.timerSet
    ensures t.Now() == Take(old(t.Now()), Fire(c.ev.timer))
  {
    hide Context.Valid;
    hide Context.Now;
    hide Context.Own;
    hide Context.Known;
    hide Possible;
    hide Take;
    t.Footprint(c);
    t.ParkedIsAimed(c);
    t.Unpark(c, Fire(c.ev.timer));
    t.SetTimedOut(c);
  }

  lemma FollowsIsPatient(rest: seq<Call>, lua: seq<Call>, log: seq<Step>, n: nat)
    requires Follows(rest, lua, log, n)
    ensures |rest| <= |lua| && (Restful(lua) ==> Patient(log, n))
  {
  }

  /** node is the first timer, which is due in the pass that is on; if there is none, the pass is over. */
  ghost predicate Upcoming(t: Context, node: Node?)
    reads t
  {
    if node == null then Possible(t.st, PassEnd)
    else node in t.who && t.who[node].ev.timer == node && t.st.IsParked(node) && Possible(t.st, Fire(node))
  }

  /** The first timer, if it is due at time now. */
  method FirstDue(t: Context, now: int) returns (node: Node?)
    requires t.Valid() && t.st.pass == PassAt(now)
    ensures Upcoming(t, node) && t.Now() == old(t.Now())
  {
    hide Context.Valid;
    hide Context.Now;
    hide Context.Own;
    hide Context.Known;
    hide TimerQueue.Valid;
    t.Roots();
    node := FindDue(t, now);
    t.StillNow();
  }

  method FindDue(t: Context, now: int) returns (node: Node?)
    requires t.Valid() && t.st.pass == PassAt(now)
    ensures Upcoming(t, node)
  {
    hide Context.Valid;
    hide TimerQueue.Valid;
    t.Roots();
    var empty := t.timers.IsEmpty();
    if empty {
      return null;
    }
    node := t.timers.First();
    t.DueAsKeyTells(node, now);
    if Signed64(WrapSub(node.key, Word(now))) > 0 {
      return null;
    }
  }

  /** event_expire_timers: the steps it takes are one pass, from its start to its end. If the program asks for later times
      only, so do the handlers, and the pass fires what was due when it began. */
  method ExpireTimers(t: Context, lua: seq<Call>) returns (rest: seq<Call>, ghost now: int, ghost pass: seq<Outcome>)
    requires t.Valid() && t.st.pass.NoPass? && Idle(t.st)
    modifies t.repr
    ensures t.Valid() && t.Grown() && t.st.pass.NoPass? && Idle(t.st) && Follows(rest, lua, t.log, |old(t.log)|)
    ensures OnePass(t.log, |old(t.log)|, |t.log| - 1) && now == t.log[|old(t.log)|].at
    ensures Restful(lua) ==> AskedLater(t.log, |old(t.log)|, |t.log| - 1, now)
    ensures Restful(lua) ==> Fires(t.log) - Fires(old(t.log)) == Due(old(t.st.queue), now)
    ensures MakesPass(Outcome(old(t.Now()), lua), now, pass, Outcome(t.Now(), rest))
  {
    hide Context.Valid;
    hide Context.Now;
    hide Context.Own;
    hide Context.Known;
    hide Follows;
    hide Due;
    hide Fires;
    hide AskedLater;
    hide MakesPass;
    ghost var before, st := t.log, t.st;
    t.IsLogged();
    rest, now, pass := MakePass(t, lua);
    FollowsIsPatient(rest, lua, t.log, |before|);
    assert t.log[..|before|] == before;
    ExactPass(t, |before|);
  }

  method MakePass(t: Context, lua: seq<Call>) returns (rest: seq<Call>, ghost at: int, ghost pass: seq<Outcome>)
    requires t.Valid() && t.st.pass.NoPass? && Idle(t.st)
    modifies t.repr
    ensures t.Valid() && t.Grown() && t.st.pass.NoPass? && Idle(t.st) && Follows(rest, lua, t.log, |old(t.log)|)
    ensures OnePass(t.log, |old(t.log)|, |t.log| - 1) && at == t.log[|old(t.log)|].at
    ensures MakesPass(Outcome(old(t.Now()), lua), at, pass, Outcome(t.Now(), rest))
  {
    hide Context.Valid;
    hide Context.Now;
    hide Context.Own;
    hide Context.Known;
    hide TimerQueue.Valid;
    hide Possible;
    hide Follows;
    hide Take;
    hide IsPass;
    hide Idle;
    hide Next;
    t.Roots();
    ghost var st := t.st;
    var now := t.StartPass();
    at := now;
    PassIsIdle(st, PassStart(now));
    ghost var begun := t.log;
    FollowsNone(lua, begun, |old(t.log)|);
    rest, pass := FireAll(t, now, lua);
    FollowsOn(rest, lua, lua, begun, t.log, |old(t.log)|);
    t.Roots();
    ghost var done, st' := t.log, t.st;
    t.EndPass();
    PassIsIdle(st', PassEnd);
    FollowsNone(rest, t.log, |done|);
    FollowsOn(rest, rest, lua, done, t.log, |old(t.log)|);
  }

  lemma PassIsIdle(s: State, a: Step)
    requires Idle(s) && (a.PassStart? || a.PassEnd?)
    ensures Idle(Next(s, a)) && Next(s, a).pass == if a.PassStart? then PassAt(a.at) else NoPass
  {
  }

  lemma ExactPass(t: Context, p: nat)
    requires t.Valid() && OnePass(t.log, p, |t.log| - 1)
    ensures Patient(t.log, p) ==> AskedLater(t.log, p, |t.log| - 1, t.log[p].at)
    ensures Patient(t.log, p) ==> Fires(t.log) - Fires(t.log[..p]) == Due(After(t.start, t.log, p).queue, t.log[p].at)
  {
    hide Context.Valid;
    t.IsLogged();
    if Patient(t.log, p) {
      PatientAsksLater(t.start, t.log, p, |t.log| - 1);
      PassFiresWhatIsDue(t.start, t.log, p, |t.log| - 1);
      FiresStep(t.log, |t.log| - 1);
      SortedAt(t.start, t.log, p);
      assert t.log[..|t.log|] == t.log;
    }
  }

  /** The loop of event_expire_timers. For a program that asks for later times only it ends because the due timers get
      fewer, however long the program is. */
  method FireAll(t: Context, now: int, lua: seq<Call>) returns (rest: seq<Call>, ghost pass: seq<Outcome>)
    requires t.Valid() && t.st.pass == PassAt(now) && Idle(t.st)
    modifies t.repr
    ensures t.Valid() && t.Between() && t.st.pass == PassAt(now) && Idle(t.st) && Follows(rest, lua, t.log, |old(t.log)|)
    ensures Possible(t.st, PassEnd)
    ensures IsPass(pass, now) && pass[0] == Outcome(old(t.Now()), lua) && pass[|pass| - 1] == Outcome(t.Now(), rest)
  {
    hide Context.Valid;
    hide Context.Now;
    hide Context.Own;
    hide Context.Known;
    hide TimerQueue.Valid;
    hide Follows;
    hide Due;
    hide Restful;
    hide FiresOne;
    rest := lua;
    pass := [Outcome(t.Now(), lua)];
    FollowsNone(lua, t.log, |t.log|);
    var node := FirstDue(t, now);
    while node != null
      invariant t.Valid() && t.Between() && t.st.pass == PassAt(now) && Idle(t.st)
      invariant Follows(rest, lua, t.log, |old(t.log)|) && (Restful(lua) ==> Restful(rest))
      invariant Upcoming(t, node)
      invariant pass != [] && pass[0] == Outcome(old(t.Now()), lua) && pass[|pass| - 1] == Outcome(t.Now(), rest)
      invariant forall i :: 0 <= i < |pass| - 1 ==> FiresOne(pass[i], now, pass[i + 1])
      decreases if Restful(lua) then 0 else |rest|, Due(t.st.queue, now)
    {
      ghost var calls, before := rest, t.log;
      rest, node := FireNext(t, node, now, rest);
      FollowsOn(rest, calls, lua, before, t.log, |old(t.log)|);
      FollowsRestful(rest, lua, t.log, |old(t.log)|);
      pass := pass + [Outcome(t.Now(), rest)];
    }
    t.NowIs();
  }

  /** One turn of the loop, and the look for the next. */
  method FireNext(t: Context, node: Node, now: int, lua: seq<Call>) returns (rest: seq<Call>, next: Node?)
    requires t.Valid() && t.st.pass == PassAt(now) && Idle(t.st) && Upcoming(t, node)
    modifies t.repr
    ensures t.Valid() && t.Between() && t.st.pass == PassAt(now) && Idle(t.st) && Follows(rest, lua, t.log, |old(t.log)|)
    ensures |rest| < |lua| || (rest == lua && Due(t.st.queue, now) < Due(old(t.st.queue), now))
    ensures Restful(lua) ==> Due(t.st.queue, now) < Due(old(t.st.queue), now)
    ensures Upcoming(t, next) && FiresOne(Outcome(old(t.Now()), lua), now, Outcome(t.Now(), rest))
  {
    hide Context.Valid;
    hide Context.Now;
    hide Context.Own;
    hide Context.Known;
    hide TimerQueue.Valid;
    hide Follows;
    hide Due;
    hide Restful;
    hide FiresOne;
    ghost var w := t.Now();
    rest := FireFirst(t, node, now, lua);
    t.NowIs();
    FiredOne(w, now, lua, t.Now(), rest);
    next := FirstDue(t, now);
  }

  lemma FiredOne(w: World, now: int, lua: seq<Call>, w': World, rest: seq<Call>)
    requires IsDue(w, now) && Fired(w'.log, w, lua) == Outcome(w', rest)
    ensures FiresOne(Outcome(w, lua), now, Outcome(w', rest))
  {
  }

  lemma FollowsRestful(rest: seq<Call>, lua: seq<Call>, log: seq<Step>, n: nat)
    requires Follows(rest, lua, log, n)
    ensures Restful(lua) ==> Restful(rest)
  {
  }

  // ------------------------------------------------------------ the loop

  /** What the loop is told of the events of a batch. */
  ghost function Reports(batch: seq<Delivery>): (r: seq<Report>)
    ensures |r| == |batch| && forall i :: 0 <= i < |r| ==> r[i] == Report(batch[i].ev.timer, batch[i].failed)
  {
    seq(|batch|, i requires 0 <= i < |batch| => Report(batch[i].ev.timer, batch[i].failed))
  }

  /** mtcp_epoll_wait as the loop relies on it: of what the network could report, what concerns a descriptor in the
      epoll set while the coroutine it belongs to waits for the network. */
  method EpollWait(t: Context, notices: seq<Notice>) returns (batch: seq<Delivery>)
    requires t.Valid() && t.st.pass.NoPass?
    ensures Batch(t, batch) && Reports(batch) == Reported(t.Now(), notices) && t.Now() == old(t.Now())
  {
    hide Context.Valid;
    hide Context.Now;
    hide Context.Own;
    hide Context.Known;
    batch := [];
    for i := 0 to |notices|
      invariant Batch(t, batch) && Reports(batch) == Reported(t.Now(), notices[..i])
    {
      var n := notices[i];
      ExpectedIsAwaited(t, n.fd);
      assert notices[..i + 1][..i] == notices[..i];
      if Expected(t, n.fd) {
        t.Deliverable(n.fd);
        ghost var before := batch;
        batch := batch + [Delivery(t.net.registered[n.fd], n.failed)];
        assert Reports(batch) == Reports(before) + [Report(t.net.registered[n.fd].timer, n.failed)];
      }
    }
    assert notices[..|notices|] == notices;
    t.StillNow();
  }

  /** The descriptor is in the epoll set, and its event is that of a coroutine that waits for the network. */
  predicate Expected(t: Context, fd: int)
    reads t.net, t.net.registered.Values
  {
    fd in t.net.registered && t.net.registered[fd].timerSet && t.net.registered[fd].handler != TimerHandler
  }

  lemma ExpectedIsAwaited(t: Context, fd: int)
    requires t.Valid() && t.st.pass.NoPass?
    ensures Expected(t, fd) <==> Awaited(t.Now(), fd)
    ensures fd in t.net.registered ==> t.Now().registered[fd] == t.net.registered[fd].timer
  {
    hide Context.Valid;
    t.NowIs();
    if fd in t.net.registered {
      t.RegisteredIsOwned(fd);
      AwaitsIsWaiting(t, t.net.registered[fd]);
      if Expected(t, fd) {
        t.Deliverable(fd);
      }
    }
  }

  /** ev is the event of a coroutine. */
  ghost predicate Owned(t: Context, ev: Event)
    reads t
  {
    ev.timer in t.who && t.who[ev.timer].ev == ev
  }

  /** ev belongs to a coroutine that waits for the network. */
  ghost predicate Waiting(t: Context, ev: Event)
    reads t
  {
    Owned(t, ev) && t.st.IsParked(ev.timer) && t.Waits(t.who[ev.timer], t.st.status[ev.timer].wait)
  }

  /** What the flag and the handler of an event say when its coroutine waits for the network. */
  predicate Awaits(ev: Event)
    reads ev
  {
    ev.timerSet && (ev.handler == ConnectHandler || ev.handler == RecvHandler)
  }

  /** They never lie. */
  lemma AwaitsIsWaiting(t: Context, ev: Event)
    requires t.Valid() && Owned(t, ev) && t.st.pass.NoPass?
    ensures Awaits(ev) <==> Waiting(t, ev)
  {
    t.TimerSetIsTruth(t.who[ev.timer]);
    if t.st.IsParked(ev.timer) {
      t.ParkedIsAimed(t.who[ev.timer]);
    }
  }

  /** A batch is of coroutines that wait for the network; it may name one more than once. */
  ghost predicate Batch(t: Context, batch: seq<Delivery>)
    reads t
  {
    forall i :: 0 <= i < |batch| ==> Waiting(t, batch[i].ev)
  }

  /** One event of a batch. */
  method HandleOne(t: Context, d: Delivery, lua: seq<Call>) returns (rest: seq<Call>)
    requires t.Valid() && Waiting(t, d.ev)
    modifies t.repr
    ensures t.Valid() && t.Between() && Resumed(old(t.st), t.st, d.ev.timer) && Follows(rest, lua, t.log, |old(t.log)|)
    ensures Begins(t.log, old(t.log), Deliver(d.ev.timer, d.failed && old(t.st.status[d.ev.timer].wait) == InConnect))
    ensures Told(t.log, old(t.Now()), d.ev.timer, d.failed, lua) == Outcome(t.Now(), rest)
  {
    hide Context.Valid;
    hide Context.Now;
    hide Context.Own;
    hide Context.Known;
    hide Told;
    ghost var c := t.who[d.ev.timer];
    t.ParkedIsAimed(c);
    rest := Handle(t, d.ev, c, t.st.status[d.ev.timer].wait, d.failed, lua);
  }

  /** Since the first n steps the network has ended a wait of the coroutine with timer id. */
  ghost predicate DeliveredSince(log: seq<Step>, n: nat, id: Node) {
    exists k :: n <= k < |log| && log[k].Deliver? && log[k].id == id
  }

  predicate Holds(batch: seq<Delivery>, ev: Event) {
    exists j :: 0 <= j < |batch| && batch[j].ev == ev
  }

  lemma HoldsMore(before: seq<Delivery>, batch: seq<Delivery>)
    requires before <= batch
    ensures forall ev :: Holds(before, ev) ==> Holds(batch, ev)
  {
    forall ev | Holds(before, ev)
      ensures Holds(batch, ev)
    {
      var j :| 0 <= j < |before| && before[j].ev == ev;
      assert batch[j] == before[j];
    }
  }

  /** The events of the batch are those of coroutines, which wait if they have not been handled before. */
  ghost predicate Rest(t: Context, batch: seq<Delivery>, i: nat)
    reads t
    requires i <= |batch|
  {
    && (forall j :: 0 <= j < |batch| ==> Owned(t, batch[j].ev))
    && (forall j :: i <= j < |batch| ==> Waiting(t, batch[j].ev) || Holds(batch[..i], batch[j].ev))
  }

  /** The first i events of the batch have ended a wait since the first n steps. */
  ghost predicate Handled(batch: seq<Delivery>, i: nat, log: seq<Step>, n: nat)
    requires i <= |batch|
  {
    forall j :: 0 <= j < i ==> DeliveredSince(log, n, batch[j].ev.timer)
  }

  lemma StillHandled(batch: seq<Delivery>, i: nat, before: seq<Step>, log: seq<Step>, n: nat)
    requires i <= |batch| && before <= log && Handled(batch, i, before, n)
    ensures Handled(batch, i, log, n)
  {
    StillDelivered(before, log, n);
  }

  lemma StillDelivered(before: seq<Step>, log: seq<Step>, n: nat)
    requires before <= log
    ensures forall id :: DeliveredSince(before, n, id) ==> DeliveredSince(log, n, id)
  {
    forall id | DeliveredSince(before, n, id)
      ensures DeliveredSince(log, n, id)
    {
      var k :| n <= k < |before| && before[k].Deliver? && before[k].id == id;
      assert log[k] == before[k];
    }
  }

  /** The event of a coroutine that waits for the network has a handler, so the check for one never fails. */
  lemma AimedAt(t: Context, ev: Event)
    requires t.Valid() && Waiting(t, ev)
    ensures ev.handler == ConnectHandler || ev.handler == RecvHandler
  {
    hide Context.Valid;
    t.ParkedIsAimed(t.who[ev.timer]);
  }

  lemma RestAtFirst(t: Context, batch: seq<Delivery>)
    requires Batch(t, batch)
    ensures Rest(t, batch, 0)
  {
  }

  /** Events are handled one after the other; those still to come stay what they were, whatever the others do. */
  method HandleBatch(t: Context, batch: seq<Delivery>, lua: seq<Call>) returns (rest: seq<Call>, ghost tr: seq<Outcome>)
    requires t.Valid() && Batch(t, batch) && t.st.pass.NoPass? && Idle(t.st)
    modifies t.repr
    ensures t.Valid() && t.Between() && t.st.pass.NoPass? && Idle(t.st) && Follows(rest, lua, t.log, |old(t.log)|)
    ensures Handled(batch, |batch|, t.log, |old(t.log)|)
    ensures IsBatch(tr, Reports(batch))
    ensures tr[0] == Outcome(old(t.Now()), lua) && tr[|batch|] == Outcome(t.Now(), rest)
  {
    hide Context.Valid;
    hide Context.Now;
    hide Context.Own;
    hide Context.Known;
    hide Follows;
    hide Waiting;
    hide Handles;
    rest := lua;
    tr := [Outcome(t.Now(), lua)];
    FollowsNone(lua, t.log, |t.log|);
    RestAtFirst(t, batch);
    for i := 0 to |batch|
      invariant t.Valid() && t.Between() && t.st.pass.NoPass? && Idle(t.st)
      invariant Follows(rest, lua, t.log, |old(t.log)|)
      invariant Rest(t, batch, i) && Handled(batch, i, t.log, |old(t.log)|)
      invariant |tr| == i + 1 && tr[0] == Outcome(old(t.Now()), lua) && tr[i] == Outcome(t.Now(), rest)
      invariant forall j :: 0 <= j < i ==> Handles(tr[j], Reports(batch), j, tr[j + 1])
    {
      ghost var calls, before := rest, t.log;
      rest := HandleNext(t, batch, i, |old(t.log)|, rest);
      tr := tr + [Outcome(t.Now(), rest)];
      FollowsOn(rest, calls, lua, before, t.log, |old(t.log)|);
    }
  }

  /** One turn of the loop over a batch. That an event the batch has named before comes for a coroutine that waits again is
      up to the network. */
  method HandleNext(t: Context, batch: seq<Delivery>, i: nat, ghost n: nat, lua: seq<Call>) returns (rest: seq<Call>)
    requires t.Valid() && i < |batch| && Rest(t, batch, i) && t.st.pass.NoPass? && Idle(t.st)
    requires n <= |t.log| && Handled(batch, i, t.log, n)
    modifies t.repr
    ensures t.Valid() && t.Between() && t.st.pass.NoPass? && Idle(t.st) && Follows(rest, lua, t.log, |old(t.log)|)
    ensures Rest(t, batch, i + 1) && Handled(batch, i + 1, t.log, n)
    ensures Handles(Outcome(old(t.Now()), lua), Reports(batch), i, Outcome(t.Now(), rest))
  {
    hide Context.Valid;
    hide Context.Now;
    hide Context.Own;
    hide Context.Known;
    hide Follows;
    hide Handled;
    hide Told;
    rest := lua;
    var d := batch[i];
    AwaitsIsWaiting(t, d.ev);
    HoldsUpTo(batch, i);
    FirstIfNotHeld(t, batch, i);
    t.NowIs();
    ghost var before := t.log;
    if d.ev.handler != NoHandler && (!Holds(batch[..i], d.ev) || Awaits(d.ev)) {
      rest := HandleOne(t, d, lua);
      t.NowIs();
      assert t.log[|before|].id == d.ev.timer;
      StillHandled(batch, i, before, t.log, n);
      NowHandled(batch, i, t.log, n);
    } else {
      FollowsNone(lua, t.log, |t.log|);
      HandledBefore(batch, i, t.log, n);
    }
  }

  /** Events are told apart by their timers. */
  lemma FirstIfNotHeld(t: Context, batch: seq<Delivery>, i: nat)
    requires i < |batch| && forall j :: 0 <= j < |batch| ==> Owned(t, batch[j].ev)
    ensures IsFirst(Reports(batch), i) <==> !Holds(batch[..i], batch[i].ev)
    ensures t.Now().st == t.st && (Listens(t.Now(), batch[i].ev.timer) && t.st.pass.NoPass? <==> Waiting(t, batch[i].ev))
  {
    forall j | 0 <= j < i
      ensures Reports(batch)[j].id == Reports(batch)[i].id <==> batch[..i][j].ev == batch[i].ev
    {
      assert Owned(t, batch[j].ev) && Owned(t, batch[i].ev);
    }
  }

  lemma HoldsUpTo(batch: seq<Delivery>, i: nat)
    requires i < |batch|
    ensures Holds(batch[..i + 1], batch[i].ev)
    ensures forall ev :: Holds(batch[..i], ev) ==> Holds(batch[..i + 1], ev)
  {
    assert batch[..i + 1][i] == batch[i];
    HoldsMore(batch[..i], batch[..i + 1]);
  }

  lemma NowHandled(batch: seq<Delivery>, i: nat, log: seq<Step>, n: nat)
    requires i < |batch| && Handled(batch, i, log, n) && DeliveredSince(log, n, batch[i].ev.timer)
    ensures Handled(batch, i + 1, log, n)
  {
  }

  lemma HandledBefore(batch: seq<Delivery>, i: nat, log: seq<Step>, n: nat)
    requires i < |batch| && Handled(batch, i, log, n) && Holds(batch[..i], batch[i].ev)
    ensures Handled(batch, i + 1, log, n)
  {
    var j :| 0 <= j < i && batch[..i][j].ev == batch[i].ev;
    assert DeliveredSince(log, n, batch[j].ev.timer);
  }

  /** mtcp_lua_vm_init: the main coroutine is to run in the first expiry pass. */
  method VmInit(t: Context) returns (c: Coroutine)
    requires t.Valid() && Idle(t.st)
    modifies t.repr
    ensures t.Valid() && t.Between() && Idle(t.st) && t.st.pass == old(t.st.pass)
    ensures t.log == old(t.log) + [Start(c.ev.timer), Park(c.ev.timer, Asleep, t.clock, t.clock)] && old(t.clock) <= t.clock
    ensures t.Now() == Take(Born(old(t.Now()), c.ev.timer), Park(c.ev.timer, Asleep, t.clock, t.clock))
  {
    hide Context.Valid;
    hide Context.Now;
    hide Context.Own;
    hide Context.Known;
    t.Roots();
    c := t.Create();
    SleepUntil(t, c, 0);
    NotAimed(old(t.Now()), c.ev.timer);
  }

  lemma NotAimed(w: World, id: Node)
    ensures id in Born(w, id).co && AimAt(Born(w, id), id, -1) == Born(w, id)
  {
  }

  /** thread_entry: the main coroutine is set up, then events and timers take turns; network holds what mTCP reports. The run
      tells where the loop is before each turn, and after the last. If the program asks for later times only, every
      pass fires just what was due when it began. */
  method ThreadEntry(sentinel: Node, now: int, network: seq<seq<Notice>>, lua: seq<Call>)
    returns (t: Context, ghost main: Node, ghost at: int, ghost run: seq<Outcome>, ghost rounds: seq<Round>)
    modifies sentinel
    ensures t.Valid() && Idle(t.st) && t.st.pass.NoPass?
    ensures Passes(t.log) == |network|
    ensures Restful(lua) ==> forall p: nat, e: nat :: OnePass(t.log, p, e) ==> AskedLater(t.log, p, e, t.log[p].at)
    ensures IsRun(run, network, rounds) && now <= at
    ensures run[0] == Outcome(Begun(now, main, at), lua) && run[|network|].w == t.Now()
    ensures forall i :: 0 <= i < |network| ==> Answered(run[i].w, network[i], run[i + 1].w)
  {
    hide Context.Valid;
    hide Context.Now;
    hide Context.Own;
    hide Context.Known;
    hide Follows;
    hide IsRound;
    hide Answered;
    hide Take;
    hide Born;
    hide Next;
    hide Idle;
    t := new Context(sentinel, now);
    NoneIsIdle(now);
    var c := VmInit(t);
    main, at := c.ev.timer, t.clock;
    ghost var begin := t.log;
    NoPassBetween([], begin);
    var rest := lua;
    run, rounds := [Outcome(t.Now(), lua)], [];
    FollowsNone(lua, begin, |begin|);
    for i := 0 to |network|
      invariant t.Valid() && Idle(t.st) && t.st.pass.NoPass?
      invariant fresh(t.repr - {sentinel}) && begin <= t.log && Passes(t.log) == i
      invariant Follows(rest, lua, t.log, |begin|)
      invariant |run| == i + 1 == |rounds| + 1 && run[0] == Outcome(Begun(now, main, at), lua)
      invariant run[i] == Outcome(t.Now(), rest)
      invariant forall j :: 0 <= j < i ==> IsRound(run[j], network[j], rounds[j], run[j + 1])
      invariant forall j :: 0 <= j < i ==> Answered(run[j].w, network[j], run[j + 1].w)
    {
      ghost var calls, before, r := rest, t.log, Round([], 0, []);
      rest, r := DoRound(t, network[i], rest);
      FollowsOn(rest, calls, lua, before, t.log, |begin|);
      run, rounds := run + [Outcome(t.Now(), rest)], rounds + [r];
    }
    FollowsIsPatient(rest, lua, t.log, |begin|);
    EveryPassAsksLater(t, |begin|);
  }

  lemma NoneIsIdle(start: int)
    ensures Idle(Initial(start))
  {
  }

  /** All that the network reports of what is awaited in w has been delivered when the thread is in w'. */
  ghost predicate Answered(w: World, notices: seq<Notice>, w': World) {
    forall i :: 0 <= i < |notices| && Awaited(w, notices[i].fd) ==>
      DeliveredSince(w'.log, |w.log|, w.registered[notices[i].fd])
  }

  lemma EveryPassAsksLater(t: Context, n: nat)
    requires t.Valid() && n <= |t.log| && forall k :: 0 <= k < n ==> !t.log[k].PassStart?
    ensures Patient(t.log, n) ==> forall p: nat, e: nat :: OnePass(t.log, p, e) ==> AskedLater(t.log, p, e, t.log[p].at)
  {
    hide Context.Valid;
    t.IsLogged();
    if Patient(t.log, n) {
      forall p: nat, e: nat | OnePass(t.log, p, e)
        ensures AskedLater(t.log, p, e, t.log[p].at)
      {
        PatientAsksLater(t.start, t.log, p, e);
      }
    }
  }

  /** One turn of the loop. */
  method DoRound(t: Context, notices: seq<Notice>, lua: seq<Call>) returns (rest: seq<Call>, ghost r: Round)
    requires t.Valid() && Idle(t.st) && t.st.pass.NoPass?
    modifies t.repr
    ensures t.Valid() && t.Grown() && Idle(t.st) && t.st.pass.NoPass? && Follows(rest, lua, t.log, |old(t.log)|)
    ensures Passes(t.log) == Passes(old(t.log)) + 1
    ensures IsRound(Outcome(old(t.Now()), lua), notices, r, Outcome(t.Now(), rest))
    ensures Answered(old(t.Now()), notices, t.Now())
  {
    hide Context.Valid;
    hide Context.Now;
    hide Context.Own;
    hide Context.Known;
    hide Follows;
    hide MakesPass;
    hide Handles;
    var batch := EpollWait(t, notices);
    ghost var tr, pass, now;
    t.NowIs();
    rest, tr := HandleBatch(t, batch, lua);
    ghost var calls, before := rest, t.log;
    rest, now, pass := ExpireTimers(t, rest);
    r := Round(tr, now, pass);
    FollowsOn(rest, calls, lua, before, t.log, |old(t.log)|);
    NoPassBetween(old(t.log), before);
    OnePassCounts(before, t.log);
    StillDelivered(before, t.log, |old(t.log)|);
    t.NowIs();
    AllAnswered(old(t.Now()), notices, batch, t.log, |old(t.log)|);
  }

  lemma {:induction false} AllAnswered(w: World, notices: seq<Notice>, batch: seq<Delivery>, log: seq<Step>, n: nat)
    requires Reports(batch) == Reported(w, notices)
    requires forall j :: 0 <= j < |batch| ==> DeliveredSince(log, n, batch[j].ev.timer)
    ensures forall i :: 0 <= i < |notices| && Awaited(w, notices[i].fd) ==>
      DeliveredSince(log, n, w.registered[notices[i].fd])
  {
    forall i | 0 <= i < |notices| && Awaited(w, notices[i].fd)
      ensures DeliveredSince(log, n, w.registered[notices[i].fd])
    {
      var j := ReportedAt(w, notices, i);
      assert Reports(batch)[j].id == batch[j].ev.timer;
    }
  }
}
