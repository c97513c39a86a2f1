/** What the program promises of its calls and its handlers, in so many words, told of the worlds they lead to. */
module Laws {
  import opened RbNode
  import opened TimerList
  import opened Schedule
  import opened Program

  /** The call is about the j-th socket of the coroutine that makes it. */
  predicate Names(call: Call, j: int) {
    (call.SetTimeout? || call.Connect? || call.Recv? || call.Close?) && call.sock == j
  }

  /** A call touches nobody else's sockets, and of one's own only the one it names; it takes one step at most. */
  lemma OnlyItsOwn(w: World, id: Node, call: Call, at: int)
    requires id in w.co && Allowed(w, id, call) && !call.Spawn?
    ensures var w' := Do(w, id, call, at).w;
      && w'.co.Keys == w.co.Keys && (forall n :: n in w.co && n != id ==> w'.co[n] == w.co[n])
      && |w.co[id].socks| <= |w'.co[id].socks| <= |w.co[id].socks| + 1
      && (forall j :: 0 <= j < |w.co[id].socks| && !Names(call, j) ==> w'.co[id].socks[j] == w.co[id].socks[j])
      && w.log <= w'.log && |w'.log| <= |w.log| + 1
  {
  }

  /** mtcp.sleep(s) waits for s seconds, and does nothing but wait. */
  lemma SleepWaits(log: seq<Step>, w: World, id: Node, s: int, lua: seq<Call>)
    requires id in w.co && 0 <= s <= 2147483
    ensures var o, at := Turn(log, w, id, [Sleep(s)] + lua), TimeOf(log, w);
      && o.rest == lua
      && o.w.log == w.log + [Park(id, Asleep, at, at + 1000 * s)]
      && o.w.st == Next(w.st, Park(id, Asleep, at, at + 1000 * s))
      && o.w.registered == w.registered && o.w.open == w.open
      && o.w.co.Keys == w.co.Keys && o.w.co[id].socks == w.co[id].socks
  {
    TruncatedIs(s * 1000);
    assert ([Sleep(s)] + lua)[1..] == lua;
  }

  /** A negative duration is refused, and the coroutine goes on. */
  lemma NoSleep(log: seq<Step>, w: World, id: Node, s: int, lua: seq<Call>)
    requires id in w.co && -2147483 <= s < 0
    ensures Turn(log, w, id, [Sleep(s)] + lua) == Turn(log, w, id, lua)
  {
    TruncatedIs(s * 1000);
    assert ([Sleep(s)] + lua)[1..] == lua;
  }

  /** mtcp.thread.spawn runs the new coroutine, here until it sleeps for s seconds, and only then goes on with the caller. */
  lemma SpawnRunsChild(log: seq<Step>, w: World, id: Node, child: Node, at: int, s: int, lua: seq<Call>)
    requires id in w.co && 0 <= s <= 2147483 && child != id
    requires w.log + [Start(child), Park(child, Asleep, at, at + 1000 * s)] <= log
    ensures var w' := Turn(log, Born(w, child), child, [Sleep(s)] + lua).w;
      && w'.log == w.log + [Start(child), Park(child, Asleep, at, at + 1000 * s)]
      && w'.st == Next(Next(w.st, Start(child)), Park(child, Asleep, at, at + 1000 * s))
      && w'.co.Keys == w.co.Keys + {child} && w'.co[id] == w.co[id]
      && Turn(log, w, id, [Spawn, Sleep(s)] + lua) == Turn(log, w', id, lua)
  {
    var all := [Spawn, Sleep(s)] + lua;
    assert log[|w.log|] == Start(child) && log[|w.log| + 1] == Park(child, Asleep, at, at + 1000 * s);
    assert all[1..] == [Sleep(s)] + lua;
    SleepWaits(log, Born(w, child), child, s, lua);
  }

  /** A coroutine that returns, or has nothing left to do, has finished. */
  lemma ReturnFinishes(log: seq<Step>, w: World, id: Node, lua: seq<Call>)
    requires id in w.co
    ensures Turn(log, w, id, [Return] + lua) == Outcome(w.(log := w.log + [Finish(id)], st := Next(w.st, Finish(id))), lua)
    ensures Turn(log, w, id, []) == Outcome(w.(log := w.log + [Finish(id)], st := Next(w.st, Finish(id))), [])
  {
    assert ([Return] + lua)[1..] == lua;
  }

  /** A new socket is not connected and waits 6 seconds. */
  lemma SocketIsNew(log: seq<Step>, w: World, id: Node, lua: seq<Call>)
    requires id in w.co
    ensures exists w': World ::
      && Turn(log, w, id, [Socket] + lua) == Turn(log, w', id, lua)
      && w'.log == w.log && w'.st == w.st && w'.registered == w.registered && w'.open == w.open
      && w'.co == w.co[id := Holder(w.co[id].socks + [Sock(-1, false, false, false, false, 6000, 6000)], w.co[id].aim)]
  {
    assert ([Socket] + lua)[1..] == lua;
    var w' := Do(w, id, Socket, 0).w;
    assert w'.co == w.co[id := Holder(w.co[id].socks + [Sock(-1, false, false, false, false, 6000, 6000)], w.co[id].aim)];
  }

  /** A connection under way: the socket has the descriptor and is in the epoll set for its coroutine, which waits for it. */
  lemma ConnectWaits(log: seq<Step>, w: World, id: Node, i: nat, fd: int, lua: seq<Call>)
    requires w.Has(id, i) && w.co[id].socks[i].fd == -1 && fd >= 0 && fd !in w.open
    ensures var s, at := w.co[id].socks[i], TimeOf(log, w);
      var o := Turn(log, w, id, [Connect(i, InProgress(fd, true))] + lua);
      && o.rest == lua
      && o.w.log == w.log + [Park(id, InConnect, at, at + s.connectTimeout)]
      && o.w.registered == w.registered[fd := id] && o.w.open == w.open + {fd}
      && o.w.co == w.co[id := Holder(w.co[id].socks[i := Sock(
          fd, s.connected, true, true, true, s.connectTimeout, s.readTimeout)], i)]
  {
    assert ([Connect(i, InProgress(fd, true))] + lua)[1..] == lua;
  }

  /** When the network refuses to report on it, the socket has no descriptor, nothing is registered, and the coroutine goes on. */
  lemma ConnectRefused(log: seq<Step>, w: World, id: Node, i: nat, fd: int, lua: seq<Call>)
    requires w.Has(id, i) && w.co[id].socks[i].fd == -1 && fd >= 0 && fd !in w.open
    ensures exists w': World ::
      && Turn(log, w, id, [Connect(i, InProgress(fd, false))] + lua) == Turn(log, w', id, lua)
      && w'.log == w.log && w'.st == w.st && w'.registered == w.registered && w'.open == w.open
      && w'.Has(id, i) && w'.co[id].socks[i] == w.co[id].socks[i].(claimed := true)
  {
    assert ([Connect(i, InProgress(fd, false))] + lua)[1..] == lua;
    var w' := Do(w, id, Connect(i, InProgress(fd, false)), 0).w;
    assert w'.Has(id, i) && w'.co[id].socks[i] == w.co[id].socks[i].(claimed := true);
  }

  /** A connection made at once leaves the socket with a descriptor, but neither connected nor registered. */
  lemma ConnectAtOnce(log: seq<Step>, w: World, id: Node, i: nat, fd: int, lua: seq<Call>)
    requires w.Has(id, i) && w.co[id].socks[i].fd == -1 && fd >= 0 && fd !in w.open
    ensures exists w': World ::
      && Turn(log, w, id, [Connect(i, AtOnce(fd))] + lua) == Turn(log, w', id, lua)
      && w'.log == w.log && w'.st == w.st && w'.registered == w.registered && w'.open == w.open + {fd}
      && w'.Has(id, i) && w'.co[id].socks[i] == w.co[id].socks[i].(fd := fd, open := true)
  {
    assert ([Connect(i, AtOnce(fd))] + lua)[1..] == lua;
    var w' := Do(w, id, Connect(i, AtOnce(fd)), 0).w;
    assert w'.Has(id, i) && w'.co[id].socks[i] == w.co[id].socks[i].(fd := fd, open := true);
  }

  /** Other attempts change nothing. */
  lemma ConnectFails(log: seq<Step>, w: World, id: Node, i: nat, attempt: Attempt, lua: seq<Call>)
    requires w.Has(id, i) && w.co[id].socks[i].fd == -1 && (attempt.NotTried? || attempt.Refused?)
    ensures Turn(log, w, id, [Connect(i, attempt)] + lua) == Turn(log, w, id, lua)
  {
    assert ([Connect(i, attempt)] + lua)[1..] == lua;
  }

  /** Reading from a connected socket that has nothing yet waits, with or without the network's knowing. */
  lemma RecvWaits(log: seq<Step>, w: World, id: Node, i: nat, willing: bool, lua: seq<Call>)
    requires w.Has(id, i) && w.co[id].socks[i].connected && w.co[id].socks[i].open
    ensures var s, at := w.co[id].socks[i], TimeOf(log, w);
      var o := Turn(log, w, id, [Recv(i, NotYet(willing))] + lua);
      && o.rest == lua
      && o.w.log == w.log + [Park(id, InRecv, at, at + s.readTimeout)]
      && o.w.registered == (if willing then w.registered[s.fd := id] else w.registered) && o.w.open == w.open
      && o.w.Has(id, i) && o.w.co[id].aim == i && o.w.co[id].socks[i] == s.(active := s.active || willing)
  {
    assert ([Recv(i, NotYet(willing))] + lua)[1..] == lua;
  }

  /** Otherwise it does not wait. */
  lemma RecvGoesOn(log: seq<Step>, w: World, id: Node, i: nat, reading: Reading, lua: seq<Call>)
    requires w.Has(id, i) && (!reading.NotYet? || (!w.co[id].socks[i].connected && w.co[id].socks[i].fd == -1))
    ensures Turn(log, w, id, [Recv(i, reading)] + lua) == Turn(log, w, id, lua)
  {
    assert ([Recv(i, reading)] + lua)[1..] == lua;
  }

  /** Timeouts of 1 to 600000 ms are taken, others change nothing. */
  lemma SetTimeoutTakes(log: seq<Step>, w: World, id: Node, i: nat, timeout: int, lua: seq<Call>)
    requires w.Has(id, i)
    ensures exists w': World ::
      && Turn(log, w, id, [SetTimeout(i, timeout)] + lua) == Turn(log, w', id, lua)
      && w'.log == w.log && w'.st == w.st && w'.registered == w.registered && w'.open == w.open && w'.Has(id, i)
      && w'.co[id].socks[i] == if 1 <= timeout <= 600000
        then w.co[id].socks[i].(connectTimeout := timeout, readTimeout := timeout) else w.co[id].socks[i]
  {
    assert ([SetTimeout(i, timeout)] + lua)[1..] == lua;
    var w' := Do(w, id, SetTimeout(i, timeout), 0).w;
    assert w'.Has(id, i);
  }

  /** A closed socket is open no more, and out of the epoll set. */
  lemma CloseCloses(log: seq<Step>, w: World, id: Node, i: nat, lua: seq<Call>)
    requires w.Has(id, i) && var s := w.co[id].socks[i]; s.open && s.claimed && s.fd != -1
    ensures var s := w.co[id].socks[i]; exists w': World ::
      && Turn(log, w, id, [Close(i)] + lua) == Turn(log, w', id, lua)
      && w'.log == w.log && w'.st == w.st
      && w'.registered == w.registered - {s.fd} && w'.open == w.open - {s.fd}
      && w'.Has(id, i) && w'.co[id].socks[i] == s.(open := false, active := false)
  {
    assert ([Close(i)] + lua)[1..] == lua;
    var s, w' := w.co[id].socks[i], Do(w, id, Close(i), 0).w;
    assert w'.Has(id, i) && w'.co[id].socks[i] == s.(open := false, active := false);
  }

  /** When the wait of the first timer is over by the clock, its socket, if it waits for one, is out of the epoll set before the
      coroutine runs again. */
  lemma TimeoutDrops(log: seq<Step>, w: World, lua: seq<Call>)
    requires w.st.queue != [] && var id := w.st.queue[0].node;
      HasAim(w, id) && w.st.IsParked(id) && !w.st.status[id].wait.Asleep?
    ensures var id := w.st.queue[0].node; var i := w.co[id].aim; var s := w.co[id].socks[i];
      exists w': World ::
        && Fired(log, w, lua) == Turn(log, w', id, lua)
        && w'.log == w.log + [Fire(id)] && w'.st == Next(w.st, Fire(id)) && w'.open == w.open
        && w'.registered == w.registered - {s.fd}
        && w'.Has(id, i) && w'.co[id].socks[i] == s.(active := false)
  {
    var id := w.st.queue[0].node;
    var i := w.co[id].aim;
    var w' := Dropped(Take(w, Fire(id)), id);
    assert w'.Has(id, i) && w'.co[id].socks[i] == w.co[id].socks[i].(active := false);
  }

  /** A sleeper just runs again. */
  lemma TimeoutWakes(log: seq<Step>, w: World, lua: seq<Call>)
    requires w.st.queue != [] && var id := w.st.queue[0].node; w.st.IsParked(id) && w.st.status[id].wait.Asleep?
    ensures var id := w.st.queue[0].node;
      Fired(log, w, lua) == Turn(log, w.(log := w.log + [Fire(id)], st := Next(w.st, Fire(id))), id, lua)
  {
  }

  /** A successful connection makes the socket connected, and the coroutine runs; it stays in the epoll set. */
  lemma SuccessConnects(log: seq<Step>, w: World, id: Node, lua: seq<Call>)
    requires HasAim(w, id) && w.st.IsParked(id) && w.st.status[id].wait.InConnect?
    ensures var i := w.co[id].aim; var s := w.co[id].socks[i];
      exists w': World ::
        && Told(log, w, id, false, lua) == Turn(log, w', id, lua)
        && w'.log == w.log + [Deliver(id, false)] && w'.st == Next(w.st, Deliver(id, false))
        && w'.registered == w.registered && w'.open == w.open
        && w'.Has(id, i) && w'.co[id].socks[i] == s.(connected := true)
  {
    var i := w.co[id].aim;
    var w' := Joined(Take(w, Deliver(id, false)), id);
    assert w'.Has(id, i) && w'.co[id].socks[i] == w.co[id].socks[i].(connected := true);
  }

  /** One that failed takes the timer off, and nothing runs. */
  lemma FailureIsSilent(log: seq<Step>, w: World, id: Node, lua: seq<Call>)
    requires w.st.IsParked(id) && w.st.status[id].wait.InConnect?
    ensures Told(log, w, id, true, lua)
      == Outcome(w.(log := w.log + [Deliver(id, true)], st := Next(w.st, Deliver(id, true))), lua)
  {
  }

  /** Data wake the reader, whose socket stays as it is. */
  lemma DataWakes(log: seq<Step>, w: World, id: Node, failed: bool, lua: seq<Call>)
    requires w.st.IsParked(id) && w.st.status[id].wait.InRecv?
    ensures Told(log, w, id, failed, lua)
      == Turn(log, w.(log := w.log + [Deliver(id, false)], st := Next(w.st, Deliver(id, false))), id, lua)
  {
  }
}
