/**
 What a Lua program, the network and the clock together make of a thread, as a function of plain values: the world
 after a call, after a coroutine has had its turn, after a handler, after a pass, after a turn of the event loop.
 What is not decided by them, the readings of the clock and the names of new coroutines, is looked up in the log of the
 steps that are yet to be taken.
 */
module Program {
  import opened RbNode
  import opened TimerList
  import opened Schedule

  /** How an attempt to connect goes, as far as the network decides. */
  datatype Attempt =
    | NotTried
    | AtOnce(fd: int)
    | Refused
    | InProgress(fd: int, willing: bool)

  datatype Reading = Data | Failed | NotYet(willing: bool)

  /** What a Lua program may ask for next. */
  datatype Call =
    | Sleep(seconds: int)
    | Spawn
    | Socket
    | SetTimeout(sock: nat, timeout: int)
    | Connect(sock: nat, attempt: Attempt)
    | Recv(sock: nat, reading: Reading)
    | Close(sock: nat)
    | Return

  /** The network says that the descriptor is ready; failed is what getsockopt tells of a connection. */
  datatype Notice = Notice(fd: int, failed: bool)

  // ------------------------------------------------------------ the world

  datatype Sock = Sock(
    fd: int, connected: bool, active: bool, open: bool, claimed: bool, connectTimeout: int, readTimeout: int)

  /** A socket as it is made. */
  function Blank(): Sock {
    Sock(-1, false, false, false, false, 6000, 6000)
  }

  /** The sockets of a coroutine, and the number of the one its event is about, if any. */
  datatype Holder = Holder(socks: seq<Sock>, aim: int)

  /** registered says whose event each descriptor of the epoll set delivers, open which descriptors there are. */
  datatype World = World(log: seq<Step>, st: State, co: map<Node, Holder>, registered: map<int, Node>, open: set<int>) {
    predicate Has(id: Node, i: int) {
      id in co && 0 <= i < |co[id].socks|
    }
  }

  /** The world after a call, and whether the coroutine that made it still runs. */
  datatype Made = Made(w: World, runs: bool)

  /** The world after a turn, and the calls not made yet. */
  datatype Outcome = Outcome(w: World, rest: seq<Call>)

  ghost function Take(w: World, a: Step): World {
    w.(log := w.log + [a], st := Next(w.st, a))
  }

  function Put(w: World, id: Node, i: int, s: Sock): World
    requires w.Has(id, i)
  {
    w.(co := w.co[id := w.co[id].(socks := w.co[id].socks[i := s])])
  }

  lemma PutSame(w: World, id: Node, i: int)
    requires w.Has(id, i)
    ensures Put(w, id, i, w.co[id].socks[i]) == w
  {
    var h := w.co[id];
    assert h.socks[i := h.socks[i]] == h.socks;
  }

  function AimAt(w: World, id: Node, i: int): World
    requires id in w.co
  {
    w.(co := w.co[id := w.co[id].(aim := i)])
  }

  // ------------------------------------------------------------ calls

  /** What the program and the network are assumed to keep to: a socket is connected while it has no descriptor, gets one
      that is not in use, does not wait for data once it is closed, and is closed once, after it has waited. */
  predicate Allowed(w: World, id: Node, call: Call) {
    match call
    case SetTimeout(i, _) => w.Has(id, i)
    case Connect(i, attempt) =>
      && w.Has(id, i) && w.co[id].socks[i].fd == -1
      && (attempt.AtOnce? || attempt.InProgress? ==> attempt.fd >= 0 && attempt.fd !in w.open)
    case Recv(i, reading) =>
      w.Has(id, i) && var s := w.co[id].socks[i]; s.fd != -1 && reading.NotYet? ==> s.open
    case Close(i) =>
      w.Has(id, i) && var s := w.co[id].socks[i]; s.fd != -1 ==> s.open && s.claimed
    case _ => true
  }

  /** The call of the coroutine id, made at time at. */
  ghost function Do(w: World, id: Node, call: Call, at: int): (a: Made)
    requires id in w.co && Allowed(w, id, call) && !call.Spawn?
    ensures w.log <= a.w.log
  {
    match call
    case Sleep(seconds) =>
      var delay := Truncated(seconds * 1000);
      if delay < 0 then Made(w, true)
      else Made(Take(AimAt(w, id, -1), Park(id, Asleep, at, at + delay)), false)
    case Socket =>
      var h := w.co[id];
      Made(w.(co := w.co[id := h.(socks := h.socks + [Blank()])]), true)
    case SetTimeout(i, timeout) =>
      var s := w.co[id].socks[i];
      Made(if 0 < timeout <= 600000 then Put(w, id, i, s.(connectTimeout := timeout, readTimeout := timeout)) else w, true)
    case Connect(i, attempt) => DoConnect(w, id, i, attempt, at)
    case Recv(i, reading) => DoRecv(w, id, i, reading, at)
    case Close(i) => Made(Closed(w, id, i), true)
    case Return => Made(Take(w, Finish(id)), false)
  }

  ghost function DoConnect(w: World, id: Node, i: int, attempt: Attempt, at: int): Made
    requires w.Has(id, i)
  {
    var s := w.co[id].socks[i];
    match attempt
    case NotTried => Made(w, true)
    case Refused => Made(w, true)
    case AtOnce(fd) => Made(Put(w, id, i, s.(fd := fd, open := true)).(open := w.open + {fd}), true)
    case InProgress(fd, willing) =>
      if willing then
        var w' := Put(w, id, i, s.(fd := fd, open := true, claimed := true, active := true));
        var w'' := AimAt(w', id, i).(open := w.open + {fd}, registered := w.registered[fd := id]);
        Made(Take(w'', Park(id, InConnect, at, at + s.connectTimeout)), false)
      else
        Made(AimAt(Put(w, id, i, s.(claimed := true)), id, i), true)
  }

  ghost function DoRecv(w: World, id: Node, i: int, reading: Reading, at: int): Made
    requires w.Has(id, i)
  {
    var s := w.co[id].socks[i];
    if !s.connected || !reading.NotYet? then Made(w, true)
    else
      var w' := if reading.willing then Put(w, id, i, s.(active := true)).(registered := w.registered[s.fd := id]) else w;
      Made(Take(AimAt(w', id, i), Park(id, InRecv, at, at + s.readTimeout)), false)
  }

  /** An attempt in the making: the socket has its descriptor, and the event its socket. */
  function Tried(w: World, id: Node, i: int, fd: int): World
    requires w.Has(id, i)
  {
    var s := w.co[id].socks[i];
    AimAt(Put(w, id, i, s.(fd := fd, open := true).(claimed := true)).(open := w.open + {fd}), id, i)
  }

  /** The network takes the registration. */
  function Granted(w: World, id: Node, i: int, fd: int): World
    requires w.Has(id, i)
  {
    Put(w, id, i, w.co[id].socks[i].(active := true)).(registered := w.registered[fd := id])
  }

  /** It does not, and the socket is as it was. */
  function Denied(w: World, id: Node, i: int, fd: int): World
    requires w.Has(id, i)
  {
    Put(w, id, i, w.co[id].socks[i].(fd := -1, open := false, connected := false, active := false)).(
      open := w.open - {fd}, registered := w.registered - {fd})
  }

  /** What connect does one after the other is what it does. */
  lemma ConnectSteps(w: World, id: Node, i: int, fd: int, at: int)
    requires w.Has(id, i) && fd !in w.open && fd !in w.registered
    requires var s := w.co[id].socks[i]; s.fd == -1 && !s.connected && !s.active && !s.open
    ensures var w' := Tried(w, id, i, fd);
      && w'.Has(id, i)
      && DoConnect(w, id, i, InProgress(fd, false), at) == Made(Denied(w', id, i, fd), true)
      && DoConnect(w, id, i, InProgress(fd, true), at)
        == Made(Take(Granted(w', id, i, fd), Park(id, InConnect, at, at + w.co[id].socks[i].connectTimeout)), false)
  {
    var s, w' := w.co[id].socks[i], Tried(w, id, i, fd);
    var s' := w'.co[id].socks[i];
    var socks := w.co[id].socks;
    assert w'.co[id].socks[i := s'.(active := true)] == socks[i := s.(fd := fd, open := true, claimed := true, active := true)];
    assert w'.co[id].socks[i := s.(claimed := true)] == socks[i := s.(claimed := true)];
    assert w'.open - {fd} == w.open && w'.registered - {fd} == w.registered;
  }

  /** What recv does one after the other is what it does: the timer comes before the registration. */
  lemma RecvSteps(w: World, id: Node, i: int, at: int, willing: bool)
    requires w.Has(id, i) && w.co[id].socks[i].connected
    ensures var s := w.co[id].socks[i];
      var w' := Take(AimAt(w, id, i), Park(id, InRecv, at, at + s.readTimeout));
      && w'.Has(id, i)
      && DoRecv(w, id, i, NotYet(willing), at) == Made(if willing then Granted(w', id, i, s.fd) else w', false)
  {
  }

  function Closed(w: World, id: Node, i: int): World
    requires w.Has(id, i)
  {
    var s := w.co[id].socks[i];
    if s.fd == -1 then w
    else
      Put(w, id, i, s.(open := false, active := false)).(open := w.open - {s.fd}, registered := w.registered - {s.fd})
  }

  // ------------------------------------------------------------ turns of coroutines

  /** The time of the step that log goes on with after w. */
  function TimeOf(log: seq<Step>, w: World): int {
    if |w.log| < |log| then
      match log[|w.log|]
      case Park(_, _, at, _) => at
      case PassStart(at) => at
      case _ => 0
    else 0
  }

  /** The coroutine that the step that log goes on with after w starts; id if it starts none. */
  function ChildOf(log: seq<Step>, w: World, id: Node): Node {
    if |w.log| < |log| && log[|w.log|].Start? then log[|w.log|].id else id
  }

  ghost function Born(w: World, child: Node): World {
    Take(w, Start(child)).(co := w.co[child := Holder([], -1)])
  }

  /** The coroutine id runs until it waits or ends, and so do, before it goes on, the coroutines it starts. */
  ghost function Turn(log: seq<Step>, w: World, id: Node, lua: seq<Call>): (o: Outcome)
    ensures |o.rest| <= |lua| && w.log <= o.w.log
    decreases |lua|
  {
    if lua == [] then Outcome(Take(w, Finish(id)), [])
    else if id !in w.co || !Allowed(w, id, lua[0]) then Turn(log, w, id, lua[1..])
    else if lua[0].Spawn? then
      var child := ChildOf(log, w, id);
      var o := Turn(log, Born(w, child), child, lua[1..]);
      Turn(log, o.w, id, o.rest)
    else
      var a := Do(w, id, lua[0], TimeOf(log, w));
      if a.runs then Turn(log, a.w, id, lua[1..]) else Outcome(a.w, lua[1..])
  }

  /** From w the coroutine id comes to w' with the calls rest to be made. */
  ghost predicate Turns(w: World, id: Node, lua: seq<Call>, w': World, rest: seq<Call>) {
    Turn(w'.log, w, id, lua) == Outcome(w', rest)
  }

  lemma DoTime(w: World, id: Node, call: Call, at: int, at': int)
    requires id in w.co && Allowed(w, id, call) && !call.Spawn?
    ensures var a := Do(w, id, call, at); a.runs ==> a == Do(w, id, call, at') && a.w.log == w.log
    ensures var a := Do(w, id, call, at); !a.runs ==>
      |a.w.log| == |w.log| + 1 && w.log <= a.w.log && (call.Return? || TimeOf(a.w.log, w) == at)
  {
  }

  /** What the log goes on with after a turn makes no difference to the turn. */
  lemma {:induction false} TurnIsOver(log: seq<Step>, log': seq<Step>, w: World, id: Node, lua: seq<Call>)
    requires Turn(log, w, id, lua).w.log <= log <= log'
    ensures Turn(log', w, id, lua) == Turn(log, w, id, lua)
    decreases |lua|
  {
    if lua == [] {
    } else if id !in w.co || !Allowed(w, id, lua[0]) {
      TurnIsOver(log, log', w, id, lua[1..]);
    } else if lua[0].Spawn? {
      var child := ChildOf(log, w, id);
      var o := Turn(log, Born(w, child), child, lua[1..]);
      assert o.w.log <= log;
      TurnIsOver(log, log', Born(w, child), child, lua[1..]);
      TurnIsOver(log, log', o.w, id, o.rest);
    } else {
      var a := Do(w, id, lua[0], TimeOf(log, w));
      DoTime(w, id, lua[0], TimeOf(log, w), TimeOf(log', w));
      if a.runs {
        TurnIsOver(log, log', a.w, id, lua[1..]);
      }
    }
  }

  /** After the first of the calls lua has been made, or skipped, the world is w', and the calls rest are to be made. */
  ghost predicate Makes(w: World, id: Node, lua: seq<Call>, w': World, rest: seq<Call>, runs: bool)
    requires lua != [] && id in w.co
  {
    if !Allowed(w, id, lua[0]) then w' == w && rest == lua[1..] && runs
    else if lua[0].Spawn? then
      var child := ChildOf(w'.log, w, id);
      runs && Turns(Born(w, child), child, lua[1..], w', rest)
    else
      rest == lua[1..] && Do(w, id, lua[0], TimeOf(w'.log, w)) == Made(w', runs)
  }

  lemma MakesDo(w: World, id: Node, call: Call, lua: seq<Call>, w': World, runs: bool, at: int)
    requires id in w.co && Allowed(w, id, call) && !call.Spawn? && Do(w, id, call, at) == Made(w', runs)
    ensures Makes(w, id, [call] + lua, w', lua, runs)
  {
    DoTime(w, id, call, at, TimeOf(w'.log, w));
  }

  lemma TurnStops(w: World, id: Node, lua: seq<Call>, w': World, rest: seq<Call>)
    requires lua != [] && id in w.co && Makes(w, id, lua, w', rest, false)
    ensures Turns(w, id, lua, w', rest)
  {
  }

  lemma TurnGoesOn(w: World, id: Node, lua: seq<Call>, w': World, r: seq<Call>, w'': World, rest: seq<Call>)
    requires lua != [] && id in w.co && Makes(w, id, lua, w', r, true) && Turns(w', id, r, w'', rest)
    ensures Turns(w, id, lua, w'', rest)
  {
    assert w'.log <= w''.log;
    if Allowed(w, id, lua[0]) {
      if lua[0].Spawn? {
        var child := ChildOf(w'.log, w, id);
        assert |Born(w, child).log| == |w.log| + 1 && Born(w, child).log <= w'.log;
        assert ChildOf(w''.log, w, id) == child;
        TurnIsOver(w'.log, w''.log, Born(w, child), child, lua[1..]);
      } else {
        DoTime(w, id, lua[0], TimeOf(w'.log, w), TimeOf(w''.log, w));
      }
    }
  }

  // ------------------------------------------------------------ handlers

  /** The socket the event of id is about, changed. */
  function OnAim(w: World, id: Node, s: Sock): World
    requires id in w.co && w.Has(id, w.co[id].aim)
  {
    Put(w, id, w.co[id].aim, s)
  }

  predicate HasAim(w: World, id: Node) {
    id in w.co && w.Has(id, w.co[id].aim)
  }

  /** A socket whose wait has timed out is taken out of the epoll set. */
  function Dropped(w: World, id: Node): World {
    if HasAim(w, id) then
      var s := w.co[id].socks[w.co[id].aim];
      OnAim(w, id, s.(active := false)).(registered := w.registered - {s.fd})
    else w
  }

  lemma DroppedIs(w: World, id: Node)
    requires HasAim(w, id)
    ensures var i := w.co[id].aim; var s := w.co[id].socks[i];
      && (!s.active && s.fd !in w.registered ==> Dropped(w, id) == w)
      && Dropped(w, id) == Put(w, id, i, s.(active := false)).(registered := w.registered - {s.fd})
  {
    PutSame(w, id, w.co[id].aim);
  }

  function Joined(w: World, id: Node): World {
    if HasAim(w, id) then OnAim(w, id, w.co[id].socks[w.co[id].aim].(connected := true)) else w
  }

  /** The first timer of w goes off. */
  ghost function Fired(log: seq<Step>, w: World, lua: seq<Call>): Outcome
    requires w.st.queue != []
  {
    var id := w.st.queue[0].node;
    var w' := Take(w, Fire(id));
    Turn(log, if w.st.IsParked(id) && w.st.status[id].wait.Asleep? then w' else Dropped(w', id), id, lua)
  }

  /** The network tells id that its socket is ready, or that its connection failed. */
  ghost function Told(log: seq<Step>, w: World, id: Node, failed: bool, lua: seq<Call>): Outcome {
    var connects := w.st.IsParked(id) && w.st.status[id].wait.InConnect?;
    var w' := Take(w, Deliver(id, failed && connects));
    if !connects then Turn(log, w', id, lua)
    else if failed then Outcome(w', lua)
    else Turn(log, Joined(w', id), id, lua)
  }

  // ------------------------------------------------------------ turns of the loop

  /** id waits for the network. */
  predicate Listens(w: World, id: Node) {
    w.st.IsParked(id) && !w.st.status[id].wait.Asleep?
  }

  /** The descriptor is in the epoll set, and the coroutine it belongs to waits for the network. */
  predicate Awaited(w: World, fd: int) {
    fd in w.registered && Listens(w, w.registered[fd])
  }

  datatype Report = Report(id: Node, failed: bool)

  /** What the network reports of what is awaited. */
  function Reported(w: World, notices: seq<Notice>): seq<Report> {
    if notices == [] then []
    else
      var n := notices[|notices| - 1];
      Reported(w, notices[..|notices| - 1]) + if Awaited(w, n.fd) then [Report(w.registered[n.fd], n.failed)] else []
  }

  /** Every notice of what is awaited is reported. */
  lemma {:induction false} ReportedAt(w: World, notices: seq<Notice>, i: nat) returns (j: nat)
    requires i < |notices| && Awaited(w, notices[i].fd)
    ensures j < |Reported(w, notices)| && Reported(w, notices)[j] == Report(w.registered[notices[i].fd], notices[i].failed)
  {
    var n := |notices| - 1;
    if i == n {
      j := |Reported(w, notices[..n])|;
    } else {
      j := ReportedAt(w, notices[..n], i);
    }
  }

  /** The i-th report is of a coroutine not reported before. */
  predicate IsFirst(reports: seq<Report>, i: nat)
    requires i < |reports|
  {
    forall j :: 0 <= j < i ==> reports[j].id != reports[i].id
  }

  /** From a the loop over the reports comes to b by the i-th. A coroutine reported again is told again if it waits again. */
  ghost predicate Handles(a: Outcome, reports: seq<Report>, i: nat, b: Outcome)
    requires i < |reports|
  {
    var r := reports[i];
    if IsFirst(reports, i) || Listens(a.w, r.id) then Told(b.w.log, a.w, r.id, r.failed, a.rest) == b else b == a
  }

  /** batch tells where the loop over the reports is before each of them, and after the last. */
  ghost predicate IsBatch(batch: seq<Outcome>, reports: seq<Report>) {
    |batch| == |reports| + 1 && forall i :: 0 <= i < |reports| ==> Handles(batch[i], reports, i, batch[i + 1])
  }

  predicate IsDue(w: World, now: int) {
    w.st.queue != [] && w.st.queue[0].due <= now
  }

  ghost predicate FiresOne(a: Outcome, now: int, b: Outcome) {
    IsDue(a.w, now) && Fired(b.w.log, a.w, a.rest) == b
  }

  /** pass tells where a pass is before each firing, and when nothing is due. */
  ghost predicate IsPass(pass: seq<Outcome>, now: int) {
    && pass != []
    && (forall i :: 0 <= i < |pass| - 1 ==> FiresOne(pass[i], now, pass[i + 1]))
    && !IsDue(pass[|pass| - 1].w, now)
  }

  /** A turn of the event loop in full. */
  datatype Round = Round(batch: seq<Outcome>, now: int, pass: seq<Outcome>)

  /** From a the loop comes to b when the network gives notices: first what it reports is handled, then a pass is made. */
  ghost predicate IsRound(a: Outcome, notices: seq<Notice>, r: Round, b: Outcome) {
    && IsBatch(r.batch, Reported(a.w, notices)) && r.batch[0] == a
    && MakesPass(r.batch[|r.batch| - 1], r.now, r.pass, b)
  }

  ghost predicate MakesPass(a: Outcome, now: int, pass: seq<Outcome>, b: Outcome) {
    && IsPass(pass, now)
    && pass[0] == Outcome(Take(a.w, PassStart(now)), a.rest)
    && b == Outcome(Take(pass[|pass| - 1].w, PassEnd), pass[|pass| - 1].rest)
  }

  /** A thread that starts at time start, and whose main coroutine goes to sleep at time at until the first pass. */
  ghost function Begun(start: int, main: Node, at: int): World {
    Take(Born(World([], Initial(start), map[], map[], {}), main), Park(main, Asleep, at, at))
  }

  /** run tells where the loop is before each turn, and after the last. */
  ghost predicate IsRun(run: seq<Outcome>, network: seq<seq<Notice>>, rounds: seq<Round>) {
    && |run| == |network| + 1 == |rounds| + 1
    && forall i :: 0 <= i < |network| ==> IsRound(run[i], network[i], rounds[i], run[i + 1])
  }
}
