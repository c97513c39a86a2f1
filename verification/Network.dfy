/** Sockets as the coroutines hold them, and the part of the network they touch: open descriptors and the epoll set. */
module Network {
  import opened RbNode
  import opened Events
  import opened Program

  /** struct mtcp_lua_thread_ctx_s: a coroutine has one event for all it waits for. */
  class Coroutine {
    const ev: Event
    var socks: seq<Socket>

    constructor ()
      ensures socks == [] && fresh(ev) && fresh(ev.timer)
      ensures ev.data == this && ev.handler == NoHandler && !ev.timedout && !ev.timerSet
    {
      ev := new Event(null, NoHandler);
      socks := [];
      new;
      ev.data := this;
    }
  }

  /** mtcp_lua_socket_tcp_ctx_t; open, which the source does not keep, says whether fd is a descriptor not closed yet. */
  class Socket {
    var fd: int
    var connected: bool
    var active: bool
    var vm: Coroutine?
    var vmCtx: Coroutine?
    var connectTimeout: int
    var readTimeout: int
    var open: bool
    ghost const owner: Coroutine

    /** mtcp_lua_socket_tcp. */
    constructor (ghost c: Coroutine)
      ensures fd == -1 && !connected && !active && vm == null && vmCtx == null && !open && owner == c
      ensures connectTimeout == readTimeout == 6000
    {
      fd, connected, active, vm, vmCtx := -1, false, false, null, null;
      connectTimeout, readTimeout := 6000, 6000;
      open, owner := false, c;
    }

    /** The socket as a plain value. */
    ghost function State(): Sock
      reads this
    {
      Sock(fd, connected, active, open, vmCtx != null, connectTimeout, readTimeout)
    }
  }

  ghost function States(socks: seq<Socket>): (r: seq<Sock>)
    reads socks
    ensures |r| == |socks| && forall i :: 0 <= i < |r| ==> r[i] == socks[i].State()
  {
    seq(|socks|, i requires 0 <= i < |socks| reads socks => socks[i].State())
  }

  /** Where s is first in socks, -1 if it is not. */
  ghost function IndexOf(socks: seq<Socket>, s: Socket): (i: int)
    ensures -1 <= i < |socks| && (0 <= i ==> socks[i] == s) && (s in socks ==> 0 <= i)
    ensures forall j :: 0 <= j < i ==> socks[j] != s
  {
    if socks == [] then -1
    else if socks[0] == s then 0
    else
      var i := IndexOf(socks[1..], s);
      if i == -1 then -1 else i + 1
  }

  /** The timers of the events that descriptors deliver. */
  ghost function TimersOf(events: map<int, Event>): map<int, Node> {
    map f | f in events :: events[f].timer
  }

  lemma TimersOfChanged(events: map<int, Event>, fd: int, ev: Event)
    ensures TimersOf(events[fd := ev]) == TimersOf(events)[fd := ev.timer]
    ensures TimersOf(events - {fd}) == TimersOf(events) - {fd}
  {
  }

  lemma {:induction false} IndexOfAdded(socks: seq<Socket>, s: Socket, x: Socket)
    requires x != s
    ensures IndexOf(socks + [s], x) == IndexOf(socks, x)
  {
    if socks == [] {
      assert (socks + [s])[1..] == [];
    } else {
      IndexOfAdded(socks[1..], s, x);
      assert (socks + [s])[1..] == socks[1..] + [s];
    }
  }

  /** Which of the sockets an event with these data is about, if any. */
  ghost function AimOf(socks: seq<Socket>, data: object?): int {
    if data is Socket then IndexOf(socks, data as Socket) else -1
  }

  /** What a coroutine holds, as a plain value. */
  ghost function Held(c: Coroutine): Holder
    reads c`socks, c.ev`data, c.socks
  {
    Holder(States(c.socks), AimOf(c.socks, c.ev.data))
  }

  datatype EpollOp = Add | Del | Mod

  class Net {
    /** The epoll set: what each registered descriptor will deliver. */
    var registered: map<int, Event>
    /** The descriptors that are open, and whose they are. */
    var open: map<int, Socket>
    ghost var socks: set<Socket>

    constructor ()
      ensures Valid() && registered == map[] && open == map[] && socks == {}
    {
      registered, open, socks := map[], map[], {};
    }

    ghost predicate SocketOk(s: Socket)
      reads this, s
    {
      && (s.open ==> s.fd in open && open[s.fd] == s && s.fd != -1)
      && (s.active ==> s.open && s.vmCtx == s.owner)
      && (s.open ==> (s.active <==> s.fd in registered))
      && (s.vmCtx == null || s.vmCtx == s.owner)
      && (s.connected ==> s.vmCtx != null && s.fd != -1)
      && s.connectTimeout > 0 && s.readTimeout > 0 && s.connectTimeout < 0x8000_0000 && s.readTimeout < 0x8000_0000
    }

    ghost predicate Valid()
      reads this, socks
    {
      && (forall s :: s in socks ==> SocketOk(s))
      && (forall f :: f in open ==> open[f] in socks && open[f].open && open[f].fd == f)
      && (forall f :: f in registered ==> f in open && registered[f] == open[f].owner.ev)
    }

    /** mtcp_lua_epoll_ctl; willing says whether the network accepts a registration. */
    method EpollCtl(s: Socket, request: EpollOp, ev: Event?, willing: bool) returns (ret: int)
      requires Valid() && s in socks && s.open && s.vmCtx == s.owner && request != Mod
      requires request.Add? ==> ev == s.owner.ev
      modifies this`registered, s`active
      ensures Valid() && ret in {0, -1}
      ensures request.Add? ==> (ret == 0 <==> willing)
      ensures request.Del? ==> (ret == 0 <==> old(s.active))
      ensures s.active == (if ret == 0 then request.Add? else old(s.active))
      ensures registered == if ret != 0 then old(registered)
        else if request.Add? then old(registered)[s.fd := s.owner.ev] else old(registered) - {s.fd}
    {
      var op := request;
      if op == Add && s.active {
        op := Mod;
      }
      ret := Ctl(op, s.fd, ev, willing);
      if ret != 0 {
        return -1;
      }
      s.active := op != Del;
    }

    /** mtcp_epoll_ctl, which is not part of the program: it fails for what is not as the operation says. */
    method Ctl(op: EpollOp, fd: int, ev: Event?, willing: bool) returns (ret: int)
      requires op.Add? ==> fd !in registered && ev != null
      requires op.Mod? ==> fd in registered && ev != null
      modifies this`registered
      ensures ret == if op.Del? then (if fd in old(registered) then 0 else -1) else if willing then 0 else -1
      ensures registered == if ret != 0 then old(registered)
        else if op.Del? then old(registered) - {fd} else old(registered)[fd := ev]
    {
      if op == Del {
        ret := if fd in registered then 0 else -1;
        registered := registered - {fd};
      } else if willing {
        registered := registered[fd := ev];
        ret := 0;
      } else {
        ret := -1;
      }
    }

    /** mtcp.socket.tcp() */
    method NewSocket(ghost c: Coroutine) returns (s: Socket)
      requires Valid()
      modifies this`socks
      ensures Valid() && fresh(s) && s.owner == c && s.State() == Blank() && socks == old(socks) + {s}
    {
      s := new Socket(c);
      socks := socks + {s};
    }

    /** mtcp_lua_socket_tcp_settimeout */
    method SetTimeout(s: Socket, timeout: int) returns (ok: bool)
      requires Valid() && s in socks
      modifies s`connectTimeout, s`readTimeout
      ensures Valid() && ok == (0 < timeout <= 600000)
      ensures if ok then s.connectTimeout == s.readTimeout == timeout
        else s.connectTimeout == old(s.connectTimeout) && s.readTimeout == old(s.readTimeout)
    {
      if timeout <= 0 || timeout > 600000 {
        return false;
      }
      s.connectTimeout := timeout;
      s.readTimeout := timeout;
      return true;
    }

    /** A connection attempt that is over at once, or under way for the coroutine c, gets its descriptor. */
    method Attach(s: Socket, fd: int, c: Coroutine?)
      requires Valid() && s in socks && s.fd == -1 && fd >= 0 && fd !in open
      requires c == null || c == s.owner
      modifies this`open, s`fd, s`vm, s`vmCtx, s`open
      ensures Valid() && s.open && s.fd == fd && open == old(open)[fd := s]
      ensures if c != null then s.vm == s.vmCtx == c else s.vm == old(s.vm) && s.vmCtx == old(s.vmCtx)
    {
      s.fd := fd;
      if c != null {
        s.vm := c;
        s.vmCtx := c;
      }
      s.open := true;
      open := open[fd := s];
    }

    /** mtcp_lua_socket_tcp_close_helper, for a descriptor that is not closed yet. */
    method Close(ctx: Coroutine?, s: Socket)
      requires Valid() && s in socks && (s.fd != -1 ==> s.open && ctx != null)
      modifies this`registered, this`open, s`active, s`open
      ensures Valid() && !s.open && !s.active
      ensures open == old(open) - (if s.fd == -1 then {} else {s.fd})
      ensures registered == old(registered) - (if s.fd == -1 then {} else {s.fd})
    {
      if s.fd != -1 {
        if s.active {
          var _ := EpollCtl(s, Del, null, true);
        }
        open := open - {s.fd};
        s.open := false;
      }
    }

    /** After a refused registration the socket is as it was before it was connected. */
    method Abandon(ctx: Coroutine, s: Socket)
      requires Valid() && s in socks && s.open
      modifies this`registered, this`open, s`active, s`open, s`fd, s`connected
      ensures Valid() && !s.open && s.fd == -1 && !s.connected && !s.active
      ensures open == old(open) - {old(s.fd)} && registered == old(registered) - {old(s.fd)}
    {
      Close(ctx, s);
      s.fd := -1;
      s.connected := false;
    }

    method Claim(s: Socket, c: Coroutine)
      requires Valid() && s in socks && c == s.owner
      modifies s`vm, s`vmCtx
      ensures Valid() && s.vm == s.vmCtx == c
    {
      s.vm := c;
      s.vmCtx := c;
    }

    method SetConnected(s: Socket)
      requires Valid() && s in socks && s.vmCtx != null && s.open
      modifies s`connected
      ensures Valid() && s.connected
    {
      s.connected := true;
    }
  }
}
