/** The server: accepting, serving and freeing connections from within the event loop. */
module Server {
  import opened Bytes
  import opened Buffers
  import opened Arguments
  import opened Sockets
  import opened Framing
  import opened Protocol
  import opened Transfer
  import opened LoopModel
  import EventLoop
  import opened Dispatch
  import opened Connections
  import opened ServerTable
  import opened ServerSteps

  /** The process's open descriptors, and what accept(2) will come up with. */
  class Kernel {
    var open: set<nat>
    /** The descriptor the n-th accept finds, if any, and how many there were */
    const offers: nat -> Option<nat>
    var accepts: nat

    constructor (open: set<nat>, offers: nat -> Option<nat>)
      ensures this.open == open && this.offers == offers && accepts == 0
    {
      this.open := open;
      this.offers := offers;
      accepts := 0;
    }

    /** The next answer of accept(2): never a descriptor already open. */
    function Offered(): (fd: int)
      reads this
      ensures fd == -1 || (fd >= 0 && fd !in open)
    {
      match offers(accepts)
      case None => -1
      case Some(k) => if k in open then -1 else k
    }

    method Accept() returns (fd: int)
      modifies this
      ensures fd == old(Offered()) && accepts == old(accepts) + 1
      ensures open == if fd == -1 then old(open) else old(open) + {fd as nat}
    {
      fd := Offered();
      accepts := accepts + 1;
      if fd != -1 {
        open := open + {fd};
      }
    }

    method Close(fd: nat)
      modifies this
      ensures open == old(open) - {fd} && accepts == old(accepts)
    {
      open := open - {fd};
    }
  }

  /** A handler was entered: for which descriptor, with which data pointer, and the table
      and the connections alive at that moment. */
  datatype Event = Event(proc: Proc, fd: nat, data: object?, before: Table, alive: set<object>)

  /** A client handler is entered only with a client that is alive, has that descriptor, and
      is what the table holds for it. */
  predicate SafeEvent(e: Event) {
    && e.fd < |e.before| && e.data == e.before[e.fd].data
    && (e.proc == READ_EVENT || e.proc == WRITE_EVENT ==>
         e.data in e.alive && e.data is Connection && (e.data as Connection).fd == e.fd)
  }

  /** Every one of these handlers was entered safely. */
  predicate AllSafe(entered: seq<Event>) {
    forall e :: e in entered ==> SafeEvent(e)
  }

  class Server {
    const loop: EventLoop.Loop
    const kernel: Kernel
    const fs: FileSystem
    const listenFd: nat
    /** Connections created and not yet deleted */
    ghost var live: set<Connection>
    /** The objects of all connections so far */
    ghost var owned: set<object>
    /** The handlers entered, oldest first; each one makes its own entry on entering. */
    ghost var history: seq<Event>
    /** What each of them found on entering */
    ghost var views: seq<ServerState>
    /** An event had no defined effect; nothing more is said. */
    var crashed: bool

    ghost function Fds(): set<nat>
      reads this
    {
      {listenFd} + set c | c in live :: c.fd
    }

    /** No part of the server or its loop is among these objects. */
    ghost predicate Apart(objects: set<object>)
      reads this, loop, loop.api
    {
      && this !in objects && kernel !in objects && fs !in objects
      && loop !in objects && loop.events !in objects && loop.fired !in objects
      && loop.api !in objects && loop.api.events !in objects
    }

    /** The connections are in order and share nothing with the server or each other. */
    ghost predicate Separate()
      reads this, loop, loop.api, live, owned
    {
      && Apart(owned)
      && (forall c :: c in live ==> c in owned && c.Repr <= owned && c.Valid())
      && (forall c, d :: c in live && d in live && c != d ==> c.Repr !! d.Repr)
    }

    ghost predicate Valid()
      reads this, kernel, loop, loop.api, loop.events, live, owned
    {
      && loop.Valid()
      && kernel.open == Fds()
      && TableOk(loop.events[..], this, listenFd, live)
      && Separate()
    }

    ghost function Set(): Setting
      reads this, kernel, loop, loop.api
    {
      Setting(listenFd, loop.events.Length, kernel.offers, loop.api.room)
    }

    /** The server's state as a value */
    ghost function View(): ServerState
      reads this, kernel, fs, loop, loop.api, loop.events, live, owned
      requires Valid()
    {
      ServerState(fs.files, map c | c in live :: ViewOf(c), kernel.accepts, loop.api.adds)
    }

    ghost function ViewOf(c: Connection): ConnState
      reads this, kernel, fs, loop, loop.api, loop.events, live, owned
      requires Valid() && c in live
    {
      ConnState(c.sock.inbound, c.sock.outbound, c.Pending(), loop.events[c.fd].mask.w)
    }

    /** `init`. The listening descriptor gets registered, and the server is in order, exactly
        if it is within the table and the kernel has room; a refusal is not handled. */
    constructor (fs: FileSystem, listenFd: nat, maxClients: nat, room: nat -> bool, offers: nat -> Option<nat>)
      ensures this.fs == fs && this.listenFd == listenFd && live == {} && !crashed
      ensures owned == {} && history == [] && views == [] && loop.fdsetSize == maxClients
      ensures loop.api.room == room && kernel.offers == offers && kernel.accepts == 0
      ensures !MaskAt(loop.events[..], listenFd).None() <==> listenFd < maxClients && room(0)
      ensures listenFd < maxClients && room(0) ==> Valid()
    {
      hide Agree, Apply, Succeeds, Connection.Valid, EventLoop.Loop.Valid;
      this.fs := fs;
      this.listenFd := listenFd;
      kernel := new Kernel({listenFd}, offers);
      loop := new EventLoop.Loop(maxClients, room);
      live, owned, history, views := {}, {}, [], [];
      crashed := false;
      new;
      var ret := loop.AddFileEvent(listenFd, READABLE, ACCEPT_TCP, this);
    }

    ghost method Record(e: Event)
      requires Valid()
      modifies `history, `views
      ensures Valid() && View() == old(View())
      ensures history == old(history) + [e] && views == old(views) + [old(View())]
    {
      hide TableOk, Agree, Connection.Valid, EventLoop.Loop.Valid;
      history, views := history + [e], views + [View()];
    }

    /** ~client_t(): the registrations go, then the descriptor. */
    method Delete(c: Connection)
      requires loop.Valid() && c in live
      modifies `live, kernel, loop`maxFd, loop.events, loop.api`interest
      ensures loop.Valid()
      ensures live == old(live) - {c}
      ensures kernel.open == old(kernel.open) - {c.fd}
      ensures kernel.accepts == old(kernel.accepts)
      ensures c.fd >= |old(loop.events[..])| ==> loop.events[..] == old(loop.events[..])
      ensures c.fd < |old(loop.events[..])| ==>
        loop.events[..] == old(loop.events[..])[c.fd := old(loop.events[..])[c.fd].(mask := Mask(false, false))]
    {
      hide Agree, Apply, Succeeds, Connection.Valid, EventLoop.Loop.Valid;
      loop.DelFileEvent(c.fd, READABLE);
      loop.DelFileEvent(c.fd, WRITABLE);
      kernel.Close(c.fd);
      live := live - {c};
    }

    /** Deleting a live connection: it alone goes, with its descriptor. */
    method Free(c: Connection)
      requires Valid() && c in live
      modifies `live, kernel, loop`maxFd, loop.events, loop.api`interest
      ensures Valid() && live == old(live) - {c} && c.fd < |old(loop.events[..])|
      ensures kernel.accepts == old(kernel.accepts)
      ensures loop.events[..] == old(loop.events[..])[c.fd := old(loop.events[..])[c.fd].(mask := Mask(false, false))]
    {
      hide TableOk, Bound, Agree, Apply, Succeeds, Connection.Valid, EventLoop.Loop.Valid;
      DeleteOk(loop.events[..], this, listenFd, live, c);
      DistinctAll(loop.events[..], this, listenFd, live, c);
      Delete(c);
      assert Fds() == old(Fds()) - {c.fd};
    }

    /** The accepted descriptor and the client object made for it; what the peer will send
        is arbitrary. */
    method NewConnection() returns (c: Connection?)
      modifies kernel
      ensures kernel.accepts == old(kernel.accepts) + 1
      ensures c == null <==> old(kernel.Offered()) == -1
      ensures c == null ==> kernel.open == old(kernel.open)
      ensures c != null ==>
        && fresh(c) && fresh(c.Repr) && c.Valid() && c.Pending() == NO_OUT && c.sock.outbound == []
        && c.fd == old(kernel.Offered())
        && c.fd !in old(kernel.open) && kernel.open == old(kernel.open) + {c.fd}
    {
      var fd := kernel.Accept();
      if fd == -1 { return null; }
      var inbound: bytes := *;
      var sock := new Socket(true, inbound);
      c := new Connection(fd, sock);
    }

    ghost method Adopt(c: Connection)
      requires Separate() && kernel.open == Fds() + {c.fd}
      requires c.Valid() && c !in live && Apart(c.Repr) && c.Repr !! owned
      modifies `live, `owned
      ensures live == old(live) + {c} && owned == old(owned) + c.Repr
      ensures Separate() && kernel.open == Fds()
    {
      hide Connection.Valid;
      live, owned := live + {c}, owned + c.Repr;
    }

    /** Takes a new connection in and registers it. */
    method Enlist(c: Connection) returns (ret: int)
      requires loop.Valid() && Separate()
      requires TableOk(loop.events[..], this, listenFd, live)
      requires kernel.open == Fds() + {c.fd} && c.fd !in Fds()
      requires c.Valid() && c !in live && Apart(c.Repr) && c.Repr !! owned
      modifies `live, `owned, loop`maxFd, loop.events, loop.api`interest, loop.api`adds
      ensures live == old(live) + {c} && owned == old(owned) + c.Repr
      ensures loop.Valid() && Separate() && kernel.open == Fds()
      ensures ret == if c.fd < |old(loop.events[..])| && loop.api.room(old(loop.api.adds)) then 0 else -1
      ensures loop.api.adds == old(loop.api.adds) + if c.fd < |old(loop.events[..])| then 1 else 0
      ensures ret == 0 ==> Valid()
      ensures ret == 0 ==>
        && loop.events[c.fd].mask == Mask(true, false)
        && loop.events[c.fd].rProc == READ_EVENT && loop.events[c.fd].data == c
        && loop.events[..] == old(loop.events[..])[c.fd := loop.events[c.fd]]
      ensures ret == -1 ==> loop.events[..] == old(loop.events[..]) && MaskAt(loop.events[..], c.fd).None()
    {
      hide TableOk, Bound, Agree, Apply, Succeeds, Connection.Valid, EventLoop.Loop.Valid;
      if c.fd < |loop.events[..]| {
        AcceptOk(loop.events[..], this, listenFd, live, c);
      }
      Adopt(c);
      ret := loop.AddFileEvent(c.fd, READABLE, READ_EVENT, c);
    }

    /** Frees a client that never got registered; its deletions find nothing. */
    method Discard(c: Connection)
      requires loop.Valid() && Separate() && kernel.open == Fds() && c in live
      requires MaskAt(loop.events[..], c.fd).None()
      requires TableOk(loop.events[..], this, listenFd, live - {c})
      requires c.fd != listenFd && forall d :: d in live && d != c ==> d.fd != c.fd
      modifies `live, kernel, loop`maxFd, loop.events, loop.api`interest
      ensures Valid() && live == old(live) - {c} && loop.events[..] == old(loop.events[..])
      ensures kernel.accepts == old(kernel.accepts)
    {
      hide TableOk, Cleared, Agree, Connection.Valid, EventLoop.Loop.Valid;
      ClearNothing(loop.events[..], c.fd);
      Delete(c);
      assert Fds() == old(Fds()) - {c.fd};
    }

    /** Registers a new connection, or frees it again at once. */
    method Admit(c: Connection)
      requires loop.Valid() && Separate()
      requires TableOk(loop.events[..], this, listenFd, live)
      requires kernel.open == Fds() + {c.fd} && c.fd !in Fds()
      requires c.Valid() && c !in live && Apart(c.Repr) && c.Repr !! owned
      modifies `live, `owned, kernel, loop`maxFd, loop.events, loop.api`interest, loop.api`adds
      ensures Valid() && owned == old(owned) + c.Repr && kernel.accepts == old(kernel.accepts)
      ensures if c.fd < |old(loop.events[..])| && loop.api.room(old(loop.api.adds)) then
          && live == old(live) + {c} && loop.events[c.fd].mask == Mask(true, false)
          && loop.events[c.fd].rProc == READ_EVENT && loop.events[c.fd].data == c
          && loop.events[..] == old(loop.events[..])[c.fd := loop.events[c.fd]]
        else
          live == old(live) && loop.events[..] == old(loop.events[..])
      ensures loop.api.adds == old(loop.api.adds) + if c.fd < |old(loop.events[..])| then 1 else 0
    {
      hide TableOk, Bound, Cleared, Agree, Apply, Succeeds, Connection.Valid, EventLoop.Loop.Valid;
      var ret := Enlist(c);
      if ret == -1 {
        assert live - {c} == old(live);
        Discard(c);
      }
    }

    /** `accept_tcp_handler`: what accept(2) comes up with is registered for reading, or, if
        the loop or the kernel refuses, freed again at once. */
    method AcceptTcp()
      requires Valid()
      modifies `live, `owned, `history, `views, kernel, loop`maxFd, loop.events, loop.api`interest, loop.api`adds
      ensures Valid() && fresh(owned - old(owned)) && kernel.accepts == old(kernel.accepts) + 1
      ensures history == old(history) + [Event(ACCEPT_TCP, listenFd, this, old(loop.events[..]), old(live))]
      ensures views == old(views) + [old(View())]
      ensures var fd := old(kernel.Offered());
        if 0 <= fd < |old(loop.events[..])| && loop.api.room(old(loop.api.adds)) then
          && loop.events[fd].mask == Mask(true, false) && loop.events[fd].rProc == READ_EVENT
          && loop.events[..] == old(loop.events[..])[fd := loop.events[fd]]
          && exists c :: fresh(c) && live == old(live) + {c} && c.fd == fd && loop.events[fd].data == c
               && c.Repr <= owned && fresh(c.Repr) && c.Valid() && c.Pending() == NO_OUT && c.sock.outbound == []
        else
          live == old(live) && loop.events[..] == old(loop.events[..])
      ensures loop.api.adds == old(loop.api.adds) + if 0 <= old(kernel.Offered()) < |old(loop.events[..])| then 1 else 0
    {
      hide TableOk, Bound, Cleared, Agree, Apply, Succeeds, Connection.Valid, EventLoop.Loop.Valid;
      Record(Event(ACCEPT_TCP, listenFd, this, loop.events[..], live));
      var c := NewConnection();
      if c == null { return; }
      Admit(c);
    }

    /** Arms the writable event of a live connection; with the descriptor registered
        already, this cannot fail. */
    method Arm(c: Connection)
      requires Valid() && c in live
      modifies loop`maxFd, loop.events, loop.api`interest, loop.api`adds
      ensures Valid() && c.fd < |old(loop.events[..])| && loop.api.adds == old(loop.api.adds)
      ensures var e, e' := old(loop.events[..])[c.fd], loop.events[c.fd];
        && e'.mask == Mask(true, true) && e'.wProc == WRITE_EVENT && e'.rProc == e.rProc && e'.data == e.data
        && loop.events[..] == old(loop.events[..])[c.fd := e']
    {
      hide Bound, Agree, Apply, Succeeds, Connection.Valid, EventLoop.Loop.Valid;
      ArmOk(loop.events[..], this, listenFd, live, c);
      var ret := loop.AddFileEvent(c.fd, WRITABLE, WRITE_EVENT, c);
    }

    method Disarm(c: Connection)
      requires Valid() && c in live
      modifies loop`maxFd, loop.events, loop.api`interest
      ensures Valid() && c.fd < |old(loop.events[..])|
      ensures loop.events[..] == old(loop.events[..])[c.fd := old(loop.events[..])[c.fd].(mask := Mask(true, false))]
    {
      hide Bound, Agree, Apply, Succeeds, Connection.Valid, EventLoop.Loop.Valid;
      DisarmOk(loop.events[..], this, listenFd, live, c);
      loop.DelFileEvent(c.fd, WRITABLE);
    }

    /** A connection operation leaves the server and all other connections in order. */
    method RunCommand(c: Connection, kind: Kind, args: seq<bytes>) returns (ok: bool)
      requires Valid() && c in live && Accepted(args) == Some(kind)
      modifies `owned, c.Repr, fs
      ensures Valid() && fresh(c.Repr - old(c.Repr)) && owned == old(owned) + c.Repr
      ensures c.sock.outbound == old(c.sock.outbound)
      ensures match Execute(args, old(c.sock.inbound), old(fs.files), old(c.Pending()))
        case Fault => !ok
        case Drop => false
        case Served(rest, files, out, _) => ok && c.sock.inbound == rest && fs.files == files && c.Pending() == out
    {
      hide TableOk, Agree, EventLoop.Loop.Valid, Connection.Valid, Execute, Accepted;
      ok := c.RunCommand(fs, kind, args);
      owned := owned + c.Repr;
    }

    /** `process_command`: lookup and arity check, arming, and the command itself. */
    method ProcessCommand(c: Connection, args: seq<bytes>)
      requires Valid() && !crashed && c in live
      modifies `crashed, `owned, fs, loop`maxFd, loop.events, loop.api`interest, loop.api`adds, c.Repr
      ensures fresh(owned - old(owned)) && history == old(history) && views == old(views)
      ensures kernel.accepts == old(kernel.accepts) && loop.api.adds == old(loop.api.adds)
      ensures match Execute(args, old(c.sock.inbound), old(fs.files), old(c.Pending()))
        case Fault => crashed
        case Drop => false
        case Served(rest, files, out, arm) =>
          && !crashed && Valid() && live == old(live) && fresh(c.Repr - old(c.Repr))
          && c.sock.inbound == rest && c.sock.outbound == old(c.sock.outbound)
          && fs.files == files && c.Pending() == out
          && c.fd < |old(loop.events[..])| == |loop.events[..]|
          && var e, e' := old(loop.events[..])[c.fd], loop.events[c.fd];
          && loop.events[..] == old(loop.events[..])[c.fd := e']
          && if arm then
               e'.mask == Mask(true, true) && e'.wProc == WRITE_EVENT && e'.rProc == e.rProc && e'.data == e.data
             else e' == e
    {
      hide TableOk, Agree, EventLoop.Loop.Valid, Connection.Valid, Armed, TakeFile, Frame, Chunks, FrameList, Le64;
      KnownFd(loop.events[..], this, listenFd, live, c);
      if args == [] { crashed := true; return; }
      match Accepted(args) {
        case None =>
        case Some(kind) =>
          if kind.Replies() {
            Arm(c);
          }
          var ok := RunCommand(c, kind, args);
          if !ok { crashed := true; }
      }
    }

    /** `read_event_handler`: serves one request or frees the connection. */
    method ReadEvent(c: Connection)
      requires Valid() && !crashed && c in live
      modifies this, kernel, fs, loop`maxFd, loop.events, loop.api`interest, loop.api`adds, c.Repr
      ensures fresh(owned - old(owned))
      ensures kernel.accepts == old(kernel.accepts) && loop.api.adds == old(loop.api.adds)
      ensures history == old(history) + [Event(READ_EVENT, c.fd, c, old(loop.events[..]), old(live))]
      ensures views == old(views) + [old(View())]
      ensures match Serve(old(c.sock.inbound), old(fs.files), old(c.Pending()))
        case Fault => crashed
        case Drop =>
          && !crashed && Valid() && live == old(live) - {c} && fs.files == old(fs.files)
          && c.fd < |old(loop.events[..])|
          && loop.events[..] == old(loop.events[..])[c.fd := old(loop.events[..])[c.fd].(mask := Mask(false, false))]
        case Served(rest, files, out, arm) =>
          && !crashed && Valid() && live == old(live) && fresh(c.Repr - old(c.Repr))
          && c.sock.inbound == rest && c.sock.outbound == old(c.sock.outbound)
          && fs.files == files && c.Pending() == out
          && c.fd < |old(loop.events[..])| == |loop.events[..]|
          && var e, e' := old(loop.events[..])[c.fd], loop.events[c.fd];
          && loop.events[..] == old(loop.events[..])[c.fd := e']
          && if arm then
               e'.mask == Mask(true, true) && e'.wProc == WRITE_EVENT && e'.rProc == e.rProc && e'.data == e.data
             else e' == e
    {
      hide Separate, TableOk, Agree, EventLoop.Loop.Valid, Connection.Valid, Armed, Cleared;
      hide Execute, Tokens, TakeRequest;
      Record(Event(READ_EVENT, c.fd, c, loop.events[..], live));
      var r, args := ReadInput(c);
      match r {
        case NoRequest => Free(c);
        case Unclear => crashed := true;
        case Requested(_, _) => ProcessCommand(c, args);
      }
    }

    /** The reads at the top of the handler, and `process_input_buffer`. */
    method ReadInput(c: Connection) returns (r: Requested, args: seq<bytes>)
      requires Valid() && c in live
      modifies c.Repr
      ensures Valid() && c.Repr == old(c.Repr) && c.Pending() == old(c.Pending())
      ensures live == old(live) && owned == old(owned) && history == old(history) && views == old(views)
      ensures crashed == old(crashed) && fs.files == old(fs.files)
      ensures kernel.accepts == old(kernel.accepts) && loop.api.adds == old(loop.api.adds)
      ensures loop.events == old(loop.events) && loop.events[..] == old(loop.events[..])
      ensures c.sock.outbound == old(c.sock.outbound)
      ensures r == TakeRequest(old(c.sock.inbound))
      ensures r.Requested? ==> c.sock.inbound == r.rest && args == Tokens(CStr(r.text))
    {
      hide TableOk, Agree, EventLoop.Loop.Valid, Connection.Valid, Tokens, TakeRequest;
      r, args := c.ReadInput();
    }

    /** `write_event_handler`: sends what is queued and disarms, or, with nothing queued,
        frees the connection. */
    method WriteEvent(c: Connection)
      requires Valid() && c in live
      modifies `live, `history, `views, kernel, loop`maxFd, loop.events, loop.api`interest, c.Repr
      ensures Valid() && kernel.accepts == old(kernel.accepts)
      ensures history == old(history) + [Event(WRITE_EVENT, c.fd, c, old(loop.events[..]), old(live))]
      ensures views == old(views) + [old(View())]
      ensures c.fd < |old(loop.events[..])|
      ensures old(c.Pending().wbuf) == [] ==>
        && live == old(live) - {c}
        && loop.events[..] == old(loop.events[..])[c.fd := old(loop.events[..])[c.fd].(mask := Mask(false, false))]
      ensures old(c.Pending().wbuf) != [] ==>
        && live == old(live) && c.Repr == old(c.Repr)
        && c.sock.outbound == old(c.sock.outbound) + old(c.Pending().Bytes())
        && c.sock.inbound == old(c.sock.inbound)
        && c.Pending() == NO_OUT
        && loop.events[..] == old(loop.events[..])[c.fd := old(loop.events[..])[c.fd].(mask := Mask(true, false))]
    {
      hide TableOk, Agree, EventLoop.Loop.Valid, Connection.Valid, Disarmed, Cleared;
      Record(Event(WRITE_EVENT, c.fd, c, loop.events[..], live));
      if c.ReplySize() == 0 {
        Free(c);
        return;
      }
      Flush(c);
      if c.ReplySize() == 0 {
        Disarm(c);
      }
    }

    method Flush(c: Connection)
      requires Valid() && c in live && c.Pending().wbuf != []
      modifies c.Repr
      ensures Valid() && c.Repr == old(c.Repr) && c.Pending() == NO_OUT
      ensures c.sock.inbound == old(c.sock.inbound)
      ensures c.sock.outbound == old(c.sock.outbound) + old(c.Pending().Bytes())
    {
      hide TableOk, Agree, EventLoop.Loop.Valid, Connection.Valid;
      c.FlushReplies();
    }

    /** What the handlers may touch: everything but the loop's own arrays and sizes. */
    ghost function Touchable(): set<object>
      reads this
    {
      {this, kernel, fs} + owned
    }

    /** The objects of the other connections */
    ghost function Others(c: Connection): set<object>
      reads this, live
    {
      set d, o | d in live && d != c && o in d.Repr :: o
    }

    /** A handler for `c` may change none of them. */
    lemma OthersApart(c: Connection)
      requires Valid() && c in live
      ensures Others(c) !! c.Repr && Apart(Others(c)) && Apart(c.Repr)
    {
      hide TableOk, Agree, EventLoop.Loop.Valid, Connection.Valid;
    }

    /** The entries of the other connections are as they were. */
    twostate predicate OtherEntries(c: Connection)
      reads loop, loop.events
    {
      && c.fd < |old(loop.events[..])| == |loop.events[..]|
      && loop.events[..] == old(loop.events[..])[c.fd := loop.events[c.fd]]
    }

    /** What a handler does to one connection leaves the view of the others as it was. */
    twostate lemma OthersViewed(c: Connection)
      requires old(Valid()) && Valid() && c in old(live) && live <= old(live)
      requires unchanged(old(Others(c))) && OtherEntries(c)
      ensures forall d :: d in live && d != c ==> ViewOf(d) == old(ViewOf(d))
    {
      hide TableOk, Bound, Agree, EventLoop.Loop.Valid, Connection.Valid;
      forall d | d in live && d != c
        ensures ViewOf(d) == old(ViewOf(d))
      {
        SocketHeld(d);
        assert old(d.Repr) <= old(Others(c));
        DistinctAll(old(loop.events[..]), this, listenFd, old(live), d);
        DistinctAll(old(loop.events[..]), this, listenFd, old(live), c);
      }
    }

    twostate lemma KeptViewed(c: Connection)
      requires old(Valid()) && Valid() && c in old(live) && live == old(live)
      requires unchanged(old(Others(c))) && OtherEntries(c)
      ensures View().conns == old(View()).conns[c := ViewOf(c)]
    {
      hide Valid, ViewOf, OtherEntries;
      OthersViewed(c);
    }

    twostate lemma DroppedViewed(c: Connection)
      requires old(Valid()) && Valid() && c in old(live) && live == old(live) - {c}
      requires unchanged(old(Others(c))) && OtherEntries(c)
      ensures View().conns == old(View()).conns - {c}
    {
      hide Valid, ViewOf, OtherEntries;
      OthersViewed(c);
    }

    /** The readable handler as a step of the server's state. */
    method ReadStep(c: Connection)
      requires Valid() && !crashed && c in live
      modifies this, kernel, fs, loop`maxFd, loop.events, loop.api`interest, loop.api`adds, c.Repr
      ensures fresh(owned - old(owned))
      ensures history == old(history) + [Event(READ_EVENT, c.fd, c, old(loop.events[..]), old(live))]
      ensures views == old(views) + [old(View())]
      ensures crashed ==> Faults(READ_EVENT, c, old(View()))
      ensures !crashed ==> Valid() && Reads(c, old(View()), View())
    {
      hide Valid, Separate, Connection.Valid, Serve;
      OthersApart(c);
      ReadEvent(c);
      if !crashed {
        if c in live { KeptViewed(c); } else { DroppedViewed(c); }
      }
    }

    /** The writable handler as a step of the server's state. */
    method WriteStep(c: Connection)
      requires Valid() && c in live
      modifies `live, `history, `views, kernel, loop`maxFd, loop.events, loop.api`interest, c.Repr
      ensures history == old(history) + [Event(WRITE_EVENT, c.fd, c, old(loop.events[..]), old(live))]
      ensures views == old(views) + [old(View())]
      ensures Valid() && Writes(c, old(View()), View())
    {
      hide Valid, Separate, Connection.Valid;
      OthersApart(c);
      WriteEvent(c);
      if c in live { KeptViewed(c); } else { DroppedViewed(c); }
    }

    /** Where the accept handler stands: apart from all connections. */
    lemma OwnedApart()
      requires Valid()
      ensures Apart(owned) && forall d :: d in live ==> d.fd != kernel.Offered()
    {
      hide TableOk, Agree, EventLoop.Loop.Valid, Connection.Valid;
    }

    /** A new connection leaves the view of all others as it was. */
    twostate lemma AllViewed()
      requires old(Valid()) && Valid() && old(live) <= live
      requires unchanged(old(owned)) && |old(loop.events[..])| == |loop.events[..]|
      requires forall d :: d in old(live) && d.fd < |loop.events[..]| ==> loop.events[d.fd] == old(loop.events[d.fd])
      ensures forall d :: d in old(live) ==> ViewOf(d) == old(ViewOf(d))
    {
      hide TableOk, Bound, Agree, EventLoop.Loop.Valid, Connection.Valid;
      forall d | d in old(live)
        ensures ViewOf(d) == old(ViewOf(d))
      {
        SocketHeld(d);
        DistinctAll(old(loop.events[..]), this, listenFd, old(live), d);
      }
    }

    twostate lemma GrownViewed()
      requires old(Valid()) && Valid() && old(live) <= live
      requires unchanged(old(owned)) && |old(loop.events[..])| == |loop.events[..]|
      requires forall d :: d in old(live) && d.fd < |loop.events[..]| ==> loop.events[d.fd] == old(loop.events[d.fd])
      ensures live == old(live) ==> View().conns == old(View()).conns
      ensures forall c :: live == old(live) + {c} && c !in old(live) ==>
        View().conns == old(View()).conns[c := ViewOf(c)] && c !in old(View()).conns
    {
      hide Valid, ViewOf;
      AllViewed();
    }

    /** What accept(2) returns next, in the view. */
    lemma OfferedViewed()
      requires Valid()
      ensures Offered(Set(), View()) == kernel.Offered()
    {
      hide TableOk, Bound, Agree, EventLoop.Loop.Valid, Connection.Valid, ViewOf;
    }

    /** The accept handler as a step of the server's state. */
    method AcceptStep()
      requires Valid()
      modifies `live, `owned, `history, `views, kernel, loop`maxFd, loop.events, loop.api`interest, loop.api`adds
      ensures Valid() && fresh(owned - old(owned))
      ensures history == old(history) + [Event(ACCEPT_TCP, listenFd, this, old(loop.events[..]), old(live))]
      ensures views == old(views) + [old(View())]
      ensures Accepts(Set(), old(View()), View())
    {
      hide Valid, Separate, Connection.Valid, Offered, Kernel.Offered;
      OwnedApart();
      OfferedViewed();
      AcceptTcp();
      GrownViewed();
    }

    /** Calls a handler through its registration. The data pointer is cast without a check
        in the original; here it is known to be a live connection with that descriptor. The
        handler entered is the registered one, and takes the step it stands for. */
    method Invoke(fd: nat, write: bool)
      requires Valid() && !crashed && fd < |loop.events[..]|
      requires if write then loop.events[fd].mask.w else loop.events[fd].mask.r
      modifies Touchable(), loop`maxFd, loop.events, loop.api`interest, loop.api`adds
      ensures fresh(owned - old(owned))
      ensures var e := old(loop.events[..])[fd];
        var entry := Event(if write then e.wProc else e.rProc, fd, e.data, old(loop.events[..]), old(live));
        && history == old(history) + [entry] && views == old(views) + [old(View())] && SafeEvent(entry)
        && entry.proc == (if write then WRITE_EVENT else if fd == listenFd then ACCEPT_TCP else READ_EVENT)
        && (crashed ==> Faults(entry.proc, entry.data, old(View())))
        && (!crashed ==> Valid() && StepOf(Set(), entry.proc, entry.data, old(View()), View()))
    {
      hide Agree, EventLoop.Loop.Valid, Connection.Valid, Reads, Writes, Accepts;
      Target(loop.events[..], this, listenFd, live, fd, write);
      var e := loop.events[fd];
      var proc := if write then e.wProc else e.rProc;
      if proc == ACCEPT_TCP {
        AcceptStep();
      } else if proc == READ_EVENT {
        ReadStep(e.data as Connection);
      } else {
        WriteStep(e.data as Connection);
      }
    }

    lemma HandlersDiffer(fd: nat)
      requires Valid() && fd < |loop.events[..]| && loop.events[fd].mask.w
      ensures loop.events[fd].rProc != loop.events[fd].wProc
    {
      hide Agree, EventLoop.Loop.Valid, Connection.Valid, Separate, TableOk;
      DistinctHandlers(loop.events[..], this, listenFd, live, fd);
    }

    /** One turn of the dispatch loop. The mask is looked at again before each call; a fired
        and registered event gets its handler. */
    method TakeTurn(i: nat, f: EventLoop.FiredEvent) returns (ghost h: Handled, ghost seen: seq<ServerState>)
      requires Valid() && !crashed && f.fd < |loop.events[..]|
      modifies Touchable(), loop`maxFd, loop.events, loop.api`interest, loop.api`adds
      ensures fresh(owned - old(owned))
      ensures !crashed ==> Valid() && Turn(i, old(loop.events[..]), f, h, loop.events[..])
      ensures history == old(history) + EventsOf(h) && views == old(views) + seen
      ensures AllSafe(EventsOf(h))
      ensures !crashed ==> Traced(Set(), old(View()), EventsOf(h), seen, View())
      ensures crashed ==> Stopped(Set(), old(View()), EventsOf(h), seen)
      ensures h.read.Some? ==> h.read.value.proc == if f.fd == listenFd then ACCEPT_TCP else READ_EVENT
      ensures h.write.Some? ==> h.write.value.proc == WRITE_EVENT
      ensures !crashed && f.mask.r && old(loop.events[..])[f.fd].mask.r ==> h.read.Some?
      ensures !crashed ==> f.fd < |h.mid| && (f.mask.w && h.mid[f.fd].mask.w ==> h.write.Some?)
    {
      hide Valid, StepOf, Faults, View, SafeEvent;
      OwnedApart();
      ghost var t0, v0 := loop.events[..], View();
      h, seen := Handled(Option.None, t0, Option.None), [];
      var readFired := false;
      if loop.events[f.fd].mask.r && f.mask.r {
        readFired := true;
        h := h.(read := Option.Some(ReadCall(i, f, t0, live)));
        seen := [v0];
        Invoke(f.fd, false);
        if crashed { return; }
      }
      ghost var v1 := View();
      OwnedApart();
      h := h.(mid := loop.events[..]);
      if loop.events[f.fd].mask.w && f.mask.w {
        HandlersDiffer(f.fd);
        if !readFired || loop.events[f.fd].rProc != loop.events[f.fd].wProc {
          h := h.(write := Option.Some(WriteCall(i, f, h.mid, live)));
          seen := seen + [v1];
          Invoke(f.fd, true);
        }
      }
    }

    /** `process_events` on a report of epoll_wait: a batch as specified, whose calls are
        exactly the handlers entered, with the tables they found; no client handler is
        handed a freed client, whatever the handlers before it deleted; each handler takes
        the server one step from the state it finds; and what is reported and still
        registered in its turn is served. */
    method ProcessEvents(ready: seq<EventLoop.EpollEvent>)
      returns (processed: nat, ghost tables: seq<Table>, ghost log: seq<Handled>,
               ghost entered: seq<Event>, ghost seen: seq<ServerState>)
      requires Valid() && !crashed
      requires EventLoop.Reportable(loop.api.interest, ready, loop.api.eventsSize)
      modifies Touchable(), loop`maxFd, loop.events, loop.fired, loop.api`interest, loop.api`adds, loop.api.events
      ensures !crashed ==> Valid()
      ensures fresh(owned - old(owned))
      ensures Batch(tables, FiredAll(ready), log) && tables[0] == old(loop.events[..])
      ensures !crashed ==> processed == |log| == |ready| && tables[|log|] == loop.events[..]
      ensures history == old(history) + entered && views == old(views) + seen
      ensures AllSafe(entered)
      ensures !crashed ==> entered == AllEvents(log) && Traced(Set(), old(View()), entered, seen, View())
      ensures crashed ==> Stopped(Set(), old(View()), entered, seen)
      ensures !crashed ==> forall i :: 0 <= i < |ready| ==>
        var fd := ready[i].fd;
        && fd < |tables[i]| == |log[i].mid|
        && (ready[i].epollIn && tables[i][fd].mask.r ==>
             Entered(entered, if fd == listenFd then ACCEPT_TCP else READ_EVENT, fd))
        && ((ready[i].epollOut || ready[i].epollErr || ready[i].epollHup) && log[i].mid[fd].mask.w ==>
             Entered(entered, WRITE_EVENT, fd))
    {
      hide EventLoop.Reportable, FiredAll, EventLoop.FiredBy;
      hide Valid, Turn, Batch, AllSafe, EventsOf, AllEvents, View, Traced, Stopped, Entered, Answered;
      NoEvents();
      OwnedApart();
      var n := Poll(ready);
      tables, log, entered, seen := [loop.events[..]], [], [], [];
      BatchStarts(loop.events[..], FiredAll(ready));
      NothingTraced(Set(), View());
      processed := 0;
      var i := 0;
      while i < n
        invariant i <= n == |ready| && n <= loop.fired.Length && |tables| == i + 1
        invariant Valid() && !crashed
        invariant forall k :: 0 <= k < n ==> loop.fired[k] == FiredAll(ready)[k] && loop.fired[k].fd < |loop.events[..]|
        invariant fresh(owned - old(owned))
        invariant processed == |log| == i && Batch(tables, FiredAll(ready), log)
        invariant history == old(history) + entered && views == old(views) + seen && entered == AllEvents(log)
        invariant Traced(Set(), old(View()), entered, seen, View())
        invariant tables[0] == old(loop.events[..]) && tables[i] == loop.events[..]
        invariant AllSafe(entered)
        invariant forall k :: 0 <= k < i ==> Answered(ready[k], tables[k], log[k], listenFd, entered)
      {
        ghost var before, v := tables[i], View();
        OwnedApart();
        ghost var h, more := TakeTurn(i, loop.fired[i]);
        AllEventsMore(log, h);
        TracedMore(Set(), old(View()), entered, seen, v, EventsOf(h), more);
        AllSafeMore(entered, EventsOf(h));
        AnsweredMore(listenFd, entered, EventsOf(h));
        entered, seen := entered + EventsOf(h), seen + more;
        if crashed { return; }
        TurnAnswers(i, before, loop.fired[i], h, loop.events[..], ready[i], listenFd);
        BatchMore(tables, FiredAll(ready), log, h, loop.events[..]);
        tables, log := tables + [loop.events[..]], log + [h];
        processed := processed + 1;
        i := i + 1;
      }
      AllAnswered(ready, tables, log, listenFd, entered);
    }

    method Poll(ready: seq<EventLoop.EpollEvent>) returns (n: nat)
      requires Valid() && EventLoop.Reportable(loop.api.interest, ready, loop.api.eventsSize)
      modifies loop.api.events, loop.fired
      ensures Valid() && n == |ready| && loop.events[..] == old(loop.events[..]) && View() == old(View())
      ensures n <= loop.fired.Length && forall k :: 0 <= k < n ==>
        loop.fired[k] == FiredAll(ready)[k] && loop.fired[k].fd < |loop.events[..]|
    {
      hide TableOk, Agree, Connection.Valid;
      n := loop.Poll(ready);
    }

    /** `run` on one report after the other, until one has no defined effect or is none that
        epoll_wait can make: every round is a batch from where the last one ended, and over
        the whole run each handler takes the server one step from the state it finds, and
        every client handler is entered with a live client. */
    method Run(reports: seq<seq<EventLoop.EpollEvent>>)
      returns (rounds: nat, ghost batches: seq<seq<Table>>, ghost logs: seq<seq<Handled>>,
               ghost entered: seq<Event>, ghost seen: seq<ServerState>)
      requires Valid() && !crashed
      modifies Touchable(), loop`maxFd, loop.events, loop.fired, loop.api`interest, loop.api`adds, loop.api.events
      ensures !crashed ==> Valid()
      ensures rounds == |batches| == |logs| <= |reports|
      ensures forall r :: 0 <= r < rounds ==>
        Batch(batches[r], FiredAll(reports[r]), logs[r]) && |logs[r]| == |reports[r]|
      ensures rounds < |reports| ==>
        crashed || !EventLoop.Reportable(loop.api.interest, reports[rounds], loop.api.eventsSize)
      ensures history == old(history) + entered && views == old(views) + seen
      ensures AllSafe(entered)
      ensures !crashed ==> entered == AllRounds(logs) && Traced(Set(), old(View()), entered, seen, View())
      ensures crashed ==> Stopped(Set(), old(View()), entered, seen)
    {
      hide Valid, AllSafe, View, Traced, Stopped, AllEvents, AllRounds, Batch, Entered;
      rounds, batches, logs, entered, seen := 0, [], [], [], [];
      OwnedApart();
      NothingTraced(Set(), View());
      NoEvents();
      NoRounds();
      while rounds < |reports|
        invariant Valid() && !crashed
        invariant fresh(owned - old(owned))
        invariant rounds == |batches| == |logs| <= |reports|
        invariant forall r :: 0 <= r < rounds ==>
          Batch(batches[r], FiredAll(reports[r]), logs[r]) && |logs[r]| == |reports[r]|
        invariant history == old(history) + entered && views == old(views) + seen && entered == AllRounds(logs)
        invariant Traced(Set(), old(View()), entered, seen, View())
        invariant AllSafe(entered)
      {
        if !EventLoop.Reportable(loop.api.interest, reports[rounds], loop.api.eventsSize) { return; }
        ghost var v := View();
        OwnedApart();
        var processed; ghost var tables, log, events, more;
        processed, tables, log, events, more := ProcessEvents(reports[rounds]);
        TracedMore(Set(), old(View()), entered, seen, v, events, more);
        AllSafeMore(entered, events);
        entered, seen := entered + events, seen + more;
        if crashed { return; }
        AllRoundsMore(logs, log);
        batches, logs, rounds := batches + [tables], logs + [log], rounds + 1;
      }
    }
  }

  /** The handlers `events`, entered one after the other in the states `views`, take the
      server from `v` to `v'`. */
  predicate Traced(k: Setting, v: ServerState, events: seq<Event>, views: seq<ServerState>, v': ServerState) {
    && |events| == |views| && (views + [v'])[0] == v
    && forall i :: 0 <= i < |events| ==> StepOf(k, events[i].proc, events[i].data, views[i], (views + [v'])[i + 1])
  }

  /** The same up to the last one, which has no defined effect. */
  predicate Stopped(k: Setting, v: ServerState, events: seq<Event>, views: seq<ServerState>) {
    && |events| == |views| > 0
    && var n := |events| - 1;
       Traced(k, v, events[..n], views[..n], views[n]) && Faults(events[n].proc, events[n].data, views[n])
  }

  lemma NothingTraced(k: Setting, v: ServerState)
    ensures Traced(k, v, [], [], v)
  {
  }

  lemma TracedMore(k: Setting, v: ServerState, events: seq<Event>, views: seq<ServerState>, w: ServerState,
                   more: seq<Event>, moreViews: seq<ServerState>)
    requires Traced(k, v, events, views, w)
    ensures forall v' :: Traced(k, w, more, moreViews, v') ==> Traced(k, v, events + more, views + moreViews, v')
    ensures Stopped(k, w, more, moreViews) ==> Stopped(k, v, events + more, views + moreViews)
  {
    hide Traced, Faults;
    forall v' | Traced(k, w, more, moreViews, v')
      ensures Traced(k, v, events + more, views + moreViews, v')
    {
      TracedJoin(k, v, events, views, w, more, moreViews, v');
    }
    if Stopped(k, w, more, moreViews) {
      var n := |more| - 1;
      TracedJoin(k, v, events, views, w, more[..n], moreViews[..n], moreViews[n]);
      TracedLengths(k, v, events, views, w);
      assert (events + more)[..|events| + n] == events + more[..n];
      assert (views + moreViews)[..|events| + n] == views + moreViews[..n];
    }
  }

  lemma TracedLengths(k: Setting, v: ServerState, events: seq<Event>, views: seq<ServerState>, w: ServerState)
    requires Traced(k, v, events, views, w)
    ensures |events| == |views|
  {
  }

  lemma TracedJoin(k: Setting, v: ServerState, events: seq<Event>, views: seq<ServerState>, w: ServerState,
                   more: seq<Event>, moreViews: seq<ServerState>, v': ServerState)
    requires Traced(k, v, events, views, w) && Traced(k, w, more, moreViews, v')
    ensures Traced(k, v, events + more, views + moreViews, v')
  {
    hide StepOf;
    var n := |events|;
    assert views + moreViews + [v'] == views + (moreViews + [v']);
    forall i | 0 <= i < |events + more|
      ensures StepOf(k, (events + more)[i].proc, (events + more)[i].data,
                     (views + moreViews)[i], (views + moreViews + [v'])[i + 1])
    {
      if i < n {
        assert StepOf(k, events[i].proc, events[i].data, views[i], (views + [w])[i + 1]);
      } else {
        assert StepOf(k, more[i - n].proc, more[i - n].data, moreViews[i - n], (moreViews + [v'])[i - n + 1]);
      }
    }
  }

  /** A handler was entered for the descriptor. */
  predicate Entered(entered: seq<Event>, proc: Proc, fd: nat) {
    exists e :: e in entered && e.proc == proc && e.fd == fd
  }

  /** What a report owes: the handlers of what it reports and the table still has. */
  predicate Answered(e: EventLoop.EpollEvent, t: Table, h: Handled, listenFd: nat, entered: seq<Event>) {
    && e.fd < |t| == |h.mid|
    && (e.epollIn && t[e.fd].mask.r ==> Entered(entered, if e.fd == listenFd then ACCEPT_TCP else READ_EVENT, e.fd))
    && ((e.epollOut || e.epollErr || e.epollHup) && h.mid[e.fd].mask.w ==> Entered(entered, WRITE_EVENT, e.fd))
  }

  lemma AnsweredMore(listenFd: nat, entered: seq<Event>, more: seq<Event>)
    ensures forall e, t, h :: Answered(e, t, h, listenFd, entered) || Answered(e, t, h, listenFd, more) ==>
      Answered(e, t, h, listenFd, entered + more)
  {
  }

  lemma AllAnswered(ready: seq<EventLoop.EpollEvent>, tables: seq<Table>, log: seq<Handled>, listenFd: nat,
                    entered: seq<Event>)
    requires |tables| > |ready| == |log|
    requires forall i :: 0 <= i < |ready| ==> Answered(ready[i], tables[i], log[i], listenFd, entered)
    ensures forall i :: 0 <= i < |ready| ==>
      var fd := ready[i].fd;
      && fd < |tables[i]| == |log[i].mid|
      && (ready[i].epollIn && tables[i][fd].mask.r ==>
           Entered(entered, if fd == listenFd then ACCEPT_TCP else READ_EVENT, fd))
      && ((ready[i].epollOut || ready[i].epollErr || ready[i].epollHup) && log[i].mid[fd].mask.w ==>
           Entered(entered, WRITE_EVENT, fd))
  {
  }

  lemma AllSafeMore(entered: seq<Event>, more: seq<Event>)
    requires AllSafe(entered) && AllSafe(more)
    ensures AllSafe(entered + more)
  {
  }

  lemma TurnAnswers(i: nat, t: Table, f: EventLoop.FiredEvent, h: Handled, t': Table, e: EventLoop.EpollEvent,
                    listenFd: nat)
    requires Turn(i, t, f, h, t') && f == EventLoop.FiredBy(e)
    requires h.read.Some? ==> h.read.value.proc == if f.fd == listenFd then ACCEPT_TCP else READ_EVENT
    requires h.write.Some? ==> h.write.value.proc == WRITE_EVENT
    requires f.mask.r && t[f.fd].mask.r ==> h.read.Some?
    requires f.mask.w && h.mid[f.fd].mask.w ==> h.write.Some?
    ensures Answered(e, t, h, listenFd, EventsOf(h))
  {
    if h.read.Some? { assert EventOf(h.read.value) in EventsOf(h); }
    if h.write.Some? { assert EventOf(h.write.value) in EventsOf(h); }
  }

  /** The handlers a turn ran, and those of a batch and of a run, in order */
  function EventOf(c: Call): Event {
    Event(c.proc, c.fd, c.data, c.before, c.alive)
  }

  function EventsOf(h: Handled): seq<Event> {
    (if h.read.Some? then [EventOf(h.read.value)] else [])
    + (if h.write.Some? then [EventOf(h.write.value)] else [])
  }

  function AllEvents(log: seq<Handled>): seq<Event> {
    if log == [] then [] else AllEvents(log[..|log| - 1]) + EventsOf(log[|log| - 1])
  }

  function AllRounds(logs: seq<seq<Handled>>): seq<Event> {
    if logs == [] then [] else AllRounds(logs[..|logs| - 1]) + AllEvents(logs[|logs| - 1])
  }

  lemma NoRounds()
    ensures AllRounds([]) == []
  {
  }

  lemma AllRoundsMore(logs: seq<seq<Handled>>, log: seq<Handled>)
    ensures AllRounds(logs + [log]) == AllRounds(logs) + AllEvents(log)
  {
    assert (logs + [log])[..|logs|] == logs;
  }

  lemma NoEvents()
    ensures AllEvents([]) == [] && AllSafe([])
  {
  }

  lemma AllEventsMore(log: seq<Handled>, h: Handled)
    ensures AllEvents(log + [h]) == AllEvents(log) + EventsOf(h)
  {
    assert (log + [h])[..|log|] == log;
  }

  function FiredAll(ready: seq<EventLoop.EpollEvent>): (fired: seq<EventLoop.FiredEvent>)
    ensures |fired| == |ready|
    ensures forall i :: 0 <= i < |ready| ==> fired[i] == EventLoop.FiredBy(ready[i])
  {
    seq(|ready|, i requires 0 <= i < |ready| => EventLoop.FiredBy(ready[i]))
  }

  lemma SocketHeld(c: Connection)
    requires c.Valid()
    ensures c in c.Repr && c.sock in c.Repr
  {
  }
}
