/** The server between handlers, as a value, and what each handler makes of it: the server's
    half of a session. */
module ServerSteps {
  import opened Bytes
  import opened LoopModel
  import opened Protocol
  import opened Connections
  import opened ServerTable
  import Sides

  /** A connection: what its peer will still deliver, what has been sent to it, the replies
      waiting, and whether the writable event is registered. */
  datatype ConnState = ConnState(inbound: bytes, outbound: bytes, out: Out, armed: bool)

  /** `accepts` and `adds` count the accept(2) and EPOLL_CTL_ADD calls so far. */
  datatype ServerState = ServerState(files: Files, conns: map<Connection, ConnState>, accepts: nat, adds: nat)

  /** What does not change: the listening descriptor, the size of the loop's table, the
      descriptors accept(2) will find, and when the kernel has room for one more. */
  datatype Setting = Setting(listenFd: nat, size: nat, offers: nat -> Option<nat>, room: nat -> bool)

  /** The readable handler: serves one request or deletes the connection. */
  predicate Reads(c: Connection, v: ServerState, v': ServerState) {
    && c in v.conns
    && var s := v.conns[c];
    match Serve(s.inbound, v.files, s.out)
    case Fault => false
    case Drop => v' == v.(conns := v.conns - {c})
    case Served(rest, files, out, arm) =>
      v' == v.(files := files, conns := v.conns[c := ConnState(rest, s.outbound, out, s.armed || arm)])
  }

  /** The writable handler: sends what is queued or deletes the connection. */
  predicate Writes(c: Connection, v: ServerState, v': ServerState) {
    && c in v.conns
    && var s := v.conns[c];
    if s.out.wbuf == [] then v' == v.(conns := v.conns - {c})
    else v' == v.(conns := v.conns[c := ConnState(s.inbound, s.outbound + s.out.Bytes(), NO_OUT, false)])
  }

  /** The descriptor the next accept(2) returns; those in use are not found again. */
  function Offered(k: Setting, v: ServerState): int {
    match k.offers(v.accepts)
    case None => -1
    case Some(fd) => if fd == k.listenFd || (exists c :: c in v.conns && c.fd == fd) then -1 else fd
  }

  /** The accept handler: a new connection exactly if there is one to take, it fits the
      table, and the kernel has room. */
  predicate Accepts(k: Setting, v: ServerState, v': ServerState) {
    var fd := Offered(k, v);
    var tried := 0 <= fd < k.size;
    && v'.files == v.files && v'.accepts == v.accepts + 1 && v'.adds == v.adds + (if tried then 1 else 0)
    && if tried && k.room(v.adds) then
         exists c :: c in v'.conns && c !in v.conns && c.fd == fd
           && v'.conns == v.conns[c := ConnState(v'.conns[c].inbound, [], NO_OUT, false)]
       else v'.conns == v.conns
  }

  /** The handler `proc`, entered with `data`, takes the server from `v` to `v'`. */
  predicate StepOf(k: Setting, proc: Proc, data: object?, v: ServerState, v': ServerState) {
    if proc == ACCEPT_TCP then Accepts(k, v, v')
    else
      && data is Connection
      && if proc == READ_EVENT then Reads(data as Connection, v, v')
         else proc == WRITE_EVENT && Writes(data as Connection, v, v')
  }

  /** The one way a handler has no defined effect */
  predicate Faults(proc: Proc, data: object?, v: ServerState) {
    && proc == READ_EVENT && data is Connection && (data as Connection) in v.conns
    && var s := v.conns[data as Connection];
       Serve(s.inbound, v.files, s.out) == Fault
  }

  /* ---------- the same steps in a session ---------- */

  /** A side of a session shows what the server knows of the connection. */
  predicate Shows(s: Sides.Side, v: ServerState, c: Connection) {
    if c in v.conns then
      !s.freed && s.c2s == v.conns[c].inbound && s.out == v.conns[c].out && s.armed == v.conns[c].armed
    else s.freed
  }

  /** The readable event of a session is the handler's step: undefined for the same streams,
      and otherwise with the same files, stream, replies and registration. */
  lemma ReadIsStep(lines: seq<bytes>, s: Sides.Side, v: ServerState, c: Connection)
    requires c in v.conns && Shows(s, v, c) && Sides.CanStep(lines, s, Sides.ReadEvent)
    ensures match Sides.Move(lines, s, v.files, Sides.ReadEvent)
      case Undefined => forall v' :: !Reads(c, v, v')
      case Moved(s', files) =>
        && s'.s2c == s.s2c
        && exists v' :: Reads(c, v, v') && v'.files == files && (c in v'.conns <==> !s'.freed)
             && (c in v'.conns ==> Shows(s', v', c) && v'.conns[c].outbound == v.conns[c].outbound)
  {
    var w := v.conns[c];
    match Serve(w.inbound, v.files, w.out)
    case Fault =>
    case Drop =>
      assert Reads(c, v, v.(conns := v.conns - {c}));
    case Served(rest, files, out, arm) =>
      assert Reads(c, v, v.(files := files, conns := v.conns[c := ConnState(rest, w.outbound, out, w.armed || arm)]));
  }

  /** The writable event of a session is the handler's step: the client is sent what the
      handler writes. */
  lemma WriteIsStep(lines: seq<bytes>, s: Sides.Side, v: ServerState, c: Connection, v': ServerState)
    requires Shows(s, v, c) && Sides.CanStep(lines, s, Sides.WriteEvent) && Writes(c, v, v')
    ensures var m := Sides.Move(lines, s, v.files, Sides.WriteEvent);
      && m.Moved? && m.server == v'.files && (c in v'.conns <==> !m.side.freed)
      && (c in v'.conns ==>
           Shows(m.side, v', c)
           && exists sent: bytes :: m.side.s2c == s.s2c + sent && v'.conns[c].outbound == v.conns[c].outbound + sent)
  {
  }
}
