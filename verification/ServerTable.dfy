/** Which registrations the server's table may hold: every descriptor but the listening one
    belongs to exactly one live connection. Kept by accept, arm, disarm and delete. */
module ServerTable {
  import opened LoopModel
  import opened Connections

  const ACCEPT_TCP: Proc := 1
  const READ_EVENT: Proc := 2
  const WRITE_EVENT: Proc := 3

  /** The entry of `fd` carries a live connection that has that descriptor. */
  predicate Bound(e: FileEvent, fd: nat, live: set<Connection>) {
    && e.data is Connection
    && (e.data as Connection) in live
    && (e.data as Connection).fd == fd
    && e.rProc == READ_EVENT
    && (e.mask.w ==> e.wProc == WRITE_EVENT)
  }

  predicate TableOk(t: Table, owner: object, listenFd: nat, live: set<Connection>) {
    && listenFd < |t|
    && t[listenFd].mask == READABLE && t[listenFd].rProc == ACCEPT_TCP && t[listenFd].data == owner
    && (forall fd: nat :: fd < |t| && fd != listenFd && !t[fd].mask.None() ==> Bound(t[fd], fd, live))
    && (forall c :: c in live ==> c.fd < |t| && c.fd != listenFd && t[c.fd].mask.r && t[c.fd].data == c)
  }

  function Armed(t: Table, c: Connection): Table
    requires c.fd < |t|
  {
    t[c.fd := Register(t[c.fd], WRITABLE, WRITE_EVENT, c)]
  }

  function Disarmed(t: Table, fd: nat): Table
    requires fd < |t|
  {
    t[fd := t[fd].(mask := t[fd].mask.Without(WRITABLE))]
  }

  /** The table after the two deletions of the client destructor */
  function Cleared(t: Table, fd: nat): Table {
    if fd < |t| then t[fd := t[fd].(mask := NONE)] else t
  }

  /** Arming: both events registered, the writable one with its handler, nothing else new. */
  lemma ArmOk(t: Table, owner: object, listenFd: nat, live: set<Connection>, c: Connection)
    requires TableOk(t, owner, listenFd, live) && c in live
    ensures TableOk(Armed(t, c), owner, listenFd, live)
    ensures var e, e' := t[c.fd], Armed(t, c)[c.fd];
      && e'.mask == Mask(true, true) && e'.wProc == WRITE_EVENT && e'.rProc == e.rProc && e'.data == e.data
      && Armed(t, c) == t[c.fd := e']
  {
    DistinctAll(t, owner, listenFd, live, c);
    assert Bound(t[c.fd], c.fd, live);
  }

  /** No other live connection has the descriptor of `c`. */
  lemma DistinctAll(t: Table, owner: object, listenFd: nat, live: set<Connection>, c: Connection)
    requires TableOk(t, owner, listenFd, live) && c in live
    ensures c.fd != listenFd && c.fd < |t|
    ensures forall d :: d in live && d != c ==> d.fd != c.fd
  {
  }

  lemma KnownFd(t: Table, owner: object, listenFd: nat, live: set<Connection>, c: Connection)
    requires TableOk(t, owner, listenFd, live) && c in live
    ensures c.fd < |t| && !t[c.fd].mask.None()
  {
  }

  /** Where a registered bit leads: the listening descriptor to the accept handler, any
      other to the matching handler of a live connection. */
  lemma Target(t: Table, owner: object, listenFd: nat, live: set<Connection>, fd: nat, write: bool)
    requires TableOk(t, owner, listenFd, live) && fd < |t|
    requires if write then t[fd].mask.w else t[fd].mask.r
    ensures var proc := if write then t[fd].wProc else t[fd].rProc;
      if fd == listenFd then proc == ACCEPT_TCP && t[fd].data == owner
      else
        && proc == (if write then WRITE_EVENT else READ_EVENT)
        && t[fd].data is Connection && (t[fd].data as Connection) in live && (t[fd].data as Connection).fd == fd
  {
    assert fd == listenFd || Bound(t[fd], fd, live);
  }

  /** Disarming: the readable event stays registered, the writable one goes. */
  lemma DisarmOk(t: Table, owner: object, listenFd: nat, live: set<Connection>, c: Connection)
    requires TableOk(t, owner, listenFd, live) && c in live
    ensures TableOk(Disarmed(t, c.fd), owner, listenFd, live)
    ensures c.fd < |t| && Disarmed(t, c.fd) == t[c.fd := t[c.fd].(mask := Mask(true, false))]
  {
    DistinctAll(t, owner, listenFd, live, c);
    assert Bound(t[c.fd], c.fd, live);
  }

  lemma DeleteOk(t: Table, owner: object, listenFd: nat, live: set<Connection>, c: Connection)
    requires TableOk(t, owner, listenFd, live) && c in live
    ensures TableOk(Cleared(t, c.fd), owner, listenFd, live - {c})
  {
    DistinctAll(t, owner, listenFd, live, c);
    var t' := Cleared(t, c.fd);
    forall fd: nat | fd < |t'| && fd != listenFd && !t'[fd].mask.None()
      ensures Bound(t'[fd], fd, live - {c})
    {
      assert Bound(t[fd], fd, live);
    }
  }

  lemma AcceptOk(t: Table, owner: object, listenFd: nat, live: set<Connection>, c: Connection)
    requires TableOk(t, owner, listenFd, live) && c !in live
    requires c.fd < |t| && c.fd != listenFd && forall d :: d in live ==> d.fd != c.fd
    ensures t[c.fd].mask.None()
    ensures TableOk(t[c.fd := Register(t[c.fd], READABLE, READ_EVENT, c)], owner, listenFd, live + {c})
  {
    var t' := t[c.fd := Register(t[c.fd], READABLE, READ_EVENT, c)];
    forall fd: nat | fd < |t'| && fd != listenFd && !t'[fd].mask.None()
      ensures Bound(t'[fd], fd, live + {c})
    {
      if fd != c.fd { assert Bound(t[fd], fd, live); }
    }
  }

  /** A table without the descriptor is untouched by its deletion. */
  lemma ClearNothing(t: Table, fd: nat)
    requires MaskAt(t, fd).None()
    ensures Cleared(t, fd) == t
  {
  }

  /** No descriptor has the same handler for both events. */
  lemma DistinctHandlers(t: Table, owner: object, listenFd: nat, live: set<Connection>, fd: nat)
    requires TableOk(t, owner, listenFd, live) && fd < |t| && t[fd].mask.w
    ensures t[fd].rProc != t[fd].wProc
  {
    assert fd == listenFd || Bound(t[fd], fd, live);
  }
}
