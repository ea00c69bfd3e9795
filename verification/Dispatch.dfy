/** One batch of `process_events`: which handlers run, decided entry by entry against the
    table as the handlers before have left it. */
module Dispatch {
  import opened Bytes
  import opened LoopModel
  import opened EventLoop

  /** A handler call: its place in the batch, the entry it was made from, the table at that
      moment, and the objects alive then. */
  datatype Call = Call(index: nat, fd: nat, write: bool, proc: Proc, data: object?, before: Table, alive: set<object>)

  /** What became of one fired entry; `mid` is the table between its two handlers. */
  datatype Handled = Handled(read: Option<Call>, mid: Table, write: Option<Call>)

  predicate WantsRead(t: Table, f: FiredEvent)
    requires f.fd < |t|
  {
    t[f.fd].mask.r && f.mask.r
  }

  predicate WantsWrite(t: Table, f: FiredEvent, readFired: bool)
    requires f.fd < |t|
  {
    t[f.fd].mask.w && f.mask.w && (!readFired || t[f.fd].rProc != t[f.fd].wProc)
  }

  function ReadCall(i: nat, f: FiredEvent, t: Table, alive: set<object>): Call
    requires f.fd < |t|
  {
    Call(i, f.fd, false, t[f.fd].rProc, t[f.fd].data, t, alive)
  }

  function WriteCall(i: nat, f: FiredEvent, t: Table, alive: set<object>): Call
    requires f.fd < |t|
  {
    Call(i, f.fd, true, t[f.fd].wProc, t[f.fd].data, t, alive)
  }

  /** One turn of the loop over `_fired`. The handlers are arbitrary: nothing is said of
      how `mid` and `t1` come about, except that without a call the table stays. */
  predicate Turn(i: nat, t0: Table, f: FiredEvent, h: Handled, t1: Table) {
    && f.fd < |t0| == |h.mid| == |t1|
    && (h.read.Some? <==> WantsRead(t0, f))
    && (h.read.Some? ==> h.read.value == ReadCall(i, f, t0, h.read.value.alive))
    && (h.read.None? ==> h.mid == t0)
    && (h.write.Some? <==> WantsWrite(h.mid, f, h.read.Some?))
    && (h.write.Some? ==> h.write.value == WriteCall(i, f, h.mid, h.write.value.alive))
    && (h.write.None? ==> t1 == h.mid)
  }

  /** The turns taken over a batch, with the table between turns. */
  predicate Batch(tables: seq<Table>, fired: seq<FiredEvent>, log: seq<Handled>) {
    && |tables| == |log| + 1 && |log| <= |fired|
    && forall i :: 0 <= i < |log| ==> Turn(i, tables[i], fired[i], log[i], tables[i + 1])
  }

  lemma BatchStarts(t: Table, fired: seq<FiredEvent>)
    ensures Batch([t], fired, [])
  {
  }

  lemma BatchMore(tables: seq<Table>, fired: seq<FiredEvent>, log: seq<Handled>, h: Handled, t: Table)
    requires Batch(tables, fired, log) && |log| < |fired|
    requires Turn(|log|, tables[|log|], fired[|log|], h, t)
    ensures Batch(tables + [t], fired, log + [h])
  {
    hide Turn;
  }

  function Listed(c: Option<Call>): seq<Call> {
    if c.Some? then [c.value] else []
  }

  /** The calls of a batch in the order they were made */
  function Calls(log: seq<Handled>): seq<Call> {
    if log == [] then [] else
    Calls(log[..|log| - 1]) + Listed(log[|log| - 1].read) + Listed(log[|log| - 1].write)
  }

  predicate Registered(c: Call) {
    && c.fd < |c.before|
    && c.data == c.before[c.fd].data
    && if c.write then c.before[c.fd].mask.w && c.proc == c.before[c.fd].wProc
       else c.before[c.fd].mask.r && c.proc == c.before[c.fd].rProc
  }

  /** `a` is called before `b`: by batch order, and on one descriptor readable first and
      only if the two handlers differ at the moment of the second call. */
  predicate InOrder(a: Call, b: Call) {
    a.index < b.index
    || (a.index == b.index && a.fd == b.fd && !a.write && b.write
        && b.fd < |b.before| && b.before[b.fd].rProc != b.proc)
  }

  lemma {:induction false} CallsBelow(tables: seq<Table>, fired: seq<FiredEvent>, log: seq<Handled>)
    requires Batch(tables, fired, log)
    ensures forall i :: 0 <= i < |Calls(log)| ==>
      var c := Calls(log)[i];
      c.index < |log| && c.fd == fired[c.index].fd && Registered(c)
      && (if c.write then fired[c.index].mask.w else fired[c.index].mask.r)
    ensures forall i, j :: 0 <= i < j < |Calls(log)| ==> InOrder(Calls(log)[i], Calls(log)[j])
  {
    if log != [] {
      var n := |log| - 1;
      assert Turn(n, tables[n], fired[n], log[n], tables[n + 1]);
      CallsBelow(tables[..n + 1], fired, log[..n]);
    }
  }

  /** For distinct fired descriptors and any handlers: each call goes to what is registered
      for that bit at the moment of the call; calls follow the batch, readable before
      writable; and no handler bit is served twice. */
  lemma BatchLaws(tables: seq<Table>, fired: seq<FiredEvent>, log: seq<Handled>)
    requires Batch(tables, fired, log)
    requires forall i, j :: 0 <= i < j < |fired| ==> fired[i].fd != fired[j].fd
    ensures forall c :: c in Calls(log) ==>
      Registered(c) && c.index < |fired| && c.fd == fired[c.index].fd
      && if c.write then fired[c.index].mask.w else fired[c.index].mask.r
    ensures forall i, j :: 0 <= i < j < |Calls(log)| ==>
      var a, b := Calls(log)[i], Calls(log)[j];
      InOrder(a, b) && (a.fd == b.fd ==> !a.write && b.write && a.index == b.index)
  {
    CallsBelow(tables, fired, log);
  }

  /** A call was made for the fired entry `i` and that bit. */
  ghost predicate Served(log: seq<Handled>, i: nat, write: bool) {
    exists c :: c in Calls(log) && c.index == i && c.write == write
  }

  /** Over a whole batch, exactly the bits that are fired and registered when their turn
      comes are served, except a writable one whose handler, registered for both, has just
      been called for the readable one. */
  lemma {:induction false} ServedExactly(tables: seq<Table>, fired: seq<FiredEvent>, log: seq<Handled>, i: nat)
    requires Batch(tables, fired, log) && i < |log|
    ensures var f, t, mid := fired[i], tables[i], log[i].mid;
      && f.fd < |t| == |mid|
      && (Served(log, i, false) <==> t[f.fd].mask.r && f.mask.r)
      && (Served(log, i, true) <==>
           (mid[f.fd].mask.w && f.mask.w && !(Served(log, i, false) && mid[f.fd].rProc == mid[f.fd].wProc)))
  {
    hide Calls, Served, Registered, InOrder;
    var n := |log| - 1;
    assert Turn(n, tables[n], fired[n], log[n], tables[n + 1]);
    CallsBelow(tables[..n + 1], fired, log[..n]);
    ServedLast(log, i, false);
    ServedLast(log, i, true);
    if i < n {
      ServedExactly(tables[..n + 1], fired, log[..n], i);
    }
  }

  lemma ServedLast(log: seq<Handled>, i: nat, write: bool)
    requires log != []
    ensures var n := |log| - 1;
      var last := if write then log[n].write else log[n].read;
      (log[n].read.Some? ==> log[n].read.value.index == n && !log[n].read.value.write)
      && (log[n].write.Some? ==> log[n].write.value.index == n && log[n].write.value.write)
      && (forall c :: c in Calls(log[..n]) ==> c.index < n)
      ==> (Served(log, i, write) <==> if i < n then Served(log[..n], i, write) else i == n && last.Some?)
  {
    var n := |log| - 1;
    var earlier, read, written := Calls(log[..n]), Listed(log[n].read), Listed(log[n].write);
    assert Calls(log) == earlier + read + written;
    assert forall c :: c in Calls(log) <==> c in earlier || c in read || c in written;
    assert log[n].read.Some? ==> log[n].read.value in Calls(log);
    assert log[n].write.Some? ==> log[n].write.value in Calls(log);
  }
}
