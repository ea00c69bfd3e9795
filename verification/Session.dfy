/** Any number of clients on one server, under every interleaving of their steps and the
    server's: what each reachable state keeps, how every run ends, and which serial order
    of the commands it comes to. */
module Session {
  import opened Bytes
  import opened Framing
  import opened Protocol
  import opened Replies
  import opened SerialOrders
  import opened Sides

  /** `crashed`: a step had no defined effect. */
  datatype System = System(sides: seq<Side>, server: Files, crashed: bool)

  function Start(u: Setup): System {
    System(seq(|u.scripts|, k requires 0 <= k < |u.scripts| => StartSide(u.scripts[k].files)), u.server, false)
  }

  /** Client `k` or its connection can take the step. */
  predicate Enabled(u: Setup, y: System, k: nat, step: Step) {
    !y.crashed && k < |u.scripts| && k < |y.sides| && CanStep(u.scripts[k].lines, y.sides[k], step)
  }

  function Apply(u: Setup, y: System, k: nat, step: Step): System
    requires Enabled(u, y, k, step)
  {
    match Move(u.scripts[k].lines, y.sides[k], y.server, step)
    case Undefined => y.(crashed := true)
    case Moved(side, server) => y.(sides := y.sides[k := side], server := server)
  }

  /* ---------- the invariant ---------- */

  /** The requests served so far, in that order, account for the state: the server has the
      files they leave, and every client is as they leave it, up to the requests on their
      way and the reply being delivered. */
  ghost predicate Inv(u: Setup, y: System, order: seq<nat>) {
    && Sound(u) && IsOrder(u, order)
    && !y.crashed && |y.sides| == |u.scripts| && y.server == After(u, order).server
    && forall k :: 0 <= k < |u.scripts| ==> Kept(u.scripts[k].lines, y.sides[k], After(u, order).terminals[k])
  }

  lemma StartKeeps(u: Setup)
    requires Sound(u)
    ensures Inv(u, Start(u), [])
  {
    hide Kept, Sound, StartSide;
    forall k | 0 <= k < |u.scripts|
      ensures Kept(u.scripts[k].lines, Start(u).sides[k], After(u, []).terminals[k])
    {
      StartKept(u.scripts[k].lines, u.scripts[k].files);
    }
  }

  /** A line that is not waited for changes nothing at its client; one that sends nothing
      changes nothing at all. */
  lemma QuietLine(a: Action, w: World)
    requires CanDo(a, w) && !Replying(a)
    ensures Do(a, w).client == w.client && Do(a, w).screen == w.screen
    ensures a.Nop? ==> Do(a, w) == w
  {
  }

  /** `n` turns of client `k` */
  function Turns(k: nat, n: nat): seq<nat> {
    seq(n, _ => k)
  }

  lemma OneMoreTurn(order: seq<nat>, k: nat, n: nat)
    ensures order + Turns(k, 0) == order
    ensures order + Turns(k, n) + [k] == order + Turns(k, n + 1)
  {
  }

  /** The lines of client `k` up to `n`, none of them waited for, can be served next. */
  lemma {:induction false} Ahead(u: Setup, order: seq<nat>, k: nat, n: nat) returns (ahead: seq<nat>)
    requires Sound(u) && IsOrder(u, order) && k < |u.scripts|
    requires After(u, order).terminals[k].done <= n <= Limit(u.scripts[k].lines)
    requires Quiet(u.scripts[k].lines, After(u, order).terminals[k].done, n)
    ensures IsOrder(u, ahead) && ahead == order + Turns(k, n - After(u, order).terminals[k].done)
    ensures After(u, ahead).terminals == After(u, order).terminals[k := After(u, order).terminals[k].(done := n)]
    ensures (forall i :: After(u, order).terminals[k].done <= i < n ==> Meaning(u.scripts[k].lines[i]).Nop?)
      ==> After(u, ahead).server == After(u, order).server
    decreases n
  {
    hide Sound, Meaning, CanDo, Do, Replying, Limit, Turns, After, IsOrder;
    ahead := order;
    OneMoreTurn(order, k, 0);
    if After(u, order).terminals[k].done < n {
      ahead := Ahead(u, order, k, n - 1);
      SoundAt(u, ahead, k);
      QuietLine(ActionOf(u, After(u, ahead), k), WorldOf(After(u, ahead), k));
      OrderMore(u, ahead, k);
      ahead := ahead + [k];
      OneMoreTurn(order, k, n - 1 - After(u, order).terminals[k].done);
    }
  }

  /** A client's next line can be issued: it could be served after those still unserved. */
  lemma NextIssuable(u: Setup, y: System, order: seq<nat>, k: nat)
    requires Inv(u, y, order) && Enabled(u, y, k, Issue)
    ensures Issuable(Meaning(u.scripts[k].lines[y.sides[k].next]), y.sides[k].files)
  {
    hide Sound, Meaning, Limit, Requests, Finish, Issuable, Unanswered;
    var lines, s := u.scripts[k].lines, y.sides[k];
    BelowLimit(lines, s.next);
    var ahead := Ahead(u, order, k, s.next);
    SoundAt(u, ahead, k);
  }

  /** Every step but a readable event leaves the served requests as they are. */
  lemma OtherStepKeeps(u: Setup, y: System, order: seq<nat>, k: nat, step: Step)
    requires Inv(u, y, order) && Enabled(u, y, k, step) && !step.ReadEvent?
    ensures Inv(u, Apply(u, y, k, step), order)
  {
    hide Sound, Kept, After, IsOrder, CanStep, Move;
    var lines, s, t := u.scripts[k].lines, y.sides[k], After(u, order).terminals[k];
    assert Kept(lines, s, t);
    if step.Issue? { NextIssuable(u, y, order, k); }
    LocalStepKept(lines, s, t, y.server, step);
  }

  lemma LocalStepKept(lines: seq<bytes>, s: Side, t: Terminal, server: Files, step: Step)
    requires Kept(lines, s, t) && CanStep(lines, s, step) && !step.ReadEvent?
    requires step.Issue? ==> Issuable(Meaning(lines[s.next]), s.files)
    ensures var m := Move(lines, s, server, step);
      m.Moved? && m.server == server && Kept(lines, m.side, t)
  {
    hide Kept, Issuable, Meaning, Issued, Advance;
    match step
    case Issue => IssueKept(lines, s, t);
    case Transmit(k) => TransmitKept(lines, s, t, server, k);
    case Close => CloseKept(lines, s, t, server);
    case Receive(k) => ReceiveKept(lines, s, t, server, k);
    case Proceed => ProceedKept(lines, s, t, server);
    case WriteEvent => WriteKept(lines, s, t, server);
  }

  /** The lines before the oldest request of client `k` are served: they send nothing. */
  lemma PassNops(u: Setup, y: System, order: seq<nat>, k: nat) returns (passed: seq<nat>)
    requires Inv(u, y, order) && k < |u.scripts|
    ensures Inv(u, y, passed)
    ensures var t, t' := After(u, order).terminals[k], After(u, passed).terminals[k];
      && t.done <= y.sides[k].next <= Limit(u.scripts[k].lines)
      && t' == t.(done := Oldest(u.scripts[k].lines, t.done, y.sides[k].next))
      && passed == order + Turns(k, t'.done - t.done)
    ensures After(u, passed).terminals == After(u, order).terminals[k := After(u, passed).terminals[k]]
  {
    hide Sound, Kept, After, IsOrder, Meaning, Limit, Replying;
    var lines, s, t := u.scripts[k].lines, y.sides[k], After(u, order).terminals[k];
    KeptBasics(lines, s, t);
    OldestQuiet(lines, t.done, s.next);
    NopsQuiet(lines, t.done, Oldest(lines, t.done, s.next));
    passed := Ahead(u, order, k, Oldest(lines, t.done, s.next));
    NopsKept(lines, s, t);
  }

  lemma KeptBasics(lines: seq<bytes>, s: Side, t: Terminal)
    requires Kept(lines, s, t)
    ensures t.done <= s.next <= Limit(lines)
    ensures s.c2s + s.outgoing == [] ==> Oldest(lines, t.done, s.next) == s.next
    ensures s.c2s != [] ==> Oldest(lines, t.done, s.next) < s.next
    ensures s.freed || s.closed ==> s.outgoing == []
  {
    hide Limit, Meaning, Issuable, Finish, Unanswered, Requests, Oldest;
    OldestFirst(lines, t.done, s.next, t.files);
  }

  lemma NopsQuiet(lines: seq<bytes>, h: nat, n: nat)
    requires h <= n <= |lines| && forall i :: h <= i < n ==> Meaning(lines[i]).Nop?
    ensures Quiet(lines, h, n)
  {
    hide Meaning;
  }

  /** The readable handler serves exactly the oldest unserved request of its connection, as
      if alone, or, with none left and the client gone, frees the connection. */
  lemma ServeKeeps(u: Setup, y: System, order: seq<nat>, k: nat) returns (order': seq<nat>)
    requires Inv(u, y, order) && Enabled(u, y, k, ReadEvent)
    ensures Inv(u, Apply(u, y, k, ReadEvent), order')
    ensures var lines, s := u.scripts[k].lines, y.sides[k];
      var t, t' := After(u, order).terminals[k], After(u, order').terminals[k];
      && t.done <= s.next <= |lines|
      && var i := Oldest(lines, t.done, s.next);
      && (s.c2s == [] <==> i == s.next)
      && t'.done == (if i < s.next then i + 1 else i) && order' == order + Turns(k, t'.done - t.done)
      && forall j :: 0 <= j < |u.scripts| && j != k ==>
           After(u, order').terminals[j] == After(u, order).terminals[j]
  {
    hide Sound, Kept, After, IsOrder, Meaning, Limit, CanStep, Move, CanDo, Do;
    var lines, s := u.scripts[k].lines, y.sides[k];
    var passed := PassNops(u, y, order, k);
    KeptBasics(lines, s, After(u, order).terminals[k]);
    order' := passed;
    if s.c2s != [] {
      order' := ServeOne(u, y, passed, k);
    } else {
      ReadableAtEnd(lines, s);
      DropKept(lines, s, After(u, passed).terminals[k], y.server);
    }
  }

  lemma ReadableAtEnd(lines: seq<bytes>, s: Side)
    requires CanStep(lines, s, ReadEvent) && s.c2s == []
    ensures s.closed
  {
  }

  lemma ServeOne(u: Setup, y: System, order: seq<nat>, k: nat) returns (order': seq<nat>)
    requires Inv(u, y, order) && Enabled(u, y, k, ReadEvent) && y.sides[k].c2s != []
    requires var t := After(u, order).terminals[k];
      t.done < y.sides[k].next <= Limit(u.scripts[k].lines) && !Meaning(u.scripts[k].lines[t.done]).Nop?
    ensures order' == order + [k] && Inv(u, Apply(u, y, k, ReadEvent), order')
    ensures After(u, order') == Perform(u, After(u, order), k)
  {
    hide Sound, Kept, After, IsOrder, Meaning, Limit, CanStep, Move, CanDo, Do;
    var lines, s, w := u.scripts[k].lines, y.sides[k], After(u, order);
    SoundAt(u, order, k);
    OrderMore(u, order, k);
    ServeKept(lines, s, w.terminals[k], y.server);
    order' := order + [k];
  }

  lemma StepKeeps(u: Setup, y: System, order: seq<nat>, k: nat, step: Step) returns (order': seq<nat>)
    requires Inv(u, y, order) && Enabled(u, y, k, step)
    ensures Inv(u, Apply(u, y, k, step), order') && order <= order'
  {
    hide Inv, Apply, Enabled;
    order' := order;
    if step.ReadEvent? {
      order' := ServeKeeps(u, y, order, k);
    } else {
      OtherStepKeeps(u, y, order, k, step);
    }
  }

  /* ---------- every reachable state ---------- */

  ghost predicate Reached(u: Setup, y: System) {
    exists order :: Inv(u, y, order)
  }

  lemma ReachedStep(u: Setup, y: System, k: nat, step: Step)
    requires Reached(u, y) && Enabled(u, y, k, step)
    ensures Reached(u, Apply(u, y, k, step))
  {
    hide Inv, Apply, Enabled;
    var order :| Inv(u, y, order);
    var order' := StepKeeps(u, y, order, k, step);
  }

  /** `steps` can be taken one after the other from `y`. */
  predicate IsRun(u: Setup, y: System, steps: seq<(nat, Step)>)
    decreases |steps|
  {
    steps != [] ==>
      Enabled(u, y, steps[0].0, steps[0].1) && IsRun(u, Apply(u, y, steps[0].0, steps[0].1), steps[1..])
  }

  function EndOf(u: Setup, y: System, steps: seq<(nat, Step)>): System
    requires IsRun(u, y, steps)
    decreases |steps|
  {
    if steps == [] then y else EndOf(u, Apply(u, y, steps[0].0, steps[0].1), steps[1..])
  }

  lemma {:induction false} RunKeeps(u: Setup, y: System, steps: seq<(nat, Step)>)
    requires Reached(u, y) && IsRun(u, y, steps)
    ensures Reached(u, EndOf(u, y, steps))
    decreases |steps|
  {
    hide Reached, Apply, Enabled;
    if steps != [] {
      ReachedStep(u, y, steps[0].0, steps[0].1);
      RunKeeps(u, Apply(u, y, steps[0].0, steps[0].1), steps[1..]);
    }
  }

  /** What the theorems promise of one side when `t` is what its served lines come to */
  ghost predicate Synchronous(lines: seq<bytes>, s: Side, t: Terminal) {
    && t.done <= s.next <= |lines| && AllIssuable(lines, t.done, s.next, t.files)
    && s.c2s + s.outgoing == Requests(lines, t.done, s.next, t.files)
    && (s.phase.Idle? ==> Silent(s) && s.files == t.files && s.screen == t.screen)
    && (s.armed ==> s.out.wbuf != [])
    && (s.freed ==> s.closed && s.c2s == [])
  }

  /** Session synchrony, for any number of clients. In every reachable state nothing has
      gone wrong, and some serial order of the requests served accounts for everything: the
      server has the files it leaves; each unread stream and what its client still has to
      write are exactly the requests not yet served. Between commands a client has consumed
      every reply byte, none is pending, its writable event is disarmed, and its files and
      screen are as that order leaves them. A connection is freed only after its client has
      closed. */
  lemma Synchrony(u: Setup, steps: seq<(nat, Step)>) returns (order: seq<nat>)
    requires Sound(u) && IsRun(u, Start(u), steps)
    ensures var y := EndOf(u, Start(u), steps);
      && !y.crashed && |y.sides| == |u.scripts|
      && IsOrder(u, order) && y.server == After(u, order).server
      && forall k :: 0 <= k < |u.scripts| ==>
           Synchronous(u.scripts[k].lines, y.sides[k], After(u, order).terminals[k])
  {
    hide Kept, Sound, After, IsOrder, Synchronous;
    StartKeeps(u);
    RunKeeps(u, Start(u), steps);
    var y := EndOf(u, Start(u), steps);
    order :| Inv(u, y, order);
    forall k | 0 <= k < |u.scripts|
      ensures Synchronous(u.scripts[k].lines, y.sides[k], After(u, order).terminals[k])
    {
      KeptIsSynchronous(u.scripts[k].lines, y.sides[k], After(u, order).terminals[k]);
    }
  }

  lemma KeptIsSynchronous(lines: seq<bytes>, s: Side, t: Terminal)
    requires Kept(lines, s, t)
    ensures Synchronous(lines, s, t)
  {
    hide Meaning, Limit, Issuable, Finish;
  }

  /* ---------- every run ends ---------- */

  ghost predicate CanMove(u: Setup, y: System) {
    exists k: nat, step: Step :: Enabled(u, y, k, step)
  }

  /** No deadlock: somebody can move until every connection has been freed or its client
      waits for a download that was rejected. */
  lemma SomebodyMoves(u: Setup, y: System, k: nat)
    requires Reached(u, y) && k < |u.scripts| && k < |y.sides| && !Over(u.scripts[k].lines, y.sides[k])
    ensures exists step: Step :: Enabled(u, y, k, step)
  {
    hide Kept, Sound, After, IsOrder, Over, CanStep, Meaning, CanDo, Limit;
    var order :| Inv(u, y, order);
    var passed := PassNops(u, y, order, k);
    if After(u, passed).terminals[k].done < y.sides[k].next { SoundAt(u, passed, k); }
    NothingBefore(u.scripts[k].lines, y.sides[k], After(u, order).terminals[k]);
    var step := Progress(u.scripts[k].lines, y.sides[k], After(u, passed).terminals[k], y.server);
    assert Enabled(u, y, k, step);
  }

  /** The oldest request stays the oldest once the lines before it are passed. */
  lemma NothingBefore(lines: seq<bytes>, s: Side, t: Terminal)
    requires t.done <= s.next <= |lines|
    ensures var i := Oldest(lines, t.done, s.next); Oldest(lines, i, s.next) == i
  {
    hide Meaning;
  }

  function Plus(a: Rank, b: Rank): Rank {
    Rank(a.ends + b.ends, a.lines + b.lines, a.unserved + b.unserved, a.unwritten + b.unwritten,
         a.armed + b.armed, a.unread + b.unread,
         (a.reply.0 + b.reply.0, a.reply.1 + b.reply.1, a.reply.2 + b.reply.2))
  }

  function Total(scripts: seq<Script>, sides: seq<Side>): Rank {
    if scripts == [] || sides == [] then Rank(0, 0, 0, 0, 0, 0, (0, 0, 0))
    else Plus(SideRank(scripts[0].lines, sides[0]), Total(scripts[1..], sides[1..]))
  }

  lemma {:induction false} TotalDescends(scripts: seq<Script>, sides: seq<Side>, k: nat, side: Side)
    requires k < |scripts| && k < |sides|
    requires Below(SideRank(scripts[k].lines, side), SideRank(scripts[k].lines, sides[k]))
    ensures Below(Total(scripts, sides[k := side]), Total(scripts, sides))
  {
    hide SideRank;
    if k == 0 {
      assert sides[0 := side][1..] == sides[1..];
    } else {
      assert sides[k := side][1..] == sides[1..][k - 1 := side];
      TotalDescends(scripts[1..], sides[1..], k - 1, side);
    }
  }

  /** Every step brings the system nearer its end. */
  lemma StepDescendsTotal(u: Setup, y: System, k: nat, step: Step)
    requires Enabled(u, y, k, step) && !Apply(u, y, k, step).crashed
    ensures Below(Total(u.scripts, Apply(u, y, k, step).sides), Total(u.scripts, y.sides))
  {
    hide SideRank, Below, Total, CanStep, Move;
    StepDescends(u.scripts[k].lines, y.sides[k], y.server, step);
    TotalDescends(u.scripts, y.sides, k, Move(u.scripts[k].lines, y.sides[k], y.server, step).side);
  }

  /** Who moves next, by the clock and the state: any interleaving is some scheduler's. */
  type Scheduler = (nat, System) -> (nat, Step)

  /** The scheduler names a step that can be taken, while there is one. */
  ghost predicate Obeys(u: Setup, sched: Scheduler) {
    forall n: nat, y: System :: CanMove(u, y) ==> Enabled(u, y, sched(n, y).0, sched(n, y).1)
  }

  /** There are such schedulers. */
  lemma SchedulerExists(u: Setup) returns (sched: Scheduler)
    ensures Obeys(u, sched)
  {
    sched := (n: nat, y: System) =>
      if CanMove(u, y) then (var k: nat, step: Step :| Enabled(u, y, k, step); (k, step)) else (0, Issue);
  }

  /** Runs the system under a scheduler until nobody can move. That this function is
      defined says that every run ends. */
  ghost function Final(u: Setup, y: System, sched: Scheduler, n: nat): System
    requires Reached(u, y) && Obeys(u, sched)
    decreases Total(u.scripts, y.sides).ends, Total(u.scripts, y.sides).lines, Total(u.scripts, y.sides).unserved,
              Total(u.scripts, y.sides).unwritten, Total(u.scripts, y.sides).armed, Total(u.scripts, y.sides).unread,
              Total(u.scripts, y.sides).reply.0, Total(u.scripts, y.sides).reply.1, Total(u.scripts, y.sides).reply.2
  {
    hide Reached, Apply, Total, Enabled, CanMove;
    if !CanMove(u, y) then y else
    ScheduledStep(u, y, sched, n);
    Final(u, Apply(u, y, sched(n, y).0, sched(n, y).1), sched, n + 1)
  }

  lemma ScheduledStep(u: Setup, y: System, sched: Scheduler, n: nat)
    requires Reached(u, y) && Obeys(u, sched) && CanMove(u, y)
    ensures Enabled(u, y, sched(n, y).0, sched(n, y).1)
    ensures Reached(u, Apply(u, y, sched(n, y).0, sched(n, y).1))
    ensures Below(Total(u.scripts, Apply(u, y, sched(n, y).0, sched(n, y).1).sides), Total(u.scripts, y.sides))
  {
    hide Reached, Apply, Total, Enabled, Below;
    var (k, step) := sched(n, y);
    ReachedStep(u, y, k, step);
    ReachedBasics(u, Apply(u, y, k, step));
    StepDescendsTotal(u, y, k, step);
  }

  lemma ReachedBasics(u: Setup, y: System)
    requires Reached(u, y)
    ensures !y.crashed && |y.sides| == |u.scripts|
  {
    hide Kept, Sound, IsOrder, After;
  }

  lemma {:induction false} FinalKeeps(u: Setup, y: System, sched: Scheduler, n: nat)
    requires Reached(u, y) && Obeys(u, sched)
    ensures Reached(u, Final(u, y, sched, n)) && !CanMove(u, Final(u, y, sched, n))
    decreases Total(u.scripts, y.sides).ends, Total(u.scripts, y.sides).lines, Total(u.scripts, y.sides).unserved,
              Total(u.scripts, y.sides).unwritten, Total(u.scripts, y.sides).armed, Total(u.scripts, y.sides).unread,
              Total(u.scripts, y.sides).reply.0, Total(u.scripts, y.sides).reply.1, Total(u.scripts, y.sides).reply.2
  {
    hide Reached, Apply, Total, Enabled, CanMove;
    if CanMove(u, y) {
      ScheduledStep(u, y, sched, n);
      FinalKeeps(u, Apply(u, y, sched(n, y).0, sched(n, y).1), sched, n + 1);
    }
  }

  /* ---------- what every run comes to ---------- */

  lemma StartReached(u: Setup)
    requires Sound(u)
    ensures Reached(u, Start(u))
  {
    StartKeeps(u);
  }

  /** The whole run of a setup */
  ghost function Outcome(u: Setup, sched: Scheduler): System
    requires Sound(u) && Obeys(u, sched)
  {
    StartReached(u);
    Final(u, Start(u), sched, 0)
  }

  /** When nobody can move, the lines left unserved by the first `n` clients send nothing,
      and the order can be completed for them. */
  lemma {:induction false} Completed(u: Setup, y: System, order: seq<nat>, n: nat) returns (whole: seq<nat>)
    requires Inv(u, y, order) && n <= |u.scripts|
    requires forall k :: 0 <= k < |u.scripts| ==> Over(u.scripts[k].lines, y.sides[k])
    ensures Inv(u, y, whole)
    ensures forall k :: 0 <= k < n ==> After(u, whole).terminals[k].done == Limit(u.scripts[k].lines)
  {
    hide Inv, IsOrder, After, Over, Limit, Oldest;
    whole := order;
    if n > 0 {
      var before := Completed(u, y, order, n - 1);
      whole := PassNops(u, y, before, n - 1);
      InvBasics(u, y, before, n - 1);
      OverIsDone(u.scripts[n - 1].lines, y.sides[n - 1], After(u, before).terminals[n - 1]);
    }
  }

  lemma InvBasics(u: Setup, y: System, order: seq<nat>, k: nat)
    requires Inv(u, y, order) && k < |u.scripts|
    ensures |y.sides| == |u.scripts| && Kept(u.scripts[k].lines, y.sides[k], After(u, order).terminals[k])
  {
    hide Kept, Sound, IsOrder, After;
  }

  /** The side at the end of a run: its client as the order leaves it, every byte consumed,
      every reply delivered, and the connection freed exactly if no download was rejected. */
  ghost predicate Delivered(lines: seq<bytes>, s: Side, t: Terminal) {
    && s.files == t.files && s.screen == t.screen
    && s.outgoing == [] && s.c2s == [] && Silent(s)
    && (s.freed <==> !Stranded(lines))
  }

  /** Whatever the interleaving and the read sizes, the run ends, and what it comes to is
      what some serial order of all the commands comes to: the server's files, and every
      client's files and screen. A client is left waiting exactly if one of its lines asks
      for a download under a name that the server reads as no word or several. */
  lemma EveryRunDelivers(u: Setup, sched: Scheduler) returns (order: seq<nat>)
    requires Sound(u) && Obeys(u, sched)
    ensures var e := Outcome(u, sched);
      && !e.crashed && |e.sides| == |u.scripts|
      && IsOrder(u, order) && Complete(u, order) && e.server == After(u, order).server
      && forall k :: 0 <= k < |u.scripts| ==>
           Delivered(u.scripts[k].lines, e.sides[k], After(u, order).terminals[k])
  {
    hide After, IsOrder, Kept, Sound, Final, Over, Enabled, Stranded, Limit;
    StartReached(u);
    FinalKeeps(u, Start(u), sched, 0);
    var e := Outcome(u, sched);
    ReachedBasics(u, e);
    forall k | 0 <= k < |u.scripts|
      ensures Over(u.scripts[k].lines, e.sides[k])
    {
      if !Over(u.scripts[k].lines, e.sides[k]) {
        SomebodyMoves(u, e, k);
      }
    }
    var reached :| Inv(u, e, reached);
    order := Completed(u, e, reached, |u.scripts|);
    forall k | 0 <= k < |u.scripts|
      ensures Delivered(u.scripts[k].lines, e.sides[k], After(u, order).terminals[k])
    {
      OverIsDelivered(u.scripts[k].lines, e.sides[k], After(u, order).terminals[k]);
    }
  }

  lemma OverIsDelivered(lines: seq<bytes>, s: Side, t: Terminal)
    requires Kept(lines, s, t) && Over(lines, s) && t.done == Limit(lines)
    ensures Delivered(lines, s, t)
  {
    hide Kept, Limit, Stranded, Unanswered, Meaning;
    OverIsDone(lines, s, t);
  }

  /** One client: the run comes to its lines carried out one after the other. */
  lemma OneClientDelivers(u: Setup, sched: Scheduler)
    requires |u.scripts| == 1 && Sound(u) && Obeys(u, sched)
    ensures var e := Outcome(u, sched);
      && |e.sides| == 1
      && World(e.sides[0].files, e.server, e.sides[0].screen) == Solo(u, 0, Limit(u.scripts[0].lines))
      && (e.sides[0].freed <==> !Stranded(u.scripts[0].lines))
  {
    hide Outcome, After, IsOrder, Sound, Obeys, Stranded, Limit, Solo;
    var order := EveryRunDelivers(u, sched);
    OneClient(u, order);
  }

  /** Clients that use different paths do not notice each other: under every interleaving
      each ends with the files and screen it would have alone. */
  lemma IndependentDelivers(u: Setup, sched: Scheduler, k: nat)
    requires Independent(u) && Sound(u) && Obeys(u, sched) && k < |u.scripts|
    ensures var e := Outcome(u, sched);
      var v := Solo(u, k, Limit(u.scripts[k].lines));
      && |e.sides| == |u.scripts|
      && e.sides[k].files == v.client && e.sides[k].screen == v.screen
      && forall path :: Uses(u.scripts[k].lines, path) ==> SameAt(e.server, v.server, path)
  {
    hide Outcome, After, IsOrder, Sound, Obeys, Independent, Stranded, Limit, Solo, Uses, SameAt;
    var order := EveryRunDelivers(u, sched);
    AloneTogether(u, order, k);
  }

  /* ---------- every serial order happens ---------- */

  /** All clients are at rest, each with exactly its lines in `order` carried out. */
  ghost predicate Settled(u: Setup, y: System, order: seq<nat>) {
    && Inv(u, y, order)
    && forall k :: 0 <= k < |u.scripts| ==>
         SettledSide(u.scripts[k].lines, y.sides[k], After(u, order).terminals[k])
  }

  predicate SettledSide(lines: seq<bytes>, s: Side, t: Terminal) {
    !s.closed && s.next == t.done && AtRest(lines, s)
  }

  /** The side has nothing under way, or one request or its reply. */
  predicate OneUnderWay(lines: seq<bytes>, s: Side, t: Terminal) {
    && !s.closed
    && (s.next == t.done || (s.next == t.done + 1 <= |lines| && !Meaning(lines[t.done]).Nop?))
  }

  lemma MoveKeepsPlace(lines: seq<bytes>, s: Side, server: Files, step: Step)
    requires CanStep(lines, s, step) && !step.Issue? && !step.Close? && Move(lines, s, server, step).Moved?
    ensures var s' := Move(lines, s, server, step).side; s'.next == s.next && s'.closed == s.closed
  {
    hide Serve, Advance;
  }

  lemma RestIsServed(lines: seq<bytes>, s: Side, t: Terminal)
    requires Kept(lines, s, t) && OneUnderWay(lines, s, t) && AtRest(lines, s)
    ensures SettledSide(lines, s, t)
  {
    hide Kept, Silent, Meaning;
    KeptBasics(lines, s, t);
  }

  /** What one step with a request under way keeps; `order'` says if it was the serving. */
  ghost predicate Goes(u: Setup, y: System, order: seq<nat>, k: nat, step: Step, order': seq<nat>) {
    && Enabled(u, y, k, step) && Inv(u, Apply(u, y, k, step), order') && k < |u.scripts| == |y.sides|
    && var lines, s' := u.scripts[k].lines, Apply(u, y, k, step).sides[k];
       var t, t' := After(u, order).terminals[k], After(u, order').terminals[k];
       && s'.next == y.sides[k].next && OneUnderWay(lines, s', t')
       && t.done <= t'.done && order' == order + Turns(k, t'.done - t.done)
  }

  lemma OtherGoes(u: Setup, y: System, order: seq<nat>, k: nat, step: Step)
    requires Inv(u, y, order) && Enabled(u, y, k, step) && !step.Issue? && !step.Close? && !step.ReadEvent?
    requires OneUnderWay(u.scripts[k].lines, y.sides[k], After(u, order).terminals[k])
    ensures Goes(u, y, order, k, step, order)
  {
    hide Kept, Sound, After, IsOrder, CanStep, Meaning, Limit, Move, Turns;
    OtherStepKeeps(u, y, order, k, step);
    MoveKeepsPlace(u.scripts[k].lines, y.sides[k], y.server, step);
    OneMoreTurn(order, k, 0);
  }

  lemma ServeGoes(u: Setup, y: System, order: seq<nat>, k: nat) returns (order': seq<nat>)
    requires Inv(u, y, order) && Enabled(u, y, k, ReadEvent)
    requires OneUnderWay(u.scripts[k].lines, y.sides[k], After(u, order).terminals[k])
    ensures Goes(u, y, order, k, ReadEvent, order')
  {
    hide Kept, Sound, After, IsOrder, CanStep, Meaning, Limit, Move, Turns, Oldest;
    var lines, s, t := u.scripts[k].lines, y.sides[k], After(u, order).terminals[k];
    order' := ServeKeeps(u, y, order, k);
    MoveKeepsPlace(lines, s, y.server, ReadEvent);
    if s.c2s == [] { ReadableAtEnd(lines, s); }
  }

  /** What is under way at client `k` goes one step further. */
  lemma SettlingStep(u: Setup, y: System, order: seq<nat>, k: nat) returns (step: Step, order': seq<nat>)
    requires Inv(u, y, order) && k < |u.scripts| && !AtRest(u.scripts[k].lines, y.sides[k])
    requires OneUnderWay(u.scripts[k].lines, y.sides[k], After(u, order).terminals[k])
    ensures Goes(u, y, order, k, step, order')
  {
    hide Kept, Sound, After, IsOrder, AtRest, CanStep, Meaning, CanDo, Limit, Move, Turns, OneUnderWay, Goes;
    var lines, s, t := u.scripts[k].lines, y.sides[k], After(u, order).terminals[k];
    var passed := PassNops(u, y, order, k);
    if After(u, passed).terminals[k].done < s.next { SoundAt(u, passed, k); }
    NothingBefore(lines, s, t);
    step := Settling(lines, s, After(u, passed).terminals[k], y.server);
    order' := order;
    if step.ReadEvent? {
      order' := ServeGoes(u, y, order, k);
    } else {
      OtherGoes(u, y, order, k, step);
    }
  }

  lemma {:induction false} Settle(u: Setup, y: System, order: seq<nat>, k: nat)
    returns (steps: seq<(nat, Step)>, order': seq<nat>)
    requires Inv(u, y, order) && k < |u.scripts|
    requires OneUnderWay(u.scripts[k].lines, y.sides[k], After(u, order).terminals[k])
    ensures IsRun(u, y, steps)
    ensures var e := EndOf(u, y, steps);
      && Inv(u, e, order') && e.sides == y.sides[k := e.sides[k]] && e.sides[k].next == y.sides[k].next
      && SettledSide(u.scripts[k].lines, e.sides[k], After(u, order').terminals[k])
    ensures order' == order + Turns(k, y.sides[k].next - After(u, order).terminals[k].done)
    decreases SideRank(u.scripts[k].lines, y.sides[k]).ends, SideRank(u.scripts[k].lines, y.sides[k]).lines,
              SideRank(u.scripts[k].lines, y.sides[k]).unserved, SideRank(u.scripts[k].lines, y.sides[k]).unwritten,
              SideRank(u.scripts[k].lines, y.sides[k]).armed, SideRank(u.scripts[k].lines, y.sides[k]).unread,
              SideRank(u.scripts[k].lines, y.sides[k]).reply.0, SideRank(u.scripts[k].lines, y.sides[k]).reply.1,
              SideRank(u.scripts[k].lines, y.sides[k]).reply.2
  {
    hide Kept, Sound, After, IsOrder, AtRest, CanStep, Meaning, SideRank, Move, Turns;
    var lines := u.scripts[k].lines;
    if AtRest(lines, y.sides[k]) {
      RestIsServed(lines, y.sides[k], After(u, order).terminals[k]);
      OneMoreTurn(order, k, 0);
      steps, order' := [], order;
    } else {
      var step, between := SettlingStep(u, y, order, k);
      var y' := Apply(u, y, k, step);
      StepDescends(lines, y.sides[k], y.server, step);
      var rest;
      rest, order' := Settle(u, y', between, k);
      steps := [(k, step)] + rest;
      assert steps[1..] == rest;
      TurnsAdd(order, k, After(u, between).terminals[k].done - After(u, order).terminals[k].done,
               y.sides[k].next - After(u, between).terminals[k].done);
    }
  }

  lemma TurnsAdd(order: seq<nat>, k: nat, m: nat, n: nat)
    ensures order + Turns(k, m) + Turns(k, n) == order + Turns(k, m + n)
  {
  }

  lemma {:induction false} RunAppend(u: Setup, y: System, a: seq<(nat, Step)>, b: seq<(nat, Step)>)
    requires IsRun(u, y, a) && IsRun(u, EndOf(u, y, a), b)
    ensures IsRun(u, y, a + b) && EndOf(u, y, a + b) == EndOf(u, EndOf(u, y, a), b)
    decreases |a|
  {
    hide Apply, Enabled;
    if a == [] {
      assert a + b == b;
    } else {
      RunAppend(u, Apply(u, y, a[0].0, a[0].1), a[1..], b);
      assert (a + b)[1..] == a[1..] + b;
    }
  }

  /** A resting client with a line left can take it up. */
  lemma RestCanIssue(lines: seq<bytes>, s: Side, t: Terminal, server: Files)
    requires Kept(lines, s, t) && SettledSide(lines, s, t) && t.done < Limit(lines)
    ensures s.next < |lines| && CanStep(lines, s, Issue)
    ensures Issuable(Meaning(lines[s.next]), s.files) ==>
      var m := Move(lines, s, server, Issue);
      && m.Moved? && OneUnderWayOrNop(lines, m.side, t) && m.side.next == t.done + 1
  {
    hide Kept, Limit, Meaning, Unanswered, Issuable, Request;
    LimitIs(lines);
    if s.next > 0 { assert !Unanswered(Meaning(lines[s.next - 1])); }
    if Issuable(Meaning(lines[s.next]), s.files) && Meaning(lines[s.next]).Nop? {
      NopSendsNothing(s.files);
    }
  }

  predicate OneUnderWayOrNop(lines: seq<bytes>, s: Side, t: Terminal) {
    if t.done < |lines| && Meaning(lines[t.done]).Nop? then !s.closed && AtRest(lines, s)
    else OneUnderWay(lines, s, t)
  }

  lemma NopSendsNothing(files: Files)
    ensures Request(Nop, files) == [] && Opened(Nop, files) == files && !Replying(Nop)
  {
  }

  /** From rest, client `k` takes up its next line and everything comes to rest again. */
  lemma OneCommand(u: Setup, y: System, order: seq<nat>, k: nat) returns (steps: seq<(nat, Step)>)
    requires Settled(u, y, order) && HasLine(u, After(u, order), k)
    ensures IsRun(u, y, steps) && Settled(u, EndOf(u, y, steps), order + [k])
  {
    hide Kept, Sound, After, IsOrder, AtRest, CanStep, Meaning, Limit, Move, Turns, OneUnderWay;
    var lines, s, t := u.scripts[k].lines, y.sides[k], After(u, order).terminals[k];
    RestCanIssue(lines, s, t, y.server);
    NextIssuable(u, y, order, k);
    OtherStepKeeps(u, y, order, k, Issue);
    var y' := Apply(u, y, k, Issue);
    var rest, order';
    if Meaning(lines[t.done]).Nop? {
      order' := PassNops(u, y', order, k);
      rest := [];
    } else {
      rest, order' := Settle(u, y', order, k);
    }
    steps := [(k, Issue)] + rest;
    assert steps[1..] == rest;
    OneTurn(order, k);
    OrderMore(u, order, k);
    assert forall j :: 0 <= j < |u.scripts| && j != k ==>
      After(u, order').terminals[j] == After(u, order).terminals[j];
  }

  lemma OneTurn(order: seq<nat>, k: nat)
    ensures order + Turns(k, 1) == order + [k]
  {
  }

  lemma StartSettled(u: Setup)
    requires Sound(u)
    ensures Settled(u, Start(u), [])
  {
    hide Inv, Sound;
    StartKeeps(u);
  }

  lemma {:induction false} OrderReached(u: Setup, order: seq<nat>) returns (steps: seq<(nat, Step)>)
    requires Sound(u) && IsOrder(u, order)
    ensures IsRun(u, Start(u), steps) && Settled(u, EndOf(u, Start(u), steps), order)
  {
    hide Inv, Kept, Sound, After, HasLine, Enabled, Apply;
    if order == [] {
      StartSettled(u);
      steps := [];
    } else {
      var before, k := order[..|order| - 1], order[|order| - 1];
      var first := OrderReached(u, before);
      var last := OneCommand(u, EndOf(u, Start(u), first), before, k);
      RunAppend(u, Start(u), first, last);
      steps := first + last;
      assert before + [k] == order;
    }
  }

  lemma SettledIsAfter(lines: seq<bytes>, s: Side, t: Terminal)
    requires Kept(lines, s, t) && SettledSide(lines, s, t)
    ensures s.files == t.files && s.screen == t.screen
  {
    hide Limit, Meaning, Unanswered, Issuable, Requests, Finish;
  }

  /** The converse of `Synchrony`: whatever a serial order of commands comes to, some run of
      the system comes to, with nothing under way anywhere. */
  lemma EveryOrderHappens(u: Setup, order: seq<nat>) returns (steps: seq<(nat, Step)>)
    requires Sound(u) && IsOrder(u, order)
    ensures IsRun(u, Start(u), steps)
    ensures var y, w := EndOf(u, Start(u), steps), After(u, order);
      && !y.crashed && y.server == w.server && |y.sides| == |u.scripts|
      && forall k :: 0 <= k < |u.scripts| ==>
        && y.sides[k].files == w.terminals[k].files && y.sides[k].screen == w.terminals[k].screen
        && y.sides[k].next == w.terminals[k].done && AtRest(u.scripts[k].lines, y.sides[k])
  {
    hide Kept, Sound, After, IsOrder, AtRest;
    steps := OrderReached(u, order);
    var y, w := EndOf(u, Start(u), steps), After(u, order);
    forall k | 0 <= k < |u.scripts|
      ensures y.sides[k].files == w.terminals[k].files && y.sides[k].screen == w.terminals[k].screen
    {
      SettledIsAfter(u.scripts[k].lines, y.sides[k], w.terminals[k]);
    }
  }
}
