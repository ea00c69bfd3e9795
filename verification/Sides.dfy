/** One client, its connection at the server, and the two byte streams between them: the
    steps they can take, under every interleaving and every pattern of short reads, and
    what each step keeps as long as the client's requests can be carried out. */
module Sides {
  import opened Bytes
  import opened Buffers
  import opened Arguments
  import opened Framing
  import opened Protocol
  import opened Replies
  import opened SerialOrders

  datatype Side = Side(
    // the client: lines taken up, end of input, the reply it reads, files, what it showed
    next: nat, closed: bool, phase: Phase, files: Files, screen: seq<bytes>,
    // bytes the client still has to write, and bytes on the way
    outgoing: bytes, c2s: bytes, s2c: bytes,
    // the server's connection: queued replies, writable event, deleted
    out: Out, armed: bool, freed: bool)

  function StartSide(files: Files): Side {
    Side(0, false, Idle, files, [], [], [], [], NO_OUT, false, false)
  }

  /** `Issue`: the client takes up the next line. `Transmit(k)`: its blocking write moves
      `k` bytes. `Receive(k)`: one read returns `k` bytes. `Proceed`: a read is complete.
      `ReadEvent`, `WriteEvent`: the server dispatches a handler. `Close`: the client's
      input has ended. */
  datatype Step = Issue | Transmit(k: nat) | Close | Receive(k: nat) | Proceed | ReadEvent | WriteEvent

  /** The readable event is dispatched when there is input or its end, and, the assumption
      on the server's raw reads, when the request has arrived whole. */
  predicate CanStep(lines: seq<bytes>, s: Side, step: Step) {
    match step
    case Issue => s.outgoing == [] && s.phase.Idle? && s.next < |lines| && !s.closed
    case Transmit(k) => 1 <= k <= |s.outgoing|
    case Close => s.outgoing == [] && s.phase.Idle? && s.next >= |lines| && !s.closed
    case Receive(k) =>
      s.outgoing == [] && s.phase.Reading? && 1 <= k <= |s.s2c| && |s.phase.got| + k <= Need(s.phase.stage)
    case Proceed => s.outgoing == [] && s.phase.Reading? && |s.phase.got| == Need(s.phase.stage)
    case ReadEvent => !s.freed && if s.c2s == [] then s.closed else Arrived(s.c2s)
    case WriteEvent => !s.freed && s.armed
  }

  /** A step changes one side and, if the server handles an upload, its files. */
  datatype Moved = Undefined | Moved(side: Side, server: Files)

  /** A download begins by creating or emptying its file. */
  function Opened(a: Action, files: Files): Files {
    if a.Recv? then files[a.name := []] else files
  }

  function Conclude(s: Side, result: Result): Side {
    match result
    case Shown(text) => s.(phase := Idle, screen := s.screen + [text])
    case Stored(name, content) => s.(phase := Idle, files := s.files[name := content])
  }

  function Issued(s: Side, a: Action): Side
    requires Issuable(a, s.files)
  {
    s.(next := s.next + 1,
       outgoing := Request(a, s.files),
       files := Opened(a, s.files),
       phase := if Replying(a) then Reading(StartStage(a), []) else Idle)
  }

  function Move(lines: seq<bytes>, s: Side, server: Files, step: Step): Moved
    requires CanStep(lines, s, step)
  {
    match step
    case Issue =>
      if !Issuable(Meaning(lines[s.next]), s.files) then Undefined
      else Moved(Issued(s, Meaning(lines[s.next])), server)
    case Transmit(k) => Moved(s.(c2s := s.c2s + s.outgoing[..k], outgoing := s.outgoing[k..]), server)
    case Close => Moved(s.(closed := true), server)
    case Receive(k) => Moved(s.(s2c := s.s2c[k..], phase := s.phase.(got := s.phase.got + s.s2c[..k])), server)
    case Proceed =>
      (match Advance(s.phase.stage, s.phase.got)
       case Overrun => Undefined
       case Continue(st) => Moved(s.(phase := Reading(st, [])), server)
       case Finished(result) => Moved(Conclude(s, result), server))
    case ReadEvent =>
      (match Serve(s.c2s, server, s.out)
       case Fault => Undefined
       case Drop => Moved(s.(freed := true, armed := false), server)
       case Served(rest, files, out, arm) =>
         Moved(s.(c2s := rest, out := out, armed := s.armed || arm), files))
    case WriteEvent =>
      if s.out.wbuf == [] then Moved(s.(freed := true, armed := false), server)
      else Moved(s.(s2c := s.s2c + s.out.Bytes(), out := NO_OUT, armed := false), server)
  }

  /** Taking up a line, by its words: what goes out, what the client then waits for, and
      that a download empties its file first. */
  lemma IssueExactly(lines: seq<bytes>, s: Side, server: Files)
    requires CanStep(lines, s, Issue)
    ensures var args, m := Tokens(lines[s.next]), Move(lines, s, server, Issue);
      && (args == [] ==> m == Undefined)
      && (args == [Ascii("ping")] ==>
           m == Moved(s.(next := s.next + 1, outgoing := Frame(Ascii("ping")),
                         phase := Reading(Head(Pong), [])), server))
      && (|args| == 2 && args[0] == Ascii("file_send") ==>
           var name := args[1];
           if |name| < 1006 && name in s.files && |s.files[name]| < SIZE_LIMIT then
             m == Moved(s.(next := s.next + 1,
                           outgoing := Frame(Ascii("file_send ") + name) + FileStream(s.files[name])), server)
           else m == Undefined)
      && (|args| == 2 && args[0] == Ascii("file_recv") ==>
           var name := args[1];
           if |name| < 1006 then
             m == Moved(s.(next := s.next + 1, outgoing := Frame(Ascii("file_recv ") + name),
                           files := s.files[name := []], phase := Reading(Head(Count(name)), [])), server)
           else m == Undefined)
      && (args != [] && args != [Ascii("ping")]
            && !(|args| == 2 && args[0] in [Ascii("file_send"), Ascii("file_recv")]) ==>
           m == Moved(s.(next := s.next + 1), server))
  {
    hide Tokens, Meaning, Ascii, Frame, FileStream, Request, Issuable;
    var a := Meaning(lines[s.next]);
    MeaningExactly(lines[s.next]);
    IssuableExactly(a, s.files);
    if Issuable(a, s.files) { RequestExactly(a, s.files); }
  }

  /** Any shorter read is possible too, and all that has come, as far as it is wanted. */
  lemma ShortReads(lines: seq<bytes>, s: Side, k: nat)
    ensures CanStep(lines, s, Receive(k)) ==> forall j :: 1 <= j <= k ==> CanStep(lines, s, Receive(j))
    ensures s.phase.Reading? && s.outgoing == [] && |s.phase.got| < Need(s.phase.stage) && 0 < |s.s2c| ==>
      var wanted := Need(s.phase.stage) - |s.phase.got|;
      CanStep(lines, s, Receive(if wanted <= |s.s2c| then wanted else |s.s2c|))
    ensures CanStep(lines, s, Transmit(k)) ==> forall j :: 1 <= j <= |s.outgoing| ==> CanStep(lines, s, Transmit(j))
  {
  }

  /** What the client sees of the side, and what the server does */
  predicate SameToClient(s: Side, s': Side) {
    s.next == s'.next && s.closed == s'.closed && s.phase == s'.phase && s.files == s'.files
    && s.screen == s'.screen && s.outgoing == s'.outgoing
  }

  predicate SameToServer(s: Side, s': Side) {
    s.out == s'.out && s.armed == s'.armed && s.freed == s'.freed
  }

  predicate ByServer(step: Step) { step.ReadEvent? || step.WriteEvent? }

  /** Who takes a step decides by what it sees: the client by its own state and the bytes
      that have reached it, the server by its connection and the bytes that have reached it
      or their end. */
  lemma StepsAreLocal(lines: seq<bytes>, s: Side, s': Side, step: Step)
    ensures SameToClient(s, s') && s.s2c == s'.s2c && !ByServer(step) ==>
      (CanStep(lines, s, step) <==> CanStep(lines, s', step))
    ensures SameToClient(s, s') && !ByServer(step) && !step.Receive? ==>
      (CanStep(lines, s, step) <==> CanStep(lines, s', step))
    ensures SameToServer(s, s') && s.c2s == s'.c2s && s.closed == s'.closed && ByServer(step) ==>
      (CanStep(lines, s, step) <==> CanStep(lines, s', step))
  {
  }

  /** A client step leaves the server's part alone, and on the two streams no byte is lost,
      made up or overtaken. */
  lemma ClientConserves(lines: seq<bytes>, s: Side, server: Files, step: Step)
    requires CanStep(lines, s, step) && !ByServer(step) && Move(lines, s, server, step).Moved?
    ensures var m := Move(lines, s, server, step);
      && SameToServer(s, m.side) && m.server == server
      && (!step.Transmit? ==> m.side.c2s == s.c2s) && (!step.Receive? ==> m.side.s2c == s.s2c)
      && (step.Transmit? ==> m.side.c2s + m.side.outgoing == s.c2s + s.outgoing && s.c2s < m.side.c2s)
      && (step.Receive? ==>
           && m.side.phase.Reading? && s.phase.got < m.side.phase.got
           && m.side.phase.got + m.side.s2c == s.phase.got + s.s2c)
  {
    hide Advance, Issuable, Request, Meaning, Replying, StartStage, Opened;
    match step
    case Transmit(k) =>
      assert s.c2s + s.outgoing[..k] + s.outgoing[k..] == s.c2s + s.outgoing;
    case Receive(k) =>
      assert s.phase.got + s.s2c[..k] + s.s2c[k..] == s.phase.got + s.s2c;
    case _ =>
  }

  /** So does a server step: it takes from the one stream and adds to the other. */
  lemma ServerConserves(lines: seq<bytes>, s: Side, server: Files, step: Step)
    requires CanStep(lines, s, step) && ByServer(step) && Move(lines, s, server, step).Moved?
    ensures var m := Move(lines, s, server, step);
      && SameToClient(s, m.side)
      && (step.ReadEvent? ==> |m.side.c2s| <= |s.c2s| && m.side.s2c == s.s2c)
      && (step.WriteEvent? ==> m.side.c2s == s.c2s && (!m.side.freed ==> m.side.s2c == s.s2c + s.out.Bytes()))
  {
    hide Serve;
    ServeShrinks(s.c2s, server, s.out);
  }

  /* ---------- requests on their way ---------- */

  /** The client can carry out lines `h` to `n - 1` with the files it has. */
  predicate AllIssuable(lines: seq<bytes>, h: nat, n: nat, files: Files)
    requires n <= |lines|
  {
    forall i :: h <= i < n ==> Issuable(Meaning(lines[i]), files)
  }

  /** The requests of lines `h` to `n - 1`, back to back. */
  function Requests(lines: seq<bytes>, h: nat, n: nat, files: Files): bytes
    requires h <= n <= |lines| && AllIssuable(lines, h, n, files)
    decreases n - h
  {
    if h == n then [] else Request(Meaning(lines[h]), files) + Requests(lines, h + 1, n, files)
  }

  lemma {:induction false} RequestsSnoc(lines: seq<bytes>, h: nat, n: nat, files: Files)
    requires h <= n < |lines| && AllIssuable(lines, h, n + 1, files)
    ensures Requests(lines, h, n + 1, files) == Requests(lines, h, n, files) + Request(Meaning(lines[n]), files)
    decreases n - h
  {
    hide Request, Meaning, Issuable;
    if h < n {
      RequestsSnoc(lines, h + 1, n, files);
    } else {
      assert Requests(lines, n + 1, n + 1, files) == [];
    }
  }

  /** The first line from `h` on that sends something, or `n` */
  function Oldest(lines: seq<bytes>, h: nat, n: nat): (i: nat)
    requires h <= n <= |lines|
    ensures h <= i <= n && (i < n ==> !Meaning(lines[i]).Nop?)
    decreases n - h
  {
    if h == n || !Meaning(lines[h]).Nop? then h else Oldest(lines, h + 1, n)
  }

  /** The stream begins with the oldest request, and is empty only without one. */
  lemma {:induction false} OldestFirst(lines: seq<bytes>, h: nat, n: nat, files: Files)
    requires h <= n <= |lines| && AllIssuable(lines, h, n, files)
    ensures var i := Oldest(lines, h, n);
      Requests(lines, h, n, files) == Requests(lines, i, n, files) && (Requests(lines, i, n, files) == [] <==> i == n)
    decreases n - h
  {
    hide Meaning, Issuable;
    if h < n && Meaning(lines[h]).Nop? {
      OldestFirst(lines, h + 1, n, files);
      assert Requests(lines, h, n, files) == Requests(lines, h + 1, n, files);
    } else if h < n {
      RequestNotEmpty(Meaning(lines[h]), files);
    }
  }

  lemma RequestNotEmpty(a: Action, files: Files)
    requires Issuable(a, files) && !a.Nop?
    ensures Request(a, files) != []
  {
  }

  /* ---------- the invariant ---------- */

  predicate Quiet(lines: seq<bytes>, h: nat, n: nat)
    requires h <= n <= |lines|
  {
    forall i :: h <= i < n ==> !Replying(Meaning(lines[i]))
  }

  /** Nothing is on its way to the client. */
  predicate Silent(s: Side) {
    s.s2c == [] && s.out == NO_OUT && !s.armed
  }

  /** The rest of the reply is in the two queues, and once read, leaves the client as it is
      after the served lines. */
  predicate Delivering(s: Side, t: Terminal)
    requires s.phase.Reading?
  {
    && (s.armed ==> s.out.wbuf != []) && (!s.armed ==> s.out == NO_OUT)
    && var f := Finish(s.phase.stage, s.phase.got + s.s2c + s.out.Bytes());
       f.Taken? && f.rest == [] && Conclude(s, f.value).files == t.files && Conclude(s, f.value).screen == t.screen
  }

  /** The client waits for the reply to line `next - 1`: it has not been served, or never
      will be answered, or is being delivered. */
  predicate Waiting(lines: seq<bytes>, s: Side, t: Terminal)
    requires t.done <= s.next <= |lines| && s.phase.Reading?
  {
    && s.next > 0 && Replying(Meaning(lines[s.next - 1]))
    && |s.phase.got| <= Need(s.phase.stage)
    && var a := Meaning(lines[s.next - 1]);
       if t.done < s.next || Unanswered(a) then
         && Silent(s) && s.phase == Reading(StartStage(a), [])
         && (t.done < s.next ==> Quiet(lines, t.done, s.next - 1))
         && s.files == (if t.done < s.next then Opened(a, t.files) else t.files) && s.screen == t.screen
       else Delivering(s, t)
  }

  /** With nothing to wait for, the client is as it is after the served lines: those still
      unserved do not change it. */
  predicate Resting(lines: seq<bytes>, s: Side, t: Terminal)
    requires t.done <= s.next <= |lines|
  {
    && Silent(s) && Quiet(lines, t.done, s.next)
    && (s.next > 0 ==> !Unanswered(Meaning(lines[s.next - 1])))
    && s.files == t.files && s.screen == t.screen
  }

  /** `t` is what the lines served so far come to: the server's unread stream and what the
      client still has to write are exactly the requests of the lines issued since. */
  predicate Kept(lines: seq<bytes>, s: Side, t: Terminal) {
    && t.done <= s.next <= Limit(lines)
    && AllIssuable(lines, t.done, s.next, t.files)
    && s.c2s + s.outgoing == Requests(lines, t.done, s.next, t.files)
    && (s.closed ==> s.phase.Idle? && s.next == |lines| && s.outgoing == [])
    && (s.freed ==> s.closed && t.done == s.next)
    && if s.phase.Idle? then Resting(lines, s, t) else Waiting(lines, s, t)
  }

  lemma StartKept(lines: seq<bytes>, files: Files)
    ensures Kept(lines, StartSide(files), Terminal(0, files, []))
  {
  }

  /** What the invariant says for a client that takes up its next line. */
  lemma IssueKept(lines: seq<bytes>, s: Side, t: Terminal)
    requires Kept(lines, s, t) && CanStep(lines, s, Issue) && Issuable(Meaning(lines[s.next]), s.files)
    ensures Kept(lines, Issued(s, Meaning(lines[s.next])), t)
  {
    hide Request, Requests, Limit, Meaning, Issuable, Finish, Unanswered;
    BelowLimit(lines, s.next);
    RequestsSnoc(lines, t.done, s.next, t.files);
    assert s.c2s + [] == s.c2s;
    NotWaiting(Meaning(lines[s.next]));
  }

  lemma NotWaiting(a: Action)
    ensures !Replying(a) ==> !Unanswered(a)
    ensures Replying(a) ==> Need(StartStage(a)) == HEAD_SIZE
  {
  }

  lemma TransmitKept(lines: seq<bytes>, s: Side, t: Terminal, server: Files, k: nat)
    requires Kept(lines, s, t) && CanStep(lines, s, Transmit(k))
    ensures Kept(lines, Move(lines, s, server, Transmit(k)).side, t)
  {
    hide Requests, Limit, Meaning, Issuable, Finish, Unanswered;
    assert s.c2s + s.outgoing[..k] + s.outgoing[k..] == s.c2s + s.outgoing;
  }

  lemma CloseKept(lines: seq<bytes>, s: Side, t: Terminal, server: Files)
    requires Kept(lines, s, t) && CanStep(lines, s, Close)
    ensures Kept(lines, Move(lines, s, server, Close).side, t)
  {
    hide Requests, Meaning, Issuable, Finish, Unanswered;
  }

  lemma ReceiveKept(lines: seq<bytes>, s: Side, t: Terminal, server: Files, k: nat)
    requires Kept(lines, s, t) && CanStep(lines, s, Receive(k))
    ensures Kept(lines, Move(lines, s, server, Receive(k)).side, t)
  {
    hide Requests, Limit, Meaning, Issuable, Finish, Unanswered;
    var got := s.phase.got;
    assert (got + s.s2c[..k]) + s.s2c[k..] + s.out.Bytes() == got + s.s2c + s.out.Bytes();
  }

  lemma ProceedKept(lines: seq<bytes>, s: Side, t: Terminal, server: Files)
    requires Kept(lines, s, t) && CanStep(lines, s, Proceed)
    ensures var m := Move(lines, s, server, Proceed);
      m.Moved? && m.server == server && Kept(lines, m.side, t)
  {
    hide Requests, Limit, Meaning, Issuable, Finish, Advance, Unanswered;
    var st, got, w := s.phase.stage, s.phase.got, s.s2c + s.out.Bytes();
    NotWaiting(Meaning(lines[s.next - 1]));
    assert got + w == got + s.s2c + s.out.Bytes();
    AdvanceFinishes(st, got, w);
    match Advance(st, got)
    case Overrun =>
    case Continue(st') =>
      assert [] + s.s2c + s.out.Bytes() == w;
    case Finished(result) =>
      assert w == [];
  }

  lemma WriteKept(lines: seq<bytes>, s: Side, t: Terminal, server: Files)
    requires Kept(lines, s, t) && CanStep(lines, s, WriteEvent)
    ensures Kept(lines, Move(lines, s, server, WriteEvent).side, t)
  {
    hide Requests, Limit, Meaning, Issuable, Finish, Unanswered;
    var got, w := s.phase.got, s.out.Bytes();
    assert NO_OUT.Bytes() == [];
    assert got + (s.s2c + w) + [] == got + s.s2c + w;
  }

  /** Lines that send nothing need no serving. */
  lemma NopsKept(lines: seq<bytes>, s: Side, t: Terminal)
    requires Kept(lines, s, t)
    ensures Kept(lines, s, t.(done := Oldest(lines, t.done, s.next)))
  {
    hide Requests, Limit, Meaning, Issuable, Finish, Unanswered;
    OldestFirst(lines, t.done, s.next, t.files);
    OldestQuiet(lines, t.done, s.next);
  }

  lemma {:induction false} OldestQuiet(lines: seq<bytes>, h: nat, n: nat)
    requires h <= n <= |lines|
    ensures forall i :: h <= i < Oldest(lines, h, n) ==> Meaning(lines[i]).Nop?
    decreases n - h
  {
    hide Meaning;
    if h < n && Meaning(lines[h]).Nop? {
      OldestQuiet(lines, h + 1, n);
    }
  }

  /** What serving the oldest request makes of the side */
  function ServedSide(s: Side, rest: bytes, a: Action, server: Files): Side
    requires Servable(a, server)
  {
    s.(c2s := rest, out := Reply(a, server), armed := !a.Send? && !Unanswered(a))
  }

  function WorldAt(t: Terminal, server: Files): World {
    World(t.files, server, t.screen)
  }

  function Advanced(t: Terminal, w: World): Terminal {
    Terminal(t.done + 1, w.client, w.screen)
  }

  lemma ReplyKept(lines: seq<bytes>, s: Side, t: Terminal, server: Files)
    requires Kept(lines, s, t) && t.done < s.next && Replying(Meaning(lines[t.done]))
    requires CanDo(Meaning(lines[t.done]), WorldAt(t, server))
    requires s.outgoing == []
    ensures var a := Meaning(lines[t.done]);
      s.next == t.done + 1 && Kept(lines, ServedSide(s, [], a, server), Advanced(t, Do(a, WorldAt(t, server))))
  {
    hide Request, Limit, Meaning, Issuable, Finish, Seen, Servable, Reply;
    var a := Meaning(lines[t.done]);
    var s' := ServedSide(s, [], a, server);
    if Unanswered(a) {
      UnansweredIsSilent(a, server);
    } else {
      ReplyFinishes(a, server);
      var reply := Reply(a, server).Bytes();
      assert [] + [] + reply == reply;
      ConcludeIsDo(s', a, WorldAt(t, server));
    }
  }

  lemma UnansweredIsSilent(a: Action, server: Files)
    requires Servable(a, server) && (Unanswered(a) || a.Send?)
    ensures Reply(a, server) == NO_OUT
  {
  }

  lemma ConcludeIsDo(s: Side, a: Action, w: World)
    requires CanDo(a, w) && Replying(a) && !Unanswered(a)
    requires s.files == Opened(a, w.client) && s.screen == w.screen
    ensures var c := Conclude(s, ResultOf(a, w.server)); c.files == Do(a, w).client && c.screen == Do(a, w).screen
  {
    if a.Recv? {
      var n := w.server[ServerPath(Seen(a.name).value)];
      assert w.client[a.name := []][a.name := n] == w.client[a.name := n];
    }
  }

  lemma SendKept(lines: seq<bytes>, s: Side, t: Terminal, server: Files, rest: bytes)
    requires Kept(lines, s, t) && t.done < s.next && Meaning(lines[t.done]).Send?
    requires CanDo(Meaning(lines[t.done]), WorldAt(t, server))
    requires rest + s.outgoing == Requests(lines, t.done + 1, s.next, t.files)
    ensures var a := Meaning(lines[t.done]);
      Kept(lines, ServedSide(s, rest, a, server), Advanced(t, Do(a, WorldAt(t, server))))
  {
    hide Request, Requests, Limit, Meaning, Issuable, Finish, Seen, Servable, Reply;
    var a := Meaning(lines[t.done]);
    UnansweredIsSilent(a, server);
  }

  /** The readable handler, with a request to read, serves exactly the oldest one: it leaves
      the stream at the next, and takes server and client a line further. */
  lemma ServeKept(lines: seq<bytes>, s: Side, t: Terminal, server: Files)
    requires Kept(lines, s, t) && CanStep(lines, s, ReadEvent) && s.c2s != []
    requires t.done < s.next && !Meaning(lines[t.done]).Nop? && CanDo(Meaning(lines[t.done]), WorldAt(t, server))
    ensures var a, w := Meaning(lines[t.done]), WorldAt(t, server);
      var m := Move(lines, s, server, ReadEvent);
      m.Moved? && m.server == Do(a, w).server && Kept(lines, m.side, Advanced(t, Do(a, w)))
  {
    hide Request, Limit, Meaning, Issuable, Servable, Finish, Serve, Seen, Reply, Arrived, Do;
    var a, w, rest := Meaning(lines[t.done]), WorldAt(t, server), Requests(lines, t.done + 1, s.next, t.files);
    assert s.c2s + s.outgoing == Request(a, t.files) + rest;
    ServeRequest(a, w, rest);
    ServeArrived(s.c2s, s.outgoing, server, s.out);
    var r := Serve(s.c2s, server, s.out).rest;
    assert r + s.outgoing == rest;
    assert Move(lines, s, server, ReadEvent) == Moved(ServedSide(s, r, a, server), Do(a, w).server);
    if Replying(a) {
      LastIsWaited(lines, s, t);
      ReplyKept(lines, s, t, server);
    } else {
      OnlySends(a, w);
      SendKept(lines, s, t, server, r);
    }
  }

  lemma OnlySends(a: Action, w: World)
    requires CanDo(a, w) && !a.Nop? && !Replying(a)
    ensures a.Send?
  {
  }

  lemma LastIsWaited(lines: seq<bytes>, s: Side, t: Terminal)
    requires Kept(lines, s, t) && t.done < s.next && Replying(Meaning(lines[t.done]))
    ensures s.next == t.done + 1 && Requests(lines, t.done + 1, s.next, t.files) == []
  {
    hide Request, Limit, Meaning, Issuable, Finish;
  }

  /** With everything served and the client gone, the readable handler frees the connection. */
  lemma DropKept(lines: seq<bytes>, s: Side, t: Terminal, server: Files)
    requires Kept(lines, s, t) && CanStep(lines, s, ReadEvent) && s.c2s == [] && t.done == s.next
    ensures var m := Move(lines, s, server, ReadEvent);
      m.Moved? && m.server == server && m.side.freed && Kept(lines, m.side, t)
  {
    hide Requests, Limit, Meaning, Issuable, Finish, Unanswered, Quiet;
    NothingToServe(server, s.out);
  }

  lemma NothingToServe(files: Files, out: Out)
    ensures Serve([], files, out) == Drop
  {
  }

  /* ---------- who can move ---------- */

  /** The end of a side: the server has let it go, or the client waits for the reply to a
      download that was rejected, and nothing is on its way. */
  predicate Over(lines: seq<bytes>, s: Side) {
    && s.outgoing == [] && s.c2s == [] && Silent(s)
    && (s.freed || (s.phase.Reading? && 0 < s.next <= |lines| && Unanswered(Meaning(lines[s.next - 1]))))
  }

  /** Nothing is under way: the client is ready for its next line, or waits in vain. */
  predicate AtRest(lines: seq<bytes>, s: Side) {
    && s.outgoing == [] && s.c2s == [] && Silent(s)
    && (s.phase.Idle? || (0 < s.next <= |lines| && Unanswered(Meaning(lines[s.next - 1]))))
  }

  /** What is under way can go on without a new line. */
  lemma Settling(lines: seq<bytes>, s: Side, t: Terminal, server: Files) returns (step: Step)
    requires Kept(lines, s, t) && !AtRest(lines, s)
    requires var i := Oldest(lines, t.done, s.next);
      i < s.next ==> CanDo(Meaning(lines[i]), WorldAt(t, server))
    ensures CanStep(lines, s, step) && !step.Issue? && !step.Close?
  {
    hide Requests, Limit, Meaning, Issuable, Servable, Finish, Arrived, Need, CanDo, Kept, AtRest;
    ReadingBasics(lines, s, t);
    if s.outgoing != [] {
      step := Transmit(1);
    } else if s.c2s != [] {
      step := ReadEvent;
      WholeRequests(lines, s, t, server);
    } else {
      MustDeliver(lines, s, t);
      step := if |s.phase.got| == Need(s.phase.stage) then Proceed else if s.s2c != [] then Receive(1) else WriteEvent;
    }
  }

  /** With no request under way, a side that is not at rest has a reply to deliver. */
  lemma MustDeliver(lines: seq<bytes>, s: Side, t: Terminal)
    requires Kept(lines, s, t) && !AtRest(lines, s) && s.outgoing == [] && s.c2s == []
    ensures s.phase.Reading? && (|s.phase.got| == Need(s.phase.stage) || s.s2c != [] || s.armed)
  {
    hide Limit, Meaning, Issuable, Finish, Unanswered, Request;
    OldestFirst(lines, t.done, s.next, t.files);
    OldestQuiet(lines, t.done, s.next);
    if s.phase.Reading? && s.s2c == [] && !s.armed && |s.phase.got| < Need(s.phase.stage) {
      var got := s.phase.got;
      assert NO_OUT.Bytes() == [] && got + [] + [] == got;
      ShortIsBroken(s.phase.stage, got);
    }
  }

  /** Until that end is reached, one of the two can move. */
  lemma Progress(lines: seq<bytes>, s: Side, t: Terminal, server: Files) returns (step: Step)
    requires Kept(lines, s, t) && !Over(lines, s)
    requires var i := Oldest(lines, t.done, s.next);
      i < s.next ==> CanDo(Meaning(lines[i]), WorldAt(t, server))
    ensures CanStep(lines, s, step)
  {
    hide Meaning, Issuable, Servable, Finish, Arrived, CanDo, Kept;
    if !AtRest(lines, s) {
      step := Settling(lines, s, t, server);
    } else if s.closed {
      step := ReadEvent;
    } else {
      RestingIsIdle(lines, s, t);
      step := if s.next < |lines| then Issue else Close;
    }
  }

  lemma RestingIsIdle(lines: seq<bytes>, s: Side, t: Terminal)
    requires Kept(lines, s, t) && AtRest(lines, s) && !Over(lines, s)
    ensures s.phase.Idle?
  {
    hide Requests, Limit, Meaning, Issuable, Finish, Unanswered;
  }

  lemma ReadingBasics(lines: seq<bytes>, s: Side, t: Terminal)
    requires Kept(lines, s, t)
    ensures s.phase.Reading? ==> |s.phase.got| <= Need(s.phase.stage) && !s.freed
    ensures s.freed ==> s.c2s == []
  {
    hide Limit, Meaning, Issuable, Finish, Unanswered;
    if s.phase.Reading? { NotWaiting(Meaning(lines[s.next - 1])); }
  }

  /** With nothing left to write, the server's stream is empty or starts with a whole
      request. */
  lemma WholeRequests(lines: seq<bytes>, s: Side, t: Terminal, server: Files)
    requires Kept(lines, s, t) && s.outgoing == []
    requires var i := Oldest(lines, t.done, s.next);
      i < s.next ==> CanDo(Meaning(lines[i]), WorldAt(t, server))
    ensures s.c2s != [] ==> Arrived(s.c2s)
  {
    hide Limit, Meaning, Issuable, Servable, Finish, Arrived, Request;
    var i := Oldest(lines, t.done, s.next);
    OldestFirst(lines, t.done, s.next, t.files);
    assert s.c2s + [] == s.c2s;
    if i < s.next {
      var rest := Requests(lines, i + 1, s.next, t.files);
      RequestArrives(Meaning(lines[i]), WorldAt(t, server), rest);
      assert s.c2s == Request(Meaning(lines[i]), t.files) + rest;
    }
  }

  /** A side that can move no more has carried out all its lines, with the client as they
      leave it. The connection is freed exactly if no download was rejected. */
  lemma OverIsDone(lines: seq<bytes>, s: Side, t: Terminal)
    requires Kept(lines, s, t) && Over(lines, s)
    ensures Oldest(lines, t.done, s.next) == s.next == Limit(lines)
    ensures t.done == s.next ==> s.files == t.files && s.screen == t.screen
    ensures s.freed <==> !Stranded(lines)
  {
    hide Limit, Meaning, Issuable, Finish, Unanswered, Request;
    LimitIs(lines);
    OldestFirst(lines, t.done, s.next, t.files);
  }

  /* ---------- every step brings the end nearer ---------- */

  datatype Rank = Rank(
    ends: nat, lines: nat, unserved: nat, unwritten: nat, armed: nat, unread: nat, reply: (nat, nat, nat))

  function Bit(b: bool): nat { if b then 1 else 0 }

  function SideRank(lines: seq<bytes>, s: Side): Rank {
    Rank(Bit(!s.closed) + Bit(!s.freed), if s.next <= |lines| then |lines| - s.next else 0,
         |s.c2s| + |s.outgoing|, |s.outgoing|, Bit(s.armed), |s.s2c|, ReplyRank(s.phase))
  }

  predicate Below(a: Rank, b: Rank) {
    a.ends < b.ends || (a.ends == b.ends && (
    a.lines < b.lines || (a.lines == b.lines && (
    a.unserved < b.unserved || (a.unserved == b.unserved && (
    a.unwritten < b.unwritten || (a.unwritten == b.unwritten && (
    a.armed < b.armed || (a.armed == b.armed && (
    a.unread < b.unread || (a.unread == b.unread && ReplyBelow(a.reply, b.reply))))))))))))
  }

  lemma ServeShrinks(inbound: bytes, files: Files, out: Out)
    ensures match Serve(inbound, files, out)
      case Served(rest, _, _, _) => |rest| < |inbound|
      case _ => true
  {
    match TakeRequest(inbound)
    case NoRequest =>
    case Unclear =>
    case Requested(_, rest) =>
      assert |rest| < |inbound|;
      if TakeInteger(rest).Taken? {
        TakeFramesShrinks(TakeInteger(rest).rest, TakeInteger(rest).value, SERVER_CAPACITY);
      }
  }

  lemma {:induction false} TakeFramesShrinks(s: bytes, num: nat, capacity: nat)
    ensures match TakeFrames(s, num, capacity)
      case Broken => true
      case Taken(_, rest) => |rest| <= |s|
    decreases num
  {
    if num > 0 {
      match TakeFrame(s, capacity)
      case Broken =>
      case Taken(q, rest) => TakeFramesShrinks(rest, num - 1, capacity);
    }
  }

  lemma ProceedDescends(lines: seq<bytes>, s: Side, server: Files)
    requires CanStep(lines, s, Proceed) && Move(lines, s, server, Proceed).Moved?
    ensures Below(SideRank(lines, Move(lines, s, server, Proceed).side), SideRank(lines, s))
  {
    hide Advance, ReplyRank;
    AdvanceDescends(s.phase.stage, s.phase.got);
  }

  lemma ReadEventDescends(lines: seq<bytes>, s: Side, server: Files)
    requires CanStep(lines, s, ReadEvent) && Move(lines, s, server, ReadEvent).Moved?
    ensures Below(SideRank(lines, Move(lines, s, server, ReadEvent).side), SideRank(lines, s))
  {
    hide Serve, ReplyRank;
    ServeShrinks(s.c2s, server, s.out);
  }

  lemma StepDescends(lines: seq<bytes>, s: Side, server: Files, step: Step)
    requires CanStep(lines, s, step) && Move(lines, s, server, step).Moved?
    ensures Below(SideRank(lines, Move(lines, s, server, step).side), SideRank(lines, s))
  {
    hide Request, Issuable, Meaning, ReplyRank, Serve, Advance;
    match step
    case Issue =>
    case Transmit(_) =>
    case Close =>
    case Receive(_) => SameRank(s.phase, Move(lines, s, server, step).side.phase);
    case Proceed => ProceedDescends(lines, s, server);
    case ReadEvent => ReadEventDescends(lines, s, server);
    case WriteEvent =>
  }
}
