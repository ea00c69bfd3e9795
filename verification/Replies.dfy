/** The client's reading of a reply, step by step under any pattern of short reads, and all
    at once as a function of the stream. */
module Replies {
  import opened Bytes
  import opened Buffers
  import opened Framing
  import opened Protocol

  /** What the package being read is for. `more`: data packages expected after this one. */
  datatype Purpose =
    | Pong
    | Count(name: bytes)
    | Data(name: bytes, more: nat, sofar: bytes)

  /** The `anetRead` in progress: a package's header, or its payload. */
  datatype Stage = Head(purpose: Purpose) | Body(purpose: Purpose, length: nat)

  datatype Phase = Idle | Reading(stage: Stage, got: bytes)

  datatype Result = Shown(text: bytes) | Stored(name: bytes, content: bytes)

  function Need(st: Stage): nat {
    match st
    case Head(_) => HEAD_SIZE
    case Body(_, length) => length
  }

  function Capacity(u: Purpose): nat {
    if u.Count? then HEAD_SIZE else CLIENT_CAPACITY
  }

  datatype Next = Overrun | Continue(stage: Stage) | Finished(result: Result)

  /** The client's next move once the current read is complete. */
  function Advance(st: Stage, got: bytes): Next {
    match st
    case Head(u) =>
      if DecodeLe(got) > Capacity(u) then Overrun else Continue(Body(u, DecodeLe(got)))
    case Body(Pong, _) => Finished(Shown(CStr(got)))
    case Body(Count(name), _) =>
      if DecodeLe(got) == 0 then Finished(Stored(name, []))
      else Continue(Head(Data(name, DecodeLe(got) - 1, [])))
    case Body(Data(name, more, sofar), _) =>
      if got == [] then Finished(Stored(name, sofar))
      else if more == 0 then Finished(Stored(name, sofar + got))
      else Continue(Head(Data(name, more - 1, sofar + got)))
  }

  /** The result of reading on from a given stage when the rest of the stream, the bytes
      already read for this stage included, is `w`. */
  function Finish(st: Stage, w: bytes): Taken<Result> {
    match st
    case Head(u) => if |w| < HEAD_SIZE then Broken else FinishBody(u, DecodeLe(w[..HEAD_SIZE]), w[HEAD_SIZE..])
    case Body(u, length) => FinishBody(u, length, w)
  }

  function FinishBody(u: Purpose, length: nat, w: bytes): Taken<Result> {
    if length > Capacity(u) || length > |w| then Broken else
    var p, w' := w[..length], w[length..];
    match u
    case Pong => Taken(Shown(CStr(p)), w')
    case Count(name) => Store(name, [], TakeFrames(w', DecodeLe(p), CLIENT_CAPACITY))
    case Data(name, more, sofar) =>
      if p == [] then Taken(Stored(name, sofar), w')
      else Store(name, sofar + p, TakeFrames(w', more, CLIENT_CAPACITY))
  }

  function Store(name: bytes, sofar: bytes, t: Taken<bytes>): Taken<Result> {
    match t
    case Broken => Broken
    case Taken(file, rest) => Taken(Stored(name, sofar + file), rest)
  }

  /** Completing a read changes neither the result nor what is left of the stream. */
  lemma AdvanceFinishes(st: Stage, got: bytes, w: bytes)
    requires |got| == Need(st) && Finish(st, got + w).Taken?
    ensures match Advance(st, got)
      case Overrun => false
      case Continue(st') => Finish(st', w) == Finish(st, got + w)
      case Finished(result) => Finish(st, got + w) == Taken(result, w)
  {
    assert (got + w)[..|got|] == got && (got + w)[|got|..] == w;
    var none: bytes := [];
    match st
    case Head(u) =>
    case Body(Pong, _) =>
    case Body(Count(name), length) =>
      if DecodeLe(got) > 0 { DataFinishes(name, DecodeLe(got) - 1, [], w); }
      assert none + none == none;
    case Body(Data(name, more, sofar), _) =>
      if got != [] && more > 0 { DataFinishes(name, more - 1, sofar + got, w); }
      assert sofar + got + none == sofar + got;
  }

  lemma DataFinishes(name: bytes, more: nat, sofar: bytes, w: bytes)
    ensures Finish(Head(Data(name, more, sofar)), w)
         == Store(name, sofar, TakeFrames(w, more + 1, CLIENT_CAPACITY))
  {
    match TakeFrame(w, CLIENT_CAPACITY)
    case Broken =>
    case Taken(p, rest) =>
      assert rest == w[HEAD_SIZE..][|p|..] && p == w[HEAD_SIZE..][..|p|];
      if p == [] {
        assert sofar + [] == sofar;
      } else if TakeFrames(rest, more, CLIENT_CAPACITY).Taken? {
        var file := TakeFrames(rest, more, CLIENT_CAPACITY).value;
        assert sofar + (p + file) == sofar + p + file;
      }
  }

  /* ---------- replies from their start ---------- */

  predicate Replying(a: Action) { a.Ping? || a.Recv? }

  /** The client begins to wait for a reply. */
  function StartStage(a: Action): Stage
    requires Replying(a)
  {
    if a.Ping? then Head(Pong) else Head(Count(a.name))
  }

  function ResultOf(a: Action, server: Files): Result
    requires Replying(a) && Servable(a, server) && !Unanswered(a)
  {
    match a
    case Ping => Shown(PONG)
    case Recv(name) => Stored(name, server[ServerPath(Seen(name).value)])
  }

  /** The reply to an action, read from its start, yields the result and nothing more. */
  lemma ReplyFinishes(a: Action, server: Files)
    requires Replying(a) && Servable(a, server) && !Unanswered(a)
    ensures Reply(a, server).wbuf != []
    ensures Finish(StartStage(a), Reply(a, server).Bytes()) == Taken(ResultOf(a, server), [])
  {
    hide Seen, Frame, Chunks, FrameList, Finish, FileStream, TakeFile, Flat;
    match a
    case Ping =>
      PongFinishes();
    case Recv(name) =>
      var file := server[ServerPath(Seen(name).value)];
      ReplyIsFileStream(a, server);
      FileRoundTrip(file, [], CLIENT_CAPACITY);
      assert FileStream(file) + [] == FileStream(file);
      DownloadTakes(name, FileStream(file));
  }

  lemma PongFinishes()
    ensures Out(Frame(PONG), []).Bytes() == Frame(PONG)
    ensures Finish(Head(Pong), Frame(PONG)) == Taken(Shown(PONG), [])
  {
    hide Frame, TakeFrame, Finish;
    assert Frame(PONG) + [] == Frame(PONG);
    TakeFrameOfFrame(PONG, [], CLIENT_CAPACITY);
    CStrOfToken(PONG);
    PingTakes(Frame(PONG));
  }

  /** Reading a reply from its start, in terms of whole packages and files. */
  lemma PingTakes(w: bytes)
    ensures Finish(Head(Pong), w) == match TakeFrame(w, CLIENT_CAPACITY)
      case Broken => Broken
      case Taken(p, rest) => Taken(Shown(CStr(p)), rest)
  {
    BodyOfFrame(w, CLIENT_CAPACITY);
  }

  lemma DownloadTakes(name: bytes, w: bytes)
    ensures Finish(Head(Count(name)), w) == match TakeFile(w, CLIENT_CAPACITY)
      case Broken => Broken
      case Taken(file, rest) => Taken(Stored(name, file), rest)
  {
    BodyOfFrame(w, HEAD_SIZE);
    if TakeFile(w, CLIENT_CAPACITY).Taken? {
      var file := TakeFile(w, CLIENT_CAPACITY).value;
      assert [] + file == file;
    }
  }

  lemma BodyOfFrame(w: bytes, capacity: nat)
    ensures var t := TakeFrame(w, capacity);
      t.Taken? ==> var n := DecodeLe(w[..HEAD_SIZE]);
        n <= |w[HEAD_SIZE..]| && t.value == w[HEAD_SIZE..][..n] && t.rest == w[HEAD_SIZE..][n..]
  {
  }

  lemma ShortIsBroken(st: Stage, got: bytes)
    requires |got| < Need(st)
    ensures Finish(st, got) == Broken
  {
  }

  /* ---------- how far a reply is from its end ---------- */

  /** How far the client is from the end of the reply it is reading. */
  function ReplyRank(ph: Phase): (nat, nat, nat) {
    match ph
    case Idle => (0, 0, 0)
    case Reading(st, _) =>
      (if st.purpose.Data? then 0 else 1,
       if st.purpose.Data? then st.purpose.more + 1 else 0,
       if st.Head? then 2 else 1)
  }

  /** Lexicographic order */
  predicate ReplyBelow(a: (nat, nat, nat), b: (nat, nat, nat)) {
    a.0 < b.0 || (a.0 == b.0 && (a.1 < b.1 || (a.1 == b.1 && a.2 < b.2)))
  }

  lemma AdvanceDescends(st: Stage, got: bytes)
    ensures match Advance(st, got)
      case Continue(st') => ReplyBelow(ReplyRank(Reading(st', [])), ReplyRank(Reading(st, got)))
      case _ => ReplyBelow(ReplyRank(Idle), ReplyRank(Reading(st, got)))
  {
    hide DecodeLe, CStr;
  }

  lemma SameRank(a: Phase, b: Phase)
    requires a.Reading? && b.Reading? && a.stage == b.stage
    ensures ReplyRank(a) == ReplyRank(b)
  {
  }
}
