/** The commands on both sides: the tables, what a request and its reply look like as
    bytes, and what the server does with the bytes it finds. */
module Protocol {
  import opened Bytes
  import opened Buffers
  import opened Arguments
  import opened ArgumentLaws
  import opened Framing

  /** File contents by path */
  type Files = map<bytes, bytes>

  const PING: bytes := [112, 105, 110, 103]                              // ping
  const GET: bytes := [103, 101, 116]                                    // get
  const SET: bytes := [115, 101, 116]                                    // set
  const FILE_SEND: bytes := [102, 105, 108, 101, 95, 115, 101, 110, 100] // file_send
  const FILE_RECV: bytes := [102, 105, 108, 101, 95, 114, 101, 99, 118]  // file_recv
  const PONG: bytes := [112, 111, 110, 103, 46]                          // pong.

  /* ---------- the command tables (client and server list the same names and arities) ---------- */

  datatype Kind = KPing | KGet | KSet | KFileSend | KFileRecv {
    function Arity(): nat {
      match this
      case KPing => 1
      case KGet => 2
      case KSet => 3
      case KFileSend => 2
      case KFileRecv => 2
    }

    /** The server arms the writable event before running the command. */
    predicate Replies() { !KFileSend? }
  }

  function Lookup(word: bytes): Option<Kind> {
    if word == PING then Some(KPing)
    else if word == GET then Some(KGet)
    else if word == SET then Some(KSet)
    else if word == FILE_SEND then Some(KFileSend)
    else if word == FILE_RECV then Some(KFileRecv)
    else None
  }

  /** Table lookup and arity check; `None` is "not found" or "arity error". */
  function Accepted(args: seq<bytes>): Option<Kind> {
    if args == [] then None else
    match Lookup(args[0])
    case None => None
    case Some(k) => if |args| == k.Arity() then Some(k) else None
  }

  lemma TableNames()
    ensures Lookup(PING) == Some(KPing) && Lookup(FILE_SEND) == Some(KFileSend) && Lookup(FILE_RECV) == Some(KFileRecv)
    ensures Plain(PING) && Plain(FILE_SEND) && Plain(FILE_RECV)
    ensures !EndsInBackslash(FILE_SEND) && !EndsInBackslash(FILE_RECV)
  {
    assert FILE_SEND[5] != FILE_RECV[5];
  }

  /** The words on the wire, letter for letter */
  lemma CommandWords()
    ensures PING == Ascii("ping") && PONG == Ascii("pong.") && GET == Ascii("get") && SET == Ascii("set")
    ensures FILE_SEND == Ascii("file_send") && FILE_RECV == Ascii("file_recv")
    ensures FILE_SEND + [SPACE] == Ascii("file_send ") && FILE_RECV + [SPACE] == Ascii("file_recv ")
  {
  }

  /** The table, by the words of a command: which are accepted, and as what. */
  lemma AcceptedExactly(args: seq<bytes>)
    ensures Accepted(args) == Some(KPing) <==> args == [Ascii("ping")]
    ensures Accepted(args) == Some(KGet) <==> |args| == 2 && args[0] == Ascii("get")
    ensures Accepted(args) == Some(KSet) <==> |args| == 3 && args[0] == Ascii("set")
    ensures Accepted(args) == Some(KFileSend) <==> |args| == 2 && args[0] == Ascii("file_send")
    ensures Accepted(args) == Some(KFileRecv) <==> |args| == 2 && args[0] == Ascii("file_recv")
  {
    hide Ascii;
    CommandWords();
    WordsDiffer();
    if |args| == 1 { assert args == [args[0]]; }
  }

  lemma WordsDiffer()
    ensures PING != GET && PING != SET && GET != SET
    ensures FILE_SEND != FILE_RECV && |FILE_SEND| == |FILE_RECV| == 9 && |PING| == 4 && |GET| == |SET| == 3
  {
    assert FILE_SEND[5] != FILE_RECV[5] && GET[0] != SET[0];
  }

  /* ---------- the server's side ---------- */

  /** Replies waiting for the writable event: the readable bytes of `_w_buffer`, and those
      of each buffer of `_buffer_list`. */
  datatype Out = Out(wbuf: bytes, list: seq<bytes>) {
    function Bytes(): bytes { wbuf + Flat(list) }
  }

  const NO_OUT := Out([], [])

  /** A command or data package must leave room for the terminator in the read buffer. */
  const SERVER_CAPACITY: nat := DEFAULT_BUFF_SIZE - 1

  /** The client reads a package straight into its read buffer and stores no terminator. */
  const CLIENT_CAPACITY: nat := DEFAULT_BUFF_SIZE

  /** The server stores a client's file under the name without its first seven characters. */
  function ServerPath(name: bytes): bytes {
    if |name| <= 7 then [] else name[7..]
  }

  /** Seven characters go, whatever they are; the rest is the path. */
  lemma PathBehindPrefix(prefix: bytes, path: bytes)
    requires |prefix| == 7
    ensures ServerPath(prefix + path) == path
  {
  }

  function FrameList(ps: seq<bytes>): seq<bytes> {
    if ps == [] then [] else [Frame(ps[0])] + FrameList(ps[1..])
  }

  lemma {:induction false} FlatFrameList(ps: seq<bytes>)
    ensures Flat(FrameList(ps)) == Frames(ps)
  {
    if ps != [] {
      assert FrameList(ps)[1..] == FrameList(ps[1..]);
      FlatFrameList(ps[1..]);
    }
  }

  /** Outcome of one readable event. `Fault`: the original's behaviour is undefined
      (truncated or oversized package, blank command, missing file). `Drop`: the client is
      deleted. */
  datatype Served =
    | Fault
    | Drop
    | Served(rest: bytes, files: Files, out: Out, arm: bool)

  function Execute(args: seq<bytes>, rest: bytes, files: Files, out: Out): Served {
    if args == [] then Fault else
    match Accepted(args)
    case None => Served(rest, files, out, false)
    case Some(KPing) => Served(rest, files, out.(wbuf := Frame(PONG)), true)
    case Some(KGet) => Served(rest, files, out, true)
    case Some(KSet) => Served(rest, files, out, true)
    case Some(KFileSend) =>
      if ServerPath(args[1]) == [] then Fault else
      (match TakeFile(rest, SERVER_CAPACITY)
       case Broken => Fault
       case Taken(file, rest') => Served(rest', files[ServerPath(args[1]) := file], out, false))
    case Some(KFileRecv) =>
      if ServerPath(args[1]) == [] || ServerPath(args[1]) !in files || !FileFits(files[ServerPath(args[1])])
      then Fault else
      var ps := Chunks(files[ServerPath(args[1])]);
      Served(rest, files, Out(Frame(Le64(|ps|)), FrameList(ps)), true)
  }

  /** The two reads at the top of the readable handler, each complete unless the stream
      ends: `NoRequest` when one of them returns 0, `Unclear` when the header is cut short
      or announces more than the read buffer holds. */
  datatype Requested = NoRequest | Unclear | Requested(text: bytes, rest: bytes)

  function TakeRequest(s: bytes): Requested {
    if s == [] then NoRequest
    else if |s| < HEAD_SIZE then Unclear
    else
      var length, s' := DecodeLe(s[..HEAD_SIZE]), s[HEAD_SIZE..];
      if length > SERVER_CAPACITY then Unclear
      else
        var n := if length <= |s'| then length else |s'|;
        if n == 0 then NoRequest else Requested(s'[..n], s'[n..])
  }

  function Serve(inbound: bytes, files: Files, out: Out): Served {
    match TakeRequest(inbound)
    case NoRequest => Drop
    case Unclear => Fault
    case Requested(text, rest) => Execute(Tokens(CStr(text)), rest, files, out)
  }

  /** The two reads by what is on the stream: a header that announces up to 1023 bytes, and
      as many of these as have come. */
  lemma TakeRequestExactly(length: nat, body: bytes)
    requires length < SIZE_LIMIT
    ensures TakeRequest(Le64(length) + body) ==
      if length > 1023 then Unclear
      else if length == 0 || body == [] then NoRequest
      else if |body| <= length then Requested(body, [])
      else Requested(body[..length], body[length..])
    ensures |body| < 8 ==> TakeRequest(body) == if body == [] then NoRequest else Unclear
  {
    hide Le64, DecodeLe;
    var s := Le64(length) + body;
    Le64RoundTrip(length);
    assert s[..HEAD_SIZE] == Le64(length) && s[HEAD_SIZE..] == body;
  }

  /** What the commands without a file, and rejected ones, come to. */
  lemma ExecuteExactly(args: seq<bytes>, rest: bytes, files: Files, out: Out)
    ensures args == [] ==> Execute(args, rest, files, out) == Fault
    ensures args == [Ascii("ping")] ==>
      Execute(args, rest, files, out) == Served(rest, files, Out(Frame(Ascii("pong.")), out.list), true)
    ensures (|args| == 2 && args[0] == Ascii("get")) || (|args| == 3 && args[0] == Ascii("set")) ==>
      Execute(args, rest, files, out) == Served(rest, files, out, true)
    ensures args != [] && args != [Ascii("ping")] && !(|args| == 3 && args[0] == Ascii("set"))
      && !(|args| == 2 && args[0] in [Ascii("get"), Ascii("file_send"), Ascii("file_recv")])
      ==> Execute(args, rest, files, out) == Served(rest, files, out, false)
  {
    hide Ascii, Accepted, Frame, TakeFile, Chunks, FrameList;
    AcceptedExactly(args);
    CommandWords();
  }

  lemma TakeRequestOfFrame(p: bytes, rest: bytes)
    requires p != [] && |p| <= SERVER_CAPACITY
    ensures TakeRequest(Frame(p) + rest) == Requested(p, rest)
  {
    hide Frame, DecodeLe;
    var s := Frame(p) + rest;
    TakeFrameOfFrame(p, rest, SERVER_CAPACITY);
    var length := DecodeLe(s[..HEAD_SIZE]);
    assert s[HEAD_SIZE..][..length] == s[HEAD_SIZE..HEAD_SIZE + length];
    assert s[HEAD_SIZE..][length..] == s[HEAD_SIZE + length..];
  }

  /** The full-read assumption for the request at the front of `s`: every byte its handler
      will ask for has arrived, the packages of an upload included. */
  predicate Arrived(s: bytes) {
    match TakeFrame(s, SERVER_CAPACITY)
    case Broken => false
    case Taken(p, rest) =>
      Accepted(Tokens(CStr(p))) == Some(KFileSend) ==> TakeFile(rest, SERVER_CAPACITY).Taken?
  }

  lemma TakeFrameMore(s: bytes, t: bytes, capacity: nat)
    requires TakeFrame(s, capacity).Taken?
    ensures TakeFrame(s + t, capacity) == Taken(TakeFrame(s, capacity).value, TakeFrame(s, capacity).rest + t)
  {
    assert (s + t)[..HEAD_SIZE] == s[..HEAD_SIZE];
    var length := DecodeLe(s[..HEAD_SIZE]);
    assert (s + t)[HEAD_SIZE..HEAD_SIZE + length] == s[HEAD_SIZE..HEAD_SIZE + length];
    assert (s + t)[HEAD_SIZE + length..] == s[HEAD_SIZE + length..] + t;
  }

  lemma {:induction false} TakeFramesMore(s: bytes, t: bytes, num: nat, capacity: nat)
    requires TakeFrames(s, num, capacity).Taken?
    ensures TakeFrames(s + t, num, capacity)
         == Taken(TakeFrames(s, num, capacity).value, TakeFrames(s, num, capacity).rest + t)
    decreases num
  {
    hide TakeFrame;
    if num > 0 {
      TakeFrameMore(s, t, capacity);
      var f := TakeFrame(s, capacity);
      if f.value != [] { TakeFramesMore(f.rest, t, num - 1, capacity); }
    }
  }

  lemma TakeFileMore(s: bytes, t: bytes, capacity: nat)
    requires TakeFile(s, capacity).Taken?
    ensures TakeFile(s + t, capacity) == Taken(TakeFile(s, capacity).value, TakeFile(s, capacity).rest + t)
  {
    hide TakeFrame, TakeFrames;
    TakeFrameMore(s, t, HEAD_SIZE);
    TakeFramesMore(TakeInteger(s).rest, t, TakeInteger(s).value, capacity);
  }

  lemma TakeRequestIsFrame(s: bytes)
    requires TakeFrame(s, SERVER_CAPACITY).Taken?
    ensures var f := TakeFrame(s, SERVER_CAPACITY);
      TakeRequest(s) == if f.value == [] then NoRequest else Requested(f.value, f.rest)
  {
    var length := DecodeLe(s[..HEAD_SIZE]);
    assert s[HEAD_SIZE..][..length] == s[HEAD_SIZE..HEAD_SIZE + length];
    assert s[HEAD_SIZE..][length..] == s[HEAD_SIZE + length..];
  }

  /** Once a request has arrived whole, what follows on the stream makes no difference. */
  lemma ServeArrived(s: bytes, t: bytes, files: Files, out: Out)
    requires Arrived(s)
    ensures match Serve(s, files, out)
      case Served(rest, files', out', arm) => Serve(s + t, files, out) == Served(rest + t, files', out', arm)
      case other => Serve(s + t, files, out) == other
  {
    hide TakeFrame, TakeRequest, TakeFile, Accepted, Tokens, Chunks, FrameList, Frame;
    TakeFrameMore(s, t, SERVER_CAPACITY);
    TakeRequestIsFrame(s);
    TakeRequestIsFrame(s + t);
    var f := TakeFrame(s, SERVER_CAPACITY);
    if Accepted(Tokens(CStr(f.value))) == Some(KFileSend) {
      TakeFileMore(f.rest, t, SERVER_CAPACITY);
    }
  }

  /* ---------- the client's side ---------- */

  /** What a command line makes the client do. A blank line has no first word to look up:
      `argv(0)` of an empty vector has no defined effect. */
  datatype Action = Blank | Nop | Ping | Send(name: bytes) | Recv(name: bytes)

  function Meaning(line: bytes): Action {
    var args := Tokens(line);
    if args == [] then Blank else
    match Accepted(args)
    case Some(KPing) => Ping
    case Some(KFileSend) => Send(args[1])
    case Some(KFileRecv) => Recv(args[1])
    case _ => Nop
  }

  lemma MeaningNames(line: bytes)
    ensures var a := Meaning(line); a.Send? || a.Recv? ==> IsToken(a.name)
  {
    TokensAreTokens(line);
  }

  /** What a line means, by its words: a command with the right number of arguments, nothing
      to send, or nothing at all. */
  lemma MeaningExactly(line: bytes)
    ensures var args, a := Tokens(line), Meaning(line);
      && (a.Blank? <==> args == [])
      && (a.Ping? <==> args == [Ascii("ping")])
      && (a.Send? <==> |args| == 2 && args[0] == Ascii("file_send"))
      && (a.Recv? <==> |args| == 2 && args[0] == Ascii("file_recv"))
      && (a.Send? || a.Recv? ==> a.name == args[1])
  {
    hide Tokens, Accepted, Ascii;
    AcceptedExactly(Tokens(line));
  }

  /** What to type: "ping", "file_send name" and "file_recv name", with a backslash before
      each space of the name. */
  lemma MeaningOfTyped(name: bytes)
    requires IsToken(name)
    ensures Meaning(Ascii("ping")) == Ping
    ensures Meaning(Ascii("file_send ") + Escape(name)) == Send(name)
    ensures Meaning(Ascii("file_recv ") + Escape(name)) == Recv(name)
  {
    hide Tokens, Accepted, Ascii, Escape, Meaning, Lookup;
    CommandWords();
    TableNames();
    PlainIsSoleToken(PING);
    MeaningExactly(PING);
    EscapedIsSoleToken(name);
    FirstOfTwoWords(FILE_SEND, Escape(name));
    FirstOfTwoWords(FILE_RECV, Escape(name));
    MeaningExactly(TwoWords(FILE_SEND, Escape(name)));
    MeaningExactly(TwoWords(FILE_RECV, Escape(name)));
  }

  /** The command the client sends for a file action: "file_send name", "file_recv name". */
  function CommandText(a: Action): bytes {
    match a
    case Blank => []
    case Nop => []
    case Ping => PING
    case Send(name) => TwoWords(FILE_SEND, name)
    case Recv(name) => TwoWords(FILE_RECV, name)
  }

  /** The rebuilt command fits a fresh buffer together with its header and terminator. */
  predicate CommandFits(name: bytes) {
    |TwoWords(FILE_SEND, name)| < DEFAULT_BUFF_SIZE - HEAD_SIZE
  }

  /** The name the server reads where the client, which sends names unescaped, has `name`.
      `None`: it reads no word or several, and rejects the command for its arity. */
  function Seen(name: bytes): Option<bytes> {
    if |Tokens(name)| == 1 then Some(Tokens(name)[0]) else None
  }

  lemma SeenExactly(name: bytes)
    requires IsToken(name)
    ensures Seen(name) == Some(name) <==> SPACE !in name
    ensures SPACE in name && Seen(name).Some? ==> |Seen(name).value| < |name|
  {
    if SPACE !in name {
      PlainIsSoleToken(name);
    } else if Seen(name).Some? {
      assert Tokens(name) == [Seen(name).value];
      SoleTokenShorter(name, Seen(name).value);
    }
  }

  /** A download the server rejects: the client waits for a reply that never comes. */
  predicate Unanswered(a: Action) {
    a.Recv? && Seen(a.name).None?
  }

  /** The two machines as one sees them between commands. */
  datatype World = World(client: Files, server: Files, screen: seq<bytes>)

  /** The client can carry it out: the command fits, and the file to send exists. */
  predicate Issuable(a: Action, client: Files) {
    match a
    case Blank => false
    case Nop => true
    case Ping => true
    case Send(name) => CommandFits(name) && name in client && FileFits(client[name])
    case Recv(name) => CommandFits(name)
  }

  /** The server knows what to do with it: an upload names one path, and the file a
      download asks for exists. */
  predicate Servable(a: Action, server: Files) {
    match a
    case Blank => false
    case Nop => true
    case Ping => true
    case Send(name) => IsToken(name) && Seen(name).Some? && ServerPath(Seen(name).value) != []
    case Recv(name) =>
      IsToken(name) && match Seen(name)
        case None => true
        case Some(n) => ServerPath(n) != [] && ServerPath(n) in server && FileFits(server[ServerPath(n)])
  }

  predicate CanDo(a: Action, w: World) {
    Issuable(a, w.client) && Servable(a, w.server)
  }

  /** What an action comes to, with no protocol in sight. Where the name has no space, the
      server's name for it is the client's. A download the server rejects leaves the file
      it was to go into empty. */
  function Do(a: Action, w: World): World
    requires CanDo(a, w)
  {
    match a
    case Blank => w
    case Nop => w
    case Ping => w.(screen := w.screen + [PONG])
    case Send(name) => w.(server := w.server[ServerPath(Seen(name).value) := w.client[name]])
    case Recv(name) =>
      w.(client := w.client[name := match Seen(name)
        case None => []
        case Some(n) => w.server[ServerPath(n)]])
  }

  function Request(a: Action, client: Files): bytes
    requires Issuable(a, client)
  {
    match a
    case Blank => []
    case Nop => []
    case Ping => Frame(PING)
    case Send(name) => Frame(CommandText(a)) + FileStream(client[name])
    case Recv(name) => Frame(CommandText(a))
  }

  /** The replies the server has ready after serving the request. */
  function Reply(a: Action, server: Files): Out
    requires Servable(a, server)
  {
    match a
    case Blank => NO_OUT
    case Nop => NO_OUT
    case Ping => Out(Frame(PONG), [])
    case Send(name) => NO_OUT
    case Recv(name) =>
      match Seen(name)
      case None => NO_OUT
      case Some(n) =>
        var ps := Chunks(server[ServerPath(n)]);
        Out(Frame(Le64(|ps|)), FrameList(ps))
  }

  lemma ReplyIsFileStream(a: Action, server: Files)
    requires Servable(a, server) && a.Recv? && !Unanswered(a)
    ensures Reply(a, server).Bytes() == FileStream(server[ServerPath(Seen(a.name).value)])
  {
    FlatFrameList(Chunks(server[ServerPath(Seen(a.name).value)]));
  }

  /** Requests, byte for byte. */
  lemma RequestExactly(a: Action, client: Files)
    requires Issuable(a, client)
    ensures match a
      case Nop => Request(a, client) == []
      case Ping => Request(a, client) == Frame(Ascii("ping"))
      case Send(name) => Request(a, client) == Frame(Ascii("file_send ") + name) + FileStream(client[name])
      case Recv(name) => Request(a, client) == Frame(Ascii("file_recv ") + name)
      case Blank => false
  {
    hide Frame, FileStream, Ascii;
    CommandWords();
  }

  /** What the client can carry out: a command short enough, and a file that is there. */
  lemma IssuableExactly(a: Action, client: Files)
    ensures Issuable(a, client) <==> match a
      case Blank => false
      case Nop => true
      case Ping => true
      case Send(name) => |name| < 1006 && name in client && |client[name]| < SIZE_LIMIT
      case Recv(name) => |name| < 1006
  {
  }

  /** The intended effect of a file command for a name of seven characters and a path. */
  lemma DoExactly(prefix: bytes, path: bytes, w: World)
    requires |prefix| == 7 && Plain(prefix + path)
    ensures var name := prefix + path;
      && (CanDo(Send(name), w) ==> Do(Send(name), w) == w.(server := w.server[path := w.client[name]]))
      && (CanDo(Recv(name), w) ==>
           path in w.server && Do(Recv(name), w) == w.(client := w.client[name := w.server[path]]))
      && Do(Ping, w) == w.(screen := w.screen + [Ascii("pong.")])
  {
    hide Ascii;
    CommandWords();
    PathBehindPrefix(prefix, path);
    SeenExactly(prefix + path);
  }

  /** A download the server does not answer empties its file. */
  lemma UnansweredEmpties(name: bytes, w: World)
    requires CanDo(Recv(name), w) && |Tokens(name)| != 1
    ensures Unanswered(Recv(name)) && Do(Recv(name), w) == w.(client := w.client[name := []])
  {
    hide Tokens;
  }

  lemma CStrOfToken(s: bytes)
    requires NulFree(s)
    ensures CStr(s) == s
  {
    FirstNulIs(s, |s|);
  }

  lemma TwoWordsNulFree(command: bytes, name: bytes)
    requires IsToken(command) && IsToken(name)
    ensures NulFree(TwoWords(command, name))
  {
  }

  /** What the server makes of a rebuilt file command, whatever the name. */
  lemma ServeText(command: bytes, name: bytes, rest: bytes, files: Files, out: Out)
    requires Plain(command) && !EndsInBackslash(command) && IsToken(name)
    requires |TwoWords(command, name)| <= SERVER_CAPACITY
    ensures Serve(Frame(TwoWords(command, name)) + rest, files, out)
         == Execute([command] + Tokens(name), rest, files, out)
  {
    hide Tokens, Frame, TakeRequest, Execute;
    var text := TwoWords(command, name);
    TakeRequestOfFrame(text, rest);
    TwoWordsNulFree(command, name);
    CStrOfToken(text);
    FirstOfTwoWords(command, name);
  }

  lemma AcceptedSeen(command: bytes, name: bytes, k: Kind)
    requires Lookup(command) == Some(k) && k.Arity() == 2
    ensures Accepted([command] + Tokens(name)) == if Seen(name).Some? then Some(k) else None
    ensures Seen(name).Some? ==> [command] + Tokens(name) == [command, Seen(name).value]
    ensures [command] + Tokens(name) != []
  {
    assert ([command] + Tokens(name))[0] == command;
  }

  /** An upload under any name: rejected with its data left to be read as commands, or
      stored under the path of the name the server reads, or undefined if that is empty. */
  lemma UploadOutcome(name: bytes, file: bytes, rest: bytes, files: Files, out: Out)
    requires IsToken(name) && CommandFits(name) && FileFits(file)
    ensures Serve(Frame(TwoWords(FILE_SEND, name)) + (FileStream(file) + rest), files, out) ==
      match Seen(name)
      case None => Served(FileStream(file) + rest, files, out, false)
      case Some(n) =>
        if ServerPath(n) == [] then Fault else Served(rest, files[ServerPath(n) := file], out, false)
  {
    hide Tokens, Frame, FileStream, TakeFile, Lookup, Serve, Accepted, Seen;
    TableNames();
    ServeText(FILE_SEND, name, FileStream(file) + rest, files, out);
    AcceptedSeen(FILE_SEND, name, KFileSend);
    FileRoundTrip(file, rest, SERVER_CAPACITY);
  }

  /** A download under any name: rejected with nothing queued or armed, or the file at the
      path of the name the server reads, or undefined if there is none. */
  lemma DownloadOutcome(name: bytes, rest: bytes, files: Files, out: Out)
    requires IsToken(name) && CommandFits(name)
    ensures Serve(Frame(TwoWords(FILE_RECV, name)) + rest, files, out) ==
      match Seen(name)
      case None => Served(rest, files, out, false)
      case Some(n) =>
        if !Servable(Recv(name), files) then Fault
        else Served(rest, files, Reply(Recv(name), files), true)
  {
    hide Tokens, Frame, Lookup, Serve, Accepted, Seen, Chunks, FrameList, Le64;
    TableNames();
    ServeText(FILE_RECV, name, rest, files, out);
    AcceptedSeen(FILE_RECV, name, KFileRecv);
  }

  /** An upload reaches the place its name says, with the stream left at the next command,
      exactly when the name has no space in it and outlasts the seven removed characters. */
  lemma UploadReachesExactly(name: bytes, file: bytes, rest: bytes, out: Out)
    requires IsToken(name) && CommandFits(name) && FileFits(file)
    ensures
      (forall files: Files ::
        Serve(Frame(TwoWords(FILE_SEND, name)) + (FileStream(file) + rest), files, out)
          == Served(rest, files[ServerPath(name) := file], out, false))
      <==> SPACE !in name && |name| > 7
  {
    hide Serve, Frame, FileStream;
    SeenExactly(name);
    if SPACE !in name && |name| > 7 {
      forall files: Files
        ensures Serve(Frame(TwoWords(FILE_SEND, name)) + (FileStream(file) + rest), files, out)
             == Served(rest, files[ServerPath(name) := file], out, false)
      {
        UploadOutcome(name, file, rest, files, out);
      }
    } else {
      var none: Files := map[];
      UploadOutcome(name, file, rest, none, out);
      assert ServerPath(name) !in none;
      if Seen(name).Some? && ServerPath(Seen(name).value) != [] {
        var got := none[ServerPath(Seen(name).value) := file];
        assert |ServerPath(Seen(name).value)| < |ServerPath(name)|;
        assert ServerPath(name) !in got;
      }
      assert Serve(Frame(TwoWords(FILE_SEND, name)) + (FileStream(file) + rest), none, out)
          != Served(rest, none[ServerPath(name) := file], out, false);
    }
  }

  /** The upload of a space-free name, seven characters and a path, lands at that path. */
  lemma UploadPlaced(prefix: bytes, path: bytes, file: bytes, rest: bytes, files: Files, out: Out)
    requires |prefix| == 7 && path != [] && Plain(prefix + path) && |path| < 999 && FileFits(file)
    ensures Serve(Frame(Ascii("file_send ") + (prefix + path)) + (FileStream(file) + rest), files, out)
         == Served(rest, files[path := file], out, false)
  {
    hide Serve, Frame, FileStream, Ascii, Seen, Tokens;
    CommandWords();
    PathBehindPrefix(prefix, path);
    SeenExactly(prefix + path);
    UploadOutcome(prefix + path, file, rest, files, out);
  }

  /** The download of such a name is the stream of the file at that path; without one, or
      with an empty path, it has no defined effect. */
  lemma DownloadFound(prefix: bytes, path: bytes, rest: bytes, files: Files, out: Out)
    requires |prefix| == 7 && Plain(prefix + path) && |path| < 999
    requires path in files ==> FileFits(files[path])
    ensures var r := Serve(Frame(Ascii("file_recv ") + (prefix + path)) + rest, files, out);
      if path == [] || path !in files then r == Fault
      else r.Served? && r.rest == rest && r.files == files && r.arm && r.out.Bytes() == FileStream(files[path])
  {
    hide Serve, Frame, FileStream, Ascii, Seen, Tokens, Chunks;
    CommandWords();
    PathBehindPrefix(prefix, path);
    SeenExactly(prefix + path);
    DownloadOutcome(prefix + path, rest, files, out);
    if path != [] && path in files {
      ReplyIsFileStream(Recv(prefix + path), files);
    }
  }

  /** The requests the server comes through, with the stream left at the next one, are
      exactly the servable ones. */
  lemma ServableExactly(a: Action, client: Files, rest: bytes, files: Files)
    requires Issuable(a, client) && !a.Nop? && (a.Send? || a.Recv? ==> IsToken(a.name))
    ensures Servable(a, files) <==>
      exists files', out', arm :: Serve(Request(a, client) + rest, files, NO_OUT) == Served(rest, files', out', arm)
  {
    hide Serve, Frame, FileStream, Seen, Reply;
    if Servable(a, files) {
      ServeRequest(a, World(client, files, []), rest);
    } else if a.Send? {
      var file := client[a.name];
      assert Request(a, client) + rest == Frame(CommandText(a)) + (FileStream(file) + rest);
      UploadOutcome(a.name, file, rest, files, NO_OUT);
      assert |FileStream(file) + rest| > |rest| by { StreamNotEmpty(file); }
    } else if a.Recv? {
      DownloadOutcome(a.name, rest, files, NO_OUT);
    }
  }

  lemma StreamNotEmpty(file: bytes)
    ensures FileStream(file) != []
  {
  }

  /** The server reads a request off the front of its stream, acts as specified, queues the
      reply, and stops right behind. */
  lemma ServeRequest(a: Action, w: World, rest: bytes)
    requires CanDo(a, w) && !a.Nop?
    ensures Serve(Request(a, w.client) + rest, w.server, NO_OUT)
         == Served(rest, Do(a, w).server, Reply(a, w.server), !a.Send? && !Unanswered(a))
  {
    hide Tokens, Frame, FileStream, TakeFile, TakeRequest, Chunks, FrameList, Le64, Seen;
    match a
    case Ping =>
      TableNames();
      TakeRequestOfFrame(PING, rest);
      TokensOfPing();
    case Send(name) =>
      var file := w.client[name];
      assert Request(a, w.client) + rest == Frame(CommandText(a)) + (FileStream(file) + rest);
      UploadOutcome(name, file, rest, w.server, NO_OUT);
    case Recv(name) =>
      DownloadOutcome(name, rest, w.server, NO_OUT);
  }

  /** A request is whole once its bytes are there. */
  lemma RequestArrives(a: Action, w: World, rest: bytes)
    requires CanDo(a, w) && !a.Nop?
    ensures Arrived(Request(a, w.client) + rest)
  {
    hide Tokens, Frame, FileStream, TakeFile, TakeFrame, Accepted, Seen;
    match a
    case Ping =>
      TakeFrameOfFrame(PING, rest, SERVER_CAPACITY);
      TokensOfPing();
    case Send(name) =>
      var file := w.client[name];
      assert Request(a, w.client) + rest == Frame(CommandText(a)) + (FileStream(file) + rest);
      TakeFrameOfFrame(CommandText(a), FileStream(file) + rest, SERVER_CAPACITY);
      FileRoundTrip(file, rest, SERVER_CAPACITY);
    case Recv(name) =>
      var text := CommandText(a);
      TakeFrameOfFrame(text, rest, SERVER_CAPACITY);
      TableNames();
      TwoWordsNulFree(FILE_RECV, name);
      CStrOfToken(text);
      FirstOfTwoWords(FILE_RECV, name);
      AcceptedSeen(FILE_RECV, name, KFileRecv);
  }

  lemma TokensOfPing()
    ensures CStr(PING) == PING && Tokens(PING) == [PING] && Accepted([PING]) == Some(KPing)
  {
    hide Tokens;
    CStrOfToken(PING);
    TableNames();
    PlainIsSoleToken(PING);
  }

  /* ---------- lines as client_main reads them ---------- */

  lemma {:induction false} TokensShort(s: bytes)
    ensures forall i :: 0 <= i < |Tokens(s)| ==> |Tokens(s)[i]| <= |s|
    decreases |s|
  {
    var t := SkipSpaces(s);
    if t != [] && t[0] != NUL {
      WordWeight(t);
      TokensShort(Word(t).rest);
    }
  }

  /** Any command typed within the line limit of 127 characters fits a fresh buffer, so no
      write of a run ever grows one, and the names in it are tokens. */
  lemma TypedCommandFits(line: bytes)
    requires |line| <= 127
    ensures var a := Meaning(line);
      && WriteDomain(1024, |CommandText(a)|)
      && SizeAfterWrite(1024, |CommandText(a)|) == 1024
      && (a.Send? || a.Recv? ==> IsToken(a.name) && CommandFits(a.name))
  {
    hide Tokens;
    TokensAreTokens(line);
    TokensShort(line);
  }
}
