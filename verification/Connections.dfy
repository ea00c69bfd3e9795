/** The server's `client_t`: one accepted connection, its buffers, and the commands run on
    it. Raw reads are complete unless the stream ends (see Sockets.Socket.FullRead). */
module Connections {
  import opened Bytes
  import opened Buffers
  import opened Arguments
  import opened Framing
  import opened Sockets
  import opened Protocol
  import opened Transfer

  lemma NothingHeld()
    ensures HoldsAll([], [])
  {
  }

  class Connection {
    const fd: nat
    const sock: Socket
    const rBuffer: Buffer
    const wBuffer: Buffer
    const arg: Arg
    var bufferList: seq<Buffer>
    /** The packages in `bufferList` */
    ghost var packages: seq<bytes>
    ghost var Repr: set<object>

    ghost predicate Valid()
      reads this, Repr
      ensures Valid() ==> this in Repr
    {
      && {this, sock, rBuffer, wBuffer, arg} <= Repr && rBuffer.buff in Repr && wBuffer.buff in Repr
      && sock.reliable
      && rBuffer != wBuffer && rBuffer.buff != wBuffer.buff
      && rBuffer.Valid() && rBuffer.size == DEFAULT_BUFF_SIZE
      && wBuffer.Valid() && wBuffer.size == DEFAULT_BUFF_SIZE
      && (wBuffer.readIdx == 0 || wBuffer.readIdx == wBuffer.writeIdx)
      && (forall b :: b in bufferList ==> b in Repr && b.buff in Repr)
      && (forall b :: b in bufferList ==> b != rBuffer && b != wBuffer)
      && (forall b :: b in bufferList ==> b.buff != rBuffer.buff && b.buff != wBuffer.buff)
      && HoldsAll(bufferList, packages)
    }

    /** The replies waiting for the writable event */
    ghost function Pending(): Out
      reads this, Repr
      requires Valid()
    {
      Out(wBuffer.Readable(), packages)
    }

    function ReplySize(): (n: nat)
      reads this, Repr
      requires Valid()
      ensures n == |Pending().wbuf|
    {
      wBuffer.ReadableSize()
    }

    constructor (fd: nat, sock: Socket)
      requires sock.reliable
      ensures Valid() && fresh(Repr - {sock})
      ensures this.fd == fd && this.sock == sock && Pending() == NO_OUT
    {
      this.fd := fd;
      this.sock := sock;
      rBuffer := new Buffer();
      wBuffer := new Buffer();
      arg := new Arg();
      bufferList := [];
      packages := [];
      new;
      Repr := {this, sock, rBuffer, rBuffer.buff, wBuffer, wBuffer.buff, arg};
    }

    /** The raw read of a header: how much of it came. */
    method ReadHead() returns (n: nat, length: nat)
      modifies sock
      ensures sock.outbound == old(sock.outbound)
      ensures n == Min(HEAD_SIZE, |old(sock.inbound)|) && sock.inbound == old(sock.inbound)[n..]
      ensures n == HEAD_SIZE ==> length == DecodeLe(old(sock.inbound)[..HEAD_SIZE])
    {
      var head := new byte[HEAD_SIZE];
      n := sock.FullRead(head, 0, HEAD_SIZE);
      length := DecodeLe(head[..]);
      assert head[..] == head[0..HEAD_SIZE];
    }

    /** The raw read of a payload into the read buffer. */
    method ReadBody(length: nat) returns (n: nat)
      requires rBuffer.Valid() && rBuffer.size == DEFAULT_BUFF_SIZE && length <= SERVER_CAPACITY
      modifies sock, rBuffer, rBuffer.buff
      ensures rBuffer.Valid() && rBuffer.size == DEFAULT_BUFF_SIZE && rBuffer.buff == old(rBuffer.buff)
      ensures sock.outbound == old(sock.outbound)
      ensures n == Min(length, |old(sock.inbound)|) && sock.inbound == old(sock.inbound)[n..]
      ensures rBuffer.readIdx == 0 && rBuffer.Readable() == old(sock.inbound)[..n] && rBuffer.Terminated()
    {
      rBuffer.Reset();
      n := sock.FullRead(rBuffer.buff, rBuffer.writeIdx, length);
      rBuffer.writeIdx := n;
      rBuffer.buff[rBuffer.writeIdx] := NUL;
    }

    /** The reads of `read_event_handler`. */
    method ReadRequest() returns (r: Requested)
      requires rBuffer.Valid() && rBuffer.size == DEFAULT_BUFF_SIZE
      modifies sock, rBuffer, rBuffer.buff
      ensures rBuffer.Valid() && rBuffer.size == DEFAULT_BUFF_SIZE && rBuffer.buff == old(rBuffer.buff)
      ensures sock.outbound == old(sock.outbound)
      ensures r == TakeRequest(old(sock.inbound))
      ensures r.Requested? ==> sock.inbound == r.rest
      ensures r.Requested? ==> rBuffer.readIdx == 0 && rBuffer.Readable() == r.text && rBuffer.Terminated()
    {
      rBuffer.Reset();
      var n, length := ReadHead();
      if n == 0 { return NoRequest; }
      if n < HEAD_SIZE || length > SERVER_CAPACITY { return Unclear; }
      var k := ReadBody(length);
      if k == 0 { return NoRequest; }
      r := Requested(rBuffer.buff[..k], sock.inbound);
    }

    /** `client_t::recv` */
    method Recv() returns (ok: bool, n: nat)
      requires rBuffer.Valid() && rBuffer.size == DEFAULT_BUFF_SIZE
      modifies sock, rBuffer, rBuffer.buff
      ensures rBuffer.Valid() && rBuffer.size == DEFAULT_BUFF_SIZE && rBuffer.buff == old(rBuffer.buff)
      ensures sock.outbound == old(sock.outbound)
      ensures match TakeFrame(old(sock.inbound), SERVER_CAPACITY)
        case Broken => !ok
        case Taken(p, rest) => ok && n == |p| && rBuffer.Readable() == p && sock.inbound == rest
      ensures var s := old(sock.inbound);
        ok <==> |s| >= 8 && DecodeLe(s[..8]) <= 1023 && |s| >= 8 + DecodeLe(s[..8])
    {
      ghost var all := sock.inbound;
      var h, length := ReadHead();
      n := 0;
      ok := h == HEAD_SIZE && length <= SERVER_CAPACITY;
      if !ok { return; }
      n := ReadBody(length);
      ok := n == length;
      if ok {
        assert all[HEAD_SIZE..][..length] == all[HEAD_SIZE..HEAD_SIZE + length];
        assert all[HEAD_SIZE..][length..] == all[HEAD_SIZE + length..];
      }
    }

    /** The receive loop of `file_send_command`: each package is appended to the file, and
        an empty one ends it early. */
    method RecvFrames(fs: FileSystem, num: nat, path: bytes) returns (ok: bool)
      requires rBuffer.Valid() && rBuffer.size == DEFAULT_BUFF_SIZE && path in fs.files
      modifies sock, rBuffer, rBuffer.buff, fs
      ensures rBuffer.Valid() && rBuffer.size == DEFAULT_BUFF_SIZE && rBuffer.buff == old(rBuffer.buff)
      ensures sock.outbound == old(sock.outbound)
      ensures match TakeFrames(old(sock.inbound), num, SERVER_CAPACITY)
        case Broken => !ok
        case Taken(file, rest) =>
          ok && sock.inbound == rest && fs.files == Extended(old(fs.files), path, file)
    {
      ghost var whole := TakeFrames(sock.inbound, num, SERVER_CAPACITY);
      ghost var got: bytes := [];
      var left := num;
      ok := true;
      ExtendedNone(fs.files, path);
      NothingTaken(whole);
      while left > 0
        invariant rBuffer.Valid() && rBuffer.size == DEFAULT_BUFF_SIZE && rBuffer.buff == old(rBuffer.buff)
        invariant sock.outbound == old(sock.outbound)
        invariant path in fs.files && fs.files == Extended(old(fs.files), path, got)
        invariant ok && StillToTake(whole, got, TakeFrames(sock.inbound, left, SERVER_CAPACITY))
      {
        ghost var before := sock.inbound;
        left := left - 1;
        var n;
        ok, n := Recv();
        TakeOneMore(whole, got, before, left + 1, SERVER_CAPACITY);
        if !ok { return; }
        if n == 0 { return; }
        ghost var p := TakeFrame(before, SERVER_CAPACITY).value;
        fs.Append(path, rBuffer.buff[rBuffer.readIdx..rBuffer.writeIdx]);
        ExtendedMore(old(fs.files), path, got, p);
        got := got + p;
      }
      TakeOneMore(whole, got, sock.inbound, 0, SERVER_CAPACITY);
    }

    /** `ping_command` */
    method Ping()
      requires Valid()
      modifies wBuffer, wBuffer.buff
      ensures Valid() && Repr == old(Repr)
      ensures Pending() == old(Pending()).(wbuf := Frame(Ascii("pong.")))
    {
      CommandWords();
      var ok := wBuffer.Write(PONG);
    }

    /** `file_send_command`: stores an upload. */
    method FileSend(fs: FileSystem, name: bytes) returns (ok: bool)
      requires Valid() && fs !in Repr
      modifies sock, rBuffer, rBuffer.buff, fs
      ensures Valid() && Repr == old(Repr) && Pending() == old(Pending())
      ensures sock.outbound == old(sock.outbound)
      ensures |name| <= 7 ==> !ok
      ensures |name| > 7 ==>
        match TakeFile(old(sock.inbound), SERVER_CAPACITY)
        case Broken => !ok
        case Taken(file, rest) =>
          ok && sock.inbound == rest && fs.files == old(fs.files)[name[7..] := file]
    {
      hide TakeFrames, Frame, HoldsAll, Holds, Extended;
      var path := ServerPath(name);
      if path == [] { return false; }
      fs.Create(path);
      var num;
      ok, num := RecvInteger(sock);
      if ok {
        ghost var taken := TakeFrames(sock.inbound, num, SERVER_CAPACITY);
        if taken.Taken? { ExtendedNew(old(fs.files), path, taken.value); }
        ok := RecvFrames(fs, num, path);
      }
    }

    /** `file_recv_command`: queues a download. */
    method FileRecv(fs: FileSystem, name: bytes) returns (ok: bool)
      requires Valid()
      modifies this, wBuffer, wBuffer.buff
      ensures Valid() && fresh(Repr - old(Repr)) && old(Repr) <= Repr
      ensures ok <==>
        |name| > 7 && name[7..] in fs.files && FileFits(fs.files[name[7..]])
      ensures ok ==>
        var ps := Chunks(fs.files[name[7..]]);
        Pending() == Out(Frame(Le64(|ps|)), FrameList(ps))
    {
      hide Frame, Chunks, FrameList, Le64, Holds, HoldsAll;
      var path := ServerPath(name);
      ok := path != [] && path in fs.files && |fs.files[path]| < SIZE_LIMIT;
      if !ok { return; }
      ghost var ps := Chunks(fs.files[path]);
      var inputFile := new InFile(fs.files[path]);
      var list := PackFile(inputFile);
      ChunkShape(fs.files[path]);
      Enqueue(list, FrameList(ps));
      CountReply(|list|);
    }

    method CountReply(n: nat)
      requires Valid() && n < SIZE_LIMIT
      modifies wBuffer, wBuffer.buff
      ensures Valid() && Repr == old(Repr)
      ensures Pending() == old(Pending()).(wbuf := Frame(Le64(n)))
    {
      hide Holds, HoldsAll;
      wBuffer.WriteInteger(n);
    }

    /** Replaces the buffer list; nobody else holds these buffers. */
    method Enqueue(list: seq<Buffer>, ghost held: seq<bytes>)
      requires Valid()
      requires HoldsAll(list, held)
      requires forall b :: b in list ==> b !in Repr && b.buff !in Repr
      modifies this
      ensures Valid() && Repr == old(Repr) + (set b | b in list :: b) + (set b | b in list :: b.buff)
      ensures Pending() == old(Pending()).(list := held) && bufferList == list
    {
      hide Holds, HoldsAll;
      bufferList, packages := list, held;
      Repr := Repr + (set b | b in list :: b) + (set b | b in list :: b.buff);
    }

    /** The writes of `write_event_handler`: the reply buffer, then the buffer list. */
    method FlushReplies()
      requires Valid() && Pending().wbuf != []
      modifies Repr
      ensures Valid() && Repr == old(Repr)
      ensures sock.inbound == old(sock.inbound)
      ensures sock.outbound == old(sock.outbound) + old(Pending().Bytes())
      ensures Pending() == NO_OUT
    {
      hide Holds, HoldsAll;
      var dataSize := wBuffer.ReadableSize();
      var n := AnetWrite(sock, wBuffer.buff, 0, dataSize);
      if n > 0 {
        wBuffer.readIdx := wBuffer.readIdx + n;
      }
      WriteAll(sock, bufferList, packages);
      bufferList, packages := [], [];
      NothingHeld();
    }

    /** `process_input_buffer`: the words of the C string in the read buffer. */
    method ProcessInput()
      requires Valid() && rBuffer.readIdx == 0 && rBuffer.Terminated()
      modifies arg
      ensures Valid() && Repr == old(Repr) && Pending() == old(Pending())
      ensures arg.argv == Tokens(CStr(rBuffer.Readable()))
    {
      hide Tokens, Holds, HoldsAll;
      CStrBeforeNul(rBuffer.buff[..], rBuffer.writeIdx);
      assert rBuffer.buff[..][..rBuffer.writeIdx] == rBuffer.Readable();
      arg.ProcessPointer(Some(CStr(rBuffer.buff[..])));
    }

    /** The readable handler up to the command's words. */
    method ReadInput() returns (r: Requested, args: seq<bytes>)
      requires Valid()
      modifies Repr
      ensures Valid() && Repr == old(Repr) && Pending() == old(Pending())
      ensures sock.outbound == old(sock.outbound)
      ensures r == TakeRequest(old(sock.inbound))
      ensures r.Requested? ==> sock.inbound == r.rest && args == Tokens(CStr(r.text))
    {
      hide Tokens, Holds, HoldsAll, TakeRequest, CStr;
      args := [];
      r := ReadRequest();
      if r.Requested? {
        ProcessInput();
        args := arg.argv;
      }
    }

    /** The table's procedure for an accepted command. */
    method RunCommand(fs: FileSystem, kind: Kind, args: seq<bytes>) returns (ok: bool)
      requires Valid() && fs !in Repr
      requires Accepted(args) == Some(kind)
      modifies Repr, fs
      ensures Valid() && fresh(Repr - old(Repr)) && old(Repr) <= Repr
      ensures sock.outbound == old(sock.outbound)
      ensures match Execute(args, old(sock.inbound), old(fs.files), old(Pending()))
        case Fault => !ok
        case Drop => false
        case Served(rest, files, out, _) => ok && sock.inbound == rest && fs.files == files && Pending() == out
    {
      hide TakeFile, Frame, Chunks, FrameList, Le64, Holds, HoldsAll;
      CommandWords();
      ok := true;
      match kind {
        case KPing => Ping();
        case KGet =>
        case KSet =>
        case KFileSend => ok := FileSend(fs, args[1]);
        case KFileRecv => ok := FileRecv(fs, args[1]);
      }
    }
  }

  lemma CStrBeforeNul(s: bytes, n: nat)
    requires n < |s| && s[n] == NUL
    ensures CStr(s) == CStr(s[..n])
  {
    FirstNulIs(s[..n], FirstNul(s));
  }
}
