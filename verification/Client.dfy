/** The client program's object, command by command. */
module Client {
  import opened Bytes
  import opened Buffers
  import opened Arguments
  import opened ArgumentLaws
  import opened Framing
  import opened Sockets
  import opened Protocol
  import opened Transfer
  import opened Replies

  class Client {
    const sock: Socket
    const fs: FileSystem
    const rBuffer: Buffer
    const wBuffer: Buffer
    const arg: Arg
    var bufferList: seq<Buffer>
    /** What `flush_2_client` printed */
    var screen: seq<bytes>

    ghost predicate Valid()
      reads this, rBuffer, wBuffer
    {
      && sock.reliable
      && rBuffer != wBuffer && rBuffer.buff != wBuffer.buff
      && rBuffer.Valid() && rBuffer.size == DEFAULT_BUFF_SIZE
      && wBuffer.Valid() && wBuffer.size == DEFAULT_BUFF_SIZE
    }

    ghost function Repr(): set<object>
      reads this, rBuffer, wBuffer
    {
      {this, sock, fs, rBuffer, rBuffer.buff, wBuffer, wBuffer.buff, arg}
    }

    constructor (sock: Socket, fs: FileSystem)
      requires sock.reliable
      ensures Valid() && bufferList == [] && screen == []
      ensures this.sock == sock && this.fs == fs
      ensures fresh(Repr() - {sock, fs})
    {
      this.sock := sock;
      this.fs := fs;
      rBuffer := new Buffer();
      wBuffer := new Buffer();
      arg := new Arg();
      bufferList := [];
      screen := [];
    }

    /** Writes out the command buffer and the buffer list, and empties both. */
    method Flush2Server(ghost packages: seq<bytes>)
      requires Valid() && wBuffer.readIdx == 0
      requires HoldsAll(bufferList, packages)
      modifies this`bufferList, wBuffer, sock
      ensures Valid() && wBuffer.buff == old(wBuffer.buff) && bufferList == []
      ensures sock.inbound == old(sock.inbound)
      ensures sock.outbound == old(sock.outbound) + old(wBuffer.Readable()) + Flat(packages)
    {
      var n := AnetWrite(sock, wBuffer.buff, 0, wBuffer.ReadableSize());
      WriteAll(sock, bufferList, packages);
      wBuffer.Reset();
      bufferList := [];
    }

    method Send(s: bytes)
      requires Valid() && bufferList == []
      requires |s| < DEFAULT_BUFF_SIZE - HEAD_SIZE
      modifies this`bufferList, wBuffer, wBuffer.buff, sock
      ensures Valid() && wBuffer.buff == old(wBuffer.buff) && bufferList == []
      ensures sock.inbound == old(sock.inbound)
      ensures sock.outbound == old(sock.outbound) + Frame(s)
    {
      var ok := wBuffer.Write(s);
      Flush2Server([]);
      assert sock.outbound == old(sock.outbound) + Frame(s) + [];
    }

    /** Receives one package under any pattern of short reads. `ok` is false when the
        stream ends inside it or it overruns the buffer. No terminator is stored: there is
        one only if the byte behind was NUL before. */
    method Recv() returns (ok: bool, n: nat)
      requires Valid()
      modifies rBuffer, rBuffer.buff, sock
      ensures Valid() && rBuffer.buff == old(rBuffer.buff)
      ensures sock.outbound == old(sock.outbound)
      ensures match TakeFrame(old(sock.inbound), CLIENT_CAPACITY)
        case Broken => !ok
        case Taken(p, rest) => ok && n == |p| && rBuffer.Readable() == p && sock.inbound == rest
      ensures var s := old(sock.inbound);
        ok <==> |s| >= 8 && DecodeLe(s[..8]) <= 1024 && |s| >= 8 + DecodeLe(s[..8])
      ensures ok ==> (rBuffer.Terminated() <==> n < rBuffer.size && old(rBuffer.buff[..])[n] == NUL)
    {
      n := 0;
      ghost var all := sock.inbound;
      var length;
      ok, length := RecvHead(sock);
      if !ok || length > rBuffer.size {
        ok := false;
        return;
      }
      var ret := AnetRead(sock, rBuffer.buff, 0, length);
      rBuffer.readIdx := 0;
      rBuffer.writeIdx := ret;
      n := ret;
      ok := ret == length;
      if ok {
        assert all[HEAD_SIZE..][..length] == all[HEAD_SIZE..HEAD_SIZE + length];
        assert all[HEAD_SIZE..][length..] == all[HEAD_SIZE + length..];
      }
    }

    /** The receive loop of `file_recv`: each package is appended to the file, and an empty
        one ends it early. */
    method RecvFrames(num: nat, name: bytes) returns (ok: bool)
      requires Valid() && name in fs.files
      modifies rBuffer, rBuffer.buff, sock, fs
      ensures Valid() && rBuffer.buff == old(rBuffer.buff)
      ensures sock.outbound == old(sock.outbound)
      ensures match TakeFrames(old(sock.inbound), num, CLIENT_CAPACITY)
        case Broken => !ok
        case Taken(file, rest) =>
          && ok && sock.inbound == rest
          && fs.files == Extended(old(fs.files), name, file)
    {
      ghost var whole := TakeFrames(sock.inbound, num, CLIENT_CAPACITY);
      ghost var got: bytes := [];
      var left := num;
      ok := true;
      ExtendedNone(fs.files, name);
      NothingTaken(whole);
      while left > 0
        invariant Valid() && rBuffer.buff == old(rBuffer.buff)
        invariant sock.outbound == old(sock.outbound)
        invariant name in fs.files && fs.files == Extended(old(fs.files), name, got)
        invariant ok && StillToTake(whole, got, TakeFrames(sock.inbound, left, CLIENT_CAPACITY))
      {
        ghost var before := sock.inbound;
        left := left - 1;
        var n;
        ok, n := Recv();
        TakeOneMore(whole, got, before, left + 1, CLIENT_CAPACITY);
        if !ok { return; }
        if n == 0 { return; }
        ghost var p := TakeFrame(before, CLIENT_CAPACITY).value;
        fs.Append(name, rBuffer.buff[rBuffer.readIdx..rBuffer.writeIdx]);
        ExtendedMore(old(fs.files), name, got, p);
        got := got + p;
      }
      TakeOneMore(whole, got, sock.inbound, 0, CLIENT_CAPACITY);
    }

    /** Receives a file into `name`, which it creates or empties. */
    method FileRecv(name: bytes) returns (ok: bool)
      requires Valid() && bufferList == []
      requires |TwoWords(FILE_RECV, name)| < DEFAULT_BUFF_SIZE - HEAD_SIZE
      modifies this`bufferList, rBuffer, rBuffer.buff, wBuffer, wBuffer.buff, sock, fs
      ensures Valid() && rBuffer.buff == old(rBuffer.buff) && wBuffer.buff == old(wBuffer.buff) && bufferList == []
      ensures sock.outbound == old(sock.outbound) + Frame(TwoWords(FILE_RECV, name))
      ensures match TakeFile(old(sock.inbound), CLIENT_CAPACITY)
        case Broken => !ok
        case Taken(file, rest) => ok && sock.inbound == rest && fs.files == old(fs.files)[name := file]
      ensures TakeInteger(old(sock.inbound)).Broken? ==> fs.files == old(fs.files)[name := []]
    {
      hide TakeFrames, Frame;
      Send(TwoWords(FILE_RECV, name));
      fs.Create(name);
      var num;
      ok, num := RecvInteger(sock);
      if ok {
        ghost var rest := TakeFrames(sock.inbound, num, CLIENT_CAPACITY);
        if rest.Taken? { ExtendedNew(old(fs.files), name, rest.value); }
        ok := RecvFrames(num, name);
      }
    }

    /** Sends a file: the command, the count of packages, the packages. */
    method FileSend(name: bytes)
      requires Valid() && bufferList == []
      requires |TwoWords(FILE_SEND, name)| < DEFAULT_BUFF_SIZE - HEAD_SIZE
      requires name in fs.files && FileFits(fs.files[name])
      modifies this`bufferList, wBuffer, wBuffer.buff, sock
      ensures Valid() && wBuffer.buff == old(wBuffer.buff) && bufferList == []
      ensures sock.inbound == old(sock.inbound)
      ensures sock.outbound == old(sock.outbound) + (Frame(TwoWords(FILE_SEND, name)) + FileStream(fs.files[name]))
    {
      hide Frame, Chunks, UploadPackages, FileStream, Flat, Holds, HoldsAll, TwoWords;
      hide HeaderAfterWrite, SizeAfterWrite;
      var ok := wBuffer.Write(TwoWords(FILE_SEND, name));
      bufferList := PackUpload(fs.files[name]);
      FileStreamPackages(fs.files[name]);
      Flush2Server(UploadPackages(fs.files[name]));
    }

    /** `ret` is -1 for a rejected line, and 0 otherwise; `ok` is false when a reply was
        not understood. A blank line has no defined effect, and is not issuable. */
    method Process(line: bytes) returns (ok: bool, ret: int)
      requires Valid()
      requires NulFree(line)
      requires Issuable(Meaning(line), fs.files)
      modifies this, rBuffer, rBuffer.buff, wBuffer, wBuffer.buff, arg, sock, fs
      ensures Valid() && rBuffer.buff == old(rBuffer.buff) && wBuffer.buff == old(wBuffer.buff) && bufferList == []
      ensures var args := Tokens(line);
        && (args == [Ascii("ping")] ==>
             && sock.outbound == old(sock.outbound) + Frame(Ascii("ping")) && fs.files == old(fs.files)
             && match TakeFrame(old(sock.inbound), 1024)
                case Broken => !ok
                case Taken(p, rest) => ok && sock.inbound == rest && screen == old(screen) + [CStr(p)])
        && (|args| == 2 && args[0] == Ascii("file_send") ==>
             && ok && fs.files == old(fs.files) && args[1] in fs.files
             && screen == old(screen) && sock.inbound == old(sock.inbound)
             && sock.outbound == old(sock.outbound)
                + (Frame(Ascii("file_send ") + args[1]) + FileStream(fs.files[args[1]])))
        && (|args| == 2 && args[0] == Ascii("file_recv") ==>
             && sock.outbound == old(sock.outbound) + Frame(Ascii("file_recv ") + args[1])
             && (match TakeFile(old(sock.inbound), 1024)
                 case Broken => !ok
                 case Taken(file, rest) =>
                   ok && sock.inbound == rest && fs.files == old(fs.files)[args[1] := file] && screen == old(screen))
             && (TakeInteger(old(sock.inbound)).Broken? ==> fs.files == old(fs.files)[args[1] := []]))
        && (args != [Ascii("ping")] && !(|args| == 2 && args[0] in [Ascii("file_send"), Ascii("file_recv")]) ==>
             && ok && fs.files == old(fs.files) && screen == old(screen)
             && sock.inbound == old(sock.inbound) && sock.outbound == old(sock.outbound)
             && (ret == -1 <==> !(|args| == 2 && args[0] == Ascii("get")) && !(|args| == 3 && args[0] == Ascii("set"))))
      ensures ret == -1 || ret == 0
      ensures ret == -1 <==> Accepted(Tokens(line)).None?
      ensures sock.outbound == old(sock.outbound) + Request(Meaning(line), old(fs.files))
      ensures !Replying(Meaning(line)) ==>
        ok && sock.inbound == old(sock.inbound) && screen == old(screen) && fs.files == old(fs.files)
      ensures Replying(Meaning(line)) ==>
        match Finish(StartStage(Meaning(line)), old(sock.inbound))
        case Broken => !ok
        case Taken(Shown(text), rest) =>
          ok && sock.inbound == rest && screen == old(screen) + [text] && fs.files == old(fs.files)
        case Taken(Stored(name, content), rest) =>
          ok && sock.inbound == rest && screen == old(screen) && fs.files == old(fs.files)[name := content]
    {
      hide Frame, Finish, TakeFrame, TakeFile, Tokens, FileStream, Accepted, Ascii;
      CommandWords();
      AcceptedExactly(Tokens(line));
      ok, ret := true, 0;
      rBuffer.Reset();
      bufferList := [];
      arg.ProcessPointer(Some(line));
      match Accepted(arg.argv) {
        case None =>
          ret := -1;
        case Some(KPing) =>
          PingTakes(sock.inbound);
          Send(PING);
          var n;
          ok, n := Recv();
          if ok {
            screen := screen + [CStr(rBuffer.buff[rBuffer.readIdx..rBuffer.writeIdx])];
          }
        case Some(KGet) =>
        case Some(KSet) =>
        case Some(KFileSend) =>
          FileSend(arg.argv[1]);
        case Some(KFileRecv) =>
          DownloadTakes(arg.argv[1], sock.inbound);
          ok := FileRecv(arg.argv[1]);
      }
    }
  }
}
