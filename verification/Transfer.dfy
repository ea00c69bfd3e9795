/** The pieces of file transfer both programs contain: stdio files, the feof loop that
    packs a file into buffers, and the integer package. */
module Transfer {
  import opened Bytes
  import opened Buffers
  import opened Framing
  import opened Sockets
  import opened Protocol

  /** A file opened for reading. The end-of-file flag is set only by a read that asks for
      more than is left. */
  class InFile {
    const content: bytes
    var pos: nat
    var eof: bool

    ghost predicate Valid()
      reads this
    {
      pos <= |content|
    }

    constructor (content: bytes)
      ensures Valid() && this.content == content && pos == 0 && !eof
    {
      this.content := content;
      pos := 0;
      eof := false;
    }

    method Fread(buf: array<byte>, at: nat, n: nat) returns (k: nat)
      requires Valid() && at + n <= buf.Length
      modifies this, buf
      ensures Valid()
      ensures k == Min(n, |content| - old(pos)) && pos == old(pos) + k
      ensures eof <==> old(eof) || n > |content| - old(pos)
      ensures buf[at..at + k] == content[old(pos)..pos]
      ensures forall i :: 0 <= i < buf.Length && !(at <= i < at + k) ==> buf[i] == old(buf[i])
    {
      k := Min(n, |content| - pos);
      forall i | 0 <= i < k {
        buf[at + i] := content[pos + i];
      }
      if n > |content| - pos { eof := true; }
      pos := pos + k;
    }
  }

  /** A directory of files; writing goes through `fopen(path, "w+")` and `fwrite`. */
  class FileSystem {
    var files: Files

    constructor (files: Files)
      ensures this.files == files
    {
      this.files := files;
    }

    method Create(path: bytes)
      modifies this
      ensures files == old(files)[path := []]
    {
      files := files[path := []];
    }

    method Append(path: bytes, data: bytes)
      requires path in files
      modifies this
      ensures files == old(files)[path := old(files)[path] + data]
    {
      files := files[path := files[path] + data];
    }
  }

  /** A buffer filled with one package and unread. */
  ghost predicate Holds(b: Buffer, package: bytes)
    reads b, b.buff
  {
    b.Valid() && b.readIdx == 0 && b.Readable() == package
  }

  ghost predicate HoldsAll(list: seq<Buffer>, packages: seq<bytes>)
    reads list, set b | b in list :: b.buff
  {
    |list| == |packages| && forall i :: 0 <= i < |list| ==> Holds(list[i], packages[i])
  }

  /** One round of the feof loop: a fresh buffer with the next chunk as a package. */
  method PackOne(f: InFile) returns (b: Buffer, ghost chunk: bytes)
    requires f.Valid() && !f.eof
    modifies f
    ensures f.Valid()
    ensures fresh(b) && fresh(b.buff) && Holds(b, Frame(chunk)) && b.Terminated()
    ensures f.pos == old(f.pos) + |chunk| && chunk == f.content[old(f.pos)..f.pos]
    ensures f.eof ==> |chunk| < CHUNK && f.pos == |f.content|
    ensures !f.eof ==> |chunk| == CHUNK
  {
    b := new Buffer();
    var n := f.Fread(b.buff, HEAD_SIZE, b.size - HEAD_SIZE - 1);
    chunk := b.buff[HEAD_SIZE..HEAD_SIZE + n];
    ghost var tail := b.buff[HEAD_SIZE..];
    assert chunk == tail[..n];
    b.CopyIn(0, Le64(n));
    assert b.buff[HEAD_SIZE..] == tail;
    b.writeIdx := n + HEAD_SIZE;
    b.buff[b.writeIdx] := NUL;
    assert b.buff[..HEAD_SIZE] == Le64(n);
    assert b.buff[HEAD_SIZE..b.writeIdx] == tail[..n];
    assert b.buff[..b.writeIdx] == b.buff[..HEAD_SIZE] + b.buff[HEAD_SIZE..b.writeIdx];
  }

  lemma ChunksOfTail(chunk: bytes, tail: bytes)
    requires |chunk| == CHUNK
    ensures Chunks(chunk + tail) == [chunk] + Chunks(tail)
  {
    assert (chunk + tail)[..CHUNK] == chunk && (chunk + tail)[CHUNK..] == tail;
  }

  lemma ShortChunk(chunk: bytes)
    requires |chunk| < CHUNK
    ensures Chunks(chunk) == [chunk]
  {
  }

  lemma {:induction false} FrameListSnoc(ps: seq<bytes>, p: bytes)
    ensures FrameList(ps + [p]) == FrameList(ps) + [Frame(p)]
  {
    if ps == [] {
      assert [p][1..] == [];
    } else {
      assert (ps + [p])[1..] == ps[1..] + [p];
      FrameListSnoc(ps[1..], p);
    }
  }

  /** The packages made so far and those still to come are the file's. */
  ghost predicate Packed(f: InFile, done: seq<bytes>)
    reads f
  {
    && f.Valid()
    && Chunks(f.content) == done + if f.eof then [] else Chunks(f.content[f.pos..])
  }

  lemma PackedMore(content: bytes, done: seq<bytes>, at: nat, chunk: bytes, eof: bool)
    requires at + |chunk| <= |content| && chunk == content[at..at + |chunk|]
    requires Chunks(content) == done + Chunks(content[at..])
    requires if eof then |chunk| < CHUNK && at + |chunk| == |content| else |chunk| == CHUNK
    ensures Chunks(content) == (done + [chunk]) + if eof then [] else Chunks(content[at + |chunk|..])
  {
    hide Chunks;
    var tail := content[at + |chunk|..];
    assert content[at..] == chunk + tail;
    if eof {
      assert chunk + tail == chunk;
      ShortChunk(chunk);
      Regroup(done, [chunk], []);
    } else {
      ChunksOfTail(chunk, tail);
      Regroup(done, [chunk], Chunks(tail));
    }
  }

  lemma Regroup(a: seq<bytes>, b: seq<bytes>, c: seq<bytes>)
    ensures a + (b + c) == (a + b) + c
    ensures b + [] == b && (a + b) + [] == a + b
  {
  }

  /** The feof loop: the whole file as a list of packages, ending with a short one. */
  method PackFile(f: InFile) returns (list: seq<Buffer>)
    requires f.Valid() && f.pos == 0 && !f.eof
    modifies f
    ensures forall b :: b in list ==> fresh(b) && fresh(b.buff)
    ensures HoldsAll(list, FrameList(Chunks(f.content))) && |list| == |Chunks(f.content)|
  {
    hide Chunks, FrameList, Frame, Holds, HoldsAll;
    list := [];
    ghost var done: seq<bytes> := [];
    assert f.content[0..] == f.content;
    HoldsNone();
    while !f.eof
      invariant Packed(f, done)
      invariant forall b :: b in list ==> fresh(b) && fresh(b.buff)
      invariant HoldsAll(list, FrameList(done))
      decreases !f.eof, |f.content| - f.pos
    {
      ghost var at := f.pos;
      var b; ghost var chunk;
      b, chunk := PackOne(f);
      PackedMore(f.content, done, at, chunk, f.eof);
      HoldsOneMore(list, done, b, chunk);
      list := list + [b];
      done := done + [chunk];
    }
    assert done + [] == done;
    HoldsLength(list, done);
  }

  lemma HoldsNone()
    ensures HoldsAll([], FrameList([]))
  {
  }

  lemma HoldsOneMore(list: seq<Buffer>, done: seq<bytes>, b: Buffer, chunk: bytes)
    requires HoldsAll(list, FrameList(done)) && Holds(b, Frame(chunk))
    ensures HoldsAll(list + [b], FrameList(done + [chunk]))
  {
    FrameListSnoc(done, chunk);
  }

  lemma HoldsLength(list: seq<Buffer>, done: seq<bytes>)
    requires HoldsAll(list, FrameList(done))
    ensures |list| == |done|
  {
    FrameListLength(done);
  }

  lemma {:induction false} DecodePadded(p: bytes, k: nat)
    ensures DecodeLe(p + Zeros(k)) == DecodeLe(p)
    decreases |p|, k
  {
    if p == [] {
      assert p + Zeros(k) == Zeros(k);
      if k > 0 {
        assert Zeros(k)[1..] == p + Zeros(k - 1);
        DecodePadded(p, k - 1);
      }
    } else {
      assert (p + Zeros(k))[1..] == p[1..] + Zeros(k);
      DecodePadded(p[1..], k);
    }
  }

  /** The header of the next package. `ok` is false when the stream ends inside it: the
      original then goes on with an indeterminate length. */
  method RecvHead(sock: Socket) returns (ok: bool, length: nat)
    requires sock.reliable
    modifies sock
    ensures sock.outbound == old(sock.outbound)
    ensures ok <==> |old(sock.inbound)| >= HEAD_SIZE
    ensures ok ==> length == DecodeLe(old(sock.inbound)[..HEAD_SIZE])
    ensures ok ==> sock.inbound == old(sock.inbound)[HEAD_SIZE..]
  {
    var head := new byte[HEAD_SIZE];
    var n := AnetRead(sock, head, 0, HEAD_SIZE);
    ok := n == HEAD_SIZE;
    length := DecodeLe(head[..]);
    assert head[..] == head[0..0 + HEAD_SIZE];
  }

  /** `recv_integer`, the same on both sides: any pattern of short reads. */
  method RecvInteger(sock: Socket) returns (ok: bool, n: nat)
    requires sock.reliable
    modifies sock
    ensures sock.outbound == old(sock.outbound)
    ensures match TakeInteger(old(sock.inbound))
      case Broken => !ok
      case Taken(value, rest) => ok && n == value && sock.inbound == rest
  {
    n := 0;
    ghost var all := sock.inbound;
    var length;
    ok, length := RecvHead(sock);
    if !ok || length > HEAD_SIZE {
      ok := false;
      return;
    }
    var value := new byte[HEAD_SIZE](i => NUL);
    var got := AnetRead(sock, value, 0, length);
    ok := got == length;
    n := DecodeLe(value[..]);
    if ok {
      ghost var p := all[HEAD_SIZE..HEAD_SIZE + length];
      assert all[HEAD_SIZE..][..length] == p && all[HEAD_SIZE..][length..] == all[HEAD_SIZE + length..];
      assert value[..] == p + Zeros(HEAD_SIZE - length) by {
        assert value[0..0 + length] == p;
      }
      DecodePadded(p, HEAD_SIZE - length);
    }
  }

  /** The buffer list, one `anetWrite` each */
  method WriteAll(sock: Socket, list: seq<Buffer>, ghost packages: seq<bytes>)
    requires sock.reliable && HoldsAll(list, packages)
    modifies sock
    ensures sock.inbound == old(sock.inbound)
    ensures sock.outbound == old(sock.outbound) + Flat(packages)
  {
    for i := 0 to |list|
      invariant sock.inbound == old(sock.inbound)
      invariant sock.outbound == old(sock.outbound) + Flat(packages[..i])
    {
      var b := list[i];
      assert Holds(b, packages[i]);
      var n := AnetWrite(sock, b.buff, 0, b.ReadableSize());
      FlatSnoc(packages[..i], packages[i]);
      assert packages[..i + 1] == packages[..i] + [packages[i]];
    }
    assert packages[..|list|] == packages;
  }

  lemma {:induction false} FlatSnoc(ps: seq<bytes>, p: bytes)
    ensures Flat(ps + [p]) == Flat(ps) + p
  {
    if ps == [] {
      assert Flat([p]) == p + Flat([]);
    } else {
      assert (ps + [p])[1..] == ps[1..] + [p];
      FlatSnoc(ps[1..], p);
    }
  }

  /** The files after `got` has been written to `name` */
  function Extended(files: Files, name: bytes, got: bytes): Files
    requires name in files
  {
    files[name := files[name] + got]
  }

  lemma ExtendedNone(files: Files, name: bytes)
    requires name in files
    ensures Extended(files, name, []) == files
  {
    assert files[name] + [] == files[name];
  }

  lemma ExtendedNew(files: Files, name: bytes, got: bytes)
    ensures Extended(files[name := []], name, got) == files[name := got]
  {
    assert [] + got == got;
  }

  lemma ExtendedMore(files: Files, name: bytes, got: bytes, p: bytes)
    requires name in files
    ensures Extended(Extended(files, name, got), name, p) == Extended(files, name, got + p)
  {
    assert files[name] + got + p == files[name] + (got + p);
  }

  /** With `got` collected and `rest` to come, the whole is the two together. */
  ghost predicate StillToTake(whole: Taken<bytes>, got: bytes, rest: Taken<bytes>) {
    match rest
    case Broken => whole.Broken?
    case Taken(file, tail) => whole == Taken(got + file, tail)
  }

  lemma NothingTaken(whole: Taken<bytes>)
    ensures StillToTake(whole, [], whole)
  {
    if whole.Taken? { assert [] + whole.value == whole.value; }
  }

  lemma TakeOneMore(whole: Taken<bytes>, got: bytes, s: bytes, num: nat, capacity: nat)
    requires StillToTake(whole, got, TakeFrames(s, num, capacity))
    ensures num == 0 ==> whole == Taken(got, s)
    ensures num > 0 ==> match TakeFrame(s, capacity)
      case Broken => whole.Broken?
      case Taken(p, rest) =>
        if p == [] then whole == Taken(got, rest)
        else StillToTake(whole, got + p, TakeFrames(rest, num - 1, capacity))
  {
    assert got + [] == got;
    match TakeFrame(s, capacity)
    case Broken =>
    case Taken(p, rest) =>
      if num > 0 && p != [] && TakeFrames(rest, num - 1, capacity).Taken? {
        var file := TakeFrames(rest, num - 1, capacity).value;
        assert got + (p + file) == got + p + file;
      }
  }

  lemma {:induction false} FrameListLength(ps: seq<bytes>)
    ensures |FrameList(ps)| == |ps|
  {
    if ps != [] { FrameListLength(ps[1..]); }
  }

  ghost function UploadPackages(file: bytes): seq<bytes> {
    [Frame(Le64(|Chunks(file)|))] + FrameList(Chunks(file))
  }

  /** The packages of an upload, count first, are the file's stream. */
  lemma FileStreamPackages(file: bytes)
    ensures Flat(UploadPackages(file)) == FileStream(file)
  {
    var ps := Chunks(file);
    assert UploadPackages(file)[1..] == FrameList(ps);
    FlatFrameList(ps);
  }

  /** The buffers of an upload: the count in front, then the packed file. */
  method PackUpload(content: bytes) returns (list: seq<Buffer>)
    requires FileFits(content)
    ensures forall b :: b in list ==> fresh(b) && fresh(b.buff)
    ensures HoldsAll(list, UploadPackages(content))
  {
    hide Frame, Chunks, FrameList, Le64, Holds;
    var inputFile := new InFile(content);
    list := PackFile(inputFile);
    ChunkShape(content);
    var bn := new Buffer();
    bn.WriteInteger(|list|);
    HoldsNow(bn);
    list := [bn] + list;
  }

  lemma HoldsNow(b: Buffer)
    requires b.Valid() && b.readIdx == 0
    ensures Holds(b, b.Readable())
  {
  }
}
