/** Files as sequences of packages: what the sender emits and what a receiver takes. */
module Framing {
  import opened Bytes
  import opened Buffers

  /** `package_size()` of a fresh buffer: the most file data one package carries. */
  const CHUNK: nat := DEFAULT_BUFF_SIZE - HEAD_SIZE - 1

  /* ---------- sending ---------- */

  /** The payloads a file is read in: only a short read, possibly empty, sets the
      end-of-file flag that stops the loop, so it comes last. */
  function Chunks(file: bytes): (ps: seq<bytes>)
    ensures ps != []
  {
    if |file| < CHUNK then [file] else [file[..CHUNK]] + Chunks(file[CHUNK..])
  }

  function Flat(ps: seq<bytes>): bytes {
    if ps == [] then [] else ps[0] + Flat(ps[1..])
  }

  function Frames(ps: seq<bytes>): bytes {
    if ps == [] then [] else Frame(ps[0]) + Frames(ps[1..])
  }

  /** A file on the wire: the number of packages as a package, then the packages. */
  function FileStream(file: bytes): bytes {
    Frame(Le64(|Chunks(file)|)) + Frames(Chunks(file))
  }

  /** Files whose package count is a `size_t`; every real file is smaller. */
  predicate FileFits(file: bytes) {
    |file| < SIZE_LIMIT
  }

  lemma ChunksStep(file: bytes)
    requires |file| >= CHUNK
    ensures Chunks(file) == [file[..CHUNK]] + Chunks(file[CHUNK..])
    ensures |file| / CHUNK == |file[CHUNK..]| / CHUNK + 1
    ensures |file| % CHUNK == |file[CHUNK..]| % CHUNK
  {
  }

  lemma {:induction false} ChunkCount(file: bytes)
    ensures |Chunks(file)| == |file| / CHUNK + 1
  {
    if |file| >= CHUNK {
      ChunksStep(file);
      ChunkCount(file[CHUNK..]);
    }
  }

  lemma {:induction false} ChunkLengths(file: bytes)
    ensures forall i :: 0 <= i < |Chunks(file)| - 1 ==> |Chunks(file)[i]| == CHUNK
    ensures |Chunks(file)[|Chunks(file)| - 1]| == |file| % CHUNK
  {
    if |file| >= CHUNK {
      ChunksStep(file);
      ChunkLengths(file[CHUNK..]);
    }
  }

  lemma {:induction false} ChunksFlat(file: bytes)
    ensures Flat(Chunks(file)) == file
  {
    if |file| >= CHUNK {
      ChunksStep(file);
      ChunksFlat(file[CHUNK..]);
      assert Chunks(file)[1..] == Chunks(file[CHUNK..]);
    } else {
      assert Flat([file]) == file + Flat([]);
    }
  }

  /** n / 1015 + 1 packages, all full but the last, which holds the remaining n % 1015
      bytes, and together they are the file. */
  lemma ChunkShape(file: bytes)
    ensures |Chunks(file)| == |file| / 1015 + 1
    ensures forall i :: 0 <= i < |Chunks(file)| - 1 ==> |Chunks(file)[i]| == 1015
    ensures |Chunks(file)[|Chunks(file)| - 1]| == |file| % 1015
    ensures Flat(Chunks(file)) == file
  {
    ChunkCount(file);
    ChunkLengths(file);
    ChunksFlat(file);
  }

  /** Bytes `1015 * i` onwards of a file, as far as one package carries them */
  function Part(file: bytes, i: nat): bytes
    requires i <= |file| / 1015
  {
    file[1015 * i..if |file| < 1015 * i + 1015 then |file| else 1015 * i + 1015]
  }

  lemma PartOfTail(file: bytes, i: nat)
    requires 0 < i <= |file| / 1015
    ensures i - 1 <= |file[1015..]| / 1015 && Part(file, i) == Part(file[1015..], i - 1)
  {
    var at, end := 1015 * i, if |file| < 1015 * i + 1015 then |file| else 1015 * i + 1015;
    SliceOfTail(file, 1015, at, end);
  }

  lemma SliceOfTail(s: bytes, k: nat, at: nat, end: nat)
    requires k <= at <= end <= |s|
    ensures s[at..end] == s[k..][at - k..end - k]
  {
  }

  lemma SliceBehind(a: bytes, b: bytes, at: nat, end: nat)
    requires at <= end <= |b|
    ensures (a + b)[|a| + at..|a| + end] == b[at..end]
  {
  }

  /** Where each part of a file is on the wire: package `i` starts 1023 bytes after the
      one before it. */
  lemma {:induction false} PartOnWire(file: bytes, i: nat)
    requires i <= |file| / 1015
    ensures 1023 * i + 8 + |Part(file, i)| <= |Frames(Chunks(file))|
    ensures Frames(Chunks(file))[1023 * i..1023 * i + 8 + |Part(file, i)|] == Frame(Part(file, i))
    ensures i == |file| / 1015 ==> |Frames(Chunks(file))| == 1023 * i + 8 + |Part(file, i)|
  {
    hide Frame, Part, Chunks;
    PartLengths(file);
    if |file| >= CHUNK {
      ChunksStep(file);
      var head, tail := file[..CHUNK], file[CHUNK..];
      var more := Frames(Chunks(tail));
      assert Chunks(file)[1..] == Chunks(tail);
      assert Frames(Chunks(file)) == Frame(head) + more;
      if i == 0 {
        assert (Frame(head) + more)[..1023] == Frame(head);
      } else {
        PartOnWire(tail, i - 1);
        PartOfTail(file, i);
        var at, n := 1023 * (i - 1), 8 + |Part(tail, i - 1)|;
        SliceBehind(Frame(head), more, at, at + n);
      }
    } else {
      ShortFrames(file);
    }
  }

  lemma PartLengths(file: bytes)
    ensures |file| >= 1015 ==> Part(file, 0) == file[..1015]
    ensures |file| < 1015 ==> Part(file, 0) == file
  {
  }

  lemma ShortFrames(file: bytes)
    requires |file| < CHUNK
    ensures Frames(Chunks(file)) == Frame(file)
  {
    assert Frames([file]) == Frame(file) + Frames([]);
  }

  /** A file on the wire, byte for byte: the package count as a package of eight bytes, then
      the parts in order. */
  lemma FileOnWire(file: bytes, i: nat)
    requires i <= |file| / 1015
    ensures FileStream(file)[..16] == Frame(Le64(|file| / 1015 + 1))
    ensures |FileStream(file)| == 16 + 8 * (|file| / 1015 + 1) + |file|
    ensures var at := 16 + 1023 * i;
      at + 8 + |Part(file, i)| <= |FileStream(file)|
      && FileStream(file)[at..at + 8 + |Part(file, i)|] == Frame(Part(file, i))
  {
    hide Frames, Chunks, Frame, Part;
    ChunkCount(file);
    PartOnWire(file, i);
    PartOnWire(file, |file| / 1015);
    PartSize(file);
    var count, ps := Frame(Le64(|file| / 1015 + 1)), Frames(Chunks(file));
    var at, n := 1023 * i, 8 + |Part(file, i)|;
    assert (count + ps)[..16] == count;
    assert (count + ps)[16 + at..16 + at + n] == ps[at..at + n];
  }

  lemma PartSize(file: bytes)
    ensures |Part(file, |file| / 1015)| == |file| % 1015
  {
  }

  /* ---------- receiving ---------- */

  /** What reading takes off a stream. `Broken`: the stream ends inside a package or the
      package overruns the receiving buffer, and the original has no defined result. */
  datatype Taken<+T> = Broken | Taken(value: T, rest: bytes)

  function TakeFrame(s: bytes, capacity: nat): (t: Taken<bytes>)
    ensures t.Taken? ==> |s| == HEAD_SIZE + |t.value| + |t.rest|
    ensures t.Taken? ==> |t.value| <= capacity
  {
    if |s| < HEAD_SIZE then Broken else
    var length := DecodeLe(s[..HEAD_SIZE]);
    if length > capacity || |s| < HEAD_SIZE + length then Broken
    else Taken(s[HEAD_SIZE..HEAD_SIZE + length], s[HEAD_SIZE + length..])
  }

  /** `recv_integer`: the payload is laid over a zeroed `size_t`. */
  function TakeInteger(s: bytes): Taken<nat> {
    match TakeFrame(s, HEAD_SIZE)
    case Broken => Broken
    case Taken(p, rest) => Taken(DecodeLe(p), rest)
  }

  /** The receive loop of both sides: up to `num` packages, of which an empty one is taken
      and ends the loop. */
  function TakeFrames(s: bytes, num: nat, capacity: nat): Taken<bytes>
    decreases num
  {
    if num == 0 then Taken([], s) else
    match TakeFrame(s, capacity)
    case Broken => Broken
    case Taken(p, rest) =>
      if p == [] then Taken([], rest) else
      match TakeFrames(rest, num - 1, capacity)
      case Broken => Broken
      case Taken(more, rest') => Taken(p + more, rest')
  }

  function TakeFile(s: bytes, capacity: nat): Taken<bytes> {
    match TakeInteger(s)
    case Broken => Broken
    case Taken(num, rest) => TakeFrames(rest, num, capacity)
  }

  lemma TakeFrameOfFrame(p: bytes, rest: bytes, capacity: nat)
    requires |p| <= capacity && |p| < SIZE_LIMIT
    ensures TakeFrame(Frame(p) + rest, capacity) == Taken(p, rest)
  {
    var s := Frame(p) + rest;
    Le64RoundTrip(|p|);
    assert s[..HEAD_SIZE] == Le64(|p|);
    assert s[HEAD_SIZE..HEAD_SIZE + |p|] == p;
  }

  lemma TakeIntegerOfFrame(n: nat, rest: bytes)
    requires n < SIZE_LIMIT
    ensures TakeInteger(Frame(Le64(n)) + rest) == Taken(n, rest)
  {
    TakeFrameOfFrame(Le64(n), rest, HEAD_SIZE);
    Le64RoundTrip(n);
  }

  /** The number of payloads taken before the loop stops: it breaks on an empty one. */
  function Stop(ps: seq<bytes>): (n: nat)
    ensures n <= |ps|
  {
    if ps == [] then 0 else if ps[0] == [] then 1 else 1 + Stop(ps[1..])
  }

  predicate AllFit(ps: seq<bytes>, capacity: nat) {
    forall i :: 0 <= i < |ps| ==> |ps[i]| <= capacity
  }

  lemma FramesCons(ps: seq<bytes>, rest: bytes)
    requires ps != []
    ensures Frames(ps) + rest == Frame(ps[0]) + (Frames(ps[1..]) + rest)
  {
  }

  /** The receive loop on any run of packages: it stops behind the first empty one. */
  lemma {:induction false} ReceiveStops(ps: seq<bytes>, rest: bytes, capacity: nat)
    requires AllFit(ps, capacity) && capacity < SIZE_LIMIT
    ensures TakeFrames(Frames(ps) + rest, |ps|, capacity)
         == Taken(Flat(ps[..Stop(ps)]), Frames(ps[Stop(ps)..]) + rest)
  {
    if ps == [] {
      assert Frames(ps) + rest == rest;
    } else {
      FramesCons(ps, rest);
      TakeFrameOfFrame(ps[0], Frames(ps[1..]) + rest, capacity);
      if ps[0] == [] {
        assert Flat(ps[..1]) == ps[0] + Flat(ps[..1][1..]);
      } else {
        ReceiveStops(ps[1..], rest, capacity);
        var n := Stop(ps[1..]);
        assert ps[..n + 1][1..] == ps[1..][..n];
        assert ps[n + 1..] == ps[1..][n..];
        assert Flat(ps[..n + 1]) == ps[0] + Flat(ps[1..][..n]);
      }
    }
  }

  predicate EmptyOnlyLast(ps: seq<bytes>) {
    forall i :: 0 <= i < |ps| - 1 ==> ps[i] != []
  }

  lemma {:induction false} StopAtEnd(ps: seq<bytes>)
    ensures Stop(ps) == |ps| <==> EmptyOnlyLast(ps)
  {
    if ps != [] {
      StopAtEnd(ps[1..]);
      if EmptyOnlyLast(ps) {
        forall i | 0 <= i < |ps[1..]| - 1 ensures ps[1..][i] != [] {
          assert ps[1..][i] == ps[i + 1];
        }
      } else {
        var i :| 0 <= i < |ps| - 1 && ps[i] == [];
        if i > 0 { assert ps[1..][i - 1] == []; }
      }
    }
  }

  /** Breaking on an empty package is right exactly when only the last one can be empty. */
  lemma ReceiveAll(ps: seq<bytes>, rest: bytes, capacity: nat)
    requires AllFit(ps, capacity) && capacity < SIZE_LIMIT
    ensures TakeFrames(Frames(ps) + rest, |ps|, capacity) == Taken(Flat(ps), rest) <==> EmptyOnlyLast(ps)
  {
    ReceiveStops(ps, rest, capacity);
    StopAtEnd(ps);
    var n := Stop(ps);
    if n == |ps| {
      assert ps[..n] == ps && Frames(ps[n..]) + rest == rest;
    } else {
      assert |Frames(ps[n..])| > 0;
      assert |Frames(ps[n..]) + rest| > |rest|;
    }
  }

  /** A file sent and received: the same bytes, and the stream left right behind it. */
  lemma FileRoundTrip(file: bytes, rest: bytes, capacity: nat)
    requires FileFits(file) && CHUNK <= capacity < SIZE_LIMIT
    ensures TakeFile(FileStream(file) + rest, capacity) == Taken(file, rest)
  {
    hide Chunks, Flat, Frames, Frame, TakeFrames, TakeFrame, TakeInteger, Le64;
    var ps := Chunks(file);
    ChunkShape(file);
    assert FileStream(file) + rest == Frame(Le64(|ps|)) + (Frames(ps) + rest);
    TakeIntegerOfFrame(|ps|, Frames(ps) + rest);
    ReceiveAll(ps, rest, capacity);
  }
}
