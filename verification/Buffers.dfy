/** The growable buffer of buffer.cpp: index discipline, growth, and framed writes. */
module Buffers {
  import opened Bytes

  const DEFAULT_BUFF_SIZE: nat := 1024
  /** sizeof(package_head_t) */
  const HEAD_SIZE: nat := 8

  /* ---------- specification of the framed write ---------- */

  /** A package on the wire: its length as a little-endian `size_t`, then the payload. */
  function Frame(payload: bytes): (f: bytes)
    ensures |f| == HEAD_SIZE + |payload|
  {
    Le64(|payload|) + payload
  }

  /** `_size` after `extend(ext)` is called with `writeable` bytes free. */
  function SizeAfterExtend(size: nat, writeable: nat, ext: nat): nat {
    if writeable < ext then size + ext else size
  }

  /** `_size` when `write` comes to copy a payload of `len` bytes behind the header. */
  function SizeAfterWrite(size: nat, len: nat): nat
    requires size >= HEAD_SIZE
  {
    var writeable := size - HEAD_SIZE;
    if len + 1 > writeable then SizeAfterExtend(size, writeable, len + 1 - writeable) else size
  }

  /** The payload and the NUL behind it lie inside the buffer. */
  predicate WriteInBounds(size: nat, len: nat)
    requires size >= HEAD_SIZE
  {
    HEAD_SIZE + len < SizeAfterWrite(size, len)
  }

  /** The lengths `write` handles: `extend` is asked for the shortfall only, yet
      refuses to grow when that shortfall fits into the bytes already free. */
  predicate WriteDomain(size: nat, len: nat)
    requires size >= HEAD_SIZE
  {
    len < size - HEAD_SIZE || len >= 2 * (size - HEAD_SIZE)
  }

  /** The header as it stands after `write`: growing copies it with `strncpy`. */
  function HeaderAfterWrite(size: nat, len: nat): (h: bytes)
    requires size >= HEAD_SIZE
    ensures |h| == HEAD_SIZE
  {
    if len < size - HEAD_SIZE then Le64(len) else StrNCpy(Le64(len))
  }

  /** The header survives growth: no nonzero byte of the length above a zero one. */
  predicate HeaderSurvives(len: nat) {
    NothingAfterNul(Le64(len))
  }

  /** A write is memory safe and leaves the intended frame exactly on this domain. */
  predicate FrameWritten(size: nat, s: bytes)
    requires size >= HEAD_SIZE
  {
    WriteInBounds(size, |s|) && HeaderAfterWrite(size, |s|) + s == Frame(s)
  }

  lemma WriteExactly(size: nat, s: bytes)
    requires size > HEAD_SIZE
    ensures WriteInBounds(size, |s|) <==> WriteDomain(size, |s|)
    ensures FrameWritten(size, s) <==>
      |s| < size - HEAD_SIZE || (|s| >= 2 * (size - HEAD_SIZE) && HeaderSurvives(|s|))
  {
    var h := HeaderAfterWrite(size, |s|);
    StrNCpyFaithful(Le64(|s|));
    if h + s == Frame(s) {
      assert (h + s)[..HEAD_SIZE] == h && Frame(s)[..HEAD_SIZE] == Le64(|s|);
    }
  }

  /** A package on the wire: eight digits of its length to the base 256, least significant
      first, then the payload. */
  lemma FrameLayout(p: bytes)
    ensures |Frame(p)| == 8 + |p| && Frame(p)[8..] == p
    ensures forall i :: 0 <= i < 8 ==> Frame(p)[i] as nat == (|p| / Pow256(i)) % 256
  {
    forall i | 0 <= i < 8
      ensures Frame(p)[i] as nat == (|p| / Pow256(i)) % 256
    {
      LeDigits(|p|, 8, i);
    }
  }

  /** Two failing writes into a fresh buffer: one runs past the end, one loses its header. */
  lemma WriteFails()
    ensures !WriteInBounds(DEFAULT_BUFF_SIZE, 1016)
    ensures WriteInBounds(DEFAULT_BUFF_SIZE, 65536)
    ensures HeaderAfterWrite(DEFAULT_BUFF_SIZE, 65536) == Zeros(8) != Le64(65536)
  {
    assert 65536 % 256 == 0 && 65536 / 256 == 256 && 256 % 256 == 0 && 256 / 256 == 1;
    assert Le64(65536)[0] == 0;
    assert Le(65536, 8)[1..] == Le(256, 7) && Le(256, 7)[1..] == Le(1, 6);
    assert Le64(65536)[2] == Le(1, 6)[0] == 1;
    assert FirstNul(Le64(65536)) == 0;
  }

  /* ---------- the buffer object ---------- */

  /** `strncpy(dst, src, n)` over distinct arrays. */
  method StrNCpyInto(dst: array<byte>, src: array<byte>, n: nat)
    requires n <= dst.Length && n <= src.Length && dst != src
    modifies dst
    ensures dst[..n] == StrNCpy(src[..n])
  {
    var ended := false;
    for i := 0 to n
      invariant ended <==> FirstNul(src[..n]) < i
      invariant forall k :: 0 <= k < i ==> dst[k] == StrNCpy(src[..n])[k]
    {
      if src[i] == NUL { ended := true; }
      dst[i] := if ended then NUL else src[i];
    }
  }

  class Buffer {
    var buff: array<byte>
    var size: nat
    var readIdx: nat
    var writeIdx: nat

    ghost predicate Valid()
      reads this
    {
      && size == buff.Length
      && DEFAULT_BUFF_SIZE <= size
      && readIdx <= writeIdx <= size
    }

    /** The bytes written and not yet read. */
    ghost function Readable(): bytes
      reads this, buff
      requires Valid()
    {
      buff[readIdx..writeIdx]
    }

    /** The documented terminator `_buff[_write_idx]`. `write` and the server's receive paths
        store it; each other operation says exactly when it is there. */
    ghost predicate Terminated()
      reads this, buff
      requires Valid()
    {
      writeIdx < size && buff[writeIdx] == NUL
    }

    constructor ()
      ensures Valid() && fresh(buff)
      ensures size == DEFAULT_BUFF_SIZE && readIdx == writeIdx == 0
      ensures Terminated() <==> buff[0] == NUL
    {
      buff := new byte[DEFAULT_BUFF_SIZE];
      size := DEFAULT_BUFF_SIZE;
      readIdx := 0;
      writeIdx := 0;
    }

    function ReadableSize(): (n: nat)
      requires Valid()
      reads this, buff
      ensures n == |Readable()|
    {
      writeIdx - readIdx
    }

    function WriteableSize(): (n: nat)
      requires Valid()
      reads this, buff
      ensures n + |buff[..writeIdx]| == size
    {
      size - writeIdx
    }

    method Shrink()
      requires Valid()
      modifies this, buff
      ensures Valid() && buff == old(buff) && size == old(size)
      ensures readIdx == 0 && Readable() == old(Readable())
      ensures buff[writeIdx..] == old(buff[..])[writeIdx..]
      ensures Terminated() <==> |old(Readable())| < size && old(buff[..])[|old(Readable())|] == NUL
    {
      var len := ReadableSize();
      // memmove
      forall i | 0 <= i < len {
        buff[i] := buff[readIdx + i];
      }
      readIdx := 0;
      writeIdx := len;
    }

    /** Moves to a larger allocation; `strncpy` drops whatever follows a NUL. */
    method Reallocate(newSize: nat)
      requires Valid() && readIdx == 0 && size <= newSize
      modifies this
      ensures Valid() && fresh(buff) && size == newSize
      ensures readIdx == 0 && writeIdx == old(writeIdx)
      ensures Readable() == StrNCpy(old(Readable()))
      ensures old(writeIdx) < old(size) ==>
        (Terminated() <==> !NulFree(old(Readable())) || old(buff[..])[old(writeIdx)] == NUL)
    {
      hide StrNCpy, CStr, FirstNul;
      var oldBuff := buff;
      buff := new byte[newSize];
      StrNCpyInto(buff, oldBuff, size);
      StrNCpyOfPrefix(oldBuff[..size], writeIdx);
      assert buff[..writeIdx] == buff[..size][..writeIdx];
      assert oldBuff[..size][..writeIdx] == oldBuff[..writeIdx];
      size := newSize;
      if writeIdx < oldBuff.Length {
        StrNCpyNulAt(oldBuff[..], writeIdx);
        assert buff[writeIdx] == StrNCpy(oldBuff[..])[writeIdx];
        assert NulFree(oldBuff[..][..writeIdx]) == NulFree(oldBuff[..writeIdx]);
      }
    }

    /** Grows when fewer than `ext` bytes are free. */
    method Extend(ext: nat)
      requires Valid()
      modifies this, buff
      ensures Valid() && (buff == old(buff) || fresh(buff))
      ensures old(WriteableSize()) >= ext ==>
        buff == old(buff) && unchanged(this) && buff[..] == old(buff[..])
      ensures old(WriteableSize()) < ext ==>
        fresh(buff) && readIdx == 0 && Readable() == StrNCpy(old(Readable()))
      ensures old(WriteableSize()) < ext && |old(Readable())| < old(size) ==>
        (Terminated() <==> !NulFree(old(Readable())) || old(buff[..])[|old(Readable())|] == NUL)
      ensures size == SizeAfterExtend(old(size), old(WriteableSize()), ext)
      ensures size == if old(size) - old(writeIdx) < ext then old(size) + ext else old(size)
      ensures WriteableSize() >= ext
    {
      hide StrNCpy;
      if WriteableSize() < ext {
        Shrink();
        Reallocate(size + ext);
      }
    }

    method Ending()
      requires Valid()
      modifies buff
      ensures Readable() == old(Readable())
      ensures old(WriteableSize()) != 0 ==> Terminated()
    {
      if WriteableSize() != 0 {
        buff[writeIdx] := NUL;
      }
    }

    method Reset()
      requires Valid()
      modifies this
      ensures Valid() && buff == old(buff) && size == old(size)
      ensures readIdx == writeIdx == 0
      ensures Terminated() <==> old(buff[0]) == NUL
    {
      writeIdx := 0;
      readIdx := 0;
    }

    /** memcpy(_buff + at, s, |s|) */
    method CopyIn(at: nat, s: bytes)
      requires at + |s| <= buff.Length
      modifies buff
      ensures buff[..at] == old(buff[..at])
      ensures buff[at..at + |s|] == s
      ensures buff[at + |s|..] == old(buff[at + |s|..])
    {
      forall i | 0 <= i < |s| {
        buff[at + i] := s[i];
      }
    }

    /** Writes `s` as one package. `ok` is false where the original would run past the
        end of the allocation; the model then stops before the stray copy. */
    method Write(s: bytes) returns (ok: bool)
      requires Valid()
      modifies this, buff
      ensures Valid() && (buff == old(buff) || fresh(buff))
      ensures ok <==> WriteDomain(old(size), |s|)
      ensures size == SizeAfterWrite(old(size), |s|)
      ensures ok ==> size == if |s| < old(size) - 8 then old(size) else |s| + 9
      ensures ok ==> readIdx == 0 && Terminated()
      ensures ok ==> Readable() == HeaderAfterWrite(old(size), |s|) + s
      ensures |s| < old(size) - HEAD_SIZE ==> buff == old(buff) && Readable() == Frame(s)
    {
      Reset();
      CopyIn(0, Le64(|s|));
      writeIdx := writeIdx + HEAD_SIZE;
      assert Readable() == Le64(|s|);
      if |s| + 1 > WriteableSize() {
        Extend(|s| + 1 - WriteableSize());
      }
      assert |s| < old(size) - HEAD_SIZE || WriteDomain(old(size), |s|) ==>
        buff[..HEAD_SIZE] == HeaderAfterWrite(old(size), |s|);
      ok := writeIdx + |s| < size;
      if ok {
        CopyIn(writeIdx, s);
        writeIdx := writeIdx + |s|;
        buff[writeIdx] := NUL;
        assert buff[..writeIdx] == buff[..HEAD_SIZE] + buff[HEAD_SIZE..writeIdx];
      }
    }

    /** Writes an integer as one package of eight payload bytes. The growth test
        `9 > writeable_size()` never holds, since a buffer has at least 1024 bytes. */
    method WriteInteger(n: nat)
      requires Valid()
      requires n < SIZE_LIMIT
      modifies this, buff
      ensures Valid() && buff == old(buff) && size == old(size)
      ensures readIdx == 0 && Terminated()
      ensures Readable() == Frame(Le64(n))
    {
      Reset();
      CopyIn(0, Le64(HEAD_SIZE));
      writeIdx := writeIdx + HEAD_SIZE;
      assert !(HEAD_SIZE + 1 > WriteableSize());
      CopyIn(writeIdx, Le64(n));
      writeIdx := writeIdx + HEAD_SIZE;
      buff[writeIdx] := NUL;
      assert buff[..writeIdx] == buff[..HEAD_SIZE] + buff[HEAD_SIZE..writeIdx];
    }
  }

  /** What `flush_2_server` does to a fresh buffer after a write: the terminator is there
      before the reset, and after it exactly for lengths that are multiples of 256, whose
      header starts with a zero byte. For "ping" it is gone. */
  method WriteThenReset(s: bytes) returns (before: bool, after: bool)
    requires |s| < DEFAULT_BUFF_SIZE - HEAD_SIZE
    ensures before
    ensures after <==> |s| % 256 == 0
  {
    hide Le64, Frame;
    var b := new Buffer();
    var ok := b.Write(s);
    LowByte(|s|);
    assert b.Readable()[0] == b.buff[0];
    before := b.buff[b.writeIdx] == NUL;
    b.Reset();
    after := b.buff[b.writeIdx] == NUL;
  }

  lemma LowByte(n: nat)
    ensures |Le64(n)| > 0 && (Le64(n)[0] == NUL <==> n % 256 == 0)
  {
  }
}
