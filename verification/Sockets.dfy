/** Connected sockets as byte streams, and the retry loops of anet.cpp over them. */
module Sockets {
  import opened Bytes

  function Min(a: nat, b: nat): nat {
    if a <= b then a else b
  }

  /** A blocking stream socket. `inbound` is everything the peer will still deliver before
      it closes, so a read that returns 0 is the end of the stream. */
  class Socket {
    /** No call on this socket fails with -1. */
    const reliable: bool
    var inbound: bytes
    var outbound: bytes

    constructor (reliable: bool, inbound: bytes)
      ensures this.reliable == reliable && this.inbound == inbound && outbound == []
    {
      this.reliable := reliable;
      this.inbound := inbound;
      this.outbound := [];
    }

    /** Takes `k` bytes into the buffer. */
    method Take(buf: array<byte>, at: nat, k: nat)
      requires at + k <= buf.Length && k <= |inbound|
      modifies this, buf
      ensures outbound == old(outbound)
      ensures inbound == old(inbound[k..])
      ensures buf[at..at + k] == old(inbound[..k])
      ensures forall i :: 0 <= i < buf.Length && !(at <= i < at + k) ==> buf[i] == old(buf[i])
    {
      forall i | 0 <= i < k {
        buf[at + i] := inbound[i];
      }
      inbound := inbound[k..];
    }

    /** read(2): any nonempty part of what was asked for; 0 at the end of the stream. */
    method Read(buf: array<byte>, at: nat, n: nat) returns (k: int)
      requires at + n <= buf.Length
      modifies this, buf
      ensures outbound == old(outbound)
      ensures -1 <= k <= n && k <= |old(inbound)|
      ensures k == -1 ==> !reliable && inbound == old(inbound)
      ensures k == 0 ==> n == 0 || old(inbound) == []
      ensures k >= 0 ==> inbound == old(inbound)[k..] && buf[at..at + k] == old(inbound)[..k]
      ensures forall i :: 0 <= i < buf.Length && !(at <= i < at + k) ==> buf[i] == old(buf[i])
    {
      var fails: bool := *;
      if fails && !reliable {
        return -1;
      }
      var most := Min(n, |inbound|);
      if most == 0 {
        return 0;
      }
      k :| 1 <= k <= most;
      Take(buf, at, k);
    }

    /** A raw read under the full-read assumption: all that was asked for, unless the
        stream ends first. */
    method FullRead(buf: array<byte>, at: nat, n: nat) returns (k: nat)
      requires at + n <= buf.Length
      modifies this, buf
      ensures outbound == old(outbound)
      ensures k == Min(n, |old(inbound)|)
      ensures inbound == old(inbound)[k..] && buf[at..at + k] == old(inbound)[..k]
      ensures forall i :: 0 <= i < buf.Length && !(at <= i < at + k) ==> buf[i] == old(buf[i])
    {
      k := Min(n, |inbound|);
      Take(buf, at, k);
    }

    /** write(2): accepts any nonempty part; an unreliable socket may fail or accept none. */
    method Write(buf: array<byte>, at: nat, n: nat) returns (k: int)
      requires at + n <= buf.Length
      modifies this
      ensures inbound == old(inbound)
      ensures -1 <= k <= n
      ensures k == -1 || (k == 0 && n > 0) ==> !reliable
      ensures outbound == old(outbound) + if k >= 0 then buf[at..at + k] else []
    {
      k := *;
      if n == 0 || k < -1 || k > n || (reliable && k <= 0) {
        k := n;
      }
      if k >= 0 {
        outbound := outbound + buf[at..at + k];
      }
    }
  }

  /** Reads until `count` bytes have come, the stream ends, or a read fails. Even then the
      bytes taken off the stream are in the buffer, though the caller is not told how many. */
  method AnetRead(sock: Socket, buf: array<byte>, at: nat, count: nat) returns (totlen: int)
    requires at + count <= buf.Length
    modifies sock, buf
    ensures sock.outbound == old(sock.outbound)
    ensures totlen == -1 ==> !sock.reliable
    ensures totlen != -1 ==> totlen == Min(count, |old(sock.inbound)|)
    ensures totlen != -1 ==> sock.inbound == old(sock.inbound)[totlen..]
    ensures totlen != -1 ==> buf[at..at + totlen] == old(sock.inbound)[..totlen]
    ensures var k := |old(sock.inbound)| - |sock.inbound|;
      0 <= k <= count && sock.inbound == old(sock.inbound)[k..] && buf[at..at + k] == old(sock.inbound)[..k]
    ensures forall i :: 0 <= i < buf.Length && !(at <= i < at + count) ==> buf[i] == old(buf[i])
  {
    totlen := 0;
    while totlen != count
      invariant 0 <= totlen <= count && totlen <= |old(sock.inbound)|
      invariant sock.outbound == old(sock.outbound)
      invariant sock.inbound == old(sock.inbound)[totlen..]
      invariant buf[at..at + totlen] == old(sock.inbound)[..totlen]
      invariant forall i :: 0 <= i < buf.Length && !(at <= i < at + count) ==> buf[i] == old(buf[i])
      decreases count - totlen
    {
      ghost var got := buf[at..at + totlen];
      var nread := sock.Read(buf, at + totlen, count - totlen);
      if nread == 0 {
        return;
      }
      if nread == -1 {
        totlen := -1;
        return;
      }
      totlen := totlen + nread;
      assert buf[at..at + totlen] == got + buf[at + (totlen - nread)..at + totlen];
    }
  }

  /** Writes until all `count` bytes are accepted or a write fails; what has gone out is
      always a prefix of what was asked for. */
  method AnetWrite(sock: Socket, buf: array<byte>, at: nat, count: nat) returns (totlen: int)
    requires at + count <= buf.Length
    modifies sock
    ensures sock.inbound == old(sock.inbound)
    ensures -1 <= totlen <= count
    ensures totlen < count ==> !sock.reliable
    ensures totlen >= 0 ==> sock.outbound == old(sock.outbound) + buf[at..at + totlen]
    ensures var k := |sock.outbound| - |old(sock.outbound)|;
      0 <= k <= count && sock.outbound == old(sock.outbound) + buf[at..at + k]
  {
    totlen := 0;
    while totlen != count
      invariant 0 <= totlen <= count
      invariant sock.inbound == old(sock.inbound)
      invariant sock.outbound == old(sock.outbound) + buf[at..at + totlen]
      decreases count - totlen
    {
      var nwritten := sock.Write(buf, at + totlen, count - totlen);
      if nwritten == 0 {
        return;
      }
      if nwritten == -1 {
        totlen := -1;
        return;
      }
      totlen := totlen + nwritten;
      assert buf[at..at + totlen] == buf[at..at + totlen - nwritten] + buf[at + totlen - nwritten..at + totlen];
    }
  }
}
