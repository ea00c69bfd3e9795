/** The event loop object of ae.cpp over the epoll state of ae_epoll.hpp. */
module EventLoop {
  import opened Bytes
  import opened LoopModel

  /** `struct epoll_event` as epoll_wait reports it */
  datatype EpollEvent = EpollEvent(fd: nat, epollIn: bool, epollOut: bool, epollErr: bool, epollHup: bool)

  datatype FiredEvent = FiredEvent(fd: nat, mask: Mask)

  /** Errors and hang-ups are reported to the writable handler. */
  function FiredBy(e: EpollEvent): FiredEvent {
    FiredEvent(e.fd, Mask(e.epollIn, e.epollOut || e.epollErr || e.epollHup))
  }

  /** What epoll_wait may report: distinct registered descriptors, at most `capacity`. */
  predicate Reportable(k: Interest, ready: seq<EpollEvent>, capacity: nat) {
    && |ready| <= capacity
    && (forall i :: 0 <= i < |ready| ==> ready[i].fd in k)
    && (forall i, j :: 0 <= i < j < |ready| ==> ready[i].fd != ready[j].fd)
  }

  const NO_EVENT := EpollEvent(0, false, false, false, false)
  const NOT_FIRED := FiredEvent(0, NONE)

  /** A new array with the old elements moved to its front, as far as they fit. */
  method MoveInto<T>(newSize: nat, from: array<T>, blank: T) returns (to: array<T>)
    ensures fresh(to) && to.Length == newSize
    ensures forall i :: 0 <= i < newSize ==> to[i] == if i < from.Length then from[i] else blank
  {
    to := new T[newSize](i => blank);
    var n := if from.Length <= newSize then from.Length else newSize;
    forall i | 0 <= i < n {
      to[i] := from[i];
    }
  }

  class EpollState {
    /** The kernel's interest set behind `_epoll_fd` */
    var interest: Interest
    /** Whether the kernel has room at its n-th EPOLL_CTL_ADD, and how many there were */
    const room: nat -> bool
    var adds: nat
    var eventsSize: nat
    var events: array<EpollEvent>

    ghost predicate Valid()
      reads this
    {
      eventsSize == events.Length
    }

    constructor (size: nat, room: nat -> bool)
      ensures Valid() && fresh(events) && eventsSize == size && interest == map[]
      ensures this.room == room && adds == 0
    {
      this.room := room;
      adds := 0;
      interest := map[];
      events := new EpollEvent[size](i => NO_EVENT);
      eventsSize := size;
    }

    method Resize(newSize: nat)
      requires Valid()
      modifies this
      ensures Valid() && fresh(events) && eventsSize == newSize
      ensures interest == old(interest) && adds == old(adds)
    {
      events := MoveInto(newSize, events, NO_EVENT);
      eventsSize := newSize;
    }

    /** Fails exactly if the descriptor is present already or the kernel has no room. */
    method AddEvent(fd: nat, mask: Mask) returns (ret: int)
      requires Valid()
      modifies this`interest, this`adds
      ensures Valid() && adds == old(adds) + 1
      ensures ret == if fd !in old(interest) && room(old(adds)) then 0 else -1
      ensures interest == if ret == 0 then old(interest)[fd as int := mask] else old(interest)
    {
      adds := adds + 1;
      if fd in interest || !room(adds - 1) {
        return -1;
      }
      interest := interest[fd as int := mask];
      return 0;
    }

    method ModEvent(fd: nat, mask: Mask)
      requires Valid()
      modifies this`interest
      ensures Valid()
      ensures interest == if fd in old(interest) then old(interest)[fd as int := mask] else old(interest)
    {
      if fd in interest {
        interest := interest[fd as int := mask];
      }
    }

    method DelEvent(fd: nat)
      requires Valid()
      modifies this`interest
      ensures Valid()
      ensures interest == old(interest) - {fd as int}
    {
      if fd in interest {
        interest := interest - {fd as int};
      }
    }

    /** epoll_wait: the report `ready` lands at the front of the event array. */
    method Wait(ready: seq<EpollEvent>) returns (n: nat)
      requires Valid() && Reportable(interest, ready, eventsSize)
      modifies events
      ensures n == |ready| <= events.Length && events[..n] == ready
    {
      forall i | 0 <= i < |ready| {
        events[i] := ready[i];
      }
      n := |ready|;
    }
  }

  /** Some event is registered in the entry. */
  predicate InUse(e: FileEvent) {
    e.mask.r || e.mask.w
  }

  class Loop {
    var maxFd: int
    var fdsetSize: nat
    var events: array<FileEvent>
    var fired: array<FiredEvent>
    const api: EpollState

    ghost function Repr(): set<object>
      reads this, api
    {
      {this, events, fired, api, api.events}
    }

    ghost function Abs(): LoopModel.Loop
      reads this, events, api
    {
      LoopModel.Loop(events[..], maxFd, api.interest)
    }

    ghost predicate Valid()
      reads this, events, api
    {
      && api.Valid()
      && fdsetSize == events.Length == fired.Length == api.eventsSize
      && Agree(Abs())
    }

    constructor (size: nat, room: nat -> bool)
      ensures Valid() && fresh(Repr())
      ensures Abs() == LoopModel.Loop(seq(size, i => EMPTY), -1, map[])
      ensures api.room == room && api.adds == 0
    {
      events := new FileEvent[size](i => EMPTY);
      fired := new FiredEvent[size](i => NOT_FIRED);
      fdsetSize := size;
      maxFd := -1;
      api := new EpollState(size, room);
      new;
      assert events[..] == seq(size, i => EMPTY);
    }

    /** 0 is AE_OK and -1 AE_ERR. Fails exactly beyond the table, and for an unregistered
        descriptor the kernel has no room for; then nothing changes. Otherwise the bits, the
        handlers they name and the data go into the entry, the kernel has its mask, and no
        other entry changes. The loop stays in order unless an unregistered descriptor is
        added for no event. */
    method AddFileEvent(fd: nat, mask: Mask, proc: Proc, data: object?) returns (ret: int)
      requires Valid()
      modifies this`maxFd, events, api`interest, api`adds
      ensures Valid() <==> !(ret == 0 && mask.None() && MaskAt(old(events[..]), fd).None())
      ensures ret == if fd < |old(events[..])| && (InUse(old(events[..])[fd]) || api.room(old(api.adds))) then 0 else -1
      ensures ret == 0 ==>
        var e, e' := old(events[..])[fd], events[fd];
        && (e'.mask.r <==> e.mask.r || mask.r) && (e'.mask.w <==> e.mask.w || mask.w)
        && e'.rProc == (if mask.r then proc else e.rProc) && e'.wProc == (if mask.w then proc else e.wProc)
        && e'.data == data
        && events[..] == old(events[..])[fd := e'] && api.interest == old(api.interest)[fd as int := e'.mask]
        && maxFd == if fd > old(maxFd) then fd else old(maxFd)
      ensures ret == -1 ==>
        events[..] == old(events[..]) && api.interest == old(api.interest) && maxFd == old(maxFd)
      ensures api.adds == old(api.adds) + if fd < |old(events[..])| && !InUse(old(events[..])[fd]) then 1 else 0
      ensures Abs() == Apply(old(Abs()), Add(fd, mask, proc, data, api.room(old(api.adds))))
    {
      ghost var op := Add(fd, mask, proc, data, api.room(api.adds));
      ApplyAgreesExactly(Abs(), op);
      if fd >= fdsetSize { return -1; }
      var fe := events[fd];
      if fe.mask.None() {
        var r := api.AddEvent(fd, mask.Or(fe.mask));
        if r == -1 { return -1; }
      } else {
        api.ModEvent(fd, mask.Or(fe.mask));
      }
      events[fd] := Register(fe, mask, proc, data);
      maxFd := if maxFd > fd then maxFd else fd;
      return 0;
    }

    method DelFileEvent(fd: nat, mask: Mask)
      requires Valid()
      modifies this`maxFd, events, api`interest
      ensures Valid()
      ensures fd >= |old(events[..])| ==>
        events[..] == old(events[..]) && api.interest == old(api.interest) && maxFd == old(maxFd)
      ensures fd < |old(events[..])| ==>
        var e, left := old(events[..])[fd], events[fd].mask;
        && (left.r <==> e.mask.r && !mask.r) && (left.w <==> e.mask.w && !mask.w)
        && events[..] == old(events[..])[fd := e.(mask := left)]
        && api.interest == if left.r || left.w then old(api.interest)[fd as int := left]
                           else old(api.interest) - {fd as int}
      ensures Abs() == Apply(old(Abs()), Del(fd, mask))
    {
      ApplyAgrees(Abs(), Del(fd, mask));
      if fd >= fdsetSize { return; }
      var left := events[fd].mask.Without(mask);
      if left.None() {
        api.DelEvent(fd);
      } else {
        api.ModEvent(fd, left);
      }
      events[fd] := events[fd].(mask := left);
      if fd == maxFd && left.None() {
        var i := maxFd - 1;
        while i >= 0
          invariant -1 <= i < fdsetSize
          invariant ScanDown(events[..], maxFd - 1) == ScanDown(events[..], i)
        {
          if !events[i].mask.None() { break; }
          i := i - 1;
        }
        maxFd := i;
      }
    }

    method GetFileEvent(fd: nat) returns (mask: Mask)
      requires Valid()
      ensures mask == if fd < |events[..]| then events[..][fd].mask else Mask(false, false)
    {
      mask := if fd >= fdsetSize then NONE else events[fd].mask;
    }

    method Resize(newSize: nat) returns (ret: int)
      requires Valid()
      modifies this, api
      ensures Valid()
      ensures ret == 0 || ret == -1
      ensures ret == 0 <==> forall fd :: newSize <= fd < |old(events[..])| ==> !InUse(old(events[..])[fd])
      ensures ret == -1 ==> unchanged(this) && events[..] == old(events[..])
      ensures ret == 0 ==>
        && fdsetSize == events.Length == fired.Length == api.eventsSize == newSize
        && (forall fd :: 0 <= fd < newSize && fd < |old(events[..])| ==>
             events[..][fd].mask == old(events[..])[fd].mask
             && (InUse(old(events[..])[fd]) ==> events[..][fd] == old(events[..])[fd]))
        && (forall fd :: |old(events[..])| <= fd < newSize ==> !InUse(events[..][fd]))
      ensures api.interest == old(api.interest) && maxFd == old(maxFd)
      ensures Abs() == Apply(old(Abs()), LoopModel.Resize(newSize))
      ensures fresh(Repr() - old(Repr()))
    {
      hide Agree, Resized;
      ResizeByEntries(Abs(), newSize);
      ApplyAgrees(Abs(), LoopModel.Resize(newSize));
      if newSize == fdsetSize { return 0; }
      if maxFd >= newSize { return -1; }
      api.Resize(newSize);
      MoveArrays(newSize);
      return 0;
    }

    /** The new arrays, with everything behind the highest descriptor cleared. */
    method MoveArrays(newSize: nat)
      requires -1 <= maxFd < newSize
      modifies this
      ensures fresh(events) && fresh(fired) && fired.Length == newSize && fdsetSize == newSize && maxFd == old(maxFd)
      ensures events[..] == Resized(old(events[..]), maxFd, newSize)
    {
      events := MoveInto(newSize, events, EMPTY);
      fired := MoveInto(newSize, fired, NOT_FIRED);
      fdsetSize := newSize;
      ghost var moved := events[..];
      for i := maxFd + 1 to newSize
        modifies events
        invariant forall k :: 0 <= k < newSize ==>
          events[k] == if maxFd < k < i then moved[k].(mask := NONE) else moved[k]
      {
        events[i] := events[i].(mask := NONE);
      }
      assert events[..] == Resized(old(events[..]), maxFd, newSize);
    }

    /** `poll`: the report, translated, at the front of `_fired`. */
    method Poll(ready: seq<EpollEvent>) returns (n: nat)
      requires Valid() && Reportable(api.interest, ready, api.eventsSize)
      modifies api.events, fired
      ensures Valid() && Abs() == old(Abs())
      ensures n == |ready| <= fired.Length
      ensures forall i :: 0 <= i < n ==>
        && fired[i].fd == ready[i].fd
        && (fired[i].mask.r <==> ready[i].epollIn)
        && (fired[i].mask.w <==> ready[i].epollOut || ready[i].epollErr || ready[i].epollHup)
      ensures forall i :: 0 <= i < n ==> fired[i] == FiredBy(ready[i])
      ensures forall i :: 0 <= i < n ==> fired[i].fd < fdsetSize
    {
      n := api.Wait(ready);
      var i := 0;
      while i < n
        invariant i <= n
        invariant api.events[..n] == ready
        invariant Valid() && Abs() == old(Abs())
        invariant forall k :: 0 <= k < i ==> fired[k] == FiredBy(ready[k])
      {
        var e := api.events[i];
        assert e == ready[i];
        var mask := NONE;
        if e.epollIn { mask := mask.Or(READABLE); }
        if e.epollOut { mask := mask.Or(WRITABLE); }
        if e.epollErr { mask := mask.Or(WRITABLE); }
        if e.epollHup { mask := mask.Or(WRITABLE); }
        fired[i] := FiredEvent(e.fd, mask);
        i := i + 1;
      }
    }
  }
}
