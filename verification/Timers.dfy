/** Time events of ae.cpp: deadlines, the timer list, and the sleep they bound. */
module Timers {
  import opened Bytes

  /** C++ `/` and `%` by a positive divisor: truncation toward zero. */
  function TruncDiv(a: int, b: int): int
    requires b > 0
  {
    if a >= 0 then a / b else -((-a) / b)
  }

  function TruncMod(a: int, b: int): int
    requires b > 0
  {
    a - b * TruncDiv(a, b)
  }

  /** By 1000, the one divisor in use: the remainder has the sign of the dividend. */
  lemma TruncExactly(a: int)
    ensures a == 1000 * TruncDiv(a, 1000) + TruncMod(a, 1000) && -1000 < TruncMod(a, 1000) < 1000
    ensures (TruncMod(a, 1000) > 0 ==> a > 0) && (TruncMod(a, 1000) < 0 ==> a < 0)
  {
  }

  const DELETED_ID := -1

  datatype TimeEvent = TimeEvent(id: int, whenSec: int, whenMs: int) {
    /** Milliseconds since the epoch */
    function Deadline(): int { whenSec * 1000 + whenMs }
    predicate Normalised() { 0 <= whenMs < 1000 }
  }

  datatype Clock = Clock(sec: int, ms: int) {
    function Now(): int { sec * 1000 + ms }
    predicate Valid() { 0 <= ms < 1000 }
  }

  /** A delay that does not borrow from the current second; no nonnegative one does. */
  predicate KeepsSecond(delay: int, now: Clock) {
    now.ms + TruncMod(delay, 1000) >= 0
  }

  /** The deadline in its two fields: a carry is moved to the seconds, a borrow is not. */
  function Made(id: int, delay: int, now: Clock): TimeEvent {
    var sec, ms := now.sec + TruncDiv(delay, 1000), now.ms + TruncMod(delay, 1000);
    if ms >= 1000 then TimeEvent(id, sec + 1, ms - 1000) else TimeEvent(id, sec, ms)
  }

  /** The deadline is exact for every delay, and normalised unless the delay borrows. */
  lemma MadeIs(id: int, delay: int, now: Clock)
    requires now.Valid()
    ensures var te := Made(id, delay, now);
      && te.id == id && te.Deadline() == now.Now() + delay && -1000 < te.whenMs < 1000
      && (te.Normalised() <==> KeepsSecond(delay, now))
    ensures delay >= 0 ==> KeepsSecond(delay, now)
  {
  }

  /** The `ae_time_event` constructor */
  method NewTimeEvent(id: int, delay: int, now: Clock) returns (te: TimeEvent)
    requires now.Valid()
    ensures te == Made(id, delay, now)
  {
    var whenSec := now.sec + TruncDiv(delay, 1000);
    var whenMs := now.ms + TruncMod(delay, 1000);
    while whenMs >= 1000
      invariant whenMs < 2000
      invariant if whenMs >= 1000 then Made(id, delay, now) == TimeEvent(id, whenSec + 1, whenMs - 1000)
                else Made(id, delay, now) == TimeEvent(id, whenSec, whenMs)
    {
      whenSec := whenSec + 1;
      whenMs := whenMs - 1000;
    }
    te := TimeEvent(id, whenSec, whenMs);
  }

  /** The order used by `nearest_time_event` */
  predicate Before(a: TimeEvent, b: TimeEvent) {
    a.whenSec < b.whenSec || (a.whenSec == b.whenSec && a.whenMs < b.whenMs)
  }

  lemma BeforeIsEarlier(a: TimeEvent, b: TimeEvent)
    requires a.Normalised() && b.Normalised()
    ensures Before(a, b) <==> a.Deadline() < b.Deadline()
  {
  }

  /** The scan orders the two as their deadlines are ordered. */
  predicate Ordered(a: TimeEvent, b: TimeEvent) {
    && (Before(a, b) <==> a.Deadline() < b.Deadline())
    && (Before(b, a) <==> b.Deadline() < a.Deadline())
  }

  /** Of the deadlines the constructor makes, the normalised ones are exactly those that the
      scan orders rightly against every normalised one. */
  lemma OrderedExactly(te: TimeEvent)
    requires te.whenMs < 1000
    ensures (forall b: TimeEvent :: b.Normalised() ==> Ordered(te, b)) <==> te.Normalised()
  {
    if !te.Normalised() {
      var b := TimeEvent(0, te.whenSec - 1, 999);
      assert b.Normalised() && !Ordered(te, b);
    }
  }

  /* ---------- the timer list ---------- */

  /** Newest first; a deleted timer stays in the list under the id -1. */
  datatype Timers = Timers(list: seq<TimeEvent>, nextId: nat)

  const NO_TIMERS := Timers([], 0)

  /** Position decides identity: a live timer `i` from the front is number nextId-1-i. */
  predicate IdsOk(t: Timers) {
    && |t.list| == t.nextId
    && forall i :: 0 <= i < |t.list| ==> t.list[i].id == DELETED_ID || t.list[i].id == t.nextId - 1 - i
  }

  predicate Live(t: Timers, id: int) {
    id >= 0 && exists i :: 0 <= i < |t.list| && t.list[i].id == id
  }

  function IndexOf(list: seq<TimeEvent>, id: int): (i: nat)
    ensures i <= |list|
    ensures i < |list| ==> list[i].id == id
    ensures forall k :: 0 <= k < i ==> list[k].id != id
  {
    if list == [] || list[0].id == id then 0 else 1 + IndexOf(list[1..], id)
  }

  /** `del_time_event`: the first timer with that id is marked. */
  function Deleted(t: Timers, id: int): Timers {
    var i := IndexOf(t.list, id);
    if i < |t.list| then t.(list := t.list[i := t.list[i].(id := DELETED_ID)]) else t
  }

  datatype TimerOp = AddTimer(delay: int, now: Clock) | DelTimer(id: int)

  function Step(t: Timers, op: TimerOp): Timers {
    match op
    case AddTimer(delay, now) => Timers([Made(t.nextId, delay, now)] + t.list, t.nextId + 1)
    case DelTimer(id) => Deleted(t, id)
  }

  function Run(t: Timers, ops: seq<TimerOp>): Timers
    decreases |ops|
  {
    if ops == [] then t else Run(Step(t, ops[0]), ops[1..])
  }

  /** Any history of additions and deletions keeps ids distinct, strictly decreasing from
      the front, and below the next id. */
  lemma {:induction false} HistoryKeepsIds(t: Timers, ops: seq<TimerOp>)
    requires IdsOk(t)
    ensures IdsOk(Run(t, ops))
    ensures var l := Run(t, ops).list;
      forall i, j :: 0 <= i < j < |l| && l[i].id != DELETED_ID && l[j].id != DELETED_ID ==> l[i].id > l[j].id
    decreases |ops|
  {
    if ops != [] {
      HistoryKeepsIds(Step(t, ops[0]), ops[1..]);
    }
  }

  predicate Absent(t: Timers, id: int) {
    forall i :: 0 <= i < |t.list| ==> t.list[i].id != id
  }

  lemma {:induction false} StaysAbsent(t: Timers, id: int, ops: seq<TimerOp>)
    requires IdsOk(t) && 0 <= id < t.nextId && Absent(t, id)
    ensures Absent(Run(t, ops), id)
    decreases |ops|
  {
    if ops != [] {
      StaysAbsent(Step(t, ops[0]), id, ops[1..]);
    }
  }

  /** A deleted timer is gone for good: whatever history follows, its id is live on no
      timer, and deleting it again finds nothing, since ids are never reused. */
  lemma DeletedStaysDeleted(t: Timers, id: int, ops: seq<TimerOp>)
    requires IdsOk(t) && 0 <= id < t.nextId
    ensures var u := Run(Deleted(t, id), ops);
      !Live(u, id) && IndexOf(u.list, id) == |u.list| && Deleted(u, id) == u
  {
    StaysAbsent(Deleted(t, id), id, ops);
  }

  /** Deleting takes exactly the named timer out of the live ones and moves no deadline. */
  lemma DeleteMarksOne(t: Timers, id: int, other: int)
    requires IdsOk(t) && id >= 0 && other >= 0
    ensures Live(Deleted(t, id), other) <==> Live(t, other) && other != id
    ensures |Deleted(t, id).list| == |t.list|
    ensures forall i :: 0 <= i < |t.list| ==> Deleted(t, id).list[i].Deadline() == t.list[i].Deadline()
  {
    var d := Deleted(t, id);
    if Live(t, other) && other != id {
      var i :| 0 <= i < |t.list| && t.list[i].id == other;
      assert d.list[i].id == other;
    }
  }

  predicate AllNormalised(list: seq<TimeEvent>) {
    forall i :: 0 <= i < |list| ==> list[i].Normalised()
  }

  /** After any history, all deadlines are normalised exactly if no addition borrowed:
      deletion leaves a timer's deadline where it is, and nothing is ever taken out. */
  lemma {:induction false} HistoryNormalises(t: Timers, ops: seq<TimerOp>)
    requires forall i :: 0 <= i < |ops| && ops[i].AddTimer? ==> ops[i].now.Valid()
    ensures AllNormalised(Run(t, ops).list) <==>
      AllNormalised(t.list) && forall i :: 0 <= i < |ops| && ops[i].AddTimer? ==> KeepsSecond(ops[i].delay, ops[i].now)
    decreases |ops|
  {
    hide KeepsSecond, Made;
    if ops != [] {
      StepNormalises(t, ops[0]);
      HistoryNormalises(Step(t, ops[0]), ops[1..]);
      assert forall i :: 0 < i < |ops| ==> ops[i] == ops[1..][i - 1];
    }
  }

  lemma StepNormalises(t: Timers, op: TimerOp)
    requires op.AddTimer? ==> op.now.Valid()
    ensures AllNormalised(Step(t, op).list) <==>
      AllNormalised(t.list) && (op.AddTimer? ==> KeepsSecond(op.delay, op.now))
  {
    hide KeepsSecond, Made;
    var t' := Step(t, op);
    match op
    case AddTimer(delay, now) =>
      MadeIs(t.nextId, delay, now);
      assert t'.list[0] == Made(t.nextId, delay, now);
      assert forall i :: 0 <= i < |t.list| ==> t.list[i] == t'.list[i + 1];
    case DelTimer(id) =>
      assert forall i :: 0 <= i < |t.list| ==> t'.list[i].whenMs == t.list[i].whenMs;
  }

  /** `e` is listed and no listed timer, deleted ones included, is due before it. */
  predicate IsEarliest(list: seq<TimeEvent>, e: TimeEvent) {
    e in list && forall i :: 0 <= i < |list| ==> e.Deadline() <= list[i].Deadline()
  }

  class TimerQueue {
    var list: seq<TimeEvent>
    var nextId: nat

    ghost function Abs(): Timers
      reads this
    {
      Timers(list, nextId)
    }

    constructor ()
      ensures Abs() == Timers([], 0) && IdsOk(Abs())
    {
      list := [];
      nextId := 0;
    }

    method AddTimeEvent(delay: int, now: Clock) returns (id: int)
      requires IdsOk(Abs()) && now.Valid()
      modifies this
      ensures IdsOk(Abs())
      ensures Abs() == Step(old(Abs()), AddTimer(delay, now))
      ensures |list| > 0 && list[0].id == old(nextId) && list[0].Deadline() == now.Now() + delay
      ensures list[1..] == old(list) && nextId == old(nextId) + 1
      ensures AllNormalised(list) <==> AllNormalised(old(list)) && KeepsSecond(delay, now)
      ensures id == old(nextId) && Live(Abs(), id)
    {
      var te := NewTimeEvent(nextId, delay, now);
      nextId := nextId + 1;
      list := [te] + list;
      id := list[0].id;
      MadeIs(old(nextId), delay, now);
      assert list[1..] == old(list);
    }

    /** 0 is AE_OK, -1 AE_ERR. */
    method DelTimeEvent(id: int) returns (ret: int)
      requires IdsOk(Abs())
      modifies this
      ensures IdsOk(Abs())
      ensures Abs() == Deleted(old(Abs()), id) && nextId == old(nextId)
      ensures ret == -1 ==> list == old(list)
      ensures ret == 0 ==> exists i :: 0 <= i < |old(list)| && old(list)[i].id == id
                             && (forall k :: 0 <= k < i ==> old(list)[k].id != id)
                             && list == old(list)[i := old(list)[i].(id := -1)]
      ensures ret == if exists i :: 0 <= i < |old(list)| && old(list)[i].id == id then 0 else -1
      ensures id >= 0 ==> ret == if Live(old(Abs()), id) then 0 else -1
    {
      var i := 0;
      while i != |list|
        invariant i <= |list| && list == old(list) && nextId == old(nextId)
        invariant forall k :: 0 <= k < i ==> list[k].id != id
        decreases |list| - i
      {
        if list[i].id == id {
          assert i == IndexOf(list, id);
          list := list[i := list[i].(id := DELETED_ID)];
          return 0;
        }
        i := i + 1;
      }
      return -1;
    }

    /** Deleted timers are considered too. With normalised deadlines the event found is the
        earliest in time. */
    method NearestTimeEvent() returns (best: Option<TimeEvent>)
      ensures best.None? <==> list == []
      ensures best.Some? ==> Scanned(list, best.value)
      ensures best.Some? && AllNormalised(list) ==> IsEarliest(list, best.value)
    {
      best := None;
      var i := 0;
      while i != |list|
        invariant i <= |list|
        invariant best.None? <==> i == 0
        invariant best.Some? ==> best.value in list[..i] && forall k :: 0 <= k < i ==> !Before(list[k], best.value)
        decreases |list| - i
      {
        if best.None? || Before(list[i], best.value) {
          best := Some(list[i]);
        }
        i := i + 1;
      }
      assert list[..i] == list;
      if best.Some? && AllNormalised(list) {
        ScannedIsEarliest(list, best.value);
      }
    }

    /** The epoll_wait timeout of `process_events`: with timers, the time to the earliest
        listed deadline, if that is an `int` and no deadline borrowed. */
    method Timeout(flags: Flags, now: Clock) returns (t: int)
      ensures flags.dontWait ==> t == 0
      ensures !flags.dontWait && (!flags.timeEvents || list == []) ==> t == -1
      ensures !flags.dontWait && flags.timeEvents && list != [] && AllNormalised(list) ==>
        var wait := if Earliest(list) > now.Now() then Earliest(list) - now.Now() else 0;
        && (t == wait <==> wait < 0x8000_0000)
        && -0x8000_0000 <= t < 0x8000_0000 && (t - wait) % 0x1_0000_0000 == 0
    {
      hide Scanned, Earliest, ToInt32;
      var nearest := None;
      if flags.timeEvents && !flags.dontWait {
        nearest := NearestTimeEvent();
      }
      if nearest.Some? {
        SleepIs(nearest.value, now);
        if AllNormalised(list) { ScannedIsEarliest(list, nearest.value); }
      }
      t := PollTimeout(flags, nearest, now);
    }
  }

  /* ---------- the sleep ---------- */

  datatype Flags = Flags(fileEvents: bool, timeEvents: bool, dontWait: bool)

  /** `long` to `int` */
  function ToInt32(x: int): int {
    var low := x % 0x1_0000_0000;
    if low < 0x8000_0000 then low else low - 0x1_0000_0000
  }

  /** The epoll_wait timeout `process_events` arrives at: a timeval split into seconds and
      microseconds, rejoined as milliseconds; -1 waits without bound. */
  function PollTimeout(flags: Flags, nearest: Option<TimeEvent>, now: Clock): int {
    if flags.timeEvents && !flags.dontWait && nearest.Some? then
      var ms := (nearest.value.whenSec - now.sec) * 1000 + (nearest.value.whenMs - now.ms);
      var sec := if ms > 0 then TruncDiv(ms, 1000) else 0;
      var usec := if ms > 0 then TruncMod(ms, 1000) * 1000 else 0;
      ToInt32(sec * 1000 + TruncDiv(usec, 1000))
    else if flags.dontWait then 0
    else -1
  }

  function UntilDue(deadline: int, now: Clock): nat {
    if deadline > now.Now() then deadline - now.Now() else 0
  }

  /** The earliest listed deadline, deleted timers included */
  function Earliest(list: seq<TimeEvent>): (m: int)
    requires list != []
    ensures forall i :: 0 <= i < |list| ==> m <= list[i].Deadline()
    ensures exists i :: 0 <= i < |list| && list[i].Deadline() == m
  {
    if |list| == 1 then list[0].Deadline() else
    var m := Earliest(list[1..]);
    if list[0].Deadline() < m then list[0].Deadline() else m
  }

  lemma SleepIs(e: TimeEvent, now: Clock)
    ensures var t := PollTimeout(Flags(true, true, false), Some(e), now);
      && t == ToInt32(UntilDue(e.Deadline(), now))
      && -0x8000_0000 <= t < 0x8000_0000 && (t - UntilDue(e.Deadline(), now)) % 0x1_0000_0000 == 0
      && (t == UntilDue(e.Deadline(), now) <==> UntilDue(e.Deadline(), now) < 0x8000_0000)
  {
    var ms := e.Deadline() - now.Now();
    if ms > 0 {
      assert TruncDiv(TruncMod(ms, 1000) * 1000, 1000) == TruncMod(ms, 1000);
      assert TruncDiv(ms, 1000) * 1000 + TruncMod(ms, 1000) == ms;
    }
  }

  /** What the nearest-timer scan returns: a listed event that no other precedes. */
  predicate Scanned(list: seq<TimeEvent>, e: TimeEvent) {
    e in list && forall i :: 0 <= i < |list| ==> !Before(list[i], e)
  }

  lemma ScannedIsEarliest(list: seq<TimeEvent>, e: TimeEvent)
    requires AllNormalised(list) && Scanned(list, e)
    ensures IsEarliest(list, e) && e.Deadline() == Earliest(list)
  {
    forall i | 0 <= i < |list|
      ensures e.Deadline() <= list[i].Deadline()
    {
      BeforeIsEarlier(list[i], e);
    }
  }

  /** After any history of additions that do not borrow, and of deletions, the loop sleeps
      until the earliest listed deadline and no longer, exactly when that wait fits an
      `int`; past that the timeout wraps. */
  lemma SleepBound(ops: seq<TimerOp>, e: TimeEvent, now: Clock)
    requires forall i :: 0 <= i < |ops| && ops[i].AddTimer? ==>
      ops[i].now.Valid() && KeepsSecond(ops[i].delay, ops[i].now)
    requires Scanned(Run(NO_TIMERS, ops).list, e)
    ensures var t := PollTimeout(Flags(true, true, false), Some(e), now);
      t == UntilDue(Earliest(Run(NO_TIMERS, ops).list), now)
      <==> UntilDue(Earliest(Run(NO_TIMERS, ops).list), now) < 0x8000_0000
  {
    hide PollTimeout, KeepsSecond, Scanned, Earliest, Run, UntilDue, ToInt32;
    HistoryNormalises(NO_TIMERS, ops);
    assert AllNormalised(NO_TIMERS.list);
    ScannedIsEarliest(Run(NO_TIMERS, ops).list, e);
    SleepIs(e, now);
  }

  lemma MadeMissed()
    ensures Made(0, 200, Clock(4, 0)) == TimeEvent(0, 4, 200)
    ensures Made(1, -900, Clock(5, 0)) == TimeEvent(1, 5, -900)
  {
  }

  /** A deadline that borrows, made through the queue, and the scan that misses it: 200 ms
      after 4 s, and 900 ms before 5 s. */
  method MissedTimer() returns (list: seq<TimeEvent>, best: TimeEvent)
    ensures list == [TimeEvent(1, 5, -900), TimeEvent(0, 4, 200)]
    ensures best == list[1] && list[0].Deadline() < best.Deadline()
  {
    hide Made;
    MadeMissed();
    var q := new TimerQueue();
    var a := q.AddTimeEvent(200, Clock(4, 0));
    var b := q.AddTimeEvent(-900, Clock(5, 0));
    list := q.list;
    var nearest := q.NearestTimeEvent();
    best := nearest.value;
  }
}
