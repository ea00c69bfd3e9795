/** The registration table of the event loop and the kernel's interest set, as values:
    what each operation does to them, and what every history of operations keeps. */
module LoopModel {
  import opened Bytes

  /** A set of AE_READABLE / AE_WRITABLE bits. */
  datatype Mask = Mask(r: bool, w: bool) {
    predicate None() { !r && !w }
    function Or(m: Mask): Mask { Mask(r || m.r, w || m.w) }
    function And(m: Mask): Mask { Mask(r && m.r, w && m.w) }
    function Without(m: Mask): Mask { Mask(r && !m.r, w && !m.w) }
  }

  const NONE := Mask(false, false)
  const READABLE := Mask(true, false)
  const WRITABLE := Mask(false, true)

  /** The address of a handler; 0 is the null pointer. */
  type Proc = nat

  /** `ae_file_event`; `data` is the untyped `_client_data` pointer. */
  datatype FileEvent = FileEvent(mask: Mask, rProc: Proc, wProc: Proc, data: object?)

  const EMPTY := FileEvent(NONE, 0, 0, null)

  type Table = seq<FileEvent>
  type Interest = map<int, Mask>

  function Register(e: FileEvent, mask: Mask, proc: Proc, data: object?): FileEvent {
    FileEvent(e.mask.Or(mask),
              if mask.r then proc else e.rProc,
              if mask.w then proc else e.wProc,
              data)
  }

  /** `get_file_event` */
  function MaskAt(t: Table, fd: nat): Mask {
    if fd < |t| then t[fd].mask else NONE
  }

  /* ---------- epoll_ctl ---------- */

  datatype Ctl = CtlAdd(fd: nat, mask: Mask) | CtlMod(fd: nat, mask: Mask) | CtlDel(fd: nat)

  /** The call finds what it expects: ADD an absent descriptor, MOD and DEL a present one. */
  predicate Lands(k: Interest, c: Ctl) {
    match c
    case CtlAdd(fd, _) => fd !in k
    case CtlMod(fd, _) => fd in k
    case CtlDel(fd) => fd in k
  }

  /** A call that does not land fails with EEXIST or ENOENT and changes nothing. */
  function Control(k: Interest, c: Ctl): Interest {
    if !Lands(k, c) then k else
    match c
    case CtlAdd(fd, m) => k[fd as int := m]
    case CtlMod(fd, m) => k[fd as int := m]
    case CtlDel(fd) => k - {fd as int}
  }

  /* ---------- the loop's operations ---------- */

  datatype Loop = Loop(table: Table, maxFd: int, interest: Interest)

  /** `admitted`: whether the kernel has room for one more descriptor. */
  datatype Op =
    | Add(fd: nat, mask: Mask, proc: Proc, data: object?, admitted: bool)
    | Del(fd: nat, mask: Mask)
    | Resize(size: nat)

  predicate WellFormed(op: Op) {
    op.Add? ==> !op.mask.None()
  }

  /** The downward search for a registered descriptor, starting at `i`. */
  function ScanDown(t: Table, i: int): (m: int)
    requires -1 <= i < |t|
    ensures -1 <= m <= i
    ensures m >= 0 ==> !t[m].mask.None()
    ensures forall k :: m < k <= i && 0 <= k ==> t[k].mask.None()
    decreases i + 1
  {
    if i < 0 || !t[i].mask.None() then i else ScanDown(t, i - 1)
  }

  function Resized(t: Table, maxFd: int, size: nat): Table {
    seq(size, i requires 0 <= i < size =>
      if i < |t| then (if i > maxFd then t[i].(mask := NONE) else t[i]) else EMPTY)
  }

  /** The epoll_ctl call an operation makes. */
  function CtlOf(l: Loop, op: Op): Option<Ctl> {
    match op
    case Add(fd, mask, _, _, _) =>
      if fd >= |l.table| then None
      else if l.table[fd].mask.None() then Some(CtlAdd(fd, mask.Or(l.table[fd].mask)))
      else Some(CtlMod(fd, mask.Or(l.table[fd].mask)))
    case Del(fd, mask) =>
      if fd >= |l.table| then None
      else if l.table[fd].mask.Without(mask).None() then Some(CtlDel(fd))
      else Some(CtlMod(fd, l.table[fd].mask.Without(mask)))
    case Resize(_) => None
  }

  /** The operation succeeds (AE_OK); a rejected ADD leaves everything as it was. */
  predicate Succeeds(l: Loop, op: Op) {
    match op
    case Add(fd, _, _, _, admitted) =>
      fd < |l.table| && (l.table[fd].mask.None() ==> admitted && fd !in l.interest)
    case Del(fd, _) => fd < |l.table|
    case Resize(size) => size == |l.table| || l.maxFd < size
  }

  function Apply(l: Loop, op: Op): Loop
    requires -1 <= l.maxFd < |l.table|
  {
    if !Succeeds(l, op) then l else
    match op
    case Add(fd, mask, proc, data, _) =>
      Loop(l.table[fd := Register(l.table[fd], mask, proc, data)],
           if l.maxFd > fd then l.maxFd else fd,
           Control(l.interest, CtlOf(l, op).value))
    case Del(fd, mask) =>
      var left := l.table[fd].mask.Without(mask);
      var table := l.table[fd := l.table[fd].(mask := left)];
      Loop(table,
           if fd == l.maxFd && left.None() then ScanDown(table, l.maxFd - 1) else l.maxFd,
           Control(l.interest, CtlOf(l, op).value))
    case Resize(size) =>
      if size == |l.table| then l
      else Loop(Resized(l.table, l.maxFd, size), l.maxFd, l.interest)
  }

  /* ---------- what every history keeps ---------- */

  /** `m` is the greatest registered descriptor, or -1. */
  predicate IsMaxFd(t: Table, m: int) {
    && -1 <= m < |t|
    && (m >= 0 ==> !t[m].mask.None())
    && forall i :: m < i < |t| && 0 <= i ==> t[i].mask.None()
  }

  /** The interest set holds exactly the registered descriptors, each with its mask. */
  predicate KernelAgrees(t: Table, k: Interest) {
    && (forall fd :: fd in k ==> 0 <= fd < |t| && !t[fd].mask.None() && k[fd] == t[fd].mask)
    && (forall fd :: 0 <= fd < |t| && !t[fd].mask.None() ==> fd in k)
  }

  predicate Agree(l: Loop) {
    IsMaxFd(l.table, l.maxFd) && KernelAgrees(l.table, l.interest)
  }

  lemma AddAgrees(l: Loop, op: Op)
    requires Agree(l) && op.Add? && Succeeds(l, op) && !(op.mask.None() && l.table[op.fd].mask.None())
    ensures Agree(Apply(l, op))
  {
    var l' := Apply(l, op);
    assert forall i :: 0 <= i < |l.table| && i != op.fd ==> l'.table[i] == l.table[i];
    assert l'.interest == l.interest[op.fd as int := l'.table[op.fd].mask];
  }

  lemma DelAgrees(l: Loop, op: Op)
    requires Agree(l) && op.Del? && Succeeds(l, op)
    ensures Agree(Apply(l, op))
  {
    var l' := Apply(l, op);
    assert forall i :: 0 <= i < |l.table| && i != op.fd ==> l'.table[i] == l.table[i];
    var left := l'.table[op.fd].mask;
    assert l'.interest == if left.None() then l.interest - {op.fd as int} else l.interest[op.fd as int := left];
  }

  lemma ApplyAgrees(l: Loop, op: Op)
    requires Agree(l) && WellFormed(op)
    ensures Agree(Apply(l, op))
  {
    if Succeeds(l, op) {
      match op
      case Add(_, _, _, _, _) => AddAgrees(l, op);
      case Del(_, _) => DelAgrees(l, op);
      case Resize(size) =>
    }
  }

  /** The one operation that breaks the agreement: registering an unregistered descriptor
      for no event at all, which the kernel takes in and the table does not show. */
  lemma ApplyAgreesExactly(l: Loop, op: Op)
    requires Agree(l)
    ensures Agree(Apply(l, op)) <==>
      !(op.Add? && Succeeds(l, op) && op.mask.None() && l.table[op.fd].mask.None())
  {
    if op.Add? && Succeeds(l, op) {
      if op.mask.None() && l.table[op.fd].mask.None() {
        var l' := Apply(l, op);
        assert op.fd in l'.interest && l'.table[op.fd].mask.None();
      } else {
        AddAgrees(l, op);
      }
    } else if Succeeds(l, op) {
      ApplyAgrees(l, op);
    }
  }

  function Run(l: Loop, ops: seq<Op>): (l': Loop)
    requires Agree(l) && forall i :: 0 <= i < |ops| ==> WellFormed(ops[i])
    ensures Agree(l')
    decreases |ops|
  {
    if ops == [] then l else
    ApplyAgrees(l, ops[0]);
    Run(Apply(l, ops[0]), ops[1..])
  }

  /** Over any history, from any agreeing state: every call lands, except a DEL of a
      descriptor that is not registered, which changes nothing at all. */
  lemma {:induction false} CallsLand(l: Loop, ops: seq<Op>, i: nat)
    requires Agree(l) && i < |ops| && forall j :: 0 <= j < |ops| ==> WellFormed(ops[j])
    ensures var at := Run(l, ops[..i]);
      var c := CtlOf(at, ops[i]);
      c.Some? ==> Lands(at.interest, c.value)
                  || (c.value.CtlDel? && MaskAt(at.table, c.value.fd).None() && Apply(at, ops[i]) == at)
  {
    var at := Run(l, ops[..i]);
    var op := ops[i];
    if op.Del? && op.fd < |at.table| && at.table[op.fd].mask.None() {
      assert at.table[op.fd].mask.Without(op.mask) == NONE;
      assert at.table[op.fd := at.table[op.fd].(mask := NONE)] == at.table;
    }
  }

  /** A resize either fails, exactly when a registered descriptor would not fit, or keeps
      every registration: each descriptor below the new size has the mask it had. */
  lemma ResizeKeeps(l: Loop, size: nat)
    requires Agree(l)
    ensures Succeeds(l, Resize(size)) <==> forall fd: nat :: size <= fd ==> MaskAt(l.table, fd).None()
    ensures Succeeds(l, Resize(size)) ==>
      var l' := Apply(l, Resize(size));
      |l'.table| == size && forall fd: nat ::
        MaskAt(l'.table, fd) == MaskAt(l.table, fd)
        && (!MaskAt(l.table, fd).None() ==> l'.table[fd] == l.table[fd])
  {
    if !Succeeds(l, Resize(size)) {
      assert !MaskAt(l.table, l.maxFd).None();
    }
  }

  /** Two deletions after one registration restore the mask: nothing of it is left, and a
      further deletion, as the client destructor makes, is without effect. */
  lemma DeleteTwice(l: Loop, fd: nat)
    requires Agree(l)
    ensures var once := Run(l, [Del(fd, READABLE), Del(fd, WRITABLE)]);
      && MaskAt(once.table, fd).None() && fd !in once.interest
      && Run(once, [Del(fd, READABLE), Del(fd, WRITABLE)]) == once
      && forall g: nat :: g != fd ==> MaskAt(once.table, g) == MaskAt(l.table, g)
  {
    var a := Apply(l, Del(fd, READABLE));
    ApplyAgrees(l, Del(fd, READABLE));
    var b := Apply(a, Del(fd, WRITABLE));
    ApplyAgrees(a, Del(fd, WRITABLE));
    assert Run(b, []) == b;
    assert Run(a, [Del(fd, WRITABLE)]) == b;
    assert [Del(fd, READABLE), Del(fd, WRITABLE)][1..] == [Del(fd, WRITABLE)];
    assert Run(l, [Del(fd, READABLE), Del(fd, WRITABLE)]) == b;
    if fd < |l.table| {
      assert b.table[fd].mask == NONE;
      assert b.table[fd := b.table[fd].(mask := NONE)] == b.table;
    }
    assert Apply(b, Del(fd, READABLE)) == b;
    assert Apply(b, Del(fd, WRITABLE)) == b;
    assert Run(b, [Del(fd, WRITABLE)]) == b;
  }

  /** A resize entry by entry: registered ones stay as they are, new ones are empty. */
  lemma ResizeByEntries(l: Loop, size: nat)
    requires Agree(l)
    ensures l.maxFd >= -1
    ensures var t, t' := l.table, Apply(l, Resize(size)).table;
      if Succeeds(l, Resize(size)) then
        && |t'| == size
        && (forall fd :: size <= fd < |t| ==> !t[fd].mask.r && !t[fd].mask.w)
        && (forall fd :: 0 <= fd < size && fd < |t| ==>
             t'[fd].mask == t[fd].mask && (t[fd].mask.r || t[fd].mask.w ==> t'[fd] == t[fd]))
        && (forall fd :: |t| <= fd < size ==> !t'[fd].mask.r && !t'[fd].mask.w)
      else
        t' == t && exists fd :: size <= fd < |t| && (t[fd].mask.r || t[fd].mask.w)
  {
    hide KernelAgrees;
    if !Succeeds(l, Resize(size)) {
      assert l.table[l.maxFd].mask.r || l.table[l.maxFd].mask.w;
    }
  }
}
