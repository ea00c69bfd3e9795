/** Any number of clients and one server, with every command carried out whole and one at a
    time: the orders in which that can happen, and what each leads to. */
module SerialOrders {
  import opened Bytes
  import opened Arguments
  import opened Framing
  import opened Protocol

  /** The lines typed at one client, and the files it begins with */
  datatype Script = Script(lines: seq<bytes>, files: Files)

  datatype Setup = Setup(scripts: seq<Script>, server: Files)

  /** One client: the number of its lines carried out, its files, and what it has shown */
  datatype Terminal = Terminal(done: nat, files: Files, screen: seq<bytes>)

  datatype Serial = Serial(terminals: seq<Terminal>, server: Files)

  /* ---------- how far a script gets ---------- */

  /** Some line asks for a download that the server rejects. */
  ghost predicate Stranded(lines: seq<bytes>) {
    exists i :: 0 <= i < |lines| && Unanswered(Meaning(lines[i]))
  }

  /** The lines the client gets to take up: all, or those through the first download that
      the server rejects. */
  function Limit(lines: seq<bytes>): (n: nat)
    ensures n <= |lines|
  {
    if lines == [] then 0
    else if Unanswered(Meaning(lines[0])) then 1
    else 1 + Limit(lines[1..])
  }

  lemma {:induction false} LimitIs(lines: seq<bytes>)
    ensures forall i :: 0 <= i < Limit(lines) - 1 ==> !Unanswered(Meaning(lines[i]))
    ensures Stranded(lines) ==> Limit(lines) > 0 && Unanswered(Meaning(lines[Limit(lines) - 1]))
    ensures !Stranded(lines) ==> Limit(lines) == |lines|
  {
    hide Unanswered, Meaning;
    if lines != [] && !Unanswered(Meaning(lines[0])) {
      LimitIs(lines[1..]);
      if Stranded(lines) {
        var i :| 0 <= i < |lines| && Unanswered(Meaning(lines[i]));
        assert lines[1..][i - 1] == lines[i];
      }
      if Stranded(lines[1..]) {
        var i :| 0 <= i < |lines[1..]| && Unanswered(Meaning(lines[1..][i]));
        assert lines[i + 1] == lines[1..][i];
      }
    }
  }

  /** By the words: some line is "file_recv" with a name that is no word or several when it
      is read again. */
  lemma StrandedExactly(lines: seq<bytes>)
    ensures Stranded(lines) <==>
      (exists i :: 0 <= i < |lines| && |Tokens(lines[i])| == 2
                   && Tokens(lines[i])[0] == Ascii("file_recv") && |Tokens(Tokens(lines[i])[1])| != 1)
  {
    hide Tokens, Meaning, Ascii;
    forall i | 0 <= i < |lines|
      ensures Unanswered(Meaning(lines[i])) <==>
        |Tokens(lines[i])| == 2 && Tokens(lines[i])[0] == Ascii("file_recv") && |Tokens(Tokens(lines[i])[1])| != 1
    {
      MeaningExactly(lines[i]);
    }
  }

  lemma BelowLimit(lines: seq<bytes>, n: nat)
    requires n < |lines| && n <= Limit(lines) && (n > 0 ==> !Unanswered(Meaning(lines[n - 1])))
    ensures n < Limit(lines)
  {
    hide Unanswered, Meaning, Limit, Stranded;
    LimitIs(lines);
  }

  /* ---------- serial orders ---------- */

  function Begin(u: Setup): Serial {
    Serial(seq(|u.scripts|, k requires 0 <= k < |u.scripts| => Terminal(0, u.scripts[k].files, [])), u.server)
  }

  function WorldOf(w: Serial, k: nat): World
    requires k < |w.terminals|
  {
    World(w.terminals[k].files, w.server, w.terminals[k].screen)
  }

  /** Client `k` has a line to take up. */
  predicate HasLine(u: Setup, w: Serial, k: nat) {
    k < |u.scripts| && k < |w.terminals| && w.terminals[k].done < Limit(u.scripts[k].lines)
  }

  function ActionOf(u: Setup, w: Serial, k: nat): Action
    requires HasLine(u, w, k)
  {
    Meaning(u.scripts[k].lines[w.terminals[k].done])
  }

  /** The client's next line is carried out, if it can be. */
  function Perform(u: Setup, w: Serial, k: nat): (w': Serial)
    requires HasLine(u, w, k)
    ensures |w'.terminals| == |w.terminals|
  {
    var a, v := ActionOf(u, w, k), WorldOf(w, k);
    var v' := if CanDo(a, v) then Do(a, v) else v;
    Serial(w.terminals[k := Terminal(w.terminals[k].done + 1, v'.client, v'.screen)], v'.server)
  }

  /** What the setup comes to when lines are carried out in this order; the order names
      clients, and each takes up its own lines from first to last. */
  function After(u: Setup, order: seq<nat>): (w: Serial)
    ensures |w.terminals| == |u.scripts|
  {
    if order == [] then Begin(u) else
    var w := After(u, order[..|order| - 1]);
    var k := order[|order| - 1];
    if HasLine(u, w, k) then Perform(u, w, k) else w
  }

  predicate IsOrder(u: Setup, order: seq<nat>) {
    order == [] || (
      IsOrder(u, order[..|order| - 1]) && HasLine(u, After(u, order[..|order| - 1]), order[|order| - 1]))
  }

  lemma OrderMore(u: Setup, order: seq<nat>, k: nat)
    requires IsOrder(u, order) && HasLine(u, After(u, order), k)
    ensures IsOrder(u, order + [k])
    ensures After(u, order + [k]) == Perform(u, After(u, order), k)
  {
    hide Perform, HasLine;
    assert (order + [k])[..|order|] == order;
  }

  /** Every client has taken up all the lines it gets to. */
  predicate Complete(u: Setup, order: seq<nat>) {
    forall k :: 0 <= k < |u.scripts| ==> After(u, order).terminals[k].done == Limit(u.scripts[k].lines)
  }

  /** In whatever order lines are carried out, the next one of each client can be: no blank
      line, and no file missing or unusable. */
  ghost predicate Sound(u: Setup) {
    forall order: seq<nat>, k: nat :: IsOrder(u, order) && HasLine(u, After(u, order), k) ==>
      CanDo(ActionOf(u, After(u, order), k), WorldOf(After(u, order), k))
  }

  lemma SoundAt(u: Setup, order: seq<nat>, k: nat)
    requires Sound(u) && IsOrder(u, order) && HasLine(u, After(u, order), k)
    ensures CanDo(ActionOf(u, After(u, order), k), WorldOf(After(u, order), k))
  {
  }

  /** One client on its own can take up its first `n` lines. */
  lemma {:induction false} Alone(u: Setup, k: nat, n: nat) returns (order: seq<nat>)
    requires k < |u.scripts| && n <= Limit(u.scripts[k].lines)
    ensures IsOrder(u, order) && After(u, order).terminals[k].done == n
  {
    hide CanDo, Do, Meaning;
    order := [];
    if n > 0 {
      order := Alone(u, k, n - 1);
      OrderMore(u, order, k);
      order := order + [k];
    }
  }

  /** A setup is not sound if a client gets to a blank line: `argv(0)` of an empty vector
      has no defined effect. */
  lemma BlankIsNotSound(u: Setup, k: nat, i: nat)
    requires k < |u.scripts| && i < Limit(u.scripts[k].lines) && Meaning(u.scripts[k].lines[i]).Blank?
    ensures !Sound(u)
  {
    var order := Alone(u, k, i);
    if Sound(u) {
      SoundAt(u, order, k);
    }
  }

  /* ---------- a sufficient condition that can be read off the setup ---------- */

  predicate AllFit(files: Files) {
    forall name :: name in files ==> FileFits(files[name])
  }

  /** Every line a client gets to names files that are there from the start. */
  predicate NamesExisting(u: Setup) {
    && AllFit(u.server)
    && forall k :: 0 <= k < |u.scripts| ==>
      && AllFit(u.scripts[k].files)
      && forall i :: 0 <= i < Limit(u.scripts[k].lines) ==>
           CanDo(Meaning(u.scripts[k].lines[i]), World(u.scripts[k].files, u.server, []))
  }

  /** Nobody deletes a file, and what is transferred fits. */
  predicate Grown(u: Setup, w: Serial) {
    && AllFit(w.server) && u.server.Keys <= w.server.Keys
    && |w.terminals| == |u.scripts|
    && forall k :: 0 <= k < |u.scripts| ==>
      AllFit(w.terminals[k].files) && u.scripts[k].files.Keys <= w.terminals[k].files.Keys
  }

  lemma CanStillDo(a: Action, client: Files, server: Files, w: World)
    requires CanDo(a, World(client, server, []))
    requires client.Keys <= w.client.Keys && server.Keys <= w.server.Keys && AllFit(w.client) && AllFit(w.server)
    ensures CanDo(a, w)
    ensures var w' := Do(a, w);
      client.Keys <= w'.client.Keys && server.Keys <= w'.server.Keys && AllFit(w'.client) && AllFit(w'.server)
  {
    hide Seen;
  }

  lemma {:induction false} OrderGrows(u: Setup, order: seq<nat>)
    requires NamesExisting(u) && IsOrder(u, order)
    ensures Grown(u, After(u, order))
  {
    hide CanDo, Do, AllFit, Meaning, Limit;
    if order != [] {
      var before, k := order[..|order| - 1], order[|order| - 1];
      OrderGrows(u, before);
      var w := After(u, before);
      CanStillDo(ActionOf(u, w, k), u.scripts[k].files, u.server, WorldOf(w, k));
    }
  }

  /** If all files named are there from the start, every order is good. */
  lemma ExistingIsSound(u: Setup)
    requires NamesExisting(u)
    ensures Sound(u)
  {
    hide CanDo, Do, AllFit, Meaning, Limit;
    forall order: seq<nat>, k: nat | IsOrder(u, order) && HasLine(u, After(u, order), k)
      ensures CanDo(ActionOf(u, After(u, order), k), WorldOf(After(u, order), k))
    {
      OrderGrows(u, order);
      CanStillDo(ActionOf(u, After(u, order), k), u.scripts[k].files, u.server, WorldOf(After(u, order), k));
    }
  }

  /* ---------- clients that do not meet ---------- */

  /** The world of client `k` after its first `n` lines, with nobody else there */
  function Solo(u: Setup, k: nat, n: nat): World
    requires k < |u.scripts| && n <= |u.scripts[k].lines|
  {
    if n == 0 then World(u.scripts[k].files, u.server, []) else
    var a, w := Meaning(u.scripts[k].lines[n - 1]), Solo(u, k, n - 1);
    if CanDo(a, w) then Do(a, w) else w
  }

  lemma {:induction false} OneClient(u: Setup, order: seq<nat>)
    requires |u.scripts| == 1 && IsOrder(u, order)
    ensures After(u, order).terminals[0].done <= |u.scripts[0].lines|
    ensures WorldOf(After(u, order), 0) == Solo(u, 0, After(u, order).terminals[0].done)
  {
    hide CanDo, Do, Meaning, Limit;
    if order != [] {
      OneClient(u, order[..|order| - 1]);
    }
  }

  /** The action reads or writes the server's file at this path. */
  predicate Touches(a: Action, path: bytes) {
    (a.Send? || a.Recv?) && Seen(a.name).Some? && ServerPath(Seen(a.name).value) == path
  }

  ghost predicate Uses(lines: seq<bytes>, path: bytes) {
    exists i :: 0 <= i < |lines| && Touches(Meaning(lines[i]), path)
  }

  /** No client uploads to a path that another one uses. */
  ghost predicate Independent(u: Setup) {
    forall j, k, i, path: bytes ::
      0 <= j < |u.scripts| && 0 <= k < |u.scripts| && j != k && 0 <= i < |u.scripts[j].lines|
      && Meaning(u.scripts[j].lines[i]).Send? && Touches(Meaning(u.scripts[j].lines[i]), path)
      ==> !Uses(u.scripts[k].lines, path)
  }

  predicate SameAt(a: Files, b: Files, path: bytes) {
    (path in a <==> path in b) && (path in a ==> a[path] == b[path])
  }

  /** The client's own state, and the server's files as far as it uses them, are as if it
      were alone. */
  ghost predicate AsAlone(u: Setup, w: Serial, k: nat)
    requires k < |u.scripts| && k < |w.terminals|
  {
    && w.terminals[k].done <= |u.scripts[k].lines|
    && var v := Solo(u, k, w.terminals[k].done);
       && w.terminals[k].files == v.client && w.terminals[k].screen == v.screen
       && forall path :: Uses(u.scripts[k].lines, path) ==> SameAt(w.server, v.server, path)
  }

  /** An action does the same in two worlds that agree on its path. */
  lemma DoAgrees(a: Action, v: World, w: World)
    requires v.client == w.client && v.screen == w.screen
    requires forall path :: Touches(a, path) ==> SameAt(v.server, w.server, path)
    ensures CanDo(a, v) <==> CanDo(a, w)
    ensures CanDo(a, v) ==>
      var v', w' := Do(a, v), Do(a, w);
      v'.client == w'.client && v'.screen == w'.screen
      && forall path :: SameAt(v.server, w.server, path) ==> SameAt(v'.server, w'.server, path)
  {
    if (a.Send? || a.Recv?) && Seen(a.name).Some? {
      assert Touches(a, ServerPath(Seen(a.name).value));
    }
  }

  /** An action leaves alone every path that it does not upload to. */
  lemma DoElsewhere(a: Action, w: World, path: bytes)
    requires CanDo(a, w) && !(a.Send? && Touches(a, path))
    ensures SameAt(Do(a, w).server, w.server, path)
  {
  }

  lemma {:induction false} AloneTogether(u: Setup, order: seq<nat>, k: nat)
    requires Independent(u) && IsOrder(u, order) && k < |u.scripts|
    ensures AsAlone(u, After(u, order), k)
  {
    hide CanDo, Do, Meaning, Limit, SameAt, Touches;
    if order == [] {
      StartsAlone(u, k);
    } else {
      var before, j := order[..|order| - 1], order[|order| - 1];
      AloneTogether(u, before, k);
      AloneStep(u, After(u, before), j, k);
    }
  }

  lemma StartsAlone(u: Setup, k: nat)
    requires k < |u.scripts|
    ensures AsAlone(u, Begin(u), k)
  {
    hide CanDo, Do, Meaning;
  }

  lemma AloneStep(u: Setup, w: Serial, j: nat, k: nat)
    requires Independent(u) && HasLine(u, w, j) && k < |u.scripts| == |w.terminals| && AsAlone(u, w, k)
    ensures AsAlone(u, Perform(u, w, j), k)
  {
    hide CanDo, Do, Meaning, SameAt, Touches;
    var a, w' := ActionOf(u, w, j), Perform(u, w, j);
    if j == k {
      var n := w.terminals[k].done;
      var v := Solo(u, k, n);
      assert forall path :: Touches(a, path) ==> Uses(u.scripts[k].lines, path);
      assert forall path :: Touches(a, path) ==> SameAt(w.server, v.server, path);
      DoAgrees(a, WorldOf(w, k), v);
      assert Solo(u, k, n + 1) == if CanDo(a, v) then Do(a, v) else v;
    } else {
      forall path | Uses(u.scripts[k].lines, path)
        ensures SameAt(w'.server, w.server, path)
      {
        if CanDo(a, WorldOf(w, j)) {
          DoElsewhere(a, WorldOf(w, j), path);
        } else {
          SameAtItself(w.server, path);
        }
      }
      SameTrans(w'.server, w.server, Solo(u, k, w.terminals[k].done).server);
    }
  }

  lemma SameAtItself(a: Files, path: bytes)
    ensures SameAt(a, a, path)
  {
  }

  lemma SameTrans(a: Files, b: Files, c: Files)
    ensures forall path :: SameAt(a, b, path) && SameAt(b, c, path) ==> SameAt(a, c, path)
  {
  }
}
