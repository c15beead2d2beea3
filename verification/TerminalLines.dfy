/** From the keys typed on a terminal to what its reader is answered: the count, and the line in the reader's buffer. */
module TerminalLines {
  import opened Wrappers
  import opened Config
  import opened Ipc
  import opened TerminalRead
  import opened TerminalProofs

  /** A buffer begins with a line. */
  ghost predicate Begins(b: Buffer, line: seq<int>) {
    forall i :: 0 <= i < |line| ==> i in b && b[i] == line[i]
  }

  /** The keys are those typed on terminal t from place `from` on, and have left its ring. */
  ghost predicate TypedThere(x: World, t: nat, from: int, keys: seq<int>)
    requires WorldShape(x)
  {
    && t < NR_CONSOLES && 0 <= from && from + |keys| <= x.gone[t] <= |x.typed[t]|
    && keys == x.typed[t][from..from + |keys|]
  }

  /** The last of the keys, and none before it, ends a read of n characters. */
  ghost predicate Complete(n: int, keys: seq<int>) {
    n > 0 && keys != [] && Tty.Ends(n, keys) && Tty.Unfinished(n, keys[..|keys| - 1])
  }

  ghost predicate OpenLine(x: World, t: nat)
    requires WorldShape(x) && t < NR_CONSOLES
  {
    && x.gone[t] <= |x.typed[t]| <= x.gone[t] + Tty.TTY_IN_BYTES
    && (x.pend[t].Some? ==> var r := x.pend[t].value;
        && Tty.Unfinished(r.cnt, r.taken) && Begins(x.bufs[r.proc], Tty.Line(r.taken))
        && x.gone[t] >= |r.taken| && r.taken == x.typed[t][x.gone[t] - |r.taken|..x.gone[t]])
  }

  /** A user that has not gone on has in its buffer the line its read was completed with. */
  ghost predicate DoneLine(x: World, u: Pid)
    requires WorldShape(x)
  {
    match x.due[u]
    case Typed(n, t, from, keys) =>
      Complete(n, keys) && TypedThere(x, t, from, keys) && (x.users[u] != UHome ==> Begins(x.bufs[u], Tty.Line(keys)))
    case _ => true
  }

  ghost predicate LinesOk(x: World)
    requires WorldShape(x)
  {
    (forall t: nat :: t < NR_CONSOLES ==> OpenLine(x, t)) && forall u: Pid :: IsUser(u) ==> DoneLine(x, u)
  }

  // ----- What a key does to the buffer -----

  lemma EnteredBegins(b: Buffer, taken: seq<int>, key: int)
    requires Begins(b, Tty.Line(taken))
    ensures Begins(Entered(b, Tty.Line(taken), key), Tty.Line(taken + [key]))
  {
    Tty.LineOf(taken, key);
  }

  /** A read that has not ended has room left. */
  lemma {:induction false} LineHasRoom(n: nat, keys: seq<int>)
    requires n > 0 && Tty.Unfinished(n, keys)
    ensures |Tty.Line(keys)| < n
  {
    if keys != [] {
      var k := keys[..|keys| - 1];
      assert keys[..|keys|] == keys;
      forall j | 0 <= j <= |k| ensures !Tty.Ends(n, k[..j]) { assert k[..j] == keys[..j]; }
      LineHasRoom(n, k);
    }
  }

  lemma CompleteFits(n: int, keys: seq<int>)
    requires Complete(n, keys)
    ensures |Tty.Line(keys)| <= n
  {
    LineHasRoom(n, keys[..|keys| - 1]);
  }

  /** Taking the next key extends what was taken by what was typed next. */
  lemma NextTaken(x: World, t: nat)
    requires WorldShape(x) && t < NR_CONSOLES && OpenLine(x, t) && x.pend[t].Some? && x.gone[t] < |x.typed[t]|
    ensures var r, keys := x.pend[t].value, KeysWithNext(x, t);
      && x.gone[t] >= |r.taken| && |keys| == |r.taken| + 1 && keys[..|r.taken|] == r.taken
      && keys == x.typed[t][x.gone[t] - |r.taken|..x.gone[t] + 1]
      && Begins(Entered(x.bufs[r.proc], Tty.Line(r.taken), x.typed[t][x.gone[t]]), Tty.Line(keys))
      && (if Tty.Ends(r.cnt, keys) then r.cnt > 0 ==> Complete(r.cnt, keys) else Tty.Unfinished(r.cnt, keys))
  {
    hide Tty.Line, Tty.Ends, Begins, Entered, Tty.Unfinished;
    var r, key := x.pend[t].value, x.typed[t][x.gone[t]];
    EnteredBegins(x.bufs[r.proc], r.taken, key);
    if !Tty.Ends(r.cnt, KeysWithNext(x, t)) { Tty.UnfinishedOn(r.cnt, r.taken, key); }
  }

  // ----- Every step keeps the lines -----

  lemma PutsKeepsLines(x: World, t: nat, key: int, y: World)
    requires WorldOk(x) && LinesOk(x) && TtyPutsStep(x, t, key, y) && WorldShape(y)
    ensures LinesOk(y)
  {
    hide WorldOk, Complete, Begins, Tty.Line, Tty.Unfinished;
    ShapeOf(x);
    forall u: nat | u < NR_CONSOLES ensures OpenLine(y, u) { assert OpenLine(x, u); }
    forall u: Pid | IsUser(u) ensures DoneLine(y, u) { assert DoneLine(x, u); }
  }

  /** Nobody's completed line is touched by what goes into the buffer of one whose read is open. */
  lemma OthersLines(x: World, t: nat, y: World)
    requires WorldOk(x) && LinesOk(x) && WorldShape(y) && t < NR_CONSOLES && x.gone[t] < |x.typed[t]|
    requires y.typed == x.typed && y.gone == x.gone[t := x.gone[t] + 1] && y.users == x.users
    requires forall u: nat :: u < NR_CONSOLES && u != t ==> y.pend[u] == x.pend[u]
    requires forall u: Pid :: x.pend[t].None? || u != x.pend[t].value.proc ==>
      y.bufs[u] == x.bufs[u] && y.due[u] == x.due[u]
    ensures forall u: nat :: u < NR_CONSOLES && u != t ==> OpenLine(y, u)
    ensures forall u: Pid :: IsUser(u) && (x.pend[t].None? || u != x.pend[t].value.proc) ==> DoneLine(y, u)
  {
    hide Inv, FsFine, TtyFine, ProcFine, Complete, Begins, Tty.Line, Tty.Unfinished;
    assert ReadFine(x, t) && OpenLine(x, t);
    forall u: nat | u < NR_CONSOLES && u != t ensures OpenLine(y, u) { assert ReadFine(x, u) && OpenLine(x, u); }
    forall u: Pid | IsUser(u) && (x.pend[t].None? || u != x.pend[t].value.proc) ensures DoneLine(y, u) {
      assert DoneLine(x, u);
    }
  }

  lemma TakesKeepsLines(x: World, t: nat, y: World)
    requires WorldOk(x) && LinesOk(x) && TtyTakesStep(x, t, y) && WorldShape(y)
    ensures LinesOk(y)
  {
    hide Inv, FsFine, TtyFine, ProcFine, Complete, Begins, Tty.Line, Tty.Unfinished, Tty.Ends, Entered,
      DoneLine;
    assert ReadFine(x, t) && OpenLine(x, t);
    OthersLines(x, t, y);
    if x.pend[t].Some? {
      NextTaken(x, t);
      NotTyped(y, x.pend[t].value.proc);
    }
    assert OpenLine(y, t);
  }

  lemma NotTyped(x: World, u: Pid)
    requires WorldShape(x) && !x.due[u].Typed?
    ensures DoneLine(x, u)
  {
  }

  lemma CompletesKeepsLines(x: World, t: nat, y: World)
    requires WorldOk(x) && LinesOk(x) && TtyCompletesStep(x, t, y) && WorldShape(y)
    ensures LinesOk(y)
  {
    hide Inv, Send, Write, Load, FsFine, TtyFine, ProcFine, Complete, Begins, Tty.Line, Tty.Unfinished,
      Tty.Ends, Entered;
    assert ReadFine(x, t) && OpenLine(x, t);
    OthersLines(x, t, y);
    NextTaken(x, t);
    assert OpenLine(y, t);
    assert DoneLine(y, x.pend[t].value.proc);
  }

  lemma DispatchKeepsLines(x: World, y: World)
    requires WorldOk(x) && LinesOk(x) && TtyDispatchesStep(x, y) && WorldShape(y)
    ensures LinesOk(y)
  {
    hide Inv, Load, Write, FsFine, TtyFine, ProcFine, Complete;
    forall u: nat | u < NR_CONSOLES ensures OpenLine(y, u) { assert OpenLine(x, u); }
    forall u: Pid | IsUser(u) ensures DoneLine(y, u) { assert DoneLine(x, u); }
  }

  /** What a user does when it goes on is not done to the buffer of an open read. */
  lemma UserKeepsLines(x: World, a: Act, y: World)
    requires WorldOk(x) && LinesOk(x) && Next(x, a, y) && WorldShape(y) && (a.Call? || a.Hear? || a.Finish?)
    ensures LinesOk(y)
  {
    hide Inv, Send, Receive, Load, Write, FsFine, TtyFine, Accounted, Complete, Begins, Tty.Line, Tty.Unfinished;
    assert ProcFine(x, a.u);
    forall t: nat | t < NR_CONSOLES ensures OpenLine(y, t) { assert OpenLine(x, t) && ReadFine(x, t); }
    forall u: Pid | IsUser(u) ensures DoneLine(y, u) { assert DoneLine(x, u); }
  }

  lemma StepKeepsLines(x: World, a: Act, y: World)
    requires WorldOk(x) && LinesOk(x) && Next(x, a, y) && WorldShape(y)
    ensures LinesOk(y)
  {
    hide WorldOk, Send, Receive, Interrupt, Load, Write, OpenLine, DoneLine;
    ShapeOf(x);
    match a
    case TtyPuts(t, key) => PutsKeepsLines(x, t, key, y);
    case TtyTakes(t) => TakesKeepsLines(x, t, y);
    case TtyCompletes(t) => CompletesKeepsLines(x, t, y);
    case TtyDispatches => DispatchKeepsLines(x, y);
    case Call(_, _) => UserKeepsLines(x, a, y);
    case Hear(_) => UserKeepsLines(x, a, y);
    case Finish(_, _) => UserKeepsLines(x, a, y);
    case _ => SameLines(x, y);
  }

  lemma SameLines(x: World, y: World)
    requires WorldShape(x) && WorldShape(y) && LinesOk(x) && y.pend == x.pend && y.typed == x.typed && y.gone == x.gone
    requires y.bufs == x.bufs && y.users == x.users && y.due == x.due
    ensures LinesOk(y)
  {
    forall t: nat | t < NR_CONSOLES ensures OpenLine(y, t) { assert OpenLine(x, t); }
    forall u: Pid | IsUser(u) ensures DoneLine(y, u) { assert DoneLine(x, u); }
  }

  lemma {:induction false} RunKeepsLines(xs: seq<World>, acts: seq<Act>)
    requires TerminalProofs.IsRun(xs, acts)
    ensures WorldOk(xs[|acts|]) && WorldShape(xs[|acts|]) && LinesOk(xs[|acts|])
    decreases |acts|
  {
    hide Next, WorldOk, LinesOk, WorldShape;
    RunIsOk(xs, acts);
    ShapeOf(xs[|acts|]);
    if acts == [] {
      FirstLines(xs[0]);
    } else {
      var n := |acts| - 1;
      RunKeepsLines(xs[..n + 1], acts[..n]);
      assert Next(xs[n], acts[n], xs[n + 1]);
      StepKeepsLines(xs[n], acts[n], xs[n + 1]);
    }
  }

  lemma FirstLines(x: World)
    requires Start(x) && WorldShape(x)
    ensures LinesOk(x)
  {
    hide Inv;
  }

  // ----- What a call is answered with -----

  /** The last call of user u. */
  function LastCall(acts: seq<Act>, u: Pid): Option<Message> {
    if acts == [] then None
    else
      var a := acts[|acts| - 1];
      if a.Call? && a.u == u then Some(a.m) else LastCall(acts[..|acts| - 1], u)
  }

  /** What the answer to a call must say is what the call asked for, until its read is completed. */
  ghost predicate IsDueFor(d: Due, m: Message) {
    d == DueFor(m) || (m.mtype == READ && d.Typed? && d.n == m.u.i2 && d.term == m.u.i1)
  }

  lemma DueStep(x: World, a: Act, y: World, u: Pid, m: Message)
    requires WorldOk(x) && Next(x, a, y) && WorldShape(y)
    ensures a.Call? && a.u == u ==> y.due[u] == DueFor(a.m)
    ensures !(a.Call? && a.u == u) && IsDueFor(x.due[u], m) ==> IsDueFor(y.due[u], m)
  {
    hide Inv, Send, Receive, Interrupt, Load, Write, FsFine, TtyFine, ProcFine;
    if a.TtyCompletes? { assert a.t < NR_CONSOLES ==> ReadFine(x, a.t); }
  }

  lemma {:induction false} DueIsForLastCall(xs: seq<World>, acts: seq<Act>, u: Pid)
    requires TerminalProofs.IsRun(xs, acts)
    ensures WorldShape(xs[|acts|])
    ensures LastCall(acts, u).Some? ==> IsDueFor(xs[|acts|].due[u], LastCall(acts, u).value)
    decreases |acts|
  {
    hide Next, WorldOk, IsDueFor, WorldShape;
    RunIsOk(xs, acts);
    ShapeOf(xs[|acts|]);
    if acts != [] {
      var n := |acts| - 1;
      RunIsOk(xs[..n + 1], acts[..n]);
      DueIsForLastCall(xs[..n + 1], acts[..n], u);
      assert Next(xs[n], acts[n], xs[n + 1]);
      var c := LastCall(acts[..n], u);
      DueStep(xs[n], acts[n], xs[n + 1], u, if c.Some? then c.value else ZERO);
      if acts[n].Call? && acts[n].u == u { DueForIsDue(acts[n].m); }
    }
  }

  lemma DueForIsDue(m: Message)
    ensures IsDueFor(DueFor(m), m)
  {
  }

  // ----- What the terminal task is asked -----

  /** m is what becomes of user u's call on its way to the terminal task. */
  predicate IsPassedOn(call: Message, u: Pid, m: Message) {
    && m.source == FS && m.u.i4 == call.u.i1
    && (m.mtype == DEV_OPEN ==> call.mtype == OPEN)
    && (m.mtype == DEV_READ ==> call.mtype == READ && m.u.i2 == call.u.i2 && m.u.i3 == u)
    && (m.mtype == DEV_WRITE ==> call.mtype == WRITE && m.u.i2 == call.u.i2 && m.u.i3 == u)
  }

  predicate IsForTerminal(m: Message) { m.mtype == DEV_OPEN || m.mtype == DEV_READ || m.mtype == DEV_WRITE }

  /** What the terminal task holds is for the user the file system serves, and what that one is due. */
  lemma HeldIsDue(x: World) returns (u: Pid)
    requires WorldOk(x) && x.tty == TtyHave && x.s.st[TTY].Runnable? && IsForTerminal(M(x.s, TTY))
    ensures IsUser(u) && x.places[u] == AtFs
    ensures forall call :: IsDueFor(x.due[u], call) ==> IsPassedOn(call, u, M(x.s, TTY))
  {
    hide Inv, Load, ProcFine, ReadFine;
    u := x.fs.c;
  }

  /** Whoever the file system serves has called. */
  lemma {:induction false} NeverCalled(acts: seq<Act>, u: Pid)
    requires LastCall(acts, u) == None
    ensures Calls(acts, u) == 0
  {
    if acts != [] { NeverCalled(acts[..|acts| - 1], u); }
  }

  lemma ServedHasCalled(xs: seq<World>, acts: seq<Act>, u: Pid)
    requires TerminalProofs.IsRun(xs, acts) && IsUser(u) && WorldShape(xs[|acts|]) && xs[|acts|].places[u] == AtFs
    ensures LastCall(acts, u).Some?
  {
    hide LastCall, Calls, Tellings, TerminalProofs.IsRun;
    AnsweredAtMostOnce(xs, acts, u);
    if LastCall(acts, u) == None { NeverCalled(acts, u); }
  }

  /** The request the terminal task holds is some user's last call. */
  ghost predicate HoldsLastCall(x: World, acts: seq<Act>, u: Pid)
    requires WorldShape(x)
  {
    IsUser(u) && x.places[u] == AtFs && LastCall(acts, u).Some? && IsPassedOn(LastCall(acts, u).value, u, M(x.s, TTY))
  }

  /**
   On every run: what the terminal task is asked is what the user asked whose call is being carried out, for the
   terminal that call named and, for a read or a write, with its count.
   */
  lemma AskedIsCalled(xs: seq<World>, acts: seq<Act>)
    requires TerminalProofs.IsRun(xs, acts)
    ensures WorldShape(xs[|acts|])
    ensures var x := xs[|acts|];
      x.tty == TtyHave && x.s.st[TTY].Runnable? && IsForTerminal(M(x.s, TTY)) ==>
        exists u: Pid :: HoldsLastCall(x, acts, u)
  {
    hide LastCall, Next, WorldOk, IsDueFor, IsPassedOn, Load;
    var x := xs[|acts|];
    RunIsOk(xs, acts);
    ShapeOf(x);
    if x.tty == TtyHave && x.s.st[TTY].Runnable? && IsForTerminal(M(x.s, TTY)) {
      var u := HeldIsDue(x);
      ServedHasCalled(xs, acts, u);
      DueIsForLastCall(xs, acts, u);
      assert HoldsLastCall(x, acts, u);
    }
  }

  // ----- The lines the readers are answered with -----

  /** The line is that of consecutive keys typed on terminal t, the first of which to end a read of n is the last. */
  ghost predicate IsLineOf(x: World, u: Pid, n: int, count: int, t: int, from: int, keys: seq<int>)
    requires WorldShape(x)
  {
    && Complete(n, keys) && t >= 0 && TypedThere(x, t, from, keys)
    && count == |Tty.Line(keys)| <= n && Begins(x.bufs[u], Tty.Line(keys))
  }

  /**
   Where the keys taken are text up to the last, the line is that text, which the last key belongs to unless it is a
   newline.
   */
  lemma TextIsAnswered(x: World, u: Pid, n: int, count: int, t: int, from: int, keys: seq<int>)
    requires WorldShape(x) && IsLineOf(x, u, n, count, t, from, keys)
    requires forall i :: 0 <= i < |keys| - 1 ==> Tty.IsText(keys[i])
    ensures var text := if keys[|keys| - 1] % 0x100 == '\n' as int then keys[..|keys| - 1] else keys;
      count == |text| && Begins(x.bufs[u], Tty.Chars(text))
  {
    hide Complete, TypedThere, Begins, Shape, Tty.Line, Tty.Ends, Tty.Unfinished;
    var k := |keys| - 1;
    LastKeyEnds(n, keys);
    Tty.TextIsLine(keys[..k]);
    Tty.KeyEdits(keys[..k], keys[k]);
    assert keys == keys[..k] + [keys[k]];
    if keys[k] % 0x100 != '\n' as int { Tty.TextIsLine(keys); }
  }

  /** A key that ends a read, and was not ended before, is a newline or text. */
  lemma LastKeyEnds(n: int, keys: seq<int>)
    requires Complete(n, keys)
    ensures keys != [] && (keys[|keys| - 1] % 0x100 == '\n' as int || Tty.IsText(keys[|keys| - 1]))
  {
    var k := |keys| - 1;
    LineHasRoom(n, keys[..k]);
    Tty.KeyEdits(keys[..k], keys[k]);
    assert keys == keys[..k] + [keys[k]];
  }

  /** Such a line has been answered to a read of n characters of terminal t. */
  ghost predicate HasLine(x: World, u: Pid, n: int, count: int, t: int)
    requires WorldShape(x)
  {
    exists from: int, keys: seq<int> :: IsLineOf(x, u, n, count, t, from, keys)
  }

  /**
   From end to end, on every run: a user whose read has been answered has the count of a line typed on the terminal it
   asked for, and the line in its buffer; a user whose write has been answered has the count of the write.
   */
  lemma ReaderGetsItsLine(xs: seq<World>, acts: seq<Act>, u: Pid)
    requires TerminalProofs.IsRun(xs, acts) && IsUser(u) && LastCall(acts, u).Some?
    ensures WorldShape(xs[|acts|])
    ensures var x, m := xs[|acts|], LastCall(acts, u).value;
      x.users[u] == UGot && x.s.st[u].Runnable? ==>
        if m.mtype == READ then HasLine(x, u, m.u.i2, M(x.s, u).u.i2, m.u.i1) else M(x.s, u).u.i2 == m.u.i2
  {
    hide LastCall, Next, Complete, TypedThere, Begins, Tty.Line, WorldOk, Load, OpenLine;
    var x, m := xs[|acts|], LastCall(acts, u).value;
    AnswerIsDue(xs, acts, u);
    RunKeepsLines(xs, acts);
    DueIsForLastCall(xs, acts, u);
    if x.users[u] == UGot && x.s.st[u].Runnable? && m.mtype == READ {
      assert DoneLine(x, u);
      var d := x.due[u];
      CompleteFits(d.n, d.keys);
      assert IsLineOf(x, u, m.u.i2, M(x.s, u).u.i2, d.term, d.from, d.keys);
    }
  }
}
