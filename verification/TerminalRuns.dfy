/** Runs of the terminal protocol into everything that can go wrong with it. */
module TerminalRuns {
  import opened Wrappers
  import opened Config
  import opened Ipc
  import opened IpcEffects
  import opened TerminalRead
  import opened TerminalProofs
  import opened TerminalFaults

  // ----- System calls with a known outcome -----

  lemma SendBlocks(s: State, p: Pid, d: Pid, a: Addr)
    requires Shape(s) && Inv(s) && p != d && s.st[p].Runnable? && s.st[d].Runnable?
    ensures var e := Send(s, p, d, a);
      && e.Done? && e.s.st == s.st[p := Sending(d, a)] && e.s.queue == s.queue[d := s.queue[d] + [p]]
      && e.s.intr == s.intr && Shape(e.s) && OneWritten(s, e.s, p, a, Load(s.mem[p], a).(source := p))
  {
    SendDeadlocks(s, p, d, a);
  }

  lemma SendHands(s: State, p: Pid, d: Pid, a: Addr)
    requires Shape(s) && Inv(s) && p != d && s.st[p].Runnable? && Awaits(s, d, p)
    ensures var e, m := Send(s, p, d, a), Load(s.mem[p], a).(source := p);
      && e.Done? && e.s.st == s.st[d := Runnable] && e.s.queue == s.queue && e.s.intr == s.intr && Shape(e.s)
      && Load(e.s.mem[d], s.st[d].buf) == m
  {
    SendDeadlocks(s, p, d, a);
  }

  lemma ReceiveBlocks(s: State, p: Pid, src: Pid, a: Addr)
    requires Shape(s) && p != src && s.st[p].Runnable? && s.st[src].Runnable? && !s.intr[p]
    ensures var e := Receive(s, p, src, a);
      && e.Done? && e.s.st == s.st[p := Receiving(src, a)] && e.s.queue == s.queue && e.s.intr == s.intr && Shape(e.s)
      && OneWritten(s, e.s, p, a, Load(s.mem[p], a).(source := p))
  {
  }

  lemma ReceiveTakes(s: State, p: Pid, q: Pid, a: Addr)
    requires Shape(s) && p != q && s.st[p].Runnable? && !s.intr[p] && s.queue[p] == [q]
    requires s.st[q].Sending? && s.st[q].dest == p
    ensures var e := Receive(s, p, ANY, a);
      && e.Done? && e.s.st == s.st[q := Runnable] && e.s.queue == s.queue[p := []] && e.s.intr == s.intr && Shape(e.s)
      && OneWritten(s, e.s, p, a, Load(s.mem[q], s.st[q].buf))
  {
    assert Without([q], q) == [];
  }

  // ----- The steps of a read -----

  /** Both tasks run, and nobody sends to them. */
  ghost predicate TasksFree(x: World)
    requires WorldShape(x)
  {
    && x.s.st[FS].Runnable? && x.s.st[TTY].Runnable? && x.s.queue[FS] == [] && x.s.queue[TTY] == [] && !x.s.intr[TTY]
    && x.tty == TtyLoop
  }

  ghost predicate AtHome(x: World, u: Pid)
    requires WorldShape(x)
  {
    IsUser(u) && x.s.st[u].Runnable? && x.users[u] == UHome
  }

  /** The terminals are the same. */
  ghost predicate SameTerminals(x: World, y: World) { y.pend == x.pend && y.typed == x.typed && y.gone == x.gone }

  function ReadOf(t: nat, n: nat): Message { ZERO.(mtype := READ, u := ZERO.u.(i1 := t, i2 := n)) }

  function AskOf(u: Pid, t: nat, n: nat): Message {
    ZERO.(source := u, mtype := DEV_READ, u := ZERO.u.(i1 := t, i2 := n, i3 := u, i4 := t))
  }

  lemma UserCalls(x: World, u: Pid, t: nat, n: nat) returns (y: World)
    requires WorldOk(x) && TasksFree(x) && x.fs == FsLoop && AtHome(x, u) && t < NR_CONSOLES
    ensures Next(x, Call(u, ReadOf(t, n)), y) && WorldShape(y) && SameTerminals(x, y)
    ensures y.s.st == x.s.st[u := Sending(FS, MSG)] && y.s.queue == x.s.queue[FS := [u]] && y.s.intr == x.s.intr
    ensures y.fs == FsLoop && y.tty == x.tty && y.users == x.users[u := UHear]
    ensures M(y.s, u) == ReadOf(t, n).(source := u)
  {
    hide Inv, Send, Write, Load, FsFine, TtyFine, ProcFine, ReadFine;
    var m := ReadOf(t, n);
    assert x.s.queue[FS] + [u] == [u];
    WriteEffect(x.s, u, MSG, m);
    SendBlocks(Write(x.s, u, MSG, m), u, FS, MSG);
    y := x.(s := Send(Write(x.s, u, MSG, m), u, FS, MSG).s, users := x.users[u := UHear], due := x.due[u := DueFor(m)],
            places := x.places[u := if Awaits(x.s, FS, u) then AtFs else Asking]);
  }

  lemma FsTakesCall(x: World, u: Pid) returns (y: World)
    requires WorldOk(x) && x.s.st[FS].Runnable? && x.fs == FsLoop && IsUser(u)
    requires x.s.queue[FS] == [u] && x.s.st[u] == Sending(FS, MSG)
    ensures Next(x, FsReceives, y) && WorldShape(y) && SameTerminals(x, y)
    ensures y.s.st == x.s.st[u := Runnable] && y.s.queue == x.s.queue[FS := []] && y.s.intr == x.s.intr
    ensures y.fs == FsHave && y.tty == x.tty && y.users == x.users && M(y.s, FS) == M(x.s, u)
  {
    hide Inv, Receive, Write, Load, FsFine, TtyFine, ProcFine, ReadFine;
    WriteEffect(x.s, FS, MSG, ZERO);
    var s := Write(x.s, FS, MSG, ZERO);
    ReceiveTakes(s, FS, u, MSG);
    y := x.(s := Receive(s, FS, ANY, MSG).s, fs := FsHave, places := x.places[u := AtFs]);
  }

  lemma FsPassesOn(x: World, u: Pid, t: nat, n: nat) returns (y: World)
    requires WorldOk(x) && x.s.st[FS].Runnable? && x.fs == FsHave && M(x.s, FS) == ReadOf(t, n).(source := u)
    ensures Next(x, FsDispatches, y) && WorldShape(y) && SameTerminals(x, y)
    ensures y.s.st == x.s.st && y.s.queue == x.s.queue && y.s.intr == x.s.intr
    ensures y.fs == FsAsk(u, n) && y.tty == x.tty && y.users == x.users && M(y.s, FS) == AskOf(u, t, n)
  {
    hide Inv, Write, Load, FsFine, TtyFine, ProcFine, ReadFine;
    WriteEffect(x.s, FS, MSG, Dispatched(M(x.s, FS)));
    y := x.(s := Write(x.s, FS, MSG, Dispatched(M(x.s, FS))), fs := FsAsk(u, n));
  }

  lemma FsSends(x: World, u: Pid, n: int) returns (y: World)
    requires WorldOk(x) && TasksFree(x) && x.fs == FsAsk(u, n)
    ensures Next(x, FsAsks, y) && WorldShape(y) && SameTerminals(x, y)
    ensures y.s.st == x.s.st[FS := Sending(TTY, MSG)] && y.s.queue == x.s.queue[TTY := [FS]] && y.s.intr == x.s.intr
    ensures y.fs == FsHear(u, n) && y.tty == x.tty && y.users == x.users && M(y.s, FS) == M(x.s, FS).(source := FS)
  {
    hide Inv, Send, Load, FsFine, TtyFine, ProcFine, ReadFine;
    assert x.s.queue[TTY] + [FS] == [FS];
    SendBlocks(x.s, FS, TTY, MSG);
    y := x.(s := Send(x.s, FS, TTY, MSG).s, fs := FsHear(u, n));
  }

  lemma TtyTakesRequest(x: World) returns (y: World)
    requires WorldOk(x) && x.s.st[TTY].Runnable? && x.tty == TtyLoop && !x.s.intr[TTY]
    requires x.s.queue[TTY] == [FS] && x.s.st[FS] == Sending(TTY, MSG)
    ensures Next(x, TtyReceives, y) && WorldShape(y) && SameTerminals(x, y)
    ensures y.s.st == x.s.st[FS := Runnable] && y.s.queue == x.s.queue[TTY := []] && y.s.intr == x.s.intr
    ensures y.fs == x.fs && y.tty == TtyHave && y.users == x.users && M(y.s, TTY) == M(x.s, FS)
  {
    hide Inv, Receive, Write, Load, FsFine, TtyFine, ProcFine, ReadFine;
    WriteEffect(x.s, TTY, MSG, ZERO);
    var s := Write(x.s, TTY, MSG, ZERO);
    ReceiveTakes(s, TTY, FS, MSG);
    y := x.(s := Receive(s, TTY, ANY, MSG).s, tty := TtyHave);
  }

  lemma TtyOpensRead(x: World, u: Pid, t: nat, n: nat) returns (y: World)
    requires WorldOk(x) && x.s.st[TTY].Runnable? && x.tty == TtyHave && t < NR_CONSOLES
    requires M(x.s, TTY) == AskOf(u, t, n).(source := FS)
    ensures Next(x, TtyDispatches, y) && WorldShape(y) && y.typed == x.typed && y.gone == x.gone
    ensures y.pend == x.pend[t := if n == 0 then None else Some(Pending(FS, u, n, []))]
    ensures y.s.st == x.s.st && y.s.queue == x.s.queue && y.s.intr == x.s.intr
    ensures y.fs == x.fs && y.tty == TtyAnswer(FS) && y.users == x.users
    ensures M(y.s, TTY).mtype == SUSPEND_PROC && M(y.s, TTY).u.i2 == n
  {
    hide Inv, Write, Load, FsFine, TtyFine, ProcFine, ReadFine;
    var m := M(x.s, TTY);
    WriteEffect(x.s, TTY, MSG, m.(mtype := SUSPEND_PROC));
    y := x.(s := Write(x.s, TTY, MSG, m.(mtype := SUSPEND_PROC)), tty := TtyAnswer(FS),
            pend := x.pend[t := if n == 0 then None else Some(Pending(FS, u, n, []))],
            places := Dropped(x, t)[u := if n == 0 then Lost else AtTty(t)]);
  }

  lemma FsListens(x: World, u: Pid, n: int) returns (y: World)
    requires WorldOk(x) && x.s.st[FS].Runnable? && x.s.st[TTY].Runnable? && x.fs == FsHear(u, n)
    ensures Next(x, FsHears, y) && WorldShape(y) && SameTerminals(x, y)
    ensures y.s.st == x.s.st[FS := Receiving(TTY, MSG)] && y.s.queue == x.s.queue && y.s.intr == x.s.intr
    ensures y.fs == FsBack(u, n) && y.tty == x.tty && y.users == x.users && M(y.s, TTY) == M(x.s, TTY)
  {
    hide Inv, Receive, Load, FsFine, TtyFine, ProcFine, ReadFine;
    ReceiveBlocks(x.s, FS, TTY, MSG);
    y := x.(s := Receive(x.s, FS, TTY, MSG).s, fs := FsBack(u, n));
  }

  lemma TtyReplies(x: World) returns (y: World)
    requires WorldOk(x) && x.s.st[TTY].Runnable? && x.tty == TtyAnswer(FS) && x.s.st[FS] == Receiving(TTY, MSG)
    ensures Next(x, TtyAnswers, y) && WorldShape(y) && SameTerminals(x, y)
    ensures y.s.st == x.s.st[FS := Runnable] && y.s.queue == x.s.queue && y.s.intr == x.s.intr
    ensures y.fs == x.fs && y.tty == TtyLoop && y.users == x.users && M(y.s, FS) == M(x.s, TTY).(source := TTY)
  {
    hide Inv, Send, Load, FsFine, TtyFine, ProcFine, ReadFine;
    SendHands(x.s, TTY, FS, MSG);
    y := x.(s := Send(x.s, TTY, FS, MSG).s, tty := TtyLoop);
  }

  lemma FsLoops(x: World, u: Pid, n: int) returns (y: World)
    requires WorldOk(x) && x.s.st[FS].Runnable? && x.fs == FsBack(u, n)
    requires M(x.s, FS).mtype == SUSPEND_PROC && M(x.s, FS).u.i2 == n
    ensures Next(x, FsFinishes, y) && WorldShape(y) && y == x.(fs := FsLoop)
  {
    hide Inv, Load, FsFine, TtyFine, ProcFine, ReadFine;
    y := x.(fs := FsLoop);
  }

  /** Somebody types a newline. */
  lemma NewlineTyped(x: World, t: nat) returns (y: World)
    requires WorldOk(x) && x.s.st[TTY].Runnable? && x.tty == TtyLoop && t < NR_CONSOLES
    requires x.typed[t] == [] && x.gone[t] == 0
    ensures Next(x, TtyPuts(t, NEWLINE), y) && WorldShape(y) && y == x.(typed := x.typed[t := [NEWLINE]])
  {
    hide Inv, FsFine, TtyFine, ProcFine, ReadFine;
    assert x.typed[t] + [NEWLINE] == [NEWLINE];
    y := x.(typed := x.typed[t := x.typed[t] + [NEWLINE]]);
  }

  /** It completes any read that has just been opened. */
  lemma NewlineCompletes(x: World, t: nat)
    requires WorldShape(x) && x.s.st[TTY].Runnable? && x.tty == TtyLoop && t < NR_CONSOLES
    requires x.typed[t] == [NEWLINE] && x.gone[t] == 0
    requires x.pend[t].Some? && x.pend[t].value.caller == FS && x.pend[t].value.taken == []
    ensures Completes(x, t)
  {
  }

  lemma TtyResumes(x: World, t: nat) returns (y: World)
    requires WorldOk(x) && TasksFree(x) && Completes(x, t) && x.pend[t].value.caller == FS
    ensures Next(x, TtyCompletes(t), y) && WorldShape(y) && y.fs == x.fs
    ensures y.s.st == x.s.st[TTY := Sending(FS, RES)]
  {
    hide Inv, Send, Write, Load, FsFine, TtyFine, ProcFine, ReadFine, Tty.Line, Tty.Ends;
    var r, keys := x.pend[t].value, KeysWithNext(x, t);
    var m := Resumption(x, r, keys);
    WriteEffect(x.s, TTY, RES, m);
    SendBlocks(Write(x.s, TTY, RES, m), TTY, FS, RES);
    y := x.(s := ResumeReader(x, t).s, pend := x.pend[t := None], gone := x.gone[t := x.gone[t] + 1],
            bufs := x.bufs[r.proc := Entered(x.bufs[r.proc], Tty.Line(r.taken), x.typed[t][x.gone[t]])],
            due := x.due[r.proc := Typed(r.cnt, t, x.gone[t] - |r.taken|, keys)],
            places := x.places[r.proc := if Awaits(x.s, r.caller, TTY) then Telling else FromTty]);
  }

  // ----- Runs -----

  ghost predicate Reached(x: World) {
    exists xs: seq<World>, acts: seq<Act> :: TerminalProofs.IsRun(xs, acts) && xs[|acts|] == x
  }

  lemma ReachedIsOk(x: World)
    requires Reached(x)
    ensures WorldOk(x) && WorldShape(x)
  {
    hide WorldOk, WorldShape, Next;
    var xs: seq<World>, acts: seq<Act> :| TerminalProofs.IsRun(xs, acts) && xs[|acts|] == x;
    RunIsOk(xs, acts);
    ShapeOf(x);
  }

  lemma StepReaches(x: World, a: Act, y: World)
    requires Reached(x) && WorldShape(x) && Next(x, a, y)
    ensures Reached(y) && WorldOk(y) && WorldShape(y)
  {
    hide WorldOk, WorldShape, Next;
    var xs: seq<World>, acts: seq<Act> :| TerminalProofs.IsRun(xs, acts) && xs[|acts|] == x;
    var ys, bs := xs + [y], acts + [a];
    forall i | 0 <= i < |bs| ensures WorldShape(ys[i]) && Next(ys[i], bs[i], ys[i + 1]) {
      assert i < |acts| ==> WorldShape(xs[i]) && Next(xs[i], acts[i], xs[i + 1]);
    }
    assert TerminalProofs.IsRun(ys, bs) && ys[|bs|] == y;
    ReachedIsOk(y);
  }

  const READER: Pid := 5
  const OTHER: Pid := 6

  lemma FirstWorld() returns (x: World)
    ensures Reached(x) && WorldOk(x) && WorldShape(x) && TasksFree(x) && x.fs == FsLoop
    ensures AtHome(x, READER) && AtHome(x, OTHER) && forall t :: 0 <= t < NR_CONSOLES ==>
      x.typed[t] == [] && x.gone[t] == 0
  {
    hide Inv, Start, WorldOk, Reached;
    var s := State(seq(N, _ => Runnable), seq(N, _ => []), seq(N, _ => false), seq(N, _ => map[]));
    s := s.(st := seq(N, p => if p == FS || p == TTY || IsUser(p) then Runnable else Unused));
    x := World(s, FsLoop, TtyLoop, seq(N, _ => UHome), seq(N, _ => map[]), seq(NR_CONSOLES, _ => None),
               seq(NR_CONSOLES, _ => []), seq(NR_CONSOLES, _ => 0), seq(N, _ => Home),
               seq(N, _ => Answer(CLOSE, 0, 0)));
    NobodyWaits(s);
    Starts(x);
    StartIsReached(x);
  }

  lemma StartIsReached(x: World)
    requires Start(x)
    ensures Reached(x) && WorldOk(x) && WorldShape(x)
  {
    hide Start, WorldOk, WorldShape;
    var acts: seq<Act> := [];
    assert TerminalProofs.IsRun([x], acts) && [x][|acts|] == x;
    ReachedIsOk(x);
  }

  lemma Starts(x: World)
    requires WorldShape(x) && Inv(x.s) && x.fs == FsLoop && x.tty == TtyLoop
    requires forall p: Pid ::
      x.s.st[p] == (if p == FS || p == TTY || IsUser(p) then Runnable else Unused) && !x.s.intr[p]
    requires forall p: Pid :: x.users[p] == UHome && x.places[p] == Home && x.due[p] == Answer(CLOSE, 0, 0)
    requires forall t :: 0 <= t < NR_CONSOLES ==> x.pend[t] == None && x.typed[t] == [] && x.gone[t] == 0
    ensures Start(x)
  {
    hide Inv;
  }

  lemma NobodyWaits(s: State)
    requires Shape(s) && forall p: Pid :: s.queue[p] == [] && !s.intr[p] && (s.st[p].Runnable? || s.st[p].Unused?)
    ensures Inv(s)
  {
    forall p: Pid ensures Ends(s, p) { assert EndsIn(s, p, 0); }
  }

  /**
   User u asks to read n characters from terminal t, and the file system is about to pass that on; v stays at home.
   */
  lemma ReadIsAsked(x: World, u: Pid, v: Pid, t: nat, n: nat) returns (y: World)
    requires Reached(x) && WorldShape(x) && TasksFree(x) && x.fs == FsLoop && AtHome(x, u) && t < NR_CONSOLES && v != u
    ensures Reached(y) && WorldShape(y) && TasksFree(y) && SameTerminals(x, y)
    ensures y.fs == FsAsk(u, n) && M(y.s, FS) == AskOf(u, t, n) && (AtHome(x, v) ==> AtHome(y, v))
  {
    hide WorldOk, Next, Reached, Load;
    ReachedIsOk(x);
    y := UserCalls(x, u, t, n);
    StepReaches(x, Call(u, ReadOf(t, n)), y);
    var z := FsTakesCall(y, u);
    StepReaches(y, FsReceives, z);
    y := FsPassesOn(z, u, t, n);
    StepReaches(z, FsDispatches, y);
  }

  /** The request reaches the terminal task: x is the state before it is dispatched, y the one after. */
  lemma ReadIsOpened(w: World, u: Pid, v: Pid, t: nat, n: nat) returns (x: World, y: World)
    requires Reached(w) && WorldShape(w) && TasksFree(w) && t < NR_CONSOLES && v != u
    requires w.fs == FsAsk(u, n) && M(w.s, FS) == AskOf(u, t, n)
    ensures Reached(x) && WorldShape(x) && Next(x, TtyDispatches, y) && x.pend == w.pend
    ensures M(x.s, TTY) == AskOf(u, t, n).(source := FS)
    ensures Reached(y) && WorldShape(y) && y.typed == w.typed && y.gone == w.gone
    ensures y.pend == w.pend[t := if n == 0 then None else Some(Pending(FS, u, n, []))]
    ensures TasksFree(y.(tty := TtyLoop)) && y.tty == TtyAnswer(FS) && y.fs == FsHear(u, n)
    ensures M(y.s, TTY).mtype == SUSPEND_PROC && M(y.s, TTY).u.i2 == n && (AtHome(w, v) ==> AtHome(y, v))
  {
    hide WorldOk, Next, Reached, Load;
    ReachedIsOk(w);
    y := FsSends(w, u, n);
    StepReaches(w, FsAsks, y);
    x := TtyTakesRequest(y);
    StepReaches(y, TtyReceives, x);
    y := TtyOpensRead(x, u, t, n);
    StepReaches(x, TtyDispatches, y);
  }

  /** The suspension reaches the file system, which is ready for the next call. */
  lemma ReadIsSuspended(w: World, u: Pid, v: Pid, n: int) returns (y: World)
    requires Reached(w) && WorldShape(w) && TasksFree(w.(tty := TtyLoop)) && w.tty == TtyAnswer(FS)
    requires w.fs == FsHear(u, n)
    requires M(w.s, TTY).mtype == SUSPEND_PROC && M(w.s, TTY).u.i2 == n
    ensures Reached(y) && WorldShape(y) && TasksFree(y) && y.fs == FsLoop && SameTerminals(w, y)
    ensures AtHome(w, v) ==> AtHome(y, v)
  {
    hide WorldOk, Next, Reached, Load;
    ReachedIsOk(w);
    y := FsListens(w, u, n);
    StepReaches(w, FsHears, y);
    var z := TtyReplies(y);
    StepReaches(y, TtyAnswers, z);
    y := FsLoops(z, u, n);
    StepReaches(z, FsFinishes, y);
  }

  /** A reader waits for a line from terminal t, and the file system is about to pass on another user's read of it. */
  lemma SecondReadIsAsked(t: nat) returns (y: World)
    requires t < NR_CONSOLES
    ensures Reached(y) && WorldShape(y) && TasksFree(y) && y.fs == FsAsk(OTHER, 1) && M(y.s, FS) == AskOf(OTHER, t, 1)
    ensures y.pend[t] == Some(Pending(FS, READER, 1, [])) && y.typed[t] == [] && y.gone[t] == 0
  {
    hide WorldOk, Next, Reached, Load;
    var x := FirstWorld();
    x := ReadIsAsked(x, READER, OTHER, t, 1);
    var _, w := ReadIsOpened(x, READER, OTHER, t, 1);
    ReachedIsOk(w);
    x := ReadIsSuspended(w, READER, OTHER, 1);
    y := ReadIsAsked(x, OTHER, READER, t, 1);
  }

  // ----- What they run into -----

  /** The file system runs into the deadlock panic: a key completes the first read before the second is passed on. */
  lemma FileSystemDeadlocks() returns (x: World)
    ensures Reached(x) && WorldShape(x) && Stops(x, FsAsks)
  {
    hide WorldOk, Next, Reached, Load, Stops, Completes;
    var w := SecondReadIsAsked(0);
    ReachedIsOk(w);
    var y := NewlineTyped(w, 0);
    StepReaches(w, TtyPuts(0, NEWLINE), y);
    NewlineCompletes(y, 0);
    x := TtyResumes(y, 0);
    StepReaches(y, TtyCompletes(0), x);
    DeadlockOfTasks(x, FsAsks);
  }

  /** So does the terminal task: a key completes the first read just after the second has been passed on. */
  lemma TerminalDeadlocks() returns (x: World)
    ensures Reached(x) && WorldShape(x) && Stops(x, TtyCompletes(0))
  {
    hide WorldOk, Next, Reached, Load, Stops, Completes;
    var w := SecondReadIsAsked(0);
    ReachedIsOk(w);
    var y := FsSends(w, OTHER, 1);
    StepReaches(w, FsAsks, y);
    x := NewlineTyped(y, 0);
    StepReaches(y, TtyPuts(0, NEWLINE), x);
    NewlineCompletes(x, 0);
    DeadlockOfTasks(x, TtyCompletes(0));
  }

  /** A read of no characters is never answered. */
  lemma EmptyReadIsLost() returns (y: World)
    ensures Reached(y) && WorldShape(y) && Forsaken(y, READER)
  {
    hide WorldOk, Next, Reached, Load, Forsaken;
    var w := FirstWorld();
    w := ReadIsAsked(w, READER, OTHER, 0, 0);
    var x;
    x, y := ReadIsOpened(w, READER, OTHER, 0, 0);
    DispatchLoses(x, y, READER);
  }

  /** Nor is one during which another user reads the same terminal. */
  lemma OvertakenReadIsLost() returns (y: World)
    ensures Reached(y) && WorldShape(y) && Forsaken(y, READER)
  {
    hide WorldOk, Next, Reached, Load, Forsaken;
    var w := SecondReadIsAsked(0);
    var x;
    x, y := ReadIsOpened(w, OTHER, READER, 0, 1);
    DispatchLoses(x, y, READER);
  }

  lemma DispatchLoses(x: World, y: World, u: Pid)
    requires Reached(x) && WorldShape(x) && Next(x, TtyDispatches, y) && WorldShape(y) && IsUser(u)
    requires var m := M(x.s, TTY);
      && m.mtype == DEV_READ && 0 <= m.u.i4 < NR_CONSOLES
      && ((m.u.i3 == u && m.u.i2 == 0) || (x.pend[m.u.i4].Some? && x.pend[m.u.i4].value.proc == u))
    ensures Forsaken(y, u)
  {
    hide WorldOk, Next, Reached, Load, Forsaken;
    ReachedIsOk(x);
    StepReaches(x, TtyDispatches, y);
    if Forsaken(x, u) {
      LostIsForsaken(x, u);
      StaysLost(x, TtyDispatches, y, u);
      LostIsForsaken(y, u);
    } else {
      LostExactly(x, TtyDispatches, y, u);
    }
  }
}
