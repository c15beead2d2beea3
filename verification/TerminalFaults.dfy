/** What can go wrong with terminal calls, exactly: which are never answered, and where the system stops. */
module TerminalFaults {
  import opened Config
  import opened Ipc
  import opened IpcProofs
  import opened TerminalRead
  import opened TerminalProofs

  // ----- Calls that are never answered -----

  /** User u waits for the answer to a call the file system has taken. */
  ghost predicate Waits(x: World, u: Pid)
    requires WorldShape(x)
  {
    (x.users[u] == UHear && x.s.st[u].Runnable?) || (x.users[u] == UGot && x.s.st[u] == Receiving(FS, MSG))
  }

  /** The terminal task has told the file system, or is about to, that the caller is suspended. */
  ghost predicate Suspends(x: World)
    requires WorldShape(x)
  {
    match x.fs
    case FsHear(_, _) => x.s.st[FS].Runnable? && M(x.s, TTY).mtype == SUSPEND_PROC
    case FsBack(_, _) => M(x.s, if x.s.st[FS].Runnable? then FS else TTY).mtype == SUSPEND_PROC
    case _ => false
  }

  /** User u waits, and nobody has its call: it is in neither task's hands nor open on a terminal. */
  ghost predicate Forsaken(x: World, u: Pid)
    requires WorldShape(x)
  {
    && Waits(x, u) && !(Handles(x, u) && !Suspends(x)) && !IsTelling(x, u) && !Resuming(x, u)
    && forall t :: 0 <= t < NR_CONSOLES && x.pend[t].Some? ==> x.pend[t].value.proc != u
  }

  /**
   The file system has a call in its hands, and has not heard of a suspension, exactly when that is the call's place.
   */
  lemma ServedCalls(x: World, u: Pid)
    requires WorldOk(x) && IsUser(u)
    ensures Handles(x, u) && !Suspends(x) <==> x.places[u] == AtFs
  {
    hide Inv, Load, UserFine, ReadFine;
    assert ProcFine(x, u);
  }

  lemma AnsweredCalls(x: World, u: Pid)
    requires WorldOk(x) && IsUser(u)
    ensures IsTelling(x, u) <==> x.places[u] == Telling
    ensures Resuming(x, u) <==> x.places[u] == FromTty
  {
    hide Inv, Load, UserFine, ReadFine, Handles, Asks, Answers;
    assert ProcFine(x, u);
  }

  lemma WaitingCalls(x: World, u: Pid)
    requires WorldOk(x) && IsUser(u)
    ensures Waits(x, u) <==> IsOwed(x.places[u])
  {
    hide Inv, Load, FsFine, TtyFine, ReadFine, Handles, Accounted;
    assert ProcFine(x, u);
  }

  lemma LostIsForsaken(x: World, u: Pid)
    requires WorldOk(x) && IsUser(u)
    ensures x.places[u] == Lost <==> Forsaken(x, u)
  {
    hide Inv, Load, FsFine, TtyFine, UserFine, ReadFine, Handles, Suspends, IsTelling, Resuming, Waits;
    ServedCalls(x, u);
    AnsweredCalls(x, u);
    WaitingCalls(x, u);
    OpenReads(x, u);
    assert ProcFine(x, u);
  }

  lemma LostStep(x: World, a: Act, y: World, u: Pid)
    requires WorldOk(x) && Next(x, a, y) && WorldShape(y) && IsUser(u) && x.places[u] != Lost
    ensures y.places[u] == Lost <==>
      a == TtyDispatches && M(x.s, TTY).mtype == DEV_READ
      && var m := M(x.s, TTY);
         (m.u.i3 == u && m.u.i2 == 0) || x.places[u] == AtTty(m.u.i4)
  {
    hide WorldOk, Load, Send, Receive, Interrupt, Write, TtyDispatchesStep;
    ShapeOf(x);
    if a == TtyDispatches { LostOnDispatch(x, y, u); }
  }

  lemma LostOnDispatch(x: World, y: World, u: Pid)
    requires WorldOk(x) && TtyDispatchesStep(x, y) && WorldShape(y) && IsUser(u) && x.places[u] != Lost
    ensures y.places[u] == Lost <==>
      M(x.s, TTY).mtype == DEV_READ
      && var m := M(x.s, TTY);
         (m.u.i3 == u && m.u.i2 == 0) || x.places[u] == AtTty(m.u.i4)
  {
    hide Inv, Load, Write, Resuming, FsFine, TtyFine;
    assert ProcFine(x, u);
    if M(x.s, TTY).mtype == DEV_READ {
      HeldRequest(x);
      assert ReadFine(x, M(x.s, TTY).u.i4);
    }
  }

  /**
   A call becomes one that nobody has exactly when its read is for nothing, or when another read arrives while it is
   open.
   */
  lemma LostExactly(x: World, a: Act, y: World, u: Pid)
    requires WorldOk(x) && Next(x, a, y) && WorldShape(y) && IsUser(u) && !Forsaken(x, u)
    ensures Forsaken(y, u) <==>
      a == TtyDispatches && M(x.s, TTY).mtype == DEV_READ
      && var m := M(x.s, TTY);
         && 0 <= m.u.i4 < NR_CONSOLES
         && ((m.u.i3 == u && m.u.i2 == 0) || (x.pend[m.u.i4].Some? && x.pend[m.u.i4].value.proc == u))
  {
    hide Inv, Load, Next, Forsaken, WorldOk;
    NextKeeps(x, a, y);
    ShapeOf(x);
    LostIsForsaken(x, u);
    LostIsForsaken(y, u);
    LostStep(x, a, y, u);
    OpenReads(x, u);
    if a == TtyDispatches && M(x.s, TTY).mtype == DEV_READ {
      DispatchedTerminal(x, y);
      var t := M(x.s, TTY).u.i4;
      assert x.places[u] == AtTty(t) <==> x.pend[t].Some? && x.pend[t].value.proc == u;
    }
  }

  /** A call is at a terminal exactly when it is the read open there. */
  lemma OpenReads(x: World, u: Pid)
    requires WorldOk(x) && IsUser(u)
    ensures forall t :: 0 <= t < NR_CONSOLES ==>
      (x.places[u] == AtTty(t) <==> x.pend[t].Some? && x.pend[t].value.proc == u)
  {
    hide Inv, Load, FsFine, TtyFine, UserFine;
    assert ProcFine(x, u);
    forall t | 0 <= t < NR_CONSOLES ensures x.places[u] == AtTty(t) <==> x.pend[t].Some? && x.pend[t].value.proc == u {
      assert ReadFine(x, t);
    }
  }

  lemma DispatchedTerminal(x: World, y: World)
    requires WorldShape(x) && Next(x, TtyDispatches, y)
    ensures M(x.s, TTY).mtype == DEV_READ ==> 0 <= M(x.s, TTY).u.i4 < NR_CONSOLES
  {
    hide Load, Write;
  }

  lemma StaysLost(x: World, a: Act, y: World, u: Pid)
    requires WorldOk(x) && Next(x, a, y) && WorldShape(y) && IsUser(u) && x.places[u] == Lost
    ensures y.places[u] == Lost
  {
    hide WorldOk, Next;
    if IsFsAct(a) { FsLeavesLost(x, a, y, u); } else { OthersLeaveLost(x, a, y, u); }
  }

  lemma FsLeavesLost(x: World, a: Act, y: World, u: Pid)
    requires WorldOk(x) && Next(x, a, y) && WorldShape(y) && IsUser(u) && x.places[u] == Lost && IsFsAct(a)
    ensures y.places[u] == Lost
  {
    hide Inv, Load, Send, Receive, Write, Asks, Resuming, UserFine, TtyFine;
    assert ProcFine(x, u);
    if a == FsReceives {
      var c := Chosen(x.s, FS, ANY);
      if c.Some? { FsTakes(x, c.value); }
    }
  }

  lemma OthersLeaveLost(x: World, a: Act, y: World, u: Pid)
    requires WorldOk(x) && Next(x, a, y) && WorldShape(y) && IsUser(u) && x.places[u] == Lost && !IsFsAct(a)
    ensures y.places[u] == Lost
  {
    hide Inv, Load, Send, Receive, Interrupt, Write, Asks, Resuming, TtyFine;
    assert ProcFine(x, u);
    match a
    case TtyDispatches => if M(x.s, TTY).mtype == DEV_READ { HeldRequest(x); }
    case TtyCompletes(t) => assert ReadFine(x, t);
    case _ =>
  }

  /** On every run a call that nobody has is never answered: its user waits in every later state. */
  lemma {:induction false} LostForever(xs: seq<World>, acts: seq<Act>, i: nat, j: nat, u: Pid)
    requires TerminalProofs.IsRun(xs, acts) && IsUser(u) && i <= j <= |acts|
    requires WorldShape(xs[i]) && Forsaken(xs[i], u)
    ensures WorldShape(xs[j]) && Forsaken(xs[j], u)
    decreases j
  {
    hide Next, Forsaken, WorldOk, WorldShape;
    RunIsOkAt(xs, acts, j);
    ShapeOf(xs[j]);
    if i < j {
      var k := j - 1;
      LostForever(xs, acts, i, k, u);
      RunIsOkAt(xs, acts, k);
      assert Next(xs[k], acts[k], xs[k + 1]);
      LostIsForsaken(xs[k], u);
      StaysLost(xs[k], acts[k], xs[j], u);
      LostIsForsaken(xs[j], u);
    }
  }

  lemma RunIsOkAt(xs: seq<World>, acts: seq<Act>, j: nat)
    requires TerminalProofs.IsRun(xs, acts) && j <= |acts|
    ensures WorldOk(xs[j])
  {
    hide Next, WorldOk;
    RunIsOk(xs[..j + 1], acts[..j]);
  }

  // ----- Where the system stops -----

  /** An act is at a system call that ends in the deadlock panic or in a failed assertion. */
  ghost predicate Stops(x: World, a: Act)
    requires WorldShape(x)
  {
    match a
    case Call(u, m) => IsUser(u) && x.s.st[u].Runnable? && x.users[u] == UHome && IsRequest(m)
      && !Send(Write(x.s, u, MSG, m), u, FS, MSG).Done?
    case Hear(u) => IsUser(u) && x.s.st[u].Runnable? && x.users[u] == UHear && !Receive(x.s, u, FS, MSG).Done?
    case FsReceives => x.s.st[FS].Runnable? && x.fs == FsLoop
      && !Receive(Write(x.s, FS, MSG, ZERO), FS, ANY, MSG).Done?
    case FsAsks => x.s.st[FS].Runnable? && x.fs.FsAsk? && !Send(x.s, FS, TTY, MSG).Done?
    case FsHears => x.s.st[FS].Runnable? && x.fs.FsHear? && !Receive(x.s, FS, TTY, MSG).Done?
    case FsOpens => x.s.st[FS].Runnable? && x.fs.FsOpen? && !Send(x.s, FS, TTY, DRV).Done?
    case FsOpenHears => x.s.st[FS].Runnable? && x.fs.FsOpenHear? && !Receive(x.s, FS, TTY, DRV).Done?
    case FsTells => x.s.st[FS].Runnable? && x.fs.FsTell? && !Send(x.s, FS, x.fs.to, MSG).Done?
    case TtyCompletes(t) => Completes(x, t) && !ResumeReader(x, t).Done?
    case TtyReceives => x.s.st[TTY].Runnable? && x.tty == TtyLoop
      && !Receive(Write(x.s, TTY, MSG, ZERO), TTY, ANY, MSG).Done?
    case TtyAnswers => x.s.st[TTY].Runnable? && x.tty.TtyAnswer? && !Send(x.s, TTY, x.tty.to, MSG).Done?
    case _ => false
  }

  /** The two tasks call each other: one is at its send while the other is blocked sending to it. */
  ghost predicate TasksCollide(x: World, a: Act)
    requires WorldShape(x)
  {
    || (a == FsAsks && x.fs.FsAsk? && x.s.st[FS].Runnable? && x.s.st[TTY] == Sending(FS, RES))
    || (a == FsOpens && x.fs.FsOpen? && x.s.st[FS].Runnable? && x.s.st[TTY] == Sending(FS, RES))
    || (a.TtyCompletes? && Completes(x, a.t) && x.s.st[FS].Sending? && x.s.st[FS].dest == TTY)
  }

  /**
   The system stops exactly when the file system passes a request on, or opens a terminal, while the terminal task is
   sending it a resumption, or the terminal task resumes a reader while the file system is sending to it.
   */
  lemma DeadlockOfTasks(x: World, a: Act)
    requires WorldOk(x)
    ensures Stops(x, a) <==> TasksCollide(x, a)
  {
    hide Inv, Load, Awaits, UserFine, Accounted, ReadFine, Receive, Send, Write;
    match a
    case Call(u, m) => CallNeverStops(x, u, m);
    case Hear(u) => if x.s.st[u].Runnable? && IsUser(u) { AssertionIsExact(x.s, u, FS, MSG); }
    case FsReceives => if x.s.st[FS].Runnable? { ReceiveAnyNeverStops(x.s, FS); }
    case FsHears => if x.s.st[FS].Runnable? { AssertionIsExact(x.s, FS, TTY, MSG); }
    case TtyReceives => if x.s.st[TTY].Runnable? { ReceiveAnyNeverStops(x.s, TTY); }
    case FsAsks => if x.fs.FsAsk? { SendDeadlocks(x.s, FS, TTY, MSG); }
    case FsOpens => if x.fs.FsOpen? { SendDeadlocks(x.s, FS, TTY, DRV); }
    case FsOpenHears => if x.s.st[FS].Runnable? { AssertionIsExact(x.s, FS, TTY, DRV); }
    case FsTells =>
      if x.fs.FsTell? {
        assert ProcFine(x, x.fs.to);
        UserDoesNotSend(x, x.fs.to);
        SendDeadlocks(x.s, FS, x.fs.to, MSG);
      }
    case TtyAnswers => if x.tty.TtyAnswer? { SendDeadlocks(x.s, TTY, FS, MSG); }
    case TtyCompletes(t) => CompletionStopsExactly(x, t);
    case _ =>
  }

  lemma ReceiveAnyNeverStops(s: State, p: Pid)
    requires Shape(s) && Inv(s) && s.st[p].Runnable?
    ensures Shape(Write(s, p, MSG, ZERO)) && Receive(Write(s, p, MSG, ZERO), p, ANY, MSG).Done?
  {
    hide Inv, Receive, Write;
    StatusesStay(s, p, MSG, ZERO);
    ComputeKeepsInv(s, p, MSG, ZERO);
    AssertionIsExact(Write(s, p, MSG, ZERO), p, ANY, MSG);
  }

  lemma CompletionStopsExactly(x: World, t: nat)
    requires WorldOk(x)
    ensures Stops(x, TtyCompletes(t)) <==> TasksCollide(x, TtyCompletes(t))
  {
    hide Inv, Load, Awaits, UserFine, Accounted, Write, Send;
    if Completes(x, t) {
      assert ReadFine(x, t);
      if x.s.st[FS].Sending? && x.s.st[FS].dest != TTY {
        assert ProcFine(x, x.s.st[FS].dest);
        UserDoesNotSend(x, x.s.st[FS].dest);
      }
      var m := Resumption(x, x.pend[t].value, KeysWithNext(x, t));
      StatusesStay(x.s, TTY, RES, m);
      SendDeadlocks(Write(x.s, TTY, RES, m), TTY, FS, RES);
    }
  }

  lemma StatusesStay(s: State, p: Pid, a: Addr, m: Message)
    requires Shape(s)
    ensures Shape(Write(s, p, a, m)) && Write(s, p, a, m).st == s.st
  {
  }

  /** Whoever the file system sends to sends to nobody. */
  lemma CallNeverStops(x: World, u: Pid, m: Message)
    requires WorldOk(x)
    ensures !Stops(x, Call(u, m))
  {
    hide Inv, Load, Awaits, UserFine, Accounted, ReadFine, Write, Send;
    if IsUser(u) && x.s.st[u].Runnable? && x.users[u] == UHome {
      assert ProcFine(x, u);
      HomeIsHome(x, u);
      if x.s.st[FS].Sending? && x.s.st[FS].dest != TTY {
        assert ProcFine(x, x.s.st[FS].dest);
        UserDoesNotSend(x, x.s.st[FS].dest);
      }
      if x.s.st[FS].Sending? && x.s.st[FS].dest == TTY { NotBoth(x.s); }
      StatusesStay(x.s, u, MSG, m);
      SendDeadlocks(Write(x.s, u, MSG, m), u, FS, MSG);
    }
  }

  lemma HomeIsHome(x: World, u: Pid)
    requires WorldShape(x) && UserFine(x, u) && x.users[u] == UHome
    ensures x.places[u] == Home
  {
  }

  lemma NotBoth(s: State)
    requires Inv(s) && s.st[FS].Sending? && s.st[FS].dest == TTY
    ensures !(s.st[TTY].Sending? && s.st[TTY].dest == FS)
  {
    ChainsEndIsAcyclic(s);
    if s.st[TTY].Sending? && s.st[TTY].dest == FS {
      assert Path(s, FS, FS, 0);
      assert Path(s, TTY, FS, 1);
      assert Path(s, FS, FS, 2);
    }
  }

  lemma UserDoesNotSend(x: World, u: Pid)
    requires WorldShape(x) && UserFine(x, u) && x.places[u] == Telling
    ensures !x.s.st[u].Sending?
  {
  }

  /**
   A send is refused when its target sends back, and not when its target sends to nobody or to one who does not send.
   */
  lemma SendDeadlocks(s: State, p: Pid, d: Pid, a: Addr)
    requires Shape(s) && p != d
    ensures s.st[d].Sending? && s.st[d].dest == p ==> Send(s, p, d, a).Deadlock?
    ensures !s.st[d].Sending? || (s.st[d].dest != p && !s.st[s.st[d].dest].Sending?) ==> Send(s, p, d, a).Done?
  {
    var t := Stamp(s, p, a);
    if s.st[d].Sending? && s.st[d].dest == p {
      assert Path(t, p, p, 0);
      assert Path(t, d, p, 1);
      assert Reaches(t, d, p);
    }
    if !s.st[d].Sending? || (s.st[d].dest != p && !s.st[s.st[d].dest].Sending?) {
      forall n: nat ensures !Path(t, d, p, n) {
        if n > 0 && s.st[d].Sending? { assert !Path(t, s.st[d].dest, p, n - 1); }
      }
    }
  }
}
