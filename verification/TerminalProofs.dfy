/** Every step of the terminal protocol keeps its invariant; what that means for the answers the readers get. */
module TerminalProofs {
  import opened Wrappers
  import opened Config
  import opened Ipc
  import opened IpcEffects
  import opened TerminalRead

  // ----- Every step keeps it -----

  /** A request for a terminal that the terminal task holds is the file system's, for a user whose call is there. */
  lemma HeldRequest(x: World)
    requires WorldOk(x) && x.tty == TtyHave && x.s.st[TTY].Runnable? && M(x.s, TTY).mtype == DEV_READ
    ensures M(x.s, TTY).source == FS && M(x.s, TTY).u.i2 >= 0 && IsUser(M(x.s, TTY).u.i3)
    ensures x.places[M(x.s, TTY).u.i3] == AtFs && x.due[M(x.s, TTY).u.i3] == Reading(M(x.s, TTY).u.i2, M(x.s, TTY).u.i4)
  {
    hide Inv, Load, ProcFine, ReadFine;
  }

  lemma FinishKeeps(x: World, u: Pid, b: Buffer, y: World)
    requires WorldOk(x) && FinishStep(x, u, b, y)
    ensures WorldOk(y)
  {
    hide Inv, Write, Send, Receive, Interrupt, Load;
    assert FsFine(y);
    assert TtyFine(y);
    forall v: Pid ensures ProcFine(y, v) {
      assert ProcFine(x, v);
    }
    forall t: nat | t < NR_CONSOLES ensures ReadFine(y, t) { assert ReadFine(x, t); }
  }

  lemma FsFinishesKeeps(x: World, y: World)
    requires WorldOk(x) && FsFinishesStep(x, y)
    ensures WorldOk(y)
  {
    hide Inv, Write, Send, Receive, Interrupt, Load;
    WriteEffect(x.s, FS, MSG, M(x.s, FS).(mtype := SYSCALL_RET));
    assert FsFine(y);
    assert TtyFine(y);
    forall v: Pid ensures ProcFine(y, v) {
      assert ProcFine(x, v);
    }
    forall t: nat | t < NR_CONSOLES ensures ReadFine(y, t) { assert ReadFine(x, t); }
  }

  lemma FsDispatchesTasks(x: World, y: World)
    requires WorldOk(x) && FsDispatchesStep(x, y)
    ensures WorldShape(y) && Inv(y.s) && FsFine(y) && TtyFine(y) && forall p: Pid :: p != TTY ==> !y.s.intr[p]
  {
    hide Inv, Write, Send, Receive, Load, Accounted;
    if M(x.s, FS).mtype == OPEN {
      WriteEffect(x.s, FS, DRV, Opening(x, M(x.s, FS).u.i1));
    } else {
      WriteEffect(x.s, FS, MSG, Dispatched(M(x.s, FS)));
    }
  }

  lemma FsDispatchesUsers(x: World, y: World)
    requires WorldOk(x) && FsDispatchesStep(x, y) && WorldShape(y)
    ensures forall v: Pid :: ProcFine(y, v)
    ensures forall t: nat :: t < NR_CONSOLES ==> ReadFine(y, t)
  {
    hide Inv, Write, Send, Receive, Load, Asks, Answers, TtyFine;
    if M(x.s, FS).mtype == OPEN {
      WriteEffect(x.s, FS, DRV, Opening(x, M(x.s, FS).u.i1));
    } else {
      WriteEffect(x.s, FS, MSG, Dispatched(M(x.s, FS)));
    }
    forall v: Pid ensures ProcFine(y, v) {
      assert ProcFine(x, v);
    }
    forall t: nat | t < NR_CONSOLES ensures ReadFine(y, t) { assert ReadFine(x, t); }
  }

  lemma FsDispatchesKeeps(x: World, y: World)
    requires WorldOk(x) && FsDispatchesStep(x, y)
    ensures WorldOk(y)
  {
    hide Inv, Shape, FsFine, TtyFine, ProcFine, ReadFine, FsDispatchesStep;
    FsDispatchesTasks(x, y);
    FsDispatchesUsers(x, y);
  }

  lemma FsAsksKeeps(x: World, y: World)
    requires WorldOk(x) && FsAsksStep(x, y)
    ensures WorldOk(y)
  {
    hide Inv, Write, Send, Receive, Interrupt, Load;
    SendEffect(x.s, FS, TTY, MSG);
    assert FsFine(y);
    assert TtyFine(y);
    forall v: Pid ensures ProcFine(y, v) {
      assert ProcFine(x, v);
    }
    forall t: nat | t < NR_CONSOLES ensures ReadFine(y, t) { assert ReadFine(x, t); }
  }

  lemma FsHearsKeeps(x: World, y: World)
    requires WorldOk(x) && FsHearsStep(x, y)
    ensures WorldOk(y)
  {
    hide Inv, Write, Send, Receive, Interrupt, Load;
    ReceiveEffect(x.s, FS, TTY, MSG);
    assert FsFine(y);
    assert TtyFine(y);
    forall v: Pid ensures ProcFine(y, v) {
      assert ProcFine(x, v);
    }
    forall t: nat | t < NR_CONSOLES ensures ReadFine(y, t) { assert ReadFine(x, t); }
  }

  lemma FsOpensKeeps(x: World, y: World)
    requires WorldOk(x) && FsOpensStep(x, y)
    ensures WorldOk(y)
  {
    hide Inv, Write, Send, Receive, Interrupt, Load;
    SendEffect(x.s, FS, TTY, DRV);
    assert FsFine(y);
    assert TtyFine(y);
    forall v: Pid ensures ProcFine(y, v) {
      assert ProcFine(x, v);
    }
    forall t: nat | t < NR_CONSOLES ensures ReadFine(y, t) { assert ReadFine(x, t); }
  }

  lemma FsOpenHearsKeeps(x: World, y: World)
    requires WorldOk(x) && FsOpenHearsStep(x, y)
    ensures WorldOk(y)
  {
    hide Inv, Write, Send, Receive, Interrupt, Load;
    ReceiveEffect(x.s, FS, TTY, DRV);
    assert FsFine(y);
    assert TtyFine(y);
    forall v: Pid ensures ProcFine(y, v) {
      assert ProcFine(x, v);
    }
    forall t: nat | t < NR_CONSOLES ensures ReadFine(y, t) { assert ReadFine(x, t); }
  }

  lemma FsOpenFinishesKeeps(x: World, y: World)
    requires WorldOk(x) && FsOpenFinishesStep(x, y)
    ensures WorldOk(y)
  {
    hide Inv, Write, Send, Receive, Interrupt, Load;
    WriteEffect(x.s, FS, MSG, M(x.s, FS).(mtype := SYSCALL_RET));
    assert FsFine(y);
    assert TtyFine(y);
    forall v: Pid ensures ProcFine(y, v) {
      assert ProcFine(x, v);
    }
    forall t: nat | t < NR_CONSOLES ensures ReadFine(y, t) { assert ReadFine(x, t); }
  }

  lemma FsTellsKeeps(x: World, y: World)
    requires WorldOk(x) && FsTellsStep(x, y)
    ensures WorldOk(y)
  {
    hide Inv, Write, Send, Receive, Interrupt, Load;
    SendEffect(x.s, FS, x.fs.to, MSG);
    assert FsFine(y);
    assert TtyFine(y);
    forall v: Pid ensures ProcFine(y, v) {
      assert ProcFine(x, v);
    }
    forall t: nat | t < NR_CONSOLES ensures ReadFine(y, t) { assert ReadFine(x, t); }
  }

  lemma HearTasks(x: World, u: Pid, y: World)
    requires WorldOk(x) && HearStep(x, u, y)
    ensures WorldShape(y) && Inv(y.s) && FsFine(y) && TtyFine(y) && forall p: Pid :: p != TTY ==> !y.s.intr[p]
  {
    hide Inv, Write, Send, Receive, Load, Accounted;
    ReceiveEffect(x.s, u, FS, MSG);
  }

  lemma HearUsers(x: World, u: Pid, y: World)
    requires WorldOk(x) && HearStep(x, u, y) && WorldShape(y)
    ensures forall v: Pid :: ProcFine(y, v)
    ensures forall t: nat :: t < NR_CONSOLES ==> ReadFine(y, t)
  {
    hide Inv, Write, Send, Receive, Load, Asks, Answers, TtyFine;
    ReceiveEffect(x.s, u, FS, MSG);
    forall v: Pid ensures ProcFine(y, v) {
      assert ProcFine(x, v);
    }
    forall t: nat | t < NR_CONSOLES ensures ReadFine(y, t) { assert ReadFine(x, t); }
  }

  lemma HearKeeps(x: World, u: Pid, y: World)
    requires WorldOk(x) && HearStep(x, u, y)
    ensures WorldOk(y)
  {
    hide Inv, Shape, FsFine, TtyFine, ProcFine, ReadFine, HearStep;
    HearTasks(x, u, y);
    HearUsers(x, u, y);
  }

  lemma CallEffect(x: World, u: Pid, m: Message, y: World)
    requires WorldOk(x) && CallStep(x, u, m, y)
    ensures WorldShape(y) && Inv(y.s) && forall p: Pid :: p != TTY ==> !y.s.intr[p]
    ensures y.s.st[TTY] == x.s.st[TTY] && forall a: Addr :: Load(y.s.mem[TTY], a) == Load(x.s.mem[TTY], a)
    ensures if x.s.st[FS] == Receiving(ANY, MSG) then y.s.st[FS].Runnable? && M(y.s, FS) == m.(source := u)
      else y.s.st[FS] == x.s.st[FS] && forall a: Addr :: Load(y.s.mem[FS], a) == Load(x.s.mem[FS], a)
  {
    hide Inv, Write, Send, Receive, Load, TtyFine, Accounted, ReadFine;
    assert ProcFine(x, u);
    WriteEffect(x.s, u, MSG, m);
    SendEffect(Write(x.s, u, MSG, m), u, FS, MSG);
  }

  lemma CallFs(x: World, u: Pid, m: Message, y: World)
    requires WorldOk(x) && CallStep(x, u, m, y) && WorldShape(y)
    ensures FsFine(y)
  {
    hide Inv, Write, Send, Receive, Load, TtyFine, ReadFine, Accounted;
    assert ProcFine(x, u);
    CallEffect(x, u, m, y);
  }

  lemma CallTty(x: World, u: Pid, m: Message, y: World)
    requires WorldOk(x) && CallStep(x, u, m, y) && WorldShape(y)
    ensures TtyFine(y)
  {
    hide Inv, Write, Send, Receive, Load, Accounted, ReadFine;
    assert ProcFine(x, u);
    CallEffect(x, u, m, y);
  }

  lemma CallUsers(x: World, u: Pid, m: Message, y: World)
    requires WorldOk(x) && CallStep(x, u, m, y) && WorldShape(y)
    ensures forall v: Pid :: ProcFine(y, v)
    ensures forall t: nat :: t < NR_CONSOLES ==> ReadFine(y, t)
  {
    hide Inv, Write, Send, Receive, Load, Asks, Answers, TtyFine;
    assert ProcFine(x, u);
    WriteEffect(x.s, u, MSG, m);
    SendEffect(Write(x.s, u, MSG, m), u, FS, MSG);
    forall v: Pid ensures ProcFine(y, v) {
      assert ProcFine(x, v);
    }
    forall t: nat | t < NR_CONSOLES ensures ReadFine(y, t) { assert ReadFine(x, t); }
  }

  lemma CallKeeps(x: World, u: Pid, m: Message, y: World)
    requires WorldOk(x) && CallStep(x, u, m, y)
    ensures WorldOk(y)
  {
    hide Inv, Shape, FsFine, TtyFine, ProcFine, ReadFine, CallStep;
    CallEffect(x, u, m, y);
    CallFs(x, u, m, y);
    CallTty(x, u, m, y);
    CallUsers(x, u, m, y);
  }

  lemma TtyAnswersKeeps(x: World, y: World)
    requires WorldOk(x) && TtyAnswersStep(x, y)
    ensures WorldOk(y)
  {
    hide Inv, Write, Send, Receive, Interrupt, Load;
    SendEffect(x.s, TTY, x.tty.to, MSG);
    assert FsFine(y);
    assert TtyFine(y);
    forall v: Pid ensures ProcFine(y, v) {
      assert ProcFine(x, v);
    }
    forall t: nat | t < NR_CONSOLES ensures ReadFine(y, t) { assert ReadFine(x, t); }
  }

  lemma TtyReceivesTasks(x: World, y: World)
    requires WorldOk(x) && TtyReceivesStep(x, y)
    ensures WorldShape(y) && Inv(y.s) && FsFine(y) && TtyFine(y) && forall p: Pid :: p != TTY ==> !y.s.intr[p]
  {
    hide Inv, Write, Send, Receive, Load, Accounted;
    WriteEffect(x.s, TTY, MSG, ZERO);
    ReceiveEffect(Write(x.s, TTY, MSG, ZERO), TTY, ANY, MSG);
    var c := Chosen(x.s, TTY, ANY);
    assert c.Some? ==> ProcFine(x, c.value);
  }

  lemma TtyReceivesUsers(x: World, y: World)
    requires WorldOk(x) && TtyReceivesStep(x, y) && WorldShape(y)
    ensures forall v: Pid :: ProcFine(y, v)
    ensures forall t: nat :: t < NR_CONSOLES ==> ReadFine(y, t)
  {
    hide Inv, Write, Send, Receive, Load, Asks, Answers, TtyFine;
    WriteEffect(x.s, TTY, MSG, ZERO);
    ReceiveEffect(Write(x.s, TTY, MSG, ZERO), TTY, ANY, MSG);
    var c := Chosen(x.s, TTY, ANY);
    assert c.Some? ==> ProcFine(x, c.value);
    forall v: Pid ensures ProcFine(y, v) {
      assert ProcFine(x, v);
    }
    forall t: nat | t < NR_CONSOLES ensures ReadFine(y, t) { assert ReadFine(x, t); }
  }

  lemma TtyReceivesKeeps(x: World, y: World)
    requires WorldOk(x) && TtyReceivesStep(x, y)
    ensures WorldOk(y)
  {
    hide Inv, Shape, FsFine, TtyFine, ProcFine, ReadFine, TtyReceivesStep;
    TtyReceivesTasks(x, y);
    TtyReceivesUsers(x, y);
  }

  lemma TtyDispatchesTasks(x: World, y: World)
    requires WorldOk(x) && TtyDispatchesStep(x, y)
    ensures WorldShape(y) && Inv(y.s) && FsFine(y) && TtyFine(y) && forall p: Pid :: p != TTY ==> !y.s.intr[p]
  {
    hide Inv, Write, Send, Receive, Load, Accounted;
    var m := M(x.s, TTY);
    if m.mtype == DEV_READ {
      WriteEffect(x.s, TTY, MSG, m.(mtype := SUSPEND_PROC));
      HeldRequest(x);
      assert ReadFine(x, m.u.i4);
    } else if m.mtype == DEV_OPEN {
      WriteEffect(x.s, TTY, MSG, ZERO.(mtype := SYSCALL_RET));
    } else {
      WriteEffect(x.s, TTY, MSG, m.(mtype := SYSCALL_RET));
    }
  }

  lemma TtyDispatchesUsers(x: World, y: World)
    requires WorldOk(x) && TtyDispatchesStep(x, y) && WorldShape(y)
    ensures forall v: Pid :: ProcFine(y, v)
    ensures forall t: nat :: t < NR_CONSOLES ==> ReadFine(y, t)
  {
    hide Inv, Write, Send, Receive, Load, Asks, Answers, Holds, FsFine, TtyFine;
    var m := M(x.s, TTY);
    if m.mtype == DEV_READ {
      WriteEffect(x.s, TTY, MSG, m.(mtype := SUSPEND_PROC));
      HeldRequest(x);
      assert ReadFine(x, m.u.i4);
    } else if m.mtype == DEV_OPEN {
      WriteEffect(x.s, TTY, MSG, ZERO.(mtype := SYSCALL_RET));
    } else {
      WriteEffect(x.s, TTY, MSG, m.(mtype := SYSCALL_RET));
    }
    forall v: Pid ensures ProcFine(y, v) {
      assert ProcFine(x, v);
    }
    forall t: nat | t < NR_CONSOLES ensures ReadFine(y, t) { assert ReadFine(x, t); }
  }

  lemma TtyDispatchesKeeps(x: World, y: World)
    requires WorldOk(x) && TtyDispatchesStep(x, y)
    ensures WorldOk(y)
  {
    hide Inv, Shape, FsFine, TtyFine, ProcFine, ReadFine, TtyDispatchesStep;
    TtyDispatchesTasks(x, y);
    TtyDispatchesUsers(x, y);
  }

  lemma FsReceivesTasks(x: World, y: World)
    requires WorldOk(x) && FsReceivesStep(x, y)
    ensures WorldShape(y) && Inv(y.s) && FsFine(y) && TtyFine(y) && forall p: Pid :: p != TTY ==> !y.s.intr[p]
  {
    hide Inv, Write, Send, Receive, Load, Accounted;
    WriteEffect(x.s, FS, MSG, ZERO);
    ReceiveEffect(Write(x.s, FS, MSG, ZERO), FS, ANY, MSG);
    var c := Chosen(x.s, FS, ANY);
    assert c.Some? ==> ProcFine(x, c.value);
  }

  lemma FsReceivesUsers(x: World, y: World)
    requires WorldOk(x) && FsReceivesStep(x, y) && WorldShape(y)
    ensures forall v: Pid :: ProcFine(y, v)
    ensures forall t: nat :: t < NR_CONSOLES ==> ReadFine(y, t)
  {
    hide Inv, Write, Send, Receive, Load, Asks, Answers;
    WriteEffect(x.s, FS, MSG, ZERO);
    ReceiveEffect(Write(x.s, FS, MSG, ZERO), FS, ANY, MSG);
    var c := Chosen(x.s, FS, ANY);
    assert c.Some? ==> ProcFine(x, c.value);
    forall v: Pid ensures ProcFine(y, v) {
      assert ProcFine(x, v);
    }
    forall t: nat | t < NR_CONSOLES ensures ReadFine(y, t) { assert ReadFine(x, t); }
  }

  lemma FsReceivesKeeps(x: World, y: World)
    requires WorldOk(x) && FsReceivesStep(x, y)
    ensures WorldOk(y)
  {
    hide Inv, Shape, FsFine, TtyFine, ProcFine, ReadFine, FsReceivesStep;
    FsReceivesTasks(x, y);
    FsReceivesUsers(x, y);
  }

  lemma KeyInterruptKeeps(x: World, y: World)
    requires WorldOk(x) && KeyInterruptStep(x, y)
    ensures WorldOk(y)
  {
    hide Inv, Write, Send, Receive, Interrupt, Load;
    InterruptEffect(x.s, TTY);
    assert FsFine(y);
    assert TtyFine(y);
    forall v: Pid ensures ProcFine(y, v) {
      assert ProcFine(x, v);
    }
    forall t: nat | t < NR_CONSOLES ensures ReadFine(y, t) { assert ReadFine(x, t); }
  }

  lemma TtyPutsKeeps(x: World, t: nat, key: int, y: World)
    requires WorldOk(x) && TtyPutsStep(x, t, key, y)
    ensures WorldOk(y)
  {
    hide Inv, Write, Send, Receive, Interrupt, Load, Tty.Line, Tty.Ends;
    assert FsFine(y);
    assert TtyFine(y);
    forall v: Pid ensures ProcFine(y, v) {
      assert ProcFine(x, v);
    }
    forall t: nat | t < NR_CONSOLES ensures ReadFine(y, t) { assert ReadFine(x, t); }
  }

  lemma TtyTakesKeeps(x: World, t: nat, y: World)
    requires WorldOk(x) && TtyTakesStep(x, t, y)
    ensures WorldOk(y)
  {
    hide Inv, Write, Send, Receive, Interrupt, Load, Tty.Line, Tty.Ends;
    assert FsFine(y);
    assert TtyFine(y);
    forall v: Pid ensures ProcFine(y, v) {
      assert ProcFine(x, v);
    }
    forall t: nat | t < NR_CONSOLES ensures ReadFine(y, t) { assert ReadFine(x, t); }
  }

  lemma TtyCompletesTasks(x: World, t: nat, y: World)
    requires WorldOk(x) && TtyCompletesStep(x, t, y)
    ensures WorldShape(y) && Inv(y.s) && FsFine(y) && TtyFine(y) && forall p: Pid :: p != TTY ==> !y.s.intr[p]
  {
    hide Inv, Write, Send, Receive, Load, Accounted;
    assert ReadFine(x, t);
    var p := x.pend[t].value.proc;
    assert ProcFine(x, p);
    var m := Resumption(x, x.pend[t].value, KeysWithNext(x, t));
    WriteEffect(x.s, TTY, RES, m);
    SendEffect(Write(x.s, TTY, RES, m), TTY, x.pend[t].value.caller, RES);
  }

  lemma TtyCompletesUsers(x: World, t: nat, y: World)
    requires WorldOk(x) && TtyCompletesStep(x, t, y) && WorldShape(y)
    ensures forall v: Pid :: ProcFine(y, v)
    ensures forall t: nat :: t < NR_CONSOLES ==> ReadFine(y, t)
  {
    hide Inv, Write, Send, Receive, Load, Asks, Answers, TtyFine;
    assert ReadFine(x, t);
    var p := x.pend[t].value.proc;
    assert ProcFine(x, p);
    var m := Resumption(x, x.pend[t].value, KeysWithNext(x, t));
    WriteEffect(x.s, TTY, RES, m);
    SendEffect(Write(x.s, TTY, RES, m), TTY, x.pend[t].value.caller, RES);
    forall v: Pid ensures ProcFine(y, v) {
      assert ProcFine(x, v);
    }
    forall t: nat | t < NR_CONSOLES ensures ReadFine(y, t) { assert ReadFine(x, t); }
  }

  lemma TtyCompletesKeeps(x: World, t: nat, y: World)
    requires WorldOk(x) && TtyCompletesStep(x, t, y)
    ensures WorldOk(y)
  {
    hide Inv, Shape, FsFine, TtyFine, ProcFine, ReadFine, TtyCompletesStep;
    TtyCompletesTasks(x, t, y);
    TtyCompletesUsers(x, t, y);
  }

  lemma NextKeeps(x: World, a: Act, y: World)
    requires WorldOk(x) && Next(x, a, y)
    ensures WorldOk(y)
  {
    hide WorldOk, CallStep, HearStep, FinishStep, FsReceivesStep, FsDispatchesStep, FsAsksStep, FsHearsStep,
      FsFinishesStep, FsOpensStep, FsOpenHearsStep, FsOpenFinishesStep,
      FsTellsStep, TtyPutsStep, TtyTakesStep, TtyCompletesStep, TtyReceivesStep, TtyDispatchesStep, TtyAnswersStep,
      KeyInterruptStep;
    match a
    case Call(u, m) => CallKeeps(x, u, m, y);
    case Hear(u) => HearKeeps(x, u, y);
    case Finish(u, b) => FinishKeeps(x, u, b, y);
    case FsReceives => FsReceivesKeeps(x, y);
    case FsDispatches => FsDispatchesKeeps(x, y);
    case FsAsks => FsAsksKeeps(x, y);
    case FsHears => FsHearsKeeps(x, y);
    case FsFinishes => FsFinishesKeeps(x, y);
    case FsOpens => FsOpensKeeps(x, y);
    case FsOpenHears => FsOpenHearsKeeps(x, y);
    case FsOpenFinishes => FsOpenFinishesKeeps(x, y);
    case FsTells => FsTellsKeeps(x, y);
    case TtyPuts(t, key) => TtyPutsKeeps(x, t, key, y);
    case TtyTakes(t) => TtyTakesKeeps(x, t, y);
    case TtyCompletes(t) => TtyCompletesKeeps(x, t, y);
    case TtyReceives => TtyReceivesKeeps(x, y);
    case TtyDispatches => TtyDispatchesKeeps(x, y);
    case TtyAnswers => TtyAnswersKeeps(x, y);
    case KeyInterrupt => KeyInterruptKeeps(x, y);
  }

  // ----- Runs -----

  ghost predicate IsRun(xs: seq<World>, acts: seq<Act>) {
    && |xs| == |acts| + 1 && Start(xs[0])
    && forall i :: 0 <= i < |acts| ==> WorldShape(xs[i]) && Next(xs[i], acts[i], xs[i + 1])
  }

  lemma {:induction false} RunIsOk(xs: seq<World>, acts: seq<Act>)
    requires IsRun(xs, acts)
    ensures WorldOk(xs[|acts|])
    decreases |acts|
  {
    hide Next;
    if acts == [] {
      StartIsOk(xs[0]);
    } else {
      var n := |acts| - 1;
      RunIsOk(xs[..n + 1], acts[..n]);
      assert WorldShape(xs[n]) && Next(xs[n], acts[n], xs[n + 1]);
      NextKeeps(xs[n], acts[n], xs[n + 1]);
    }
  }

  lemma StartIsOk(x: World)
    requires Start(x)
    ensures WorldOk(x)
  {
    hide Inv, Load;
    forall u: Pid ensures ProcFine(x, u) {}
  }

  /**
   What the file system receives while it carries out a read or a write of a terminal is the terminal task's reply to
   its own request, with the count it asked for: the assertion on the count holds on every run.
   */
  lemma ReplyIsToOwnRequest(xs: seq<World>, acts: seq<Act>)
    requires IsRun(xs, acts)
    ensures var x := xs[|acts|]; WorldShape(x)
    ensures var x := xs[|acts|];
      x.fs.FsBack? && x.s.st[FS].Runnable? ==>
        M(x.s, FS).source == TTY && M(x.s, FS).u.i2 == x.fs.n
          && (M(x.s, FS).mtype == SUSPEND_PROC || M(x.s, FS).mtype == SYSCALL_RET)
  {
    hide IsRun, Inv, Load;
    RunIsOk(xs, acts);
  }

  /**
   An answered user has what it is due: from the file system, with the count of its write or of its completed line.
   */
  lemma AnswerIsDue(xs: seq<World>, acts: seq<Act>, u: Pid)
    requires IsRun(xs, acts) && IsUser(u)
    ensures var x := xs[|acts|]; WorldShape(x)
    ensures var x := xs[|acts|];
      x.users[u] == UGot && x.s.st[u].Runnable? ==>
        M(x.s, u).source == FS && M(x.s, u).mtype == SYSCALL_RET && Owes(x.due[u], M(x.s, u).u.i2)
  {
    hide Next, Inv, Load;
    RunIsOk(xs, acts);
    assert ProcFine(xs[|acts|], u);
  }

  // ----- Each call is answered at most once -----

  function Calls(acts: seq<Act>, u: Pid): nat {
    if acts == [] then 0
    else
      var n := |acts| - 1;
      Calls(acts[..n], u) + if acts[n].Call? && acts[n].u == u then 1 else 0
  }

  /** How often the file system has sent something to user u. */
  ghost function Tellings(xs: seq<World>, acts: seq<Act>, u: Pid): nat
    requires |xs| > |acts|
    decreases |acts|
  {
    if acts == [] then 0
    else
      var n := |acts| - 1;
      Tellings(xs[..n + 1], acts[..n], u) + if acts[n] == FsTells && xs[n].fs == FsTell(u) then 1 else 0
  }

  /** Whether the file system has yet to send the answer to user u's last call. */
  ghost function Unanswered(x: World, u: Pid): nat
    requires WorldShape(x)
  {
    if x.places[u] == Home || (x.places[u] == Telling && x.fs == FsLoop) then 0 else 1
  }

  /** The one the file system takes a message from is a user that has just called, or the terminal task resuming one. */
  lemma FsTakes(x: World, q: Pid)
    requires WorldOk(x) && x.fs == FsLoop && x.s.st[FS].Runnable? && Chosen(x.s, FS, ANY) == Some(q)
    ensures (IsUser(q) && x.places[q] == Asking)
      || (q == TTY && var p := Load(x.s.mem[TTY], RES).u.i3; IsUser(p) && x.places[p] == FromTty)
  {
    hide Load, Accounted, ReadFine;
    QueuedIsSending(x.s, FS);
    assert ProcFine(x, q);
  }

  lemma QueuedIsSending(s: State, d: Pid)
    requires Inv(s) && s.queue[d] != []
    ensures s.st[s.queue[d][0]].Sending? && s.st[s.queue[d][0]].dest == d
  {
    assert s.queue[d][0] in s.queue[d];
  }

  predicate IsFsAct(a: Act) {
    || a.FsReceives? || a.FsDispatches? || a.FsAsks? || a.FsHears? || a.FsFinishes?
    || a.FsOpens? || a.FsOpenHears? || a.FsOpenFinishes? || a.FsTells?
  }

  lemma UnansweredByFs(x: World, a: Act, y: World, u: Pid)
    requires WorldOk(x) && Next(x, a, y) && WorldShape(y) && IsUser(u) && IsFsAct(a)
    ensures Unanswered(y, u) == Unanswered(x, u) - if a == FsTells && x.fs == FsTell(u) then 1 else 0
  {
    hide Inv, Load, Send, Receive, Write, Asks, Resuming, TtyFine, UserFine, ReadFine;
    assert ProcFine(x, u);
    if a == FsReceives {
      var c := Chosen(x.s, FS, ANY);
      if c.Some? { FsTakes(x, c.value); }
    }
  }

  lemma UnansweredByTty(x: World, a: Act, y: World, u: Pid)
    requires WorldOk(x) && Next(x, a, y) && WorldShape(y) && IsUser(u) && (a.TtyDispatches? || a.TtyCompletes?)
    ensures Unanswered(y, u) == Unanswered(x, u)
  {
    hide Inv, Load, Send, Receive, Write, Asks, Answers, Resuming, TtyFine;
    assert ProcFine(x, u);
    match a
    case TtyDispatches =>
      if M(x.s, TTY).mtype == DEV_READ {
        HeldRequest(x);
        assert ReadFine(x, M(x.s, TTY).u.i4);
      }
    case TtyCompletes(t) => assert ReadFine(x, t);
  }

  lemma UnansweredByOthers(x: World, a: Act, y: World, u: Pid)
    requires WorldOk(x) && Next(x, a, y) && WorldShape(y) && IsUser(u) && !IsFsAct(a)
    requires !a.TtyDispatches? && !a.TtyCompletes?
    ensures Unanswered(y, u) == Unanswered(x, u) + if a.Call? && a.u == u then 1 else 0
  {
    hide Inv, Load, Send, Receive, Interrupt, Write, Asks, Answers, Resuming, TtyFine, ReadFine, TtyDispatchesStep,
      TtyCompletesStep;
    assert ProcFine(x, u);
  }

  lemma UnansweredStep(x: World, a: Act, y: World, u: Pid)
    requires WorldOk(x) && Next(x, a, y) && WorldShape(y) && IsUser(u)
    ensures Unanswered(y, u)
      == Unanswered(x, u) + (if a.Call? && a.u == u then 1 else 0) - if a == FsTells && x.fs == FsTell(u) then 1 else 0
  {
    hide WorldOk, Next, Unanswered;
    if IsFsAct(a) {
      UnansweredByFs(x, a, y, u);
    } else if a.TtyDispatches? || a.TtyCompletes? {
      UnansweredByTty(x, a, y, u);
    } else {
      UnansweredByOthers(x, a, y, u);
    }
  }

  /** Nobody is sent an answer without a call, and nobody two for one call. */
  lemma {:induction false} AnsweredAtMostOnce(xs: seq<World>, acts: seq<Act>, u: Pid)
    requires IsRun(xs, acts) && IsUser(u)
    ensures WorldShape(xs[|acts|]) && Calls(acts, u) == Tellings(xs, acts, u) + Unanswered(xs[|acts|], u)
    decreases |acts|
  {
    hide Next, WorldOk, Unanswered, WorldShape;
    if acts == [] {
      NothingAsked(xs[0], u);
    } else {
      var n := |acts| - 1;
      var ys, bs := xs[..n + 1], acts[..n];
      assert IsRun(ys, bs);
      AnsweredAtMostOnce(ys, bs, u);
      RunIsOk(ys, bs);
      RunIsOk(xs, acts);
      ShapeOf(xs[n + 1]);
      assert ys[n] == xs[n] && Next(xs[n], acts[n], xs[n + 1]);
      UnansweredStep(xs[n], acts[n], xs[n + 1], u);
    }
  }

  lemma ShapeOf(x: World)
    requires WorldOk(x)
    ensures WorldShape(x)
  {
  }

  lemma NothingAsked(x: World, u: Pid)
    requires Start(x)
    ensures WorldShape(x) && Unanswered(x, u) == 0
  {
  }
}
