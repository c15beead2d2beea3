/**
 Reading and writing terminals: the file system task, the terminal task and the user processes as programs over the
 rendezvous machine. A read is first answered with a suspension; the terminal task resumes the reader later.
 */
module TerminalRead {
  import opened Wrappers
  import opened Config
  import opened Ipc
  import Tty

  const TTY: Pid := 0
  const FS: Pid := 3
  const MSG: Addr := 1
  const RES: Addr := 2
  /** The file system's message to the terminal task when it opens a terminal, apart from the user's request. */
  const DRV: Addr := 3

  const OPEN: int := 7
  const CLOSE: int := 8
  const READ: int := 9
  const WRITE: int := 10
  const SUSPEND_PROC: int := 14
  const RESUME_PROC: int := 15
  const SYSCALL_RET: int := 20
  const DEV_OPEN: int := 1001
  const DEV_READ: int := 1003
  const DEV_WRITE: int := 1004

  predicate IsUser(p: int) { NR_TASKS <= p < N }

  /** Where the tasks and the users are in their loops: the next call, or the one that blocks them. */
  datatype FsPc = FsLoop | FsHave | FsAsk(c: Pid, n: int) | FsHear(c: Pid, n: int) | FsBack(c: Pid, n: int)
    | FsOpen(c: Pid) | FsOpenHear(c: Pid) | FsOpenBack(c: Pid) | FsTell(to: Pid)
  datatype TtyPc = TtyLoop | TtyHave | TtyAnswer(to: Pid)
  datatype UserPc = UHome | UHear | UGot

  /**
   A read that is open on a terminal: tty_caller, tty_procnr, what was asked for, and the keys taken for it so far.
   */
  datatype Pending = Pending(caller: Pid, proc: Pid, cnt: nat, taken: seq<int>)

  /**
   What the answer to a user's call must say: for a read that is not complete, nothing yet; for one that is, the line of
   the keys taken for it, those of the terminal from `from` on; for any other call the count it came with. `kind` and
   `at` are what was called and the terminal it was for.
   */
  datatype Due = Reading(n: int, at: int) | Answer(kind: int, n: int, at: int)
    | Typed(n: int, term: nat, from: int, keys: seq<int>)

  /** A process's buffer for what it reads: what is at each place that has been written. */
  type Buffer = map<int, int>

  /** Who owes the answer to a user's call; `Lost` when nobody ever will. */
  datatype Place = Home | Asking | AtFs | AtTty(term: int) | FromTty | Telling | Lost

  /**
   The ring of a terminal holds the keys in `typed` from `gone` on; the keys before it, and `places` and `due`, are
   history: where each user's call is, and what its answer must say.
   */
  datatype World = World(s: State, fs: FsPc, tty: TtyPc, users: seq<UserPc>, bufs: seq<Buffer>,
                         pend: seq<Option<Pending>>, typed: seq<seq<int>>, gone: seq<nat>,
                         places: seq<Place>, due: seq<Due>)

  ghost predicate WorldShape(x: World) {
    && Shape(x.s) && |x.users| == |x.bufs| == |x.places| == |x.due| == N
    && |x.pend| == |x.typed| == |x.gone| == NR_CONSOLES
  }

  /** A call of a user on an open terminal, or one the file system answers by itself. */
  predicate IsRequest(m: Message) {
    (m.mtype == OPEN || m.mtype == READ || m.mtype == WRITE || m.mtype == CLOSE) && 0 <= m.u.i1 < NR_CONSOLES
      && m.u.i2 >= 0
  }

  function DueFor(m: Message): Due {
    if m.mtype == READ then Reading(m.u.i2, m.u.i1) else Answer(m.mtype, m.u.i2, m.u.i1)
  }

  /** An answer with count c says what is due. */
  predicate Owes(d: Due, c: int) {
    match d
    case Reading(_, _) => false
    case Answer(_, n, _) => c == n
    case Typed(_, _, _, keys) => c == |Tty.Line(keys)|
  }

  function M(s: State, p: Pid): Message
    requires Shape(s)
  {
    Load(s.mem[p], MSG)
  }

  // ----- The programs -----

  datatype Act =
    | Call(u: Pid, m: Message) | Hear(u: Pid) | Finish(u: Pid, b: Buffer)
    | FsReceives | FsDispatches | FsAsks | FsHears | FsFinishes | FsOpens | FsOpenHears | FsOpenFinishes | FsTells
    | TtyPuts(t: nat, key: int) | TtyTakes(t: nat) | TtyCompletes(t: nat)
    | TtyReceives | TtyDispatches | TtyAnswers | KeyInterrupt

  /** A user makes a system call: it sends its request, and will then wait for the answer. */
  ghost predicate CallStep(x: World, u: Pid, m: Message, y: World)
    requires WorldShape(x)
  {
    && IsUser(u) && x.s.st[u].Runnable? && x.users[u] == UHome && IsRequest(m)
    && var r := Send(Write(x.s, u, MSG, m), u, FS, MSG);
       r.Done? && y == x.(s := r.s, users := x.users[u := UHear], due := x.due[u := DueFor(m)],
                          places := x.places[u := if Awaits(x.s, FS, u) then AtFs else Asking])
  }

  ghost predicate HearStep(x: World, u: Pid, y: World)
    requires WorldShape(x)
  {
    && IsUser(u) && x.s.st[u].Runnable? && x.users[u] == UHear
    && var r := Receive(x.s, u, FS, MSG);
       r.Done? && y == x.(s := r.s, users := x.users[u := UGot],
                          places := if Chosen(x.s, u, FS) == Some(FS) then x.places[u := Home] else x.places)
  }

  /** The user goes on, and does with its buffer what it likes. */
  ghost predicate FinishStep(x: World, u: Pid, b: Buffer, y: World)
    requires WorldShape(x)
  {
    && IsUser(u) && x.s.st[u].Runnable? && x.users[u] == UGot
    && y == x.(users := x.users[u := UHome], bufs := x.bufs[u := b])
  }

  ghost predicate FsReceivesStep(x: World, y: World)
    requires WorldShape(x)
  {
    && x.s.st[FS].Runnable? && x.fs == FsLoop
    && var s := Write(x.s, FS, MSG, ZERO);
       var r := Receive(s, FS, ANY, MSG);
       r.Done? && y == x.(s := r.s, fs := FsHave, places := match Chosen(x.s, FS, ANY)
         case None => x.places
         case Some(q) => if IsUser(q) then x.places[q := AtFs] else Delivered(x))
  }

  /** The reader whose resumption the terminal task is sending has been handed to the file system. */
  ghost function Delivered(x: World): seq<Place>
    requires WorldShape(x)
  {
    var p := Load(x.s.mem[TTY], RES).u.i3;
    if 0 <= p < N then x.places[p := Telling] else x.places
  }

  ghost predicate FsDispatchesStep(x: World, y: World)
    requires WorldShape(x)
  {
    && x.s.st[FS].Runnable? && x.fs == FsHave
    && var m := M(x.s, FS);
       var s := Write(x.s, FS, MSG, Dispatched(m));
       if m.mtype == READ || m.mtype == WRITE then 0 <= m.source < N && y == x.(s := s, fs := FsAsk(m.source, m.u.i2))
       else if m.mtype == OPEN then
         0 <= m.source < N && y == x.(s := Write(x.s, FS, DRV, Opening(x, m.u.i1)), fs := FsOpen(m.source))
       else if m.mtype == RESUME_PROC then 0 <= m.u.i3 < N && y == x.(s := s, fs := FsTell(m.u.i3))
       else
         m.mtype == CLOSE && 0 <= m.source < N
         && y == x.(s := s, fs := FsTell(m.source), places := x.places[m.source := Telling])
  }

  /** A request for a terminal is passed on with its number and its reader; anything else is answered. */
  function Dispatched(m: Message): Message {
    if m.mtype == READ then m.(mtype := DEV_READ, u := m.u.(i3 := m.source, i4 := m.u.i1))
    else if m.mtype == WRITE then m.(mtype := DEV_WRITE, u := m.u.(i3 := m.source, i4 := m.u.i1))
    else if m.mtype == RESUME_PROC then m.(mtype := SYSCALL_RET)
    else m.(mtype := SYSCALL_RET, u := m.u.(i1 := 0))
  }

  /** What is in the driver's message besides its type and device is whatever was there. */
  ghost function Opening(x: World, t: int): Message
    requires WorldShape(x)
  {
    var m := Load(x.s.mem[FS], DRV);
    m.(mtype := DEV_OPEN, u := m.u.(i4 := t))
  }

  ghost predicate FsAsksStep(x: World, y: World)
    requires WorldShape(x)
  {
    && x.s.st[FS].Runnable? && x.fs.FsAsk?
    && var r := Send(x.s, FS, TTY, MSG);
       r.Done? && y == x.(s := r.s, fs := FsHear(x.fs.c, x.fs.n))
  }

  ghost predicate FsHearsStep(x: World, y: World)
    requires WorldShape(x)
  {
    && x.s.st[FS].Runnable? && x.fs.FsHear?
    && var r := Receive(x.s, FS, TTY, MSG);
       r.Done? && y == x.(s := r.s, fs := FsBack(x.fs.c, x.fs.n))
  }

  /** Back in the main loop: a suspension is not passed on, anything else is. */
  ghost predicate FsFinishesStep(x: World, y: World)
    requires WorldShape(x)
  {
    && x.s.st[FS].Runnable? && x.fs.FsBack?
    && var m := M(x.s, FS);
       && m.u.i2 == x.fs.n
       && if m.mtype == SUSPEND_PROC then y == x.(fs := FsLoop)
          else y == x.(s := Write(x.s, FS, MSG, m.(mtype := SYSCALL_RET)), fs := FsTell(x.fs.c),
                           places := x.places[x.fs.c := Telling])
  }

  /** Opening a terminal: the terminal task is told, with a message of its own, and its answer waited for. */
  ghost predicate FsOpensStep(x: World, y: World)
    requires WorldShape(x)
  {
    && x.s.st[FS].Runnable? && x.fs.FsOpen?
    && var r := Send(x.s, FS, TTY, DRV);
       r.Done? && y == x.(s := r.s, fs := FsOpenHear(x.fs.c))
  }

  ghost predicate FsOpenHearsStep(x: World, y: World)
    requires WorldShape(x)
  {
    && x.s.st[FS].Runnable? && x.fs.FsOpenHear?
    && var r := Receive(x.s, FS, TTY, DRV);
       r.Done? && y == x.(s := r.s, fs := FsOpenBack(x.fs.c))
  }

  ghost predicate FsOpenFinishesStep(x: World, y: World)
    requires WorldShape(x)
  {
    && x.s.st[FS].Runnable? && x.fs.FsOpenBack?
    && y == x.(s := Write(x.s, FS, MSG, M(x.s, FS).(mtype := SYSCALL_RET)), fs := FsTell(x.fs.c),
               places := x.places[x.fs.c := Telling])
  }

  ghost predicate FsTellsStep(x: World, y: World)
    requires WorldShape(x)
  {
    && x.s.st[FS].Runnable? && x.fs.FsTell? && x.fs.to != FS
    && var r := Send(x.s, FS, x.fs.to, MSG);
       r.Done? && y == x.(s := r.s, fs := FsLoop,
                          places := if Awaits(x.s, x.fs.to, FS) then x.places[x.fs.to := Home] else x.places)
  }

  /** A key of the keyboard goes into the ring, or is lost when that is full. */
  ghost predicate TtyPutsStep(x: World, t: nat, key: int, y: World)
    requires WorldShape(x)
  {
    && x.s.st[TTY].Runnable? && x.tty == TtyLoop && t < NR_CONSOLES
    && y == if |x.typed[t]| - x.gone[t] < Tty.TTY_IN_BYTES then x.(typed := x.typed[t := x.typed[t] + [key]]) else x
  }

  /** The reader's buffer after a key, if it holds the given line before. */
  function Entered(b: Buffer, line: seq<int>, key: int): Buffer {
    if Tty.Printable(Tty.Ch(key)) then b[|line| := Tty.Ch(key)] else b
  }

  /** The keys of the read that is open on terminal t, with the oldest of its ring. */
  ghost function KeysWithNext(x: World, t: nat): seq<int>
    requires WorldShape(x) && t < NR_CONSOLES && x.pend[t].Some? && x.gone[t] < |x.typed[t]|
  {
    x.pend[t].value.taken + [x.typed[t][x.gone[t]]]
  }

  /** A key leaves the ring: lost when no read is open, else edited into the line it does not complete. */
  ghost predicate TtyTakesStep(x: World, t: nat, y: World)
    requires WorldShape(x)
  {
    && x.s.st[TTY].Runnable? && x.tty == TtyLoop && t < NR_CONSOLES && x.gone[t] < |x.typed[t]|
    && var gone, key := x.gone[t := x.gone[t] + 1], x.typed[t][x.gone[t]];
       match x.pend[t]
       case None => y == x.(gone := gone)
       case Some(r) =>
         && !Tty.Ends(r.cnt, KeysWithNext(x, t))
         && y == x.(gone := gone, pend := x.pend[t := Some(r.(taken := KeysWithNext(x, t)))],
                    bufs := x.bufs[r.proc := Entered(x.bufs[r.proc], Tty.Line(r.taken), key)])
  }

  /** The next key of the ring completes the open read. */
  ghost predicate Completes(x: World, t: nat)
    requires WorldShape(x)
  {
    && x.s.st[TTY].Runnable? && x.tty == TtyLoop && t < NR_CONSOLES && x.gone[t] < |x.typed[t]| && x.pend[t].Some?
    && Tty.Ends(x.pend[t].value.cnt, KeysWithNext(x, t)) && x.pend[t].value.caller != TTY
  }

  ghost function Resumption(x: World, r: Pending, keys: seq<int>): Message
    requires WorldShape(x)
  {
    var m := Load(x.s.mem[TTY], RES);
    m.(mtype := RESUME_PROC, u := m.u.(i2 := |Tty.Line(keys)|, i3 := r.proc))
  }

  /** The reader is to be resumed with the length of its line. */
  ghost function ResumeReader(x: World, t: nat): Effect
    requires WorldShape(x) && Completes(x, t)
  {
    var r := x.pend[t].value;
    Send(Write(x.s, TTY, RES, Resumption(x, r, KeysWithNext(x, t))), TTY, r.caller, RES)
  }

  ghost predicate TtyCompletesStep(x: World, t: nat, y: World)
    requires WorldShape(x)
  {
    && Completes(x, t)
    && var r, keys, key := x.pend[t].value, KeysWithNext(x, t), x.typed[t][x.gone[t]];
       var e := ResumeReader(x, t);
       e.Done?
       && y == x.(s := e.s, pend := x.pend[t := None], gone := x.gone[t := x.gone[t] + 1],
                  bufs := x.bufs[r.proc := Entered(x.bufs[r.proc], Tty.Line(r.taken), key)],
                  due := x.due[r.proc := Typed(r.cnt, t, x.gone[t] - |r.taken|, keys)],
                  places := x.places[r.proc := if Awaits(x.s, r.caller, TTY) then Telling else FromTty])
  }

  ghost predicate TtyReceivesStep(x: World, y: World)
    requires WorldShape(x)
  {
    && x.s.st[TTY].Runnable? && x.tty == TtyLoop
    && var r := Receive(Write(x.s, TTY, MSG, ZERO), TTY, ANY, MSG);
       r.Done? && y == x.(s := r.s, tty := TtyHave)
  }

  /** A read overwrites one that is open on the same terminal; a read of nothing opens none. */
  ghost predicate TtyDispatchesStep(x: World, y: World)
    requires WorldShape(x)
  {
    && x.s.st[TTY].Runnable? && x.tty == TtyHave
    && var m := M(x.s, TTY);
       if m.mtype == DEV_READ then
         && 0 <= m.source < N && 0 <= m.u.i3 < N && 0 <= m.u.i4 < NR_CONSOLES && m.u.i2 >= 0
         && var t := m.u.i4;
            var p: Pid := m.u.i3;
            y == x.(s := Write(x.s, TTY, MSG, m.(mtype := SUSPEND_PROC)), tty := TtyAnswer(m.source),
                    pend := x.pend[t := if m.u.i2 == 0 then None else Some(Pending(m.source, p, m.u.i2, []))],
                    places := Dropped(x, t)[p := if m.u.i2 == 0 then Lost else AtTty(t)])
       else if m.mtype == DEV_WRITE then
         0 <= m.source < N && y == x.(s := Write(x.s, TTY, MSG, m.(mtype := SYSCALL_RET)), tty := TtyAnswer(m.source))
       else if m.mtype == DEV_OPEN then
         && 0 <= m.source < N
         && y == x.(s := Write(x.s, TTY, MSG, ZERO.(mtype := SYSCALL_RET)), tty := TtyAnswer(m.source))
       else m.mtype == HARD_INT && y == x.(tty := TtyLoop)
  }

  ghost function Dropped(x: World, t: int): seq<Place>
    requires WorldShape(x) && 0 <= t < NR_CONSOLES
  {
    if x.pend[t].Some? then x.places[x.pend[t].value.proc := Lost] else x.places
  }

  ghost predicate TtyAnswersStep(x: World, y: World)
    requires WorldShape(x)
  {
    && x.s.st[TTY].Runnable? && x.tty.TtyAnswer? && x.tty.to != TTY
    && var r := Send(x.s, TTY, x.tty.to, MSG);
       r.Done? && y == x.(s := r.s, tty := TtyLoop)
  }

  ghost predicate KeyInterruptStep(x: World, y: World)
    requires WorldShape(x)
  {
    y == x.(s := Interrupt(x.s, TTY))
  }

  ghost predicate Next(x: World, a: Act, y: World)
    requires WorldShape(x)
  {
    match a
    case Call(u, m) => CallStep(x, u, m, y)
    case Hear(u) => HearStep(x, u, y)
    case Finish(u, b) => FinishStep(x, u, b, y)
    case FsReceives => FsReceivesStep(x, y)
    case FsDispatches => FsDispatchesStep(x, y)
    case FsAsks => FsAsksStep(x, y)
    case FsHears => FsHearsStep(x, y)
    case FsFinishes => FsFinishesStep(x, y)
    case FsOpens => FsOpensStep(x, y)
    case FsOpenHears => FsOpenHearsStep(x, y)
    case FsOpenFinishes => FsOpenFinishesStep(x, y)
    case FsTells => FsTellsStep(x, y)
    case TtyPuts(t, key) => TtyPutsStep(x, t, key, y)
    case TtyTakes(t) => TtyTakesStep(x, t, y)
    case TtyCompletes(t) => TtyCompletesStep(x, t, y)
    case TtyReceives => TtyReceivesStep(x, y)
    case TtyDispatches => TtyDispatchesStep(x, y)
    case TtyAnswers => TtyAnswersStep(x, y)
    case KeyInterrupt => KeyInterruptStep(x, y)
  }

  ghost predicate Start(x: World) {
    && WorldShape(x) && Inv(x.s) && x.fs == FsLoop && x.tty == TtyLoop
    && (forall p: Pid ::
      (p == FS || p == TTY ==> x.s.st[p].Runnable?)
      && (x.s.st[p].Runnable? ==> p == FS || p == TTY || IsUser(p)))
    && (forall p: Pid :: (x.s.st[p].Runnable? || x.s.st[p].Unused?) && !x.s.intr[p])
    && (forall p: Pid :: x.users[p] == UHome && x.places[p] == Home && !x.due[p].Typed?)
    && forall t :: 0 <= t < NR_CONSOLES ==> x.pend[t] == None && x.typed[t] == [] && x.gone[t] == 0
  }

  // ----- The invariant -----

  /** m answers user d, who waits for it, with the right count. */
  ghost predicate Tells(x: World, d: int, m: Message)
    requires WorldShape(x)
  {
    IsUser(d) && Owes(x.due[d], m.u.i2) && x.places[d] == Telling
  }

  /** m is what the terminal task says to a request of the file system for user c and n bytes. */
  ghost predicate Answers(x: World, m: Message, c: Pid, n: int)
    requires WorldShape(x)
  {
    && m.u.i2 == n && (m.mtype == SUSPEND_PROC || m.mtype == SYSCALL_RET)
    && (m.mtype == SYSCALL_RET ==> x.places[c] == AtFs && x.due[c].Answer? && x.due[c].n == n)
    && (m.mtype == SUSPEND_PROC ==> x.places[c] != AtFs)
  }

  ghost predicate Asks(x: World, m: Message, c: Pid, n: int)
    requires WorldShape(x)
  {
    && (m.mtype == DEV_READ || m.mtype == DEV_WRITE) && m.u.i2 == n >= 0 && m.u.i3 == c && 0 <= m.u.i4 < NR_CONSOLES
    && x.places[c] == AtFs
    && x.due[c] == if m.mtype == DEV_READ then Reading(n, m.u.i4) else Answer(WRITE, n, m.u.i4)
  }

  /** The terminal task has the request, or the answer to it, that the file system is waiting for. */
  ghost predicate Holds(x: World, c: Pid, n: int)
    requires WorldShape(x)
  {
    var m := M(x.s, TTY);
    || (x.tty == TtyHave && x.s.st[TTY].Runnable? && m.source == FS && Asks(x, m, c, n))
    || (x.tty == TtyAnswer(FS) && x.s.st[TTY].Runnable? && Answers(x, m, c, n))
    || (x.tty == TtyLoop && x.s.st[TTY] == Sending(FS, MSG) && m.source == TTY && Answers(x, m, c, n))
  }

  ghost predicate FsWaits(x: World)
    requires WorldShape(x)
  {
    || ((x.fs.FsHear? || x.fs.FsOpenHear?) && x.s.st[FS].Runnable?)
    || (x.fs.FsBack? && x.s.st[FS] == Receiving(TTY, MSG))
    || (x.fs.FsOpenBack? && x.s.st[FS] == Receiving(TTY, DRV))
  }

  /** While user c's terminal is being opened, its request stays where it is and will be answered with its own count. */
  ghost predicate Opens(x: World, c: Pid)
    requires WorldShape(x)
  {
    IsUser(c) && x.places[c] == AtFs && x.due[c] == Answer(OPEN, M(x.s, FS).u.i2, M(x.s, FS).u.i1)
  }

  /** m tells the terminal task that the terminal of user c's call is being opened. */
  ghost predicate TellsOpening(x: World, m: Message, c: Pid)
    requires WorldShape(x)
  {
    m.mtype == DEV_OPEN && x.due[c].Answer? && m.u.i4 == x.due[c].at
  }

  /** The terminal task has the message about the opening, or the answer to it. */
  ghost predicate HoldsOpening(x: World, c: Pid)
    requires WorldShape(x)
  {
    var m := M(x.s, TTY);
    || (x.tty == TtyHave && x.s.st[TTY].Runnable? && m.source == FS && TellsOpening(x, m, c))
    || (x.tty == TtyAnswer(FS) && x.s.st[TTY].Runnable?)
    || (x.tty == TtyLoop && x.s.st[TTY] == Sending(FS, MSG))
  }

  ghost predicate FsFine(x: World)
    requires WorldShape(x)
  {
    var st, m := x.s.st[FS], M(x.s, FS);
    match x.fs
    case FsLoop => st.Runnable?
      || (st.Sending? && st.buf == MSG && m.source == FS && m.mtype == SYSCALL_RET && Tells(x, st.dest, m))
    case FsHave => st == Receiving(ANY, MSG)
      || (st.Runnable? && IsRequest(m) && IsUser(m.source) && x.places[m.source] == AtFs
        && x.due[m.source] == DueFor(m))
      || (st.Runnable? && m.mtype == RESUME_PROC && m.source == TTY && Tells(x, m.u.i3, m))
    case FsAsk(c, n) => IsUser(c) && st.Runnable? && Asks(x, m, c, n)
    case FsHear(c, n) => IsUser(c) &&
      ((st == Sending(TTY, MSG) && m.source == FS && Asks(x, m, c, n)) || (st.Runnable? && Holds(x, c, n)))
    case FsBack(c, n) => IsUser(c) &&
      ((st == Receiving(TTY, MSG) && Holds(x, c, n)) || (st.Runnable? && m.source == TTY && Answers(x, m, c, n)))
    case FsOpen(c) => Opens(x, c) && st.Runnable? && TellsOpening(x, Load(x.s.mem[FS], DRV), c)
    case FsOpenHear(c) => Opens(x, c) &&
      var o := Load(x.s.mem[FS], DRV);
      (st == Sending(TTY, DRV) && o.source == FS && TellsOpening(x, o, c)) || (st.Runnable? && HoldsOpening(x, c))
    case FsOpenBack(c) => Opens(x, c) && ((st == Receiving(TTY, DRV) && HoldsOpening(x, c)) || st.Runnable?)
    case FsTell(d) => st.Runnable? && m.mtype == SYSCALL_RET && Tells(x, d, m)
  }

  /** The resumption of user p is in the terminal task's buffer. */
  ghost predicate Resuming(x: World, p: int)
    requires WorldShape(x)
  {
    var r := Load(x.s.mem[TTY], RES);
    x.s.st[TTY] == Sending(FS, RES) && r.source == TTY && r.mtype == RESUME_PROC && r.u.i3 == p
  }

  ghost predicate TtyFine(x: World)
    requires WorldShape(x)
  {
    var st, m, r := x.s.st[TTY], M(x.s, TTY), Load(x.s.mem[TTY], RES);
    match x.tty
    case TtyLoop => st.Runnable? || (st == Sending(FS, MSG) && FsWaits(x))
      || (IsUser(r.u.i3) && Resuming(x, r.u.i3) && x.places[r.u.i3] == FromTty && Owes(x.due[r.u.i3], r.u.i2))
    case TtyHave => st == Receiving(ANY, MSG)
      || (st.Runnable? && ((m.mtype == HARD_INT && m.source == INTERRUPT) || (m.source == FS && FsWaits(x))))
    case TtyAnswer(to) => st.Runnable? && to == FS && FsWaits(x)
  }

  ghost predicate IsOwed(p: Place) { !p.Home? && !p.Asking? }

  ghost predicate UserFine(x: World, u: Pid)
    requires WorldShape(x)
  {
    var st, m, p := x.s.st[u], M(x.s, u), x.places[u];
    match x.users[u]
    case UHome => (st.Runnable? || st.Unused?) && p == Home
    case UHear =>
      || (st == Sending(FS, MSG) && p == Asking && m.source == u && IsRequest(m) && x.due[u] == DueFor(m))
      || (st.Runnable? && IsOwed(p))
    case UGot =>
      || (st == Receiving(FS, MSG) && IsOwed(p))
      || (st.Runnable? && p == Home && m.source == FS && m.mtype == SYSCALL_RET && Owes(x.due[u], m.u.i2))
  }

  /** The file system is handling a request of user u that it will answer itself. */
  ghost predicate Handles(x: World, u: Pid)
    requires WorldShape(x)
  {
    match x.fs
    case FsHave => x.s.st[FS].Runnable? && M(x.s, FS).source == u
    case FsAsk(c, _) => c == u
    case FsHear(c, _) => c == u
    case FsBack(c, _) => c == u
    case FsOpen(c) => c == u
    case FsOpenHear(c) => c == u
    case FsOpenBack(c) => c == u
    case _ => false
  }

  /** The file system has the answer for user u. */
  ghost predicate IsTelling(x: World, u: Pid)
    requires WorldShape(x)
  {
    match x.fs
    case FsLoop => x.s.st[FS] == Sending(u, MSG)
    case FsHave => x.s.st[FS].Runnable? && M(x.s, FS).mtype == RESUME_PROC && M(x.s, FS).u.i3 == u
    case FsTell(d) => d == u
    case _ => false
  }

  /** The place of every call is where somebody indeed has it. */
  ghost predicate Accounted(x: World, u: Pid)
    requires WorldShape(x)
  {
    match x.places[u]
    case AtFs => Handles(x, u)
    case AtTty(t) => 0 <= t < NR_CONSOLES && x.pend[t].Some? && x.pend[t].value.proc == u
    case FromTty => Resuming(x, u)
    case Telling => IsTelling(x, u)
    case _ => true
  }

  ghost predicate ReadFine(x: World, t: nat)
    requires WorldShape(x) && t < NR_CONSOLES
  {
    x.pend[t].Some? ==> var r := x.pend[t].value;
      r.caller == FS && IsUser(r.proc) && r.cnt > 0 && x.places[r.proc] == AtTty(t)
        && x.due[r.proc] == Reading(r.cnt, t)
  }

  /** Only the two tasks and the users take part. */
  ghost predicate ProcFine(x: World, p: Pid)
    requires WorldShape(x)
  {
    if IsUser(p) then UserFine(x, p) && Accounted(x, p) else p == FS || p == TTY || x.s.st[p].Unused?
  }

  ghost predicate WorldOk(x: World) {
    && WorldShape(x) && Inv(x.s) && FsFine(x) && TtyFine(x)
    && (forall p: Pid :: ProcFine(x, p))
    && (forall t: nat :: t < NR_CONSOLES ==> ReadFine(x, t))
    && forall p: Pid :: p != TTY ==> !x.s.intr[p]
  }
}
