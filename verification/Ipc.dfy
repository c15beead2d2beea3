/**
 Rendezvous message passing between the processes of a fixed table, as the kernel's users see it:
 who is blocked on whom, in which order, and what is in each process's message buffers.

 This is the specification that the pointer-linked process table of module Kernel refines. One event
 is one system call, one interrupt, or one running process changing its own memory.
 */
module Ipc {
  import opened Wrappers

  const NR_TASKS: nat := 5
  /** The tasks and 32 other processes. */
  const N: nat := 37
  const ANY: int := 47
  const NO_TASK: int := 57
  const INTERRUPT: int := -10
  const HARD_INT: int := 1

  type Pid = p: int | 0 <= p < N
  type Addr = a: int | a > 0 witness 1

  /** The largest member of the message union; the two smaller ones overlay it. */
  datatype Payload = Payload(i1: int, i2: int, i3: int, i4: int, l1: int, l2: int, p1: int, p2: int)
  datatype Message = Message(source: int, mtype: int, u: Payload)
  const ZERO: Message := Message(0, 0, Payload(0, 0, 0, 0, 0, 0, 0, 0))
  const HARDWARE: Message := Message(INTERRUPT, HARD_INT, ZERO.u)

  /** The messages in one process's address space. */
  type Memory = map<int, Message>

  function Load(m: Memory, a: Addr): Message { if a in m then m[a] else ZERO }

  datatype Status =
    | Unused
    | Runnable
    | Sending(dest: Pid, buf: Addr)
    | Receiving(from: int, buf: Addr)

  /** For each process: what it is doing, who is queued on it, whether an interrupt waits for it, its memory. */
  datatype State = State(st: seq<Status>, queue: seq<seq<Pid>>, intr: seq<bool>, mem: seq<Memory>)

  ghost predicate Shape(s: State) {
    |s.st| == N && |s.queue| == N && |s.intr| == N && |s.mem| == N
  }

  /** A message together with its true sender and the process in whose memory it lies. */
  datatype Letter = Letter(from: Pid, to: Pid, msg: Message)

  datatype Effect = Deadlock | AssertionFailed | Done(s: State, got: Option<Letter>)

  // ----- The wait-for graph -----

  /** n SENDING edges lead from p to q. */
  ghost predicate Path(s: State, p: Pid, q: Pid, n: nat)
    requires Shape(s)
    decreases n
  {
    if n == 0 then p == q else s.st[p].Sending? && Path(s, s.st[p].dest, q, n - 1)
  }

  ghost predicate Reaches(s: State, p: Pid, q: Pid)
    requires Shape(s)
  {
    exists n: nat :: Path(s, p, q, n)
  }

  ghost predicate Acyclic(s: State)
    requires Shape(s)
  {
    forall p: Pid, n: nat :: Path(s, p, p, n) ==> n == 0
  }

  /** Following SENDING edges from p stops after exactly n of them. */
  ghost predicate EndsIn(s: State, p: Pid, n: nat)
    requires Shape(s)
    decreases n
  {
    if s.st[p].Sending? then n > 0 && EndsIn(s, s.st[p].dest, n - 1) else n == 0
  }

  ghost predicate Ends(s: State, p: Pid)
    requires Shape(s)
  {
    exists n: nat :: EndsIn(s, p, n)
  }

  ghost predicate ChainsEnd(s: State)
    requires Shape(s)
  {
    forall p: Pid :: Ends(s, p)
  }

  // ----- The three kernel entries -----

  predicate Awaits(s: State, d: Pid, p: Pid)
    requires Shape(s)
  {
    s.st[d].Receiving? && (s.st[d].from == p || s.st[d].from == ANY)
  }

  predicate AwaitsInterrupt(s: State, t: Pid)
    requires Shape(s)
  {
    s.st[t].Receiving? && (s.st[t].from == INTERRUPT || s.st[t].from == ANY)
  }

  predicate IsSource(src: int) { 0 <= src < N || src == ANY || src == INTERRUPT }

  function Write(s: State, p: Pid, a: Addr, m: Message): State
    requires Shape(s)
  {
    s.(mem := s.mem[p := s.mem[p][a := m]])
  }

  function Stamp(s: State, p: Pid, a: Addr): State
    requires Shape(s)
  {
    Write(s, p, a, Load(s.mem[p], a).(source := p))
  }

  function Become(s: State, p: Pid, status: Status): State
    requires Shape(s)
  {
    s.(st := s.st[p := status])
  }

  /** The message at `a` in `from` is copied to `b` in `to`; `woken` runs on. */
  function HandOver(s: State, from: Pid, a: Addr, to: Pid, b: Addr, woken: Pid): Effect
    requires Shape(s)
  {
    var t := Write(s, to, b, Load(s.mem[from], a));
    Done(Become(t, woken, Runnable), Some(Letter(from, to, Load(t.mem[to], b))))
  }

  /** SEND once the message is stamped. */
  ghost function Post(t: State, p: Pid, dest: Pid, a: Addr): Effect
    requires Shape(t)
  {
    if Reaches(t, dest, p) then Deadlock
    else if Awaits(t, dest, p) then HandOver(t, p, a, dest, t.st[dest].buf, dest)
    else Done(Become(t, p, Sending(dest, a)).(queue := t.queue[dest := t.queue[dest] + [p]]), None)
  }

  ghost function Send(s: State, p: Pid, dest: Pid, a: Addr): Effect
    requires Shape(s)
  {
    Post(Stamp(s, p, a), p, dest, a)
  }

  function Without(q: seq<Pid>, p: Pid): seq<Pid> {
    if q == [] then [] else if q[0] == p then Without(q[1..], p) else [q[0]] + Without(q[1..], p)
  }

  /** The process whose message a receive from `src` would take. */
  function Chosen(s: State, p: Pid, src: int): Option<Pid>
    requires Shape(s)
  {
    if src == ANY then
      if s.queue[p] == [] then None else Some(s.queue[p][0])
    else if 0 <= src < N && s.st[src].Sending? && s.st[src].dest == p then Some(src)
    else None
  }

  /** RECEIVE once the buffer is stamped. */
  function Take(t: State, p: Pid, src: int, a: Addr): Effect
    requires Shape(t)
  {
    if t.intr[p] && (src == ANY || src == INTERRUPT) then
      Done(Write(t, p, a, HARDWARE).(intr := t.intr[p := false]), None)
    else match Chosen(t, p, src)
      case Some(q) =>
        if t.st[q].Sending? then
          HandOver(t.(queue := t.queue[p := Without(t.queue[p], q)]), q, t.st[q].buf, p, a, q)
        else AssertionFailed
      case None =>
        if t.intr[p] then AssertionFailed else Done(Become(t, p, Receiving(src, a)), None)
  }

  function Receive(s: State, p: Pid, src: int, a: Addr): Effect
    requires Shape(s)
  {
    Take(Stamp(s, p, a), p, src, a)
  }

  function Interrupt(s: State, t: Pid): State
    requires Shape(s)
  {
    if AwaitsInterrupt(s, t) then
      var b := s.st[t].buf;
      Become(Write(s, t, b, Load(s.mem[t], b).(source := INTERRUPT, mtype := HARD_INT)), t, Runnable)
        .(intr := s.intr[t := false])
    else s.(intr := s.intr[t := true])
  }

  // ----- Runs -----

  datatype Event =
    | Compute(p: Pid, a: Addr, m: Message)
    | SendCall(p: Pid, dest: Pid, a: Addr)
    | ReceiveCall(p: Pid, src: int, a: Addr)
    | InterruptOf(t: Pid)

  /** A state with its history: every letter a process has posted, every letter that has reached a buffer. */
  datatype Sys = Sys(s: State, sent: seq<Letter>, delivered: seq<Letter>)

  predicate Enabled(s: State, e: Event)
    requires Shape(s)
  {
    match e
    case Compute(p, _, _) => s.st[p].Runnable?
    case SendCall(p, dest, _) => s.st[p].Runnable? && p != dest
    case ReceiveCall(p, src, _) => s.st[p].Runnable? && p != src && IsSource(src)
    case InterruptOf(t) => true
  }

  ghost function Do(s: State, e: Event): Effect
    requires Shape(s)
  {
    match e
    case Compute(p, a, m) => Done(Write(s, p, a, m), None)
    case SendCall(p, dest, a) => Send(s, p, dest, a)
    case ReceiveCall(p, src, a) => Receive(s, p, src, a)
    case InterruptOf(t) => Done(Interrupt(s, t), None)
  }

  function Posted(s: State, e: Event): seq<Letter>
    requires Shape(s)
  {
    match e
    case SendCall(p, dest, a) => [Letter(p, dest, Load(s.mem[p], a).(source := p))]
    case _ => []
  }

  function Arrived(got: Option<Letter>): seq<Letter> {
    match got case None => [] case Some(l) => [l]
  }

  /** A step that ends neither in the deadlock panic nor in a failed assertion. */
  ghost predicate Step(x: Sys, e: Event, y: Sys)
    requires Shape(x.s)
  {
    Enabled(x.s, e) &&
    var r := Do(x.s, e);
    r.Done? && y == Sys(r.s, x.sent + Posted(x.s, e), x.delivered + Arrived(r.got))
  }

  ghost predicate Init(x: Sys) {
    && Shape(x.s) && x.sent == [] && x.delivered == []
    && forall p: Pid :: x.s.queue[p] == [] && !x.s.intr[p] && (x.s.st[p].Runnable? || x.s.st[p].Unused?)
  }

  ghost predicate IsRun(xs: seq<Sys>, es: seq<Event>) {
    && |xs| == |es| + 1 && Init(xs[0])
    && forall i :: 0 <= i < |es| ==> Shape(xs[i].s) && Step(xs[i], es[i], xs[i + 1])
  }

  // ----- The invariant -----

  ghost predicate NoDuplicates(q: seq<Pid>) {
    forall i, j :: 0 <= i < j < |q| ==> q[i] != q[j]
  }

  /** Each queue holds, once each, exactly the processes blocked sending to its owner. */
  ghost predicate QueuesExact(s: State)
    requires Shape(s)
  {
    forall d: Pid :: NoDuplicates(s.queue[d]) &&
      forall p: Pid :: p in s.queue[d] <==> s.st[p].Sending? && s.st[p].dest == d
  }

  /** Nobody waits for a message, or an interrupt, that is already there. */
  ghost predicate NothingMissed(s: State)
    requires Shape(s)
  {
    && (forall d: Pid, p: Pid :: p in s.queue[d] ==> !Awaits(s, d, p))
    && (forall t: Pid :: s.intr[t] ==> !AwaitsInterrupt(s, t))
  }

  ghost predicate SourcesKnown(s: State)
    requires Shape(s)
  {
    forall p: Pid :: s.st[p].Receiving? ==> IsSource(s.st[p].from) && s.st[p].from != p
  }

  ghost predicate Inv(s: State) {
    Shape(s) && QueuesExact(s) && NothingMissed(s) && ChainsEnd(s) && SourcesKnown(s)
  }

  /** The letters of one sender, in order. */
  function From(log: seq<Letter>, p: Pid): seq<Letter> {
    if log == [] then [] else
      var l := log[|log| - 1];
      From(log[..|log| - 1], p) + if l.from == p then [l] else []
  }

  /** The letter a blocked sender is holding. */
  function InFlight(s: State, p: Pid): seq<Letter>
    requires Shape(s)
  {
    if s.st[p].Sending? then [Letter(p, s.st[p].dest, Load(s.mem[p], s.st[p].buf))] else []
  }

  /** Per sender, what was posted is what arrived followed by what is in flight. */
  ghost predicate Conserved(x: Sys)
    requires Shape(x.s)
  {
    forall p: Pid :: From(x.sent, p) == From(x.delivered, p) + InFlight(x.s, p)
  }

  /** When p last posted: an index into the log, or -1. */
  function LastPost(log: seq<Letter>, p: Pid): int {
    if log == [] then -1
    else if log[|log| - 1].from == p then |log| - 1
    else LastPost(log[..|log| - 1], p)
  }

  ghost predicate InOrder(log: seq<Letter>, q: seq<Pid>) {
    forall i, j :: 0 <= i < j < |q| ==> LastPost(log, q[i]) < LastPost(log, q[j])
  }

  ghost predicate QueuesInOrder(x: Sys)
    requires Shape(x.s)
  {
    forall d: Pid :: InOrder(x.sent, x.s.queue[d])
  }

  ghost predicate SysInv(x: Sys) {
    Inv(x.s) && Conserved(x) && QueuesInOrder(x)
  }
}
