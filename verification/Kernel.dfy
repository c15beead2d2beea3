/**
 The process table with its intrusive sending queues, and the kernel routines that work on it in place.
 Each routine refines one operation of module Ipc and is one step of the scheduler of module Sched.
 The assertions of the original routines stand where they stand there, and are proved.
 */
module Kernel {
  import opened Wrappers
  import opened Ipc
  import Proofs = IpcProofs
  import Sched

  datatype Flag = SENDING | RECEIVING | FREE_SLOT

  const SEND: int := 1
  const RECEIVE: int := 2
  const NR_NATIVE_PROCS: nat := 3
  const MAX_TICKS: int := 0x7FFFABCD

  /** The process that spins for ever and never calls the kernel. */
  const IDLE: Pid := 7
  const TASK_TTY: Pid := 0

  datatype Proc = Proc(
    ticks: int, priority: int, flags: set<Flag>, msg: Option<Addr>, recvfrom: int, sendto: int,
    hasInt: bool, qSending: Option<Pid>, nextSending: Option<Pid>)

  datatype Outcome = Ok | DeadlockPanic | FunctionPanic | AssertFailed

  // ----- What one entry, and the links between entries, must look like -----

  predicate FieldsAgree(p: Proc) {
    || (p.flags == {} && p.msg == None && p.recvfrom == NO_TASK && p.sendto == NO_TASK)
    || (p.flags == {SENDING} && p.msg.Some? && p.recvfrom == NO_TASK && 0 <= p.sendto < N)
    || (p.flags == {RECEIVING} && p.msg.Some? && IsSource(p.recvfrom) && p.sendto == NO_TASK)
    || p.flags == {FREE_SLOT}
  }

  function StatusOf(p: Proc): Status {
    if p.flags == {} then Runnable
    else if p.flags == {SENDING} && p.msg.Some? && 0 <= p.sendto < N then Sending(p.sendto, p.msg.value)
    else if p.flags == {RECEIVING} && p.msg.Some? then Receiving(p.recvfrom, p.msg.value)
    else Unused
  }

  function ViewOf(tab: seq<Proc>, queues: seq<seq<Pid>>, mem: seq<Memory>): State {
    State(seq(|tab|, i requires 0 <= i < |tab| => StatusOf(tab[i])), queues,
          seq(|tab|, i requires 0 <= i < |tab| => tab[i].hasInt), mem)
  }

  function SlotOf(p: Proc): Sched.Slot { Sched.Slot(p.flags == {}, p.ticks, p.priority) }

  function SlotsOf(tab: seq<Proc>): seq<Sched.Slot> {
    seq(|tab|, i requires 0 <= i < |tab| => SlotOf(tab[i]))
  }

  /** What follows position i of a list. */
  function After(q: seq<Pid>, i: nat): Option<Pid> { if i + 1 < |q| then Some(q[i + 1]) else None }

  /** From `head`, the nextSending links run through exactly q and then stop. */
  ghost predicate Chain(tab: seq<Proc>, head: Option<Pid>, q: seq<Pid>)
    requires |tab| == N
  {
    && head == (if q == [] then None else Some(q[0]))
    && forall i :: 0 <= i < |q| ==> tab[q[i]].nextSending == After(q, i)
  }

  ghost predicate Linked(tab: seq<Proc>, queues: seq<seq<Pid>>) {
    |tab| == N && |queues| == N && forall d: Pid :: Chain(tab, tab[d].qSending, queues[d])
  }

  ghost predicate FieldsFine(tab: seq<Proc>) {
    && |tab| == N && tab[IDLE].flags == {} && tab[IDLE].priority > 0
    && forall i: Pid :: FieldsAgree(tab[i]) && tab[i].ticks >= 0 && tab[i].priority >= 0
  }

  /** Everything but the choice of the running process, which is open while a caller is being blocked. */
  ghost predicate Consistent(tab: seq<Proc>, queues: seq<seq<Pid>>, mem: seq<Memory>) {
    && FieldsFine(tab) && Linked(tab, queues) && |mem| == N
    && Inv(ViewOf(tab, queues, mem))
  }

  /** The links and messages of two tables are the same; only the scheduling fields may differ. */
  ghost predicate SameButTicks(a: seq<Proc>, b: seq<Proc>) {
    |a| == |b| && forall i :: 0 <= i < |a| ==> b[i] == a[i].(ticks := b[i].ticks)
  }

  lemma SameButTicksKeeps(a: seq<Proc>, b: seq<Proc>, queues: seq<seq<Pid>>, mem: seq<Memory>)
    requires SameButTicks(a, b)
    ensures ViewOf(b, queues, mem) == ViewOf(a, queues, mem)
    ensures Linked(a, queues) ==> Linked(b, queues)
  {
    assert ViewOf(b, queues, mem).st == ViewOf(a, queues, mem).st;
    assert ViewOf(b, queues, mem).intr == ViewOf(a, queues, mem).intr;
  }

  /** Entries that are not in a list can change without disturbing it. */
  lemma ChainUntouched(a: seq<Proc>, b: seq<Proc>, head: Option<Pid>, q: seq<Pid>)
    requires |a| == |b| == N && Chain(a, head, q)
    requires forall x: Pid :: x in q ==> b[x].nextSending == a[x].nextSending
    ensures Chain(b, head, q)
  {
    forall i | 0 <= i < |q| ensures b[q[i]].nextSending == a[q[i]].nextSending {
      assert q[i] in q;
    }
  }

  lemma ChainAppend(a: seq<Proc>, b: seq<Proc>, head: Option<Pid>, q: seq<Pid>, p: Pid)
    requires |a| == |b| == N && Chain(a, head, q) && NoDuplicates(q) && p !in q
    requires b[p].nextSending == None
    requires forall x: Pid :: x != p && (q == [] || x != q[|q| - 1]) ==> b[x].nextSending == a[x].nextSending
    requires q != [] ==> b[q[|q| - 1]].nextSending == Some(p)
    ensures Chain(b, if q == [] then Some(p) else head, q + [p])
  {
    forall i | 0 <= i < |q|
      ensures b[q[i]].nextSending == After(q + [p], i)
    {
      assert q[i] in q;
    }
  }

  lemma ChainRemove(a: seq<Proc>, b: seq<Proc>, head: Option<Pid>, q: seq<Pid>, k: nat)
    requires |a| == |b| == N && Chain(a, head, q) && NoDuplicates(q) && k < |q|
    requires forall x: Pid :: x != q[k] && (k == 0 || x != q[k - 1]) ==> b[x].nextSending == a[x].nextSending
    requires k > 0 ==> b[q[k - 1]].nextSending == a[q[k]].nextSending
    ensures Chain(b, if k == 0 then a[q[k]].nextSending else head, q[..k] + q[k + 1..])
  {
    var r := q[..k] + q[k + 1..];
    forall i | 0 <= i < |r|
      ensures b[r[i]].nextSending == After(r, i)
    {
      var j := if i < k then i else i + 1;
      assert r[i] == q[j] && q[j] != q[k];
      assert i + 1 < |r| ==> r[i + 1] == if i + 1 < k then q[i + 1] else q[i + 2];
      assert a[q[j]].nextSending == After(q, j);
      if i + 1 == k {
        assert a[q[k]].nextSending == After(q, k);
      } else if k > 0 {
        assert q[j] != q[k - 1];
      }
    }
  }

  /** Linking p behind the last entry of dest's list appends it to dest's queue and leaves every other list alone. */
  lemma LinkedAppend(a: seq<Proc>, b: seq<Proc>, queues: seq<seq<Pid>>, dest: Pid, p: Pid)
    requires Linked(a, queues) && |b| == N
    requires forall e: Pid :: p !in queues[e]
    requires forall e: Pid, x: Pid :: x in queues[dest] && x in queues[e] ==> e == dest
    requires b[p].nextSending == None
    requires NoDuplicates(queues[dest])
    requires var q := queues[dest];
      && (forall x: Pid :: x != p && (q == [] || x != q[|q| - 1]) ==> b[x].nextSending == a[x].nextSending)
      && (q != [] ==> b[q[|q| - 1]].nextSending == Some(p))
      && (forall x: Pid :: b[x].qSending == if x == dest && q == [] then Some(p) else a[x].qSending)
    ensures Linked(b, queues[dest := queues[dest] + [p]])
  {
    var q := queues[dest];
    assert q != [] ==> q[|q| - 1] in q;
    hide NoDuplicates;
    ChainAppend(a, b, a[dest].qSending, q, p);
    assert Chain(b, b[dest].qSending, q + [p]) by { assert Chain(a, a[dest].qSending, q); }
    forall e: Pid | e != dest ensures Chain(b, b[e].qSending, queues[e]) {
      ChainUntouched(a, b, a[e].qSending, queues[e]);
    }
  }

  /** Unlinking the k-th entry of d's list removes it from d's queue and leaves every other list alone. */
  lemma LinkedRemove(a: seq<Proc>, b: seq<Proc>, queues: seq<seq<Pid>>, d: Pid, k: nat)
    requires Linked(a, queues) && |b| == N && k < |queues[d]|
    requires forall e: Pid, x: Pid :: x in queues[d] && x in queues[e] ==> e == d
    requires NoDuplicates(queues[d])
    requires var q := queues[d];
      && (forall x: Pid :: x != q[k] && (k == 0 || x != q[k - 1]) ==> b[x].nextSending == a[x].nextSending)
      && (k > 0 ==> b[q[k - 1]].nextSending == a[q[k]].nextSending)
      && (forall x: Pid :: b[x].qSending == if x == d && k == 0 then a[q[k]].nextSending else a[x].qSending)
    ensures Linked(b, queues[d := queues[d][..k] + queues[d][k + 1..]])
  {
    var q := queues[d];
    assert q[k] in q && (k > 0 ==> q[k - 1] in q);
    ChainRemove(a, b, a[d].qSending, q, k);
    forall e: Pid | e != d ensures Chain(b, b[e].qSending, queues[e]) {
      ChainUntouched(a, b, a[e].qSending, queues[e]);
    }
  }

  /** One more step along a chain of SENDING processes. */
  lemma ReachesUnfold(s: State, p: Pid, q: Pid)
    requires Shape(s)
    ensures Reaches(s, p, q) <==> p == q || (s.st[p].Sending? && Reaches(s, s.st[p].dest, q))
  {
    if Reaches(s, p, q) {
      var n: nat :| Path(s, p, q, n);
      if n > 0 { assert Path(s, s.st[p].dest, q, n - 1); }
    }
    if p == q { assert Path(s, p, q, 0); }
    if s.st[p].Sending? && Reaches(s, s.st[p].dest, q) {
      var n: nat :| Path(s, s.st[p].dest, q, n);
      assert Path(s, p, q, n + 1);
    }
  }

  lemma SendingEntry(tab: seq<Proc>, queues: seq<seq<Pid>>, mem: seq<Memory>, p: Pid)
    requires FieldsFine(tab)
    ensures SENDING in tab[p].flags <==> ViewOf(tab, queues, mem).st[p].Sending?
    ensures SENDING in tab[p].flags ==>
      tab[p].msg.Some? && 0 <= tab[p].sendto < N
        && ViewOf(tab, queues, mem).st[p] == Sending(tab[p].sendto, tab[p].msg.value)
  {
  }

  lemma AwaitingEntry(tab: seq<Proc>, queues: seq<seq<Pid>>, mem: seq<Memory>, d: Pid, p: Pid)
    requires FieldsFine(tab) && |queues| == |mem| == N
    ensures RECEIVING in tab[d].flags && (tab[d].recvfrom == p || tab[d].recvfrom == ANY)
      <==> Awaits(ViewOf(tab, queues, mem), d, p)
  {
  }

  lemma QueueEntry(tab: seq<Proc>, queues: seq<seq<Pid>>, mem: seq<Memory>, p: Pid, dest: Pid)
    requires Consistent(tab, queues, mem) && tab[p].flags == {}
    ensures |queues| == N && p !in queues[dest] && Chain(tab, tab[dest].qSending, queues[dest])
    ensures tab[p].recvfrom == NO_TASK
  {
    assert FieldsAgree(tab[p]) && ViewOf(tab, queues, mem).st[p] == Runnable;
  }

  // ----- What the in-place updates do to the view -----

  lemma ViewUpdate(tab: seq<Proc>, p: Pid, x: Proc, queues: seq<seq<Pid>>, mem: seq<Memory>)
    requires |tab| == N
    ensures var v := ViewOf(tab, queues, mem);
      ViewOf(tab[p := x], queues, mem) == v.(st := v.st[p := StatusOf(x)], intr := v.intr[p := x.hasInt])
  {
    var v, w := ViewOf(tab, queues, mem), ViewOf(tab[p := x], queues, mem);
    assert w.st == v.st[p := StatusOf(x)];
    assert w.intr == v.intr[p := x.hasInt];
  }

  /** Entry p changed, its links not. */
  lemma EntryStep(tab: seq<Proc>, p: Pid, x: Proc, queues: seq<seq<Pid>>)
    requires FieldsFine(tab) && Linked(tab, queues) && FieldsAgree(x)
    requires x.qSending == tab[p].qSending && x.nextSending == tab[p].nextSending
    requires x.ticks >= 0 && x.priority == tab[p].priority && (p == IDLE ==> x.flags == {})
    ensures FieldsFine(tab[p := x]) && Linked(tab[p := x], queues)
  {
    forall d: Pid ensures Chain(tab[p := x], tab[p := x][d].qSending, queues[d]) {
      ChainUntouched(tab, tab[p := x], tab[d].qSending, queues[d]);
    }
  }

  /** A message handed to a waiting process, and the process set running. */
  lemma DeliverStep(tab: seq<Proc>, queues: seq<seq<Pid>>, mem: seq<Memory>, p: Pid, dest: Pid, m: Addr)
    requires Consistent(tab, queues, mem) && tab[p].flags == {} && p != dest
    requires var v := ViewOf(tab, queues, mem); !Reaches(v, dest, p) && Awaits(v, dest, p)
    ensures tab[dest].msg.Some? && tab[dest].flags == {RECEIVING} && tab[dest].sendto == NO_TASK
    ensures var t := tab[dest := tab[dest].(msg := None, flags := {}, recvfrom := NO_TASK)];
      var n := mem[dest := mem[dest][tab[dest].msg.value := Load(mem[p], m)]];
      var e := Post(ViewOf(tab, queues, mem), p, dest, m);
      e.Done? && e.s == ViewOf(t, queues, n) && Consistent(t, queues, n)
  {
    var v := ViewOf(tab, queues, mem);
    assert tab[dest].flags == {RECEIVING};
    var x := tab[dest].(msg := None, flags := {}, recvfrom := NO_TASK);
    var n := mem[dest := mem[dest][tab[dest].msg.value := Load(mem[p], m)]];
    ViewUpdate(tab, dest, x, queues, n);
    assert v.intr[dest := x.hasInt] == v.intr;
    Proofs.PostKeepsInv(v, p, dest, m);
    EntryStep(tab, dest, x, queues);
  }

  /** Waking processes without blocking the running one is a scheduler step. */
  lemma WakingStep(tab: seq<Proc>, t: seq<Proc>, p: Pid)
    requires |tab| == |t| == N && t[p].flags == {}
    requires forall i: Pid :: t[i].ticks == tab[i].ticks && t[i].priority == tab[i].priority
    ensures Sched.Step(Sched.Cpu(SlotsOf(tab), p), Sched.Call, Sched.Cpu(SlotsOf(t), p))
  {
    assert SlotsOf(t) == Sched.WithRunnable(SlotsOf(tab), SlotsOf(t));
  }

  lemma RescheduledStep(t: seq<Proc>, u: seq<Proc>, queues: seq<seq<Pid>>, mem: seq<Memory>, r: Pid)
    requires Consistent(t, queues, mem) && SameButTicks(t, u)
    requires Sched.ScheduledTo(SlotsOf(t), Sched.Cpu(SlotsOf(u), r))
    ensures Consistent(u, queues, mem) && ViewOf(u, queues, mem) == ViewOf(t, queues, mem) && u[r].flags == {}
  {
    forall i: Pid ensures u[i].ticks >= 0 {
      assert SlotsOf(u)[i].ticks == u[i].ticks && SlotsOf(t)[i] == SlotOf(t[i]);
    }
    TicksTable(t, u, queues, mem);
    assert SlotsOf(u)[r].runnable;
  }

  function Charged(tab: seq<Proc>, p: Pid): seq<Proc>
    requires |tab| == N
  {
    if tab[p].ticks == 0 then tab else tab[p := tab[p].(ticks := tab[p].ticks - 1)]
  }

  lemma ChargedStep(tab: seq<Proc>, queues: seq<seq<Pid>>, mem: seq<Memory>, p: Pid)
    requires Consistent(tab, queues, mem)
    ensures var t := Charged(tab, p);
      && Consistent(t, queues, mem) && ViewOf(t, queues, mem) == ViewOf(tab, queues, mem) && t[p].flags == tab[p].flags
  {
    hide Inv, Linked, ViewOf, FieldsAgree;
    TicksTable(tab, Charged(tab, p), queues, mem);
  }

  lemma ChargedSlots(tab: seq<Proc>, p: Pid)
    requires |tab| == N
    ensures SlotsOf(Charged(tab, p)) == Sched.Charge(Sched.Cpu(SlotsOf(tab), p))
  {
  }

  lemma TicksTable(tab: seq<Proc>, t: seq<Proc>, queues: seq<seq<Pid>>, mem: seq<Memory>)
    requires Consistent(tab, queues, mem) && SameButTicks(tab, t) && forall i: Pid :: t[i].ticks >= 0
    ensures Consistent(t, queues, mem) && ViewOf(t, queues, mem) == ViewOf(tab, queues, mem)
  {
    SameButTicksKeeps(tab, t, queues, mem);
    SameButTicksFine(tab, t);
  }

  lemma SameButTicksFine(tab: seq<Proc>, t: seq<Proc>)
    requires FieldsFine(tab) && SameButTicks(tab, t) && forall i: Pid :: t[i].ticks >= 0
    ensures FieldsFine(t)
  {
    forall i: Pid ensures FieldsAgree(t[i]) { assert FieldsAgree(tab[i]); }
  }

  /** A clock interrupt: c is the state before, `charged` the table after charging, t after waking, d at the end. */
  lemma TickStep(c: Sched.Cpu, charged: seq<Proc>, t: seq<Proc>, d: Sched.Cpu, nested: bool)
    requires |charged| == |t| == |c.slots| && 0 <= c.ready < |t| && SlotsOf(charged) == Sched.Charge(c)
    requires forall i :: 0 <= i < |t| ==> t[i].ticks == charged[i].ticks && t[i].priority == charged[i].priority
    requires if nested || t[c.ready].ticks > 0 then d == Sched.Cpu(SlotsOf(t), c.ready)
             else Sched.ScheduledTo(SlotsOf(t), d)
    ensures Sched.Step(c, Sched.Tick(nested), d)
  {
    forall i | 0 <= i < |t| ensures SlotsOf(t)[i] == SlotsOf(charged)[i].(runnable := d.slots[i].runnable) {}
    assert SlotsOf(t) == Sched.WithRunnable(SlotsOf(charged), d.slots);
  }

  /** Blocking the running process and then scheduling is a scheduler step, and ends in a consistent table. */
  lemma BlockingStep(tab: seq<Proc>, t: seq<Proc>, u: seq<Proc>,
                     queues: seq<seq<Pid>>, mem: seq<Memory>, p: Pid, r: Pid)
    requires |tab| == N && Consistent(t, queues, mem) && SameButTicks(t, u) && t[p].flags != {}
    requires forall i: Pid :: t[i].ticks == tab[i].ticks && t[i].priority == tab[i].priority
    requires Sched.ScheduledTo(SlotsOf(t), Sched.Cpu(SlotsOf(u), r))
    ensures Consistent(u, queues, mem) && ViewOf(u, queues, mem) == ViewOf(t, queues, mem) && u[r].flags == {}
    ensures Sched.Step(Sched.Cpu(SlotsOf(tab), p), Sched.Call, Sched.Cpu(SlotsOf(u), r))
  {
    hide Inv, Linked, FieldsAgree;
    RescheduledStep(t, u, queues, mem, r);
    assert SlotsOf(t) == Sched.WithRunnable(SlotsOf(tab), SlotsOf(u));
  }

  /** From tab to t, the running process p has been marked as sending and linked at the tail of dest's list q. */
  ghost predicate IsQueued(tab: seq<Proc>, t: seq<Proc>, q: seq<Pid>, dest: Pid, p: Pid, m: Addr) {
    && |tab| == |t| == N
    && forall x: Pid :: t[x] ==
         if x == p then tab[x].(flags := {SENDING}, sendto := dest, msg := Some(m), nextSending := None)
         else if q == [] && x == dest then tab[x].(qSending := Some(p))
         else if q != [] && x == q[|q| - 1] then tab[x].(nextSending := Some(p))
         else tab[x]
  }

  lemma QueuedView(tab: seq<Proc>, t: seq<Proc>, queues: seq<seq<Pid>>, mem: seq<Memory>, p: Pid, dest: Pid, m: Addr)
    requires |queues| == |mem| == N && IsQueued(tab, t, queues[dest], dest, p, m)
    ensures var news := queues[dest := queues[dest] + [p]];
      ViewOf(t, news, mem) == Become(ViewOf(tab, queues, mem), p, Sending(dest, m)).(queue := news)
  {
    var v, w := ViewOf(tab, queues, mem), ViewOf(t, queues, mem);
    assert w.st == v.st[p := Sending(dest, m)];
    assert w.intr == v.intr;
  }

  lemma QueuedLinks(tab: seq<Proc>, t: seq<Proc>, queues: seq<seq<Pid>>, s: State, p: Pid, dest: Pid, m: Addr)
    requires Linked(tab, queues) && Inv(s) && s.queue == queues && s.st[p].Runnable? && p != dest
    requires IsQueued(tab, t, queues[dest], dest, p, m)
    ensures Linked(t, queues[dest := queues[dest] + [p]])
  {
    var q := queues[dest];
    assert q != [] ==> q[|q| - 1] in q;
    LinkedAppend(tab, t, queues, dest, p);
  }

  lemma QueuedFields(tab: seq<Proc>, t: seq<Proc>, q: seq<Pid>, dest: Pid, p: Pid, m: Addr)
    requires FieldsFine(tab) && tab[p].flags == {} && p != IDLE && IsQueued(tab, t, q, dest, p, m)
    ensures FieldsFine(t)
  {
  }

  lemma QueuedStep(tab: seq<Proc>, t: seq<Proc>, queues: seq<seq<Pid>>, mem: seq<Memory>, p: Pid, dest: Pid, m: Addr)
    requires Consistent(tab, queues, mem) && tab[p].flags == {} && p != dest && p != IDLE
    requires var v := ViewOf(tab, queues, mem); !Reaches(v, dest, p) && !Awaits(v, dest, p)
    requires IsQueued(tab, t, queues[dest], dest, p, m)
    ensures var e := Post(ViewOf(tab, queues, mem), p, dest, m);
      var news := queues[dest := queues[dest] + [p]];
      e.Done? && e.s == ViewOf(t, news, mem) && Consistent(t, news, mem)
  {
    var v := ViewOf(tab, queues, mem);
    QueuedFields(tab, t, queues[dest], dest, p, m);
    QueuedLinks(tab, t, queues, v, p, dest, m);
    QueuedView(tab, t, queues, mem, p, dest, m);
    Proofs.PostKeepsInv(v, p, dest, m);
  }

  /** From tab to t, the k-th sender of p's list q has been unlinked and set running. */
  ghost predicate IsUnlinked(tab: seq<Proc>, t: seq<Proc>, q: seq<Pid>, p: Pid, k: nat) {
    && |tab| == |t| == N && k < |q|
    && forall x: Pid :: t[x] ==
         if x == q[k] then tab[x].(nextSending := None, msg := None, sendto := NO_TASK, flags := {})
         else if k == 0 && x == p then tab[x].(qSending := tab[q[k]].nextSending)
         else if k > 0 && x == q[k - 1] then tab[x].(nextSending := tab[q[k]].nextSending)
         else tab[x]
  }

  lemma UnlinkedView(tab: seq<Proc>, t: seq<Proc>, queues: seq<seq<Pid>>, mem: seq<Memory>, p: Pid, k: nat)
    requires |queues| == |mem| == N && IsUnlinked(tab, t, queues[p], p, k)
    ensures ViewOf(t, queues, mem) == Become(ViewOf(tab, queues, mem), queues[p][k], Runnable)
  {
    var v, w := ViewOf(tab, queues, mem), ViewOf(t, queues, mem);
    assert w.st == v.st[queues[p][k] := Runnable];
    assert w.intr == v.intr;
  }

  lemma UnlinkedLinks(tab: seq<Proc>, t: seq<Proc>, queues: seq<seq<Pid>>, s: State, p: Pid, k: nat)
    requires Linked(tab, queues) && Inv(s) && s.queue == queues && s.st[p].Runnable?
    requires IsUnlinked(tab, t, queues[p], p, k)
    ensures Linked(t, queues[p := queues[p][..k] + queues[p][k + 1..]])
  {
    var q := queues[p];
    assert q[k] in q && (k > 0 ==> q[k - 1] in q);
    LinkedRemove(tab, t, queues, p, k);
  }

  lemma UnlinkedFields(tab: seq<Proc>, t: seq<Proc>, q: seq<Pid>, p: Pid, k: nat)
    requires FieldsFine(tab) && IsUnlinked(tab, t, q, p, k) && tab[q[k]].flags == {SENDING}
    ensures FieldsFine(t)
  {
  }

  lemma UnlinkedWakes(tab: seq<Proc>, t: seq<Proc>, q: seq<Pid>, p: Pid, k: nat)
    requires IsUnlinked(tab, t, q, p, k) && tab[p].flags == {}
    ensures t[p].flags == {} && Sched.Step(Sched.Cpu(SlotsOf(tab), p), Sched.Call, Sched.Cpu(SlotsOf(t), p))
  {
    WakingStep(tab, t, p);
  }

  lemma UnlinkedStep(tab: seq<Proc>, t: seq<Proc>,
                     queues: seq<seq<Pid>>, mem: seq<Memory>, p: Pid, src: int, k: nat, m: Addr)
    requires Consistent(tab, queues, mem) && tab[p].flags == {} && k < |queues[p]| && IsSource(src) && src != p
    requires src == ANY ==> k == 0 && !tab[p].hasInt
    requires src != ANY ==> src == queues[p][k]
    requires IsUnlinked(tab, t, queues[p], p, k)
    requires tab[queues[p][k]].msg.Some?
    ensures var f := queues[p][k];
      var n := mem[p := mem[p][m := Load(mem[f], tab[f].msg.value)]];
      var news := queues[p := queues[p][..k] + queues[p][k + 1..]];
      var e := Take(ViewOf(tab, queues, mem), p, src, m);
      e.Done? && e.s == ViewOf(t, news, n) && Consistent(t, news, n)
  {
    hide FieldsAgree, Linked, IsUnlinked;
    var v := ViewOf(tab, queues, mem);
    assert queues[p][k] in queues[p];
    Proofs.WithoutAt(queues[p], k);
    UnlinkedFields(tab, t, queues[p], p, k);
    UnlinkedLinks(tab, t, queues, v, p, k);
    UnlinkedView(tab, t, queues, mem, p, k);
    Proofs.TakeKeepsInv(v, p, src, m);
  }

  lemma TakeInterruptStep(tab: seq<Proc>, queues: seq<seq<Pid>>, mem: seq<Memory>, p: Pid, src: int, m: Addr)
    requires Consistent(tab, queues, mem) && tab[p].flags == {} && tab[p].hasInt && (src == ANY || src == INTERRUPT)
    ensures var t := tab[p := tab[p].(hasInt := false)];
      var n := mem[p := mem[p][m := HARDWARE]];
      var e := Take(ViewOf(tab, queues, mem), p, src, m);
      e.Done? && e.s == ViewOf(t, queues, n) && Consistent(t, queues, n)
  {
    var v := ViewOf(tab, queues, mem);
    var x := tab[p].(hasInt := false);
    ViewUpdate(tab, p, x, queues, mem[p := mem[p][m := HARDWARE]]);
    assert v.st[p := StatusOf(x)] == v.st;
    EntryStep(tab, p, x, queues);
    Proofs.TakeKeepsInv(v, p, src, m);
  }

  /**
   Waiting is consistent even where the original's last assertion fails, as long as the caller asks for one process.
   */
  lemma ReceivingStep(tab: seq<Proc>, queues: seq<seq<Pid>>, mem: seq<Memory>, p: Pid, src: int, m: Addr)
    requires Consistent(tab, queues, mem) && tab[p].flags == {} && p != IDLE && p != src && IsSource(src)
    requires Chosen(ViewOf(tab, queues, mem), p, src) == None
    requires tab[p].hasInt ==> src != ANY && src != INTERRUPT
    ensures var t := tab[p := tab[p].(flags := {RECEIVING}, msg := Some(m), recvfrom := src)];
      var e := Take(ViewOf(tab, queues, mem), p, src, m);
      && FieldsFine(t)
      && (tab[p].hasInt ==> e.AssertionFailed?)
      && (!tab[p].hasInt ==> e.Done? && e.s == ViewOf(t, queues, mem) && Consistent(t, queues, mem))
  {
    var v := ViewOf(tab, queues, mem);
    var x := tab[p].(flags := {RECEIVING}, msg := Some(m), recvfrom := src);
    ViewUpdate(tab, p, x, queues, mem);
    assert v.intr[p := x.hasInt] == v.intr;
    EntryStep(tab, p, x, queues);
    if !tab[p].hasInt {
      Proofs.TakeKeepsInv(v, p, src, m);
    }
  }

  /** How the table shows whose message a receive takes. */
  lemma ChosenEntry(tab: seq<Proc>, queues: seq<seq<Pid>>, mem: seq<Memory>, p: Pid, src: int)
    requires Consistent(tab, queues, mem)
    ensures |queues| == N && Chain(tab, tab[p].qSending, queues[p])
    ensures tab[p].qSending == if queues[p] == [] then None else Some(queues[p][0])
    ensures var c := Chosen(ViewOf(tab, queues, mem), p, src);
      if src == ANY then c == tab[p].qSending
      else if 0 <= src < N && SENDING in tab[src].flags && tab[src].sendto == p then c == Some(src) && src in queues[p]
      else c == None
  {
    hide NothingMissed, ChainsEnd, SourcesKnown;
    assert Chain(tab, tab[p].qSending, queues[p]);
    if src != ANY && 0 <= src < N { SendingEntry(tab, queues, mem, src); }
  }

  lemma UnlinkableEntry(s: State, tab: seq<Proc>, queues: seq<seq<Pid>>, mem: seq<Memory>, p: Pid, k: nat)
    requires Consistent(tab, queues, mem) && s == ViewOf(tab, queues, mem) && k < |queues[p]| && tab[p].flags == {}
    ensures var f := queues[p][k]; f != p && tab[f].flags == {SENDING} && tab[f].msg.Some? && tab[f].sendto == p
    ensures |queues| == N && tab[p].qSending == Some(queues[p][0]) && NoDuplicates(queues[p])
    ensures tab[p].msg == None && tab[p].recvfrom == NO_TASK && tab[p].sendto == NO_TASK
    ensures tab[queues[p][k]].recvfrom == NO_TASK
  {
    assert FieldsAgree(tab[p]) && FieldsAgree(tab[queues[p][k]]);
    assert queues[p][k] in queues[p];
    assert Chain(tab, tab[p].qSending, queues[p]);
  }

  lemma InterruptStep(tab: seq<Proc>, queues: seq<seq<Pid>>, mem: seq<Memory>, t: Pid)
    requires Consistent(tab, queues, mem)
    ensures var v := ViewOf(tab, queues, mem);
      if RECEIVING in tab[t].flags && (tab[t].recvfrom == INTERRUPT || tab[t].recvfrom == ANY) then
        && tab[t].msg.Some? && tab[t].flags == {RECEIVING} && tab[t].sendto == NO_TASK
        && var b := tab[t].msg.value;
           var u := tab[t := tab[t].(msg := None, hasInt := false, flags := {}, recvfrom := NO_TASK)];
           var n := mem[t := mem[t][b := Load(mem[t], b).(source := INTERRUPT, mtype := HARD_INT)]];
           ViewOf(u, queues, n) == Interrupt(v, t) && Consistent(u, queues, n)
      else
        var u := tab[t := tab[t].(hasInt := true)];
        ViewOf(u, queues, mem) == Interrupt(v, t) && Consistent(u, queues, mem)
  {
    var v := ViewOf(tab, queues, mem);
    Proofs.InterruptKeepsInv(v, t);
    if RECEIVING in tab[t].flags && (tab[t].recvfrom == INTERRUPT || tab[t].recvfrom == ANY) {
      assert tab[t].flags == {RECEIVING};
      var b := tab[t].msg.value;
      var x := tab[t].(msg := None, hasInt := false, flags := {}, recvfrom := NO_TASK);
      EntryStep(tab, t, x, queues);
      ViewUpdate(tab, t, x, queues, mem[t := mem[t][b := Load(mem[t], b).(source := INTERRUPT, mtype := HARD_INT)]]);
    } else {
      var x := tab[t].(hasInt := true);
      EntryStep(tab, t, x, queues);
      ViewUpdate(tab, t, x, queues, mem);
      assert v.st[t := StatusOf(x)] == v.st;
    }
  }

  function InitialProc(i: nat): Proc {
    if i < NR_TASKS + NR_NATIVE_PROCS then
      var prio := if i < NR_TASKS then 100 else 50;
      Proc(prio, prio, {}, None, NO_TASK, NO_TASK, false, None, None)
    else Proc(0, 0, {FREE_SLOT}, None, 0, 0, false, None, None)
  }

  lemma InitialConsistent(tab: seq<Proc>, queues: seq<seq<Pid>>, mem: seq<Memory>)
    requires |tab| == |queues| == |mem| == N
    requires forall i :: 0 <= i < N ==> tab[i] == InitialProc(i) && queues[i] == []
    ensures Consistent(tab, queues, mem) && Init(Sys(ViewOf(tab, queues, mem), [], []))
    ensures Sched.Sane(Sched.Cpu(SlotsOf(tab), 0))
  {
    var s := ViewOf(tab, queues, mem);
    forall p: Pid ensures Ends(s, p) { assert EndsIn(s, p, 0); }
  }

  /** At the start every task is ahead of every other process that runs, in ticks and in priority. */
  lemma TasksStartAhead(t: Pid, u: Pid)
    requires t < NR_TASKS <= u < NR_TASKS + NR_NATIVE_PROCS
    ensures var a, b := SlotOf(InitialProc(t)), SlotOf(InitialProc(u));
      a.runnable && b.runnable && a.ticks == a.priority > b.priority == b.ticks > 0
  {
  }

  /** With the priorities of the start, whenever fresh allowances are given a task is chosen if one can run. */
  lemma TasksAreChosen(t: seq<Sched.Slot>, c: Sched.Cpu, task: Pid)
    requires |t| == N && Sched.ScheduledTo(t, c) && !Sched.SomeReady(t) && task < NR_TASKS && t[task].runnable
    requires forall i: Pid :: t[i].priority == InitialProc(i).priority
    ensures 0 <= c.ready < NR_TASKS
  {
    Sched.RefillsByPriority(t, c);
    assert t[c.ready].priority >= t[task].priority;
    if NR_TASKS <= c.ready < NR_TASKS + NR_NATIVE_PROCS { TasksStartAhead(task, c.ready); }
  }

  // ----- The table itself -----

  class ProcTable {
    const table: array<Proc>
    const mem: array<Memory>
    var ready: Pid
    var ticks: int
    /** For each process, the list its qSending pointer heads. */
    ghost var queues: seq<seq<Pid>>

    ghost predicate Valid()
      reads this, table, mem
    {
      table.Length == N && mem.Length == N && Consistent(table[..], queues, mem[..])
      && table[ready].flags == {}
    }

    ghost function View(): State
      reads this, table, mem
    {
      ViewOf(table[..], queues, mem[..])
    }

    ghost function Cpu(): Sched.Cpu
      reads this, table
    {
      Sched.Cpu(SlotsOf(table[..]), ready)
    }

    /** The table as it is when the first process is started. */
    constructor ()
      ensures Valid() && Init(Sys(View(), [], [])) && ready == 0 && ticks == 0
      ensures Sched.Sane(Cpu()) && Cpu().slots[ready].ticks > 0
    {
      table := new Proc[N](InitialProc);
      mem := new Memory[N](i => map[]);
      ready, ticks := 0, 0;
      queues := seq(N, i => []);
      new;
      InitialConsistent(table[..], queues, mem[..]);
    }

    /** Scan for the runnable process with most ticks; if nobody has any, refill and scan once more. */
    method Schedule() returns (ghost scans: nat)
      requires table.Length == N
      requires Sched.SomeReady(SlotsOf(table[..])) || Sched.SomePriority(SlotsOf(table[..]))
      modifies this`ready, table
      ensures SameButTicks(old(table[..]), table[..])
      ensures Sched.ScheduledTo(SlotsOf(old(table[..])), Cpu())
      ensures scans <= 2
    {
      ghost var was := table[..];
      ghost var slots := SlotsOf(was);
      Sched.OneRefillDecides(slots);
      var greatest := 0;
      scans := 0;
      while greatest == 0
        invariant greatest >= 0 && scans <= 2 && SameButTicks(was, table[..])
        invariant greatest == 0 && scans == 0 ==> table[..] == was
        invariant scans > 0 && greatest == 0 ==>
          scans == 1 && !Sched.SomeReady(slots) && SlotsOf(table[..]) == Sched.Refill(slots)
        invariant greatest > 0 ==> Sched.ScheduledTo(slots, Cpu())
        decreases if greatest == 0 then 2 - scans else -1
      {
        greatest := Scan();
        scans := scans + 1;
        if greatest == 0 {
          RefillRunnable();
        }
      }
    }

    method Scan() returns (greatest: int)
      requires table.Length == N
      modifies this`ready
      ensures greatest >= 0 && (greatest > 0 <==> Sched.SomeReady(SlotsOf(table[..])))
      ensures greatest > 0 ==> Sched.IsBest(SlotsOf(table[..]), ready)
    {
      ghost var t := SlotsOf(table[..]);
      greatest := 0;
      for p := 0 to N
        invariant greatest >= 0
        invariant greatest == 0 ==> forall i :: 0 <= i < p && t[i].runnable ==> t[i].ticks <= 0
        invariant greatest > 0 ==> Sched.IsBest(t[..p], ready) && t[ready].ticks == greatest
      {
        assert t[p] == SlotOf(table[p]) && t[..p + 1] == t[..p] + [t[p]];
        if table[p].flags == {} {
          if table[p].ticks > greatest {
            greatest := table[p].ticks;
            ready := p;
          }
        }
      }
      assert t[..N] == t;
    }

    method RefillRunnable()
      requires table.Length == N
      modifies table
      ensures SameButTicks(old(table[..]), table[..])
      ensures SlotsOf(table[..]) == Sched.Refill(SlotsOf(old(table[..])))
    {
      ghost var was := table[..];
      ghost var t := SlotsOf(was);
      for p := 0 to N
        invariant SameButTicks(was, table[..])
        invariant forall i :: 0 <= i < p ==> SlotOf(table[i]) == Sched.Refill(t)[i]
        invariant forall i :: p <= i < N ==> table[i] == was[i]
      {
        if table[p].flags == {} {
          table[p] := table[p].(ticks := table[p].priority);
        }
      }
      assert SlotsOf(table[..]) == Sched.Refill(t);
    }

    /** Does a chain of SENDING processes lead from dest back to src? */
    method Deadlock(src: Pid, dest: Pid) returns (r: bool)
      requires table.Length == mem.Length == |queues| == N && FieldsFine(table[..]) && ChainsEnd(View()) && src != dest
      ensures r <==> Reaches(View(), dest, src)
    {
      ghost var v := View();
      assert Ends(v, dest);
      ghost var k: nat :| EndsIn(v, dest, k);
      var p: Pid := dest;
      while SENDING in table[p].flags
        invariant EndsIn(v, p, k) && p != src
        invariant Reaches(v, dest, src) <==> Reaches(v, p, src)
        decreases k
      {
        SendingEntry(table[..], queues, mem[..], p);
        ReachesUnfold(v, p, src);
        ReachesUnfold(v, table[p].sendto, src);
        if table[p].sendto == src {
          Report(src, dest);
          return true;
        }
        p, k := table[p].sendto, k - 1;
      }
      SendingEntry(table[..], queues, mem[..], p);
      ReachesUnfold(v, p, src);
      return false;
    }

    /** Walk the cycle once more, to print it. */
    method Report(src: Pid, dest: Pid)
      requires table.Length == mem.Length == |queues| == N && FieldsFine(table[..]) && ChainsEnd(View())
      requires src != dest && Reaches(View(), dest, src)
    {
      ghost var v := View();
      assert Ends(v, dest);
      ghost var k: nat :| EndsIn(v, dest, k);
      ReachesUnfold(v, dest, src);
      SendingEntry(table[..], queues, mem[..], dest);
      assert table[dest].msg.Some?;
      var p: Pid := table[dest].sendto;
      k := k - 1;
      while p != src
        invariant Reaches(v, p, src) && EndsIn(v, p, k)
        decreases k
      {
        ReachesUnfold(v, p, src);
        SendingEntry(table[..], queues, mem[..], p);
        assert table[p].msg.Some?;
        p, k := table[p].sendto, k - 1;
      }
    }

    method Block(p: Pid)
      requires table.Length == N && FieldsFine(table[..]) && table[p].flags != {}
      modifies this`ready, table
      ensures SameButTicks(old(table[..]), table[..])
      ensures Sched.ScheduledTo(SlotsOf(old(table[..])), Cpu())
    {
      assert SlotsOf(table[..])[IDLE].runnable;
      var _ := Schedule();
    }

    /** Hand the message to a waiting receiver, or queue up for it and give up the processor. */
    method MsgSend(current: Pid, dest: Pid, m: Addr) returns (r: Outcome)
      requires Valid() && current == ready && current != dest && current != IDLE
      modifies this`ready, this`queues, table, mem
      ensures Valid()
      ensures match Post(old(View()), current, dest, m)
        case Done(s, _) => r == Ok && View() == s && Sched.Step(old(Cpu()), Sched.Call, Cpu())
        case _ => r == DeadlockPanic && View() == old(View())
    {
      hide Linked, FieldsAgree;
      var cycle := Deadlock(current, dest);
      if cycle {
        return DeadlockPanic;
      }
      AwaitingEntry(table[..], queues, mem[..], dest, current);
      if RECEIVING in table[dest].flags && (table[dest].recvfrom == current || table[dest].recvfrom == ANY) {
        DeliverStep(table[..], queues, mem[..], current, dest, m);
        HandTo(current, dest, m);
        WakingStep(old(table[..]), table[..], current);
      } else {
        QueueUp(current, dest, m);
      }
      return Ok;
    }

    /** dest is waiting for current: copy the message over and wake dest. */
    method HandTo(current: Pid, dest: Pid, m: Addr)
      requires table.Length == mem.Length == N && table[current].flags == {} && FieldsAgree(table[current])
      requires table[dest].flags == {RECEIVING} && table[dest].msg.Some? && FieldsAgree(table[dest])
      modifies table, mem
      ensures var tab, n := old(table[..]), old(mem[..]);
        && table[..] == tab[dest := tab[dest].(msg := None, flags := {}, recvfrom := NO_TASK)]
        && mem[..] == n[dest := n[dest][tab[dest].msg.value := Load(n[current], m)]]
    {
      ghost var tab, n := table[..], mem[..];
      assert table[dest].msg.Some?;
      mem[dest] := mem[dest][table[dest].msg.value := Load(mem[current], m)];
      table[dest] := table[dest].(msg := None);
      table[dest] := table[dest].(flags := table[dest].flags - {RECEIVING});
      assert table[dest].flags == {};
      table[dest] := table[dest].(recvfrom := NO_TASK);
      assert table[..] == tab[dest := tab[dest].(msg := None, flags := {}, recvfrom := NO_TASK)];
      assert table[dest].flags == {} && table[dest].msg == None;
      assert table[dest].recvfrom == NO_TASK && table[dest].sendto == NO_TASK;
      assert table[current].flags == {} && table[current].msg == None;
      assert table[current].recvfrom == NO_TASK && table[current].sendto == NO_TASK;
    }

    /** dest is not waiting for current: block current on dest. */
    method QueueUp(current: Pid, dest: Pid, m: Addr)
      requires Valid() && current == ready && current != dest && current != IDLE
      requires !Reaches(View(), dest, current) && !Awaits(View(), dest, current)
      modifies this`ready, this`queues, table
      ensures Valid() && Sched.Step(old(Cpu()), Sched.Call, Cpu())
      ensures Post(old(View()), current, dest, m).Done? && View() == Post(old(View()), current, dest, m).s
    {
      hide Inv, Post, Linked, FieldsAgree, Chain;
      ghost var tab := table[..];
      QueueEntry(tab, queues, mem[..], current, dest);
      LinkBehind(current, dest, m);
      ghost var t := table[..];
      QueuedStep(tab, t, old(queues), mem[..], current, dest, m);
      Block(current);
      BlockingStep(tab, t, table[..], queues, mem[..], current, ready);
      assert table[current].flags == {SENDING} && table[current].msg == Some(m);
      assert table[current].recvfrom == NO_TASK && table[current].sendto == dest;
    }

    /** Walk dest's list to its end. */
    method LastOf(dest: Pid) returns (p: Pid)
      requires table.Length == |queues| == N && table[dest].qSending.Some?
      requires Chain(table[..], table[dest].qSending, queues[dest])
      ensures queues[dest] != [] && p == queues[dest][|queues[dest]| - 1]
    {
      ghost var q := queues[dest];
      p := table[dest].qSending.value;
      ghost var i := 0;
      while table[p].nextSending.Some?
        invariant 0 <= i < |q| && p == q[i]
        decreases |q| - i
      {
        assert table[q[i]].nextSending == After(q, i);
        p := table[p].nextSending.value;
        i := i + 1;
      }
      assert table[q[i]].nextSending == After(q, i);
    }

    /** Mark the sender and append it to dest's list. */
    method LinkBehind(sender: Pid, dest: Pid, m: Addr)
      requires table.Length == |queues| == N && Chain(table[..], table[dest].qSending, queues[dest])
      requires table[sender].flags == {} && sender !in queues[dest] && sender != dest
      modifies this`queues, table
      ensures IsQueued(old(table[..]), table[..], old(queues)[dest], dest, sender, m)
      ensures queues == old(queues)[dest := old(queues)[dest] + [sender]]
    {
      ghost var q := queues[dest];
      table[sender] := table[sender].(flags := table[sender].flags + {SENDING});
      assert table[sender].flags == {SENDING};
      table[sender] := table[sender].(sendto := dest);
      table[sender] := table[sender].(msg := Some(m));
      if table[dest].qSending.Some? {
        ChainUntouched(old(table[..]), table[..], table[dest].qSending, q);
        var p := LastOf(dest);
        table[p] := table[p].(nextSending := Some(sender));
      } else {
        table[dest] := table[dest].(qSending := Some(sender));
      }
      table[sender] := table[sender].(nextSending := None);
      queues := queues[dest := q + [sender]];
    }

    /** Take the pending interrupt, or a queued sender's message, or block until one comes. */
    method MsgReceive(current: Pid, src: int, m: Addr) returns (r: Outcome)
      requires Valid() && current == ready && current != src && IsSource(src) && current != IDLE
      modifies this`ready, this`queues, table, mem
      ensures match Take(old(View()), current, src, m)
        case Done(s, _) => r == Ok && Valid() && View() == s && Sched.Step(old(Cpu()), Sched.Call, Cpu())
        case _ => r == AssertFailed
    {
      if table[current].hasInt && (src == ANY || src == INTERRUPT) {
        TakePending(current, src, m);
        return Ok;
      }
      var from, prev, k := FindSender(current, src);
      if from.Some? {
        TakeFrom(current, src, m, from.value, prev, k);
        return Ok;
      }
      r := BlockReceiving(current, src, m);
    }

    /** An interrupt is pending for current: hand it over. */
    method TakePending(current: Pid, src: int, m: Addr)
      requires Valid() && current == ready && table[current].hasInt && (src == ANY || src == INTERRUPT)
      modifies table, mem
      ensures Valid() && Sched.Step(old(Cpu()), Sched.Call, Cpu())
      ensures Take(old(View()), current, src, m).Done? && View() == Take(old(View()), current, src, m).s
    {
      ghost var tab := table[..];
      TakeInterruptStep(tab, queues, mem[..], current, src, m);
      mem[current] := mem[current][m := ZERO.(source := INTERRUPT).(mtype := HARD_INT)];
      table[current] := table[current].(hasInt := false);
      assert table[..] == tab[current := tab[current].(hasInt := false)];
      assert table[current].flags == {} && table[current].msg == None;
      assert table[current].sendto == NO_TASK && table[current].hasInt == false;
      WakingStep(tab, table[..], current);
    }

    /** Whose message a receive from src takes: the process, its predecessor in the list, its position. */
    method FindSender(current: Pid, src: int) returns (from: Option<Pid>, prev: Option<Pid>, ghost k: nat)
      requires Valid() && current == ready && current != src && IsSource(src)
      ensures from == Chosen(View(), current, src)
      ensures from.Some? ==> k < |queues[current]| && from.value == queues[current][k]
      ensures from.Some? ==> prev == if k == 0 then None else Some(queues[current][k - 1])
      ensures from.Some? && src == ANY ==> k == 0
    {
      hide Inv, Linked, FieldsAgree, Chosen, Chain, ViewOf;
      from, prev, k := None, None, 0;
      ChosenEntry(table[..], queues, mem[..], current, src);
      if src == ANY {
        if table[current].qSending.Some? {
          from := table[current].qSending;
          UnlinkableEntry(View(), table[..], queues, mem[..], current, k);
          assert table[current].flags == {} && table[current].msg == None;
          assert table[current].recvfrom == NO_TASK && table[current].sendto == NO_TASK;
          assert table[current].qSending.Some?;
          assert table[from.value].flags == {SENDING} && table[from.value].msg.Some?;
          assert table[from.value].recvfrom == NO_TASK && table[from.value].sendto == current;
        }
      } else if 0 <= src < N {
        if SENDING in table[src].flags && table[src].sendto == current {
          prev, k := WalkTo(current, src);
          from := Some(src);
          UnlinkableEntry(View(), table[..], queues, mem[..], current, k);
          assert table[current].flags == {} && table[current].msg == None;
          assert table[current].recvfrom == NO_TASK && table[current].sendto == NO_TASK;
          assert table[current].qSending.Some?;
          assert table[from.value].flags == {SENDING} && table[from.value].msg.Some?;
          assert table[from.value].recvfrom == NO_TASK && table[from.value].sendto == current;
        }
      }
    }

    /** Walk current's list to src. */
    method WalkTo(current: Pid, src: Pid) returns (prev: Option<Pid>, ghost k: nat)
      requires table.Length == |queues| == N && src in queues[current] && SENDING in table[src].flags
      requires Chain(table[..], table[current].qSending, queues[current])
      ensures k < |queues[current]| && src == queues[current][k]
      ensures prev == if k == 0 then None else Some(queues[current][k - 1])
    {
      ghost var q := queues[current];
      var p := table[current].qSending;
      prev, k := None, 0;
      assert p.Some?;
      while p.Some?
        invariant k <= |q| && src in q[k..]
        invariant p == if k < |q| then Some(q[k]) else None
        invariant prev == if k == 0 then None else Some(q[k - 1])
        decreases |q| - k
      {
        assert SENDING in table[src].flags;
        if p.value == src {
          return;
        }
        assert table[q[k]].nextSending == After(q, k);
        prev := p;
        p := table[p.value].nextSending;
        k := k + 1;
      }
    }

    /** Take the k-th queued message. */
    method TakeFrom(current: Pid, src: int, m: Addr, from: Pid, prev: Option<Pid>, ghost k: nat)
      requires Valid() && current == ready && current != src && IsSource(src) && k < |queues[current]|
      requires from == queues[current][k] && prev == (if k == 0 then None else Some(queues[current][k - 1]))
      requires if src == ANY then k == 0 && !table[current].hasInt else src == from
      modifies this`queues, table, mem
      ensures Valid() && Sched.Step(old(Cpu()), Sched.Call, Cpu())
      ensures Take(old(View()), current, src, m).Done? && View() == Take(old(View()), current, src, m).s
    {
      hide Inv, Take, Linked, FieldsAgree, IsUnlinked;
      ghost var tab, n := table[..], mem[..];
      UnlinkableEntry(View(), tab, queues, n, current, k);
      Unlink(current, from, prev, m, k);
      UnlinkedStep(tab, table[..], old(queues), n, current, src, k, m);
      UnlinkedWakes(tab, table[..], old(queues)[current], current, k);
    }

    /** Take the k-th sender out of the list, copy its message and set it running. */
    method Unlink(current: Pid, from: Pid, prev: Option<Pid>, m: Addr, ghost k: nat)
      requires table.Length == mem.Length == |queues| == N && k < |queues[current]|
      requires from == queues[current][k] && prev == (if k == 0 then None else Some(queues[current][k - 1]))
      requires table[current].qSending == Some(queues[current][0]) && NoDuplicates(queues[current])
      requires from != current && table[from].flags == {SENDING} && table[from].msg.Some?
      modifies this`queues, table, mem
      ensures IsUnlinked(old(table[..]), table[..], old(queues)[current], current, k)
      ensures mem[..] == old(mem[..])[current :=
        old(mem[current])[m := Load(old(mem[from]), old(table[from]).msg.value)]]
      ensures queues == old(queues)[current := old(queues)[current][..k] + old(queues)[current][k + 1..]]
    {
      ghost var q := queues[current];
      if table[current].qSending == Some(from) {
        assert k == 0 && prev == None;
        table[current] := table[current].(qSending := table[from].nextSending);
        table[from] := table[from].(nextSending := None);
      } else {
        assert prev.Some? && prev.value != from;
        table[prev.value] := table[prev.value].(nextSending := table[from].nextSending);
        table[from] := table[from].(nextSending := None);
      }
      assert table[from].msg.Some?;
      mem[current] := mem[current][m := Load(mem[from], table[from].msg.value)];
      table[from] := table[from].(msg := None);
      table[from] := table[from].(sendto := NO_TASK);
      table[from] := table[from].(flags := table[from].flags - {SENDING});
      assert table[from].flags == {};
      queues := queues[current := q[..k] + q[k + 1..]];
    }

    /** Nobody is sending: wait. The last assertion of the original fails when an interrupt is pending. */
    method BlockReceiving(current: Pid, src: int, m: Addr) returns (r: Outcome)
      requires Valid() && current == ready && current != src && IsSource(src) && current != IDLE
      requires Chosen(View(), current, src) == None
      requires View().intr[current] ==> src != ANY && src != INTERRUPT
      modifies this`ready, table
      ensures match Take(old(View()), current, src, m)
        case Done(s, _) => r == Ok && Valid() && View() == s && Sched.Step(old(Cpu()), Sched.Call, Cpu())
        case _ => r == AssertFailed
    {
      hide Inv, Linked, Chosen;
      ghost var tab := table[..];
      table[current] := table[current].(flags := table[current].flags + {RECEIVING});
      table[current] := table[current].(msg := Some(m));
      table[current] := table[current].(recvfrom := src);
      assert table[current].flags == {RECEIVING};
      ghost var t := table[..];
      assert t == tab[current := tab[current].(flags := {RECEIVING}, msg := Some(m), recvfrom := src)];
      ReceivingStep(tab, queues, mem[..], current, src, m);
      Block(current);
      assert table[current].flags == {RECEIVING} && table[current].msg == Some(m);
      assert table[current].recvfrom != NO_TASK && table[current].sendto == NO_TASK;
      if table[current].hasInt {
        return AssertFailed;
      }
      BlockingStep(tab, t, table[..], queues, mem[..], current, ready);
      return Ok;
    }

    /** A hardware interrupt for a task: give it to the task if it waits for one, else remember it. */
    method InformInt(t: Pid)
      requires Valid()
      modifies table, mem
      ensures Valid() && View() == Interrupt(old(View()), t) && Sched.Step(old(Cpu()), Sched.Call, Cpu())
      ensures forall i: Pid :: table[i].ticks == old(table[i].ticks) && table[i].priority == old(table[i].priority)
    {
      hide Inv, Linked, Interrupt, Sched.Step, FieldsAgree;
      ghost var tab := table[..];
      InterruptStep(tab, queues, mem[..], t);
      if RECEIVING in table[t].flags && (table[t].recvfrom == INTERRUPT || table[t].recvfrom == ANY) {
        WakeForInterrupt(t);
      } else {
        table[t] := table[t].(hasInt := true);
        assert table[..] == tab[t := tab[t].(hasInt := true)];
      }
      WakingStep(tab, table[..], ready);
    }

    /** t is waiting for an interrupt: write its message and wake it. */
    method WakeForInterrupt(t: Pid)
      requires table.Length == mem.Length == N
      requires table[t].flags == {RECEIVING} && table[t].msg.Some? && table[t].sendto == NO_TASK
      modifies table, mem
      ensures var tab, n := old(table[..]), old(mem[..]);
        var b := tab[t].msg.value;
        && table[..] == tab[t := tab[t].(msg := None, hasInt := false, flags := {}, recvfrom := NO_TASK)]
        && mem[..] == n[t := n[t][b := Load(n[t], b).(source := INTERRUPT, mtype := HARD_INT)]]
    {
      ghost var tab := table[..];
      var b := table[t].msg.value;
      mem[t] := mem[t][b := Load(mem[t], b).(source := INTERRUPT)];
      mem[t] := mem[t][b := Load(mem[t], b).(mtype := HARD_INT)];
      assert mem[t] == old(mem[t])[b := Load(old(mem[t]), b).(source := INTERRUPT, mtype := HARD_INT)];
      table[t] := table[t].(msg := None);
      table[t] := table[t].(hasInt := false);
      table[t] := table[t].(flags := table[t].flags - {RECEIVING});
      assert table[t].flags == {};
      table[t] := table[t].(recvfrom := NO_TASK);
      assert table[t].flags == {} && table[t].msg == None;
      assert table[t].recvfrom == NO_TASK && table[t].sendto == NO_TASK;
      assert table[..] == tab[t := tab[t].(msg := None, hasInt := false, flags := {}, recvfrom := NO_TASK)];
    }

    /** The system call: check the arguments, stamp the message with its real sender, dispatch. */
    method SysSendrec(function_: int, srcDest: int, m: Addr) returns (r: Outcome)
      requires Valid() && ready != IDLE
      requires function_ == SEND ==> srcDest != ANY && srcDest != INTERRUPT
      modifies this`ready, this`queues, table, mem
      ensures !IsSource(srcDest) || srcDest == old(ready) ==> r == AssertFailed
      ensures IsSource(srcDest) && srcDest != old(ready) && function_ != SEND && function_ != RECEIVE ==>
        r == FunctionPanic
      ensures IsSource(srcDest) && srcDest != old(ready) && (function_ == SEND || function_ == RECEIVE) ==>
        var e := if function_ == SEND then Do(old(View()), SendCall(old(ready), srcDest, m))
                 else Do(old(View()), ReceiveCall(old(ready), srcDest, m));
        match e
        case Done(s, _) => r == Ok && Valid() && View() == s && Sched.Step(old(Cpu()), Sched.Call, Cpu())
        case Deadlock => r == DeadlockPanic
        case AssertionFailed => r == AssertFailed
    {
      hide FieldsAgree, Linked, Inv;
      if !IsSource(srcDest) {
        return AssertFailed;
      }
      var caller := ready;
      StampMessage(caller, m);
      if caller == srcDest {
        return AssertFailed;
      }
      if function_ == SEND {
        r := MsgSend(caller, srcDest, m);
      } else if function_ == RECEIVE {
        r := MsgReceive(caller, srcDest, m);
      } else {
        return FunctionPanic;
      }
    }

    /** Write the caller's own number into its message. */
    method StampMessage(caller: Pid, m: Addr)
      requires Valid()
      modifies mem
      ensures Valid() && View() == Stamp(old(View()), caller, m)
    {
      Proofs.ComputeKeepsInv(View(), caller, m, Load(mem[caller], m).(source := caller));
      mem[caller] := mem[caller][m := Load(mem[caller], m).(source := caller)];
      assert View() == Stamp(old(View()), caller, m);
    }

    /** The timer interrupt: advance the clock, charge the running process, pass on key strokes, perhaps reschedule. */
    method ClockHandler(keyPressed: bool, nested: bool)
      requires Valid()
      modifies this`ready, this`ticks, table, mem
      ensures Valid() && Sched.Step(old(Cpu()), Sched.Tick(nested), Cpu())
      ensures View() == if keyPressed then Interrupt(old(View()), TASK_TTY) else old(View())
      ensures ticks == if old(ticks) + 1 >= MAX_TICKS then 0 else old(ticks) + 1
    {
      hide Inv, FieldsAgree, Linked, Sched.Charge, Sched.ScheduledTo, Sched.Step, Interrupt;
      ticks := ticks + 1;
      if ticks >= MAX_TICKS {
        ticks := 0;
      }
      ChargeRunning();
      ghost var charged := table[..];
      if keyPressed {
        InformInt(TASK_TTY);
      }
      ghost var t := table[..];
      if nested || table[ready].ticks > 0 {
        TickStep(old(Cpu()), charged, t, Cpu(), nested);
        return;
      }
      Reschedule();
      TickStep(old(Cpu()), charged, t, Cpu(), nested);
    }

    method ChargeRunning()
      requires Valid()
      modifies table
      ensures Valid() && View() == old(View()) && SlotsOf(table[..]) == Sched.Charge(old(Cpu()))
    {
      hide Consistent, SlotsOf, ViewOf, Sched.Charge;
      ghost var tab := table[..];
      ChargedStep(tab, queues, mem[..], ready);
      ChargedSlots(tab, ready);
      if table[ready].ticks != 0 {
        table[ready] := table[ready].(ticks := table[ready].ticks - 1);
      }
      assert table[..] == Charged(tab, ready);
    }

    method Reschedule()
      requires Valid()
      modifies this`ready, table
      ensures Valid() && View() == old(View())
      ensures Sched.ScheduledTo(SlotsOf(old(table[..])), Cpu())
    {
      hide Inv;
      ghost var t := table[..];
      assert SlotsOf(t)[IDLE].runnable;
      var _ := Schedule();
      RescheduledStep(t, table[..], queues, mem[..], ready);
    }
  }
}
