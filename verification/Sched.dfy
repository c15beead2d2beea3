/**
 The time-slice scheduler: the choice `schedule` makes, the charge of a clock interrupt, and how long a
 runnable process can be kept waiting.
 */
module Sched {
  datatype Slot = Slot(runnable: bool, ticks: int, priority: int)
  datatype Cpu = Cpu(slots: seq<Slot>, ready: int)

  // ----- The choice -----

  ghost predicate SomeReady(t: seq<Slot>) {
    exists i :: 0 <= i < |t| && t[i].runnable && t[i].ticks > 0
  }

  /** Every runnable process gets a fresh allowance; blocked ones keep what they have. */
  function Refill(t: seq<Slot>): (r: seq<Slot>) {
    seq(|t|, i requires 0 <= i < |t| => if t[i].runnable then t[i].(ticks := t[i].priority) else t[i])
  }

  /** The lowest-numbered of the runnable processes with most ticks. */
  ghost predicate IsBest(t: seq<Slot>, r: int) {
    && 0 <= r < |t| && t[r].runnable && t[r].ticks > 0
    && forall i :: 0 <= i < |t| && t[i].runnable ==> t[i].ticks <= t[r].ticks && (i < r ==> t[i].ticks < t[r].ticks)
  }

  ghost predicate ScheduledTo(t: seq<Slot>, c: Cpu) {
    c.slots == (if SomeReady(t) then t else Refill(t)) && IsBest(c.slots, c.ready)
  }

  ghost predicate SomePriority(t: seq<Slot>) {
    exists i :: 0 <= i < |t| && t[i].runnable && t[i].priority > 0
  }

  /**
   The scan-and-refill loop ends, after at most one refill, exactly when a runnable process has ticks or a
   positive priority; otherwise refilling again changes nothing and it never ends.
   */
  lemma OneRefillDecides(t: seq<Slot>)
    ensures SomeReady(Refill(t)) <==> SomePriority(t)
    ensures Refill(Refill(t)) == Refill(t)
  {
    if SomePriority(t) {
      var i :| 0 <= i < |t| && t[i].runnable && t[i].priority > 0;
      assert Refill(t)[i].runnable && Refill(t)[i].ticks > 0;
    }
  }

  lemma BestIsUnique(t: seq<Slot>, a: int, b: int)
    requires IsBest(t, a) && IsBest(t, b)
    ensures a == b
  {
    assert t[a].ticks <= t[b].ticks && t[b].ticks <= t[a].ticks;
  }

  /**
   When no runnable process has ticks, the one with the greatest priority of them is chosen, the first of several; each
   gets as many ticks as its priority, and blocked processes keep theirs. Otherwise nothing is given to anybody.
   */
  lemma RefillsByPriority(t: seq<Slot>, c: Cpu)
    requires ScheduledTo(t, c)
    ensures |c.slots| == |t| && 0 <= c.ready < |t| && t[c.ready].runnable
    ensures if SomeReady(t) then c.slots == t && t[c.ready].ticks > 0
      else
        && (forall i :: 0 <= i < |t| ==>
             c.slots[i] == t[i].(ticks := if t[i].runnable then t[i].priority else t[i].ticks))
        && t[c.ready].priority > 0
        && forall i :: 0 <= i < |t| && t[i].runnable ==>
             t[i].priority <= t[c.ready].priority && (i < c.ready ==> t[i].priority < t[c.ready].priority)
  {
    if !SomeReady(t) {
      forall i | 0 <= i < |t| && t[i].runnable
        ensures t[i].priority <= t[c.ready].priority && (i < c.ready ==> t[i].priority < t[c.ready].priority)
      {
        assert c.slots[i].ticks == t[i].priority;
      }
    }
  }

  // ----- Steps -----

  function WithRunnable(t: seq<Slot>, f: seq<Slot>): seq<Slot>
    requires |f| == |t|
  {
    seq(|t|, i requires 0 <= i < |t| => t[i].(runnable := f[i].runnable))
  }

  function Charge(c: Cpu): seq<Slot>
    requires 0 <= c.ready < |c.slots|
  {
    var x := c.slots[c.ready];
    if x.ticks == 0 then c.slots else c.slots[c.ready := x.(ticks := x.ticks - 1)]
  }

  datatype Kind = Tick(nested: bool) | Call

  /**
   One kernel entry. It may wake any processes and block the running one; the flags it leaves are those of d.
   A nested clock interrupt charges but does not reschedule.
   */
  ghost predicate Step(c: Cpu, k: Kind, d: Cpu) {
    && 0 <= c.ready < |c.slots| == |d.slots|
    && var t := WithRunnable(if k.Tick? then Charge(c) else c.slots, d.slots);
       if (if k.Tick? then k.nested || t[c.ready].ticks > 0 else d.slots[c.ready].runnable)
       then d == Cpu(t, c.ready) else ScheduledTo(t, d)
  }

  ghost predicate NonNegative(t: seq<Slot>) {
    forall i :: 0 <= i < |t| ==> t[i].ticks >= 0 && t[i].priority >= 0
  }

  ghost predicate Sane(c: Cpu) {
    0 <= c.ready < |c.slots| && NonNegative(c.slots)
  }

  ghost predicate IsRun(cs: seq<Cpu>, ks: seq<Kind>) {
    && |cs| == |ks| + 1 && Sane(cs[0])
    && forall i :: 0 <= i < |ks| ==> Step(cs[i], ks[i], cs[i + 1])
  }

  predicate Charges(c: Cpu, k: Kind) {
    k.Tick? && 0 <= c.ready < |c.slots| && c.slots[c.ready].ticks > 0
  }

  /** How many of the steps charge a process a tick. */
  function Charged(cs: seq<Cpu>, ks: seq<Kind>): nat
    requires |cs| == |ks| + 1
  {
    if ks == [] then 0 else (if Charges(cs[0], ks[0]) then 1 else 0) + Charged(cs[1..], ks[1..])
  }

  /** q is runnable but not running all along. */
  ghost predicate Waits(cs: seq<Cpu>, q: nat) {
    forall i :: 0 <= i < |cs| ==> q < |cs[i].slots| && cs[i].slots[q].runnable && cs[i].ready != q
  }

  // ----- The starvation bound -----

  function SumTicks(t: seq<Slot>): int {
    if t == [] then 0 else t[0].ticks + SumTicks(t[1..])
  }

  function SumPriorities(t: seq<Slot>): int {
    if t == [] then 0 else t[0].priority + SumPriorities(t[1..])
  }

  /** What can still be charged to others before q must run. */
  function Bound(t: seq<Slot>, q: nat): int
    requires q < |t|
  {
    if t[q].ticks > 0 then SumTicks(t) - t[q].ticks else SumTicks(t) + SumPriorities(t)
  }

  lemma {:induction false} SumWithRunnable(t: seq<Slot>, f: seq<Slot>)
    requires |f| == |t|
    ensures SumTicks(WithRunnable(t, f)) == SumTicks(t)
    ensures SumPriorities(WithRunnable(t, f)) == SumPriorities(t)
  {
    if t != [] {
      assert WithRunnable(t, f)[1..] == WithRunnable(t[1..], f[1..]);
      SumWithRunnable(t[1..], f[1..]);
    }
  }

  lemma {:induction false} SumUpdate(t: seq<Slot>, i: nat, x: Slot)
    requires i < |t| && x.priority == t[i].priority
    ensures SumTicks(t[i := x]) == SumTicks(t) - t[i].ticks + x.ticks
    ensures SumPriorities(t[i := x]) == SumPriorities(t)
  {
    if i > 0 {
      assert t[i := x][1..] == t[1..][i - 1 := x];
      SumUpdate(t[1..], i - 1, x);
    }
  }

  lemma {:induction false} SumRefill(t: seq<Slot>)
    requires NonNegative(t)
    ensures SumTicks(Refill(t)) <= SumTicks(t) + SumPriorities(t)
    ensures SumPriorities(Refill(t)) == SumPriorities(t)
  {
    if t != [] {
      assert Refill(t)[1..] == Refill(t[1..]);
      SumRefill(t[1..]);
    }
  }

  lemma {:induction false} SumAtLeast(t: seq<Slot>, q: nat)
    requires q < |t| && NonNegative(t)
    ensures SumTicks(t) >= t[q].ticks && SumPriorities(t) >= t[q].priority
  {
    if |t| > 1 {
      SumAtLeast(t[1..], if q > 0 then q - 1 else 0);
    }
  }

  lemma ChargingLowers(c: Cpu, k: Kind, q: nat)
    requires Sane(c) && q < |c.slots| && c.ready != q
    ensures var u := if k.Tick? then Charge(c) else c.slots;
      && NonNegative(u) && u[q] == c.slots[q] && SumPriorities(u) == SumPriorities(c.slots)
      && SumTicks(u) == SumTicks(c.slots) - if Charges(c, k) then 1 else 0
  {
    SumUpdate(c.slots, c.ready, c.slots[c.ready].(ticks := c.slots[c.ready].ticks - 1));
  }

  lemma ReschedulingLowers(t: seq<Slot>, d: Cpu, q: nat)
    requires NonNegative(t) && ScheduledTo(t, d) && q < |t| && t[q].runnable && t[q].priority > 0
    ensures Sane(d) && d.slots[q].priority == t[q].priority && Bound(d.slots, q) <= Bound(t, q)
  {
    if !SomeReady(t) {
      SumRefill(t);
    }
  }

  /** No step raises what q may still have to wait for, and every charge lowers it. */
  lemma BoundFalls(c: Cpu, k: Kind, d: Cpu, q: nat)
    requires Sane(c) && Step(c, k, d) && q < |c.slots| && c.slots[q].priority > 0
    requires d.slots[q].runnable && c.ready != q
    ensures Sane(d) && d.slots[q].priority == c.slots[q].priority
    ensures 0 <= Bound(d.slots, q) <= Bound(c.slots, q) - if Charges(c, k) then 1 else 0
  {
    hide SumTicks, SumPriorities, Refill;
    ChargingLowers(c, k, q);
    var u := if k.Tick? then Charge(c) else c.slots;
    SumWithRunnable(u, d.slots);
    var t := WithRunnable(u, d.slots);
    assert NonNegative(t);
    assert Bound(t, q) == Bound(u, q);
    if d != Cpu(t, c.ready) {
      ReschedulingLowers(t, d, q);
    }
    SumAtLeast(d.slots, q);
  }

  /**
   A runnable process with a positive priority that is never given the processor sees at most Bound charges,
   whatever the others do; while its ticks are positive that is the sum of the others' ticks.
   */
  lemma {:induction false} NobodyStarves(cs: seq<Cpu>, ks: seq<Kind>, q: nat)
    requires IsRun(cs, ks) && Waits(cs, q) && cs[0].slots[q].priority > 0
    ensures Charged(cs, ks) <= Bound(cs[0].slots, q)
    decreases |ks|
  {
    if ks == [] {
      SumAtLeast(cs[0].slots, q);
    } else {
      assert Step(cs[0], ks[0], cs[1]);
      BoundFalls(cs[0], ks[0], cs[1], q);
      forall i | 0 <= i < |ks[1..]| ensures Step(cs[1..][i], ks[1..][i], cs[1..][i + 1]) {
        assert Step(cs[i + 1], ks[i + 1], cs[i + 2]);
      }
      NobodyStarves(cs[1..], ks[1..], q);
    }
  }

  /** Outside nested interrupts the running process always has ticks left, so every clock interrupt charges. */
  lemma UnnestedTicksCharge(c: Cpu, k: Kind, d: Cpu)
    requires Sane(c) && Step(c, k, d) && c.slots[c.ready].ticks > 0 && k != Tick(true)
    ensures d.slots[d.ready].ticks > 0 && (k.Tick? ==> Charges(c, k))
  {
  }

  function Ticks(ks: seq<Kind>): nat {
    if ks == [] then 0 else (if ks[0].Tick? then 1 else 0) + Ticks(ks[1..])
  }

  lemma StepSane(c: Cpu, k: Kind, d: Cpu)
    requires Sane(c) && Step(c, k, d)
    ensures Sane(d)
  {
  }

  lemma {:induction false} EveryTickCharges(cs: seq<Cpu>, ks: seq<Kind>)
    requires IsRun(cs, ks)
    requires cs[0].slots[cs[0].ready].ticks > 0 && Tick(true) !in ks
    ensures Charged(cs, ks) == Ticks(ks)
    decreases |ks|
  {
    if ks != [] {
      assert Step(cs[0], ks[0], cs[1]);
      StepSane(cs[0], ks[0], cs[1]);
      UnnestedTicksCharge(cs[0], ks[0], cs[1]);
      forall i | 0 <= i < |ks[1..]| ensures Step(cs[1..][i], ks[1..][i], cs[1..][i + 1]) {
        assert Step(cs[i + 1], ks[i + 1], cs[i + 2]);
      }
      EveryTickCharges(cs[1..], ks[1..]);
    }
  }

  // ----- What a priority is worth -----

  /** The step ends in a choice for which fresh allowances were needed. */
  ghost predicate Refills(c: Cpu, k: Kind, d: Cpu) {
    && 0 <= c.ready < |c.slots| == |d.slots|
    && var t := WithRunnable(if k.Tick? then Charge(c) else c.slots, d.slots);
       && !(if k.Tick? then k.nested || t[c.ready].ticks > 0 else d.slots[c.ready].runnable)
       && !SomeReady(t)
  }

  /** How many of the steps charge process q. */
  function ChargedTo(cs: seq<Cpu>, ks: seq<Kind>, q: int): nat
    requires |cs| == |ks| + 1
  {
    if ks == [] then 0
    else (if Charges(cs[0], ks[0]) && cs[0].ready == q then 1 else 0) + ChargedTo(cs[1..], ks[1..], q)
  }

  lemma TicksStep(c: Cpu, k: Kind, d: Cpu, q: nat)
    requires Sane(c) && Step(c, k, d) && q < |c.slots|
    ensures Sane(d) && |d.slots| == |c.slots| && d.slots[q].priority == c.slots[q].priority
    ensures var left := c.slots[q].ticks - if Charges(c, k) && c.ready == q then 1 else 0;
      && left >= 0
      && d.slots[q].ticks == (if Refills(c, k, d) && d.slots[q].runnable then c.slots[q].priority else left)
      && (Refills(c, k, d) && d.slots[q].runnable ==> left == 0)
  {
    StepSane(c, k, d);
    var t := WithRunnable(if k.Tick? then Charge(c) else c.slots, d.slots);
    if Refills(c, k, d) {
      RefillsByPriority(t, d);
      if d.slots[q].runnable { assert t[q].runnable && t[q].ticks <= 0; }
    }
  }

  /** No step before the last one refills. */
  ghost predicate NoRefillBefore(cs: seq<Cpu>, ks: seq<Kind>) {
    |cs| == |ks| + 1 && forall i :: 0 <= i < |ks| - 1 ==> !Refills(cs[i], ks[i], cs[i + 1])
  }

  lemma {:induction false} PaysAsItRuns(cs: seq<Cpu>, ks: seq<Kind>, q: nat)
    requires IsRun(cs, ks) && ks != [] && NoRefillBefore(cs, ks) && q < |cs[0].slots|
    requires q < |cs[|ks|].slots| && Refills(cs[|ks| - 1], ks[|ks| - 1], cs[|ks|]) && cs[|ks|].slots[q].runnable
    ensures ChargedTo(cs, ks, q) == cs[0].slots[q].ticks
    decreases |ks|
  {
    hide Refills, Charges;
    assert Step(cs[0], ks[0], cs[1]);
    TicksStep(cs[0], ks[0], cs[1], q);
    var ds, js := cs[1..], ks[1..];
    if js == [] {
      assert ChargedTo(ds, js, q) == 0;
    } else {
      assert !Refills(cs[0], ks[0], cs[1]);
      forall i | 0 <= i < |js| ensures Step(ds[i], js[i], ds[i + 1]) { assert Step(cs[i + 1], ks[i + 1], cs[i + 2]); }
      forall i | 0 <= i < |js| - 1 ensures !Refills(ds[i], js[i], ds[i + 1]) {
        assert !Refills(cs[i + 1], ks[i + 1], cs[i + 2]);
      }
      PaysAsItRuns(ds, js, q);
    }
  }

  /**
   Between two refills in a row, a process that is runnable at both is charged exactly its priority, whatever becomes of
   it and of the others in between.
   */
  lemma ChargedItsPriority(c: Cpu, k: Kind, cs: seq<Cpu>, ks: seq<Kind>, q: nat)
    requires Sane(c) && cs != [] && Step(c, k, cs[0]) && Refills(c, k, cs[0])
    requires IsRun(cs, ks) && ks != [] && NoRefillBefore(cs, ks) && q < |cs[0].slots| && cs[0].slots[q].runnable
    requires q < |cs[|ks|].slots| && Refills(cs[|ks| - 1], ks[|ks| - 1], cs[|ks|]) && cs[|ks|].slots[q].runnable
    ensures ChargedTo(cs, ks, q) == cs[0].slots[q].priority
  {
    hide Refills;
    TicksStep(c, k, cs[0], q);
    PaysAsItRuns(cs, ks, q);
  }

  /** With unnested interrupts q runs within Bound clock interrupts. */
  lemma RunsWithinBound(cs: seq<Cpu>, ks: seq<Kind>, q: nat)
    requires IsRun(cs, ks) && Tick(true) !in ks && cs[0].slots[cs[0].ready].ticks > 0
    requires q < |cs[0].slots| && cs[0].slots[q].priority > 0 && Ticks(ks) > Bound(cs[0].slots, q)
    ensures exists i :: 0 <= i < |cs| && (cs[i].ready == q || q >= |cs[i].slots| || !cs[i].slots[q].runnable)
  {
    if Waits(cs, q) {
      NobodyStarves(cs, ks, q);
      EveryTickCharges(cs, ks);
    }
  }
}
