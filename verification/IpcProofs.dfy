/**
 What holds of the rendezvous protocol over every run: the wait-for graph stays acyclic, queues are
 exact and in posting order, no rendezvous is missed, and each sender's letters arrive once, unchanged.
 */
module IpcProofs {
  import opened Wrappers
  import opened Ipc

  // ----- The wait-for graph -----

  lemma {:induction false} PathGrows(s: State, p: Pid, q: Pid, n: nat)
    requires Shape(s) && Path(s, p, q, n) && s.st[q].Sending?
    ensures Path(s, p, s.st[q].dest, n + 1)
    decreases n
  {
    if n > 0 {
      PathGrows(s, s.st[p].dest, q, n - 1);
    }
  }

  lemma {:induction false} NoCycleThrough(s: State, p: Pid, n: nat, k: nat)
    requires Shape(s) && EndsIn(s, p, k) && n > 0
    ensures !Path(s, p, p, n)
    decreases k
  {
    if Path(s, p, p, n) {
      var d := s.st[p].dest;
      PathGrows(s, d, p, n - 1);
      NoCycleThrough(s, d, n, k - 1);
    }
  }

  lemma ChainsEndIsAcyclic(s: State)
    requires Shape(s) && ChainsEnd(s)
    ensures Acyclic(s)
  {
    forall p: Pid, n: nat | Path(s, p, p, n) ensures n == 0 {
      assert Ends(s, p);
      var k: nat :| EndsIn(s, p, k);
      if n > 0 { NoCycleThrough(s, p, n, k); }
    }
  }

  ghost predicate FewerEdges(s: State, t: State)
    requires Shape(s) && Shape(t)
  {
    forall p: Pid :: t.st[p].Sending? ==> s.st[p].Sending? && s.st[p].dest == t.st[p].dest
  }

  lemma {:induction false} StillEnds(s: State, t: State, p: Pid, n: nat)
    requires Shape(s) && Shape(t) && FewerEdges(s, t) && EndsIn(s, p, n)
    ensures Ends(t, p)
    decreases n
  {
    if t.st[p].Sending? {
      StillEnds(s, t, s.st[p].dest, n - 1);
      var m: nat :| EndsIn(t, t.st[p].dest, m);
      assert EndsIn(t, p, m + 1);
    } else {
      assert EndsIn(t, p, 0);
    }
  }

  lemma FewerEdgesEnd(s: State, t: State)
    requires Shape(s) && Shape(t) && FewerEdges(s, t) && ChainsEnd(s)
    ensures ChainsEnd(t)
  {
    forall p: Pid ensures Ends(t, p) {
      assert Ends(s, p);
      var n: nat :| EndsIn(s, p, n);
      StillEnds(s, t, p, n);
    }
  }

  /** A chain that avoids p is not changed by what p does. */
  lemma {:induction false} AvoidsEnds(s: State, t: State, p: Pid, q: Pid, n: nat)
    requires Shape(s) && Shape(t) && EndsIn(s, q, n) && !Reaches(s, q, p)
    requires forall r: Pid :: r != p ==> t.st[r] == s.st[r]
    ensures EndsIn(t, q, n)
    decreases n
  {
    if q == p {
      assert Path(s, q, p, 0);
    }
    if n > 0 {
      var d := s.st[q].dest;
      forall k: nat | Path(s, d, p, k) ensures false {
        assert Path(s, q, p, k + 1);
      }
      AvoidsEnds(s, t, p, d, n - 1);
    }
  }

  lemma {:induction false} NewEdgeEnds(s: State, t: State, p: Pid, q: Pid, n: nat)
    requires Shape(s) && Shape(t) && EndsIn(s, q, n) && Ends(t, p)
    requires forall r: Pid :: r != p ==> t.st[r] == s.st[r]
    ensures Ends(t, q)
    decreases n
  {
    if q != p {
      if n == 0 {
        assert EndsIn(t, q, 0);
      } else {
        NewEdgeEnds(s, t, p, s.st[q].dest, n - 1);
        var m: nat :| EndsIn(t, t.st[q].dest, m);
        assert EndsIn(t, q, m + 1);
      }
    }
  }

  /** Blocking p on `dest` is safe when the deadlock check passes. */
  lemma NewEdgeKeepsChains(s: State, t: State, p: Pid, dest: Pid)
    requires Shape(s) && Shape(t) && ChainsEnd(s) && !Reaches(s, dest, p)
    requires forall r: Pid :: r != p ==> t.st[r] == s.st[r]
    requires t.st[p].Sending? && t.st[p].dest == dest
    ensures ChainsEnd(t)
  {
    assert Ends(s, dest);
    var n: nat :| EndsIn(s, dest, n);
    AvoidsEnds(s, t, p, dest, n);
    assert EndsIn(t, p, n + 1);
    forall q: Pid ensures Ends(t, q) {
      assert Ends(s, q);
      var k: nat :| EndsIn(s, q, k);
      NewEdgeEnds(s, t, p, q, k);
    }
  }

  // ----- Queues -----

  lemma {:induction false} WithoutMembers(q: seq<Pid>, p: Pid)
    ensures forall x: Pid :: x in Without(q, p) <==> x in q && x != p
    ensures NoDuplicates(q) ==> NoDuplicates(Without(q, p))
  {
    if q != [] {
      var r := q[1..];
      WithoutMembers(r, p);
      assert forall x: Pid :: x in q <==> x == q[0] || x in r;
      if NoDuplicates(q) {
        assert q[0] !in r;
      }
    }
  }

  lemma {:induction false} WithoutAbsent(q: seq<Pid>, p: Pid)
    requires p !in q
    ensures Without(q, p) == q
  {
    if q != [] { WithoutAbsent(q[1..], p); }
  }

  lemma {:induction false} WithoutAt(q: seq<Pid>, k: nat)
    requires k < |q| && NoDuplicates(q)
    ensures Without(q, q[k]) == q[..k] + q[k + 1..]
  {
    if k == 0 {
      WithoutAbsent(q[1..], q[0]);
    } else {
      var t := q[1..];
      WithoutAt(t, k - 1);
      assert [q[0]] + (t[..k - 1] + t[k..]) == q[..k] + q[k + 1..];
    }
  }

  // ----- Every step keeps the invariant -----

  lemma ComputeKeepsInv(s: State, p: Pid, a: Addr, m: Message)
    requires Inv(s)
    ensures Inv(Write(s, p, a, m))
  {
    FewerEdgesEnd(s, Write(s, p, a, m));
  }

  lemma PostKeepsInv(t: State, p: Pid, dest: Pid, a: Addr)
    requires Inv(t) && t.st[p].Runnable? && p != dest && Post(t, p, dest, a).Done?
    ensures Inv(Post(t, p, dest, a).s)
  {
    var u := Post(t, p, dest, a).s;
    if Awaits(t, dest, p) {
      FewerEdgesEnd(t, u);
    } else {
      NewEdgeKeepsChains(t, u, p, dest);
      assert p !in t.queue[dest];
    }
  }

  lemma SendKeepsInv(s: State, p: Pid, dest: Pid, a: Addr)
    requires Inv(s) && s.st[p].Runnable? && p != dest && Send(s, p, dest, a).Done?
    ensures Inv(Send(s, p, dest, a).s)
  {
    ComputeKeepsInv(s, p, a, Load(s.mem[p], a).(source := p));
    PostKeepsInv(Stamp(s, p, a), p, dest, a);
  }

  lemma TakingKeepsInv(t: State, p: Pid, q: Pid, a: Addr)
    requires Inv(t) && t.st[p].Runnable? && t.st[q].Sending? && t.st[q].dest == p
    ensures var u := HandOver(t.(queue := t.queue[p := Without(t.queue[p], q)]), q, t.st[q].buf, p, a, q).s;
      Inv(u)
  {
    var u := HandOver(t.(queue := t.queue[p := Without(t.queue[p], q)]), q, t.st[q].buf, p, a, q).s;
    WithoutMembers(t.queue[p], q);
    FewerEdgesEnd(t, u);
    assert QueuesExact(u);
  }

  lemma BlockingKeepsInv(t: State, p: Pid, src: int, a: Addr)
    requires Inv(t) && t.st[p].Runnable? && p != src && IsSource(src)
    requires Chosen(t, p, src) == None && !t.intr[p]
    ensures Inv(Become(t, p, Receiving(src, a)))
  {
    FewerEdgesEnd(t, Become(t, p, Receiving(src, a)));
  }

  lemma TakeKeepsInv(t: State, p: Pid, src: int, a: Addr)
    requires Inv(t) && t.st[p].Runnable? && p != src && IsSource(src) && Take(t, p, src, a).Done?
    ensures Inv(Take(t, p, src, a).s)
  {
    if t.intr[p] && (src == ANY || src == INTERRUPT) {
      FewerEdgesEnd(t, Take(t, p, src, a).s);
    } else {
      match Chosen(t, p, src)
      case Some(q) =>
        assert src == ANY ==> q in t.queue[p];
        TakingKeepsInv(t, p, q, a);
      case None => BlockingKeepsInv(t, p, src, a);
    }
  }

  lemma ReceiveKeepsInv(s: State, p: Pid, src: int, a: Addr)
    requires Inv(s) && s.st[p].Runnable? && p != src && IsSource(src) && Receive(s, p, src, a).Done?
    ensures Inv(Receive(s, p, src, a).s)
  {
    ComputeKeepsInv(s, p, a, Load(s.mem[p], a).(source := p));
    TakeKeepsInv(Stamp(s, p, a), p, src, a);
  }

  lemma InterruptKeepsInv(s: State, t: Pid)
    requires Inv(s)
    ensures Inv(Interrupt(s, t))
  {
    FewerEdgesEnd(s, Interrupt(s, t));
  }

  // ----- Histories -----

  lemma FromAppend(log: seq<Letter>, l: Letter, p: Pid)
    ensures From(log + [l], p) == From(log, p) + if l.from == p then [l] else []
    ensures LastPost(log + [l], p) == if l.from == p then |log| else LastPost(log, p)
  {
    assert (log + [l])[..|log|] == log;
  }

  lemma {:induction false} LastPostBound(log: seq<Letter>, p: Pid)
    ensures -1 <= LastPost(log, p) < |log|
  {
    if log != [] { LastPostBound(log[..|log| - 1], p); }
  }

  lemma WithoutOrdered(log: seq<Letter>, q: seq<Pid>, p: Pid)
    requires NoDuplicates(q) && InOrder(log, q)
    ensures InOrder(log, Without(q, p))
  {
    if p in q {
      var k :| 0 <= k < |q| && q[k] == p;
      WithoutAt(q, k);
    } else {
      WithoutAbsent(q, p);
    }
  }

  lemma SendInFlight(s: State, p: Pid, dest: Pid, a: Addr, r: Pid)
    requires Inv(s) && Enabled(s, SendCall(p, dest, a)) && Send(s, p, dest, a).Done?
    ensures var u := Send(s, p, dest, a);
      var l := Posted(s, SendCall(p, dest, a))[0];
      && Shape(u.s) && (u.got.Some? ==> u.got.value == l)
      && InFlight(u.s, r) == if r != p then InFlight(s, r) else if u.got.Some? then [] else [l]
  {
  }

  lemma SendKeepsConserved(x: Sys, p: Pid, dest: Pid, a: Addr, y: Sys)
    requires SysInv(x) && Step(x, SendCall(p, dest, a), y)
    ensures Shape(y.s) && Conserved(y)
  {
    hide From;
    var l := Posted(x.s, SendCall(p, dest, a))[0];
    var u := Send(x.s, p, dest, a);
    SendInFlight(x.s, p, dest, a, p);
    forall r: Pid ensures From(y.sent, r) == From(y.delivered, r) + InFlight(y.s, r) {
      SendInFlight(x.s, p, dest, a, r);
      assert From(x.sent, r) == From(x.delivered, r) + InFlight(x.s, r);
      PostAccounted(x.sent, x.delivered, l, u.got, r, InFlight(x.s, r), InFlight(y.s, r));
    }
  }

  lemma PostAccounted(sent: seq<Letter>, delivered: seq<Letter>, l: Letter, got: Option<Letter>, r: Pid,
                      before: seq<Letter>, after: seq<Letter>)
    requires From(sent, r) == From(delivered, r) + before
    requires got.Some? ==> got.value == l
    requires l.from == r ==> before == []
    requires after == if l.from != r then before else if got.Some? then [] else [l]
    ensures From(sent + [l], r) == From(delivered + Arrived(got), r) + after
  {
    hide From;
    FromAppend(sent, l, r);
    FromAppend(delivered, l, r);
    assert delivered + [] == delivered;
    var a, b := From(sent, r), From(delivered, r);
    if l.from == r {
      assert b + [] == b && (b + [l]) + [] == b + [l];
    } else {
      assert a + [] == a && b + [] == b;
    }
  }

  lemma ReceiveInFlight(s: State, p: Pid, src: int, a: Addr, r: Pid)
    requires Inv(s) && Enabled(s, ReceiveCall(p, src, a)) && Receive(s, p, src, a).Done?
    ensures var u := Receive(s, p, src, a);
      && Shape(u.s)
      && if u.got.Some? && u.got.value.from == r
         then InFlight(s, r) == [u.got.value] && InFlight(u.s, r) == []
         else InFlight(u.s, r) == InFlight(s, r)
  {
    if s.queue[p] != [] {
      assert s.queue[p][0] in s.queue[p];
    }
  }

  lemma ReceiveKeepsConserved(x: Sys, p: Pid, src: int, a: Addr, y: Sys)
    requires SysInv(x) && Step(x, ReceiveCall(p, src, a), y)
    ensures Shape(y.s) && Conserved(y)
  {
    hide From;
    var got := Receive(x.s, p, src, a).got;
    ReceiveInFlight(x.s, p, src, a, p);
    forall r: Pid ensures From(y.sent, r) == From(y.delivered, r) + InFlight(y.s, r) {
      ReceiveInFlight(x.s, p, src, a, r);
      ArrivalAccounted(x, got, r, InFlight(y.s, r));
    }
  }

  lemma ArrivalAccounted(x: Sys, got: Option<Letter>, r: Pid, after: seq<Letter>)
    requires Shape(x.s) && Conserved(x)
    requires var before := InFlight(x.s, r);
      if got.Some? && got.value.from == r then before == [got.value] && after == [] else after == before
    ensures From(x.sent + [], r) == From(x.delivered + Arrived(got), r) + after
  {
    hide From;
    assert x.sent + [] == x.sent && x.delivered + [] == x.delivered;
    assert From(x.sent, r) == From(x.delivered, r) + InFlight(x.s, r);
    if got.Some? { FromAppend(x.delivered, got.value, r); }
  }

  lemma SendKeepsOrder(x: Sys, p: Pid, dest: Pid, a: Addr, y: Sys)
    requires SysInv(x) && Step(x, SendCall(p, dest, a), y) && Inv(y.s)
    ensures QueuesInOrder(y)
  {
    var l := Posted(x.s, SendCall(p, dest, a))[0];
    forall d: Pid ensures InOrder(y.sent, y.s.queue[d]) {
      var q, before := y.s.queue[d], x.s.queue[d];
      assert InOrder(x.sent, before);
      forall i, j | 0 <= i < j < |q| ensures LastPost(y.sent, q[i]) < LastPost(y.sent, q[j]) {
        assert q[i] in before && q[i] != p;
        FromAppend(x.sent, l, q[i]);
        FromAppend(x.sent, l, q[j]);
        LastPostBound(x.sent, q[i]);
        if j < |before| {
          assert q[j] in before && q[j] != p;
        }
      }
    }
  }

  lemma ReceiveKeepsOrder(x: Sys, p: Pid, src: int, a: Addr, y: Sys)
    requires SysInv(x) && Step(x, ReceiveCall(p, src, a), y)
    ensures QueuesInOrder(y)
  {
    assert y.sent == x.sent;
    var c := Chosen(Stamp(x.s, p, a), p, src);
    if c.Some? {
      WithoutOrdered(x.sent, x.s.queue[p], c.value);
    }
    forall d: Pid ensures InOrder(y.sent, y.s.queue[d]) {
      assert InOrder(x.sent, x.s.queue[d]);
    }
  }

  lemma StepKeepsInv(x: Sys, e: Event, y: Sys)
    requires SysInv(x) && Step(x, e, y)
    ensures SysInv(y)
  {
    match e {
      case Compute(p, a, m) =>
        ComputeKeepsInv(x.s, p, a, m);
        SameLetters(x, y);
      case SendCall(p, dest, a) =>
        SendKeepsInv(x.s, p, dest, a);
        SendKeepsConserved(x, p, dest, a, y);
        SendKeepsOrder(x, p, dest, a, y);
      case ReceiveCall(p, src, a) =>
        ReceiveKeepsInv(x.s, p, src, a);
        ReceiveKeepsConserved(x, p, src, a, y);
        ReceiveKeepsOrder(x, p, src, a, y);
      case InterruptOf(t) =>
        InterruptKeepsInv(x.s, t);
        SameLetters(x, y);
    }
  }

  lemma SameLetters(x: Sys, y: Sys)
    requires SysInv(x) && Shape(y.s) && y.sent == x.sent + [] && y.delivered == x.delivered + []
    requires y.s.queue == x.s.queue
    requires forall r: Pid :: x.s.st[r].Sending? || y.s.st[r].Sending? ==>
      y.s.st[r] == x.s.st[r] && y.s.mem[r] == x.s.mem[r]
    ensures Conserved(y) && QueuesInOrder(y)
  {
    assert y.sent == x.sent && y.delivered == x.delivered;
    forall r: Pid ensures From(y.sent, r) == From(y.delivered, r) + InFlight(y.s, r) {
      assert InFlight(y.s, r) == InFlight(x.s, r);
      assert From(x.sent, r) == From(x.delivered, r) + InFlight(x.s, r);
    }
  }

  /** Safety of every run that has not panicked. */
  lemma {:induction false} RunIsSafe(xs: seq<Sys>, es: seq<Event>)
    requires IsRun(xs, es)
    ensures SysInv(xs[|es|]) && Acyclic(xs[|es|].s)
    decreases |es|
  {
    var n := |es|;
    if n == 0 {
      forall p: Pid ensures Ends(xs[0].s, p) { assert EndsIn(xs[0].s, p, 0); }
    } else {
      RunIsSafe(xs[..n], es[..n - 1]);
      assert Step(xs[n - 1], es[n - 1], xs[n]);
      StepKeepsInv(xs[n - 1], es[n - 1], xs[n]);
    }
    ChainsEndIsAcyclic(xs[n].s);
  }

  /** What has arrived from p is a prefix of what p posted, at most one letter short. */
  lemma DeliveredAtMostOnce(xs: seq<Sys>, es: seq<Event>, p: Pid)
    requires IsRun(xs, es)
    ensures var x := xs[|es|];
      && From(x.delivered, p) <= From(x.sent, p)
      && Shape(x.s)
      && |From(x.sent, p)| == |From(x.delivered, p)| + (if x.s.st[p].Sending? then 1 else 0)
  {
    RunIsSafe(xs, es);
    var x := xs[|es|];
    assert From(x.sent, p) == From(x.delivered, p) + InFlight(x.s, p);
  }

  /** A blocked sender stays blocked, its message untouched, until that very message arrives at its destination. */
  lemma SenderWaitsForDelivery(x: Sys, e: Event, y: Sys, p: Pid)
    requires SysInv(x) && Step(x, e, y) && x.s.st[p].Sending?
    ensures y.s.st[p] == x.s.st[p] || y.s.st[p].Runnable?
    ensures y.s.st[p] == x.s.st[p] ==> InFlight(y.s, p) == InFlight(x.s, p)
    ensures y.s.st[p].Runnable? <==> y.delivered == x.delivered + InFlight(x.s, p)
  {
    match e {
      case Compute(_, _, _) =>
      case SendCall(q, dest, a) => SendInFlight(x.s, q, dest, a, p);
      case ReceiveCall(q, src, a) => ReceiveInFlight(x.s, q, src, a, p);
      case InterruptOf(_) =>
    }
    var got, due := Do(x.s, e).got, x.delivered + InFlight(x.s, p);
    assert y.delivered == x.delivered + Arrived(got);
    assert |due| == |x.delivered| + 1 && due[|x.delivered|].from == p;
    if got.Some? {
      assert y.delivered[|x.delivered|] == got.value;
    }
  }

  /** Receiving from ANY takes the sender that has been queued longest, and takes only it. */
  lemma TakesLongestQueued(x: Sys, p: Pid, a: Addr, y: Sys)
    requires SysInv(x) && Step(x, ReceiveCall(p, ANY, a), y)
    requires x.s.queue[p] != [] && !x.s.intr[p]
    ensures var q := x.s.queue[p][0];
      && y.delivered == x.delivered + InFlight(x.s, q)
      && y.s.queue[p] == x.s.queue[p][1..] && Load(y.s.mem[p], a) == InFlight(x.s, q)[0].msg
      && forall r: Pid :: x.s.st[r].Sending? && x.s.st[r].dest == p && r != q ==>
           LastPost(x.sent, q) < LastPost(x.sent, r) && y.s.st[r] == x.s.st[r]
  {
    var q := x.s.queue[p][0];
    WithoutAt(x.s.queue[p], 0);
    assert q in x.s.queue[p];
    forall r: Pid | x.s.st[r].Sending? && x.s.st[r].dest == p && r != q
      ensures LastPost(x.sent, q) < LastPost(x.sent, r) && y.s.st[r] == x.s.st[r]
    {
      assert r in x.s.queue[p];
      var k :| 0 <= k < |x.s.queue[p]| && x.s.queue[p][k] == r;
    }
  }

  /** Receiving from one process takes it out of the queue wherever it stands; the others keep their order. */
  lemma TakesTheNamedSender(x: Sys, p: Pid, src: Pid, a: Addr, y: Sys, k: nat)
    requires SysInv(x) && Step(x, ReceiveCall(p, src, a), y)
    requires k < |x.s.queue[p]| && x.s.queue[p][k] == src
    ensures y.s.queue == x.s.queue[p := x.s.queue[p][..k] + x.s.queue[p][k + 1..]]
    ensures y.delivered == x.delivered + InFlight(x.s, src)
    ensures Load(y.s.mem[p], a) == InFlight(x.s, src)[0].msg && y.s.intr == x.s.intr
  {
    WithoutAt(x.s.queue[p], k);
    assert src in x.s.queue[p];
  }

  // ----- The two ways a call can stop the system -----

  lemma {:induction false} PathSurvives(s: State, t: State, p: Pid, q: Pid, n: nat)
    requires Shape(s) && Shape(t) && Path(s, q, p, n) && !s.st[p].Sending?
    requires forall r: Pid :: r != p ==> t.st[r] == s.st[r]
    ensures Path(t, q, p, n)
    decreases n
  {
    if n > 0 { PathSurvives(s, t, p, s.st[q].dest, n - 1); }
  }

  /** The deadlock check refuses a message exactly when queueing its sender would close a cycle. */
  lemma DeadlockIsExact(s: State, p: Pid, dest: Pid, a: Addr)
    requires Inv(s) && s.st[p].Runnable? && p != dest
    ensures Send(s, p, dest, a).Deadlock? <==> !Acyclic(Become(s, p, Sending(dest, a)))
  {
    var t := Stamp(s, p, a);
    ComputeKeepsInv(s, p, a, Load(s.mem[p], a).(source := p));
    var u := Become(s, p, Sending(dest, a));
    var v := Become(t, p, Sending(dest, a));
    if Reaches(t, dest, p) {
      var n: nat :| Path(t, dest, p, n);
      PathSurvives(t, u, p, dest, n);
      assert Path(u, p, p, n + 1);
    } else {
      NewEdgeKeepsChains(t, u, p, dest);
      ChainsEndIsAcyclic(u);
    }
  }

  /**
   The receive path fails its last assertion exactly when an interrupt is pending and the caller asks
   for a process that is not sending to it; asking for ANY or INTERRUPT never fails.
   */
  lemma AssertionIsExact(s: State, p: Pid, src: int, a: Addr)
    requires Inv(s) && s.st[p].Runnable? && p != src && IsSource(src)
    ensures Receive(s, p, src, a).AssertionFailed?
      <==> s.intr[p] && src != ANY && src != INTERRUPT && src !in s.queue[p]
    ensures !Receive(s, p, src, a).Deadlock?
  {
    if s.queue[p] != [] {
      assert s.queue[p][0] in s.queue[p];
    }
  }

  /** The assertion fails after one interrupt: a process that has a pending one asks for another process first. */
  lemma AssertionFails(x: Sys, p: Pid, q: Pid, a: Addr)
    requires Init(x) && x.s.st[p].Runnable? && p != q
    ensures var y := Sys(Interrupt(x.s, p), [], []);
      IsRun([x, y], [InterruptOf(p)]) && Receive(y.s, p, q, a).AssertionFailed?
  {
    var y := Sys(Interrupt(x.s, p), [], []);
    assert IsRun([x], []);
    assert y == Sys(Interrupt(x.s, p), x.sent + [], x.delivered + []);
    assert Step(x, InterruptOf(p), y);
    assert !Chosen(Stamp(y.s, p, a), p, q).Some?;
  }

  // ----- Order independence -----

  /** p's message, stamped, in both buffers, and nobody blocked. */
  function Met(s: State, p: Pid, d: Pid, a: Addr, b: Addr): Effect
    requires Shape(s)
  {
    var m := Load(s.mem[p], a).(source := p);
    Done(Write(Write(s, p, a, m), d, b, m), Some(Letter(p, d, m)))
  }

  lemma NotBlockedReaches(s: State, d: Pid, p: Pid)
    requires Shape(s) && d != p && !s.st[d].Sending?
    ensures !Reaches(s, d, p)
  {
    forall n: nat ensures !Path(s, d, p, n) {}
  }

  lemma SendThenReceive(s: State, p: Pid, d: Pid, src: int, a: Addr, b: Addr)
    requires Inv(s) && p != d && s.st[p].Runnable? && s.st[d].Runnable? && (src == p || src == ANY)
    requires src == ANY ==> s.queue[d] == [] && !s.intr[d]
    ensures Send(s, p, d, a).Done? && Receive(Send(s, p, d, a).s, d, src, b) == Met(s, p, d, a, b)
  {
    var t := Stamp(s, p, a);
    NotBlockedReaches(t, d, p);
    var u := Send(s, p, d, a).s;
    assert u == Become(t, p, Sending(d, a)).(queue := t.queue[d := t.queue[d] + [p]]);
    assert p !in s.queue[d];
    WithoutAt(u.queue[d], |s.queue[d]|);
    assert Without(u.queue[d], p) == s.queue[d];
    var x := Receive(u, d, src, b).s;
    var m := Met(s, p, d, a, b).s;
    assert x.queue == m.queue;
    assert x.st == m.st;
    assert x.mem[d] == m.mem[d];
    assert x.mem == m.mem;
  }

  lemma ReceiveThenSend(s: State, p: Pid, d: Pid, src: int, a: Addr, b: Addr)
    requires Inv(s) && p != d && s.st[p].Runnable? && s.st[d].Runnable? && (src == p || src == ANY)
    requires !s.intr[d] && (src == ANY ==> s.queue[d] == [])
    ensures Receive(s, d, src, b).Done? && Send(Receive(s, d, src, b).s, p, d, a) == Met(s, p, d, a, b)
  {
    var v := Receive(s, d, src, b).s;
    assert v == Become(Stamp(s, d, b), d, Receiving(src, b));
    NotBlockedReaches(Stamp(v, p, a), d, p);
    var y := Send(v, p, d, a).s;
    var m := Met(s, p, d, a, b).s;
    assert y.st == m.st;
    assert y.mem[d] == m.mem[d];
    assert y.mem == m.mem;
  }

  /** Whichever of the two calls comes first, the same message is in place and nobody is left blocked. */
  lemma RendezvousCommutes(s: State, p: Pid, d: Pid, src: int, a: Addr, b: Addr)
    requires Inv(s) && p != d && s.st[p].Runnable? && s.st[d].Runnable?
    requires src == p || src == ANY
    requires !s.intr[d] && (src == ANY ==> s.queue[d] == [])
    ensures Send(s, p, d, a).Done? && Receive(s, d, src, b).Done?
    ensures Receive(Send(s, p, d, a).s, d, src, b) == Met(s, p, d, a, b) == Send(Receive(s, d, src, b).s, p, d, a)
  {
    SendThenReceive(s, p, d, src, a, b);
    ReceiveThenSend(s, p, d, src, a, b);
  }

  /**
   An interrupt just before a receive gives the task the same message, and the same state, as one just
   after it, exactly when the rest of the task's buffer is clear: a blocked task only has its source and
   type written. A plain RECEIVE clears the buffer first.
   */
  lemma InterruptCommutes(s: State, t: Pid, src: int, a: Addr)
    requires Inv(s) && s.st[t].Runnable? && !s.intr[t]
    requires src == INTERRUPT || (src == ANY && s.queue[t] == [])
    ensures var receiveFirst := Receive(s, t, src, a);
      var interruptFirst := Receive(Interrupt(s, t), t, src, a);
      && receiveFirst.Done? && interruptFirst.Done? && interruptFirst.got == None
      && (interruptFirst.s == Interrupt(receiveFirst.s, t) <==> Load(s.mem[t], a).u == ZERO.u)
  {
    var x := Receive(Interrupt(s, t), t, src, a).s;
    var y := Interrupt(Receive(s, t, src, a).s, t);
    assert x.st == s.st == y.st;
    assert x.intr == s.intr == y.intr;
    assert Load(x.mem[t], a) == HARDWARE;
    assert Load(y.mem[t], a) == HARDWARE.(u := Load(s.mem[t], a).u);
    if Load(s.mem[t], a).u == ZERO.u {
      assert x.mem == y.mem;
    }
  }
}
