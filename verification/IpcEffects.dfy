/** What one system call changes, place by place: the view programs built on message passing are reasoned with. */
module IpcEffects {
  import opened Ipc
  import opened IpcProofs

  /** t has the messages of s except for m at address a of p. */
  ghost predicate OneWritten(s: State, t: State, p: Pid, a: Addr, m: Message)
    requires Shape(s) && Shape(t)
  {
    forall q: Pid, b: Addr :: Load(t.mem[q], b) == if q == p && b == a then m else Load(s.mem[q], b)
  }

  /** A message that is sent is either in the receiver's buffer at once, or its sender blocks holding it. */
  ghost predicate Sent(s: State, t: State, p: Pid, d: Pid, a: Addr) {
    && Inv(s) && Inv(t) && Shape(s) && Shape(t) && t.intr == s.intr
    && var m := Load(s.mem[p], a).(source := p);
       if Awaits(s, d, p) then
         && t.st == s.st[d := Runnable]
         && forall q: Pid, b: Addr ::
              Load(t.mem[q], b) == if (q == p && b == a) || (q == d && b == s.st[d].buf) then m else Load(s.mem[q], b)
       else t.st == s.st[p := Sending(d, a)] && OneWritten(s, t, p, a, m)
  }

  lemma SendEffect(s: State, p: Pid, d: Pid, a: Addr)
    requires Inv(s) && s.st[p].Runnable? && p != d && Send(s, p, d, a).Done?
    ensures Sent(s, Send(s, p, d, a).s, p, d, a)
  {
    SendKeepsInv(s, p, d, a);
  }

  /** A receive takes an interrupt, or the message of a chosen sender, or blocks. */
  ghost predicate Received(s: State, t: State, p: Pid, src: int, a: Addr) {
    && Inv(s) && Inv(t) && Shape(s) && Shape(t)
    && if s.intr[p] && (src == ANY || src == INTERRUPT) then
         t.st == s.st && OneWritten(s, t, p, a, HARDWARE) && t.intr == s.intr[p := false]
       else
         && t.intr == s.intr
         && match Chosen(s, p, src)
            case Some(q) => s.st[q].Sending? && s.st[q].dest == p && t.st == s.st[q := Runnable]
              && OneWritten(s, t, p, a, Load(s.mem[q], s.st[q].buf))
            case None => t.st == s.st[p := Receiving(src, a)] && OneWritten(s, t, p, a, Load(s.mem[p], a).(source := p))
  }

  lemma ReceiveEffect(s: State, p: Pid, src: int, a: Addr)
    requires Inv(s) && s.st[p].Runnable? && p != src && IsSource(src) && Receive(s, p, src, a).Done?
    ensures Received(s, Receive(s, p, src, a).s, p, src, a)
  {
    ReceiveKeepsInv(s, p, src, a);
    if src == ANY && s.queue[p] != [] { assert s.queue[p][0] in s.queue[p]; }
  }

  lemma WriteEffect(s: State, p: Pid, a: Addr, m: Message)
    requires Inv(s)
    ensures Inv(Write(s, p, a, m)) && Shape(Write(s, p, a, m)) && OneWritten(s, Write(s, p, a, m), p, a, m)
    ensures Write(s, p, a, m).st == s.st && Write(s, p, a, m).intr == s.intr && Write(s, p, a, m).queue == s.queue
  {
    ComputeKeepsInv(s, p, a, m);
  }

  lemma InterruptEffect(s: State, t: Pid)
    requires Inv(s)
    ensures Inv(Interrupt(s, t)) && Shape(Interrupt(s, t))
    ensures if AwaitsInterrupt(s, t) then
        && Interrupt(s, t).st == s.st[t := Runnable] && Interrupt(s, t).intr == s.intr[t := false]
        && OneWritten(s, Interrupt(s, t), t, s.st[t].buf,
                      Load(s.mem[t], s.st[t].buf).(source := INTERRUPT, mtype := HARD_INT))
      else Interrupt(s, t).st == s.st && Interrupt(s, t).intr == s.intr[t := true] && Interrupt(s, t).mem == s.mem
  {
    InterruptKeepsInv(s, t);
  }
}
