/**
 A terminal: the ring of keys that have been typed, and the line discipline that drains it into the buffer of the
 process that reads.
 */
module Tty {
  import opened Config

  const TTY_IN_BYTES: nat := 256
  const TTY_OUT_BUF_LEN: nat := 2

  /** What the terminal sends to the task that asked it. */
  datatype Reply = Suspend(dest: int, cnt: nat) | Resume(dest: int, proc: int, cnt: nat) | Return(dest: int)

  // ----- The line discipline -----

  /** The character in a key: its low byte. */
  function Ch(key: int): int { key % 0x100 }

  predicate Printable(c: int) { 32 <= c <= 126 }

  /** A line after one more key: printable characters are kept, a backspace drops the last one kept. */
  function Edit(line: seq<int>, c: int): seq<int> {
    if Printable(c) then line + [c]
    else if c == BACKSPACE && line != [] then line[..|line| - 1]
    else line
  }

  /** The line a sequence of keys makes. */
  function Line(keys: seq<int>): seq<int> {
    if keys == [] then [] else Edit(Line(keys[..|keys| - 1]), Ch(keys[|keys| - 1]))
  }

  /** What is echoed for it. */
  function Echo(keys: seq<int>): seq<int> {
    if keys == [] then []
    else
      var before, c := keys[..|keys| - 1], Ch(keys[|keys| - 1]);
      Echo(before) + if Printable(c) || (c == BACKSPACE && Line(before) != []) then [c] else []
  }

  /** The last of the keys completes a read of n characters. */
  predicate Ends(n: nat, keys: seq<int>) {
    keys != [] && (Ch(keys[|keys| - 1]) == NEWLINE || |Line(keys)| == n)
  }

  /** No key before the end completes it. */
  ghost predicate Unfinished(n: nat, keys: seq<int>) {
    forall k :: 0 <= k <= |keys| ==> !Ends(n, keys[..k])
  }

  /** How many of the keys, after those already taken, are taken until the read is complete. */
  function Upto(n: nat, taken: seq<int>, keys: seq<int>): nat
    decreases |keys|
  {
    if keys == [] then 0
    else if Ends(n, taken + [keys[0]]) then 1
    else 1 + Upto(n, taken + [keys[0]], keys[1..])
  }

  lemma LineOf(keys: seq<int>, k: int)
    ensures Line(keys + [k]) == Edit(Line(keys), Ch(k))
    ensures Echo(keys + [k])
      == Echo(keys) + if Printable(Ch(k)) || (Ch(k) == BACKSPACE && Line(keys) != []) then [Ch(k)] else []
  {
    assert (keys + [k])[..|keys|] == keys;
  }

  /** A key that stands for a character from the blank to the tilde. */
  predicate IsText(key: int) { ' ' as int <= key % 0x100 <= '~' as int }

  /** The characters of keys, one by one. */
  function Chars(keys: seq<int>): (r: seq<int>)
    ensures |r| == |keys| && forall i :: 0 <= i < |keys| ==> r[i] == keys[i] % 0x100
  {
    seq(|keys|, i requires 0 <= i < |keys| => keys[i] % 0x100)
  }

  /** What a key does to a line: text is appended, a backspace takes the last character, anything else does nothing. */
  lemma KeyEdits(keys: seq<int>, key: int)
    ensures IsText(key) ==> Line(keys + [key]) == Line(keys) + [key % 0x100]
    ensures key % 0x100 == 8 ==> Line(keys + [key]) == if Line(keys) == [] then [] else Line(keys)[..|Line(keys)| - 1]
    ensures !IsText(key) && key % 0x100 != 8 ==> Line(keys + [key]) == Line(keys)
  {
    LineOf(keys, key);
  }

  /** Text that is typed is the line, character by character. */
  lemma {:induction false} TextIsLine(keys: seq<int>)
    requires forall i :: 0 <= i < |keys| ==> IsText(keys[i])
    ensures Line(keys) == Chars(keys)
  {
    if keys != [] {
      var n := |keys| - 1;
      TextIsLine(keys[..n]);
      KeyEdits(keys[..n], keys[n]);
      assert keys == keys[..n] + [keys[n]];
    }
  }

  /** A read for more characters than a line of text has is ended by the newline behind it, and by nothing before. */
  lemma {:induction false} TextEndsWithNewline(n: nat, keys: seq<int>, key: int)
    requires (forall i :: 0 <= i < |keys| ==> IsText(keys[i])) && |keys| < n && key % 0x100 == '\n' as int
    ensures Ends(n, keys + [key]) && Unfinished(n, keys) && Line(keys + [key]) == Chars(keys)
  {
    TextIsLine(keys);
    KeyEdits(keys, key);
    forall k | 0 <= k <= |keys| ensures !Ends(n, keys[..k]) {
      if k > 0 {
        TextIsLine(keys[..k]);
        assert IsText(keys[k - 1]);
      }
    }
  }

  /** A text of as many characters as are read ends the read by itself. */
  lemma TextFillsRead(keys: seq<int>)
    requires (forall i :: 0 <= i < |keys| ==> IsText(keys[i])) && keys != []
    ensures Ends(|keys|, keys) && Unfinished(|keys|, keys[..|keys| - 1])
  {
    TextIsLine(keys);
    var n := |keys| - 1;
    forall k | 0 <= k <= n ensures !Ends(|keys|, keys[..n][..k]) {
      assert keys[..n][..k] == keys[..k];
      if k > 0 {
        TextIsLine(keys[..k]);
        assert IsText(keys[k - 1]);
      }
    }
  }

  /** What is echoed for the keys, typed again, gives the same line. */
  lemma {:induction false} EchoIsLine(keys: seq<int>)
    ensures Line(Echo(keys)) == Line(keys)
  {
    if keys != [] {
      var n := |keys| - 1;
      var before, key := keys[..n], keys[n];
      EchoIsLine(before);
      LineOf(before, key);
      assert keys == before + [key];
      if Printable(Ch(key)) || (Ch(key) == BACKSPACE && Line(before) != []) {
        LineOf(Echo(before), Ch(key));
      } else {
        assert Echo(before) + [] == Echo(before);
      }
    }
  }

  /** A key is echoed exactly when it changes the line. */
  lemma EchoShowsChanges(keys: seq<int>, key: int)
    ensures Echo([]) == []
    ensures Echo(keys + [key]) == Echo(keys) + if Line(keys + [key]) != Line(keys) then [key % 0x100] else []
  {
    hide Line;
    KeyEdits(keys, key);
    assert (keys + [key])[..|keys|] == keys;
    if IsText(key) { assert |Line(keys + [key])| > |Line(keys)|; }
  }

  lemma {:induction false} UptoBounds(n: nat, taken: seq<int>, keys: seq<int>)
    ensures Upto(n, taken, keys) <= |keys|
    ensures Upto(n, taken, keys) < |keys| ==> Ends(n, taken + keys[..Upto(n, taken, keys)])
    decreases |keys|
  {
    hide Ends;
    if keys != [] {
      var t := taken + [keys[0]];
      UptoBounds(n, t, keys[1..]);
      var m := Upto(n, taken, keys);
      assert m >= 1 && keys[..m] == [keys[0]] + keys[1..][..m - 1];
      assert taken + keys[..m] == t + keys[1..][..m - 1];
      if m == 1 { assert keys[1..][..0] == []; assert t + [] == t; }
    }
  }

  /** No key before the last one taken ends the read. */
  lemma {:induction false} TakesNoLonger(n: nat, taken: seq<int>, keys: seq<int>, k: nat)
    requires 0 < k < Upto(n, taken, keys)
    ensures k < |keys| && !Ends(n, taken + keys[..k])
    decreases |keys|
  {
    hide Ends;
    UptoBounds(n, taken, keys);
    var t := taken + [keys[0]];
    assert keys[..1] == [keys[0]];
    if k > 1 {
      TakesNoLonger(n, t, keys[1..], k - 1);
      assert taken + keys[..k] == t + keys[1..][..k - 1];
    }
  }

  /** And the first that does is the last one taken. */
  lemma {:induction false} TakesUpTo(n: nat, taken: seq<int>, keys: seq<int>, m: nat)
    requires 0 < m <= |keys| && Ends(n, taken + keys[..m])
    requires forall k :: 0 < k < m ==> !Ends(n, taken + keys[..k])
    ensures Upto(n, taken, keys) == m
    decreases |keys|
  {
    hide Ends;
    var t := taken + [keys[0]];
    assert keys[..1] == [keys[0]];
    if m > 1 {
      assert !Ends(n, taken + keys[..1]);
      assert taken + keys[..m] == t + keys[1..][..m - 1];
      forall k | 0 < k < m - 1 ensures !Ends(n, t + keys[1..][..k]) {
        assert taken + keys[..k + 1] == t + keys[1..][..k];
      }
      TakesUpTo(n, t, keys[1..], m - 1);
    }
  }

  /** The keys a read takes. */
  function Taken(n: nat, taken: seq<int>, keys: seq<int>): seq<int> {
    UptoBounds(n, taken, keys);
    keys[..Upto(n, taken, keys)]
  }

  /**
   A line of text, typed before or while it is read, is taken with the newline behind it, for a read of more characters,
   and the keys behind that are not; the line is the text.
   */
  lemma TextIsTaken(n: nat, keys: seq<int>, key: int, rest: seq<int>)
    requires (forall i :: 0 <= i < |keys| ==> IsText(keys[i])) && |keys| < n && key % 0x100 == '\n' as int
    ensures Taken(n, [], keys + [key] + rest) == keys + [key]
    ensures Ends(n, keys + [key]) && Line(keys + [key]) == Chars(keys)
  {
    hide Ends, Line;
    TextEndsWithNewline(n, keys, key);
    var all, m := keys + [key] + rest, |keys| + 1;
    assert [] + all[..m] == keys + [key] == all[..m];
    forall k | 0 < k < m ensures !Ends(n, [] + all[..k]) { assert [] + all[..k] == keys[..k]; }
    TakesUpTo(n, [], all, m);
  }

  lemma TakenStep(n: nat, taken: seq<int>, keys: seq<int>)
    requires keys != []
    ensures Taken(n, taken, keys) == keys[..1]
      + if Ends(n, taken + keys[..1]) then [] else Taken(n, taken + keys[..1], keys[1..])
  {
    hide Ends;
    assert keys[..1] == [keys[0]];
    var k := Upto(n, taken + [keys[0]], keys[1..]);
    UptoBounds(n, taken + [keys[0]], keys[1..]);
    assert keys[..1 + k] == keys[..1] + keys[1..][..k];
  }

  lemma NothingTaken(n: nat, taken: seq<int>)
    ensures Taken(n, taken, []) == []
  {
  }

  // ----- The ring -----

  /** The index i places behind `tail`. */
  function Wrap(tail: nat, i: nat): nat { if tail + i < TTY_IN_BYTES then tail + i else tail + i - TTY_IN_BYTES }

  /** The ring holds the queue: its first key at the tail, and the next free slot at the head. */
  ghost predicate RingOk(ring: seq<int>, head: nat, tail: nat, cnt: nat, queue: seq<int>) {
    && |ring| == TTY_IN_BYTES && head < TTY_IN_BYTES && tail < TTY_IN_BYTES && cnt == |queue| <= TTY_IN_BYTES
    && head == Wrap(tail, cnt) && forall i: nat :: i < cnt ==>
      0 <= Wrap(tail, i) < TTY_IN_BYTES && queue[i] == ring[Wrap(tail, i)]
  }

  lemma RingFacts(ring: seq<int>, head: nat, tail: nat, cnt: nat, queue: seq<int>)
    requires RingOk(ring, head, tail, cnt, queue)
    ensures |ring| == TTY_IN_BYTES && head < TTY_IN_BYTES && tail < TTY_IN_BYTES && cnt == |queue|
  {
  }

  lemma RingPut(ring: seq<int>, head: nat, tail: nat, cnt: nat, queue: seq<int>, key: int)
    requires RingOk(ring, head, tail, cnt, queue) && cnt < TTY_IN_BYTES
    ensures RingOk(ring[head := key], if head + 1 == TTY_IN_BYTES then 0 else head + 1, tail, cnt + 1, queue + [key])
  {
    forall i: nat | i < cnt ensures Wrap(tail, i) != head {}
  }

  lemma RingTake(ring: seq<int>, head: nat, tail: nat, cnt: nat, queue: seq<int>)
    requires RingOk(ring, head, tail, cnt, queue) && cnt > 0
    ensures ring[tail] == queue[0]
      && RingOk(ring, head, if tail + 1 == TTY_IN_BYTES then 0 else tail + 1, cnt - 1, queue[1..])
  {
    var t := if tail + 1 == TTY_IN_BYTES then 0 else tail + 1;
    assert Wrap(tail, 0) == tail;
    forall i: nat | i < cnt - 1 ensures queue[1..][i] == ring[Wrap(t, i)] {
      var j := i + 1;
      assert Wrap(t, i) == Wrap(tail, j);
    }
  }

  // ----- The open read -----

  /** The buffer holds the line made so far, and what is left is what was asked for less that. */
  ghost predicate LineOk(buf: seq<int>, n: nat, taken: seq<int>, left: nat, trans: nat, before: seq<int>,
                         shown: seq<int>) {
    && n <= |buf| && left + trans == n && trans == |Line(taken)| && buf[..trans] == Line(taken)
    && shown == before + Echo(taken)
  }

  ghost predicate ReadOk(buf: seq<int>, n: nat, taken: seq<int>, left: nat, trans: nat, before: seq<int>,
                         shown: seq<int>) {
    LineOk(buf, n, taken, left, trans, before, shown) && Unfinished(n, taken)
  }

  lemma FreshRead(buf: seq<int>, n: nat, shown: seq<int>)
    requires n <= |buf|
    ensures ReadOk(buf, n, [], n, 0, shown, shown)
  {
    assert shown + [] == shown;
  }

  lemma KeepKey(buf: seq<int>, n: nat, taken: seq<int>, left: nat, trans: nat, before: seq<int>, shown: seq<int>,
                key: int)
    requires LineOk(buf, n, taken, left, trans, before, shown) && left > 0 && Printable(Ch(key))
    ensures LineOk(buf[trans := Ch(key)], n, taken + [key], left - 1, trans + 1, before, shown + [Ch(key)])
  {
    LineOf(taken, key);
    assert buf[trans := Ch(key)][..trans + 1] == buf[..trans] + [Ch(key)];
  }

  lemma RubOut(buf: seq<int>, n: nat, taken: seq<int>, left: nat, trans: nat, before: seq<int>, shown: seq<int>,
               key: int)
    requires LineOk(buf, n, taken, left, trans, before, shown) && Ch(key) == BACKSPACE && trans > 0
    ensures LineOk(buf, n, taken + [key], left + 1, trans - 1, before, shown + [Ch(key)])
  {
    LineOf(taken, key);
    assert buf[..trans - 1] == buf[..trans][..trans - 1];
  }

  lemma IgnoreKey(buf: seq<int>, n: nat, taken: seq<int>, left: nat, trans: nat, before: seq<int>, shown: seq<int>,
                  key: int)
    requires LineOk(buf, n, taken, left, trans, before, shown) && !Printable(Ch(key))
      && (Ch(key) == BACKSPACE ==> trans == 0)
    ensures LineOk(buf, n, taken + [key], left, trans, before, shown)
  {
    LineOf(taken, key);
  }

  lemma FitsBuffer(buf: seq<int>, n: nat, taken: seq<int>, left: nat, trans: nat, before: seq<int>, shown: seq<int>)
    requires LineOk(buf, n, taken, left, trans, before, shown) && left > 0
    ensures trans < |buf|
  {
  }

  lemma NotEnded(buf: seq<int>, n: nat, taken: seq<int>, left: nat, trans: nat, before: seq<int>, shown: seq<int>)
    requires ReadOk(buf, n, taken, left, trans, before, shown)
    ensures !Ends(n, taken)
  {
    assert taken[..|taken|] == taken;
  }

  lemma LineIsBuffer(buf: seq<int>, n: nat, taken: seq<int>, left: nat, trans: nat, before: seq<int>, shown: seq<int>)
    requires LineOk(buf, n, taken, left, trans, before, shown)
    ensures trans == |Line(taken)| <= n <= |buf| && buf[..trans] == Line(taken) && shown == before + Echo(taken)
  {
  }

  lemma UnfinishedOn(n: nat, taken: seq<int>, key: int)
    requires Unfinished(n, taken) && !Ends(n, taken + [key])
    ensures Unfinished(n, taken + [key])
  {
    hide Ends;
    var t := taken + [key];
    forall k | 0 <= k <= |t| ensures !Ends(n, t[..k]) {
      if k <= |taken| { assert t[..k] == taken[..k]; } else { assert t[..k] == t; }
    }
  }

  /** Whether the key ends the read is what the code tests: a newline, or nothing left. */
  lemma EndsWhenNothingLeft(buf: seq<int>, n: nat, taken: seq<int>, left: nat, trans: nat, before: seq<int>,
                            shown: seq<int>)
    requires LineOk(buf, n, taken, left, trans, before, shown) && taken != []
    ensures Ends(n, taken) <==> Ch(taken[|taken| - 1]) == NEWLINE || left == 0
  {
    hide Line, Echo;
  }

  class Terminal {
    const ibuf: array<int>
    var head: nat
    var tail: nat
    var cnt: nat
    var caller: int
    var procNr: int
    var reqBuf: array<int>
    var leftCnt: nat
    var transCnt: nat
    /** The replies sent and the characters shown so far. */
    var sent: seq<Reply>
    var shown: seq<int>
    /**
     The keys in the ring; and, for the read that is open, its length, the keys taken for it and what was shown
     before.
     */
    ghost var queue: seq<int>
    ghost var requested: nat
    ghost var taken: seq<int>
    ghost var shownBefore: seq<int>

    ghost predicate Valid()
      reads this, ibuf, reqBuf
    {
      && ibuf != reqBuf && RingOk(ibuf[..], head, tail, cnt, queue)
      && (leftCnt > 0 ==> ReadOk(reqBuf[..], requested, taken, leftCnt, transCnt, shownBefore, shown))
    }

    constructor (buf: array<int>)
      ensures Valid() && fresh(ibuf) && queue == [] && leftCnt == 0 && sent == [] && shown == []
    {
      ibuf := new int[TTY_IN_BYTES](_ => 0);
      head, tail, cnt, caller, procNr, leftCnt, transCnt := 0, 0, 0, 0, 0, 0, 0;
      reqBuf, sent, shown, queue, requested, taken, shownBefore := buf, [], [], [], 0, [], [];
    }

    /** A key arrives: it is queued, or lost when the ring is full. */
    method PutKey(key: int)
      requires Valid()
      modifies ibuf, `head, `cnt, `queue
      ensures Valid() && queue == if |old(queue)| < TTY_IN_BYTES then old(queue) + [key] else old(queue)
    {
      hide RingOk, ReadOk;
      RingFacts(ibuf[..], head, tail, cnt, queue);
      if cnt < TTY_IN_BYTES {
        RingPut(ibuf[..], head, tail, cnt, queue, key);
        ibuf[head] := key;
        head := head + 1;
        if head == TTY_IN_BYTES {
          head := 0;
        }
        cnt := cnt + 1;
        queue := queue + [key];
      }
    }

    method TakeKey() returns (key: int)
      requires Valid() && cnt > 0
      modifies `tail, `cnt, `queue
      ensures Valid() && old(queue) == [key] + queue
    {
      hide RingOk, ReadOk;
      RingFacts(ibuf[..], head, tail, cnt, queue);
      RingTake(ibuf[..], head, tail, cnt, queue);
      key := ibuf[tail];
      tail := tail + 1;
      if tail == TTY_IN_BYTES {
        tail := 0;
      }
      cnt := cnt - 1;
      queue := queue[1..];
    }

    /** A read request: remember the reader, forget any read that was open, and tell the caller to suspend. */
    method DoRead(source: int, proc: int, buf: array<int>, count: nat)
      requires Valid() && buf != ibuf && count <= buf.Length
      modifies this
      ensures queue == old(queue) && shown == old(shown)
      ensures Valid() && caller == source && procNr == proc && reqBuf == buf && leftCnt == count && transCnt == 0
      ensures requested == count && taken == [] && shownBefore == shown && sent == old(sent) + [Suspend(source, count)]
    {
      hide RingOk, ReadOk;
      ghost var ring := ibuf[..];
      caller, procNr, reqBuf := source, proc, buf;
      leftCnt, transCnt := count, 0;
      requested, taken, shownBefore := count, [], shown;
      FreshRead(reqBuf[..], count, shown);
      sent := sent + [Suspend(source, leftCnt)];
      assert ibuf[..] == ring;
    }

    method OutChar(c: int)
      modifies `shown
      ensures shown == old(shown) + [c]
    {
      shown := shown + [c];
    }

    /** The read has just been answered, with the line its keys made. */
    ghost predicate Completed(before: seq<Reply>)
      reads this, reqBuf
    {
      && Ends(requested, taken) && |Line(taken)| <= requested && |Line(taken)| <= reqBuf.Length
      && reqBuf[..|Line(taken)|] == Line(taken)
      && sent == before + [Resume(caller, procNr, |Line(taken)|)] && shown == shownBefore + Echo(taken) + [NEWLINE]
    }

    /**
     One key out of the ring. With no read open it is dropped. Otherwise it joins the line, and where it completes the
     read the reader is resumed with what its buffer then holds.
     */
    method DrainKey()
      requires Valid() && cnt > 0
      modifies this, reqBuf
      ensures reqBuf == old(reqBuf) && requested == old(requested) && caller == old(caller) && procNr == old(procNr)
      ensures shownBefore == old(shownBefore)
      ensures Valid() && old(queue) == old(queue[..1]) + queue
      ensures old(leftCnt) == 0 ==> leftCnt == 0 && sent == old(sent) && shown == old(shown)
      ensures old(leftCnt) == 0 ==> taken == old(taken) && reqBuf[..] == old(reqBuf[..])
      ensures old(leftCnt) > 0 ==> taken == old(taken) + old(queue)[..1]
      ensures old(leftCnt) > 0 ==> (leftCnt > 0 <==> !Ends(requested, taken)) && (leftCnt > 0 ==> sent == old(sent))
      ensures old(leftCnt) > 0 && leftCnt == 0 ==> Completed(old(sent))
    {
      hide RingOk, LineOk, Unfinished, Line, Echo, Ends;
      var key := TakeKey();
      if leftCnt > 0 {
        EditLine(key);
        ghost var t := taken;
        taken := taken + [key];
        EndsWhenNothingLeft(reqBuf[..], requested, taken, leftCnt, transCnt, shownBefore, shown);
        if Ch(key) == NEWLINE || leftCnt == 0 {
          LineIsBuffer(reqBuf[..], requested, taken, leftCnt, transCnt, shownBefore, shown);
          OutChar(NEWLINE);
          sent := sent + [Resume(caller, procNr, transCnt)];
          leftCnt := 0;
        } else {
          UnfinishedOn(requested, t, key);
        }
      }
    }

    /** What one key does to the line in the buffer of the reader. */
    method EditLine(key: int)
      requires leftCnt > 0 && LineOk(reqBuf[..], requested, taken, leftCnt, transCnt, shownBefore, shown)
      modifies `leftCnt, `transCnt, `shown, reqBuf
      ensures LineOk(reqBuf[..], requested, taken + [key], leftCnt, transCnt, shownBefore, shown)
    {
      hide LineOk, Line, Echo;
      ghost var b := reqBuf[..];
      var c := Ch(key);
      if Printable(c) {
        KeepKey(b, requested, taken, leftCnt, transCnt, shownBefore, shown, key);
        FitsBuffer(b, requested, taken, leftCnt, transCnt, shownBefore, shown);
        OutChar(c);
        reqBuf[transCnt] := c;
        assert reqBuf[..] == b[transCnt := c];
        transCnt := transCnt + 1;
        leftCnt := leftCnt - 1;
      } else if c == BACKSPACE && transCnt > 0 {
        RubOut(b, requested, taken, leftCnt, transCnt, shownBefore, shown, key);
        OutChar(c);
        transCnt := transCnt - 1;
        leftCnt := leftCnt + 1;
      } else {
        IgnoreKey(b, requested, taken, leftCnt, transCnt, shownBefore, shown, key);
      }
    }

    /**
     Drain the ring. An open read takes the keys up to the one that completes it; all the others, and all of them when
     no read is open, are lost.
     */
    method DevWrite()
      requires Valid()
      modifies this, reqBuf
      ensures Valid() && queue == [] && reqBuf == old(reqBuf) && requested == old(requested)
      ensures shownBefore == old(shownBefore)
      ensures old(leftCnt) == 0 ==>
        leftCnt == 0 && sent == old(sent) && shown == old(shown)
        && reqBuf[..] == old(reqBuf[..])
      ensures old(leftCnt) > 0 ==> taken == old(taken) + Taken(requested, old(taken), old(queue))
      ensures old(leftCnt) > 0 ==>
        if Ends(requested, taken) then leftCnt == 0 && Completed(old(sent)) else leftCnt > 0 && sent == old(sent)
    {
      hide RingOk, ReadOk, Ends, Line, Echo, Upto;
      ghost var q0, t0, s0, n, open, b0 := queue, taken, sent, requested, leftCnt > 0, reqBuf[..];
      ghost var u := [];
      RingFacts(ibuf[..], head, tail, cnt, queue);
      if open { NotEnded(reqBuf[..], requested, taken, leftCnt, transCnt, shownBefore, shown); }
      UptoBounds(n, t0, q0);
      assert t0 + u == t0;
      while cnt > 0
        invariant Valid() && cnt == |queue| && reqBuf == old(reqBuf) && requested == n
        invariant shownBefore == old(shownBefore)
        invariant !open ==> leftCnt == 0 && sent == s0 && shown == old(shown) && reqBuf[..] == b0
        invariant open ==> taken == t0 + u
        invariant open && leftCnt > 0 ==>
          sent == s0 && !Ends(n, taken)
          && u + Taken(n, taken, queue) == Taken(n, t0, q0)
        invariant open && leftCnt == 0 ==> Completed(s0) && u == Taken(n, t0, q0)
        decreases cnt
      {
        ghost var t1, q1, wasOpen := taken, queue, leftCnt > 0;
        DrainKey();
        RingFacts(ibuf[..], head, tail, cnt, queue);
        if open && wasOpen {
          TakenStep(n, t1, q1);
          u := u + q1[..1];
        }
      }
      NothingTaken(n, taken);
    }

    /** A write request: the bytes go to the screen in order, a few at a time, and the writer is answered. */
    method DoWrite(source: int, data: seq<int>)
      modifies `shown, `sent
      ensures shown == old(shown) + data && sent == old(sent) + [Return(source)]
    {
      var p := 0;
      while p < |data|
        invariant 0 <= p <= |data| && shown == old(shown) + data[..p] && sent == old(sent)
      {
        var bytes := if TTY_OUT_BUF_LEN < |data| - p then TTY_OUT_BUF_LEN else |data| - p;
        var buf := data[p..p + bytes];
        var j := 0;
        while j < bytes
          invariant 0 <= j <= bytes && shown == old(shown) + data[..p + j] && sent == old(sent)
        {
          OutChar(buf[j]);
          assert data[..p + j + 1] == data[..p + j] + [buf[j]];
          j := j + 1;
        }
        p := p + bytes;
      }
      sent := sent + [Return(source)];
      assert data[..p] == data;
    }
  }

  // ----- What a line is -----

  /** How far the printable characters among the keys from i to j outnumber the backspaces. */
  function Balance(keys: seq<int>, i: nat, j: nat): int
    requires i <= j <= |keys|
    decreases j - i
  {
    if i == j then 0
    else
      var c := Ch(keys[j - 1]);
      Balance(keys, i, j - 1) + if Printable(c) then 1 else if c == BACKSPACE then -1 else 0
  }

  /** Up to j, the backspaces after key i have been used up by later characters. */
  ghost predicate Survives(keys: seq<int>, i: nat, j: nat) {
    i < j <= |keys| && Balance(keys, i + 1, j) >= 0
  }

  /** Among the first n keys, key i is kept: it is printable and survives throughout. */
  ghost predicate Kept(keys: seq<int>, n: nat, i: nat) {
    i < n <= |keys| && Printable(Ch(keys[i])) && forall j: nat :: i < j <= n ==> Survives(keys, i, j)
  }

  /** The places of the characters that make the line of the first n keys. */
  ghost function Places(keys: seq<int>, n: nat): seq<nat>
    requires n <= |keys|
  {
    if n == 0 then []
    else
      var p, c := Places(keys, n - 1), Ch(keys[n - 1]);
      if Printable(c) then p + [n - 1] else if c == BACKSPACE && p != [] then p[..|p| - 1] else p
  }

  /** The places are in order, and from each of them on the balance is what stands after it. */
  lemma {:induction false} PlacesInOrder(keys: seq<int>, n: nat)
    requires n <= |keys|
    ensures forall t :: 0 <= t < |Places(keys, n)| ==> Places(keys, n)[t] < n
    ensures forall t, u :: 0 <= t < u < |Places(keys, n)| ==> Places(keys, n)[t] < Places(keys, n)[u]
    ensures forall t :: 0 <= t < |Places(keys, n)| ==>
      Balance(keys, Places(keys, n)[t] + 1, n) == |Places(keys, n)| - 1 - t
  {
    if n > 0 { PlacesInOrder(keys, n - 1); }
  }

  lemma KeptStep(keys: seq<int>, n: nat, i: nat)
    requires 0 < n <= |keys| && i < n
    ensures Kept(keys, n, i) <==>
      if i == n - 1 then Printable(Ch(keys[i])) else Kept(keys, n - 1, i) && Balance(keys, i + 1, n) >= 0
  {
    hide Balance, Printable, Ch;
    if i == n - 1 {
      assert Survives(keys, i, n) by { SurvivesItself(keys, i); }
    } else {
      assert Survives(keys, i, n) <==> Balance(keys, i + 1, n) >= 0;
    }
  }

  lemma SurvivesItself(keys: seq<int>, i: nat)
    requires i < |keys|
    ensures Survives(keys, i, i + 1)
  {
  }

  /** Going from m keys to m + 1 keeps place p[t] exactly when its balance does not fall below zero. */
  lemma PlacesStep(keys: seq<int>, m: nat, i: nat)
    requires m < |keys| && i < m
    ensures i in Places(keys, m + 1) <==> i in Places(keys, m) && Balance(keys, i + 1, m + 1) >= 0
  {
    hide Printable, Ch, Balance;
    PlacesInOrder(keys, m);
    BalanceStep(keys, i + 1, m);
    var p := Places(keys, m);
    var n := m + 1;
    assert Places(keys, n) ==
      if Printable(Ch(keys[m])) then p + [m] else if Ch(keys[m]) == BACKSPACE && p != [] then p[..|p| - 1] else p;
    if t :| 0 <= t < |p| && p[t] == i {
      assert Balance(keys, i + 1, m) == |p| - 1 - t;
      if t < |p| - 1 { assert p[..|p| - 1][t] == i; }
    }
  }

  lemma BalanceStep(keys: seq<int>, i: nat, m: nat)
    requires i <= m < |keys|
    ensures Balance(keys, i, m + 1)
      == Balance(keys, i, m) + if Printable(Ch(keys[m])) then 1 else if Ch(keys[m]) == BACKSPACE then -1 else 0
  {
  }

  /** The line is made of exactly the kept keys: no backspace rule is left in what it means to be kept. */
  lemma {:induction false} PlacesAreKept(keys: seq<int>, n: nat, i: nat)
    requires n <= |keys|
    ensures i in Places(keys, n) <==> Kept(keys, n, i)
  {
    hide Balance, Printable, Survives, Ch, Kept;
    if n > 0 {
      var m := n - 1;
      PlacesInOrder(keys, n);
      if i < n { KeptStep(keys, n, i); }
      if i < m {
        PlacesAreKept(keys, m, i);
        PlacesStep(keys, m, i);
      }
      if i == m { LastPlace(keys, m); }
    }
    KeptIsBelow(keys, n, i);
  }

  lemma LastPlace(keys: seq<int>, m: nat)
    requires m < |keys|
    ensures m in Places(keys, m + 1) <==> Printable(Ch(keys[m]))
  {
    hide Printable, Ch;
    PlacesInOrder(keys, m);
    var p := Places(keys, m);
    if Printable(Ch(keys[m])) { assert (p + [m])[|p|] == m; }
  }

  lemma KeptIsBelow(keys: seq<int>, n: nat, i: nat)
    ensures Kept(keys, n, i) ==> i < n
  {
  }

  lemma {:induction false} LineAtPlaces(keys: seq<int>, n: nat)
    requires n <= |keys|
    ensures |Line(keys[..n])| == |Places(keys, n)|
    ensures forall t :: 0 <= t < |Places(keys, n)| ==>
      Places(keys, n)[t] < n && Line(keys[..n])[t] == Ch(keys[Places(keys, n)[t]])
  {
    hide Printable, Ch;
    if n > 0 {
      LineAtPlaces(keys, n - 1);
      PlacesInOrder(keys, n);
      assert keys[..n] == keys[..n - 1] + [keys[n - 1]];
      LineOf(keys[..n - 1], keys[n - 1]);
    }
  }
}
