/** A console: its part of the video memory, the cursor in it and the window onto it that the screen shows. */
module Console {
  import opened Config

  const SCR_WIDTH: nat := 80
  const SCR_SIZE: nat := 2000
  const LAST_LINE: nat := 1920
  const V_MEM_SIZE: nat := 0x8000
  const SCR_UP: int := 1
  const SCR_DN: int := -1

  /** All positions are counted in words from the start of the video memory. */
  datatype Con = Con(orig: nat, size: nat, crtc: nat, cursor: nat, full: bool)

  /**
   The window starts at a line and lies in the console; so does the cursor, which before the first wrap is not above
   it.
   */
  ghost predicate Ok(c: Con) {
    && c.size % SCR_WIDTH == 0 && c.size > SCR_SIZE
    && c.orig <= c.crtc && (c.crtc - c.orig) % SCR_WIDTH == 0 && c.crtc - c.orig <= c.size - SCR_SIZE
    && c.orig <= c.cursor < c.orig + c.size
    && (!c.full ==> c.crtc <= c.cursor)
  }

  predicate Visible(c: Con) { c.crtc <= c.cursor < c.crtc + SCR_SIZE }

  /** The first position of the cursor's line, from the start of the console. */
  function Newest(c: Con): int { (c.cursor - c.orig) / SCR_WIDTH * SCR_WIDTH }

  // ----- Scrolling -----

  function ScrolledUp(c: Con): Con {
    var top := c.crtc - c.orig;
    if !c.full then
      if Newest(c) >= top + SCR_SIZE then c.(crtc := c.crtc + SCR_WIDTH) else c
    else if top + SCR_SIZE - SCR_WIDTH != Newest(c) then
      if top + SCR_SIZE == c.size then c.(crtc := c.orig) else c.(crtc := c.crtc + SCR_WIDTH)
    else c
  }

  function ScrolledDown(c: Con): Con
    requires c.crtc >= SCR_WIDTH || c.crtc <= c.orig
    requires c.size > SCR_SIZE
  {
    var top := c.crtc - c.orig;
    var oldest := if c.full then (Newest(c) + SCR_WIDTH) % c.size else 0;
    if !c.full && top > 0 then c.(crtc := c.crtc - SCR_WIDTH)
    else if c.full && top != oldest then
      if c.cursor - c.orig >= c.size - SCR_SIZE then
        if c.crtc > c.orig then c.(crtc := c.crtc - SCR_WIDTH) else c
      else if c.crtc <= c.orig then c.(crtc := c.orig + c.size - SCR_SIZE)
      else c.(crtc := c.crtc - SCR_WIDTH)
    else c
  }

  lemma LineOf(c: Con)
    requires Ok(c)
    ensures c.orig <= c.crtc && c.orig <= c.cursor < c.orig + c.size && c.size > SCR_SIZE
    ensures 0 <= Newest(c) <= c.cursor - c.orig < Newest(c) + SCR_WIDTH && Newest(c) % SCR_WIDTH == 0
    ensures Newest(c) <= c.size - SCR_WIDTH
    ensures c.crtc > c.orig ==> c.crtc >= c.orig + SCR_WIDTH
  {
    var x := c.cursor - c.orig;
    assert x == x / 80 * 80 + x % 80;
    assert c.size == c.size / 80 * 80;
  }

  lemma Lines(a: nat, b: nat)
    requires a % SCR_WIDTH == 0 && b % SCR_WIDTH == 0 && a < b
    ensures a + SCR_WIDTH <= b && (a + SCR_WIDTH) % SCR_WIDTH == 0 && (b - SCR_WIDTH) % SCR_WIDTH == 0
  {
  }

  lemma Apart(a: nat, b: nat)
    requires a % SCR_WIDTH == 0 && b % SCR_WIDTH == 0
    ensures a < b ==> a + SCR_WIDTH <= b
  {
  }

  lemma ScrollKeepsOk(c: Con)
    requires Ok(c)
    ensures c.crtc >= SCR_WIDTH || c.crtc <= c.orig
    ensures Ok(ScrolledUp(c)) && Ok(ScrolledDown(c))
  {
    LineOf(c);
    var top := c.crtc - c.orig;
    if top > 0 { Lines(0, top); }
    if top + SCR_SIZE < c.size { Lines(top, c.size - SCR_SIZE); }
  }

  // ----- Characters -----

  /**
   The cursor after a character, before the window follows it; behind the last word the last lines move to the top.
   */
  function Put(c: Con, ch: int): Con
    requires c.orig <= c.cursor
  {
    var x := c.cursor - c.orig;
    var next: nat := if ch == NEWLINE then c.orig + SCR_WIDTH * (x / SCR_WIDTH + 1)
      else if ch == BACKSPACE then if c.cursor > c.orig then c.cursor - 1 else c.cursor
      else c.cursor + 1;
    if next - c.orig >= c.size
    then c.(crtc := c.orig, cursor := c.orig + LAST_LINE + (next - c.orig) % SCR_WIDTH, full := true)
    else c.(cursor := next)
  }

  /** A backspace out of the top of the window, before the first wrap. */
  predicate Stuck(c: Con, ch: int) { ch == BACKSPACE && !c.full && c.cursor == c.crtc > c.orig }

  /** Scrolling up n times. */
  function Scrolls(c: Con, n: nat): Con
    decreases n
  {
    if n == 0 then c else Scrolls(ScrolledUp(c), n - 1)
  }

  /**
   Where the window ends up: it stays if it shows the cursor; if not, the cursor's line becomes its last, or the
   console's top its first.
   */
  function Followed(c: Con): Con
    requires c.orig <= c.cursor
  {
    if Visible(c) then c else c.(crtc := if Newest(c) < LAST_LINE then c.orig else c.orig + Newest(c) - LAST_LINE)
  }

  /** All but the condition that a backspace can break. */
  ghost predicate Placed(c: Con) { Ok(c.(full := true)) }

  /** The character goes behind the last word of the console. */
  predicate Wraps(c: Con, ch: int) {
    if ch == NEWLINE then c.cursor >= c.orig + c.size - SCR_WIDTH
    else ch != BACKSPACE && c.cursor == c.orig + c.size - 1
  }

  lemma PutPlaces(c: Con, ch: int)
    requires Ok(c)
    ensures Placed(Put(c, ch)) && (Ok(Put(c, ch)) <==> !Stuck(c, ch))
    ensures Put(c, ch).full <==> c.full || Wraps(c, ch)
    ensures Wraps(c, ch) ==> Put(c, ch) == c.(crtc := c.orig, cursor := c.orig + LAST_LINE, full := true)
  {
    LineOf(c);
    var x := c.cursor - c.orig;
    if Newest(c) < c.size - SCR_WIDTH { Lines(Newest(c), c.size - SCR_WIDTH); }
    assert SCR_WIDTH * (x / SCR_WIDTH + 1) == Newest(c) + SCR_WIDTH;
    assert c.size % SCR_WIDTH == 0;
  }

  // ----- Scrolling back -----

  /** The line shown longest ago: the first of the console, or after the first wrap the one behind the cursor's. */
  ghost function Oldest(c: Con): int {
    if !c.full then 0 else if Newest(c) + SCR_WIDTH == c.size then 0 else Newest(c) + SCR_WIDTH
  }

  function ScrollsBack(c: Con, n: nat): Con
    requires c.crtc >= SCR_WIDTH || c.crtc <= c.orig
    requires c.size > SCR_SIZE && Ok(c)
    decreases n
  {
    if n == 0 then c
    else
      ScrollKeepsOk(c);
      ScrollKeepsOk(ScrolledDown(c));
      ScrollsBack(ScrolledDown(c), n - 1)
  }

  /**
   One line back: up by a line, or from the console's top to the last place the window has. Before the first wrap that
   is a line up unless the window is at the top; after it nothing happens at the oldest line, nor at the top while the
   cursor is too far down for the window to go round.
   */
  lemma ScrollsOneBack(c: Con)
    requires Ok(c)
    ensures c.crtc >= SCR_WIDTH || c.crtc <= c.orig
    ensures var top, d := c.crtc - c.orig, ScrolledDown(c);
      if !c.full then d == c.(crtc := if top > 0 then c.crtc - SCR_WIDTH else c.crtc)
      else if top == Oldest(c) then d == c
      else if top > 0 then d == c.(crtc := c.crtc - SCR_WIDTH)
      else if c.cursor - c.orig >= c.size - SCR_SIZE then d == c
      else d == c.(crtc := c.orig + c.size - SCR_SIZE)
  {
    hide Ok, Newest;
    LineOf(c);
    ScrollKeepsOk(c);
    OldestIs(c);
  }

  lemma OldestIs(c: Con)
    requires Ok(c)
    ensures c.size > SCR_SIZE && (if c.full then (Newest(c) + SCR_WIDTH) % c.size else 0) == Oldest(c)
    ensures 0 <= Oldest(c) < c.size && Oldest(c) % SCR_WIDTH == 0
  {
    hide Ok, Newest;
    LineOf(c);
    LineMod(Newest(c));
    Remainder(Newest(c) + SCR_WIDTH, c.size);
  }

  lemma Remainder(x: int, n: int)
    requires 0 <= x <= n && n > 0
    ensures x % n == if x == n then 0 else x
  {
  }

  /** Before the first wrap, scrolling back and on again leaves the window where it was, while newer lines are below. */
  lemma BackAndForth(c: Con)
    requires Ok(c) && !c.full && c.crtc > c.orig && Newest(c) >= c.crtc - SCR_WIDTH - c.orig + SCR_SIZE
    ensures c.crtc >= SCR_WIDTH && ScrolledUp(ScrolledDown(c)) == c
  {
    ScrollsOneBack(c);
    LineOf(c);
  }

  /** The window can be brought to the oldest line. */
  ghost predicate ShowsOldest(c: Con) {
    !c.full || c.cursor - c.orig < c.size - SCR_SIZE || Newest(c) + SCR_WIDTH == c.size
  }

  /** How many lines back the oldest is, going round the console's top if need be. */
  ghost function LinesBack(c: Con): nat
    requires Ok(c)
  {
    var top := c.crtc - c.orig;
    if top >= Oldest(c) then top - Oldest(c) else top + c.size
  }

  lemma OneLineNearer(c: Con)
    requires Ok(c) && ShowsOldest(c) && c.crtc - c.orig != Oldest(c)
    ensures c.crtc >= SCR_WIDTH || c.crtc <= c.orig
    ensures Ok(ScrolledDown(c)) && ShowsOldest(ScrolledDown(c)) && Oldest(ScrolledDown(c)) == Oldest(c)
    ensures LinesBack(ScrolledDown(c)) < LinesBack(c)
  {
    hide Ok, ScrolledDown, Newest;
    ScrollKeepsOk(c);
    ScrollsOneBack(c);
    OldestIs(c);
    WindowFits(c);
    var top := c.crtc - c.orig;
    Apart(0, top);
    Apart(Oldest(c), top);
    SameNewest(c, ScrolledDown(c));
  }

  lemma SameNewest(c: Con, d: Con)
    requires d == c.(crtc := d.crtc)
    ensures Newest(d) == Newest(c)
  {
  }

  lemma WindowFits(c: Con)
    requires Ok(c)
    ensures c.orig <= c.crtc && (c.crtc - c.orig) % SCR_WIDTH == 0 && c.crtc - c.orig <= c.size - SCR_SIZE
    ensures 0 <= Newest(c) <= c.cursor - c.orig
  {
    LineOf(c);
  }

  lemma LineMod(x: int)
    requires x % SCR_WIDTH == 0
    ensures (x + SCR_WIDTH) % SCR_WIDTH == 0
  {
  }

  lemma {:induction false} ReachesOldest(c: Con) returns (n: nat)
    requires Ok(c) && ShowsOldest(c)
    ensures c.crtc >= SCR_WIDTH || c.crtc <= c.orig
    ensures c.size > SCR_SIZE && ScrollsBack(c, n).crtc - c.orig == Oldest(c)
    decreases LinesBack(c)
  {
    ScrollKeepsOk(c);
    if c.crtc - c.orig == Oldest(c) {
      n := 0;
    } else {
      OneLineNearer(c);
      n := ReachesOldest(ScrolledDown(c));
      n := n + 1;
    }
  }

  /** Where the window has no place at the oldest line, it never gets there. */
  lemma {:induction false} MissesOldest(c: Con, n: nat)
    requires Ok(c) && !ShowsOldest(c)
    ensures c.crtc >= SCR_WIDTH || c.crtc <= c.orig
    ensures c.size > SCR_SIZE && ScrollsBack(c, n).crtc - c.orig != Oldest(c)
    decreases n
  {
    ScrollKeepsOk(c);
    OldestIsBelow(c);
    if n > 0 {
      StillMisses(c);
      MissesOldest(ScrolledDown(c), n - 1);
    }
  }

  /** The oldest line is further down than the window can start. */
  lemma OldestIsBelow(c: Con)
    requires Ok(c) && !ShowsOldest(c)
    ensures Oldest(c) > c.size - SCR_SIZE >= c.crtc - c.orig
  {
    hide Ok;
    LineOf(c);
    WindowFits(c);
  }

  lemma StillMisses(c: Con)
    requires Ok(c) && !ShowsOldest(c)
    ensures Ok(ScrolledDown(c)) && !ShowsOldest(ScrolledDown(c)) && Oldest(ScrolledDown(c)) == Oldest(c)
    ensures ScrolledDown(c).orig == c.orig
  {
    hide Ok, ScrolledDown, Newest;
    ScrollKeepsOk(c);
    ScrollsOneBack(c);
    SameNewest(c, ScrolledDown(c));
  }

  /**
   Scrolling back brings the window to the oldest line exactly before the first wrap, or when the cursor is in the first
   lines, so that the window fits between it and the console's end, or in the last.
   */
  lemma ScrollingBackExactly(c: Con)
    requires Ok(c)
    ensures c.size > SCR_SIZE && (c.crtc >= SCR_WIDTH || c.crtc <= c.orig)
    ensures (exists n: nat :: ScrollsBack(c, n).crtc - c.orig == Oldest(c)) <==>
      !c.full || c.cursor - c.orig < c.size - SCR_SIZE || c.cursor - c.orig >= c.size - SCR_WIDTH
  {
    ScrollKeepsOk(c);
    LineOf(c);
    assert Newest(c) + SCR_WIDTH == c.size <==> c.cursor - c.orig >= c.size - SCR_WIDTH by { LastLineOf(c); }
    if ShowsOldest(c) {
      var n := ReachesOldest(c);
    } else {
      forall n: nat ensures ScrollsBack(c, n).crtc - c.orig != Oldest(c) { MissesOldest(c, n); }
    }
  }

  lemma LastLineOf(c: Con)
    requires Ok(c)
    ensures Newest(c) + SCR_WIDTH == c.size <==> c.cursor - c.orig >= c.size - SCR_WIDTH
  {
    LineOf(c);
    Apart(Newest(c), c.size - SCR_WIDTH);
  }

  // ----- Scrolling on -----

  /** One line on: towards the cursor's line as the last of the window, and after the first wrap round the end to it. */
  lemma ScrollsOneOn(c: Con)
    requires Ok(c)
    ensures var top, d := c.crtc - c.orig, ScrolledUp(c);
      if top + LAST_LINE == Newest(c) || (!c.full && top + LAST_LINE > Newest(c)) then d == c
      else if c.full && top == c.size - SCR_SIZE then d == c.(crtc := c.orig)
      else d == c.(crtc := c.crtc + SCR_WIDTH)
  {
    hide Ok, Newest;
    LineOf(c);
    WindowFits(c);
    Apart(c.crtc - c.orig + LAST_LINE, Newest(c));
  }

  /** How many positions the window is away from ending with the cursor's line. */
  ghost function LinesOn(c: Con): int {
    var top, target := c.crtc - c.orig, Newest(c) - LAST_LINE;
    if target >= top then target - top else target + c.size - top
  }

  ghost predicate ComesToNewest(c: Con) {
    Newest(c) >= LAST_LINE && (c.full || c.crtc - c.orig + LAST_LINE <= Newest(c))
  }

  lemma OneLineOn(c: Con)
    requires Ok(c) && ComesToNewest(c) && c.crtc - c.orig + LAST_LINE != Newest(c)
    ensures Ok(ScrolledUp(c)) && ComesToNewest(ScrolledUp(c)) && Newest(ScrolledUp(c)) == Newest(c)
    ensures 0 <= LinesOn(ScrolledUp(c)) < LinesOn(c)
  {
    hide Ok, ScrolledUp, Newest;
    ScrollKeepsOk(c);
    ScrollsOneOn(c);
    NewestIsLineOn(c);
    SameNewest(c, ScrolledUp(c));
  }

  lemma NewestIsLineOn(c: Con)
    requires Ok(c)
    ensures c.orig <= c.crtc <= c.orig + c.size - SCR_SIZE && 0 <= Newest(c) <= c.size - SCR_WIDTH
    ensures c.crtc - c.orig + LAST_LINE < Newest(c) ==> c.crtc - c.orig + LAST_LINE + SCR_WIDTH <= Newest(c)
  {
    hide Newest;
    LineOf(c);
    Apart(c.crtc - c.orig + LAST_LINE, Newest(c));
  }

  lemma {:induction false} ReachesNewest(c: Con) returns (n: nat)
    requires Ok(c) && ComesToNewest(c)
    ensures Scrolls(c, n).crtc - c.orig + LAST_LINE == Newest(c)
    decreases LinesOn(c)
  {
    if c.crtc - c.orig + LAST_LINE == Newest(c) {
      n := 0;
    } else {
      OneLineOn(c);
      n := ReachesNewest(ScrolledUp(c));
      n := n + 1;
    }
  }

  lemma {:induction false} MissesNewest(c: Con, n: nat)
    requires Ok(c) && !ComesToNewest(c)
    ensures Scrolls(c, n).crtc - c.orig + LAST_LINE != Newest(c)
    decreases n
  {
    ScrollKeepsOk(c);
    ScrollsOneOn(c);
    WindowFits(c);
    if n > 0 { MissesNewest(ScrolledUp(c), n - 1); }
  }

  /**
   Scrolling on makes the cursor's line the last of the window exactly when the console has as many lines up to it as
   the window, and before the first wrap when the window does not end behind it already.
   */
  lemma ScrollingOnExactly(c: Con)
    requires Ok(c)
    ensures (exists n: nat :: Scrolls(c, n).crtc - c.orig + LAST_LINE == Newest(c)) <==> ComesToNewest(c)
  {
    if ComesToNewest(c) {
      var n := ReachesNewest(c);
    } else {
      forall n: nat ensures Scrolls(c, n).crtc - c.orig + LAST_LINE != Newest(c) { MissesNewest(c, n); }
    }
  }

  // ----- What characters do to the cursor -----

  /** A printed character moves the cursor one on, a newline to the start of the next line, a backspace one back. */
  lemma CursorMoves(c: Con, ch: int)
    requires Ok(c) && !Wraps(c, ch)
    ensures Put(c, ch) == c.(cursor := Put(c, ch).cursor)
    ensures ch == '\n' as int ==>
      c.cursor < Put(c, ch).cursor <= c.cursor + SCR_WIDTH && (Put(c, ch).cursor - c.orig) % SCR_WIDTH == 0
    ensures ch == BACKSPACE ==> Put(c, ch).cursor == if c.cursor > c.orig then c.cursor - 1 else c.orig
    ensures ch != '\n' as int && ch != BACKSPACE ==> Put(c, ch).cursor == c.cursor + 1
  {
    hide Ok;
    LineOf(c);
    NextLineStarts(c.cursor - c.orig);
  }

  lemma NextLineStarts(x: nat)
    ensures var y := SCR_WIDTH * (x / SCR_WIDTH + 1); x < y <= x + SCR_WIDTH && y % SCR_WIDTH == 0
  {
  }

  /** A backspace takes back a printed character. */
  lemma BackspaceUndoes(c: Con, ch: int)
    requires Ok(c) && !Wraps(c, ch) && ch != '\n' as int && ch != BACKSPACE
    ensures Put(Put(c, ch), BACKSPACE) == c
  {
    CursorMoves(c, ch);
  }

  // ----- The window follows -----

  /** How far the window has still to go. */
  ghost function Way(c: Con): nat
    requires Ok(c)
  {
    if c.cursor < c.crtc then 2 * c.size - (c.crtc - c.orig) else c.size - (c.crtc - c.orig)
  }

  /** The cursor is below the window: one line further, and the window still ends where it would have. */
  lemma FollowsDown(c: Con, top: int)
    requires Ok(c) && top == c.crtc - c.orig && c.cursor >= c.crtc + SCR_SIZE
    ensures ScrolledUp(c) == c.(crtc := c.crtc + SCR_WIDTH) && Followed(ScrolledUp(c)) == Followed(c)
  {
    LineOf(c);
    assert top % SCR_WIDTH == 0 && 0 <= top <= c.size - SCR_SIZE;
    Apart(Newest(c), top + SCR_SIZE);
    Apart(top + SCR_SIZE, Newest(c));
  }

  /** The cursor is above the window, which happens only after the first wrap: the window goes round. */
  lemma FollowsRound(c: Con, top: int)
    requires Ok(c) && top == c.crtc - c.orig && c.cursor < c.crtc
    ensures ScrolledUp(c).crtc == (if top + SCR_SIZE == c.size then c.orig else c.crtc + SCR_WIDTH)
    ensures ScrolledUp(c) == c.(crtc := ScrolledUp(c).crtc) && Followed(ScrolledUp(c)) == Followed(c)
  {
    LineOf(c);
    Apart(LAST_LINE, Newest(c));
  }

  /** Each scroll towards a cursor that does not show goes on, and where the window will end up does not change. */
  lemma ScrollFollows(c: Con)
    requires Ok(c) && !Visible(c)
    ensures Ok(ScrolledUp(c)) && Way(ScrolledUp(c)) < Way(c) && Followed(ScrolledUp(c)) == Followed(c)
  {
    hide Followed, ScrolledUp;
    ScrollKeepsOk(c);
    if c.cursor >= c.crtc + SCR_SIZE { FollowsDown(c, c.crtc - c.orig); } else { FollowsRound(c, c.crtc - c.orig); }
  }

  /**
   The scrolling ends exactly when the character was not a backspace out of the window's top before the first wrap.
   */
  lemma ScrollingEnds(c: Con, ch: int)
    requires Ok(c)
    ensures (exists n: nat :: Visible(Scrolls(Put(c, ch), n))) <==> !Stuck(c, ch)
  {
    PutPlaces(c, ch);
    if Stuck(c, ch) {
      forall n: nat ensures !Visible(Scrolls(Put(c, ch), n)) { StaysPut(Put(c, ch), n); }
    } else {
      var n := ScrollsNeeded(Put(c, ch));
      assert Visible(Scrolls(Put(c, ch), n));
    }
  }

  lemma {:induction false} StaysPut(c: Con, n: nat)
    requires !c.full && c.orig <= c.cursor < c.crtc
    ensures Scrolls(c, n) == c
  {
    assert Newest(c) <= c.cursor - c.orig by {
      var x := c.cursor - c.orig;
      assert x == x / 80 * 80 + x % 80;
    }
    if n > 0 { StaysPut(c, n - 1); }
  }

  lemma {:induction false} ScrollsNeeded(c: Con) returns (n: nat)
    requires Ok(c)
    ensures Scrolls(c, n) == Followed(c) && Visible(Followed(c)) && Ok(Followed(c))
    decreases Way(c)
  {
    if Visible(c) {
      n := 0;
    } else {
      ScrollFollows(c);
      n := ScrollsNeeded(ScrolledUp(c));
      n := n + 1;
    }
  }

  /** The title of console nr, with its number, and a newline. */
  function Prompt(nr: nat): (r: seq<int>)
    requires nr < NR_CONSOLES
    ensures |r| == 44 && r[43] == NEWLINE && forall i :: 0 <= i < 43 ==> r[i] != NEWLINE && r[i] != BACKSPACE
  {
    seq(30, _ => 0x20) + [0x5B, 0x54, 0x65, 0x72, 0x6D, 0x69, 0x6E, 0x61, 0x6C, 0x20, 0x23, 0x31 + nr, 0x5D, NEWLINE]
  }

  lemma PromptReads(nr: nat, k: nat)
    requires nr < NR_CONSOLES && k < 44
    ensures var text := "                              [Terminal #?]\n";
      |text| == 44 && Prompt(nr)[k] == if text[k] == '?' then nr + 1 + '0' as int else text[k] as int
  {
    if k < 30 { assert Prompt(nr)[k] == 0x20; }
  }

  lemma PromptShows(c: Con, prompt: seq<int>, p: nat)
    requires c.size == 5440 && !c.full && c.crtc == c.orig && c.cursor == c.orig + p && p < |prompt| == 44
    requires prompt[43] == NEWLINE && forall i :: 0 <= i < 43 ==> prompt[i] != NEWLINE && prompt[i] != BACKSPACE
    ensures Ok(c) && !Stuck(c, prompt[p])
    ensures Followed(Put(c, prompt[p])) == c.(cursor := if p < 43 then c.orig + p + 1 else c.orig + SCR_WIDTH)
  {
  }

  class Screen {
    var crtcStart: nat
    const orig: nat
    const conSize: nat
    var cursor: nat
    var isFull: bool

    function View(): Con
      reads this
    {
      Con(orig, conSize, crtcStart, cursor, isFull)
    }

    /**
     The geometry of console nr; `pos` is where the cursor of the first one stands already, the others get a line with
     their title.
     */
    constructor (nr: nat, pos: nat)
      requires nr < NR_CONSOLES && pos < V_MEM_SIZE / 2 / NR_CONSOLES / SCR_WIDTH * SCR_WIDTH
      ensures Ok(View()) && !isFull && crtcStart == orig && cursor == if nr == 0 then pos else orig + SCR_WIDTH
      ensures orig == nr * (V_MEM_SIZE / 2 / NR_CONSOLES) && conSize == 5440
    {
      var vMemSize := V_MEM_SIZE / 2;
      var sizePerCon := vMemSize / NR_CONSOLES;
      orig := nr * sizePerCon;
      conSize := sizePerCon / SCR_WIDTH * SCR_WIDTH;
      crtcStart := nr * sizePerCon;
      cursor := if nr == 0 then pos else nr * sizePerCon;
      isFull := false;
      new;
      if nr > 0 {
        ghost var c := View();
        var prompt := Prompt(nr);
        var p := 0;
        while p < |prompt|
          invariant 0 <= p <= |prompt| && View() == c.(cursor := if p < |prompt| then orig + p else orig + SCR_WIDTH)
        {
          PromptShows(View(), prompt, p);
          OutChar(prompt[p]);
          p := p + 1;
        }
      }
    }

    method ScrollScreen(dir: int)
      requires Ok(View()) && (dir == SCR_UP || dir == SCR_DN)
      modifies this
      ensures Ok(View())
      ensures old(crtcStart) >= SCR_WIDTH || old(crtcStart) <= orig
      ensures View() == if dir == SCR_UP then ScrolledUp(old(View())) else ScrolledDown(old(View()))
    {
      hide Ok;
      ScrollKeepsOk(View());
      LineOf(View());
      var newest := (cursor - orig) / SCR_WIDTH * SCR_WIDTH;
      var oldest := if isFull then (newest + SCR_WIDTH) % conSize else 0;
      var scrTop := crtcStart - orig;
      if dir == SCR_DN {
        if !isFull && scrTop > 0 {
          crtcStart := crtcStart - SCR_WIDTH;
        } else if isFull && scrTop != oldest {
          if cursor - orig >= conSize - SCR_SIZE {
            if crtcStart != orig {
              crtcStart := crtcStart - SCR_WIDTH;
            }
          } else if crtcStart == orig {
            scrTop := conSize - SCR_SIZE;
            crtcStart := orig + scrTop;
          } else {
            crtcStart := crtcStart - SCR_WIDTH;
          }
        }
      } else {
        if !isFull && newest >= scrTop + SCR_SIZE {
          crtcStart := crtcStart + SCR_WIDTH;
        } else if isFull && scrTop + SCR_SIZE - SCR_WIDTH != newest {
          if scrTop + SCR_SIZE == conSize {
            crtcStart := orig;
          } else {
            crtcStart := crtcStart + SCR_WIDTH;
          }
        }
      }
    }

    /** Move the cursor, and when it leaves the console move the last lines to its top. */
    method MoveCursor(ch: int)
      requires Ok(View())
      modifies this
      ensures View() == Put(old(View()), ch)
    {
      var cursorX := (cursor - orig) % SCR_WIDTH;
      var cursorY := (cursor - orig) / SCR_WIDTH;
      if ch == NEWLINE {
        cursor := orig + SCR_WIDTH * (cursorY + 1);
      } else if ch == BACKSPACE {
        if cursor > orig {
          cursor := cursor - 1;
        }
      } else {
        cursor := cursor + 1;
      }
      if cursor - orig >= conSize {
        cursorX := (cursor - orig) % SCR_WIDTH;
        crtcStart := orig;
        cursor := orig + (SCR_SIZE - SCR_WIDTH) + cursorX;
        isFull := true;
      }
    }

    /** Show a character: the cursor moves, and the window is scrolled until it shows the cursor. */
    method OutChar(ch: int)
      requires Ok(View()) && !Stuck(View(), ch)
      modifies this
      ensures Ok(View()) && Visible(View()) && View() == Followed(Put(old(View()), ch))
    {
      hide Ok, Put, Followed, ScrolledUp, ScrolledDown;
      ghost var c := View();
      PutPlaces(c, ch);
      MoveCursor(ch);
      ghost var d := View();
      StillThere(d);
      while cursor >= crtcStart + SCR_SIZE || cursor < crtcStart
        invariant orig <= cursor && Ok(View()) && Followed(View()) == Followed(d)
        decreases Way(View())
      {
        ScrollFollows(View());
        ScrollScreen(SCR_UP);
        StillThere(View());
      }
      StillThere(View());
    }
  }

  /**
   A screen gets stuck: lines until the window has moved down by one, and as many backspaces as bring the cursor back
   to the top of the window, which is now below that of the console. One backspace more and the scrolling does not
   end.
   */
  method GetStuck() returns (s: Screen)
    ensures fresh(s) && Ok(s.View()) && Stuck(s.View(), BACKSPACE)
    ensures forall n: nat :: !Visible(Scrolls(Put(s.View(), BACKSPACE), n))
  {
    hide Ok, Scrolls, Visible, Put, Followed;
    s := new Screen(1, 0);
    ghost var c := s.View();
    var i := 1;
    while i < SCR_SIZE / SCR_WIDTH
      invariant 1 <= i <= 25 && Ok(s.View()) && s.View() == c.(cursor := c.orig + SCR_WIDTH * i, crtc := s.crtcStart)
      invariant s.crtcStart == c.orig + if i < 25 then 0 else SCR_WIDTH
    {
      NextLine(s.View(), i);
      s.OutChar(NEWLINE);
      i := i + 1;
    }
    i := 0;
    while i < LAST_LINE
      invariant 0 <= i <= LAST_LINE && Ok(s.View())
      invariant s.View() == c.(cursor := c.orig + SCR_SIZE - i, crtc := c.orig + SCR_WIDTH)
    {
      OneBack(s.View());
      s.OutChar(BACKSPACE);
      i := i + 1;
    }
    ScrollingEnds(s.View(), BACKSPACE);
  }

  /** A new line with the window at the console's top: it stays there until it no longer shows the cursor's line. */
  lemma NextLine(c: Con, i: nat)
    requires Ok(c) && !c.full && i < 25 && c.crtc == c.orig && c.cursor == c.orig + SCR_WIDTH * i
    requires c.size == 5440
    ensures !Stuck(c, NEWLINE)
    ensures Followed(Put(c, NEWLINE))
      == c.(cursor := c.cursor + SCR_WIDTH, crtc := c.orig + if i + 1 < 25 then 0 else SCR_WIDTH)
  {
  }

  lemma OneBack(c: Con)
    requires Ok(c) && c.orig <= c.crtc < c.cursor <= c.crtc + SCR_SIZE && c.size == 5440
    requires c.cursor <= c.orig + SCR_SIZE
    ensures !Stuck(c, BACKSPACE) && Followed(Put(c, BACKSPACE)) == c.(cursor := c.cursor - 1)
  {
  }

  lemma StillThere(c: Con)
    requires Ok(c)
    ensures c.orig <= c.cursor && (Visible(c) ==> Followed(c) == c)
  {
  }
}
