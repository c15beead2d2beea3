/**
 The inode map and the sector map: one bit per inode and per data sector, kept in consecutive sectors of the
 device. Allocation scans for the first clear bit and sets a run of bits from there; unlinking clears a run.
 */
module Maps {
  import opened Wrappers
  import opened Bytes
  import opened Device
  import opened Layout

  const BITS: nat := 4096

  predicate BitAt(m: seq<Byte>, k: nat)
    requires k < 8 * |m|
  {
    Bit(m[k / 8], k % 8)
  }

  /** m is m0 with the bits in [lo, hi) set. */
  ghost predicate Marked(m0: seq<Byte>, m: seq<Byte>, lo: int, hi: int) {
    |m| == |m0| && forall k: nat :: k < 8 * |m| ==> (BitAt(m, k) <==> BitAt(m0, k) || lo <= k < hi)
  }

  /** m is m0 with the bits in [lo, hi) cleared. */
  ghost predicate Cleared(m0: seq<Byte>, m: seq<Byte>, lo: int, hi: int) {
    |m| == |m0| && forall k: nat :: k < 8 * |m| ==> (BitAt(m, k) <==> BitAt(m0, k) && !(lo <= k < hi))
  }

  ghost predicate AllSet(m: seq<Byte>, lo: int, hi: int) {
    forall k: nat :: lo <= k < hi && k < 8 * |m| ==> BitAt(m, k)
  }

  ghost predicate AllClear(m: seq<Byte>, lo: int, hi: int) {
    forall k: nat :: lo <= k < hi && k < 8 * |m| ==> !BitAt(m, k)
  }

  /** f is the first clear bit, or one past the last bit when all are set. */
  ghost predicate IsFirstClear(m: seq<Byte>, f: nat) {
    f <= 8 * |m| && AllSet(m, 0, f) && (f < 8 * |m| ==> !BitAt(m, f))
  }

  // ----- Maps are determined by their bits -----

  lemma MapsDiffer(a: seq<Byte>, b: seq<Byte>)
    requires |a| == |b| && forall k: nat :: k < 8 * |a| ==> BitAt(a, k) == BitAt(b, k)
    ensures a == b
  {
    forall i | 0 <= i < |a| ensures a[i] == b[i] {
      forall j | 0 <= j < 8 ensures Bit(a[i], j) == Bit(b[i], j) {
        assert BitAt(a, 8 * i + j) == BitAt(b, 8 * i + j);
      }
      BitsDetermine(a[i], b[i]);
    }
  }

  /** Freeing what was allocated restores the map byte for byte. */
  lemma AllocateThenFree(m0: seq<Byte>, m1: seq<Byte>, m2: seq<Byte>, lo: nat, hi: nat)
    requires Marked(m0, m1, lo, hi) && AllClear(m0, lo, hi) && Cleared(m1, m2, lo, hi)
    ensures m2 == m0
  {
    MapsDiffer(m2, m0);
  }

  // ----- Pieces of maps -----

  lemma SliceBits(m: seq<Byte>, lo: nat, hi: nat, k: nat)
    requires lo <= hi <= |m| && k < 8 * (hi - lo)
    ensures BitAt(m[lo..hi], k) == BitAt(m, 8 * lo + k)
  {
    assert (8 * lo + k) / 8 == lo + k / 8 && (8 * lo + k) % 8 == k % 8;
  }

  /** The loop `for (; ((b >> k) & 1) != 0; k++)`. */
  method FirstClearOf(b: Byte) returns (k: nat)
    requires b != 0xFF
    ensures k < 8 && !Bit(b, k) && forall t :: 0 <= t < k ==> Bit(b, t)
  {
    hide Bit, Shr;
    Full(b);
    k := 0;
    Shifts(b, 0);
    while Shr(b, k) != 0
      invariant 0 <= k < 8 && forall t :: 0 <= t < k ==> Bit(b, t)
      invariant Shr(b, k) == if Bit(b, k) then 1 else 0
      decreases 8 - k
    {
      k := k + 1;
      if k < 8 { Shifts(b, k); }
    }
  }

  /** Set bits of the j-th byte of the buffer from bit k0 on, until `left` reaches 0 or the byte ends. */
  method TakeBits(dev: Disk, j: nat, k0: nat, left0: nat) returns (ok: bool, left: nat)
    requires dev.Valid() && j < SECTOR_SIZE && k0 < 8 && left0 > 0
    modifies dev.fsbuf
    ensures var lo, hi := 8 * j + k0, 8 * j + if left0 < 8 - k0 then k0 + left0 else 8;
      var m0 := old(dev.fsbuf[..SECTOR_SIZE]);
      && (ok <==> AllClear(m0, lo, hi))
      && (ok ==> left == left0 - (hi - lo) && Marked(m0, dev.fsbuf[..SECTOR_SIZE], lo, hi))
  {
    hide Marked, AllClear, BitAt, Bit, OrBit, Shr;
    ghost var b0, m0 := dev.fsbuf[j], dev.fsbuf[..SECTOR_SIZE];
    ghost var hi := if left0 < 8 - k0 then k0 + left0 else 8;
    var k := k0;
    left := left0;
    while k < 8
      invariant k0 <= k <= hi && left == left0 - (k - k0) > 0
      invariant dev.fsbuf[..SECTOR_SIZE] == m0[j := dev.fsbuf[j]]
      invariant forall t :: 0 <= t < 8 ==> (Bit(dev.fsbuf[j], t) <==> Bit(b0, t) || k0 <= t < k)
      invariant forall t :: k0 <= t < k ==> !Bit(b0, t)
    {
      Shifts(dev.fsbuf[j], k);
      if Shr(dev.fsbuf[j], k) != 0 {
        SetByte(m0, j, k, k0, hi);
        return false, left;
      }
      SetBits(dev.fsbuf[j], k);
      dev.fsbuf[j] := OrBit(dev.fsbuf[j], k);
      left := left - 1;
      k := k + 1;
      if left == 0 {
        break;
      }
    }
    ok := true;
    MarkedByte(m0, dev.fsbuf[..SECTOR_SIZE], j, k0, hi);
  }

  lemma SetByte(m: seq<Byte>, j: nat, k: nat, lo: nat, hi: nat)
    requires j < |m| && lo <= k < hi <= 8 && Bit(m[j], k)
    ensures !AllClear(m, 8 * j + lo, 8 * j + hi)
  {
    assert (8 * j + k) / 8 == j && (8 * j + k) % 8 == k;
    assert BitAt(m, 8 * j + k);
  }

  lemma MarkedByte(m0: seq<Byte>, m: seq<Byte>, j: nat, lo: nat, hi: nat)
    requires j < |m0| == |m| && m == m0[j := m[j]] && lo <= hi <= 8
    requires forall t :: 0 <= t < 8 ==> (Bit(m[j], t) <==> Bit(m0[j], t) || lo <= t < hi)
    requires forall t :: lo <= t < hi ==> !Bit(m0[j], t)
    ensures Marked(m0, m, 8 * j + lo, 8 * j + hi) && AllClear(m0, 8 * j + lo, 8 * j + hi)
  {
    forall k: nat | k < 8 * |m| ensures BitAt(m, k) <==> BitAt(m0, k) || 8 * j + lo <= k < 8 * j + hi {
      assert k == 8 * (k / 8) + k % 8;
    }
    forall k: nat | 8 * j + lo <= k < 8 * j + hi && k < 8 * |m0| ensures !BitAt(m0, k) {
      assert k / 8 == j;
    }
  }

  lemma MarkedOn(m0: seq<Byte>, m1: seq<Byte>, m2: seq<Byte>, lo: int, mid: int, hi: int)
    requires Marked(m0, m1, lo, mid) && Marked(m1, m2, mid, hi) && lo <= mid <= hi
    ensures Marked(m0, m2, lo, hi)
  {
  }

  /** Whether the run [lo, from) can be extended to `to` does not depend on its being marked already. */
  lemma ExtendRun(m0: seq<Byte>, m: seq<Byte>, lo: int, from: int, to: int)
    requires Marked(m0, m, lo, from) && AllClear(m0, lo, from) && lo <= from <= to
    ensures AllClear(m, from, to) <==> AllClear(m0, lo, to)
  {
    if AllClear(m, from, to) {
      forall k: nat | lo <= k < to && k < 8 * |m0| ensures !BitAt(m0, k) {
        if k >= from { assert !BitAt(m, k); }
      }
    }
  }

  lemma ShorterRun(m: seq<Byte>, lo: int, to: int, hi: int)
    requires AllClear(m, lo, hi) && to <= hi
    ensures AllClear(m, lo, to)
  {
  }

  lemma EmptyRun(m: seq<Byte>, at: int)
    ensures AllClear(m, at, at) && AllSet(m, at, at) && Marked(m, m, at, at)
  {
  }

  /** Where the extent begins: at the first clear bit of the sector, or at its start when it was begun earlier. */
  ghost predicate Begins(m: seq<Byte>, started: bool, lo: nat) {
    if started then lo == 0 else IsFirstClear(m, lo)
  }

  /** What scanning sector i of the map, from m0 to m, has found and taken. */
  ghost predicate Scanned(m0: seq<Byte>, m: seq<Byte>, i: nat, n1st: nat, free0: nat, left0: nat,
                          ok: bool, free: nat, left: nat, lo: nat) {
    var hi := Min(lo + left0, BITS);
    && Begins(m0, free0 != 0, lo) && lo <= BITS
    && (ok <==> AllClear(m0, lo, hi))
    && (ok ==> left == left0 - (hi - lo) && Marked(m0, m, lo, hi))
    && (ok ==> free == if free0 != 0 then free0 else if lo < BITS then i * BITS + lo - 1 + n1st else 0)
  }

  /** The inner loop of the allocator, over the sector in the buffer, which is sector i of the map. */
  method ScanSector(dev: Disk, i: nat, n1st: nat, free0: nat, left0: nat)
    returns (ok: bool, free: nat, left: nat, ghost lo: nat)
    requires dev.Valid() && left0 > 0 && n1st > 1
    modifies dev.fsbuf
    ensures Scanned(old(dev.fsbuf[..SECTOR_SIZE]), dev.fsbuf[..SECTOR_SIZE], i, n1st, free0, left0, ok, free, left, lo)
  {
    hide Marked, AllClear, AllSet, BitAt, Bit, IsFirstClear;
    ghost var m0 := dev.fsbuf[..SECTOR_SIZE];
    var j := 0;
    ok, free, left, lo := true, free0, left0, 0;
    EmptyRun(m0, 0);
    while j < SECTOR_SIZE && left > 0
      invariant 0 <= j <= SECTOR_SIZE && left <= left0
      invariant free == 0 ==> free0 == 0 && dev.fsbuf[..SECTOR_SIZE] == m0 && left == left0 && AllSet(m0, 0, 8 * j)
      invariant free != 0 ==> Begins(m0, free0 != 0, lo) && lo < BITS && lo + left0 - left <= 8 * j
      invariant free != 0 ==>
        AllClear(m0, lo, lo + left0 - left)
        && Marked(m0, dev.fsbuf[..SECTOR_SIZE], lo, lo + left0 - left)
      invariant free != 0 && left > 0 ==> lo + left0 - left == 8 * j
      invariant free != 0 ==> free == if free0 != 0 then free0 else i * BITS + lo - 1 + n1st
      decreases SECTOR_SIZE - j
    {
      var k := 0;
      if free == 0 {
        if dev.fsbuf[j] == 0xFF {
          FullByte(m0, j);
          j := j + 1;
          continue;
        }
        k := FirstClearOf(dev.fsbuf[j]);
        free := (i * SECTOR_SIZE + j) * 8 + k - 1 + n1st;
        lo := 8 * j + k;
        FirstClearByte(m0, j, k);
        EmptyRun(m0, lo);
      }
      ghost var m := dev.fsbuf[..SECTOR_SIZE];
      ghost var from := 8 * j + k;
      ghost var to := 8 * j + if left < 8 - k then k + left else 8;
      ExtendRun(m0, m, lo, from, to);
      ok, left := TakeBits(dev, j, k, left);
      if !ok {
        if AllClear(m0, lo, Min(lo + left0, BITS)) { ShorterRun(m0, lo, to, Min(lo + left0, BITS)); }
        return;
      }
      MarkedOn(m0, m, dev.fsbuf[..SECTOR_SIZE], lo, from, to);
      j := j + 1;
    }
    if free == 0 {
      lo := BITS;
      EmptyRun(m0, lo);
      AllSetIsFirst(m0);
    }
  }

  lemma AllSetIsFirst(m: seq<Byte>)
    requires AllSet(m, 0, 8 * |m|)
    ensures IsFirstClear(m, 8 * |m|)
  {
  }

  lemma FullByte(m: seq<Byte>, j: nat)
    requires j < |m| && m[j] == 0xFF && AllSet(m, 0, 8 * j)
    ensures AllSet(m, 0, 8 * (j + 1))
  {
    Full(m[j]);
    forall k: nat | 8 * j <= k < 8 * (j + 1) ensures BitAt(m, k) {
      assert k / 8 == j;
    }
  }

  lemma FirstClearByte(m: seq<Byte>, j: nat, k: nat)
    requires j < |m| && k < 8 && AllSet(m, 0, 8 * j) && !Bit(m[j], k) && forall t :: 0 <= t < k ==> Bit(m[j], t)
    ensures IsFirstClear(m, 8 * j + k)
  {
    forall i: nat | i < 8 * j + k ensures BitAt(m, i) {
      if i >= 8 * j { assert i / 8 == j; }
    }
    assert (8 * j + k) / 8 == j && (8 * j + k) % 8 == k;
  }

  // ----- Sectors of a map -----

  function SectorOf(m: seq<Byte>, i: nat): seq<Byte>
    requires (i + 1) * SECTOR_SIZE <= |m|
  {
    m[i * SECTOR_SIZE..(i + 1) * SECTOR_SIZE]
  }

  lemma SectorBit(m: seq<Byte>, i: nat, k: nat)
    requires (i + 1) * SECTOR_SIZE <= |m| && k < BITS
    ensures BitAt(SectorOf(m, i), k) == BitAt(m, i * BITS + k)
  {
    SliceBits(m, i * SECTOR_SIZE, (i + 1) * SECTOR_SIZE, k);
  }

  lemma SectorRuns(m: seq<Byte>, i: nat, lo: nat, hi: nat)
    requires (i + 1) * SECTOR_SIZE <= |m| && lo <= hi <= BITS
    ensures AllClear(SectorOf(m, i), lo, hi) <==> AllClear(m, i * BITS + lo, i * BITS + hi)
    ensures AllSet(SectorOf(m, i), lo, hi) <==> AllSet(m, i * BITS + lo, i * BITS + hi)
  {
    hide BitAt, SectorOf;
    var s, at := SectorOf(m, i), i * BITS;
    assert |s| == SECTOR_SIZE by { SectorSize(m, i); }
    forall k: nat | lo <= k < hi ensures BitAt(s, k) == BitAt(m, at + k) { SectorBit(m, i, k); }
    forall k: nat | at + lo <= k < at + hi ensures BitAt(m, k) == BitAt(s, k - at) { SectorBit(m, i, k - at); }
    if !AllClear(m, at + lo, at + hi) {
      var k: nat :| at + lo <= k < at + hi && k < 8 * |m| && BitAt(m, k);
      assert BitAt(s, k - at);
    }
    if !AllSet(m, at + lo, at + hi) {
      var k: nat :| at + lo <= k < at + hi && k < 8 * |m| && !BitAt(m, k);
      assert !BitAt(s, k - at);
    }
  }

  lemma SectorSize(m: seq<Byte>, i: nat)
    requires (i + 1) * SECTOR_SIZE <= |m|
    ensures |SectorOf(m, i)| == SECTOR_SIZE
  {
  }

  lemma SectorFirst(m: seq<Byte>, i: nat, lo: nat)
    requires (i + 1) * SECTOR_SIZE <= |m| && AllSet(m, 0, i * BITS) && IsFirstClear(SectorOf(m, i), lo) && lo < BITS
    ensures IsFirstClear(m, i * BITS + lo)
  {
    SectorRuns(m, i, 0, lo);
    SectorBit(m, i, lo);
  }

  lemma PatchedBit(m: seq<Byte>, i: nat, x: seq<Byte>, k: nat)
    requires (i + 1) * SECTOR_SIZE <= |m| && |x| == SECTOR_SIZE && k < 8 * |m|
    ensures BitAt(Patch(m, i * SECTOR_SIZE, x), k)
      == if i * BITS <= k < i * BITS + BITS then BitAt(x, k - i * BITS) else BitAt(m, k)
  {
    var p := Patch(m, i * SECTOR_SIZE, x);
    if i * BITS <= k < i * BITS + BITS {
      assert SectorOf(p, i) == x;
      SectorBit(p, i, k - i * BITS);
    }
  }

  lemma PatchMarked(m: seq<Byte>, i: nat, x: seq<Byte>, lo: nat, hi: nat)
    requires (i + 1) * SECTOR_SIZE <= |m| && Marked(SectorOf(m, i), x, lo, hi) && lo <= hi <= BITS
    ensures Marked(m, Patch(m, i * SECTOR_SIZE, x), i * BITS + lo, i * BITS + hi)
  {
    forall k: nat | k < 8 * |m|
      ensures BitAt(Patch(m, i * SECTOR_SIZE, x), k) <==> BitAt(m, k) || i * BITS + lo <= k < i * BITS + hi
    {
      PatchedBit(m, i, x, k);
      if i * BITS <= k < i * BITS + BITS { SectorBit(m, i, k - i * BITS); }
    }
  }

  /** Writing sector i of a map region patches the map and nothing else. */
  lemma PatchRegion(d: seq<Byte>, at: nat, end: nat, i: nat, x: seq<Byte>)
    requires at <= end <= |d| && at + (i + 1) * SECTOR_SIZE <= end && |x| == SECTOR_SIZE
    ensures var p := Patch(d, at + i * SECTOR_SIZE, x);
      SameOutside(d, p, at, end) && p[at..end] == Patch(d[at..end], i * SECTOR_SIZE, x)
  {
    var p := Patch(d, at + i * SECTOR_SIZE, x);
    assert p[at..end] == Patch(d[at..end], i * SECTOR_SIZE, x);
  }

  lemma ReadSector(sb: SuperBlock, d: seq<Byte>, i: nat)
    requires Fits(sb, |d|) && i < sb.nrSmapSects
    ensures (2 + sb.nrImapSects + i + 1) * SECTOR_SIZE <= |d|
    ensures |SmapOf(sb, d)| == sb.nrSmapSects * SECTOR_SIZE && (i + 1) * SECTOR_SIZE <= |SmapOf(sb, d)|
    ensures var s := 2 + sb.nrImapSects + i;
      SectorOf(SmapOf(sb, d), i) == d[s * SECTOR_SIZE..s * SECTOR_SIZE + SECTOR_SIZE]
  {
    RegionsAreDisjoint(sb, |d|);
    hide Fits;
    var at, end := SmapAt(sb), InodesAt(sb);
    assert (2 + sb.nrImapSects + i) * SECTOR_SIZE == at + i * SECTOR_SIZE;
    SliceOfSlice(d, at, end, i * SECTOR_SIZE, (i + 1) * SECTOR_SIZE);
  }

  /** Sector i of the sector map rewritten with a further run marked. */
  lemma MarkedSector(sb: SuperBlock, m0: seq<Byte>, d: seq<Byte>, i: nat, x: seq<Byte>, f: nat, lo: nat, hi: nat)
    requires Fits(sb, |d|) && i < sb.nrSmapSects && (i + 1) * SECTOR_SIZE <= |SmapOf(sb, d)|
    requires lo <= hi <= BITS && f <= i * BITS + lo
    requires Marked(m0, SmapOf(sb, d), f, i * BITS + lo) && Marked(SectorOf(SmapOf(sb, d), i), x, lo, hi)
    ensures var p := Patch(d, (2 + sb.nrImapSects + i) * SECTOR_SIZE, x);
      SameOutside(d, p, SmapAt(sb), InodesAt(sb)) && Marked(m0, SmapOf(sb, p), f, i * BITS + hi)
  {
    var m := SmapOf(sb, d);
    PatchMarked(m, i, x, lo, hi);
    MarkedOn(m0, m, Patch(m, i * SECTOR_SIZE, x), f, i * BITS + lo, i * BITS + hi);
    PatchRegion(d, SmapAt(sb), InodesAt(sb), i, x);
  }

  // ----- Allocation -----

  /** n bits fit at the first clear bit f of the map. */
  ghost predicate RunFits(m: seq<Byte>, f: nat, n: nat) {
    IsFirstClear(m, f) && f + n <= 8 * |m| && AllClear(m, f, f + n)
  }

  lemma NoRun(m: seq<Byte>, f: nat, n: nat, g: nat)
    requires IsFirstClear(m, f) && (f + n > 8 * |m| || !AllClear(m, f, f + n))
    ensures !RunFits(m, g, n)
  {
    if IsFirstClear(m, g) {
      assert !(f < g) && !(g < f);
    }
  }

  /** The allocator before sector i: a run from f is under way (free != 0), or everything so far was taken. */
  ghost predicate Scanning(sb: SuperBlock, d0: seq<Byte>, d: seq<Byte>, i: nat, n: nat, left: nat, free: nat, f: nat)
    requires Fits(sb, |d0|)
  {
    var m0 := SmapOf(sb, d0);
    && SameOutside(d0, d, SmapAt(sb), InodesAt(sb)) && left <= n
    && if free == 0 then d == d0 && left == n && AllSet(m0, 0, i * BITS)
       else && IsFirstClear(m0, f) && free == f - 1 + sb.n1stSect
            && f + n - left <= i * BITS && (left > 0 ==> f + n - left == i * BITS)
            && AllClear(m0, f, f + n - left) && Marked(m0, SmapOf(sb, d), f, f + n - left)
  }

  ghost predicate NoRunFits(m: seq<Byte>, n: nat) {
    forall f: nat :: !RunFits(m, f, n)
  }

  lemma Blocked(m: seq<Byte>, f: nat, n: nat)
    requires IsFirstClear(m, f) && (f + n > 8 * |m| || !AllClear(m, f, f + n))
    ensures NoRunFits(m, n)
  {
    forall k: nat ensures !RunFits(m, k, n) { NoRun(m, f, n, k); }
  }

  lemma BlockedAt(m: seq<Byte>, f: nat, to: nat, n: nat)
    requires IsFirstClear(m, f) && to <= f + n && !AllClear(m, f, to)
    ensures NoRunFits(m, n)
  {
    if AllClear(m, f, f + n) { ShorterRun(m, f, to, f + n); }
    Blocked(m, f, n);
  }

  /** One sector carries the scan on, or shows that no run fits. */
  lemma ScanStep(sb: SuperBlock, d0: seq<Byte>, d: seq<Byte>, i: nat, n: nat, left0: nat, free0: nat, f: nat,
                 x: seq<Byte>, ok: bool, free: nat, left: nat, lo: nat)
    requires Fits(sb, |d0|) && i < sb.nrSmapSects && left0 > 0 && |x| == SECTOR_SIZE
    requires Scanning(sb, d0, d, i, n, left0, free0, f) && (i + 1) * SECTOR_SIZE <= |SmapOf(sb, d)|
    requires Scanned(SectorOf(SmapOf(sb, d), i), x, i, sb.n1stSect, free0, left0, ok, free, left, lo)
    ensures (2 + sb.nrImapSects + i + 1) * SECTOR_SIZE <= |d|
    ensures if ok then left <= n else NoRunFits(SmapOf(sb, d0), n)
    ensures ok ==>
      var u := if free == 0 then d else Patch(d, (2 + sb.nrImapSects + i) * SECTOR_SIZE, x);
      Scanning(sb, d0, u, i + 1, n, left, free, if free0 == 0 then i * BITS + lo else f)
  {
    hide Marked, AllClear, AllSet, BitAt, IsFirstClear, RunFits, SmapOf, SectorOf, Patch, NoRunFits;
    ReadSector(sb, d, i);
    ReadSector(sb, d0, i);
    var m0, m := SmapOf(sb, d0), SmapOf(sb, d);
    var hi := Min(lo + left0, BITS);
    SectorRuns(m, i, lo, hi);
    if free0 != 0 {
      ExtendRun(m0, m, f, i * BITS, i * BITS + hi);
      if !ok {
        BlockedAt(m0, f, i * BITS + hi, n);
      } else {
        MarkedSector(sb, m0, d, i, x, f, lo, hi);
      }
    } else if lo < BITS {
      SectorFirst(m, i, lo);
      EmptyRun(m0, i * BITS + lo);
      if !ok {
        BlockedAt(m0, i * BITS + lo, i * BITS + hi, n);
      } else {
        MarkedSector(sb, m0, d, i, x, i * BITS + lo, lo, hi);
      }
    } else {
      EmptyRun(SectorOf(m, i), BITS);
      FullSector(m, i);
    }
  }

  lemma ScanEnds(sb: SuperBlock, d0: seq<Byte>, d: seq<Byte>, n: nat, left: nat, free: nat, f: nat)
    requires Fits(sb, |d0|) && Scanning(sb, d0, d, sb.nrSmapSects, n, left, free, f) && left > 0
    ensures NoRunFits(SmapOf(sb, d0), n)
  {
    hide Marked, AllClear, AllSet, BitAt, IsFirstClear, RunFits, NoRunFits;
    var m0 := SmapOf(sb, d0);
    if free == 0 {
      AllSetIsFirst(m0);
      Blocked(m0, 8 * |m0|, n);
    } else {
      Blocked(m0, f, n);
    }
  }

  lemma FullSector(m: seq<Byte>, i: nat)
    requires (i + 1) * SECTOR_SIZE <= |m| && AllSet(m, 0, i * BITS) && IsFirstClear(SectorOf(m, i), BITS)
    ensures AllSet(m, 0, (i + 1) * BITS)
  {
    SectorRuns(m, i, 0, BITS);
  }

  /**
   Find n consecutive free data sectors: the run at the first clear bit. `ok` is false where the original stops in
   one of its two assertions, because the run is interrupted or the map ends.
   */
  method AllocSmapBit(dev: Disk, sb: SuperBlock, n: nat) returns (ok: bool, free: nat)
    requires dev.Valid() && Fits(sb, dev.bytes.Length)
    modifies dev.bytes, dev.fsbuf
    ensures n == 0 ==> ok && free == 0 && dev.bytes[..] == old(dev.bytes[..])
    ensures n > 0 ==> (ok <==> exists f: nat :: RunFits(SmapOf(sb, old(dev.bytes[..])), f, n))
    ensures n > 0 && ok ==> SameOutside(old(dev.bytes[..]), dev.bytes[..], SmapAt(sb), InodesAt(sb))
    ensures n > 0 && ok ==>
      var m0, m, f := SmapOf(sb, old(dev.bytes[..])), SmapOf(sb, dev.bytes[..]), free - sb.n1stSect + 1;
      f >= 0 && RunFits(m0, f, n) && Marked(m0, m, f, f + n)
  {
    hide Marked, AllClear, AllSet, BitAt, IsFirstClear, SmapOf, SectorOf, Patch, Scanned, RunFits, Scanning, Fits,
      SameOutside;
    ghost var d0 := dev.bytes[..];
    ghost var f: nat := 0;
    var smapBlk0Nr := 1 + 1 + sb.nrImapSects;
    var i: nat, left: nat := 0, n;
    ok, free := true, 0;
    ghost var end: nat := 0;
    ScanBegins(sb, d0, n);
    while i < sb.nrSmapSects
      invariant 0 <= i == end <= sb.nrSmapSects && left <= n && (if n > 0 then left > 0 else i == 0 && free == 0)
      invariant Scanning(sb, d0, dev.bytes[..], i, n, left, free, f)
    {
      ghost var d := dev.bytes[..];
      SectorInRange(sb, d, i);
      dev.RdSect(smapBlk0Nr + i);
      if left > 0 {
        ghost var lo: nat;
        ghost var free0, left0 := free, left;
        ok, free, left, lo := ScanSector(dev, i, sb.n1stSect, free, left);
        ScanStep(sb, d0, d, i, n, left0, free0, f, dev.fsbuf[..SECTOR_SIZE], ok, free, left, lo);
        if !ok {
          return;
        }
        f, end := if free0 == 0 then i * BITS + lo else f, i + 1;
      }
      if free != 0 {
        dev.WrSect(smapBlk0Nr + i);
      }
      if left == 0 {
        break;
      }
      i := i + 1;
    }
    ok := left == 0;
    if ok {
      RunFound(sb, d0, dev.bytes[..], end, n, free, f);
    } else {
      ScanEnds(sb, d0, dev.bytes[..], n, left, free, f);
    }
  }

  lemma SectorInRange(sb: SuperBlock, d: seq<Byte>, i: nat)
    requires Fits(sb, |d|) && i < sb.nrSmapSects
    ensures (2 + sb.nrImapSects + i + 1) * SECTOR_SIZE <= |d| && sb.n1stSect > 1
    ensures |SmapOf(sb, d)| == sb.nrSmapSects * SECTOR_SIZE && (i + 1) * SECTOR_SIZE <= |SmapOf(sb, d)|
    ensures var s := 2 + sb.nrImapSects + i;
      SectorOf(SmapOf(sb, d), i) == d[s * SECTOR_SIZE..s * SECTOR_SIZE + SECTOR_SIZE]
  {
    ReadSector(sb, d, i);
  }

  lemma ScanBegins(sb: SuperBlock, d: seq<Byte>, n: nat)
    requires Fits(sb, |d|)
    ensures Scanning(sb, d, d, 0, n, n, 0, 0) && 0 < sb.nrSmapSects && InodesAt(sb) <= |d|
  {
    EmptyRun(SmapOf(sb, d), 0);
  }

  lemma RunFound(sb: SuperBlock, d0: seq<Byte>, d: seq<Byte>, i: nat, n: nat, free: nat, f: nat)
    requires Fits(sb, |d0|) && i <= sb.nrSmapSects && Scanning(sb, d0, d, i, n, 0, free, f)
    ensures n > 0 ==> f == free - sb.n1stSect + 1 && RunFits(SmapOf(sb, d0), f, n)
    ensures n > 0 ==> SameOutside(d0, d, SmapAt(sb), InodesAt(sb)) && Marked(SmapOf(sb, d0), SmapOf(sb, d), f, f + n)
    ensures free == 0 ==> d == d0
  {
  }

  /**
   The first free inode: only the first sector of the map is ever examined, and 0 is the answer when it is full.
   */
  method AllocImapBit(dev: Disk, sb: SuperBlock) returns (inodeNr: nat)
    requires dev.Valid() && Fits(sb, dev.bytes.Length)
    modifies dev.bytes, dev.fsbuf
    ensures var m0 := ImapOf(sb, old(dev.bytes[..]));
      if AllSet(m0, 0, BITS) then inodeNr == 0 && dev.bytes[..] == old(dev.bytes[..])
      else && IsFirstClear(m0, inodeNr) && Marked(m0, ImapOf(sb, dev.bytes[..]), inodeNr, inodeNr + 1)
           && SameOutside(old(dev.bytes[..]), dev.bytes[..], ImapAt(sb), SmapAt(sb))
  {
    hide Marked, AllSet, BitAt, Bit, IsFirstClear, Patch, OrBit;
    ghost var d0 := dev.bytes[..];
    ghost var m0 := ImapOf(sb, d0);
    var imapBlk0Nr := 1 + 1;
    inodeNr := 0;
    dev.RdSect(imapBlk0Nr);
    EmptyRun(m0, 0);
    var j := 0;
    while j < SECTOR_SIZE
      invariant 0 <= j <= SECTOR_SIZE && inodeNr == 0 && dev.bytes[..] == d0
      invariant dev.fsbuf[..SECTOR_SIZE] == m0 && AllSet(m0, 0, 8 * j)
    {
      if dev.fsbuf[j] == 0xFF {
        FullByte(m0, j);
        j := j + 1;
        continue;
      }
      var k := FirstClearOf(dev.fsbuf[j]);
      FirstClearByte(m0, j, k);
      inodeNr := j * 8 + k;
      NotAllSet(m0, inodeNr);
      SetBits(dev.fsbuf[j], k);
      dev.fsbuf[j] := OrBit(dev.fsbuf[j], k);
      MarkedByte(m0, dev.fsbuf[..SECTOR_SIZE], j, k, k + 1);
      dev.WrSect(imapBlk0Nr);
      WroteImap(sb, d0, dev.fsbuf[..SECTOR_SIZE]);
      return;
    }
  }

  lemma NotAllSet(m: seq<Byte>, f: nat)
    requires IsFirstClear(m, f) && f < 8 * |m|
    ensures !AllSet(m, 0, 8 * |m|)
  {
  }

  lemma WroteImap(sb: SuperBlock, d: seq<Byte>, x: seq<Byte>)
    requires Fits(sb, |d|) && |x| == SECTOR_SIZE
    ensures var p := Patch(d, 2 * SECTOR_SIZE, x);
      SameOutside(d, p, ImapAt(sb), SmapAt(sb)) && ImapOf(sb, p) == x
  {
    PatchRegion(d, ImapAt(sb), SmapAt(sb), 0, x);
    assert Patch(ImapOf(sb, d), 0, x) == x;
  }

  // ----- Freeing -----

  lemma ClearedOn(m0: seq<Byte>, m1: seq<Byte>, m2: seq<Byte>, lo: int, mid: int, hi: int)
    requires Cleared(m0, m1, lo, mid) && Cleared(m1, m2, mid, hi) && lo <= mid <= hi
    ensures Cleared(m0, m2, lo, hi)
  {
  }

  lemma EmptyClearing(m: seq<Byte>, at: int)
    ensures Cleared(m, m, at, at) && AllSet(m, at, at)
  {
  }

  /** Whether the run [lo, from) of set bits extends to `to` does not depend on its being cleared already. */
  lemma ExtendSetRun(m0: seq<Byte>, m: seq<Byte>, lo: int, from: int, to: int)
    requires Cleared(m0, m, lo, from) && AllSet(m0, lo, from) && lo <= from <= to
    ensures AllSet(m, from, to) <==> AllSet(m0, lo, to)
  {
    if AllSet(m, from, to) {
      forall k: nat | lo <= k < to && k < 8 * |m0| ensures BitAt(m0, k) {
        if k >= from { assert BitAt(m, k); }
      }
    }
  }

  lemma ShorterSetRun(m: seq<Byte>, lo: int, to: int, hi: int)
    requires AllSet(m, lo, hi) && to <= hi
    ensures AllSet(m, lo, to)
  {
  }

  lemma ClearedByte(m0: seq<Byte>, m: seq<Byte>, j: nat, lo: nat, hi: nat)
    requires j < |m0| == |m| && m == m0[j := m[j]] && lo <= hi <= 8
    requires forall t :: 0 <= t < 8 ==> (Bit(m[j], t) <==> Bit(m0[j], t) && !(lo <= t < hi))
    requires forall t :: lo <= t < hi ==> Bit(m0[j], t)
    ensures Cleared(m0, m, 8 * j + lo, 8 * j + hi) && AllSet(m0, 8 * j + lo, 8 * j + hi)
  {
    forall k: nat | k < 8 * |m| ensures BitAt(m, k) <==> BitAt(m0, k) && !(8 * j + lo <= k < 8 * j + hi) {
      assert k == 8 * (k / 8) + k % 8;
    }
    forall k: nat | 8 * j + lo <= k < 8 * j + hi && k < 8 * |m0| ensures BitAt(m0, k) {
      assert k / 8 == j;
    }
  }

  lemma UnsetByte(m: seq<Byte>, j: nat, k: nat, lo: nat, hi: nat)
    requires j < |m| && lo <= k < hi <= 8 && !Bit(m[j], k)
    ensures !AllSet(m, 8 * j + lo, 8 * j + hi)
  {
    assert (8 * j + k) / 8 == j && (8 * j + k) % 8 == k;
    assert !BitAt(m, 8 * j + k);
  }

  /** The inode's bit is cleared; the original asserts that it was set. */
  method FreeImapBit(dev: Disk, sb: SuperBlock, inodeNr: nat) returns (ok: bool)
    requires dev.Valid() && Fits(sb, dev.bytes.Length)
    modifies dev.bytes, dev.fsbuf
    ensures ok <==> inodeNr < BITS && BitAt(ImapOf(sb, old(dev.bytes[..])), inodeNr)
    ensures ok ==> Cleared(ImapOf(sb, old(dev.bytes[..])), ImapOf(sb, dev.bytes[..]), inodeNr, inodeNr + 1)
    ensures ok ==> SameOutside(old(dev.bytes[..]), dev.bytes[..], ImapAt(sb), SmapAt(sb))
  {
    hide Cleared, AllSet, Bit, Patch, AndBit, AndNotBit;
    ghost var d0 := dev.bytes[..];
    ghost var m0 := ImapOf(sb, d0);
    var byteIdx, bitIdx := inodeNr / 8, inodeNr % 8;
    if byteIdx >= SECTOR_SIZE {
      return false;
    }
    dev.RdSect(2);
    assert dev.fsbuf[..SECTOR_SIZE] == m0;
    Shifts(m0[byteIdx], bitIdx);
    if AndBit(dev.fsbuf[byteIdx % SECTOR_SIZE], bitIdx) == 0 {
      return false;
    }
    ClearBits(m0[byteIdx], bitIdx);
    dev.fsbuf[byteIdx % SECTOR_SIZE] := AndNotBit(dev.fsbuf[byteIdx % SECTOR_SIZE], bitIdx);
    ClearedByte(m0, dev.fsbuf[..SECTOR_SIZE], byteIdx, bitIdx, bitIdx + 1);
    dev.WrSect(2);
    WroteImap(sb, d0, dev.fsbuf[..SECTOR_SIZE]);
    ok := true;
  }

  /** Division as C rounds it. */
  function CDiv(a: int, b: int): int
    requires b > 0
  {
    if a >= 0 then a / b else -((-a) / b)
  }

  /** The map as it will be when the sector in the buffer is written back. */
  function Overlay(sb: SuperBlock, d: seq<Byte>, q: nat, x: seq<Byte>): seq<Byte>
    requires Fits(sb, |d|) && q < sb.nrSmapSects && |x| == SECTOR_SIZE
  {
    Patch(SmapOf(sb, d), q * SECTOR_SIZE, x)
  }

  /** Unlink with sector q of the map in the buffer: bits [b, c) were set and are clear. */
  ghost predicate Freeing(sb: SuperBlock, d0: seq<Byte>, d: seq<Byte>, q: nat, x: seq<Byte>, b: nat, c: nat)
    requires Fits(sb, |d0|)
  {
    && SameOutside(d0, d, SmapAt(sb), InodesAt(sb)) && q < sb.nrSmapSects && |x| == SECTOR_SIZE
    && AllSet(SmapOf(sb, d0), b, c) && Cleared(SmapOf(sb, d0), Overlay(sb, d, q, x), b, c) && b <= c
  }

  lemma OverlayStep(m: seq<Byte>, q: nat, x: seq<Byte>, y: seq<Byte>, lo: nat, hi: nat)
    requires (q + 1) * SECTOR_SIZE <= |m| && |x| == SECTOR_SIZE && Cleared(x, y, lo, hi) && lo <= hi <= BITS
    ensures Cleared(Patch(m, q * SECTOR_SIZE, x), Patch(m, q * SECTOR_SIZE, y), q * BITS + lo, q * BITS + hi)
    ensures AllSet(x, lo, hi) <==> AllSet(Patch(m, q * SECTOR_SIZE, x), q * BITS + lo, q * BITS + hi)
  {
    forall k: nat | k < 8 * |m|
      ensures BitAt(Patch(m, q * SECTOR_SIZE, y), k)
        <==> BitAt(Patch(m, q * SECTOR_SIZE, x), k) && !(q * BITS + lo <= k < q * BITS + hi)
    {
      PatchedBit(m, q, x, k);
      PatchedBit(m, q, y, k);
    }
    assert SectorOf(Patch(m, q * SECTOR_SIZE, x), q) == x;
    SectorRuns(Patch(m, q * SECTOR_SIZE, x), q, lo, hi);
  }

  /** Clearing further bits of the sector in the buffer carries the freeing on. */
  lemma FreeStep(sb: SuperBlock, d0: seq<Byte>, d: seq<Byte>, q: nat, x: seq<Byte>, y: seq<Byte>, b: nat, lo: nat,
                 hi: nat)
    requires Fits(sb, |d0|) && Freeing(sb, d0, d, q, x, b, q * BITS + lo) && lo <= hi <= BITS
    requires AllSet(x, lo, hi) && Cleared(x, y, lo, hi) && |y| == SECTOR_SIZE
    ensures Freeing(sb, d0, d, q, y, b, q * BITS + hi)
  {
    hide AllSet, Cleared, BitAt, Patch;
    ReadSector(sb, d, q);
    OverlayStep(SmapOf(sb, d), q, x, y, lo, hi);
    ClearedOn(SmapOf(sb, d0), Overlay(sb, d, q, x), Overlay(sb, d, q, y), b, q * BITS + lo, q * BITS + hi);
    ExtendSetRun(SmapOf(sb, d0), Overlay(sb, d, q, x), b, q * BITS + lo, q * BITS + hi);
  }

  /** A bit of the sector in the buffer that is not set shows that the extent was not all allocated. */
  lemma FreeBlocked(sb: SuperBlock, d0: seq<Byte>, d: seq<Byte>, q: nat, x: seq<Byte>, b: nat, lo: nat, hi: nat,
                    end: nat)
    requires Fits(sb, |d0|) && Freeing(sb, d0, d, q, x, b, q * BITS + lo) && lo <= hi <= BITS
    requires !AllSet(x, lo, hi) && q * BITS + hi <= end
    ensures !AllSet(SmapOf(sb, d0), b, end)
  {
    hide AllSet, Cleared, BitAt, Patch;
    ReadSector(sb, d, q);
    EmptyOverlay(SmapOf(sb, d), q, x, lo, hi);
    ExtendSetRun(SmapOf(sb, d0), Overlay(sb, d, q, x), b, q * BITS + lo, q * BITS + hi);
    if AllSet(SmapOf(sb, d0), b, end) { ShorterSetRun(SmapOf(sb, d0), b, q * BITS + hi, end); }
  }

  lemma EmptyOverlay(m: seq<Byte>, q: nat, x: seq<Byte>, lo: nat, hi: nat)
    requires (q + 1) * SECTOR_SIZE <= |m| && |x| == SECTOR_SIZE && lo <= hi <= BITS
    ensures AllSet(x, lo, hi) <==> AllSet(Patch(m, q * SECTOR_SIZE, x), q * BITS + lo, q * BITS + hi)
  {
    assert SectorOf(Patch(m, q * SECTOR_SIZE, x), q) == x;
    SectorRuns(Patch(m, q * SECTOR_SIZE, x), q, lo, hi);
  }

  /** Writing the buffer back, and reading the next sector of the map into it, leave the map as it is to be. */
  lemma FreeNext(sb: SuperBlock, d0: seq<Byte>, d: seq<Byte>, q: nat, x: seq<Byte>, b: nat, c: nat, r: nat)
    requires Fits(sb, |d0|) && Freeing(sb, d0, d, q, x, b, c) && r < sb.nrSmapSects
    ensures (2 + sb.nrImapSects + q + 1) * SECTOR_SIZE <= |d| && (2 + sb.nrImapSects + r + 1) * SECTOR_SIZE <= |d|
    ensures var u := Patch(d, (2 + sb.nrImapSects + q) * SECTOR_SIZE, x);
      var s := 2 + sb.nrImapSects + r;
      Freeing(sb, d0, u, r, u[s * SECTOR_SIZE..s * SECTOR_SIZE + SECTOR_SIZE], b, c)
        && Cleared(SmapOf(sb, d0), SmapOf(sb, u), b, c)
  {
    hide AllSet, Cleared, BitAt;
    ReadSector(sb, d, q);
    PatchRegion(d, SmapAt(sb), InodesAt(sb), q, x);
    var u := Patch(d, (2 + sb.nrImapSects + q) * SECTOR_SIZE, x);
    ReadSector(sb, u, r);
    assert Patch(SmapOf(sb, u), r * SECTOR_SIZE, SectorOf(SmapOf(sb, u), r)) == SmapOf(sb, u);
  }

  lemma FreeStart(sb: SuperBlock, d: seq<Byte>, q: nat, b: nat)
    requires Fits(sb, |d|) && q < sb.nrSmapSects
    ensures (2 + sb.nrImapSects + q + 1) * SECTOR_SIZE <= |d|
    ensures var s := 2 + sb.nrImapSects + q;
      Freeing(sb, d, d, q, d[s * SECTOR_SIZE..s * SECTOR_SIZE + SECTOR_SIZE], b, b)
  {
    var m := SmapOf(sb, d);
    ReadSector(sb, d, q);
    assert Patch(m, q * SECTOR_SIZE, SectorOf(m, q)) == m;
    EmptyClearing(m, b);
  }

  /** Clear bits of the j-th byte of the buffer from bit k0 on, until `left` reaches 0 or the byte ends. */
  method ClearHead(dev: Disk, j: nat, k0: nat, left0: nat) returns (ok: bool, left: nat)
    requires dev.Valid() && j < SECTOR_SIZE && k0 < 8
    modifies dev.fsbuf
    ensures var lo, hi := 8 * j + k0, 8 * j + if left0 < 8 - k0 then k0 + left0 else 8;
      var m0 := old(dev.fsbuf[..SECTOR_SIZE]);
      && (ok <==> AllSet(m0, lo, hi))
      && (ok ==> left == left0 - (hi - lo) && Cleared(m0, dev.fsbuf[..SECTOR_SIZE], lo, hi))
  {
    hide Cleared, AllSet, BitAt, Bit, AndNotBit, Shr;
    ghost var b0, m0 := dev.fsbuf[j], dev.fsbuf[..SECTOR_SIZE];
    ghost var hi := if left0 < 8 - k0 then k0 + left0 else 8;
    var k := k0;
    left := left0;
    while k < 8 && left > 0
      invariant k0 <= k <= hi && left == left0 - (k - k0) >= 0
      invariant dev.fsbuf[..SECTOR_SIZE] == m0[j := dev.fsbuf[j]]
      invariant forall t :: 0 <= t < 8 ==> (Bit(dev.fsbuf[j], t) <==> Bit(b0, t) && !(k0 <= t < k))
      invariant forall t :: k0 <= t < k ==> Bit(b0, t)
    {
      Shifts(dev.fsbuf[j], k);
      if Shr(dev.fsbuf[j], k) != 1 {
        UnsetByte(m0, j, k, k0, hi);
        return false, left;
      }
      ClearBits(dev.fsbuf[j], k);
      dev.fsbuf[j] := AndNotBit(dev.fsbuf[j], k);
      k := k + 1;
      left := left - 1;
    }
    ok := true;
    ClearedByte(m0, dev.fsbuf[..SECTOR_SIZE], j, k0, hi);
  }

  /** Clear a whole byte of the buffer. */
  method ClearByte(dev: Disk, j: nat) returns (ok: bool)
    requires dev.Valid() && j < SECTOR_SIZE
    modifies dev.fsbuf
    ensures var lo, hi := 8 * j, 8 * j + 8;
      var m0 := old(dev.fsbuf[..SECTOR_SIZE]);
      && (ok <==> AllSet(m0, lo, hi))
      && (ok ==> Cleared(m0, dev.fsbuf[..SECTOR_SIZE], lo, hi))
  {
    hide Cleared, AllSet, BitAt, Bit;
    ghost var m0 := dev.fsbuf[..SECTOR_SIZE];
    Full(m0[j]);
    if dev.fsbuf[j] != 0xFF {
      ghost var t :| 0 <= t < 8 && !Bit(m0[j], t);
      UnsetByte(m0, j, t, 0, 8);
      return false;
    }
    dev.fsbuf[j] := 0;
    forall t | 0 <= t < 8 ensures !Bit(0, t) { NoBits(t); }
    ClearedByte(m0, dev.fsbuf[..SECTOR_SIZE], j, 0, 8);
    ok := true;
  }

  /** Clear the low bits of a byte of the buffer. */
  method ClearTail(dev: Disk, j: nat, left: nat) returns (ok: bool)
    requires dev.Valid() && j < SECTOR_SIZE && left < 8
    modifies dev.fsbuf
    ensures var lo, hi := 8 * j, 8 * j + left;
      var m0 := old(dev.fsbuf[..SECTOR_SIZE]);
      && (ok <==> AllSet(m0, lo, hi))
      && (ok ==> Cleared(m0, dev.fsbuf[..SECTOR_SIZE], lo, hi))
      && (left == 0 ==> ok && dev.fsbuf[..SECTOR_SIZE] == m0)
  {
    hide Cleared, AllSet, BitAt, Bit, AndHigh, LowSet;
    ghost var m0 := dev.fsbuf[..SECTOR_SIZE];
    forall t | 0 <= t < 8
      ensures (Bit(AndHigh(m0[j], left), t) <==> Bit(m0[j], t) && t >= left)
        && (LowSet(m0[j], left) && t < left ==> Bit(m0[j], t))
    {
      LowBits(m0[j], left, t);
    }
    LowBits(m0[j], left, 0);
    if !LowSet(dev.fsbuf[j], left) {
      if forall t :: 0 <= t < left ==> Bit(m0[j], t) { LowBitsSet(m0[j], left); }
      ghost var t :| 0 <= t < left && !Bit(m0[j], t);
      UnsetByte(m0, j, t, 0, left);
      return false;
    }
    dev.fsbuf[j] := AndHigh(dev.fsbuf[j], left);
    ClearedByte(m0, dev.fsbuf[..SECTOR_SIZE], j, 0, left);
    ok := true;
  }

  /**
   The sector-map half of unlink: clear the bits of the extent, in a first partial byte, whole bytes and a last
   partial byte, moving to the next sector of the map as the bytes run out. The original asserts that each was set.
   */
  method FreeSmapBits(dev: Disk, sb: SuperBlock, startSect: nat, nrSects: nat) returns (ok: bool)
    requires dev.Valid() && Fits(sb, dev.bytes.Length) && startSect + 1 >= sb.n1stSect
    requires var b := startSect - sb.n1stSect + 1; b < sb.nrSmapSects * BITS && b + nrSects <= sb.nrSmapSects * BITS
    modifies dev.bytes, dev.fsbuf
    ensures var m0, b := SmapOf(sb, old(dev.bytes[..])), startSect - sb.n1stSect + 1;
      && (ok <==> AllSet(m0, b, b + nrSects))
      && (ok ==> Cleared(m0, SmapOf(sb, dev.bytes[..]), b, b + nrSects))
    ensures ok ==> SameOutside(old(dev.bytes[..]), dev.bytes[..], SmapAt(sb), InodesAt(sb))
  {
    hide Cleared, AllSet, BitAt, SmapOf, Patch, Freeing, CDiv;
    ghost var d0 := dev.bytes[..];
    var bitIdx: nat := startSect - sb.n1stSect + 1;
    var byteIdx := bitIdx / 8;
    var bitsLeft: nat := nrSects;
    var byteCnt := CDiv(bitsLeft - (8 - bitIdx % 8), 8);
    var s: nat := 2 + sb.nrImapSects + byteIdx / SECTOR_SIZE;
    ghost var q: nat := byteIdx / SECTOR_SIZE;
    ghost var at := 8 * (byteIdx % SECTOR_SIZE);
    Positions(bitIdx, nrSects, byteCnt);
    FreeStart(sb, d0, q, bitIdx);
    dev.RdSect(s);
    ghost var x := dev.fsbuf[..SECTOR_SIZE];
    ghost var lo, hi := at + bitIdx % 8, at + if bitsLeft < 8 - bitIdx % 8 then bitIdx % 8 + bitsLeft else 8;
    ok, bitsLeft := ClearHead(dev, byteIdx % SECTOR_SIZE, bitIdx % 8, bitsLeft);
    if !ok {
      FreeBlocked(sb, d0, d0, q, x, bitIdx, lo, hi, bitIdx + nrSects);
      return;
    }
    FreeStep(sb, d0, d0, q, x, dev.fsbuf[..SECTOR_SIZE], bitIdx, lo, hi);
    var i: nat := byteIdx % SECTOR_SIZE + 1;
    ghost var c: nat := q * BITS + hi;
    ok, s, i, bitsLeft, q, c := FreeWhole(dev, sb, s, i, bitsLeft, byteCnt, d0, q, bitIdx, c);
    if ok {
      ok := FreeLast(dev, sb, s, i, bitsLeft, d0, q, bitIdx, c);
    }
  }

  /** Where bit b of the map lies, and how many whole bytes remain after the first one. */
  lemma Positions(b: nat, n: nat, byteCnt: int)
    requires byteCnt == CDiv(n - (8 - b % 8), 8)
    ensures b == b / 8 / SECTOR_SIZE * BITS + 8 * (b / 8 % SECTOR_SIZE) + b % 8
    ensures if n == 0 then byteCnt <= 0 else if n < 8 - b % 8 then byteCnt == 0 else byteCnt == (n - (8 - b % 8)) / 8
  {
    assert b == 8 * (b / 8) + b % 8;
    assert b / 8 == b / 8 / SECTOR_SIZE * SECTOR_SIZE + b / 8 % SECTOR_SIZE;
  }

  /** The whole bytes of the extent. */
  method FreeWhole(dev: Disk, sb: SuperBlock, s0: nat, i0: nat, left0: nat, byteCnt: int,
                   ghost d0: seq<Byte>, ghost q0: nat, ghost b: nat, ghost c0: nat)
    returns (ok: bool, s: nat, i: nat, bitsLeft: nat, ghost q: nat, ghost c: nat)
    requires dev.Valid() && Fits(sb, dev.bytes.Length) && |d0| == dev.bytes.Length && 1 <= i0 <= SECTOR_SIZE
    requires s0 == 2 + sb.nrImapSects + q0 && Freeing(sb, d0, dev.bytes[..], q0, dev.fsbuf[..SECTOR_SIZE], b, c0)
    requires (byteCnt == left0 / 8 || (left0 == 0 && byteCnt <= 0)) && (left0 > 0 ==> c0 == q0 * BITS + 8 * i0)
      && c0 + left0 <= sb.nrSmapSects * BITS
    modifies dev.bytes, dev.fsbuf
    ensures !ok ==> !AllSet(SmapOf(sb, d0), b, c0 + left0)
    ensures ok ==> 1 <= i <= SECTOR_SIZE && bitsLeft < 8 && s == 2 + sb.nrImapSects + q && c + bitsLeft == c0 + left0
    ensures ok ==>
      Freeing(sb, d0, dev.bytes[..], q, dev.fsbuf[..SECTOR_SIZE], b, c)
      && (bitsLeft > 0 ==> c == q * BITS + 8 * i)
  {
    hide Cleared, AllSet, BitAt, SmapOf, Patch, Freeing, Fits;
    ok, s, i, bitsLeft, q, c := true, s0, i0, left0, q0, c0;
    var k := 0;
    while k < byteCnt
      invariant 0 <= k && (k <= byteCnt || left0 == k == 0) && 1 <= i <= SECTOR_SIZE && s == 2 + sb.nrImapSects + q
      invariant c + bitsLeft == c0 + left0
      invariant Freeing(sb, d0, dev.bytes[..], q, dev.fsbuf[..SECTOR_SIZE], b, c)
      invariant (bitsLeft > 0 ==> c == q * BITS + 8 * i) && bitsLeft == left0 - 8 * k
    {
      if i == SECTOR_SIZE {
        i := 0;
        FreeNext(sb, d0, dev.bytes[..], q, dev.fsbuf[..SECTOR_SIZE], b, c, q + 1);
        dev.WrSect(s);
        s := s + 1;
        dev.RdSect(s);
        q := q + 1;
      }
      ghost var x := dev.fsbuf[..SECTOR_SIZE];
      ok := ClearByte(dev, i);
      if !ok {
        FreeBlocked(sb, d0, dev.bytes[..], q, x, b, 8 * i, 8 * i + 8, c0 + left0);
        return;
      }
      FreeStep(sb, d0, dev.bytes[..], q, x, dev.fsbuf[..SECTOR_SIZE], b, 8 * i, 8 * i + 8);
      c := c + 8;
      k := k + 1;
      i := i + 1;
      bitsLeft := bitsLeft - 8;
    }
  }

  /** The last partial byte, in the sector in the buffer or at the start of the next one. */
  method FreeLast(dev: Disk, sb: SuperBlock, s0: nat, i0: nat, bitsLeft: nat, ghost d0: seq<Byte>, ghost q0: nat,
                  ghost b: nat, ghost c: nat)
    returns (ok: bool)
    requires dev.Valid() && Fits(sb, dev.bytes.Length) && |d0| == dev.bytes.Length && 1 <= i0 <= SECTOR_SIZE
    requires bitsLeft < 8
    requires s0 == 2 + sb.nrImapSects + q0 && Freeing(sb, d0, dev.bytes[..], q0, dev.fsbuf[..SECTOR_SIZE], b, c)
    requires bitsLeft > 0 ==> c == q0 * BITS + 8 * i0
    requires c + bitsLeft <= sb.nrSmapSects * BITS
    modifies dev.bytes, dev.fsbuf
    ensures ok <==> AllSet(SmapOf(sb, d0), b, c + bitsLeft)
    ensures ok ==> Cleared(SmapOf(sb, d0), SmapOf(sb, dev.bytes[..]), b, c + bitsLeft)
    ensures ok ==> SameOutside(d0, dev.bytes[..], SmapAt(sb), InodesAt(sb))
  {
    hide Cleared, AllSet, BitAt, SmapOf, Patch, Freeing, Fits, SameOutside, InodesAt, SmapAt;
    var s, i := s0, i0;
    ghost var q := q0;
    RoomAfter(sb, d0, dev.bytes[..], q, dev.fsbuf[..SECTOR_SIZE], b, c);
    ghost var past := i == SECTOR_SIZE && q + 1 == sb.nrSmapSects;
    if i == SECTOR_SIZE {
      i := 0;
      FreeNext(sb, d0, dev.bytes[..], q, dev.fsbuf[..SECTOR_SIZE], b, c, if past then q else q + 1);
      dev.WrSect(s);
      s := s + 1;
      dev.RdSect(s);
      q := q + 1;
    }
    ghost var d, x := dev.bytes[..], dev.fsbuf[..SECTOR_SIZE];
    if past {
      FreeingShape(sb, d0, d, q0, d[s0 * SECTOR_SIZE..s0 * SECTOR_SIZE + SECTOR_SIZE], b, c);
      SamePatch(d, s * SECTOR_SIZE, x);
    }
    ok := ClearTail(dev, i, bitsLeft);
    if !ok {
      FreeBlocked(sb, d0, d, q, x, b, 8 * i, 8 * i + bitsLeft, c + bitsLeft);
      return;
    }
    if !past {
      if bitsLeft > 0 {
        FreeStep(sb, d0, d, q, x, dev.fsbuf[..SECTOR_SIZE], b, 8 * i, 8 * i + bitsLeft);
      }
      FreeNext(sb, d0, d, q, dev.fsbuf[..SECTOR_SIZE], b, c + bitsLeft, q);
    }
    dev.WrSect(s);
    if !past {
      FreeingShape(sb, d0, dev.bytes[..], q, dev.bytes[s * SECTOR_SIZE..s * SECTOR_SIZE + SECTOR_SIZE],
                   b, c + bitsLeft);
    }
  }

  /** One sector always follows the sector map. */
  lemma RoomAfter(sb: SuperBlock, d0: seq<Byte>, d: seq<Byte>, q: nat, x: seq<Byte>, b: nat, c: nat)
    requires Fits(sb, |d0|) && Freeing(sb, d0, d, q, x, b, c)
    ensures |d| == |d0| && q < sb.nrSmapSects && (2 + sb.nrImapSects + q + 2) * SECTOR_SIZE <= |d|
  {
  }

  lemma FreeingShape(sb: SuperBlock, d0: seq<Byte>, d: seq<Byte>, q: nat, x: seq<Byte>, b: nat, c: nat)
    requires Fits(sb, |d0|) && Freeing(sb, d0, d, q, x, b, c)
    ensures SameOutside(d0, d, SmapAt(sb), InodesAt(sb)) && |d| == |d0| && q < sb.nrSmapSects
    ensures b <= c && AllSet(SmapOf(sb, d0), b, c)
  {
  }

  lemma SamePatch(d: seq<Byte>, pos: nat, x: seq<Byte>)
    requires pos + |x| <= |d| && x == d[pos..pos + |x|]
    ensures Patch(d, pos, x) == d
  {
  }
}
