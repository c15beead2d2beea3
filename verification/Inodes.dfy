/**
 The inode array on the device and the reference-counted table of inodes in use. A live table entry is always
 the only one for its inode and agrees with the record on the device.
 */
module Inodes {
  import opened Bytes
  import opened Device
  import opened Layout

  const NR_INODE: nat := 64
  const PER_SECTOR: nat := 16
  const I_REGULAR: int := 0x8000
  const I_DIRECTORY: int := 0x4000
  const I_CHAR_SPECIAL: int := 0x2000

  type U32 = x: int | 0 <= x < WORD

  /** The part of an inode that is kept on the device. */
  datatype Record = Record(mode: U32, size: U32, start: U32, nrSects: U32)
  datatype Inode = Inode(rec: Record, cnt: int, num: int)

  const FREE: Inode := Inode(Record(0, 0, 0, 0), 0, 0)

  // ----- Records on the device -----

  predicate IsInodeNr(num: int) { 1 <= num <= NR_INODES }

  function RecordPos(sb: SuperBlock, num: int): nat
    requires IsInodeNr(num)
  {
    InodesAt(sb) + (num - 1) * INODE_SIZE
  }

  function WordAt(d: seq<Byte>, pos: nat): int
    requires pos + 4 <= |d|
  {
    Word(d[pos..pos + 4])
  }

  function RecordOf(sb: SuperBlock, d: seq<Byte>, num: int): Record
    requires Fits(sb, |d|) && IsInodeNr(num)
  {
    var p := RecordPos(sb, num);
    WordRange(d[p..p + 4]);
    WordRange(d[p + 4..p + 8]);
    WordRange(d[p + 8..p + 12]);
    WordRange(d[p + 12..p + 16]);
    Record(WordAt(d, p), WordAt(d, p + 4), WordAt(d, p + 8), WordAt(d, p + 12))
  }

  function RecordBytes(r: Record): (x: seq<Byte>)
    ensures |x| == 16
  {
    WordBytes(r.mode) + WordBytes(r.size) + WordBytes(r.start) + WordBytes(r.nrSects)
  }

  /** b is a with the record of one inode, and not a byte more, replaced. */
  ghost predicate Rewritten(sb: SuperBlock, a: seq<Byte>, b: seq<Byte>, num: int, r: Record) {
    && Fits(sb, |a|) && |b| == |a| && IsInodeNr(num)
    && RecordOf(sb, b, num) == r
    && SameOutside(a, b, RecordPos(sb, num), RecordPos(sb, num) + 16)
  }

  /** Words outside a changed range are the same. */
  lemma WordElsewhere(a: seq<Byte>, b: seq<Byte>, lo: nat, hi: nat, pos: nat)
    requires SameOutside(a, b, lo, hi) && pos + 4 <= |a| && (pos + 4 <= lo || hi <= pos)
    ensures WordAt(b, pos) == WordAt(a, pos)
  {
    if pos + 4 <= lo {
      assert b[..lo][pos..pos + 4] == a[..lo][pos..pos + 4];
      assert b[pos..pos + 4] == b[..lo][pos..pos + 4] && a[pos..pos + 4] == a[..lo][pos..pos + 4];
    } else {
      assert b[hi..][pos - hi..pos - hi + 4] == a[hi..][pos - hi..pos - hi + 4];
      assert b[pos..pos + 4] == b[hi..][pos - hi..pos - hi + 4] && a[pos..pos + 4] == a[hi..][pos - hi..pos - hi + 4];
    }
  }

  /** A change that stays clear of a record leaves it as it was. */
  lemma RecordElsewhere(sb: SuperBlock, a: seq<Byte>, b: seq<Byte>, lo: nat, hi: nat, num: int)
    requires Fits(sb, |a|) && SameOutside(a, b, lo, hi) && IsInodeNr(num)
    requires RecordPos(sb, num) + 16 <= lo || hi <= RecordPos(sb, num)
    ensures RecordOf(sb, b, num) == RecordOf(sb, a, num)
  {
    hide Word, SameOutside;
    var p := RecordPos(sb, num);
    assert |b| == |a| && p + 16 <= |a| by { RecordInRange(sb, a, b, lo, hi, num); }
    WordElsewhere(a, b, lo, hi, p);
    WordElsewhere(a, b, lo, hi, p + 4);
    WordElsewhere(a, b, lo, hi, p + 8);
    WordElsewhere(a, b, lo, hi, p + 12);
  }

  lemma RecordInRange(sb: SuperBlock, a: seq<Byte>, b: seq<Byte>, lo: nat, hi: nat, num: int)
    requires Fits(sb, |a|) && SameOutside(a, b, lo, hi) && IsInodeNr(num)
    ensures |b| == |a| && RecordPos(sb, num) + 32 <= DataAt(sb) <= |a|
  {
    RegionsAreDisjoint(sb, |a|);
  }

  lemma {:induction false} RecordsApart(sb: SuperBlock, m: int, n: int)
    requires IsInodeNr(m) && IsInodeNr(n) && m != n
    ensures RecordPos(sb, m) + 16 <= RecordPos(sb, n) || RecordPos(sb, n) + 16 <= RecordPos(sb, m)
  {
  }

  /** Rewriting one record leaves every other record, and everything outside the inode array, alone. */
  lemma RewritesOneRecord(sb: SuperBlock, a: seq<Byte>, b: seq<Byte>, num: int, r: Record, other: int)
    requires Rewritten(sb, a, b, num, r) && IsInodeNr(other) && other != num
    ensures RecordOf(sb, b, other) == RecordOf(sb, a, other)
    ensures SameOutside(a, b, InodesAt(sb), DataAt(sb))
  {
    RecordsApart(sb, num, other);
    RecordElsewhere(sb, a, b, RecordPos(sb, num), RecordPos(sb, num) + 16, other);
    RecordInRange(sb, a, b, RecordPos(sb, num), RecordPos(sb, num) + 16, num);
    Widen(a, b, RecordPos(sb, num), RecordPos(sb, num) + 16, InodesAt(sb), DataAt(sb));
  }

  lemma Widen(a: seq<Byte>, b: seq<Byte>, lo: nat, hi: nat, lo': nat, hi': nat)
    requires SameOutside(a, b, lo, hi) && lo' <= lo && hi <= hi' <= |a|
    ensures SameOutside(a, b, lo', hi')
  {
    assert b[..lo'] == b[..lo][..lo'] && a[..lo'] == a[..lo][..lo'];
    assert b[hi'..] == b[hi..][hi' - hi..] && a[hi'..] == a[hi..][hi' - hi..];
  }

  lemma PatchedRecord(sb: SuperBlock, d: seq<Byte>, num: int, r: Record)
    requires Fits(sb, |d|) && IsInodeNr(num)
    ensures RecordPos(sb, num) + 16 <= |d|
    ensures Rewritten(sb, d, Patch(d, RecordPos(sb, num), RecordBytes(r)), num, r)
  {
    hide Word, WordBytes, Patch, RecordBytes;
    RegionsAreDisjoint(sb, |d|);
    var p, x := RecordPos(sb, num), RecordBytes(r);
    RecordParts(r);
    PatchedSlice(d, p, x, 0, 4);
    PatchedSlice(d, p, x, 4, 8);
    PatchedSlice(d, p, x, 8, 12);
    PatchedSlice(d, p, x, 12, 16);
    WordRoundTrip(r.mode);
    WordRoundTrip(r.size);
    WordRoundTrip(r.start);
    WordRoundTrip(r.nrSects);
    PatchedElsewhere(d, p, x);
  }

  lemma RecordParts(r: Record)
    ensures var x := RecordBytes(r);
      && |x| == 16 && x[0..4] == WordBytes(r.mode) && x[4..8] == WordBytes(r.size) && x[8..12] == WordBytes(r.start)
      && x[12..16] == WordBytes(r.nrSects)
  {
    hide WordBytes;
  }

  // ----- The table -----

  ghost predicate Live(t: seq<Inode>, i: int, num: int) {
    0 <= i < |t| && t[i].cnt > 0 && t[i].num == num
  }

  /** Every live entry agrees with its record on the device and is the only one for its inode. */
  ghost predicate CacheOk(t: seq<Inode>, sb: SuperBlock, d: seq<Byte>) {
    && Fits(sb, |d|) && |t| == NR_INODE
    && (forall i :: 0 <= i < |t| ==> t[i].cnt >= 0)
    && (forall i :: 0 <= i < |t| && t[i].cnt > 0 ==> IsInodeNr(t[i].num) && t[i].rec == RecordOf(sb, d, t[i].num))
    && forall i, j :: 0 <= i < j < |t| && t[i].cnt > 0 && t[j].cnt > 0 ==> t[i].num != t[j].num
  }

  ghost predicate IsFirstFree(t: seq<Inode>, q: int) {
    0 <= q < |t| && t[q].cnt == 0 && forall i :: 0 <= i < q ==> t[i].cnt != 0
  }

  /** The table after one more reference to inode `num`, held at entry i. */
  ghost predicate Got(t: seq<Inode>, u: seq<Inode>, sb: SuperBlock, d: seq<Byte>, num: int, i: int) {
    && Fits(sb, |d|) && IsInodeNr(num) && |u| == |t|
    && if exists k :: Live(t, k, num) then Live(t, i, num) && u == t[i := t[i].(cnt := t[i].cnt + 1)]
       else IsFirstFree(t, i) && u == t[i := Inode(RecordOf(sb, d, num), 1, num)]
  }

  lemma GotKeepsCache(t: seq<Inode>, u: seq<Inode>, sb: SuperBlock, d: seq<Byte>, num: int, i: int)
    requires CacheOk(t, sb, d) && Got(t, u, sb, d, num, i)
    ensures CacheOk(u, sb, d) && Live(u, i, num)
  {
    hide RecordOf, Fits;
    if !Live(t, i, num) {
      forall k | 0 <= k < |t| && k != i && u[k].cnt > 0 ensures u[k].num != num {
        assert !Live(t, k, num);
      }
    }
  }

  /** Rewriting the record of a live entry, in the table and on the device, keeps the two in agreement. */
  lemma RewriteKeepsCache(t: seq<Inode>, sb: SuperBlock, d: seq<Byte>, e: seq<Byte>, i: nat, r: Record)
    requires CacheOk(t, sb, d) && i < |t| && t[i].cnt > 0 && Rewritten(sb, d, e, t[i].num, r)
    ensures CacheOk(t[i := t[i].(rec := r)], sb, e)
  {
    hide RecordOf;
    var u := t[i := t[i].(rec := r)];
    forall k | 0 <= k < |u| && u[k].cnt > 0 ensures IsInodeNr(u[k].num) && u[k].rec == RecordOf(sb, e, u[k].num) {
      if k != i { RewritesOneRecord(sb, d, e, t[i].num, r, t[k].num); }
    }
  }

  /** Changes outside the inode array do not disturb the agreement. */
  lemma ElsewhereKeepsCache(t: seq<Inode>, sb: SuperBlock, d: seq<Byte>, e: seq<Byte>, lo: nat, hi: nat)
    requires CacheOk(t, sb, d) && SameOutside(d, e, lo, hi) && (hi <= InodesAt(sb) || DataAt(sb) <= lo)
    ensures CacheOk(t, sb, e)
  {
    hide RecordOf;
    forall k | 0 <= k < |t| && t[k].cnt > 0 ensures t[k].rec == RecordOf(sb, e, t[k].num) {
      RecordInRange(sb, d, e, lo, hi, t[k].num);
      RecordElsewhere(sb, d, e, lo, hi, t[k].num);
    }
  }

  class Table {
    const slots: array<Inode>

    constructor ()
      ensures slots.Length == NR_INODE && fresh(slots) && forall i :: 0 <= i < NR_INODE ==> slots[i] == FREE
    {
      slots := new Inode[NR_INODE](_ => FREE);
    }

    ghost predicate Beside(dev: Disk) {
      var o: object := slots;
      dev.Valid() && o != dev.bytes && o != dev.fsbuf
    }

    /**
     One more reference to an inode; entry -1 stands for the null pointer of inode 0. `ok` is false where the
     original panics because the table is full.
     */
    method GetInode(dev: Disk, sb: SuperBlock, num: int) returns (ok: bool, i: int)
      requires Beside(dev) && CacheOk(slots[..], sb, dev.bytes[..]) && (num == 0 || IsInodeNr(num))
      modifies slots, dev.fsbuf
      ensures num == 0 ==> ok && i == -1
      ensures ok <==>
        num == 0 || (exists k :: Live(old(slots[..]), k, num))
        || exists q :: IsFirstFree(old(slots[..]), q)
      ensures if ok && num != 0 then Got(old(slots[..]), slots[..], sb, dev.bytes[..], num, i)
        else slots[..] == old(slots[..])
    {
      hide RecordOf, Fits;
      ghost var t, d := slots[..], dev.bytes[..];
      if num == 0 {
        return true, -1;
      }
      var q := -1;
      var p := 0;
      while p < NR_INODE
        invariant 0 <= p <= NR_INODE && slots[..] == t && dev.bytes[..] == d
        invariant forall k :: 0 <= k < p ==> !Live(t, k, num)
        invariant if q == -1 then forall k :: 0 <= k < p ==> t[k].cnt != 0 else q < p && IsFirstFree(t, q)
      {
        if slots[p].cnt != 0 {
          if slots[p].num == num {
            assert Live(t, p, num);
            slots[p] := slots[p].(cnt := slots[p].cnt + 1);
            return true, p;
          }
        } else {
          if q == -1 {
            q := p;
          }
        }
        p := p + 1;
      }
      if q == -1 {
        return false, -1;
      }
      slots[q] := slots[q].(num := num);
      slots[q] := slots[q].(cnt := 1);
      var r := LoadRecord(dev, sb, num);
      slots[q] := slots[q].(rec := r);
      assert dev.bytes[..] == d && slots[..] == t[q := Inode(r, 1, num)];
      return true, q;
    }

    method LoadRecord(dev: Disk, sb: SuperBlock, num: int) returns (r: Record)
      requires dev.Valid() && Fits(sb, dev.bytes.Length) && IsInodeNr(num)
      modifies dev.fsbuf
      ensures r == RecordOf(sb, dev.bytes[..], num)
    {
      hide Word, Fits;
      var blkNr := 1 + 1 + sb.nrImapSects + sb.nrSmapSects + (num - 1) / PER_SECTOR;
      var at := (num - 1) % PER_SECTOR * INODE_SIZE;
      RecordInSector(sb, dev.bytes[..], num);
      dev.RdSect(blkNr);
      var x := dev.fsbuf[..SECTOR_SIZE];
      WordInSector(dev.bytes[..], x, blkNr * SECTOR_SIZE, at);
      WordInSector(dev.bytes[..], x, blkNr * SECTOR_SIZE, at + 4);
      WordInSector(dev.bytes[..], x, blkNr * SECTOR_SIZE, at + 8);
      WordInSector(dev.bytes[..], x, blkNr * SECTOR_SIZE, at + 12);
      r := Record(WordAt(x, at), WordAt(x, at + 4), WordAt(x, at + 8), WordAt(x, at + 12));
    }

    method PutInode(i: nat)
      requires slots.Length == NR_INODE && i < NR_INODE && slots[i].cnt > 0
      modifies slots
      ensures slots[..] == old(slots[..])[i := old(slots[i]).(cnt := old(slots[i].cnt) - 1)]
    {
      slots[i] := slots[i].(cnt := slots[i].cnt - 1);
    }

    /** Write an entry's record back to the device, reading and rewriting its sector. */
    method SyncInode(dev: Disk, sb: SuperBlock, i: nat)
      requires Beside(dev) && Fits(sb, dev.bytes.Length) && slots.Length == NR_INODE && i < NR_INODE
      requires IsInodeNr(slots[i].num)
      modifies dev.bytes, dev.fsbuf
      ensures Rewritten(sb, old(dev.bytes[..]), dev.bytes[..], slots[i].num, slots[i].rec)
      ensures slots[..] == old(slots[..])
    {
      hide Word, WordBytes, Rewritten, Fits, Patch;
      ghost var d := dev.bytes[..];
      var num, r := slots[i].num, slots[i].rec;
      var blkNr := 1 + 1 + sb.nrImapSects + sb.nrSmapSects + (num - 1) / PER_SECTOR;
      var at := (num - 1) % PER_SECTOR * INODE_SIZE;
      RecordInSector(sb, d, num);
      dev.RdSect(blkNr);
      ghost var x := dev.fsbuf[..SECTOR_SIZE];
      PutWord(dev, at, r.mode);
      PutWord(dev, at + 4, r.size);
      PutWord(dev, at + 8, r.start);
      PutWord(dev, at + 12, r.nrSects);
      FourWords(x, dev.fsbuf[..SECTOR_SIZE], at, r);
      dev.WrSect(blkNr);
      PatchInSector(d, blkNr * SECTOR_SIZE, at, x, RecordBytes(r));
      PatchedRecord(sb, d, num, r);
    }

    method PutWord(dev: Disk, at: nat, v: U32)
      requires dev.Valid() && at + 4 <= SECTOR_SIZE
      modifies dev.fsbuf
      ensures dev.fsbuf[..SECTOR_SIZE] == Patch(old(dev.fsbuf[..SECTOR_SIZE]), at, WordBytes(v))
    {
      hide WordBytes;
      var x := WordBytes(v);
      forall k | 0 <= k < 4 {
        dev.fsbuf[at + k] := x[k];
      }
    }
  }

  lemma RecordInSector(sb: SuperBlock, d: seq<Byte>, num: int)
    requires Fits(sb, |d|) && IsInodeNr(num)
    ensures var blkNr := 1 + 1 + sb.nrImapSects + sb.nrSmapSects + (num - 1) / PER_SECTOR;
      var at := (num - 1) % PER_SECTOR * INODE_SIZE;
      (blkNr + 1) * SECTOR_SIZE <= |d| && RecordPos(sb, num) == blkNr * SECTOR_SIZE + at
        && at + INODE_SIZE <= SECTOR_SIZE
  {
    RegionsAreDisjoint(sb, |d|);
    hide Fits;
    SectorAndOffset(num - 1, 2 + sb.nrImapSects + sb.nrSmapSects);
  }

  lemma SectorAndOffset(k: nat, s: nat)
    requires k < NR_INODES
    ensures var q, r := k / PER_SECTOR, k % PER_SECTOR;
      && s * SECTOR_SIZE + k * INODE_SIZE == (s + q) * SECTOR_SIZE + r * INODE_SIZE
      && (s + q + 1) * SECTOR_SIZE <= s * SECTOR_SIZE + NR_INODES * INODE_SIZE
      && r * INODE_SIZE + INODE_SIZE <= SECTOR_SIZE
  {
    var q, r := k / PER_SECTOR, k % PER_SECTOR;
    assert k == q * 16 + r && 0 <= r < 16 && q < 256;
  }

  lemma WordInSector(d: seq<Byte>, x: seq<Byte>, pos: nat, at: nat)
    requires pos + SECTOR_SIZE <= |d| && x == d[pos..pos + SECTOR_SIZE] && at + 4 <= SECTOR_SIZE
    ensures WordAt(x, at) == WordAt(d, pos + at) && 0 <= WordAt(x, at) < WORD
  {
    SliceOfSlice(d, pos, pos + SECTOR_SIZE, at, at + 4);
    WordRange(x[at..at + 4]);
  }

  lemma FourWords(x: seq<Byte>, y: seq<Byte>, at: nat, r: Record)
    requires |x| == SECTOR_SIZE && at + 16 <= |x|
    requires y == Patch(Patch(Patch(Patch(x, at, WordBytes(r.mode)), at + 4, WordBytes(r.size)),
                              at + 8, WordBytes(r.start)),
                        at + 12, WordBytes(r.nrSects))
    ensures y == Patch(x, at, RecordBytes(r))
  {
    hide WordBytes;
  }

  /** Rewriting part of a sector in the buffer and then the sector is rewriting that part of the device. */
  lemma PatchInSector(d: seq<Byte>, pos: nat, at: nat, x: seq<Byte>, z: seq<Byte>)
    requires pos + SECTOR_SIZE <= |d| && x == d[pos..pos + SECTOR_SIZE] && at + |z| <= SECTOR_SIZE
    ensures Patch(d, pos, Patch(x, at, z)) == Patch(d, pos + at, z)
  {
  }
}
