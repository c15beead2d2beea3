/** What reading and writing mean for the contents of files. */
module FileContents {
  import opened Bytes
  import opened Device
  import opened Layout
  import opened Extents
  import opened Inodes
  import opened Directory
  import opened FsInv
  import opened Descriptors
  import opened FsState
  import opened ReadWrite
  import opened FsCalls

  ghost predicate OnDisk(d: seq<Byte>, r: Record) { r.start * SECTOR_SIZE + r.size <= |d| }

  /** The bytes of a file. */
  ghost function FileOf(d: seq<Byte>, r: Record): seq<Byte> {
    if OnDisk(d, r) then d[r.start * SECTOR_SIZE..r.start * SECTOR_SIZE + r.size] else []
  }

  /** A file's bytes with some of them, or some more at its end, overwritten. */
  ghost function Overwritten(c: seq<Byte>, pos: int, data: seq<Byte>): seq<Byte> {
    if 0 <= pos <= |c| then c[..pos] + data + (if pos + |data| < |c| then c[pos + |data|..] else []) else c
  }

  /** The descriptor still moves bytes, and advancing it does not touch the bytes of any file. */
  lemma AdvanceKeepsBytes(sb: SuperBlock, s: State, e: seq<Byte>, s': State, src: int, fd: int, n: nat)
    requires FsOk(sb, s) && Advanced(sb, s, e, s', src, fd, n) && |e| == |s.disk|
    ensures MovesBytes(s', src, fd) && |s'.disk| == |e| && DataAt(sb) <= |e| && s'.disk[DataAt(sb)..] == e[DataAt(sb)..]
    ensures RecordAt(s', src, fd) == RecordAt(s, src, fd).(size := RecordAt(s', src, fd).size)
    ensures var size, end := RecordAt(s, src, fd).size, PosAt(s, src, fd) + n;
      RecordAt(s', src, fd).size == if end >= size then end else size
    ensures 0 <= PosAt(s, src, fd) <= RecordAt(s, src, fd).size && PosAt(s', src, fd) == PosAt(s, src, fd) + n
  {
    hide RecordOf, DiskOk, CacheOk, RefsOk, FilpOk, SameOutside;
    OpenSlot(sb, s, src, fd);
    RegionsAreDisjoint(sb, |s.disk|);
    var num := s.table[s.desc[s.filp[src][fd]].inode].num;
    if s'.disk != e {
      RecordInRange(sb, e, s'.disk, RecordPos(sb, num), RecordPos(sb, num) + 16, num);
      BytesElsewhere(e, s'.disk, RecordPos(sb, num), RecordPos(sb, num) + 16, DataAt(sb), |e|);
    }
  }

  /** A write replaces the bytes at the descriptor's position, and makes the file longer where it ends behind it. */
  lemma WriteOverwrites(sb: SuperBlock, s: State, s': State, src: int, fd: int, data: seq<Byte>)
    requires FsOk(sb, s) && WroteFile(sb, s, s', src, fd, data) && OnDisk(s.disk, RecordAt(s, src, fd))
    ensures MovesBytes(s', src, fd) && OnDisk(s'.disk, RecordAt(s', src, fd))
    ensures 0 <= PosAt(s, src, fd) <= RecordAt(s, src, fd).size
    ensures FileOf(s'.disk, RecordAt(s', src, fd)) ==
      Overwritten(FileOf(s.disk, RecordAt(s, src, fd)), PosAt(s, src, fd), data)
  {
    hide RecordOf, DiskOk, CacheOk, TablesOk, Advanced, Overwritten, FileOf, HasExtent, Patch;
    var r, pos := RecordAt(s, src, fd), PosAt(s, src, fd);
    var p := r.start * SECTOR_SIZE + pos;
    var e := Wrote(s.disk, p, data);
    AdvanceKeepsBytes(sb, s, e, s', src, fd, |data|);
    OpenExtent(sb, s, src, fd);
    var r' := RecordAt(s', src, fd);
    PatchedFile(s.disk, r, r', pos, data);
    SameFile(e, s'.disk, DataAt(sb), r');
  }

  /** The same bytes behind the maps and inodes make the same file. */
  lemma SameFile(d: seq<Byte>, e: seq<Byte>, from: nat, r: Record)
    requires |d| == |e| && from <= r.start * SECTOR_SIZE && from <= |d| && d[from..] == e[from..]
    ensures (OnDisk(d, r) <==> OnDisk(e, r)) && FileOf(d, r) == FileOf(e, r)
  {
    if OnDisk(d, r) { SameSlice(d, e, from, r.start * SECTOR_SIZE, r.start * SECTOR_SIZE + r.size); }
  }

  lemma SameSlice(a: seq<Byte>, b: seq<Byte>, from: nat, lo: nat, hi: nat)
    requires |a| == |b| && from <= lo <= hi <= |a| && a[from..] == b[from..]
    ensures a[lo..hi] == b[lo..hi]
  {
    SliceOfSlice(a, from, |a|, lo - from, hi - from);
    SliceOfSlice(b, from, |b|, lo - from, hi - from);
    assert a[from..|a|] == a[from..] && b[from..|b|] == b[from..];
  }

  lemma PatchedFile(d: seq<Byte>, r: Record, r': Record, pos: nat, data: seq<Byte>)
    requires OnDisk(d, r) && pos <= r.size && r.start * SECTOR_SIZE + pos + |data| <= |d| && r'.start == r.start
    requires r'.size == if pos + |data| >= r.size then pos + |data| else r.size
    ensures OnDisk(Patch(d, r.start * SECTOR_SIZE + pos, data), r')
    ensures FileOf(Patch(d, r.start * SECTOR_SIZE + pos, data), r') == Overwritten(FileOf(d, r), pos, data)
  {
    var e := Patch(d, r.start * SECTOR_SIZE + pos, data);
    var a, b := FileOf(e, r'), Overwritten(FileOf(d, r), pos, data);
    assert |a| == |b|;
    forall i | 0 <= i < |a| ensures a[i] == b[i] {
      assert a[i] == e[r.start * SECTOR_SIZE + i];
    }
  }

  /** Byte q lies in the extent of a file. */
  ghost predicate InExtent(r: Record, q: nat) {
    r.start * SECTOR_SIZE <= q < r.start * SECTOR_SIZE + r.nrSects * SECTOR_SIZE
  }

  /** A write that stays in its extent stays clear of every other file's. */
  lemma WriteStaysApart(sb: SuperBlock, s: State, src: int, fd: int, n: nat, m: int, r': Record, q: nat)
    requires FsOk(sb, s) && MovesBytes(s, src, fd) && 0 <= PosAt(s, src, fd)
    requires PosAt(s, src, fd) + n <= RecordAt(s, src, fd).nrSects * SECTOR_SIZE
    requires m in s.blocks && m != InodeAt(s, src, fd) && IsInodeNr(m) && Fits(sb, |s.disk|)
    requires r' == RecordOf(sb, s.disk, m) && InExtent(r', q)
    ensures var p := RecordAt(s, src, fd).start * SECTOR_SIZE + PosAt(s, src, fd);
      DataAt(sb) <= p && DataAt(sb) <= q && (q < p || p + n <= q)
  {
    hide RecordOf, CacheOk, TablesOk, Refines, HoldsBlocks, ImapMarks;
    var r, num := RecordAt(s, src, fd), InodeAt(s, src, fd);
    OpenExtent(sb, s, src, fd);
    ExtentBytes(sb, r, s.blocks[num]);
    ExtentBytes(sb, r', s.blocks[m]);
    ExtentsApart(s.blocks[num], s.blocks[m], DataAt(sb), r.start * SECTOR_SIZE + PosAt(s, src, fd), n, q);
  }

  /** So it leaves the record and every byte of every other file. */
  lemma WriteLeavesOthers(sb: SuperBlock, s: State, s': State, src: int, fd: int, data: seq<Byte>, m: int, q: nat)
    requires FsOk(sb, s) && WroteFile(sb, s, s', src, fd, data)
    requires PosAt(s, src, fd) + |data| <= RecordAt(s, src, fd).nrSects * SECTOR_SIZE
    requires m in s.blocks && m != InodeAt(s, src, fd) && IsInodeNr(m) && Fits(sb, |s.disk|) && |s'.disk| == |s.disk|
    requires q < |s.disk| && InExtent(RecordOf(sb, s.disk, m), q)
    ensures RecordOf(sb, s'.disk, m) == RecordOf(sb, s.disk, m) && s'.disk[q] == s.disk[q]
  {
    hide RecordOf, DiskOk, CacheOk, TablesOk, SameOutside, InExtent, Wrote, HasExtent;
    var p := RecordAt(s, src, fd).start * SECTOR_SIZE + PosAt(s, src, fd);
    var e := Wrote(s.disk, p, data);
    AdvanceKeepsBytes(sb, s, e, s', src, fd, |data|);
    WriteStaysApart(sb, s, src, fd, |data|, m, RecordOf(sb, s.disk, m), q);
    assert s'.disk[q] == s'.disk[DataAt(sb)..][q - DataAt(sb)] == e[DataAt(sb)..][q - DataAt(sb)] == e[q];
    WroteElsewhere(sb, s.disk, p, data, m, q);
    if s'.disk != e { RewritesOneRecord(sb, e, s'.disk, InodeAt(s, src, fd), RecordAt(s', src, fd), m); }
  }

  /**
   A write that starts in its extent or at its end stays out of the block behind it exactly when it is asked for no
   more bytes than the extent has room for; otherwise it overwrites the first byte of the file that has that block.
   */
  lemma WriteReachesNext(sb: SuperBlock, s: State, s': State, src: int, fd: int, len: nat, data: seq<Byte>,
                         capacity: nat, n: nat, m: int)
    requires FsOk(sb, s) && MovesBytes(s, src, fd) && |data| == len && IsWritten(s, src, fd, len, capacity, n)
    requires WroteFile(sb, s, s', src, fd, data[..n])
    requires PosAt(s, src, fd) <= RecordAt(s, src, fd).nrSects * SECTOR_SIZE
    requires m in s.blocks && IsInodeNr(m) && Fits(sb, |s.disk|)
    requires InodeAt(s, src, fd) in s.blocks && s.blocks[m] == s.blocks[InodeAt(s, src, fd)] + 1
    ensures |s'.disk| == |s.disk|
    ensures var room := RecordAt(s, src, fd).nrSects * SECTOR_SIZE - PosAt(s, src, fd);
      var q := RecordOf(sb, s.disk, m).start * SECTOR_SIZE;
      if len <= room then n == len && (q < |s.disk| ==> s'.disk[q] == s.disk[q])
      else q < |s.disk| && s'.disk[q] == data[room]
  {
    hide RecordOf, CacheOk, TablesOk, Advanced, Moved, Refines, HoldsBlocks, ImapMarks, Patch;
    var r, pos := RecordAt(s, src, fd), PosAt(s, src, fd);
    var p, q := r.start * SECTOR_SIZE + pos, RecordOf(sb, s.disk, m).start * SECTOR_SIZE;
    var e := Wrote(s.disk, p, data[..n]);
    assert PosEnd(false, pos, len, r.size, r.nrSects) == PosEnd(false, pos, len, 0, r.nrSects);
    WriteIsExact(pos, len, r.nrSects, capacity);
    AdvanceKeepsBytes(sb, s, e, s', src, fd, n);
    OpenExtent(sb, s, src, fd);
    NextBlock(sb, r, RecordOf(sb, s.disk, m), s.blocks[InodeAt(s, src, fd)]);
    if q < |s.disk| {
      assert s'.disk[q] == s'.disk[DataAt(sb)..][q - DataAt(sb)] == e[DataAt(sb)..][q - DataAt(sb)] == e[q];
    }
  }

  lemma NextBlock(sb: SuperBlock, r: Record, r': Record, j: nat)
    requires HasExtent(sb, r, j) && HasExtent(sb, r', j + 1)
    ensures r'.start * SECTOR_SIZE == r.start * SECTOR_SIZE + r.nrSects * SECTOR_SIZE
    ensures r'.start * SECTOR_SIZE >= DataAt(sb)
  {
  }

  /** A record, and a byte that is not among those written. */
  lemma WroteElsewhere(sb: SuperBlock, d: seq<Byte>, p: nat, data: seq<Byte>, m: int, q: nat)
    requires Fits(sb, |d|) && IsInodeNr(m) && DataAt(sb) <= p && q < |d| && (q < p || p + |data| <= q)
    ensures RecordOf(sb, Wrote(d, p, data), m) == RecordOf(sb, d, m) && Wrote(d, p, data)[q] == d[q]
  {
    hide RecordOf;
    var e := Wrote(d, p, data);
    if p + |data| <= |d| {
      assert e[..p] == d[..p] && e[p + |data|..] == d[p + |data|..];
      RecordInRange(sb, d, e, p, p + |data|, m);
      RecordElsewhere(sb, d, e, p, p + |data|, m);
    }
  }

  /** Bytes of different blocks are different bytes. */
  lemma ExtentsApart(i: nat, j: nat, at: nat, p: nat, n: nat, q: nat)
    requires i != j && at + i * EXTENT_BYTES <= p && p + n <= at + (i + 1) * EXTENT_BYTES
    requires at + j * EXTENT_BYTES <= q < at + (j + 1) * EXTENT_BYTES
    ensures q < p || p + n <= q
  {
  }

  /** A read of no more than the file has gives the file's first bytes, whatever the position; the bytes stay. */
  lemma ReadGivesPrefix(sb: SuperBlock, s: State, s': State, src: int, fd: int, len: nat, capacity: nat, n: nat,
                        bytes: seq<Byte>)
    requires FsOk(sb, s) && ReadFile(sb, s, s', src, fd, len, capacity, n, bytes)
    requires OnDisk(s.disk, RecordAt(s, src, fd)) && len <= RecordAt(s, src, fd).size
    ensures n == len == |bytes| && bytes <= FileOf(s.disk, RecordAt(s, src, fd))
    ensures |s'.disk| == |s.disk| && OnDisk(s'.disk, RecordAt(s, src, fd))
    ensures FileOf(s'.disk, RecordAt(s, src, fd)) == FileOf(s.disk, RecordAt(s, src, fd))
  {
    hide RecordOf, DiskOk, CacheOk, TablesOk, Advanced, Moved;
    var r := RecordAt(s, src, fd);
    ReadIsExact(len, r.size, capacity);
    assert PosEnd(true, 0, len, r.size, r.nrSects) == PosEnd(true, 0, len, r.size, 0);
    AdvanceKeepsBytes(sb, s, s.disk, s', src, fd, n);
    OpenExtent(sb, s, src, fd);
    SameSlice(s.disk, s'.disk, DataAt(sb), r.start * SECTOR_SIZE, r.start * SECTOR_SIZE + r.size);
  }

  /** What a transfer of len bytes from byte off of its first sector comes to, when it is to reach `span` sectors. */
  ghost predicate Answers(n: int, len: nat, off: nat, span: nat, capacity: nat) {
    if span <= capacity then n == if len < span * SECTOR_SIZE - off then len else span * SECTOR_SIZE - off
    else exists k: nat :: IsUpTo(n, len, off, span, capacity, k)
  }

  /** It is everything up to the end of the k-th buffer, which is the first to reach that far. */
  ghost predicate IsUpTo(n: int, len: nat, off: nat, span: nat, capacity: nat, k: nat) {
    && span <= k * capacity < span + capacity
    && n == if len < k * capacity * SECTOR_SIZE - off then len else k * capacity * SECTOR_SIZE - off
  }

  lemma AnswersAre(pos: nat, len: nat, posEnd: nat, capacity: nat)
    requires capacity > 0 && pos / SECTOR_SIZE <= posEnd / SECTOR_SIZE
    ensures Answers(Moved(pos, len, posEnd, capacity), len, pos % SECTOR_SIZE,
                    posEnd / SECTOR_SIZE - pos / SECTOR_SIZE + 1, capacity)
  {
    var span := posEnd / SECTOR_SIZE - pos / SECTOR_SIZE + 1;
    var chunk := Chunk(pos, posEnd, capacity);
    if span <= capacity {
      assert chunk == span;
      OneChunk(pos / SECTOR_SIZE, posEnd / SECTOR_SIZE);
    } else {
      var k := CoveredIs(pos / SECTOR_SIZE, posEnd / SECTOR_SIZE, capacity);
      assert IsUpTo(Moved(pos, len, posEnd, capacity), len, pos % SECTOR_SIZE, span, capacity, k);
    }
  }

  lemma OneChunk(first: nat, last: nat)
    requires first <= last
    ensures Covered(first, last, last - first + 1) == (last - first + 1) * SECTOR_SIZE
  {
    assert Covered(last + 1, last, last - first + 1) == 0;
  }

  /**
   A read answers all it is asked for up to the end of the buffer the file ends in: where the buffer holds the file,
   that is the end of the file's last sector.
   */
  lemma ReadAnswers(sb: SuperBlock, s: State, s': State, src: int, fd: int, len: nat, capacity: nat, n: nat,
                    bytes: seq<Byte>)
    requires ReadFile(sb, s, s', src, fd, len, capacity, n, bytes)
    ensures Answers(n, len, 0, RecordAt(s, src, fd).size / SECTOR_SIZE + 1, capacity)
  {
    hide Moved, Answers, Advanced;
    AnswersAre(0, len, RecordAt(s, src, fd).size, capacity);
  }

  /** A write answers all it is asked for if the extent has room, else up to the end of the buffer that ends in. */
  lemma WriteAnswers(s: State, src: int, fd: int, len: nat, capacity: nat, n: int)
    requires MovesBytes(s, src, fd) && IsWritten(s, src, fd, len, capacity, n)
    ensures var pos, end := PosAt(s, src, fd), RecordAt(s, src, fd).nrSects;
      if pos + len <= end * SECTOR_SIZE then n == len
      else if pos / SECTOR_SIZE > end then n == 0
      else Answers(n, len, pos % SECTOR_SIZE, end - pos / SECTOR_SIZE + 1, capacity)
  {
    hide Answers;
    var r, pos := RecordAt(s, src, fd), PosAt(s, src, fd);
    assert PosEnd(false, pos, len, r.size, r.nrSects) == PosEnd(false, pos, len, 0, r.nrSects);
    WriteIsExact(pos, len, r.nrSects, capacity);
    if pos + len > r.nrSects * SECTOR_SIZE && pos / SECTOR_SIZE <= r.nrSects {
      AnswersAre(pos, len, r.nrSects * SECTOR_SIZE, capacity);
    }
  }

  /** A write and another behind it leave in the file what one write of all their bytes would. */
  lemma WritesAdd(sb: SuperBlock, s: State, s1: State, s2: State, src: int, fd: int, a: seq<Byte>, b: seq<Byte>)
    requires FsOk(sb, s) && WroteFile(sb, s, s1, src, fd, a) && OnDisk(s.disk, RecordAt(s, src, fd))
    requires FsOk(sb, s1) && WroteFile(sb, s1, s2, src, fd, b)
    ensures OnDisk(s2.disk, RecordAt(s2, src, fd))
    ensures FileOf(s2.disk, RecordAt(s2, src, fd)) ==
      Overwritten(FileOf(s.disk, RecordAt(s, src, fd)), PosAt(s, src, fd), a + b)
  {
    hide RecordOf, FsOk, Advanced, Overwritten, MovesBytes, OnDisk, FileOf, Patch, RecordAt, PosAt;
    var c, pos := FileOf(s.disk, RecordAt(s, src, fd)), PosAt(s, src, fd);
    WriteOverwrites(sb, s, s1, src, fd, a);
    WriteOverwrites(sb, s1, s2, src, fd, b);
    var e := Wrote(s.disk, RecordAt(s, src, fd).start * SECTOR_SIZE + pos, a);
    AdvanceKeepsBytes(sb, s, e, s1, src, fd, |a|);
    FileLength(s.disk, RecordAt(s, src, fd));
    OverwrittenTwice(c, pos, a, b);
  }

  lemma FileLength(d: seq<Byte>, r: Record)
    requires OnDisk(d, r)
    ensures |FileOf(d, r)| == r.size
  {
  }

  lemma OverwrittenTwice(c: seq<Byte>, pos: nat, a: seq<Byte>, b: seq<Byte>)
    requires pos <= |c|
    ensures Overwritten(Overwritten(c, pos, a), pos + |a|, b) == Overwritten(c, pos, a + b)
  {
  }

  /** What was written is read back. */
  lemma WriteThenRead(sb: SuperBlock, s: State, s1: State, s2: State, src: int, fd: int, data: seq<Byte>,
                      len: nat, capacity: nat, n: nat, bytes: seq<Byte>)
    requires FsOk(sb, s) && WroteFile(sb, s, s1, src, fd, data) && OnDisk(s.disk, RecordAt(s, src, fd))
    requires FsOk(sb, s1) && ReadFile(sb, s1, s2, src, fd, len, capacity, n, bytes) && len <= RecordAt(s1, src, fd).size
    ensures 0 <= PosAt(s, src, fd) <= RecordAt(s, src, fd).size
    ensures n == len == |bytes| && bytes <= Overwritten(FileOf(s.disk, RecordAt(s, src, fd)), PosAt(s, src, fd), data)
  {
    hide RecordOf, FsOk, WroteFile, ReadFile, Overwritten, MovesBytes;
    WriteOverwrites(sb, s, s1, src, fd, data);
    ReadGivesPrefix(sb, s1, s2, src, fd, len, capacity, n, bytes);
  }

  /**
   A read leaves the size of the file exactly when as many bytes as are asked for, counted from the position, which it
   moves although it reads from the start, stay within it; otherwise it makes the file longer.
   */
  lemma ReadKeepsSizeExactly(sb: SuperBlock, s: State, s': State, src: int, fd: int, len: nat, capacity: nat, n: nat,
                             bytes: seq<Byte>)
    requires FsOk(sb, s) && ReadFile(sb, s, s', src, fd, len, capacity, n, bytes)
    ensures MovesBytes(s', src, fd)
    ensures RecordAt(s', src, fd).size == RecordAt(s, src, fd).size <==>
      PosAt(s, src, fd) + len <= RecordAt(s, src, fd).size
    ensures PosAt(s, src, fd) + len > RecordAt(s, src, fd).size ==>
      RecordAt(s', src, fd).size == PosAt(s, src, fd) + n > RecordAt(s, src, fd).size
    ensures len > 0 ==> n > 0
  {
    hide RecordOf, DiskOk, CacheOk, TablesOk, Advanced, Moved;
    var r := RecordAt(s, src, fd);
    AdvanceKeepsBytes(sb, s, s.disk, s', src, fd, n);
    assert PosEnd(true, 0, len, r.size, r.nrSects) == PosEnd(true, 0, len, r.size, 0);
    ReadIsExact(len, r.size, capacity);
  }

  /** A file that has just been opened is lengthened by its first read exactly when that asks for anything. */
  lemma FirstReadLengthens(sb: SuperBlock, s: State, s1: State, s2: State, src: int, fd: int, path: seq<Byte>,
                           flags: nat, i: int, k: int,
                           len: nat, capacity: nat, n: nat, bytes: seq<Byte>)
    requires Opened(sb, s, s1, src, fd, path, flags, i, k) && FsOk(sb, s1)
    requires ReadFile(sb, s1, s2, src, fd, len, capacity, n, bytes)
    ensures MovesBytes(s2, src, fd)
    ensures RecordAt(s2, src, fd).size > RecordAt(s1, src, fd).size <==> len > 0
    ensures RecordAt(s2, src, fd).size == RecordAt(s1, src, fd).size + n
  {
    hide RecordOf, DiskOk, CacheOk, TablesOk, Advanced, Moved, OneMore, CreatedFile, Lookup;
    ReadKeepsSizeExactly(sb, s1, s2, src, fd, len, capacity, n, bytes);
    ReadAdvances(sb, s1, s2, src, fd, len, capacity, n, bytes);
  }

  lemma ReadAdvances(sb: SuperBlock, s: State, s': State, src: int, fd: int, len: nat, capacity: nat, n: nat,
                     bytes: seq<Byte>)
    requires FsOk(sb, s) && ReadFile(sb, s, s', src, fd, len, capacity, n, bytes)
    ensures MovesBytes(s', src, fd) && n <= len
    ensures PosAt(s, src, fd) == RecordAt(s, src, fd).size ==>
      RecordAt(s', src, fd).size == RecordAt(s, src, fd).size + n
  {
    hide RecordOf, DiskOk, CacheOk, TablesOk, Advanced, Covered;
    AdvanceKeepsBytes(sb, s, s.disk, s', src, fd, n);
  }
}
