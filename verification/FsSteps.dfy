/** Creating and removing a file, as the sequences of device changes the file system makes. */
module FsSteps {
  import opened Bytes
  import opened Device
  import opened Layout
  import opened Maps
  import opened Extents
  import opened Inodes
  import opened SuperBlocks
  import opened Directory
  import opened FsInv

  // ----- Creating -----

  /** The device once inode f and block j have been taken and the new record is written, but not yet the entry. */
  ghost predicate Prepared(sb: SuperBlock, d: seq<Byte>, e: seq<Byte>, files: map<Name, int>, held: set<nat>, f: int,
                           j: nat) {
    && Fits(sb, |d|) && |e| == |d| && (SuperAt(sb, d) ==> SuperAt(sb, e)) && 0 < f < BITS && j !in held
    && !BitAt(ImapOf(sb, d), f) && Marked(ImapOf(sb, d), ImapOf(sb, e), f, f + 1)
    && HoldsBlocks(SmapOf(sb, e), held + {j})
    && RecordOf(sb, e, f).mode == I_REGULAR && HasExtent(sb, RecordOf(sb, e, f), j)
    && (forall i :: IsInodeNr(i) && i != f ==> RecordOf(sb, e, i) == RecordOf(sb, d, i))
    && Refines(e, DataAt(sb), RecordOf(sb, d, ROOT_INODE).size / DIR_ENTRY_SIZE, files)
  }

  /** A new inode number is one that no file uses; the first data sector of the run found starts a free block. */
  lemma FreshInode(sb: SuperBlock, d: seq<Byte>, files: map<Name, int>, blocks: map<int, nat>, f: nat)
    requires DiskOk(sb, d, files, blocks) && IsFirstClear(ImapOf(sb, d), f) && f < BITS
    ensures 0 < f && !InUse(files, f) && f != ROOT_INODE
  {
    hide SuperAt, RecordOf, Refines, HoldsBlocks, BitAt;
    ImapBits(sb, d);
    assert BitAt(ImapOf(sb, d), 0);
    assert InUse(files, ROOT_INODE);
  }

  lemma ImapBits(sb: SuperBlock, d: seq<Byte>)
    requires Fits(sb, |d|)
    ensures 8 * |ImapOf(sb, d)| == BITS
  {
    RegionsAreDisjoint(sb, |d|);
  }

  ghost predicate TookInode(sb: SuperBlock, d: seq<Byte>, e: seq<Byte>, f: int) {
    && Fits(sb, |d|) && SameOutside(d, e, ImapAt(sb), SmapAt(sb))
    && 0 < f < BITS && IsFirstClear(ImapOf(sb, d), f) && Marked(ImapOf(sb, d), ImapOf(sb, e), f, f + 1)
  }

  ghost predicate TookBlock(sb: SuperBlock, d: seq<Byte>, e: seq<Byte>, g: nat) {
    && Fits(sb, |d|) && SameOutside(d, e, SmapAt(sb), InodesAt(sb))
    && RunFits(SmapOf(sb, d), g, BLOCK) && Marked(SmapOf(sb, d), SmapOf(sb, e), g, g + BLOCK)
  }

  /** A new record: a regular file of the usual number of sectors, starting at the sector of bit g. */
  ghost predicate IsNewRecord(sb: SuperBlock, r: Record, g: nat) {
    r.mode == I_REGULAR && r.start == sb.n1stSect + g - 1 && r.nrSects == NR_DEFAULT_FILE_SECTS
  }

  /** Taking the inode, then the block, then writing the record. */
  lemma Prepare(sb: SuperBlock, d0: seq<Byte>, d1: seq<Byte>, d2: seq<Byte>, d3: seq<Byte>,
                files: map<Name, int>, blocks: map<int, nat>, f: nat, g: nat, r: Record)
    requires DiskOk(sb, d0, files, blocks)
    requires TookInode(sb, d0, d1, f) && TookBlock(sb, d1, d2, g) && Rewritten(sb, d2, d3, f, r)
    requires IsNewRecord(sb, r, g)
    ensures g > 0 && Prepared(sb, d0, d3, files, Held(blocks), f, BlockOf(g))
  {
    hide SuperAt, RecordOf, Refines, HoldsBlocks, BitAt, SameOutside, Marked, Rewritten, RunFits, BlockOf, SmapOf,
      AllSet;
    ImapBits(sb, d0);
    var n: nat := RecordOf(sb, d0, ROOT_INODE).size / DIR_ENTRY_SIZE;
    MapFrame(sb, d0, d1, true, n, files);
    MapFrame(sb, d1, d2, false, n, files);
    RewriteFrame(sb, d2, d3, f, r, files);
    SmapBytes(sb, d0);
    AllocatingAddsBlock(SmapOf(sb, d1), SmapOf(sb, d2), Held(blocks), g);
    assert g == FirstBit(BlockOf(g));
  }

  lemma SmapBytes(sb: SuperBlock, d: seq<Byte>)
    requires Fits(sb, |d|)
    ensures |SmapOf(sb, d)| == sb.nrSmapSects * SECTOR_SIZE > 0
  {
    RegionsAreDisjoint(sb, |d|);
  }

  /** Then writing the entry, and the record of the directory. */
  lemma Finish(sb: SuperBlock, d0: seq<Byte>, d3: seq<Byte>, d4: seq<Byte>, d5: seq<Byte>,
               files: map<Name, int>, blocks: map<int, nat>, key: Name, f: int, j: nat, root: Record)
    requires DiskOk(sb, d0, files, blocks) && Prepared(sb, d0, d3, files, Held(blocks), f, j)
    requires InDirectory(d3, d4, DataAt(sb)) && Refines(d4, DataAt(sb), root.size / DIR_ENTRY_SIZE, files[key := f])
    requires Rewritten(sb, d4, d5, ROOT_INODE, root) && f != ROOT_INODE
    ensures Created(sb, d0, d5, files, Held(blocks), key, f, j, root)
  {
    hide SuperAt, RecordOf, Refines, HoldsBlocks, BitAt, InDirectory, Marked, Rewritten, ImapOf, SmapOf;
    DirFrame(sb, d3, d4);
    RewriteFrame(sb, d4, d5, ROOT_INODE, root, files[key := f]);
  }

  // ----- The size of the directory stays in bounds -----

  lemma {:induction false} Pigeonhole(s: seq<int>, bound: nat)
    requires forall i :: 0 <= i < |s| ==> 0 <= s[i] < bound
    requires forall i, j :: 0 <= i < j < |s| ==> s[i] != s[j]
    ensures |s| <= bound
    decreases bound
  {
    if |s| > 0 {
      assert 0 <= s[0] < bound;
      var top := bound - 1;
      if i :| 0 <= i < |s| && s[i] == top {
        var rest := s[..i] + s[i + 1..];
        Pigeonhole(rest, top);
      } else {
        Pigeonhole(s, top);
      }
    }
  }

  /** A directory without holes has at most as many entries as there are inode numbers. */
  lemma FullDirectoryFits(d: seq<Byte>, at: nat, n: nat, m: map<Name, int>)
    requires Refines(d, at, n, m) && AllLive(d, at, n) && forall x :: x in m ==> 0 < m[x] < BITS
    ensures n <= NR_INODES
  {
    hide EntryAt, ProperName;
    var s := seq(n, i requires 0 <= i < n => EntryAt(d, at, i).nr);
    forall i | 0 <= i < n ensures 0 <= s[i] < BITS {
      assert IsLive(d, at, n, i);
    }
    forall i, j | 0 <= i < j < n ensures s[i] != s[j] {
      assert IsLive(d, at, n, i) && IsLive(d, at, n, j);
    }
    Pigeonhole(s, BITS);
  }

  lemma NewRootOk(sb: SuperBlock, d: seq<Byte>, e: seq<Byte>, files: map<Name, int>, blocks: map<int, nat>,
                  key: Name, f: int, size: U32)
    requires DiskOk(sb, d, files, blocks) && 0 < f < BITS && key !in files
    requires size % DIR_ENTRY_SIZE == 0 && Refines(e, DataAt(sb), size / DIR_ENTRY_SIZE, files[key := f])
    requires size > RecordOf(sb, d, ROOT_INODE).size ==> AllLive(e, DataAt(sb), size / DIR_ENTRY_SIZE)
    ensures RootOk(sb, RecordOf(sb, d, ROOT_INODE).(size := size))
  {
    hide SuperAt, RecordOf, Refines, HoldsBlocks, BitAt, AllLive;
    if size > RecordOf(sb, d, ROOT_INODE).size {
      var files' := files[key := f];
      forall x | x in files' ensures 0 < files'[x] < BITS {
        if x != key { assert InUse(files, files[x]); }
      }
      FullDirectoryFits(e, DataAt(sb), size / DIR_ENTRY_SIZE, files');
    }
  }

  /** The whole of a creation: an inode and a block that were free, a record, an entry, and the directory's record. */
  lemma CreateKeepsDisk(sb: SuperBlock, d0: seq<Byte>, d1: seq<Byte>, d2: seq<Byte>, d3: seq<Byte>, d4: seq<Byte>,
                        d5: seq<Byte>,
                        files: map<Name, int>, blocks: map<int, nat>, key: Name, f: nat, g: nat, r: Record, size: U32)
    requires DiskOk(sb, d0, files, blocks) && key !in files
    requires TookInode(sb, d0, d1, f) && TookBlock(sb, d1, d2, g) && Rewritten(sb, d2, d3, f, r)
    requires IsNewRecord(sb, r, g)
    requires InDirectory(d3, d4, DataAt(sb)) && size % DIR_ENTRY_SIZE == 0
    requires Refines(d4, DataAt(sb), size / DIR_ENTRY_SIZE, files[key := f])
    requires size > RecordOf(sb, d0, ROOT_INODE).size ==> AllLive(d4, DataAt(sb), size / DIR_ENTRY_SIZE)
    requires Rewritten(sb, d4, d5, ROOT_INODE, RecordOf(sb, d0, ROOT_INODE).(size := size))
    ensures g > 0 && !InUse(files, f) && BlockOf(g) !in Held(blocks)
    ensures DiskOk(sb, d5, files[key := f], blocks[f := BlockOf(g)]) && OtherRecords(sb, d0, d5, f)
  {
    hide SuperAt, RecordOf, Refines, HoldsBlocks, BitAt, InDirectory, Marked, Rewritten, ImapOf, SmapOf, TookInode,
      TookBlock, AllLive;
    var root := RecordOf(sb, d0, ROOT_INODE).(size := size);
    Prepare(sb, d0, d1, d2, d3, files, blocks, f, g, r);
    TookIsFresh(sb, d0, d1, files, blocks, f);
    Finish(sb, d0, d3, d4, d5, files, blocks, key, f, BlockOf(g), root);
    NewRootOk(sb, d0, d4, files, blocks, key, f, size);
    CreatedIsOk(sb, d0, d5, files, blocks, key, f, BlockOf(g), root);
  }

  /** The inode taken is the lowest that no file uses. */
  lemma TookIsFresh(sb: SuperBlock, d: seq<Byte>, e: seq<Byte>, files: map<Name, int>, blocks: map<int, nat>, f: nat)
    requires DiskOk(sb, d, files, blocks) && TookInode(sb, d, e, f)
    ensures 0 < f < BITS && f != ROOT_INODE && !InUse(files, f) && forall x :: x in files ==> files[x] != f
    ensures forall i :: 0 < i < f ==> InUse(files, i)
  {
    hide SuperAt, RecordOf, Refines, HoldsBlocks, BitAt, Marked, ImapOf;
    ImapBits(sb, d);
    forall i: nat | 0 < i < f ensures InUse(files, i) { assert BitAt(ImapOf(sb, d), i); }
    FreshInode(sb, d, files, blocks, f);
    forall x | x in files ensures files[x] != f { assert InUse(files, files[x]); }
  }

  // ----- The bytes of files -----

  /** Where the extents of the files other than the directory begin. */
  function FilesAt(sb: SuperBlock): nat { DataAt(sb) + MAX_ENTRIES * DIR_ENTRY_SIZE }

  ghost predicate SameFileBytes(sb: SuperBlock, d: seq<Byte>, e: seq<Byte>) {
    FilesAt(sb) <= |e| == |d| && e[FilesAt(sb)..] == d[FilesAt(sb)..]
  }

  lemma MetaOnly(sb: SuperBlock, d: seq<Byte>, e: seq<Byte>, lo: nat, hi: nat)
    requires SameOutside(d, e, lo, hi) && hi <= FilesAt(sb) <= |d|
    ensures SameFileBytes(sb, d, e)
  {
    BytesElsewhere(d, e, lo, hi, FilesAt(sb), |d|);
  }

  lemma RecordIsMeta(sb: SuperBlock, d: seq<Byte>, e: seq<Byte>, num: int, r: Record)
    requires Rewritten(sb, d, e, num, r) && FilesAt(sb) <= |d|
    ensures SameFileBytes(sb, d, e)
  {
    hide RecordOf, SameOutside;
    RecordInRange(sb, d, e, RecordPos(sb, num), RecordPos(sb, num) + 16, num);
    MetaOnly(sb, d, e, RecordPos(sb, num), RecordPos(sb, num) + 16);
  }

  // ----- Removing -----

  /** Freeing the inode, then its block, then clearing its record. */
  ghost predicate Freed(sb: SuperBlock, d: seq<Byte>, e: seq<Byte>, files: map<Name, int>, held: set<nat>, f: int,
                        j: nat) {
    && Fits(sb, |d|) && |e| == |d| && (SuperAt(sb, d) ==> SuperAt(sb, e)) && 0 < f < BITS
    && Cleared(ImapOf(sb, d), ImapOf(sb, e), f, f + 1) && HoldsBlocks(SmapOf(sb, e), held - {j})
    && (forall i :: IsInodeNr(i) && i != f ==> RecordOf(sb, e, i) == RecordOf(sb, d, i))
    && Refines(e, DataAt(sb), RecordOf(sb, d, ROOT_INODE).size / DIR_ENTRY_SIZE, files)
  }

  ghost predicate FreedInode(sb: SuperBlock, d: seq<Byte>, e: seq<Byte>, f: int) {
    && Fits(sb, |d|) && SameOutside(d, e, ImapAt(sb), SmapAt(sb)) && Cleared(ImapOf(sb, d), ImapOf(sb, e), f, f + 1)
  }

  ghost predicate FreedBlock(sb: SuperBlock, d: seq<Byte>, e: seq<Byte>, j: nat) {
    && Fits(sb, |d|) && SameOutside(d, e, SmapAt(sb), InodesAt(sb))
    && Cleared(SmapOf(sb, d), SmapOf(sb, e), FirstBit(j), FirstBit(j) + BLOCK)
  }

  lemma Free(sb: SuperBlock, d0: seq<Byte>, d1: seq<Byte>, d2: seq<Byte>, d3: seq<Byte>,
             files: map<Name, int>, blocks: map<int, nat>, f: nat, r: Record)
    requires DiskOk(sb, d0, files, blocks) && f in blocks
    requires FreedInode(sb, d0, d1, f) && FreedBlock(sb, d1, d2, blocks[f]) && Rewritten(sb, d2, d3, f, r)
    ensures Freed(sb, d0, d3, files, Held(blocks), f, blocks[f])
  {
    hide SuperAt, RecordOf, Refines, HoldsBlocks, BitAt, SameOutside, Cleared, Rewritten, BlockOf, ImapOf, SmapOf;
    var n: nat := RecordOf(sb, d0, ROOT_INODE).size / DIR_ENTRY_SIZE;
    MapFrame(sb, d0, d1, true, n, files);
    MapFrame(sb, d1, d2, false, n, files);
    RewriteFrame(sb, d2, d3, f, r, files);
    FreeingRemovesBlock(SmapOf(sb, d1), Held(blocks), blocks[f]);
    assert InUse(files, f);
  }

  /** Then clearing the entry and, in the one case where that happens, cutting the directory down. */
  lemma Clear(sb: SuperBlock, d0: seq<Byte>, d3: seq<Byte>, d4: seq<Byte>, d5: seq<Byte>,
              files: map<Name, int>, blocks: map<int, nat>, key: Name, f: int, j: nat, root: Record)
    requires DiskOk(sb, d0, files, blocks) && Freed(sb, d0, d3, files, Held(blocks), f, j)
    requires InDirectory(d3, d4, DataAt(sb)) && f != ROOT_INODE
    requires (d5 == d4 && root == RecordOf(sb, d0, ROOT_INODE)) || Rewritten(sb, d4, d5, ROOT_INODE, root)
    ensures Removed(sb, d0, d5, files, Held(blocks), key, f, j, root)
    ensures forall n: nat, m: map<Name, int> :: Refines(d5, DataAt(sb), n, m) <==> Refines(d4, DataAt(sb), n, m)
  {
    hide SuperAt, RecordOf, Refines, HoldsBlocks, BitAt, InDirectory, Cleared, Rewritten, ImapOf, SmapOf;
    DirFrame(sb, d3, d4);
    if Rewritten(sb, d4, d5, ROOT_INODE, root) {
      forall n: nat, m: map<Name, int> ensures Refines(d5, DataAt(sb), n, m) <==> Refines(d4, DataAt(sb), n, m) {
        RewriteFrame(sb, d4, d5, ROOT_INODE, root, m);
        if Refines(d5, DataAt(sb), n, m) { RewriteFrameBack(sb, d4, d5, root, m, n); }
      }
      RewriteFrame(sb, d4, d5, ROOT_INODE, root, files);
    }
  }

  lemma RewriteFrameBack(sb: SuperBlock, d: seq<Byte>, e: seq<Byte>, root: Record, m: map<Name, int>, n: nat)
    requires Rewritten(sb, d, e, ROOT_INODE, root) && Refines(e, DataAt(sb), n, m)
    ensures Refines(d, DataAt(sb), n, m)
  {
    hide Refines, RecordOf;
    RegionsAreDisjoint(sb, |d|);
    var lo, hi := RecordPos(sb, ROOT_INODE), RecordPos(sb, ROOT_INODE) + 16;
    RecordInRange(sb, d, e, lo, hi, ROOT_INODE);
    FrameDir(e, d, lo, hi, DataAt(sb), n, m);
  }

  // ----- When the directory survives a removal -----

  /**
   Whether removing entry r of a directory of n entries cuts it down over a live entry: the walk ends exactly at the
   last entry, and some other live entry has a hole, or the removed entry, before it.
   */
  ghost predicate CutsLiveEntry(d: seq<Byte>, at: nat, n: nat, r: nat) {
    && n % PER_BLOCK == 0 && r / PER_BLOCK == n / PER_BLOCK - 1
    && exists i: nat, j: nat :: HoleBefore(d, at, n, r, i, j)
  }

  ghost predicate HoleBefore(d: seq<Byte>, at: nat, n: nat, r: nat, i: nat, j: nat) {
    i < j && IsLive(d, at, n, j) && j != r && (i == r || !IsLive(d, at, n, i))
  }

  /** In a directory that fills its last sector and has no holes, that is every entry of the sector but the last. */
  lemma FullSectorIsCut(d: seq<Byte>, at: nat, n: nat, r: nat)
    requires AllLive(d, at, n) && n % PER_BLOCK == 0 && r < n <= r + PER_BLOCK
    ensures CutsLiveEntry(d, at, n, r) <==> r != n - 1
  {
    hide EntryAt;
    var last: nat := n - 1;
    assert IsLive(d, at, n, last);
    if r != last { assert HoleBefore(d, at, n, r, r, last); }
  }

  /** The directory's new size keeps its map exactly when no live entry is cut off. */
  lemma SizeAfterIsExact(d: seq<Byte>, e: seq<Byte>, at: nat, n: nat, r: nat, m: map<Name, int>)
    requires IsLive(d, at, n, r) && EntryWritten(d, e, at, r, HOLE) && Refines(e, at, n, m)
    ensures SizeAfter(e, at, n, r) % DIR_ENTRY_SIZE == 0 && SizeAfter(e, at, n, r) / DIR_ENTRY_SIZE <= n
    ensures Refines(e, at, SizeAfter(e, at, n, r) / DIR_ENTRY_SIZE, m) <==> !CutsLiveEntry(d, at, n, r)
  {
    hide EntryAt, Refines, LiveCount;
    RefinesRange(e, at, n, m);
    CountBound(e, at, n);
    ShrinkIsExact(e, at, n, m);
    forall i: nat ensures IsLive(e, at, n, i) <==> i != r && IsLive(d, at, n, i) {}
    if !Dense(e, at, n) {
      var i: nat, j: nat :| i < j && IsLive(e, at, n, j) && !IsLive(e, at, n, i);
      assert HoleBefore(d, at, n, r, i, j);
    }
  }

  lemma SameEntriesFrame(sb: SuperBlock, d: seq<Byte>, e: seq<Byte>, lo: nat, hi: nat)
    requires SameOutside(d, e, lo, hi) && hi <= DataAt(sb) && InRange(d, DataAt(sb), 0)
    ensures SameEntries(d, e, DataAt(sb))
  {
    hide EntryAt;
    forall i: nat | i < MAX_ENTRIES ensures EntryAt(e, DataAt(sb), i) == EntryAt(d, DataAt(sb), i) {
      EntryElsewhere(d, e, lo, hi, DataAt(sb), i);
    }
  }

  lemma SameCut(d: seq<Byte>, e: seq<Byte>, at: nat, n: nat, r: nat)
    requires SameEntries(d, e, at) && n <= MAX_ENTRIES
    ensures CutsLiveEntry(e, at, n, r) <==> CutsLiveEntry(d, at, n, r)
  {
    hide EntryAt, IsLive;
    SameLive(d, e, at, n);
    forall i: nat, j: nat ensures HoleBefore(e, at, n, r, i, j) <==> HoleBefore(d, at, n, r, i, j) {}
  }

  /** Neither freeing the inode and the block nor clearing the record touches the entries. */
  lemma FreeKeepsEntries(sb: SuperBlock, d0: seq<Byte>, d1: seq<Byte>, d2: seq<Byte>, d3: seq<Byte>, f: int, j: nat,
                         r: Record)
    requires FreedInode(sb, d0, d1, f) && FreedBlock(sb, d1, d2, j) && Rewritten(sb, d2, d3, f, r)
    requires InRange(d0, DataAt(sb), 0)
    ensures SameEntries(d0, d3, DataAt(sb)) && SameFileBytes(sb, d0, d3)
  {
    hide EntryAt, Cleared, RecordOf, SameOutside;
    RegionsAreDisjoint(sb, |d0|);
    MetaOnly(sb, d0, d1, ImapAt(sb), SmapAt(sb));
    SameEntriesFrame(sb, d0, d1, ImapAt(sb), SmapAt(sb));
    MetaOnly(sb, d1, d2, SmapAt(sb), InodesAt(sb));
    SameEntriesFrame(sb, d1, d2, SmapAt(sb), InodesAt(sb));
    RecordIsMeta(sb, d2, d3, f, r);
    RecordInRange(sb, d2, d3, RecordPos(sb, f), RecordPos(sb, f) + 16, f);
    SameEntriesFrame(sb, d2, d3, RecordPos(sb, f), RecordPos(sb, f) + 16);
  }

  /**
   Entry r of the directory, which stands for the file, is cleared from d to e, and the size of the directory follows.
   */
  ghost predicate NameRemoved(sb: SuperBlock, d: seq<Byte>, e: seq<Byte>, d': seq<Byte>, n: nat, r: nat,
                              m: map<Name, int>, root: Record) {
    && IsLive(d, DataAt(sb), n, r) && EntryWritten(d, e, DataAt(sb), r, HOLE) && Refines(e, DataAt(sb), n, m)
    && root.size == SizeAfter(e, DataAt(sb), n, r)
    && if root.size == n * DIR_ENTRY_SIZE then d' == e else Rewritten(sb, e, d', ROOT_INODE, root)
  }

  /** The whole of a removal: the device is in order for the smaller map exactly when no live entry is cut off. */
  lemma RemoveIsExact(sb: SuperBlock, d0: seq<Byte>, d1: seq<Byte>, d2: seq<Byte>, d3: seq<Byte>, d4: seq<Byte>,
                      d5: seq<Byte>,
                      files: map<Name, int>, blocks: map<int, nat>, key: Name, f: int, r: nat, x: Record, root: Record)
    requires DiskOk(sb, d0, files, blocks) && key in files && files[key] == f && f in blocks && f != ROOT_INODE
    requires FreedInode(sb, d0, d1, f) && FreedBlock(sb, d1, d2, blocks[f]) && Rewritten(sb, d2, d3, f, x)
    requires NameRemoved(sb, d3, d4, d5, RecordOf(sb, d0, ROOT_INODE).size / DIR_ENTRY_SIZE, r, files - {key}, root)
    requires root == RecordOf(sb, d0, ROOT_INODE).(size := root.size)
    ensures DiskOk(sb, d5, files - {key}, blocks - {f})
      <==> !CutsLiveEntry(d0, DataAt(sb), RecordOf(sb, d0, ROOT_INODE).size / DIR_ENTRY_SIZE, r)
    ensures SameFileBytes(sb, d0, d5) && EntryCleared(d0, d5, DataAt(sb), r)
    ensures Removed(sb, d0, d5, files, Held(blocks), key, f, blocks[f], root)
  {
    hide SuperAt, RecordOf, Refines, HoldsBlocks, BitAt, EntryAt, Rewritten, FreedInode, FreedBlock, ImapMarks,
      SizeAfter,
      CutsLiveEntry, SameEntries, SameOutside, Removed, EntryCleared;
    var n: nat := RecordOf(sb, d0, ROOT_INODE).size / DIR_ENTRY_SIZE;
    var m := files - {key};
    RefinesRange(d0, DataAt(sb), n, files);
    Free(sb, d0, d1, d2, d3, files, blocks, f, x);
    FreeKeepsEntries(sb, d0, d1, d2, d3, f, blocks[f], x);
    SameCut(d0, d3, DataAt(sb), n, r);
    SizeAfterIsExact(d3, d4, DataAt(sb), n, r, m);
    EntryIsInDirectory(sb, d3, d4, r);
    Clear(sb, d0, d3, d4, d5, files, blocks, key, f, blocks[f], root);
    RemovedIsOk(sb, d0, d5, files, blocks, key, f, root);
    if root.size != n * DIR_ENTRY_SIZE { RecordIsMeta(sb, d4, d5, ROOT_INODE, root); }
    OneEntryCleared(sb, d0, d3, d4, d5, n, r, m, root);
  }

  /** Entry r, and no other, is a hole now. */
  ghost predicate EntryCleared(d: seq<Byte>, e: seq<Byte>, at: nat, r: nat) {
    && r < MAX_ENTRIES && EntryAt(e, at, r) == HOLE
    && forall i: nat :: i < MAX_ENTRIES && i != r ==> EntryAt(e, at, i) == EntryAt(d, at, i)
  }

  lemma OneEntryCleared(sb: SuperBlock, d0: seq<Byte>, d3: seq<Byte>, d4: seq<Byte>, d5: seq<Byte>, n: nat, r: nat,
                        m: map<Name, int>, root: Record)
    requires SameEntries(d0, d3, DataAt(sb)) && NameRemoved(sb, d3, d4, d5, n, r, m, root)
    ensures EntryCleared(d0, d5, DataAt(sb), r)
  {
    hide EntryAt, Refines, RecordOf, SizeAfter, SameOutside;
    if root.size != n * DIR_ENTRY_SIZE {
      RegionsAreDisjoint(sb, |d4|);
      RecordInRange(sb, d4, d5, RecordPos(sb, ROOT_INODE), RecordPos(sb, ROOT_INODE) + 16, ROOT_INODE);
      SameEntriesFrame(sb, d4, d5, RecordPos(sb, ROOT_INODE), RecordPos(sb, ROOT_INODE) + 16);
    }
  }

  lemma EntryIsInDirectory(sb: SuperBlock, d: seq<Byte>, e: seq<Byte>, r: nat)
    requires EntryWritten(d, e, DataAt(sb), r, HOLE)
    ensures InDirectory(d, e, DataAt(sb)) && SameFileBytes(sb, d, e)
  {
    hide EntryAt, SameOutside;
    var at := DataAt(sb);
    Widen(d, e, at + r * DIR_ENTRY_SIZE, at + (r + 1) * DIR_ENTRY_SIZE, at, at + MAX_ENTRIES * DIR_ENTRY_SIZE);
    MetaOnly(sb, d, e, at, at + MAX_ENTRIES * DIR_ENTRY_SIZE);
  }
}
