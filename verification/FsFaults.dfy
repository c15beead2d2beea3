/** Sequences of file system calls, from an empty device, that reach what goes wrong. */
module FsFaults {
  import opened Bytes
  import opened Device
  import opened Layout
  import opened Maps
  import opened Extents
  import opened Inodes
  import opened SuperBlocks
  import opened Directory
  import opened FsInv
  import opened FsSteps
  import opened Descriptors
  import opened FsState
  import opened ReadWrite
  import opened FsCalls
  import opened Mkfs
  import opened FileContents
  import opened FileSystem
  import opened NewFiles

  // ----- Unlinking -----

  /** The file AA can be removed: it is regular and nobody has it open. */
  lemma FirstLetterCanGo(sb: SuperBlock, s: State)
    requires FsOk(sb, s) && HasLetters(sb, s, FULL) && Idle(s)
    ensures !UnlinkHalts(s, Letters(0)) && NamesAFile(s.files, Letters(0)) && Lookup(s.files, Letters(0)) == FIRST + 1
    ensures CanBeRemoved(sb, s, FIRST + 1)
  {
    hide FsOk, InUse, EntryAt, AllLive, NameOf, Padded, RecordOf, IsFirstFree, CanBeRemoved;
    LettersName(0);
    NothingHeld(sb, s);
    LookupInUse(sb, s, Letters(0));
    RootFacts(sb, s);
    LetterBlocksAre(FULL, FIRST + 1);
    IsRegular(sb, s, FIRST + 1);
    RemovableExactly(sb, s, FIRST + 1);
  }

  lemma IsRegular(sb: SuperBlock, s: State, f: int)
    requires FsOk(sb, s) && f in s.blocks && f != ROOT_INODE && InUse(s.files, f) && Fits(sb, |s.disk|) && IsInodeNr(f)
    ensures RecordOf(sb, s.disk, f).mode == I_REGULAR
  {
    hide SuperAt, RecordOf, Refines, HoldsBlocks, ImapMarks, InUse;
  }

  /** Entry r of AA is not the last, and so its removal cuts the directory. */
  lemma LetterCut(sb: SuperBlock, s: State, s': State, r: nat)
    requires FsOk(sb, s) && HasLetters(sb, s, FULL) && Unlinked(sb, s, s', Letters(0), r)
    ensures CutsDirectory(sb, s, r) && s'.files == s.files - {Padded(Letters(0))}
  {
    hide FsOk, InUse, EntryAt, AllLive, NameOf, Padded, RecordOf, Removed, SameFileBytes, CutsLiveEntry,
      SizeAfter, CacheOk, OtherSlots, Refines, Letters, Held, LetterBlocks, AreEmpty;
    LettersName(0);
    RootFacts(sb, s);
    var at := DataAt(sb);
    LiveBelow(s.disk, at, FIRST + FULL, s.files, r);
    FullSectorIsCut(s.disk, at, FIRST + FULL, r);
  }

  lemma LiveBelow(d: seq<Byte>, at: nat, n: nat, m: map<Name, int>, r: nat)
    requires Refines(d, at, n, m) && EntryAt(d, at, r).nr != 0 && r < MAX_ENTRIES
    ensures r < n
  {
    hide EntryAt;
    assert r >= n ==> !IsLive(d, at, n, r);
  }

  /** The last entry of the full sector, and the inode it is for. */
  const LAST: nat := 31
  const LAST_NR: nat := 32

  /** The directory is one entry short of its last file, which is otherwise all there. */
  ghost predicate LastCutOff(sb: SuperBlock, s: State) {
    && 0 <= s.root < |s.table| && Fits(sb, |s.disk|) && InRange(s.disk, DataAt(sb), LAST)
    && s.table[s.root].num == ROOT_INODE && s.table[s.root].rec.start * SECTOR_SIZE == DataAt(sb)
    && s.table[s.root].rec.size == LAST * DIR_ENTRY_SIZE
    && EntryAt(s.disk, DataAt(sb), LAST) == Entry(LAST_NR, Padded(Letters(FULL - 1)))
    && OnlyEntry(s.disk, DataAt(sb), LAST, LAST_NR, LAST)
    && Absent(s.disk, DataAt(sb), 0, LAST, Padded(Letters(FULL - 1)))
  }

  /** Its bits are set, its record is that of a regular file with its block, and no slot is for it. */
  ghost predicate LastIsThere(sb: SuperBlock, s: State) {
    && Fits(sb, |s.disk|) && CacheOk(s.table, sb, s.disk) && IsMarked(sb, s.disk, LAST_NR)
    && RecordOf(sb, s.disk, LAST_NR).mode == I_REGULAR && HasExtent(sb, RecordOf(sb, s.disk, LAST_NR), FULL)
    && FirstBit(FULL) + BLOCK <= sb.nrSmapSects * BITS
    && InodesAt(sb) <= |s.disk| && AllSet(SmapOf(sb, s.disk), FirstBit(FULL), FirstBit(FULL) + BLOCK)
    && (exists q :: IsFirstFree(s.table, q)) && (forall i :: !Live(s.table, i, LAST_NR))
      && Live(s.table, s.root, ROOT_INODE)
  }

  /** Of n live entries one has been cleared. */
  lemma {:induction false} OneCleared(d: seq<Byte>, e: seq<Byte>, at: nat, n: nat, r: nat)
    requires AllLive(d, at, n) && EntryCleared(d, e, at, r) && n <= MAX_ENTRIES
    ensures LiveCount(e, at, n) == if r < n then n - 1 else n
    decreases n
  {
    hide EntryAt;
    if n > 0 {
      var k := n - 1;
      forall i: nat | i < k ensures IsLive(d, at, k, i) { assert IsLive(d, at, n, i); }
      assert IsLive(d, at, n, k);
      OneCleared(d, e, at, k, r);
    }
  }

  lemma CutIsShort(sb: SuperBlock, s: State, s': State, r: nat)
    requires FsOk(sb, s) && HasLetters(sb, s, FULL) && Unlinked(sb, s, s', Letters(0), r)
    ensures LastCutOff(sb, s')
  {
    hide FsOk, EntryAt, AllLive, NameOf, Padded, RecordOf, Removed, SameFileBytes, HasFiles, Refines, Letters, CacheOk,
      AreEmpty, Held, LiveCount, OnlyEntry, Absent;
    RootFacts(sb, s);
    LettersName(0);
    FileHasNumber(sb, s, r);
    LiveBelow(s.disk, DataAt(sb), LAST_NR, s.files, r);
    OneCleared(s.disk, s'.disk, DataAt(sb), LAST_NR, r);
    SameRange(sb, s, s', r);
    LastEntryAlone(s.disk, s'.disk, DataAt(sb), s.files, r);
  }

  lemma FileHasNumber(sb: SuperBlock, s: State, r: nat)
    requires HasLetters(sb, s, FULL) && Padded(Letters(0)) in s.files
    requires EntryAt(s.disk, DataAt(sb), r) == Entry(s.files[Padded(Letters(0))], Padded(Letters(0)))
    ensures EntryAt(s.disk, DataAt(sb), r).nr == FIRST + 1 && r != LAST
  {
    hide EntryAt, AllLive, Padded, Letters, RecordOf;
  }

  lemma SameRange(sb: SuperBlock, s: State, s': State, r: nat)
    requires Unlinked(sb, s, s', Letters(0), r) && FsOk(sb, s)
    ensures Fits(sb, |s'.disk|) && |s'.disk| == |s.disk| && InRange(s.disk, DataAt(sb), 0)
  {
    hide EntryAt, NameOf, Padded, RecordOf, SameFileBytes, Letters, CacheOk, Held, LiveCount, DiskOk, TablesOk;
    RootFacts(sb, s);
  }

  lemma LastEntryAlone(d: seq<Byte>, e: seq<Byte>, at: nat, m: map<Name, int>, r: nat)
    requires Refines(d, at, LAST_NR, m) && EntryCleared(d, e, at, r) && r < LAST && |e| == |d|
    requires EntryAt(d, at, LAST) == Entry(LAST_NR, Padded(Letters(FULL - 1)))
    ensures EntryAt(e, at, LAST) == EntryAt(d, at, LAST) && OnlyEntry(e, at, LAST, LAST_NR, LAST)
    ensures Absent(e, at, 0, LAST, Padded(Letters(FULL - 1))) && InRange(e, at, LAST)
  {
    hide EntryAt, Padded, Letters;
    assert IsLive(d, at, LAST_NR, LAST);
    LettersName(FULL - 1);
    ProperName12(Letters(FULL - 1));
    forall i: nat | i < LAST
      ensures EntryAt(e, at, i).nr != LAST_NR && EntryAt(e, at, i).name != Padded(Letters(FULL - 1))
    {
      if i != r && EntryAt(d, at, i).nr != 0 { assert IsLive(d, at, LAST_NR, i); }
      if i != r && EntryAt(d, at, i).nr == 0 { assert !IsLive(d, at, LAST_NR, i); }
    }
  }

  lemma LastFileStays(sb: SuperBlock, s: State, s': State, r: nat)
    requires FsOk(sb, s) && HasLetters(sb, s, FULL) && Idle(s) && Unlinked(sb, s, s', Letters(0), r)
    ensures LastIsThere(sb, s')
  {
    hide SuperAt, RecordOf, Refines, TablesOk, BitAt, HoldsBlocks, AllSet, NameOf, Padded, Letters, EntryAt, AllLive,
      SizeAfter, SameFileBytes, EntryCleared, Cleared, AreEmpty, LetterBlocks, Held, ImapMarks, ExtentsOk, OtherSlots,
      CacheOk, IsFirstFree;
    LetterBlocksAre(FULL, LAST_NR);
    LetterBlocksAre(FULL, FIRST + 1);
    HeldByLetters(FULL, FULL);
    LettersName(0);
    assert InUse(s.files, LAST_NR);
    LastIsMarked(sb, s, s');
    LastHasBlock(sb, s, s');
    LastHasRecord(sb, s, s');
    SlotsStayFree(sb, s, s', r);
  }

  /** Unlinking leaves only the root in the inode table, where there was nothing else before. */
  lemma SlotsStayFree(sb: SuperBlock, s: State, s': State, r: nat)
    requires FsOk(sb, s) && Idle(s) && Unlinked(sb, s, s', Letters(0), r)
    ensures (exists q :: IsFirstFree(s'.table, q)) && (forall i :: !Live(s'.table, i, LAST_NR))
    ensures Live(s'.table, s'.root, ROOT_INODE) && CacheOk(s'.table, sb, s'.disk)
  {
    hide RecordOf, DiskOk, TablesOk, NameOf, Padded, Letters, EntryAt, SizeAfter, SameFileBytes, EntryCleared,
      Held, Removed;
    NothingHeld(sb, s);
    var k :| 0 <= k < |s.table| && s.table[k].cnt == 0 && OtherSlots(s.table, s'.table, k, s.root)
      && s'.table[k].cnt == 0;
    RootFacts(sb, s);
    assert IsFirstFree(s'.table, if s.root == 0 then 1 else 0);
  }

  /** What unlinking AA does to the device, and the blocks before. */
  ghost predicate FirstRemoved(sb: SuperBlock, s: State, d: seq<Byte>, rec: Record) {
    Removed(sb, s.disk, d, s.files, Held(s.blocks), Padded(Letters(0)), FIRST + 1, 1, rec)
  }

  lemma LastIsMarked(sb: SuperBlock, s: State, s': State)
    requires DiskOk(sb, s.disk, s.files, s.blocks) && InUse(s.files, LAST_NR) && 0 <= s.root < |s'.table|
    requires FirstRemoved(sb, s, s'.disk, s'.table[s.root].rec)
    ensures IsMarked(sb, s'.disk, LAST_NR)
  {
    hide SuperAt, RecordOf, Refines, BitAt, HoldsBlocks, ExtentsOk, InUse, Held, Padded, Letters;
    ImapBits(sb, s.disk);
    ImapBits(sb, s'.disk);
  }

  lemma LastHasBlock(sb: SuperBlock, s: State, s': State)
    requires 0 <= s.root < |s'.table| && FirstRemoved(sb, s, s'.disk, s'.table[s.root].rec) && FULL in Held(s.blocks)
    ensures FirstBit(FULL) + BLOCK <= sb.nrSmapSects * BITS && InodesAt(sb) <= |s'.disk|
    ensures AllSet(SmapOf(sb, s'.disk), FirstBit(FULL), FirstBit(FULL) + BLOCK)
  {
    hide RecordOf, BitAt, HoldsBlocks, Held, Padded, Letters, AllSet, Cleared;
    SmapBytes(sb, s'.disk);
    FreeingRemovesBlock(SmapOf(sb, s'.disk), Held(s.blocks) - {1}, FULL);
  }

  lemma LastHasRecord(sb: SuperBlock, s: State, s': State)
    requires DiskOk(sb, s.disk, s.files, s.blocks) && InUse(s.files, LAST_NR) && 0 <= s.root < |s'.table|
    requires FirstRemoved(sb, s, s'.disk, s'.table[s.root].rec) && LAST_NR in s.blocks && s.blocks[LAST_NR] == FULL
    ensures RecordOf(sb, s'.disk, LAST_NR).mode == I_REGULAR && HasExtent(sb, RecordOf(sb, s'.disk, LAST_NR), FULL)
  {
    hide SuperAt, RecordOf, Refines, BitAt, HoldsBlocks, ImapMarks, InUse, Held, Padded, Letters, Cleared;
    assert IsInodeNr(LAST_NR);
  }

  /** A directory whose first unused entry is not empty stands for nothing at all. */
  lemma NeverInOrder(sb: SuperBlock, s: State, files: map<Name, int>, blocks: map<int, nat>)
    requires LastCutOff(sb, s) && CacheOk(s.table, sb, s.disk) && Live(s.table, s.root, ROOT_INODE)
    ensures !DiskOk(sb, s.disk, files, blocks)
  {
    hide SuperAt, RecordOf, HoldsBlocks, ImapMarks, ExtentsOk, EntryAt, Padded, Letters, OnlyEntry, Absent;
    assert !IsLive(s.disk, DataAt(sb), LAST, LAST);
  }

  lemma LastIsFound(sb: SuperBlock, s: State, nr: int)
    requires LastCutOff(sb, s) && FindsPath(s.disk, DataAt(sb), LAST, Letters(FULL - 1), nr)
    ensures nr == LAST_NR
  {
    hide EntryAt, NameOf, Padded, Letters, OnlyEntry;
    LettersName(FULL - 1);
  }

  lemma LastCanBeFreed(sb: SuperBlock, s: State, u: seq<Inode>, k: int)
    requires LastCutOff(sb, s) && LastIsThere(sb, s) && Got(s.table, u, sb, s.disk, LAST_NR, k)
    ensures CanFree(sb, s.disk, u, s.root, LAST_NR, k, FULL, LAST)
    ensures 0 <= s.root < |u| && u[s.root] == s.table[s.root]
    ensures 0 <= k < |u| == NR_INODE && u[k].rec.mode == I_REGULAR && u[k].cnt == 1
  {
    hide RecordOf, EntryAt, Padded, Letters, OnlyEntry, Absent, AllSet, HasExtent;
  }

  /**
   Four first entries and 28 more fill the first sector of the directory. Unlinking AA then succeeds, and cuts the
   directory before its last live entry: whatever files and blocks one takes the device to hold, it is not in order.
   The last file is still found by its name. But unlinking it frees its inode and its block, and then does not find its
   entry, which the original asserts it does.
   */
  method UnlinkTooMuch() returns (fs: FileSystem, out: Outcome, nr: int, flg: bool, ghost s: State, ghost s1: State)
    ensures fresh(fs) && FsOk(fs.sb, s) && out == Done(0) && s1.files == s.files - {Padded(Letters(0))}
    ensures forall f, b :: !DiskOk(fs.sb, s1.disk, f, b)
    ensures Padded(Letters(FULL - 1)) in s1.files && s1.files[Padded(Letters(FULL - 1))] == nr
    ensures !flg && Fits(fs.sb, fs.dev.bytes.Length) && 0 < nr < BITS && !IsMarked(fs.sb, fs.dev.bytes[..], nr)
  {
    hide FsOk, HasLetters, Idle, Unlinked, CanBeRemoved, CutsDirectory, NamesAFile, UnlinkHalts, Refused, FindsPath,
      LastCutOff, LastIsThere, DiskOk, CanFree, EntryGone, FreedInode, FreedBlock, Rewritten, Fits;
    fs := EmptyFileSystem();
    var n := 0;
    while n < FULL
      invariant 0 <= n <= FULL && fresh(fs) && fresh(fs.dev.bytes) && fresh(fs.dev.fsbuf) && fresh(fs.inodes.slots)
      invariant fs.Valid() && fs.sb == MakeSuper(SECTORS) && HasLetters(fs.sb, fs.Now(), n) && Idle(fs.Now())
    {
      AddLetter(fs, n);
      n := n + 1;
    }
    s := fs.Now();
    FirstLetterCanGo(fs.sb, s);
    ghost var r;
    out, r := fs.DoUnlink(Letters(0));
    s1 := fs.Now();
    LetterCut(fs.sb, s, s1, r);
    CutIsShort(fs.sb, s, s1, r);
    LastFileStays(fs.sb, s, s1, r);
    nr, flg := UnlinkLast(fs, s1);
    LastHasName(fs.sb, s, s1);
    forall f, b ensures !DiskOk(fs.sb, s1.disk, f, b) { LastNotInOrder(fs.sb, s1, f, b); }
  }

  lemma LastNotInOrder(sb: SuperBlock, s: State, files: map<Name, int>, blocks: map<int, nat>)
    requires LastCutOff(sb, s) && LastIsThere(sb, s)
    ensures !DiskOk(sb, s.disk, files, blocks)
  {
    hide DiskOk, LastCutOff, RecordOf, AllSet, HasExtent;
    NeverInOrder(sb, s, files, blocks);
  }

  lemma LastHasName(sb: SuperBlock, s: State, s1: State)
    requires HasLetters(sb, s, FULL) && s1.files == s.files - {Padded(Letters(0))}
    ensures Padded(Letters(FULL - 1)) in s1.files && s1.files[Padded(Letters(FULL - 1))] == LAST_NR
  {
    hide EntryAt, AllLive, Padded, Letters, RecordOf, InUse;
    LettersDiffer(0, FULL - 1);
  }

  /** The steps of unlink for the last file: look it up, take its inode, find it regular and unused, and remove it. */
  method UnlinkLast(fs: FileSystem, ghost s: State) returns (nr: int, flg: bool)
    requires fs.inodes.Beside(fs.dev) && fs.Now() == s && LastCutOff(fs.sb, s) && LastIsThere(fs.sb, s)
    modifies fs.dev.bytes, fs.dev.fsbuf, fs.inodes.slots
    ensures nr == LAST_NR && !flg && Fits(fs.sb, fs.dev.bytes.Length) && !IsMarked(fs.sb, fs.dev.bytes[..], nr)
  {
    hide RecordOf, EntryAt, Padded, Letters, OnlyEntry, Absent, AllSet, HasExtent, FindsPath, CanFree, EntryGone,
      FreedInode, FreedBlock, Rewritten, IsMarked, Got, IsFirstFree;
    nr := SearchFile(fs.dev, fs.inodes.slots[fs.rootInode].rec.start, fs.inodes.slots[fs.rootInode].rec.size,
                     Letters(FULL - 1));
    LastIsFound(fs.sb, s, nr);
    var ok, pin := fs.inodes.GetInode(fs.dev, fs.sb, nr);
    assert ok;
    ghost var u := fs.inodes.slots[..];
    LastCanBeFreed(fs.sb, s, u, pin);
    assert fs.inodes.slots[pin].rec.mode == I_REGULAR && fs.inodes.slots[pin].cnt == 1;
    ghost var d1, d2, d3, d4;
    flg, d1, d2, d3, d4 := fs.RemoveFile(nr, pin, FULL, LAST);
    BitIsFree(fs.sb, s.disk, d1, d2, d3, d4, fs.dev.bytes[..], u[pin := Inode(NO_RECORD, 0, nr)], fs.inodes.slots[..],
              fs.rootInode, nr, FULL, LAST);
  }

  lemma BitIsFree(sb: SuperBlock, d0: seq<Byte>, d1: seq<Byte>, d2: seq<Byte>, d3: seq<Byte>, d4: seq<Byte>,
                  d5: seq<Byte>, t: seq<Inode>, t': seq<Inode>, root: int, nr: int, j: nat, r: nat)
    requires FreedInode(sb, d0, d1, nr) && FreedBlock(sb, d1, d2, j) && Rewritten(sb, d2, d3, nr, NO_RECORD)
    requires EntryGone(sb, d3, d4, d5, t, t', root, r, false) && IsInodeNr(nr) && nr < BITS
    ensures Fits(sb, |d5|) && !IsMarked(sb, d5, nr)
  {
    hide RecordOf, BitAt, SameOutside;
    RegionsAreDisjoint(sb, |d0|);
    ImapBits(sb, d0);
    FrameImap(sb, d1, d2, SmapAt(sb), InodesAt(sb));
    RecordInRange(sb, d2, d3, RecordPos(sb, nr), RecordPos(sb, nr) + 16, nr);
    FrameImap(sb, d2, d3, RecordPos(sb, nr), RecordPos(sb, nr) + 16);
  }

  // ----- Unlinking what is open -----

  /** The descriptor's file is unlinked in vain: its slot is live. */
  lemma OpenIsRefused(sb: SuperBlock, s: State, s1: State, fd: int, i: int, k: int)
    requires FsOk(sb, s) && HasLetters(sb, s, 0) && FsOk(sb, s1) && HasLetters(sb, s1, 1)
    requires Opened(sb, s, s1, USER, fd, Letters(0), CREATING, i, k)
    ensures !UnlinkHalts(s1, Letters(0)) && NamesAFile(s1.files, Letters(0))
    ensures Lookup(s1.files, Letters(0)) == FIRST + 1
    ensures !CanBeRemoved(sb, s1, FIRST + 1)
  {
    hide FsOk, InUse, EntryAt, AllLive, NameOf, Padded, RecordOf, CreatedFile, AreEmpty;
    LettersName(0);
    assert Live(s1.table, k, FIRST + 1);
  }

  /** And after closing it still is, as an unlink that was refused keeps a reference. */
  lemma StillRefused(sb: SuperBlock, s1: State, s2: State, s3: State, fd: int)
    requires HasFiles(s1, 1) && Refused(sb, s1, s2, FIRST + 1) && Closed(s2, s3, USER, fd) && FsOk(sb, s3)
    ensures !UnlinkHalts(s3, Letters(0)) && NamesAFile(s3.files, Letters(0))
    ensures Lookup(s3.files, Letters(0)) == FIRST + 1
    ensures !CanBeRemoved(sb, s3, FIRST + 1)
  {
    hide DiskOk, CacheOk, FilpOk, InUse, NameOf, Padded, RecordOf, Got, RefsOf;
    LettersName(0);
    assert FIRST + 1 in s3.refused;
    var k :| Live(s3.table, k, FIRST + 1);
  }

  lemma StaysOpen(sb: SuperBlock, s: State, s1: State, s2: State, fd: int, i: int, k: int)
    requires Opened(sb, s, s1, USER, fd, Letters(0), CREATING, i, k) && Refused(sb, s1, s2, FIRST + 1)
    ensures fd >= 0 && IsSlotOf(s2.filp, USER, fd) && s2.filp[USER][fd] != NONE
  {
    hide CreatedFile, OneMore, Got;
  }

  /** A file that was unlinked while it was open can not be unlinked when it is closed. */
  method UnlinkInVain() returns (fs: FileSystem, first: Outcome, second: Outcome)
    ensures fresh(fs) && fs.Valid() && first == Done(-1) && second == Done(-1)
    ensures !IsOpen(fs.Now(), FIRST + 1)
  {
    hide FsOk, HasLetters, Idle, Opened, Closed, Unlinked, CanBeRemoved, CutsDirectory, NamesAFile, UnlinkHalts,
      Refused;
    fs := EmptyFileSystem();
    ghost var s := fs.Now();
    LetterCanBeOpened(fs.sb, s, 0);
    var out, i, k := fs.DoOpen(USER, Letters(0), CREATING);
    var fd := out.ret;
    ghost var s1 := fs.Now();
    LetterCreated(fs.sb, s, s1, 0, fd, i, k);
    OpenIsRefused(fs.sb, s, s1, fd, i, k);
    ghost var r;
    first, r := fs.DoUnlink(Letters(0));
    ghost var s2 := fs.Now();
    StaysOpen(fs.sb, s, s1, s2, fd, i, k);
    var _ := fs.DoClose(USER, fd);
    ghost var s3 := fs.Now();
    assert HasFiles(s1, 1) by { FilesOf(fs.sb, s1, 1); }
    StillRefused(fs.sb, s1, s2, s3, fd);
    second, r := fs.DoUnlink(Letters(0));
    NobodyHasIt(fs.sb, s, s1, s2, s3, fs.Now(), fd, i, k);
  }

  lemma FilesOf(sb: SuperBlock, s: State, n: nat)
    requires HasLetters(sb, s, n)
    ensures HasFiles(s, n)
  {
    hide HasFiles;
  }

  lemma NobodyHasIt(sb: SuperBlock, s: State, s1: State, s2: State, s3: State, s4: State, fd: int, i: int, k: int)
    requires Idle(s) && Opened(sb, s, s1, USER, fd, Letters(0), CREATING, i, k) && Refused(sb, s1, s2, FIRST + 1)
    requires Closed(s2, s3, USER, fd) && Refused(sb, s3, s4, FIRST + 1)
    ensures !IsOpen(s4, FIRST + 1)
  {
    hide CreatedFile, OneMore, Got;
    forall j ensures !Used(s4.desc, j) { assert !Used(s.desc, j); }
  }

  // ----- Writing -----

  const ROOM: nat := 1048576

  /** AA opened again: its position is 0, and its extent is the block before AB's. */
  lemma OldIsEmpty(sb: SuperBlock, s: State, s1: State, fd: int, i: int, k: int)
    requires FsOk(sb, s) && HasLetters(sb, s, 2) && Opened(sb, s, s1, USER, fd, Letters(0), O_RDWR, i, k)
    requires FsOk(sb, s1)
    ensures MovesBytes(s1, USER, fd) && PosAt(s1, USER, fd) == 0 && RecordAt(s1, USER, fd).size == 0
    ensures RecordAt(s1, USER, fd).nrSects == NR_DEFAULT_FILE_SECTS && InodeAt(s1, USER, fd) == FIRST + 1
    ensures RecordAt(s1, USER, fd).start == sb.n1stSect + BLOCK
    ensures s1.disk == s.disk && s1.blocks == s.blocks && s1.files == s.files
  {
    hide SuperAt, InUse, EntryAt, AllLive, NameOf, Padded, RecordOf, TablesOk, OneMore, Refines, HoldsBlocks, ImapMarks,
      ExtentsOk, LetterBlocks;
    LettersName(0);
    GotKeepsCache(s.table, s1.table, sb, s.disk, FIRST + 1, k);
    LetterBlocksAre(2, FIRST + 1);
    IsRegular(sb, s, FIRST + 1);
    HasItsExtent(sb, s, FIRST + 1);
  }

  lemma HasItsExtent(sb: SuperBlock, s: State, f: int)
    requires FsOk(sb, s) && f in s.blocks && Fits(sb, |s.disk|) && IsInodeNr(f)
    ensures HasExtent(sb, RecordOf(sb, s.disk, f), s.blocks[f])
  {
    hide SuperAt, RecordOf, Refines, HoldsBlocks, ImapMarks, InUse, HasExtent;
    assert InUse(s.files, f);
  }

  lemma OldCanBeOpened(sb: SuperBlock, s: State)
    requires FsOk(sb, s) && HasLetters(sb, s, 2) && Idle(s)
    ensures !OpenHalts(sb, s, USER, Letters(0), O_RDWR) && !OpenFails(s.files, Letters(0), O_RDWR)
  {
    hide FsOk, FilpFull, DescFull, IsFirstFree, InUse, AllLive, EntryAt, NameOf, Padded, AreEmpty, LetterBlocks;
    NothingHeld(sb, s);
    LettersName(0);
  }

  lemma {:induction false} CoveredOnes(first: int, last: int)
    requires first <= last + 1
    ensures Covered(first, last, 1) == (last - first + 1) * SECTOR_SIZE
    decreases last - first + 1
  {
    if first <= last { CoveredOnes(first + 1, last); }
  }

  /** Writes that end at the end of the extent, or start there, are on the device. */
  lemma WriteFits(dev: Disk, r: Record, pos: nat, len: nat)
    requires dev.Valid() && dev.fsbuf.Length == SECTOR_SIZE && dev.bytes.Length == SECTORS * SECTOR_SIZE
    requires r.start == MakeSuper(SECTORS).n1stSect + BLOCK && r.nrSects == NR_DEFAULT_FILE_SECTS
    requires (pos == 0 && len == ROOM) || (pos == ROOM && len == 1)
    ensures TransferFits(dev, r, pos, false, len)
  {
    assert PosEnd(false, pos, len, r.size, r.nrSects) == ROOM;
    assert Chunk(pos, ROOM, 1) == 1;
    CoveredOnes(r.start + pos / SECTOR_SIZE, r.start + ROOM / SECTOR_SIZE);
  }

  /** The first write fills the extent. */
  lemma FilledUp(sb: SuperBlock, s: State, s': State, fd: int, data: seq<Byte>, capacity: nat, out: Outcome,
                 bytes: seq<Byte>)
    requires FsOk(sb, s) && MovesBytes(s, USER, fd) && PosAt(s, USER, fd) == 0 && |data| == ROOM
    requires RecordAt(s, USER, fd).nrSects == NR_DEFAULT_FILE_SECTS
    requires Transferred(sb, s, s', USER, fd, false, ROOM, data, capacity, out, bytes)
    ensures out == Done(ROOM) && MovesBytes(s', USER, fd) && PosAt(s', USER, fd) == ROOM
    ensures RecordAt(s', USER, fd) == RecordAt(s, USER, fd).(size := RecordAt(s', USER, fd).size)
    ensures InodeAt(s', USER, fd) == InodeAt(s, USER, fd) && s'.blocks == s.blocks && s'.files == s.files
  {
    hide FsOk, Moved;
    var r := RecordAt(s, USER, fd);
    assert PosEnd(false, 0, ROOM, r.size, r.nrSects) == PosEnd(false, 0, ROOM, 0, r.nrSects);
    WriteIsExact(0, ROOM, r.nrSects, capacity);
    var p := r.start * SECTOR_SIZE;
    AdvanceKeepsBytes(sb, s, Wrote(s.disk, p, data[..out.ret]), s', USER, fd, out.ret);
  }

  /** The second write, of one byte at the end of the extent, goes to the first byte of the next file. */
  lemma SpilledOver(sb: SuperBlock, s: State, s': State, fd: int, b: Byte, capacity: nat, out: Outcome,
                    bytes: seq<Byte>)
    requires FsOk(sb, s) && MovesBytes(s, USER, fd) && PosAt(s, USER, fd) == ROOM && s.blocks == LetterBlocks(2)
    requires RecordAt(s, USER, fd).nrSects == NR_DEFAULT_FILE_SECTS && InodeAt(s, USER, fd) == FIRST + 1
    requires Transferred(sb, s, s', USER, fd, false, 1, [b], capacity, out, bytes)
    ensures out == Done(1) && Fits(sb, |s.disk|) && |s'.disk| == |s.disk|
    ensures var q := RecordOf(sb, s.disk, FIRST + 2).start * SECTOR_SIZE; q < |s.disk| && s'.disk[q] == b
  {
    hide FsOk, Moved, RecordOf, WroteFile, LetterBlocks;
    RootFacts(sb, s);
    var r := RecordAt(s, USER, fd);
    assert PosEnd(false, ROOM, 1, r.size, r.nrSects) == PosEnd(false, ROOM, 1, 0, r.nrSects);
    WriteIsExact(ROOM, 1, r.nrSects, capacity);
    LetterBlocksAre(2, FIRST + 1);
    LetterBlocksAre(2, FIRST + 2);
    assert IsInodeNr(FIRST + 2);
    WriteReachesNext(sb, s, s', USER, fd, 1, [b], capacity, out.ret, FIRST + 2);
  }

  lemma HasSlotThere(s: State, fd: int)
    requires MovesBytes(s, USER, fd)
    ensures IsSlotOf(s.filp, USER, fd) && fd >= 0
  {
  }

  /** Where AB's extent starts. */
  lemma NextFirstByte(sb: SuperBlock, s0: State, s: State)
    requires HasLetters(sb, s0, 2) && s.files == s0.files && s.blocks == s0.blocks && FsOk(sb, s)
    ensures s.blocks == LetterBlocks(2) && Fits(sb, |s.disk|)
    ensures Padded(Letters(1)) in s.files && s.files[Padded(Letters(1))] == FIRST + 2 && IsInodeNr(FIRST + 2)
    ensures RecordOf(sb, s.disk, FIRST + 2).start == sb.n1stSect + 2 * BLOCK
  {
    hide FsOk, RecordOf, LetterBlocks, Padded, Letters, InUse, EntryAt, AllLive;
    RootFacts(sb, s);
    LetterBlocksAre(2, FIRST + 2);
    HasItsExtent(sb, s, FIRST + 2);
  }

  /**
   With two files, one is written up to the end of its extent and then one byte more: that becomes the first byte of the
   other, of whose extent nothing was written or read.
   */
  method WriteIntoAnother() returns (fs: FileSystem, out: Outcome, q: nat, b: Byte, ghost s: State)
    ensures fresh(fs) && fs.Valid() && FsOk(fs.sb, s) && out == Done(1)
    ensures Fits(fs.sb, |s.disk|) && Padded(Letters(1)) in s.files && IsInodeNr(s.files[Padded(Letters(1))])
    ensures RecordOf(fs.sb, s.disk, s.files[Padded(Letters(1))]).start * SECTOR_SIZE == q
    ensures q < |s.disk| == fs.dev.bytes.Length && s.disk[q] != b && fs.dev.bytes[q] == b
  {
    hide FsOk, HasLetters, Idle, Opened, Transferred, TransferFits, MovesBytes, RecordOf, OpenHalts, OpenFails, Padded,
      Letters, LetterBlocks;
    fs := EmptyFileSystem();
    AddLetter(fs, 0);
    AddLetter(fs, 1);
    ghost var s0 := fs.Now();
    OldCanBeOpened(fs.sb, s0);
    ghost var i, k;
    out, i, k := fs.DoOpen(USER, Letters(0), O_RDWR);
    var fd := out.ret;
    ghost var s1 := fs.Now();
    OldIsEmpty(fs.sb, s0, s1, fd, i, k);
    HasSlotThere(s1, fd);
    var data: seq<Byte> := seq(ROOM, _ => 0);
    WriteFits(fs.dev, RecordAt(s1, USER, fd), 0, ROOM);
    var bytes;
    out, bytes := fs.DoRdwt(USER, fd, false, ROOM, data);
    s := fs.Now();
    FilledUp(fs.sb, s1, s, fd, data, fs.dev.fsbuf.Length / SECTOR_SIZE, out, bytes);
    HasSlotThere(s, fd);
    WriteFits(fs.dev, RecordAt(s, USER, fd), ROOM, 1);
    q := (fs.sb.n1stSect + 2 * BLOCK) * SECTOR_SIZE;
    NextFirstByte(fs.sb, s0, s);
    b := if fs.dev.bytes[q] == 1 then 2 else 1;
    out, bytes := fs.DoRdwt(USER, fd, false, 1, [b]);
    SpilledOver(fs.sb, s, fs.Now(), fd, b, fs.dev.fsbuf.Length / SECTOR_SIZE, out, bytes);
  }

  // ----- Reading -----

  /**
   A file that has just been created is empty. Reading a byte of it answers that one byte was read, and makes the file
   one byte long.
   */
  method ReadWhatIsNotThere() returns (fs: FileSystem, fd: int, out: Outcome, ghost s: State)
    ensures fresh(fs) && fs.Valid() && FsOk(fs.sb, s) && MovesBytes(s, USER, fd) && RecordAt(s, USER, fd).size == 0
    ensures out == Done(1) && MovesBytes(fs.Now(), USER, fd) && RecordAt(fs.Now(), USER, fd).size == 1
  {
    hide FsOk, HasLetters, Idle, Opened, Transferred, TransferFits, MovesBytes;
    fs := EmptyFileSystem();
    ghost var s0 := fs.Now();
    LetterCanBeOpened(fs.sb, s0, 0);
    ghost var i, k;
    out, i, k := fs.DoOpen(USER, Letters(0), CREATING);
    fd := out.ret;
    s := fs.Now();
    CanBeClosed(fs.sb, s0, s, fd, Letters(0), i, k);
    NewFileIsEmpty(fs.sb, s0, s, fd, i, k);
    ByteFits(fs.dev, RecordAt(s, USER, fd));
    var bytes;
    out, bytes := fs.DoRdwt(USER, fd, true, 1, []);
    ReadLengthened(fs.sb, s0, s, fs.Now(), fd, i, k, fs.dev.fsbuf.Length / SECTOR_SIZE, out, bytes);
  }

  lemma NewFileIsEmpty(sb: SuperBlock, s: State, s1: State, fd: int, i: int, k: int)
    requires FsOk(sb, s) && HasLetters(sb, s, 0) && Opened(sb, s, s1, USER, fd, Letters(0), CREATING, i, k)
    ensures MovesBytes(s1, USER, fd) && PosAt(s1, USER, fd) == 0
    ensures RecordAt(s1, USER, fd).size == 0 && RecordAt(s1, USER, fd).nrSects == NR_DEFAULT_FILE_SECTS
    ensures RecordAt(s1, USER, fd).start == sb.n1stSect + BLOCK
  {
    hide FsOk, InUse, EntryAt, AllLive, NameOf, Padded, RecordOf, DiskOk, CacheOk, OtherRecords, SameFileBytes, OneMore,
      NamePlaced, OtherSlots, HasLetters;
    LettersName(0);
    var f: nat, j: nat :| CreatedFile(sb, s, s1, Letters(0), k, f, j);
    NextNumbers(sb, s, 0, f, j);
  }

  lemma ByteFits(dev: Disk, r: Record)
    requires dev.Valid() && dev.bytes.Length == SECTORS * SECTOR_SIZE && r.size == 0
    requires r.start == MakeSuper(SECTORS).n1stSect + BLOCK
    ensures TransferFits(dev, r, 0, true, 1)
  {
    assert Chunk(0, 0, dev.fsbuf.Length / SECTOR_SIZE) == 1;
    assert Covered(r.start, r.start, 1) == SECTOR_SIZE + Covered(r.start + 1, r.start, 1);
  }

  lemma ReadLengthened(sb: SuperBlock, s: State, s1: State, s2: State, fd: int, i: int, k: int, capacity: nat,
                       out: Outcome, bytes: seq<Byte>)
    requires FsOk(sb, s1) && Opened(sb, s, s1, USER, fd, Letters(0), CREATING, i, k)
    requires MovesBytes(s1, USER, fd) && RecordAt(s1, USER, fd).size == 0
    requires Transferred(sb, s1, s2, USER, fd, true, 1, [], capacity, out, bytes)
    ensures out == Done(1) && MovesBytes(s2, USER, fd) && RecordAt(s2, USER, fd).size == 1
  {
    hide FsOk, Opened, Moved, Advanced;
    assert out.Done? && ReadFile(sb, s1, s2, USER, fd, 1, capacity, out.ret, bytes);
    OneByte(capacity);
    FirstReadLengthens(sb, s, s1, s2, USER, fd, Letters(0), CREATING, i, k, 1, capacity, out.ret, bytes);
  }

  lemma OneByte(capacity: nat)
    requires capacity > 0
    ensures forall n: nat :: Moved(0, 1, PosEnd(true, 0, 1, 0, n), capacity) == 1
  {
    forall n: nat ensures Moved(0, 1, PosEnd(true, 0, 1, 0, n), capacity) == 1 {
      assert Covered(0, 0, 1) == SECTOR_SIZE + Covered(1, 0, 1);
    }
  }
}
