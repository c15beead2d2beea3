/** A new file system to which files have been added one after the other, for sequences of calls to start from. */
module NewFiles {
  import opened Wrappers
  import opened Bytes
  import opened Device
  import opened Layout
  import opened Maps
  import opened Extents
  import opened Inodes
  import opened Directory
  import opened FsInv
  import opened FsSteps
  import opened Descriptors
  import opened FsState
  import opened FsCalls
  import opened Mkfs
  import opened FileSystem

  const SECTORS: nat := 0x2_0000
  const USER: nat := 5
  const CREATING: nat := O_CREAT + O_RDWR

  // ----- A file system to which some files have been added -----

  /** How many files fill the first sector of the directory. */
  const FULL: nat := 28

  function Letter(k: nat): Byte
    requires k < 6
  {
    if k == 0 then 0x41 else if k == 1 then 0x42 else if k == 2 then 0x43 else if k == 3 then 0x44
    else if k == 4 then 0x45 else 0x46
  }

  /** The names that are given to new files: AA, AB, and so on. */
  function Letters(i: nat): (r: seq<Byte>)
    requires i < FULL
    ensures |r| == 2
  {
    [Letter(i / 6), Letter(i % 6)]
  }

  lemma LettersName(i: nat)
    requires i < FULL
    ensures NameOf(Letters(i)) == Some(Letters(i)) && NameIn(Letters(i)) == Letters(i)
    ensures CString(Letters(i)) == Letters(i) && Letters(i) != [SLASH] && 0 !in Letters(i)
  {
    var p := Letters(i);
    assert p[1..] == [p[1]] && p[1..][1..] == [];
    assert CString(p) == p;
  }

  lemma LettersDiffer(i: nat, j: nat)
    requires i < FULL && j < FULL && i != j
    ensures Padded(Letters(i)) != Padded(Letters(j))
  {
    hide Padded;
    if Padded(Letters(i)) == Padded(Letters(j)) {
      LettersName(i);
      LettersName(j);
      PaddedIsInjective(Letters(i), Letters(j));
      SameLetter(i / 6, j / 6);
      SameLetter(i % 6, j % 6);
    }
  }

  lemma SameLetter(k: nat, l: nat)
    requires k < 6 && l < 6
    ensures Letter(k) == Letter(l) ==> k == l
  {
  }

  /** The first n of these files have been added to the first ones, and nothing has been removed. */
  ghost predicate HasLetters(sb: SuperBlock, s: State, n: nat) {
    n <= FULL && HasFiles(s, n) && HasEntries(sb, s, n) && AreEmpty(sb, s.disk, n)
  }

  ghost predicate AreEmpty(sb: SuperBlock, d: seq<Byte>, n: nat) {
    Fits(sb, |d|) && n <= FULL && forall m :: FIRST < m <= FIRST + n ==> RecordOf(sb, d, m).size == 0
  }

  /** Each new file has the next inode and the next block. */
  ghost function LetterBlocks(n: nat): map<int, nat> {
    if n == 0 then FirstBlocks() else LetterBlocks(n - 1)[FIRST + n := n]
  }

  lemma {:induction false} LetterBlocksAre(n: nat, i: int)
    ensures i in LetterBlocks(n) <==> i == ROOT_INODE || FIRST < i <= FIRST + n
    ensures i in LetterBlocks(n) ==> LetterBlocks(n)[i] == if i == ROOT_INODE then 0 else i - FIRST
  {
    if n > 0 { LetterBlocksAre(n - 1, i); }
  }

  lemma HeldByLetters(n: nat, j: nat)
    ensures j in Held(LetterBlocks(n)) <==> j <= n
  {
    if j in Held(LetterBlocks(n)) {
      var i :| i in LetterBlocks(n) && LetterBlocks(n)[i] == j;
      LetterBlocksAre(n, i);
    }
    LetterBlocksAre(n, if j == 0 then ROOT_INODE else FIRST + j);
    if j <= n { assert LetterBlocks(n)[if j == 0 then ROOT_INODE else FIRST + j] == j; }
  }

  ghost predicate HasFiles(s: State, n: nat) {
    && (forall i :: InUse(s.files, i) <==> 1 <= i <= FIRST + n)
    && s.blocks == LetterBlocks(n)
    && (forall i: nat :: n <= i < FULL ==> Padded(Letters(i)) !in s.files)
    && (forall i: nat :: i < n && i < FULL ==>
      Padded(Letters(i)) in s.files && s.files[Padded(Letters(i))] == FIRST + 1 + i)
  }

  /** They are all in the directory, which has no holes; the last is where it was added. */
  ghost predicate HasEntries(sb: SuperBlock, s: State, n: nat) {
    && 0 <= s.root < |s.table| && s.table[s.root].rec.size == (FIRST + n) * DIR_ENTRY_SIZE
    && AllLive(s.disk, DataAt(sb), FIRST + n)
    && (0 < n <= FULL ==> EntryAt(s.disk, DataAt(sb), FIRST + n - 1) == Entry(FIRST + n, Padded(Letters(n - 1))))
  }

  /** Nothing is open, and no unlink was refused. */
  ghost predicate Idle(s: State) { (forall i :: !Used(s.desc, i)) && s.refused == multiset{} }

  method EmptyFileSystem() returns (fs: FileSystem)
    ensures fresh(fs) && fresh(fs.dev) && fresh(fs.dev.bytes) && fresh(fs.dev.fsbuf) && fresh(fs.inodes.slots)
    ensures fs.Valid() && fs.sb == MakeSuper(SECTORS) && fs.dev.bytes.Length == SECTORS * SECTOR_SIZE
    ensures fs.dev.fsbuf.Length == SECTOR_SIZE
    ensures HasLetters(fs.sb, fs.Now(), 0) && Idle(fs.Now())
  {
    hide HasMagic, CanBeMade, HasLetters, FsOk, DiskOk, HoldsRecords;
    var dev := new Disk(SECTORS, 1);
    ZeroDevice(dev.bytes[..]);
    fs := FileSystem.InitFs(dev, SECTORS, MakeSuper(0), map[], map[]);
    StartsWithoutLetters(fs.sb, fs.Now());
  }

  lemma ZeroDevice(d: seq<Byte>)
    requires |d| == SECTORS * SECTOR_SIZE && forall i :: 0 <= i < |d| ==> d[i] == 0
    ensures !HasMagic(d) && CanBeMade(MakeSuper(SECTORS), d)
  {
    ZeroWord();
    assert d[SECTOR_SIZE..SECTOR_SIZE + 4] == [0, 0, 0, 0];
  }

  lemma StartsWithoutLetters(sb: SuperBlock, s: State)
    requires FsOk(sb, s) && s.files == FirstFiles(FIRST) && s.blocks == FirstBlocks()
    requires HoldsRecords(sb, s.disk, FIRST) && AllLive(s.disk, DataAt(sb), FIRST)
    ensures HasLetters(sb, s, 0)
  {
    hide RecordOf, FirstFiles, Refines, EntryAt, FsOk;
    RootFacts(sb, s);
    assert s.table[s.root].rec == FirstRecord(sb, ROOT_INODE);
    forall i ensures InUse(s.files, i) <==> 1 <= i <= FIRST { FirstInUse(i); }
    forall i: nat | i < FULL ensures Padded(Letters(i)) !in s.files { LettersAreNew(i); }
  }

  lemma LettersAreNew(i: nat)
    requires i < FULL
    ensures Padded(Letters(i)) !in FirstFiles(FIRST)
  {
    hide FirstFiles;
    if Padded(Letters(i)) in FirstFiles(FIRST) {
      FirstFilesAre(FIRST, Padded(Letters(i)));
      var k := FirstFiles(FIRST)[Padded(Letters(i))] - 1;
      FirstNameFacts(k, k);
      LettersName(i);
      PaddedIsInjective(Letters(i), FirstName(k));
    }
  }

  // ----- One file more -----

  /** Nothing is open, so every descriptor of every process is free, and every slot but the root's. */
  lemma NothingHeld(sb: SuperBlock, s: State)
    requires FsOk(sb, s) && Idle(s)
    ensures FilpShape(s.filp) && |s.desc| == NR_FILE_DESC
    ensures !FilpFull(s.filp, USER) && !DescFull(s.desc) && exists q :: IsFirstFree(s.table, q)
    ensures forall k :: 0 <= k < |s.table| && s.table[k].cnt > 0 ==> k == s.root
  {
    hide DiskOk, Opens, RefsOk, PositionsOk, InUse;
    NoDescriptors(s);
    RefsAreRoots(s);
    forall k | 0 <= k < |s.table| && s.table[k].cnt > 0 ensures k == s.root {
      assert s.table[k].num == ROOT_INODE;
    }
    assert IsFirstFree(s.table, if s.root == 0 then 1 else 0);
  }

  lemma NoDescriptors(s: State)
    requires FilpOk(s.filp, s.desc) && forall i :: !Used(s.desc, i)
    ensures !FilpFull(s.filp, USER) && !DescFull(s.desc)
  {
    assert !Used(s.desc, 0);
    assert Holds(s.filp, USER, 0, s.filp[USER][0]);
  }

  lemma RefsAreRoots(s: State)
    requires RefsOk(s.table, s.desc, s.refused) && Idle(s)
    ensures forall k :: 0 <= k < |s.table| && s.table[k].cnt > 0 ==> s.table[k].num == ROOT_INODE
  {
    hide Opens;
    forall i | 0 <= i < |s.desc| ensures s.desc[i].inode == NONE { assert !Used(s.desc, i); }
    forall k | 0 <= k < |s.table| && s.table[k].cnt > 0 ensures s.table[k].num == ROOT_INODE {
      OpensPositive(s.desc, k);
      assert RefsOf(s.table[k], k, s.desc, s.refused);
    }
  }

  lemma LetterCanBeOpened(sb: SuperBlock, s: State, n: nat)
    requires FsOk(sb, s) && sb == MakeSuper(SECTORS) && HasLetters(sb, s, n) && Idle(s) && n < FULL
    ensures !OpenHalts(sb, s, USER, Letters(n), CREATING) && !OpenFails(s.files, Letters(n), CREATING)
    ensures |NameIn(Letters(n))| < MAX_FILENAME_LEN
  {
    hide FsOk, FilpFull, DescFull, IsFirstFree, InUse, AllLive, EntryAt, NameOf, Padded;
    NothingHeld(sb, s);
    LettersName(n);
    assert !InUse(s.files, FIRST + n + 1);
    HeldByLetters(n, n + 1);
    assert n + 1 !in Held(s.blocks) && FirstBit(n + 2) <= sb.nrSmapSects * BITS;
  }

  /** The new entry comes behind entries that are all live. */
  lemma EntryBehind(d: seq<Byte>, e: seq<Byte>, at: nat, n: nat, n': nat, x: Entry, k: nat)
    requires AllLive(d, at, n) && EntryPlaced(d, e, at, n, n', x, k) && x.nr != 0
    ensures k == n && n' == n + 1 && AllLive(e, at, n + 1) && EntryAt(e, at, n) == x
  {
    hide EntryAt;
    var m := n + 1;
    assert k < n ==> IsLive(d, at, n, k);
    forall i: nat | i < m ensures IsLive(e, at, m, i) {
      if i < n { assert IsLive(d, at, n, i); }
    }
  }

  /** Creating the next letter takes the next inode and the next block, and adds an entry at the end. */
  lemma LetterCreated(sb: SuperBlock, s: State, s': State, n: nat, fd: int, i: int, k: int)
    requires FsOk(sb, s) && HasLetters(sb, s, n) && n < FULL && FsOk(sb, s')
    requires Opened(sb, s, s', USER, fd, Letters(n), CREATING, i, k)
    ensures HasLetters(sb, s', n + 1)
  {
    hide FsOk, RecordOf, InUse, EntryAt, NameOf, Padded, OneMore, DiskOk, CacheOk, OtherRecords, SameFileBytes, IsLive,
      AllLive, EntryPlaced, HasExtent, AreEmpty, Held, LetterBlocks, NamePlaced, OtherSlots, HasFiles, HasEntries;
    LettersName(n);
    var key := Padded(Letters(n));
    var f: nat, j: nat :| CreatedFile(sb, s, s', Letters(n), k, f, j) && s'.files == s.files[key := f]
      && s'.blocks == s.blocks[f := j];
    NextNumbers(sb, s, n, f, j);
    FilesAdded(s, s', n);
    RootFacts(sb, s');
    DirectoryGrown(sb, s, s', n, Entry(f, key));
    OneMoreEmpty(sb, s, s', n, k, j);
  }

  lemma OneMoreEmpty(sb: SuperBlock, s: State, s': State, n: nat, k: int, j: nat)
    requires AreEmpty(sb, s.disk, n) && n < FULL && CreatedFile(sb, s, s', Letters(n), k, FIRST + n + 1, j)
    ensures AreEmpty(sb, s'.disk, n + 1)
  {
    hide RecordOf, DiskOk, Padded, Letters, NamePlaced, InUse;
    forall m | FIRST < m <= FIRST + n + 1 ensures RecordOf(sb, s'.disk, m).size == 0 {
      assert IsInodeNr(m);
      if m <= FIRST + n { assert RecordOf(sb, s.disk, m).size == 0; }
    }
  }

  lemma FilesAdded(s: State, s': State, n: nat)
    requires n < FULL && HasFiles(s, n)
    requires s'.files == s.files[Padded(Letters(n)) := FIRST + n + 1] && s'.blocks == s.blocks[FIRST + n + 1 := n + 1]
    ensures HasFiles(s', n + 1)
  {
    hide InUse, Padded, Letters;
    var key, f := Padded(Letters(n)), FIRST + n + 1;
    forall m ensures InUse(s'.files, m) <==> InUse(s.files, m) || m == f { InUseAdded(s.files, key, f, m); }
    assert s'.blocks == LetterBlocks(n + 1);
    forall m: nat | m < FULL && m != n ensures Padded(Letters(m)) != key { LettersDiffer(m, n); }
  }

  lemma DirectoryGrown(sb: SuperBlock, s: State, s': State, n: nat, x: Entry)
    requires HasEntries(sb, s, n) && NamePlaced(sb, s, s', x)
    requires n < FULL && x == Entry(FIRST + n + 1, Padded(Letters(n)))
    requires s'.root == s.root && s'.table[s.root].rec.size % DIR_ENTRY_SIZE == 0
    ensures HasEntries(sb, s', n + 1)
  {
    hide EntryAt, AllLive, EntryPlaced, Padded, Letters;
    var size := s'.table[s.root].rec.size;
    var k: nat :| EntryPlaced(s.disk, s'.disk, DataAt(sb), FIRST + n, size / DIR_ENTRY_SIZE, x, k);
    EntryBehind(s.disk, s'.disk, DataAt(sb), FIRST + n, size / DIR_ENTRY_SIZE, x, k);
  }

  lemma NextNumbers(sb: SuperBlock, s: State, n: nat, f: int, j: nat)
    requires HasLetters(sb, s, n)
    requires 0 < f && !InUse(s.files, f) && (forall i :: 0 < i < f ==> InUse(s.files, i))
    requires j !in Held(s.blocks) && forall i: nat :: i < j ==> i in Held(s.blocks)
    ensures f == FIRST + n + 1 && j == n + 1
  {
    hide InUse, AllLive, EntryAt, Padded, Held, AreEmpty;
    HeldByLetters(n, n + 1);
    HeldByLetters(n, j);
    assert !InUse(s.files, FIRST + n + 1) && n + 1 !in Held(s.blocks);
  }

  lemma LetterClosed(sb: SuperBlock, s: State, s1: State, s2: State, n: nat, fd: int, i: int, k: int)
    requires Idle(s) && HasLetters(sb, s1, n) && 0 < n && Closed(s1, s2, USER, fd)
    requires Opened(sb, s, s1, USER, fd, Letters(n - 1), CREATING, i, k)
    ensures HasLetters(sb, s2, n) && Idle(s2)
  {
    hide InUse, EntryAt, NameOf, Padded, OneMore, CreatedFile, AllLive;
    forall j ensures !Used(s2.desc, j) { assert !Used(s.desc, j); }
  }

  /** Create and close the next letter. */
  method AddLetter(fs: FileSystem, n: nat)
    requires fs.Valid() && fs.sb == MakeSuper(SECTORS) && HasLetters(fs.sb, fs.Now(), n) && Idle(fs.Now()) && n < FULL
    modifies fs, fs.dev.bytes, fs.dev.fsbuf, fs.inodes.slots
    ensures fs.Valid() && HasLetters(fs.sb, fs.Now(), n + 1) && Idle(fs.Now())
  {
    hide FsOk, HasLetters, Idle, Opened, Closed;
    ghost var s := fs.Now();
    LetterCanBeOpened(fs.sb, s, n);
    var out, i, k := fs.DoOpen(USER, Letters(n), CREATING);
    ghost var s1 := fs.Now();
    LetterCreated(fs.sb, s, s1, n, out.ret, i, k);
    CanBeClosed(fs.sb, s, s1, out.ret, Letters(n), i, k);
    var _ := fs.DoClose(USER, out.ret);
    LetterClosed(fs.sb, s, s1, fs.Now(), n + 1, out.ret, i, k);
  }

  lemma CanBeClosed(sb: SuperBlock, s: State, s1: State, fd: int, path: seq<Byte>, i: int, k: int)
    requires Opened(sb, s, s1, USER, fd, path, CREATING, i, k)
    ensures fd >= 0 && IsSlotOf(s1.filp, USER, fd) && s1.filp[USER][fd] != NONE
  {
    hide CreatedFile, OneMore;
  }
}
