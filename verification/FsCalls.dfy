/** The file system calls as relations between states, and the steps by which each call keeps the state in order. */
module FsCalls {
  import opened Wrappers
  import opened Bytes
  import opened Device
  import opened Layout
  import opened Maps
  import opened Extents
  import opened Inodes
  import opened SuperBlocks
  import opened Directory
  import opened FsInv
  import opened FsSteps
  import opened Descriptors
  import opened FsState
  import Mkfs
  import opened ReadWrite

  const MAX_PATH: nat := 128
  const ROOT_DEV: int := 0x320
  const O_CREAT: nat := 1
  const O_RDWR: nat := 2

  /** Halted stands for a failed assertion, a panic or the use of a null pointer: the task goes no further. */
  datatype Outcome = Done(ret: int) | Halted

  predicate Creates(flags: nat) { flags % 2 == 1 }

  predicate ReadsWrites(flags: nat) { flags / 2 % 2 == 1 }

  function TypeOf(mode: int): int { mode / 0x1000 % 0x10 * 0x1000 }

  /** The name of a path, where it has one. */
  function NameIn(path: seq<Byte>): Name {
    if NameOf(path).Some? then NameOf(path).value else []
  }

  /** Slot k of the table is live and for the root directory, which stands for m. */
  ghost predicate IsDirectory(sb: SuperBlock, d: seq<Byte>, t: seq<Inode>, k: int, m: map<Name, int>) {
    && Live(t, k, ROOT_INODE)
    && t[k].rec.start * SECTOR_SIZE == DataAt(sb) && t[k].rec.size % DIR_ENTRY_SIZE == 0
    && t[k].rec.size / DIR_ENTRY_SIZE < MAX_ENTRIES && Refines(d, DataAt(sb), t[k].rec.size / DIR_ENTRY_SIZE, m)
  }

  lemma DirectoryRange(sb: SuperBlock, d: seq<Byte>, t: seq<Inode>, k: int, m: map<Name, int>)
    requires IsDirectory(sb, d, t, k, m)
    ensures DataAt(sb) + MAX_ENTRIES * DIR_ENTRY_SIZE <= |d| && t[k].rec.size + DIR_ENTRY_SIZE < WORD
  {
  }

  /** From d to e the directory has come to stand for m, and from e to d' its record has been brought up to date. */
  ghost predicate NameAdded(sb: SuperBlock, d: seq<Byte>, e: seq<Byte>, d': seq<Byte>, t: seq<Inode>, t': seq<Inode>,
                            k: int,
                            size: U32, m: map<Name, int>) {
    && InDirectory(d, e, DataAt(sb)) && size % DIR_ENTRY_SIZE == 0 && Refines(e, DataAt(sb), size / DIR_ENTRY_SIZE, m)
    && 0 <= k < |t|
    && size >= t[k].rec.size && (size > t[k].rec.size ==> AllLive(e, DataAt(sb), size / DIR_ENTRY_SIZE))
    && Rewritten(sb, e, d', ROOT_INODE, t[k].rec.(size := size)) && t' == t[k := t[k].(rec := t[k].rec.(size := size))]
  }

  /** Whether a file can be created: an inode number, a whole block and a slot of the inode table are free. */
  ghost predicate CanCreate(sb: SuperBlock, s: State) {
    && (exists f :: 0 < f < BITS && !InUse(s.files, f))
    && (exists j: nat :: j !in Held(s.blocks) && FirstBit(j + 1) <= sb.nrSmapSects * BITS)
    && (exists q :: IsFirstFree(s.table, q))
  }

  /** Every slot but slot k and that of the root, which changes in its size only, is as it was. */
  ghost predicate OtherSlots(t: seq<Inode>, u: seq<Inode>, k: int, root: int) {
    && |u| == |t| && 0 <= root < |t| && k != root
    && (forall i :: 0 <= i < |t| && i != k && i != root ==> u[i] == t[i])
    && u[root] == t[root].(rec := t[root].rec.(size := u[root].rec.size))
  }

  /** From s to s', an empty regular file has been created, with the lowest free inode and the lowest free block. */
  ghost predicate CreatedFile(sb: SuperBlock, s: State, s': State, name: Name, k: int, f: nat, j: nat) {
    && |name| < MAX_FILENAME_LEN && 0 <= k < |s'.table| && Fits(sb, |s'.disk|)
    && 0 < f < BITS && !InUse(s.files, f) && (forall i :: 0 < i < f ==> InUse(s.files, i))
    && j !in Held(s.blocks) && (forall i: nat :: i < j ==> i in Held(s.blocks))
    && SameFileBytes(sb, s.disk, s'.disk)
    && DiskOk(sb, s'.disk, s.files[Padded(name) := f], s.blocks[f := j]) && CacheOk(s'.table, sb, s'.disk)
    && OtherRecords(sb, s.disk, s'.disk, f)
    && OneMore(s.table, s'.table, f, k) && OtherSlots(s.table, s'.table, k, s.root)
    && s'.table[k].rec == Record(I_REGULAR, 0, s'.table[k].rec.start, NR_DEFAULT_FILE_SECTS)
    && HasExtent(sb, s'.table[k].rec, j)
    && NamePlaced(sb, s, s', Entry(f, Padded(name)))
  }

  /** The directory has one entry more, in its first hole or else behind the last one; only then has it grown. */
  ghost predicate NamePlaced(sb: SuperBlock, s: State, s': State, x: Entry) {
    && 0 <= s.root < |s.table| == |s'.table|
    && exists k: nat :: EntryPlaced(s.disk, s'.disk, DataAt(sb), s.table[s.root].rec.size / DIR_ENTRY_SIZE,
                                    s'.table[s.root].rec.size / DIR_ENTRY_SIZE, x, k)
  }

  // ----- Opening, as a relation between states -----

  function Major(d: int): int { d / 0x100 % 0x100 }

  predicate CanBeOpened(x: Inode) {
    var t := TypeOf(x.rec.mode);
    if t == I_CHAR_SPECIAL then Major(x.rec.start) == DEV_CHAR_TTY
    else if t == I_DIRECTORY then x.num == ROOT_DEV else x.rec.mode == I_REGULAR
  }

  /** Every file but the root can be opened. */
  lemma OnlyTheRootCannot(sb: SuperBlock, s: State, num: int, x: Inode)
    requires FsOk(sb, s) && InUse(s.files, num) && IsInodeNr(num) && x.num == num && x.rec == RecordOf(sb, s.disk, num)
    ensures CanBeOpened(x) <==> num != ROOT_INODE
  {
    hide SuperAt, RecordOf, Refines, HoldsBlocks, ImapMarks, CacheOk, TablesOk, HasExtent;
  }

  lemma GotFile(sb: SuperBlock, s: State, u: seq<Inode>, num: int, k: int)
    requires FsOk(sb, s) && InUse(s.files, num) && IsInodeNr(num) && Got(s.table, u, sb, s.disk, num, k)
    ensures |u| == NR_INODE && 0 <= k < |u| && CacheOk(u, sb, s.disk) && OneMore(s.table, u, num, k)
    ensures CanBeOpened(u[k]) <==> num != ROOT_INODE
  {
    hide RecordOf, DiskOk, TablesOk, CanBeOpened, IsFirstFree;
    GotKeepsCache(s.table, u, sb, s.disk, num, k);
    GotIsOneMore(s.table, sb, s.disk, u, num, k);
    OnlyTheRootCannot(sb, s, num, u[k]);
  }

  lemma NoNameNoFile(files: map<Name, int>, path: seq<Byte>)
    requires NameOf(path) == None
    ensures Lookup(files, path) == 0
  {
  }

  lemma NotFull(filp: Filp, desc: seq<Desc>, src: int, fd: int, i: int)
    requires IsLowestFree(filp, src, fd) && 0 <= i < |desc| && !Used(desc, i)
    ensures !FilpFull(filp, src) && !DescFull(desc)
  {
  }

  lemma LowestIsFree(filp: Filp, src: int, fd: int)
    requires IsLowestFree(filp, src, fd)
    ensures Holds(filp, src, fd, NONE)
  {
  }

  lemma OpenedOld(sb: SuperBlock, s: State, s': State, num: int, k: int, p: int, fd: int, i: int, flags: nat)
    requires FsOk(sb, s) && InUse(s.files, num) && num != ROOT_INODE && OneMore(s.table, s'.table, num, k)
    requires CacheOk(s'.table, sb, s.disk)
    requires Holds(s.filp, p, fd, NONE) && 0 <= i < |s.desc| && !Used(s.desc, i)
    requires s' == s.(table := s'.table, desc := s.desc[i := Desc(flags, s'.table[k].rec.size, k)],
                      filp := s.filp[p := s.filp[p][fd := i]])
    ensures FsOk(sb, s')
  {
    hide DiskOk, CacheOk, TablesOk;
    OpenKeepsTables(s, s', num, k, p, fd, i, Desc(flags, s'.table[k].rec.size, k));
  }

  ghost predicate FilpFull(filp: Filp, src: int) { forall fd :: !Holds(filp, src, fd, NONE) }

  ghost predicate DescFull(desc: seq<Desc>) { forall i :: 0 <= i < |desc| ==> Used(desc, i) }

  ghost predicate IsLowestFree(filp: Filp, src: int, fd: int) {
    Holds(filp, src, fd, NONE) && forall k :: 0 <= k < fd ==> !Holds(filp, src, k, NONE)
  }

  /** Whether the path has a name under which nothing is found. */
  ghost predicate NewName(files: map<Name, int>, path: seq<Byte>) { NameOf(path).Some? && Lookup(files, path) == 0 }

  /** Where open answers -1: creating what exists, opening what does not, or a path that has no name. */
  ghost predicate OpenFails(files: map<Name, int>, path: seq<Byte>, flags: nat) {
    if Creates(flags) then !NewName(files, path) else Lookup(files, path) == 0
  }

  /** Whether one more reference to inode num can be had. */
  ghost predicate HasSlot(t: seq<Inode>, num: int) { (exists q :: Live(t, q, num)) || exists q :: IsFirstFree(t, q) }

  /** Where open halts: a full table, no access asked for, no room for a new file, or the root directory. */
  ghost predicate OpenHalts(sb: SuperBlock, s: State, src: int, path: seq<Byte>, flags: nat) {
    || |path| >= MAX_PATH || FilpFull(s.filp, src) || DescFull(s.desc)
    || if Creates(flags) then NewName(s.files, path) && !CanCreate(sb, s)
       else !ReadsWrites(flags) || Lookup(s.files, path) == ROOT_INODE
            || (Lookup(s.files, path) != 0 && !HasSlot(s.table, Lookup(s.files, path)))
  }

  /** From s to s', process src has been given descriptor fd, through entry i, on slot k for the file of that path. */
  ghost predicate Opened(sb: SuperBlock, s: State, s': State, src: int, fd: int, path: seq<Byte>, flags: nat, i: int,
                         k: int) {
    && IsLowestFree(s.filp, src, fd) && 0 <= i < |s.desc| && !Used(s.desc, i) && 0 <= k < |s'.table|
    && s'.filp == s.filp[src := s.filp[src][fd := i]]
    && s'.desc == s.desc[i := Desc(flags, s'.table[k].rec.size, k)]
    && s'.root == s.root && s'.refused == s.refused
    && OneMore(s.table, s'.table, Lookup(s'.files, path), k)
    && if Creates(flags)
       then exists f: nat, j: nat ::
           && CreatedFile(sb, s, s', NameIn(path), k, f, j)
           && s'.files == s.files[Padded(NameIn(path)) := f] && s'.blocks == s.blocks[f := j]
       else && s'.disk == s.disk && s'.files == s.files && s'.blocks == s.blocks
            && Got(s.table, s'.table, sb, s.disk, Lookup(s.files, path), k)
  }

  lemma OpenShape(sb: SuperBlock, s: State)
    requires FsOk(sb, s)
    ensures FilpShape(s.filp) && |s.desc| == NR_FILE_DESC && CacheOk(s.table, sb, s.disk)
  {
    hide DiskOk, CacheOk, RefsOk;
  }

  lemma NewFileFacts(sb: SuperBlock, s: State, s': State, path: seq<Byte>, k: int, f: nat, j: nat)
    requires FsOk(sb, s) && NewName(s.files, path) && CreatedFile(sb, s, s', NameIn(path), k, f, j)
    ensures |s'.table| == NR_INODE && 0 <= k < |s'.table| && CanBeOpened(s'.table[k])
    ensures |NameIn(path)| < MAX_FILENAME_LEN && OneMore(s.table, s'.table, f, k)
    ensures Lookup(s.files[Padded(NameIn(path)) := f], path) == f
  {
    hide RecordOf, DiskOk, TablesOk, OneMore, NameOf, Padded, NamePlaced;
  }

  lemma OpenedNew(sb: SuperBlock, s: State, s1: State, s': State, path: seq<Byte>, k: int, f: nat, j: nat, p: int,
                  fd: int, i: int, flags: nat)
    requires FsOk(sb, s) && NewName(s.files, path) && Creates(flags) && CreatedFile(sb, s, s1, NameIn(path), k, f, j)
    requires IsLowestFree(s.filp, p, fd) && 0 <= i < |s.desc| && !Used(s.desc, i)
    requires s1 == s.(disk := s1.disk, table := s1.table)
    requires s' == s1.(desc := s.desc[i := Desc(flags, s1.table[k].rec.size, k)],
                       filp := s.filp[p := s.filp[p][fd := i]], files := s.files[Padded(NameIn(path)) := f],
                       blocks := s.blocks[f := j])
    ensures FsOk(sb, s') && Opened(sb, s, s', p, fd, path, flags, i, k)
  {
    hide RecordOf, DiskOk, CacheOk, TablesOk, OneMore, NameOf, Padded, InUse, Lookup, Used;
    NewFileFacts(sb, s, s1, path, k, f, j);
    NewNameIsNew(sb, s, path);
    forall m ensures InUse(s'.files, m) <==>
      InUse(s.files, m) || m == f { InUseAdded(s.files, Padded(NameIn(path)), f, m); }
    RootIsInUse(sb, s);
    OpenKeepsTables(s, s', f, k, p, fd, i, Desc(flags, s1.table[k].rec.size, k));
    assert CreatedFile(sb, s, s', NameIn(path), k, f, j);
  }

  lemma NewNameIsNew(sb: SuperBlock, s: State, path: seq<Byte>)
    requires FsOk(sb, s) && NewName(s.files, path) && |NameIn(path)| < MAX_FILENAME_LEN
    ensures Padded(NameIn(path)) !in s.files
  {
    hide SuperAt, RecordOf, Refines, HoldsBlocks, ImapMarks, CacheOk, TablesOk, HasExtent, Padded, NameOf;
    assert Padded(NameIn(path)) in s.files ==> InUse(s.files, s.files[Padded(NameIn(path))]);
  }

  lemma RootIsInUse(sb: SuperBlock, s: State)
    requires FsOk(sb, s)
    ensures InUse(s.files, ROOT_INODE)
  {
    hide SuperAt, RecordOf, Refines, HoldsBlocks, ImapMarks, CacheOk, TablesOk, HasExtent;
  }

  // ----- Closing -----

  /**
   From s to s' the descriptor, its entry and the reference it held have been given up; a file is never freed by that.
   */
  ghost predicate Closed(s: State, s': State, src: int, fd: int) {
    && IsSlotOf(s.filp, src, fd) && Used(s.desc, s.filp[src][fd]) && 0 <= s.desc[s.filp[src][fd]].inode < |s.table|
    && var i := s.filp[src][fd];
       var k := s.desc[i].inode;
       s' == s.(table := s.table[k := s.table[k].(cnt := s.table[k].cnt - 1)],
                desc := s.desc[i := s.desc[i].(inode := NONE)], filp := s.filp[src := s.filp[src][fd := NONE]])
  }

  lemma CloseFacts(sb: SuperBlock, s: State, src: int, fd: int)
    requires FsOk(sb, s) && IsSlotOf(s.filp, src, fd) && s.filp[src][fd] != NONE
    ensures |s.table| == NR_INODE && |s.desc| == NR_FILE_DESC && Used(s.desc, s.filp[src][fd])
    ensures var k := s.desc[s.filp[src][fd]].inode; 0 <= k < NR_INODE && s.table[k].cnt > 0
  {
    hide RecordOf, DiskOk, RefsOk;
    assert Holds(s.filp, src, fd, s.filp[src][fd]);
    OpenFilesExist(sb, s, s.filp[src][fd]);
  }

  lemma ClosedOk(sb: SuperBlock, s: State, u: seq<Inode>, src: int, fd: int)
    requires FsOk(sb, s) && IsSlotOf(s.filp, src, fd) && Used(s.desc, s.filp[src][fd])
    requires var k := s.desc[s.filp[src][fd]].inode;
      0 <= k < |s.table|
      && u == s.table[k := s.table[k].(cnt := s.table[k].cnt - 1)]
    ensures var i := s.filp[src][fd];
      FsOk(sb, s.(table := u, desc := s.desc[i := s.desc[i].(inode := NONE)],
                  filp := s.filp[src := s.filp[src][fd := NONE]]))
  {
    hide RecordOf, DiskOk, TablesOk;
    var i := s.filp[src][fd];
    var s' := s.(table := u, desc := s.desc[i := s.desc[i].(inode := NONE)],
                 filp := s.filp[src := s.filp[src][fd := NONE]]);
    CloseKeepsTables(s, s', src, fd, i, s.desc[i].inode);
    FewerKeepsCache(sb, s, s.desc[i].inode);
  }

  lemma FewerKeepsCache(sb: SuperBlock, s: State, k: int)
    requires CacheOk(s.table, sb, s.disk) && 0 <= k < |s.table| && s.table[k].cnt > 0
    ensures CacheOk(s.table[k := s.table[k].(cnt := s.table[k].cnt - 1)], sb, s.disk)
  {
    hide RecordOf;
  }

  // ----- Unlinking -----

  const NO_RECORD: Record := Record(0, 0, 0, 0)

  /** Slot k has just been taken for inode nr, a regular file that nobody else refers to. */
  ghost predicate Removable(sb: SuperBlock, s: State, u: seq<Inode>, nr: int, k: int) {
    && Fits(sb, |s.disk|) && IsInodeNr(nr) && InUse(s.files, nr) && IsFirstFree(s.table, k)
      && (forall i :: !Live(s.table, i, nr))
    && u == s.table[k := Inode(RecordOf(sb, s.disk, nr), 1, nr)] && u[k].rec.mode == I_REGULAR
  }

  ghost predicate IsMarked(sb: SuperBlock, d: seq<Byte>, nr: int) {
    Fits(sb, |d|) && 0 <= nr < 8 * |ImapOf(sb, d)| && BitAt(ImapOf(sb, d), nr)
  }

  lemma RemovableFacts(sb: SuperBlock, s: State, u: seq<Inode>, nr: int, k: int)
    requires FsOk(sb, s) && Removable(sb, s, u, nr, k)
    ensures Fits(sb, |s.disk|) && 0 < nr < BITS && 0 <= k < |u| == NR_INODE && nr != ROOT_INODE && k != s.root
    ensures nr in s.blocks
    ensures IsMarked(sb, s.disk, nr) && HasExtent(sb, u[k].rec, s.blocks[nr]) && CacheOk(u, sb, s.disk)
    ensures u[s.root] == s.table[s.root] && Live(s.table, s.root, ROOT_INODE)
  {
    hide SuperAt, RecordOf, Refines, HoldsBlocks, RefsOk, FilpOk, BitAt;
    ImapBits(sb, s.disk);
    GotKeepsCache(s.table, u, sb, s.disk, nr, k);
  }

  /**
   What unlink relies on before it frees inode nr, in slot k: its bits are set, and among the directory's entries only
   entry r is its own, if that is one of them.
   */
  ghost predicate CanFree(sb: SuperBlock, d: seq<Byte>, t: seq<Inode>, root: int, nr: int, k: int, j: nat, r: nat) {
    && Fits(sb, |d|) && IsInodeNr(nr) && 0 < nr < BITS && |t| == NR_INODE && 0 <= k < |t| && 0 <= root < |t|
      && k != root
    && t[k].num == nr && t[k].cnt == 1 && HasExtent(sb, t[k].rec, j)
    && t[root].num == ROOT_INODE && t[root].rec.start * SECTOR_SIZE == DataAt(sb)
    && t[root].rec.size % DIR_ENTRY_SIZE == 0 && t[root].rec.size / DIR_ENTRY_SIZE < MAX_ENTRIES
    && InRange(d, DataAt(sb), 0) && IsMarked(sb, d, nr)
    && FirstBit(j) + BLOCK <= sb.nrSmapSects * BITS && AllSet(SmapOf(sb, d), FirstBit(j), FirstBit(j) + BLOCK)
    && OnlyEntry(d, DataAt(sb), t[root].rec.size / DIR_ENTRY_SIZE, nr, r)
  }

  /**
   From d3 to d5 by way of d4, entry r has been cleared and the directory's size brought up to date, if it was found.
   */
  ghost predicate EntryGone(sb: SuperBlock, d3: seq<Byte>, d4: seq<Byte>, d5: seq<Byte>, t: seq<Inode>, t': seq<Inode>,
                            root: int, r: nat, flg: bool) {
    && 0 <= root < |t|
    && var n: nat := t[root].rec.size / DIR_ENTRY_SIZE;
       if !flg then d4 == d3 && d5 == d3 && t' == t
       else
         && InRange(d4, DataAt(sb), n) && EntryWritten(d3, d4, DataAt(sb), r, HOLE)
         && SizeAfter(d4, DataAt(sb), n, r) <= t[root].rec.size
         && var rec := t[root].rec.(size := SizeAfter(d4, DataAt(sb), n, r));
            && t' == t[root := t[root].(rec := rec)]
            && if rec.size == t[root].rec.size then d5 == d4 else Rewritten(sb, d4, d5, t[root].num, rec)
  }

  lemma InodeFreed(sb: SuperBlock, d0: seq<Byte>, d1: seq<Byte>, t: seq<Inode>, root: int, nr: int, k: int, j: nat,
                   r: nat)
    requires CanFree(sb, d0, t, root, nr, k, j, r) && SameOutside(d0, d1, ImapAt(sb), SmapAt(sb))
    requires Cleared(ImapOf(sb, d0), ImapOf(sb, d1), nr, nr + 1)
    ensures |d1| == |d0| && FreedInode(sb, d0, d1, nr) && AllSet(SmapOf(sb, d1), FirstBit(j), FirstBit(j) + BLOCK)
  {
    hide AllSet, Cleared, BitAt, OnlyEntry, IsMarked;
    FrameSmap(sb, d0, d1, ImapAt(sb), SmapAt(sb));
  }

  lemma BlockFreed(sb: SuperBlock, d1: seq<Byte>, d2: seq<Byte>, j: nat)
    requires Fits(sb, |d1|) && SameOutside(d1, d2, SmapAt(sb), InodesAt(sb))
    requires Cleared(SmapOf(sb, d1), SmapOf(sb, d2), FirstBit(j), FirstBit(j) + BLOCK)
    ensures |d2| == |d1| && FreedBlock(sb, d1, d2, j)
  {
    hide Cleared;
  }

  /** Up to here the entries are as they were. */
  lemma FreeKeepsOnly(sb: SuperBlock, d0: seq<Byte>, d1: seq<Byte>, d2: seq<Byte>, d3: seq<Byte>, nr: int, j: nat,
                      n: nat, r: nat)
    requires FreedInode(sb, d0, d1, nr) && FreedBlock(sb, d1, d2, j) && Rewritten(sb, d2, d3, nr, NO_RECORD)
    requires InRange(d0, DataAt(sb), 0) && n < MAX_ENTRIES && OnlyEntry(d0, DataAt(sb), n, nr, r)
    ensures |d3| == |d0| && InRange(d3, DataAt(sb), n) && OnlyEntry(d3, DataAt(sb), n, nr, r)
  {
    hide EntryAt, FreedInode, FreedBlock, Rewritten;
    FreeKeepsEntries(sb, d0, d1, d2, d3, nr, j, NO_RECORD);
  }

  lemma SizeShrinks(sb: SuperBlock, d: seq<Byte>, dirSize: nat, r: nat)
    requires InRange(d, DataAt(sb), dirSize / DIR_ENTRY_SIZE) && dirSize % DIR_ENTRY_SIZE == 0
    ensures SizeAfter(d, DataAt(sb), dirSize / DIR_ENTRY_SIZE, r) <= dirSize
  {
    hide EntryAt;
    CountBound(d, DataAt(sb), dirSize / DIR_ENTRY_SIZE);
  }

  /** On a device in order all that holds, and the entry is there. */
  lemma WhereToRemove(sb: SuperBlock, s: State, u: seq<Inode>, nr: int, k: int, key: Name) returns (r: nat)
    requires FsOk(sb, s) && Removable(sb, s, u, nr, k) && key in s.files && s.files[key] == nr
    ensures nr in s.blocks && CanFree(sb, s.disk, u, s.root, nr, k, s.blocks[nr], r)
    ensures |u| == NR_INODE && 0 <= s.root < |u| && 0 <= k < |u|
    ensures r < u[s.root].rec.size / DIR_ENTRY_SIZE && EntryAt(s.disk, DataAt(sb), r) == Entry(nr, key)
  {
    hide SuperAt, RecordOf, Refines, BitAt, TablesOk, HoldsBlocks, Cleared, ImapMarks, ExtentsOk, EntryAt, AllSet,
      CacheOk, OnlyEntry;
    RemovableFacts(sb, s, u, nr, k);
    RootFacts(sb, s);
    SmapBytes(sb, s.disk);
    HeldBlockIsSet(sb, s, nr);
    var n: nat := u[s.root].rec.size / DIR_ENTRY_SIZE;
    RefinesRange(s.disk, DataAt(sb), n, s.files);
    r := EntryOfName(s.disk, DataAt(sb), n, s.files, key);
  }

  lemma HeldBlockIsSet(sb: SuperBlock, s: State, nr: int)
    requires FsOk(sb, s) && nr in s.blocks
    ensures Fits(sb, |s.disk|)
    ensures var b := FirstBit(s.blocks[nr]);
      b + BLOCK <= sb.nrSmapSects * BITS && AllSet(SmapOf(sb, s.disk), b, b + BLOCK)
  {
    hide SuperAt, RecordOf, Refines, BitAt, TablesOk, HoldsBlocks, ImapMarks, ExtentsOk, CacheOk, AllSet;
    SmapBytes(sb, s.disk);
    assert s.blocks[nr] in Held(s.blocks);
    FreeingRemovesBlock(SmapOf(sb, s.disk), Held(s.blocks), s.blocks[nr]);
  }

  lemma AfterFree(sb: SuperBlock, s: State, u: seq<Inode>, d1: seq<Byte>, d2: seq<Byte>, d3: seq<Byte>, nr: int, k: int)
    requires FsOk(sb, s) && Removable(sb, s, u, nr, k) && nr in s.blocks
    requires FreedInode(sb, s.disk, d1, nr) && FreedBlock(sb, d1, d2, s.blocks[nr])
    requires Rewritten(sb, d2, d3, nr, NO_RECORD)
    ensures CacheOk(u[k := Inode(NO_RECORD, 0, nr)], sb, d3)
    ensures Refines(d3, DataAt(sb), RecordOf(sb, s.disk, ROOT_INODE).size / DIR_ENTRY_SIZE, s.files)
  {
    hide RecordOf, TablesOk, Cleared, Refines, DiskOk, Rewritten;
    RemovableFacts(sb, s, u, nr, k);
    RegionsAreDisjoint(sb, |s.disk|);
    ElsewhereKeepsCache(u, sb, s.disk, d1, ImapAt(sb), SmapAt(sb));
    ElsewhereKeepsCache(u, sb, d1, d2, SmapAt(sb), InodesAt(sb));
    RewriteKeepsCache(u, sb, d2, d3, k, NO_RECORD);
    DroppedKeepsCache(u[k := u[k].(rec := NO_RECORD)], sb, d3, k);
    Free(sb, s.disk, d1, d2, d3, s.files, s.blocks, nr, NO_RECORD);
  }

  lemma DroppedKeepsCache(t: seq<Inode>, sb: SuperBlock, d: seq<Byte>, k: nat)
    requires CacheOk(t, sb, d) && k < |t| && t[k].cnt == 1
    ensures CacheOk(t[k := t[k].(cnt := 0)], sb, d)
  {
    hide RecordOf;
  }

  /** Clearing the entry, and bringing the directory's size up to date, keep the table in step with the device. */
  lemma AfterRemove(sb: SuperBlock, d3: seq<Byte>, d4: seq<Byte>, d5: seq<Byte>, t: seq<Inode>, t': seq<Inode>,
                    root: int, r: nat)
    requires CacheOk(t, sb, d3) && Live(t, root, ROOT_INODE) && EntryGone(sb, d3, d4, d5, t, t', root, r, true)
    ensures CacheOk(t', sb, d5)
  {
    hide RecordOf, EntryAt, Rewritten, SizeAfter;
    EntryIsInDirectory(sb, d3, d4, r);
    ElsewhereKeepsCache(t, sb, d3, d4, DataAt(sb), DataAt(sb) + MAX_ENTRIES * DIR_ENTRY_SIZE);
    if t'[root].rec.size != t[root].rec.size { RewriteKeepsCache(t, sb, d4, d5, root, t'[root].rec); }
  }

  lemma AllRemoved(sb: SuperBlock, s: State, u: seq<Inode>, d1: seq<Byte>, d2: seq<Byte>, d3: seq<Byte>,
                   d4: seq<Byte>, d5: seq<Byte>, t': seq<Inode>, nr: int, k: int, key: Name, r: nat)
    requires FsOk(sb, s) && Removable(sb, s, u, nr, k) && nr in s.blocks && key in s.files && s.files[key] == nr
    requires FreedInode(sb, s.disk, d1, nr) && FreedBlock(sb, d1, d2, s.blocks[nr])
    requires Rewritten(sb, d2, d3, nr, NO_RECORD) && EntryAt(s.disk, DataAt(sb), r) == Entry(nr, key)
    requires 0 <= s.root < |u| && r < u[s.root].rec.size / DIR_ENTRY_SIZE
    requires 0 <= k < |u| && EntryGone(sb, d3, d4, d5, u[k := Inode(NO_RECORD, 0, nr)], t', s.root, r, true)
    ensures FileRemoved(sb, s, d5, t', nr, k, key, r)
  {
    hide RecordOf, DiskOk, TablesOk, CacheOk, FreedInode, FreedBlock, Rewritten, NameRemoved, EntryAt, CutsLiveEntry,
      SizeAfter, EntryWritten, Refines;
    RemovableFacts(sb, s, u, nr, k);
    RootFacts(sb, s);
    var t3 := u[k := Inode(NO_RECORD, 0, nr)];
    AfterFree(sb, s, u, d1, d2, d3, nr, k);
    AfterRemove(sb, d3, d4, d5, t3, t', s.root, r);
    var n: nat := s.table[s.root].rec.size / DIR_ENTRY_SIZE;
    var root := t'[s.root].rec;
    RefinesRange(s.disk, DataAt(sb), n, s.files);
    FreeKeepsEntries(sb, s.disk, d1, d2, d3, nr, s.blocks[nr], NO_RECORD);
    NameGone(sb, s.disk, d3, d4, d5, n, r, s.files, key, nr, root);
    RemoveIsExact(sb, s.disk, d1, d2, d3, d4, d5, s.files, s.blocks, key, nr, r, NO_RECORD, root);
    EntryWasLive(sb, s.disk, d3, d4, d5, n, r, s.files - {key}, root);
    SizeOnDisk(sb, d4, d5, n, r, root);
  }

  lemma NameGone(sb: SuperBlock, d: seq<Byte>, d3: seq<Byte>, d4: seq<Byte>, d5: seq<Byte>, n: nat, r: nat,
                 m: map<Name, int>, key: Name, nr: int, root: Record)
    requires SameEntries(d, d3, DataAt(sb)) && Refines(d3, DataAt(sb), n, m) && r < n && n < MAX_ENTRIES && nr != 0
    requires EntryAt(d, DataAt(sb), r) == Entry(nr, key) && EntryWritten(d3, d4, DataAt(sb), r, HOLE)
    requires root.size == SizeAfter(d4, DataAt(sb), n, r)
    requires if root.size == n * DIR_ENTRY_SIZE then d5 == d4 else Rewritten(sb, d4, d5, ROOT_INODE, root)
    ensures NameRemoved(sb, d3, d4, d5, n, r, m - {key}, root) && EntryAt(d3, DataAt(sb), r) == Entry(nr, key)
  {
    hide EntryAt, Refines, EntryWritten, SizeAfter, Rewritten;
    RemoveRefines(d3, d4, DataAt(sb), n, m, r);
  }

  /** The new size is the one the entries left on the device give. */
  lemma SizeOnDisk(sb: SuperBlock, d4: seq<Byte>, d5: seq<Byte>, n: nat, r: nat, root: Record)
    requires InRange(d4, DataAt(sb), n) && root.size == SizeAfter(d4, DataAt(sb), n, r)
    requires if root.size == n * DIR_ENTRY_SIZE then d5 == d4 else Rewritten(sb, d4, d5, ROOT_INODE, root)
    ensures root.size == SizeAfter(d5, DataAt(sb), n, r)
  {
    hide EntryAt, RecordOf, SameOutside;
    if d5 != d4 {
      RegionsAreDisjoint(sb, |d4|);
      RecordInRange(sb, d4, d5, RecordPos(sb, ROOT_INODE), RecordPos(sb, ROOT_INODE) + 16, ROOT_INODE);
      SameEntriesFrame(sb, d4, d5, RecordPos(sb, ROOT_INODE), RecordPos(sb, ROOT_INODE) + 16);
      SameLiveCount(d4, d5, DataAt(sb), n);
    }
  }

  lemma {:induction false} SameLiveCount(d: seq<Byte>, e: seq<Byte>, at: nat, n: nat)
    requires SameEntries(d, e, at) && n <= MAX_ENTRIES
    ensures LiveCount(e, at, n) == LiveCount(d, at, n)
  {
    hide EntryAt;
    if n > 0 { SameLiveCount(d, e, at, n - 1); }
  }

  lemma EntryWasLive(sb: SuperBlock, d: seq<Byte>, d3: seq<Byte>, d4: seq<Byte>, d5: seq<Byte>, n: nat, r: nat,
                     m: map<Name, int>, root: Record)
    requires NameRemoved(sb, d3, d4, d5, n, r, m, root) && SameEntries(d, d3, DataAt(sb))
    ensures IsLive(d, DataAt(sb), n, r) && EntryAt(d, DataAt(sb), r) == EntryAt(d3, DataAt(sb), r)
  {
    hide EntryAt, Refines, Rewritten;
  }

  /** What a removal leaves: the slot is free again, and the device is in order unless a live entry was cut off. */
  ghost predicate FileRemoved(sb: SuperBlock, s: State, d': seq<Byte>, t': seq<Inode>, nr: int, k: int, key: Name,
                              r: nat) {
    && Fits(sb, |s.disk|) && |t'| == |s.table| && 0 <= k < |t'| && s.table[k].cnt == 0 && t'[k].cnt == 0
    && CacheOk(t', sb, d')
    && (forall i :: 0 <= i < |t'| && i != k ==>
      SameCount(t'[i], s.table[i]) && (i != s.root ==> SameRef(t'[i], s.table[i])))
    && OtherSlots(s.table, t', k, s.root) && nr in s.blocks
    && SameFileBytes(sb, s.disk, d') && EntryCleared(s.disk, d', DataAt(sb), r)
    && Removed(sb, s.disk, d', s.files, Held(s.blocks), key, nr, s.blocks[nr], t'[s.root].rec)
    && var n: nat := RecordOf(sb, s.disk, ROOT_INODE).size / DIR_ENTRY_SIZE;
       && IsLive(s.disk, DataAt(sb), n, r) && EntryAt(s.disk, DataAt(sb), r) == Entry(nr, key)
       && t'[s.root].rec.size == SizeAfter(d', DataAt(sb), n, r)
       && (DiskOk(sb, d', s.files - {key}, s.blocks - {nr}) <==> !CutsLiveEntry(s.disk, DataAt(sb), n, r))
  }

  const INVALID_INODE: int := 0

  /** The path names a file, and is not the plain slash that unlink refuses at once. */
  ghost predicate NamesAFile(files: map<Name, int>, path: seq<Byte>) {
    CString(path) != [SLASH] && Lookup(files, path) != 0
  }

  ghost predicate UnlinkHalts(s: State, path: seq<Byte>) {
    |path| >= MAX_PATH || (NamesAFile(s.files, path) && !HasSlot(s.table, Lookup(s.files, path)))
  }

  /** Only a regular file that no slot of the inode table is for can be removed: in particular none that is open. */
  ghost predicate CanBeRemoved(sb: SuperBlock, s: State, nr: int) {
    Fits(sb, |s.disk|) && IsInodeNr(nr) && RecordOf(sb, s.disk, nr).mode == I_REGULAR
      && forall i :: !Live(s.table, i, nr)
  }

  /** Some descriptor is open on inode nr. */
  ghost predicate IsOpen(s: State, nr: int) {
    exists i :: Used(s.desc, i) && 0 <= s.desc[i].inode < |s.table| && s.table[s.desc[i].inode].num == nr
  }

  /** A file can be removed exactly when it is regular, not open, and no unlink of it was ever refused. */
  lemma RemovableExactly(sb: SuperBlock, s: State, nr: int)
    requires FsOk(sb, s) && InUse(s.files, nr) && IsInodeNr(nr) && Fits(sb, |s.disk|)
    ensures CanBeRemoved(sb, s, nr) <==>
      RecordOf(sb, s.disk, nr).mode == I_REGULAR && !IsOpen(s, nr) && nr !in s.refused
  {
    hide SuperAt, RecordOf, Refines, HoldsBlocks, ImapMarks, ExtentsOk, FilpOk, Opens, InUse;
    if i :| Used(s.desc, i) && 0 <= s.desc[i].inode < |s.table| && s.table[s.desc[i].inode].num == nr {
      UsedIsLive(s.table, s.desc, s.refused, i);
      assert Live(s.table, s.desc[i].inode, nr);
    } else if k :| Live(s.table, k, nr) {
      assert RefsOf(s.table[k], k, s.desc, s.refused);
      OpensPositive(s.desc, k);
      assert forall i :: 0 <= i < |s.desc| && s.desc[i].inode == k ==> Used(s.desc, i);
    }
  }

  /** Refused, but a reference to the inode has been taken and is never given back. */
  ghost predicate Refused(sb: SuperBlock, s: State, s': State, nr: int) {
    && s' == s.(table := s'.table, refused := s.refused + multiset{nr})
    && exists k :: Got(s.table, s'.table, sb, s.disk, nr, k)
  }

  /** From s to s' the file of that path, and nothing but it, has gone; entry r was its entry. */
  ghost predicate Unlinked(sb: SuperBlock, s: State, s': State, path: seq<Byte>, r: nat) {
    && |NameIn(path)| <= MAX_FILENAME_LEN && Padded(NameIn(path)) in s.files
    && var key := Padded(NameIn(path));
       var nr := s.files[key];
       && s'.files == s.files - {key} && s'.blocks == s.blocks - {nr} && s'.refused == s.refused
       && s'.desc == s.desc && s'.filp == s.filp && s'.root == s.root
       && EntryAt(s.disk, DataAt(sb), r) == Entry(nr, key) && EntryCleared(s.disk, s'.disk, DataAt(sb), r)
       && SameFileBytes(sb, s.disk, s'.disk) && nr in s.blocks && 0 <= s.root < |s'.table|
       && Removed(sb, s.disk, s'.disk, s.files, Held(s.blocks), key, nr, s.blocks[nr], s'.table[s.root].rec)
       && CacheOk(s'.table, sb, s'.disk) && 0 <= s.root < |s.table|
       && s'.table[s.root].rec.size == SizeAfter(s'.disk, DataAt(sb), s.table[s.root].rec.size / DIR_ENTRY_SIZE, r)
       && exists k ::
         0 <= k < |s.table| && s.table[k].cnt == 0 && OtherSlots(s.table, s'.table, k, s.root)
         && s'.table[k].cnt == 0
  }

  ghost predicate CutsDirectory(sb: SuperBlock, s: State, r: nat) {
    Fits(sb, |s.disk|) && CutsLiveEntry(s.disk, DataAt(sb), RecordOf(sb, s.disk, ROOT_INODE).size / DIR_ENTRY_SIZE, r)
  }

  lemma LiveSlot(t: seq<Inode>, k: int)
    requires Live(t, k, ROOT_INODE)
    ensures 0 <= k < |t|
  {
  }

  /** The slot just taken tells whether the file can be removed. */
  lemma GotRemovable(sb: SuperBlock, s: State, u: seq<Inode>, nr: int, k: int)
    requires FsOk(sb, s) && InUse(s.files, nr) && IsInodeNr(nr) && Got(s.table, u, sb, s.disk, nr, k)
    requires 0 <= k < |u| == NR_INODE
    ensures CanBeRemoved(sb, s, nr) <==> u[k].rec.mode == I_REGULAR && u[k].cnt <= 1
    ensures CanBeRemoved(sb, s, nr) ==> Removable(sb, s, u, nr, k)
  {
    hide RecordOf, DiskOk, TablesOk, Fits;
    GotKeepsCache(s.table, u, sb, s.disk, nr, k);
    if i :| Live(s.table, i, nr) {
      assert u[k].cnt == s.table[k].cnt + 1 > 1;
    } else {
      forall i ensures !Live(s.table, i, nr) {}
    }
  }

  lemma RefusedOk(sb: SuperBlock, s: State, s': State, nr: int, k: int)
    requires FsOk(sb, s) && InUse(s.files, nr) && OneMore(s.table, s'.table, nr, k) && CacheOk(s'.table, sb, s.disk)
    requires s' == s.(table := s'.table, refused := s.refused + multiset{nr})
    ensures FsOk(sb, s')
  {
    hide DiskOk, CacheOk, TablesOk;
    RefuseKeepsTables(s, s', nr, k);
  }

  ghost function KeyOf(sb: SuperBlock, s: State, path: seq<Byte>): (key: Name)
    requires FsOk(sb, s) && Lookup(s.files, path) != 0 && CanBeRemoved(sb, s, Lookup(s.files, path))
    ensures |NameIn(path)| <= MAX_FILENAME_LEN && key == Padded(NameIn(path)) && key in s.files
    ensures s.files[key] == Lookup(s.files, path)
  {
    NamesAreShort(path);
    RootFacts(sb, s);
    Padded(NameIn(path))
  }

  lemma RemovedFromState(sb: SuperBlock, s: State, s': State, nr: int, k: int, path: seq<Byte>, r: nat)
    requires FsOk(sb, s) && CanBeRemoved(sb, s, nr) && |NameIn(path)| <= MAX_FILENAME_LEN
    requires var key := Padded(NameIn(path)); key in s.files && s.files[key] == nr
    requires FileRemoved(sb, s, s'.disk, s'.table, nr, k, Padded(NameIn(path)), r)
    requires s' == s.(disk := s'.disk, table := s'.table, files := s.files - {Padded(NameIn(path))},
                      blocks := s.blocks - {nr})
    ensures FsOk(sb, s') <==> !CutsDirectory(sb, s, r)
    ensures Unlinked(sb, s, s', path, r)
  {
    hide RecordOf, DiskOk, CacheOk, TablesOk, CutsLiveEntry, EntryAt, IsLive, NameOf, Padded;
    var key := Padded(NameIn(path));
    RootFacts(sb, s);
    forall m | InUse(s.files, m) && m != nr ensures InUse(s'.files, m) {
      InUseRemoved(s.disk, DataAt(sb), s.table[s.root].rec.size / DIR_ENTRY_SIZE, s.files, key, m);
    }
    RemoveKeepsTables(s, s', nr, k);
  }

  // ----- What paths find -----

  /** Another name is another entry. */
  lemma OtherName(p: seq<Byte>, q: seq<Byte>)
    requires NameOf(p).Some? && NameOf(q).Some? && NameOf(p) != NameOf(q)
    ensures |NameIn(p)| <= MAX_FILENAME_LEN && |NameIn(q)| <= MAX_FILENAME_LEN && Padded(NameIn(p)) != Padded(NameIn(q))
  {
    hide NameOf, Padded;
    NamesAreShort(p);
    NamesAreShort(q);
    if Padded(NameIn(p)) == Padded(NameIn(q)) { PaddedIsInjective(NameIn(p), NameIn(q)); }
  }

  /** A file that has been created is found by every path with its name, and what other paths find is as before. */
  lemma CreatedIsFound(sb: SuperBlock, s: State, s': State, src: int, fd: int, path: seq<Byte>, flags: nat, i: int,
                       k: int, q: seq<Byte>)
    requires Opened(sb, s, s', src, fd, path, flags, i, k) && Creates(flags) && NewName(s.files, path)
    ensures 0 <= k < |s'.table|
    ensures Lookup(s'.files, q) == if NameOf(q) == NameOf(path) then s'.table[k].num else Lookup(s.files, q)
  {
    hide NameOf, Padded, CreatedFile, IsLowestFree;
    NamesAreShort(path);
    NamesAreShort(q);
    if NameOf(q).Some? && NameOf(q) != NameOf(path) { OtherName(q, path); }
  }

  /** A file that has been removed is found by no path any more, and what other paths find is as before. */
  lemma UnlinkedIsGone(sb: SuperBlock, s: State, s': State, path: seq<Byte>, r: nat, q: seq<Byte>)
    requires Unlinked(sb, s, s', path, r) && NameOf(path).Some? && NameIn(path) != []
    ensures Lookup(s'.files, q) == if NameOf(q) == NameOf(path) then 0 else Lookup(s.files, q)
  {
    hide NameOf, Padded, Removed, EntryAt, EntryCleared, CacheOk, SizeAfter;
    NamesAreShort(path);
    NamesAreShort(q);
    if NameOf(q).Some? && NameOf(q) != NameOf(path) { OtherName(q, path); }
  }

  // ----- Reading and writing -----

  ghost predicate TransferFits(dev: Disk, r: Record, pos: int, isRead: bool, len: nat) {
    && pos >= 0 && pos + len < 0x8000_0000
    && var p := if isRead then 0 else pos;
       OnDevice(dev, r.start, p, PosEnd(isRead, p, len, r.size, r.nrSects))
  }

  /** The descriptor is open for reading and writing on a regular file. */
  ghost predicate MovesBytes(s: State, src: int, fd: int) {
    && IsSlotOf(s.filp, src, fd) && Used(s.desc, s.filp[src][fd])
    && var x := s.desc[s.filp[src][fd]];
       0 <= x.inode < |s.table| && ReadsWrites(x.mode) && s.table[x.inode].rec.mode == I_REGULAR
  }

  /** The record of the file behind a descriptor that moves bytes, and the position there. */
  ghost function RecordAt(s: State, src: int, fd: int): Record {
    if MovesBytes(s, src, fd) then s.table[s.desc[s.filp[src][fd]].inode].rec else FREE.rec
  }

  ghost function PosAt(s: State, src: int, fd: int): int {
    if MovesBytes(s, src, fd) then s.desc[s.filp[src][fd]].pos else 0
  }

  ghost function InodeAt(s: State, src: int, fd: int): int {
    if MovesBytes(s, src, fd) then s.table[s.desc[s.filp[src][fd]].inode].num else 0
  }

  /** After moving n bytes: the position is n further, and the file at least as long as the position. */
  ghost predicate Advanced(sb: SuperBlock, s: State, e: seq<Byte>, s': State, src: int, fd: int, n: nat) {
    && MovesBytes(s, src, fd)
    && var i := s.filp[src][fd];
       var k := s.desc[i].inode;
       var pos := s.desc[i].pos + n;
       var r := s.table[k].rec;
       && 0 <= pos < WORD
       && var r' := if pos >= r.size then r.(size := pos) else r;
          && s' == s.(disk := s'.disk, table := s.table[k := s.table[k].(rec := r')],
                      desc := s.desc[i := s.desc[i].(pos := pos)])
          && if pos >= r.size then Rewritten(sb, e, s'.disk, s.table[k].num, r') else s'.disk == e
  }

  /** A device with the data from byte p on; writing nothing is nothing wherever that would be. */
  ghost function Wrote(d: seq<Byte>, p: int, data: seq<Byte>): (e: seq<Byte>)
    ensures |e| == |d|
  {
    if 0 <= p && p + |data| <= |d| then Patch(d, p, data) else d
  }

  ghost predicate WroteFile(sb: SuperBlock, s: State, s': State, src: int, fd: int, data: seq<Byte>) {
    && MovesBytes(s, src, fd)
    && var p := RecordAt(s, src, fd).start * SECTOR_SIZE + PosAt(s, src, fd);
       (data != [] ==> 0 <= p && p + |data| <= |s.disk|) && Advanced(sb, s, Wrote(s.disk, p, data), s', src, fd, |data|)
  }

  ghost predicate ReadFile(sb: SuperBlock, s: State, s': State, src: int, fd: int, len: nat, capacity: nat, n: nat,
                           bytes: seq<Byte>) {
    && MovesBytes(s, src, fd) && capacity > 0
    && var r := RecordAt(s, src, fd);
       var p := r.start * SECTOR_SIZE;
       && n == Moved(0, len, PosEnd(true, 0, len, r.size, r.nrSects), capacity)
       && p + n <= |s.disk| && bytes == s.disk[p..p + n] && Advanced(sb, s, s.disk, s', src, fd, n)
  }

  ghost predicate Transferred(sb: SuperBlock, s: State, s': State, src: int, fd: int, isRead: bool, len: nat,
                              data: seq<Byte>,
                              capacity: nat, out: Outcome, bytes: seq<Byte>) {
    && IsSlotOf(s.filp, src, fd)
    && if s.filp[src][fd] == NONE then out == Halted && s' == s
       else if !MovesBytes(s, src, fd) then
         s' == s && Used(s.desc, s.filp[src][fd])
           && out == Done(if ReadsWrites(s.desc[s.filp[src][fd]].mode) then len else -1)
       else if isRead then out.Done? && out.ret >= 0 && ReadFile(sb, s, s', src, fd, len, capacity, out.ret, bytes)
       else out.Done? && IsWritten(s, src, fd, len, capacity, out.ret) && out.ret <= |data|
            && WroteFile(sb, s, s', src, fd, data[..out.ret])
  }

  /** A write moves n of the bytes it is given: what the chunks up to the end of the extent have room for. */
  ghost predicate IsWritten(s: State, src: int, fd: int, len: nat, capacity: nat, n: int) {
    var r, pos := RecordAt(s, src, fd), PosAt(s, src, fd);
    pos >= 0 && capacity > 0 && 0 <= n <= len
      && n == Moved(pos, len, PosEnd(false, pos, len, r.size, r.nrSects), capacity)
  }

  /** What is open is a regular file or a terminal. */
  lemma OpenFileKinds(sb: SuperBlock, s: State, i: int)
    requires FsOk(sb, s) && Used(s.desc, i)
    ensures var k := s.desc[i].inode;
      && 0 <= k < |s.table| == NR_INODE
      && (TypeOf(s.table[k].rec.mode) == I_CHAR_SPECIAL ==> Major(s.table[k].rec.start) == DEV_CHAR_TTY)
      && TypeOf(s.table[k].rec.mode) != I_DIRECTORY
      && (TypeOf(s.table[k].rec.mode) == I_CHAR_SPECIAL <==> s.table[k].rec.mode != I_REGULAR)
  {
    hide SuperAt, RecordOf, Refines, HoldsBlocks, ImapMarks, TablesOk, HasExtent;
    OpenFilesExist(sb, s, i);
  }

  lemma OpenSlot(sb: SuperBlock, s: State, src: int, fd: int)
    requires FsOk(sb, s) && MovesBytes(s, src, fd)
    ensures var i := s.filp[src][fd];
      && IsSlotOf(s.filp, src, fd) && 0 <= i < |s.desc| && 0 <= s.desc[i].inode < |s.table| == NR_INODE
      && IsInodeNr(s.table[s.desc[i].inode].num) && s.desc[i].pos >= 0 && Fits(sb, |s.disk|)
  {
    hide RecordOf, DiskOk, RefsOk, FilpOk, Fits, InUse;
    OpenFilesExist(sb, s, s.filp[src][fd]);
  }

  lemma FitsOnDevice(dev: Disk, r: Record, pos: nat, isRead: bool, len: nat)
    requires TransferFits(dev, r, pos, isRead, len)
    ensures pos + len < 0x8000_0000
    ensures var p := if isRead then 0 else pos;
      var end := PosEnd(isRead, p, len, r.size, r.nrSects);
      OnDevice(dev, r.start, p, end) && (isRead ==> p / SECTOR_SIZE <= end / SECTOR_SIZE)
  {
    hide OnDevice;
  }

  /** The file behind a descriptor that moves bytes has an extent behind the directory's. */
  lemma OpenExtent(sb: SuperBlock, s: State, src: int, fd: int)
    requires FsOk(sb, s) && MovesBytes(s, src, fd)
    ensures var k := s.desc[s.filp[src][fd]].inode;
      var num := s.table[k].num;
      && num in s.blocks && num != ROOT_INODE && IsInodeNr(num) && Fits(sb, |s.disk|)
      && s.table[k].rec == RecordOf(sb, s.disk, num)
      && HasExtent(sb, s.table[k].rec, s.blocks[num]) && s.blocks[num] > 0 && s.table[k].cnt > 0
      && s.table[k].rec.start * SECTOR_SIZE >= FilesAt(sb)
  {
    hide SuperAt, RecordOf, Refines, HoldsBlocks, ImapMarks, TablesOk;
    OpenFilesExist(sb, s, s.filp[src][fd]);
    var k := s.desc[s.filp[src][fd]].inode;
    ExtentBytes(sb, s.table[k].rec, s.blocks[s.table[k].num]);
  }

  /** What the loop over chunks has done to a device d, for a file with record r at position pos0. */
  ghost predicate MovedData(d: seq<Byte>, e: seq<Byte>, r: Record, pos0: nat, capacity: nat, isRead: bool, len: nat,
                            data: seq<Byte>, n: nat, bytes: seq<Byte>) {
    var pos := if isRead then 0 else pos0;
    var p := r.start * SECTOR_SIZE + pos;
    && capacity > 0 && n == Moved(pos, len, PosEnd(isRead, pos, len, r.size, r.nrSects), capacity) && n <= len
    && (isRead || n > 0 ==> p + n <= |d|)
    && if isRead then e == d && bytes == e[p..p + n] else |data| == len && e == Wrote(d, p, data[..n])
  }

  /** Moving the bytes changes no structure of the device, wherever behind the directory they go. */
  lemma AfterTransfer(sb: SuperBlock, s: State, e: seq<Byte>, src: int, fd: int, r: Record, pos: nat, capacity: nat,
                      isRead: bool, len: nat, data: seq<Byte>, n: nat, bytes: seq<Byte>)
    requires FsOk(sb, s) && MovesBytes(s, src, fd) && r == RecordAt(s, src, fd) && pos == PosAt(s, src, fd)
    requires MovedData(s.disk, e, r, pos, capacity, isRead, len, data, n, bytes)
    ensures DiskOk(sb, e, s.files, s.blocks) && CacheOk(s.table, sb, e)
  {
    hide RecordOf, DiskOk, CacheOk, TablesOk, Moved;
    var p := r.start * SECTOR_SIZE + pos;
    if !isRead && p + n <= |s.disk| {
      OpenExtent(sb, s, src, fd);
      assert e[..p] == s.disk[..p] && e[p + n..] == s.disk[p + n..];
      DataWriteKeepsDisk(sb, s.disk, e, s.files, s.blocks, p, p + n);
      ElsewhereKeepsCache(s.table, sb, s.disk, e, p, p + n);
    }
  }

  lemma AfterAdvance(sb: SuperBlock, s: State, e: seq<Byte>, s': State, src: int, fd: int, n: nat)
    requires FsOk(sb, s) && DiskOk(sb, e, s.files, s.blocks) && CacheOk(s.table, sb, e)
    requires Advanced(sb, s, e, s', src, fd, n)
    ensures FsOk(sb, s')
  {
    hide RecordOf, DiskOk, TablesOk, Rewritten;
    OpenExtent(sb, s, src, fd);
    OpenSlot(sb, s, src, fd);
    var i := s.filp[src][fd];
    var k := s.desc[i].inode;
    var num, r' := s.table[k].num, s'.table[k].rec;
    if s.desc[i].pos + n >= s.table[k].rec.size {
      RewriteKeepsCache(s.table, sb, e, s'.disk, k, r');
      ResizeKeepsDisk(sb, e, s'.disk, s.files, s.blocks, num, r');
    }
    MoveKeepsTables(s, s', i, s'.desc[i]);
  }

  /** What the search of the inode map gives. */
  ghost predicate InodeSearched(sb: SuperBlock, d: seq<Byte>, e: seq<Byte>, f: nat) {
    && Fits(sb, |d|) && |e| == |d|
    && if AllSet(ImapOf(sb, d), 0, BITS) then f == 0 && e == d
       else && IsFirstClear(ImapOf(sb, d), f) && Marked(ImapOf(sb, d), ImapOf(sb, e), f, f + 1)
            && SameOutside(d, e, ImapAt(sb), SmapAt(sb))
  }

  /** After the inode map has been searched. */
  lemma AfterInode(sb: SuperBlock, s: State, d1: seq<Byte>, f: nat)
    requires FsOk(sb, s)
    requires InodeSearched(sb, s.disk, d1, f)
    ensures f == 0 <==> !exists i :: 0 < i < BITS && !InUse(s.files, i)
    ensures |d1| == |s.disk| && SmapOf(sb, d1) == SmapOf(sb, s.disk) && CacheOk(s.table, sb, d1)
    ensures f != 0 ==>
      TookInode(sb, s.disk, d1, f) && IsInodeNr(f) && !InUse(s.files, f)
      && forall i :: !Live(s.table, i, f)
  {
    hide SuperAt, RecordOf, Refines, HoldsBlocks, BitAt, Marked, RefsOk, FilpOk, ImapOf, SmapOf, InUse;
    ImapBits(sb, s.disk);
    RegionsAreDisjoint(sb, |s.disk|);
    if AllSet(ImapOf(sb, s.disk), 0, BITS) {
      forall i: nat | 0 < i < BITS ensures InUse(s.files, i) { assert BitAt(ImapOf(sb, s.disk), i); }
    } else {
      FreshInode(sb, s.disk, s.files, s.blocks, f);
      MapFrame(sb, s.disk, d1, true, 0, s.files);
      ElsewhereKeepsCache(s.table, sb, s.disk, d1, ImapAt(sb), SmapAt(sb));
    }
  }

  /** After the sector map has been searched. */
  lemma AfterBlock(sb: SuperBlock, s: State, d1: seq<Byte>, d2: seq<Byte>, ok: bool, free: nat)
    requires DiskOk(sb, s.disk, s.files, s.blocks) && CacheOk(s.table, sb, d1)
    requires |d1| == |s.disk| && SmapOf(sb, d1) == SmapOf(sb, s.disk) && sb.nrSects < 0x8000_0000
    requires ok <==> exists f: nat :: RunFits(SmapOf(sb, d1), f, BLOCK)
    requires ok ==> SameOutside(d1, d2, SmapAt(sb), InodesAt(sb)) && free - sb.n1stSect + 1 >= 0
    requires ok ==> var g := free - sb.n1stSect + 1;
      RunFits(SmapOf(sb, d1), g, BLOCK) && Marked(SmapOf(sb, d1), SmapOf(sb, d2), g, g + BLOCK)
    ensures ok <==> exists j: nat :: j !in Held(s.blocks) && FirstBit(j + 1) <= sb.nrSmapSects * BITS
    ensures ok ==> TookBlock(sb, d1, d2, free - sb.n1stSect + 1) && free < WORD && CacheOk(s.table, sb, d2)
  {
    hide SuperAt, RecordOf, Refines, HoldsBlocks, BitAt, Marked, ImapMarks, ExtentsOk, RootOk, Held, AllClear,
      IsFirstClear;
    SmapBytes(sb, s.disk);
    RegionsAreDisjoint(sb, |d1|);
    BlockAllocationIsExact(SmapOf(sb, d1), Held(s.blocks));
    if ok {
      ElsewhereKeepsCache(s.table, sb, d1, d2, SmapAt(sb), InodesAt(sb));
    }
  }

  /** The new inode's slot, and the steps on the device up to its record. */
  ghost predicate NewFile(sb: SuperBlock, s: State, d1: seq<Byte>, d2: seq<Byte>, d3: seq<Byte>, f: nat, g: nat,
                          u: seq<Inode>, k: int) {
    && TookInode(sb, s.disk, d1, f) && TookBlock(sb, d1, d2, g) && 0 <= k < |u| && Rewritten(sb, d2, d3, f, u[k].rec)
    && IsNewRecord(sb, u[k].rec, g) && u[k].rec.size == 0 && OneMore(s.table, u, f, k)
    && u == s.table[k := Inode(u[k].rec, 1, f)]
  }

  /** The directory is as it was when its new entry is about to be added. */
  lemma BeforeName(sb: SuperBlock, s: State, d1: seq<Byte>, d2: seq<Byte>, d3: seq<Byte>, f: nat, g: nat,
                   u: seq<Inode>, k: int, path: seq<Byte>)
    requires FsOk(sb, s) && NewFile(sb, s, d1, d2, d3, f, g, u, k)
    requires NameOf(path).Some? && |NameIn(path)| < MAX_FILENAME_LEN && Lookup(s.files, path) == 0
    ensures g > 0 && k != s.root && IsDirectory(sb, d3, u, s.root, s.files) && u[s.root] == s.table[s.root]
    ensures 0 < |NameIn(path)| && 0 !in NameIn(path) && Padded(NameIn(path)) !in s.files
    ensures forall y :: y in s.files ==> s.files[y] != f
  {
    hide SuperAt, RecordOf, Refines, HoldsBlocks, BitAt, Rewritten, TablesOk, CacheOk, TookBlock, NameOf, Padded;
    RootFacts(sb, s);
    Prepare(sb, s.disk, d1, d2, d3, s.files, s.blocks, f, g, u[k].rec);
    TookIsFresh(sb, s.disk, d1, s.files, s.blocks, f);
    NamesAreShort(path);
    assert Padded(NameIn(path)) in s.files ==> InUse(s.files, s.files[Padded(NameIn(path))]);
  }

  /** All steps of a creation together. */
  lemma AfterName(sb: SuperBlock, s: State, d1: seq<Byte>, d2: seq<Byte>, d3: seq<Byte>, d4: seq<Byte>, s': State,
                  f: nat, g: nat, u: seq<Inode>, k: int, size: U32, name: Name, x: nat)
    requires FsOk(sb, s) && NewFile(sb, s, d1, d2, d3, f, g, u, k) && g > 0 && k != s.root
    requires |name| < MAX_FILENAME_LEN && Padded(name) !in s.files
    requires 0 <= s.root < |u| && NameAdded(sb, d3, d4, s'.disk, u, s'.table, s.root, size, s.files[Padded(name) := f])
    requires CacheOk(s'.table, sb, s'.disk) && u[s.root] == s.table[s.root]
    requires EntryPlaced(d3, d4, DataAt(sb), u[s.root].rec.size / DIR_ENTRY_SIZE, size / DIR_ENTRY_SIZE,
                         Entry(f, Padded(name)), x)
    ensures CreatedFile(sb, s, s', name, k, f, BlockOf(g))
  {
    hide RecordOf, DiskOk, Refines, InDirectory, AllLive, Rewritten, TablesOk, CacheOk, TookInode, TookBlock, Padded,
      EntryPlaced;
    RootFacts(sb, s);
    CreateKeepsDisk(sb, s.disk, d1, d2, d3, d4, s'.disk, s.files, s.blocks, Padded(name), f, g, u[k].rec, size);
    FirstOfBlock(sb, s, d1, d2, f, g);
    DiskFits(sb, s'.disk, s.files[Padded(name) := f], s.blocks[f := BlockOf(g)]);
    DiskFits(sb, s.disk, s.files, s.blocks);
    TookIsFresh(sb, s.disk, d1, s.files, s.blocks, f);
    CreateKeepsBytes(sb, s, d1, d2, d3, d4, s'.disk, f, g, u[k].rec, u[s.root].rec.(size := size));
    CreateKeepsEntries(sb, s, d1, d2, d3, d4, s'.disk, f, g, u[k].rec, u[s.root].rec.(size := size));
    PlacedBetween(s.disk, d3, d4, s'.disk, DataAt(sb), u[s.root].rec.size / DIR_ENTRY_SIZE, size / DIR_ENTRY_SIZE,
                  Entry(f, Padded(name)), x);
    assert OneMore(s.table, s'.table, f, k);
  }

  /** None of it but adding the name touches an entry. */
  lemma CreateKeepsEntries(sb: SuperBlock, s: State, d1: seq<Byte>, d2: seq<Byte>, d3: seq<Byte>, d4: seq<Byte>,
                           d5: seq<Byte>, f: nat, g: nat, r: Record, root: Record)
    requires InRange(s.disk, DataAt(sb), 0) && Fits(sb, |s.disk|)
    requires TookInode(sb, s.disk, d1, f) && TookBlock(sb, d1, d2, g) && Rewritten(sb, d2, d3, f, r)
    requires InDirectory(d3, d4, DataAt(sb)) && Rewritten(sb, d4, d5, ROOT_INODE, root)
    ensures SameEntries(s.disk, d3, DataAt(sb)) && SameEntries(d4, d5, DataAt(sb))
  {
    hide RecordOf, Marked, RunFits, IsFirstClear, SameOutside, EntryAt;
    RegionsAreDisjoint(sb, |s.disk|);
    SameEntriesFrame(sb, s.disk, d1, ImapAt(sb), SmapAt(sb));
    SameEntriesFrame(sb, d1, d2, SmapAt(sb), InodesAt(sb));
    RecordInRange(sb, d2, d3, RecordPos(sb, f), RecordPos(sb, f) + 16, f);
    SameEntriesFrame(sb, d2, d3, RecordPos(sb, f), RecordPos(sb, f) + 16);
    assert |d4| == |d3| by { DirectoryLength(d3, d4, DataAt(sb)); }
    RecordInRange(sb, d4, d5, RecordPos(sb, ROOT_INODE), RecordPos(sb, ROOT_INODE) + 16, ROOT_INODE);
    SameEntriesFrame(sb, d4, d5, RecordPos(sb, ROOT_INODE), RecordPos(sb, ROOT_INODE) + 16);
  }

  lemma DirectoryLength(d: seq<Byte>, e: seq<Byte>, at: nat)
    requires InDirectory(d, e, at)
    ensures |e| == |d|
  {
  }

  lemma PlacedBetween(d0: seq<Byte>, d3: seq<Byte>, d4: seq<Byte>, d5: seq<Byte>, at: nat, n: nat, n': nat, x: Entry,
                      k: nat)
    requires SameEntries(d0, d3, at) && EntryPlaced(d3, d4, at, n, n', x, k) && SameEntries(d4, d5, at)
    requires n <= MAX_ENTRIES
    ensures EntryPlaced(d0, d5, at, n, n', x, k)
  {
    hide EntryAt;
    SameLive(d0, d3, at, n);
  }

  /** None of it touches the bytes of a file. */
  lemma CreateKeepsBytes(sb: SuperBlock, s: State, d1: seq<Byte>, d2: seq<Byte>, d3: seq<Byte>, d4: seq<Byte>,
                         d5: seq<Byte>, f: nat, g: nat, r: Record, root: Record)
    requires FilesAt(sb) <= |s.disk| && Fits(sb, |s.disk|)
    requires TookInode(sb, s.disk, d1, f) && TookBlock(sb, d1, d2, g) && Rewritten(sb, d2, d3, f, r)
    requires InDirectory(d3, d4, DataAt(sb)) && Rewritten(sb, d4, d5, ROOT_INODE, root)
    ensures SameFileBytes(sb, s.disk, d5)
  {
    hide RecordOf, Marked, RunFits, IsFirstClear, SameOutside;
    RegionsAreDisjoint(sb, |s.disk|);
    MetaOnly(sb, s.disk, d1, ImapAt(sb), SmapAt(sb));
    MetaOnly(sb, d1, d2, SmapAt(sb), InodesAt(sb));
    RecordIsMeta(sb, d2, d3, f, r);
    MetaOnly(sb, d3, d4, DataAt(sb), FilesAt(sb));
    RecordIsMeta(sb, d4, d5, ROOT_INODE, root);
  }

  lemma DiskFits(sb: SuperBlock, d: seq<Byte>, files: map<Name, int>, blocks: map<int, nat>)
    requires DiskOk(sb, d, files, blocks)
    ensures Fits(sb, |d|) && FilesAt(sb) <= |d|
  {
  }

  lemma FirstOfBlock(sb: SuperBlock, s: State, d1: seq<Byte>, d2: seq<Byte>, f: nat, g: nat)
    requires FsOk(sb, s) && TookInode(sb, s.disk, d1, f) && TookBlock(sb, d1, d2, g)
    ensures g > 0 && g == FirstBit(BlockOf(g)) && forall j: nat :: j < BlockOf(g) ==> j in Held(s.blocks)
  {
    hide SuperAt, RecordOf, Refines, BitAt, Marked, RunFits, TablesOk, CacheOk, ImapMarks, HoldsBlocks, BlockOf;
    MapFrame(sb, s.disk, d1, true, 0, s.files);
    SmapBytes(sb, s.disk);
    AllocatingAddsBlock(SmapOf(sb, d1), SmapOf(sb, d2), Held(s.blocks), g);
  }

  // ----- The first state -----

  lemma FreeTable(t: seq<Inode>, sb: SuperBlock, d: seq<Byte>, files: map<Name, int>, blocks: map<int, nat>)
    requires |t| == NR_INODE && (forall i :: 0 <= i < |t| ==> t[i] == FREE) && DiskOk(sb, d, files, blocks)
    ensures CacheOk(t, sb, d) && IsFirstFree(t, 0) && forall i :: !Live(t, i, ROOT_INODE)
  {
    hide SuperAt, RecordOf, Refines, HoldsBlocks, ImapMarks, ExtentsOk, RootOk;
  }

  lemma {:induction false} NothingOpen(desc: seq<Desc>, k: int)
    requires k >= 0 && forall i :: 0 <= i < |desc| ==> desc[i] == UNUSED
    ensures Opens(desc, k) == 0
  {
    OpensPositive(desc, k);
  }

  lemma Starts(sb: SuperBlock, length: nat)
    requires Fits(sb, length) && sb.nrSects < 0x8000_0000
    ensures Storable(sb)
  {
  }

  ghost predicate HasMagic(d: seq<Byte>) { |d| >= 2 * SECTOR_SIZE && WordAt(d, SECTOR_SIZE) == MAGIC_V1 }

  /** A device that is large enough, with the directory's extent zero behind its first sector. */
  ghost predicate CanBeMade(sb: SuperBlock, d: seq<Byte>) { Fits(sb, |d|) && Mkfs.RestIsZero(sb, d) }

  /** A device in order has the magic number and its super block, so starting again on it finds all its files. */
  lemma SuperIsThere(sb: SuperBlock, d: seq<Byte>, files: map<Name, int>, blocks: map<int, nat>)
    requires DiskOk(sb, d, files, blocks)
    ensures SuperAt(sb, d) && HasMagic(d)
  {
    hide RecordOf, Refines, HoldsBlocks, ImapMarks, ExtentsOk, RootOk, Word;
    assert SuperWords(sb)[0] == MAGIC_V1;
    assert WordAt(d, SECTOR_SIZE + 4 * 0) == SuperWords(sb)[0];
  }

  /** After making the file system, the one reference is that to the root. */
  lemma FirstState(sb: SuperBlock, s: State, t: seq<Inode>)
    requires DiskOk(sb, s.disk, s.files, s.blocks) && |t| == NR_INODE && (forall i :: 0 <= i < |t| ==> t[i] == FREE)
    requires Got(t, s.table, sb, s.disk, ROOT_INODE, s.root) && CacheOk(t, sb, s.disk) && s.refused == multiset{}
    requires s.desc == NoDescs() && s.filp == NoFilps()
    ensures FsOk(sb, s) && forall i :: !Used(s.desc, i)
  {
    hide SuperAt, RecordOf, Refines, HoldsBlocks, ImapMarks, Opens;
    GotKeepsCache(t, s.table, sb, s.disk, ROOT_INODE, s.root);
    forall k | 0 <= k < |s.table| ensures RefsOf(s.table[k], k, s.desc, s.refused) {
      NothingOpen(s.desc, k);
    }
  }
}
