/**
 What is true of the device between file system requests: the inode map marks the inodes the directory names, the
 sector map marks the extents of the root and of the regular files among them, and no two extents overlap.
 */
module FsInv {
  import opened Bytes
  import opened Device
  import opened Layout
  import opened Maps
  import opened Extents
  import opened Inodes
  import opened SuperBlocks
  import opened Directory

  const ROOT_INODE: int := 1
  const DEV_CHAR_TTY: int := 4
  const EXTENT_BYTES: nat := 1048576

  ghost predicate InUse(files: map<Name, int>, i: int) {
    exists x :: x in files && files[x] == i
  }

  /** The inode map marks 0 and the inodes in use. */
  ghost predicate ImapMarks(sb: SuperBlock, d: seq<Byte>, files: map<Name, int>)
    requires Fits(sb, |d|)
  {
    forall k: nat :: k < BITS ==> (BitAt(ImapOf(sb, d), k) <==> k == 0 || InUse(files, k))
  }

  function Held(blocks: map<int, nat>): set<nat> { set i | i in blocks :: blocks[i] }

  ghost predicate Injective(blocks: map<int, nat>) {
    forall i, j :: i in blocks && j in blocks && i != j ==> blocks[i] != blocks[j]
  }

  /** A record of a file that has block j as its extent. */
  ghost predicate HasExtent(sb: SuperBlock, r: Record, j: nat) {
    r.start == sb.n1stSect + FirstBit(j) - 1 && r.nrSects == NR_DEFAULT_FILE_SECTS
  }

  ghost predicate RootOk(sb: SuperBlock, r: Record) {
    r.mode == I_DIRECTORY && r.size % DIR_ENTRY_SIZE == 0 && r.size / DIR_ENTRY_SIZE <= NR_INODES && HasExtent(sb, r, 0)
  }

  /** A record of a terminal: its start is the device number. */
  ghost predicate IsTerminal(r: Record) { r.mode == I_CHAR_SPECIAL && r.start / 0x100 == DEV_CHAR_TTY }

  /** The files with extents are the root and the regular ones; `blocks` gives each its own. */
  ghost predicate ExtentsOk(sb: SuperBlock, d: seq<Byte>, files: map<Name, int>, blocks: map<int, nat>)
    requires Fits(sb, |d|)
  {
    && ROOT_INODE in blocks && blocks[ROOT_INODE] == 0 && Injective(blocks)
    && (forall i :: i in blocks ==> InUse(files, i))
    && (forall i :: InUse(files, i) ==> 0 < i < BITS)
    && (forall i :: InUse(files, i) && i != ROOT_INODE ==> (i in blocks <==> RecordOf(sb, d, i).mode == I_REGULAR))
    && (forall i :: InUse(files, i) && i in blocks ==> HasExtent(sb, RecordOf(sb, d, i), blocks[i]))
    && (forall i :: InUse(files, i) && i !in blocks ==> IsTerminal(RecordOf(sb, d, i)))
  }

  ghost predicate DiskOk(sb: SuperBlock, d: seq<Byte>, files: map<Name, int>, blocks: map<int, nat>) {
    && Fits(sb, |d|) && SuperAt(sb, d)
    && RootOk(sb, RecordOf(sb, d, ROOT_INODE))
    && Refines(d, DataAt(sb), RecordOf(sb, d, ROOT_INODE).size / DIR_ENTRY_SIZE, files)
    && ImapMarks(sb, d, files)
    && HoldsBlocks(SmapOf(sb, d), Held(blocks))
    && ExtentsOk(sb, d, files, blocks)
  }

  // ----- Regions -----

  lemma FrameImap(sb: SuperBlock, d: seq<Byte>, e: seq<Byte>, lo: nat, hi: nat)
    requires Fits(sb, |d|) && SameOutside(d, e, lo, hi) && SmapAt(sb) <= lo
    ensures |e| == |d| && ImapOf(sb, e) == ImapOf(sb, d)
  {
    RegionsAreDisjoint(sb, |d|);
    BytesElsewhere(d, e, lo, hi, ImapAt(sb), SmapAt(sb));
  }

  lemma FrameSmap(sb: SuperBlock, d: seq<Byte>, e: seq<Byte>, lo: nat, hi: nat)
    requires Fits(sb, |d|) && SameOutside(d, e, lo, hi) && (hi <= SmapAt(sb) || InodesAt(sb) <= lo)
    ensures |e| == |d| && SmapOf(sb, e) == SmapOf(sb, d)
  {
    RegionsAreDisjoint(sb, |d|);
    BytesElsewhere(d, e, lo, hi, SmapAt(sb), InodesAt(sb));
  }

  ghost predicate SameEntries(d: seq<Byte>, e: seq<Byte>, at: nat) {
    |e| == |d| && forall i: nat :: i < MAX_ENTRIES ==> EntryAt(e, at, i) == EntryAt(d, at, i)
  }

  lemma SameLive(d: seq<Byte>, e: seq<Byte>, at: nat, n: nat)
    requires SameEntries(d, e, at) && n <= MAX_ENTRIES
    ensures forall i: nat :: IsLive(e, at, n, i) <==> IsLive(d, at, n, i)
  {
    hide EntryAt;
  }

  lemma SameEntriesRefine(d: seq<Byte>, e: seq<Byte>, at: nat, n: nat, m: map<Name, int>)
    requires Refines(d, at, n, m) && SameEntries(d, e, at)
    ensures Refines(e, at, n, m)
  {
    hide EntryAt, NamesPresent, EntriesMapped, EntriesDistinct, HolesZero, IsLive;
    SameLive(d, e, at, n);
    assert HolesZero(e, at, n) by { SameHoles(d, e, at, n); }
    assert EntriesMapped(e, at, n, m) && NamesPresent(e, at, n, m) by { SameNames(d, e, at, n, m); }
    assert EntriesDistinct(e, at, n) by { SameDistinct(d, e, at, n); }
  }

  lemma SameHoles(d: seq<Byte>, e: seq<Byte>, at: nat, n: nat)
    requires HolesZero(d, at, n) && SameEntries(d, e, at) && n <= MAX_ENTRIES
    ensures HolesZero(e, at, n)
  {
    hide EntryAt;
    SameLive(d, e, at, n);
  }

  lemma SameNames(d: seq<Byte>, e: seq<Byte>, at: nat, n: nat, m: map<Name, int>)
    requires EntriesMapped(d, at, n, m) && NamesPresent(d, at, n, m) && SameEntries(d, e, at) && n <= MAX_ENTRIES
    ensures EntriesMapped(e, at, n, m) && NamesPresent(e, at, n, m)
  {
    hide EntryAt, ProperName;
    SameLive(d, e, at, n);
    forall x: Name | x in m ensures exists i: nat :: IsLive(e, at, n, i) && EntryAt(e, at, i).name == x {
      var i: nat :| IsLive(d, at, n, i) && EntryAt(d, at, i).name == x;
      assert IsLive(e, at, n, i);
    }
  }

  lemma SameDistinct(d: seq<Byte>, e: seq<Byte>, at: nat, n: nat)
    requires EntriesDistinct(d, at, n) && SameEntries(d, e, at) && n <= MAX_ENTRIES
    ensures EntriesDistinct(e, at, n)
  {
    hide EntryAt;
    SameLive(d, e, at, n);
  }

  /** A change outside the directory's extent leaves the map it stands for. */
  lemma FrameDir(d: seq<Byte>, e: seq<Byte>, lo: nat, hi: nat, at: nat, n: nat, m: map<Name, int>)
    requires Refines(d, at, n, m) && SameOutside(d, e, lo, hi)
    requires hi <= at || at + MAX_ENTRIES * DIR_ENTRY_SIZE <= lo
    ensures Refines(e, at, n, m)
  {
    hide EntryAt, Refines;
    RefinesRange(d, at, n, m);
    forall i: nat | i < MAX_ENTRIES ensures EntryAt(e, at, i) == EntryAt(d, at, i) {
      EntryElsewhere(d, e, lo, hi, at, i);
    }
    SameEntriesRefine(d, e, at, n, m);
  }

  /** A change outside the inode array leaves every record. */
  lemma FrameRecords(sb: SuperBlock, d: seq<Byte>, e: seq<Byte>, lo: nat, hi: nat)
    requires Fits(sb, |d|) && SameOutside(d, e, lo, hi) && (hi <= InodesAt(sb) || DataAt(sb) <= lo)
    ensures |e| == |d| && forall i :: IsInodeNr(i) ==> RecordOf(sb, e, i) == RecordOf(sb, d, i)
  {
    hide RecordOf;
    forall i | IsInodeNr(i) ensures RecordOf(sb, e, i) == RecordOf(sb, d, i) {
      RecordInRange(sb, d, e, lo, hi, i);
      RecordElsewhere(sb, d, e, lo, hi, i);
    }
  }

  /** No two names stand for the same inode. */
  lemma NamesInjective(d: seq<Byte>, at: nat, n: nat, m: map<Name, int>, x: Name, y: Name)
    requires Refines(d, at, n, m) && x in m && y in m && m[x] == m[y]
    ensures x == y && m[x] != 0
  {
    hide EntryAt;
    var i: nat :| IsLive(d, at, n, i) && EntryAt(d, at, i).name == x;
    var j: nat :| IsLive(d, at, n, j) && EntryAt(d, at, j).name == y;
  }

  /** The extents of the blocks, as bytes of the device. */
  lemma ExtentBytes(sb: SuperBlock, r: Record, j: nat)
    requires HasExtent(sb, r, j)
    ensures r.start * SECTOR_SIZE == DataAt(sb) + j * EXTENT_BYTES && r.nrSects * SECTOR_SIZE == EXTENT_BYTES
  {
  }

  /** Writing inside the extent of a block other than the root's leaves all the structures as they are. */
  lemma DataWriteKeepsDisk(sb: SuperBlock, d: seq<Byte>, e: seq<Byte>, files: map<Name, int>, blocks: map<int, nat>,
                           lo: nat, hi: nat)
    requires DiskOk(sb, d, files, blocks) && SameOutside(d, e, lo, hi)
    requires DataAt(sb) + MAX_ENTRIES * DIR_ENTRY_SIZE <= lo
    ensures DiskOk(sb, e, files, blocks)
  {
    hide RecordOf, Refines, HoldsBlocks, BitAt, SameOutside, SuperAt;
    RegionsAreDisjoint(sb, |d|);
    FrameImap(sb, d, e, lo, hi);
    FrameSmap(sb, d, e, lo, hi);
    FrameRecords(sb, d, e, lo, hi);
    FrameDir(d, e, lo, hi, DataAt(sb), RecordOf(sb, d, ROOT_INODE).size / DIR_ENTRY_SIZE, files);
    FrameSuper(sb, d, e, lo, hi);
  }

  /** Changing the size in the record of a regular file. */
  lemma ResizeKeepsDisk(sb: SuperBlock, d: seq<Byte>, e: seq<Byte>, files: map<Name, int>, blocks: map<int, nat>,
                        i: int, r: Record)
    requires DiskOk(sb, d, files, blocks) && i in blocks && i != ROOT_INODE && Rewritten(sb, d, e, i, r)
    requires r == RecordOf(sb, d, i).(size := r.size)
    ensures DiskOk(sb, e, files, blocks)
  {
    hide RecordOf, Refines, HoldsBlocks, BitAt, SuperAt;
    RegionsAreDisjoint(sb, |d|);
    RewriteFrame(sb, d, e, i, r, files);
  }

  /** Rewriting one record leaves both maps, the directory and the other records. */
  lemma RewriteFrame(sb: SuperBlock, d: seq<Byte>, e: seq<Byte>, i: int, r: Record, files: map<Name, int>)
    requires Rewritten(sb, d, e, i, r)
    ensures |e| == |d| && ImapOf(sb, e) == ImapOf(sb, d) && SmapOf(sb, e) == SmapOf(sb, d)
    ensures SuperAt(sb, d) ==> SuperAt(sb, e)
    ensures RecordOf(sb, e, i) == r && forall k :: IsInodeNr(k) && k != i ==> RecordOf(sb, e, k) == RecordOf(sb, d, k)
    ensures forall n: nat :: Refines(d, DataAt(sb), n, files) ==> Refines(e, DataAt(sb), n, files)
  {
    hide RecordOf, Refines, BitAt, SuperAt;
    RegionsAreDisjoint(sb, |d|);
    var lo, hi := RecordPos(sb, i), RecordPos(sb, i) + 16;
    RecordInRange(sb, d, e, lo, hi, i);
    FrameImap(sb, d, e, lo, hi);
    FrameSmap(sb, d, e, lo, hi);
    if SuperAt(sb, d) { FrameSuper(sb, d, e, lo, hi); }
    forall k | IsInodeNr(k) && k != i ensures RecordOf(sb, e, k) == RecordOf(sb, d, k) {
      RewritesOneRecord(sb, d, e, i, r, k);
    }
    forall n: nat | Refines(d, DataAt(sb), n, files) ensures Refines(e, DataAt(sb), n, files) {
      FrameDir(d, e, lo, hi, DataAt(sb), n, files);
    }
  }

  // ----- Pieces -----

  ghost predicate SameRecords(sb: SuperBlock, d: seq<Byte>, e: seq<Byte>)
    requires Fits(sb, |d|) && |e| == |d|
  {
    forall i :: IsInodeNr(i) ==> RecordOf(sb, e, i) == RecordOf(sb, d, i)
  }

  /** A change inside one of the two maps leaves the other map, the records and the directory. */
  lemma MapFrame(sb: SuperBlock, d: seq<Byte>, e: seq<Byte>, inImap: bool, n: nat, files: map<Name, int>)
    requires Fits(sb, |d|)
    requires if inImap then SameOutside(d, e, ImapAt(sb), SmapAt(sb)) else SameOutside(d, e, SmapAt(sb), InodesAt(sb))
    ensures |e| == |d| && SameRecords(sb, d, e) && (SuperAt(sb, d) ==> SuperAt(sb, e))
    ensures if inImap then SmapOf(sb, e) == SmapOf(sb, d) else ImapOf(sb, e) == ImapOf(sb, d)
    ensures Refines(d, DataAt(sb), n, files) ==> Refines(e, DataAt(sb), n, files)
  {
    hide RecordOf, Refines, SameOutside, SuperAt;
    RegionsAreDisjoint(sb, |d|);
    var lo, hi := if inImap then ImapAt(sb) else SmapAt(sb), if inImap then SmapAt(sb) else InodesAt(sb);
    FrameRecords(sb, d, e, lo, hi);
    if SuperAt(sb, d) { FrameSuper(sb, d, e, lo, hi); }
    if inImap { FrameSmap(sb, d, e, lo, hi); } else { FrameImap(sb, d, e, lo, hi); }
    if Refines(d, DataAt(sb), n, files) { FrameDir(d, e, lo, hi, DataAt(sb), n, files); }
  }

  /** A change inside the directory leaves both maps and the records. */
  lemma DirFrame(sb: SuperBlock, d: seq<Byte>, e: seq<Byte>)
    requires Fits(sb, |d|) && InDirectory(d, e, DataAt(sb))
    ensures |e| == |d| && SameRecords(sb, d, e) && ImapOf(sb, e) == ImapOf(sb, d) && SmapOf(sb, e) == SmapOf(sb, d)
    ensures SuperAt(sb, d) ==> SuperAt(sb, e)
  {
    hide RecordOf, SameOutside, SuperAt;
    RegionsAreDisjoint(sb, |d|);
    var lo, hi := DataAt(sb), DataAt(sb) + MAX_ENTRIES * DIR_ENTRY_SIZE;
    FrameRecords(sb, d, e, lo, hi);
    FrameImap(sb, d, e, lo, hi);
    FrameSmap(sb, d, e, lo, hi);
    if SuperAt(sb, d) { FrameSuper(sb, d, e, lo, hi); }
  }

  // ----- The maps of files and of blocks -----

  lemma InUseAdded(files: map<Name, int>, key: Name, f: int, i: int)
    requires key !in files
    ensures InUse(files[key := f], i) <==> InUse(files, i) || i == f
  {
    if InUse(files, i) {
      var x :| x in files && files[x] == i;
      assert x in files[key := f] && files[key := f][x] == i;
    }
    assert files[key := f][key] == f;
  }

  lemma InUseRemoved(d: seq<Byte>, at: nat, n: nat, files: map<Name, int>, key: Name, i: int)
    requires Refines(d, at, n, files) && key in files
    ensures InUse(files - {key}, i) <==> InUse(files, i) && i != files[key]
  {
    hide Refines;
    if InUse(files - {key}, i) {
      var x :| x in files - {key} && (files - {key})[x] == i;
      assert x in files && files[x] == i;
      if i == files[key] { NamesInjective(d, at, n, files, x, key); }
    }
    if InUse(files, i) && i != files[key] {
      var x :| x in files && files[x] == i;
      assert x in files - {key} && (files - {key})[x] == i;
    }
  }

  lemma BlocksAdded(blocks: map<int, nat>, f: int, j: nat)
    requires f !in blocks && Injective(blocks) && j !in Held(blocks)
    ensures Held(blocks[f := j]) == Held(blocks) + {j} && Injective(blocks[f := j])
  {
    var b := blocks[f := j];
    forall x: nat | x in Held(blocks) ensures x in Held(b) {
      var i: int :| i in blocks && blocks[i] == x;
      assert b[i] == x;
    }
    assert b[f] == j;
  }

  lemma BlocksRemoved(blocks: map<int, nat>, f: int)
    requires f in blocks && Injective(blocks)
    ensures Held(blocks - {f}) == Held(blocks) - {blocks[f]} && Injective(blocks - {f})
  {
    var b := blocks - {f};
    forall x: nat | x in Held(blocks) && x != blocks[f] ensures x in Held(b) {
      var i: int :| i in blocks && blocks[i] == x;
      assert b[i] == x;
    }
    forall x: nat | x in Held(b) ensures x in Held(blocks) && x != blocks[f] {
      var i: int :| i in b && b[i] == x;
      assert blocks[i] == x;
    }
  }

  /** Every record but those of inode f and the root is as it was. */
  ghost predicate OtherRecords(sb: SuperBlock, d: seq<Byte>, e: seq<Byte>, f: int) {
    Fits(sb, |d|) && |e| == |d| && forall i :: IsInodeNr(i) && i != f && i != ROOT_INODE ==>
      RecordOf(sb, e, i) == RecordOf(sb, d, i)
  }

  // ----- Creating a file -----

  /** What creating a file does in all: inode f, block j, and an entry for the name. */
  ghost predicate Created(sb: SuperBlock, d: seq<Byte>, e: seq<Byte>, files: map<Name, int>, held: set<nat>,
                          key: Name, f: int, j: nat, root: Record) {
    && Fits(sb, |d|) && |e| == |d| && (SuperAt(sb, d) ==> SuperAt(sb, e)) && 0 < f < BITS && j !in held
    && !BitAt(ImapOf(sb, d), f) && Marked(ImapOf(sb, d), ImapOf(sb, e), f, f + 1)
    && HoldsBlocks(SmapOf(sb, e), held + {j})
    && RecordOf(sb, e, f).mode == I_REGULAR && HasExtent(sb, RecordOf(sb, e, f), j)
    && RecordOf(sb, e, ROOT_INODE) == root
    && OtherRecords(sb, d, e, f)
    && Refines(e, DataAt(sb), root.size / DIR_ENTRY_SIZE, files[key := f])
  }

  lemma CreatedIsOk(sb: SuperBlock, d: seq<Byte>, e: seq<Byte>, files: map<Name, int>, blocks: map<int, nat>,
                    key: Name, f: int, j: nat, root: Record)
    requires DiskOk(sb, d, files, blocks) && Created(sb, d, e, files, Held(blocks), key, f, j, root)
    requires key !in files && RootOk(sb, root)
    ensures !InUse(files, f) && DiskOk(sb, e, files[key := f], blocks[f := j])
  {
    hide RecordOf, Refines, HoldsBlocks, BitAt, SuperAt;
    BlocksAdded(blocks, f, j);
    var files' := files[key := f];
    forall i ensures InUse(files', i) <==> InUse(files, i) || i == f { InUseAdded(files, key, f, i); }
    assert ImapMarks(sb, e, files');
    assert ExtentsOk(sb, e, files', blocks[f := j]);
  }

  // ----- Removing a file -----

  /** What removing a file does in all, apart from the size of the directory. */
  ghost predicate Removed(sb: SuperBlock, d: seq<Byte>, e: seq<Byte>, files: map<Name, int>, held: set<nat>,
                          key: Name, f: int, j: nat, root: Record) {
    && Fits(sb, |d|) && |e| == |d| && (SuperAt(sb, d) ==> SuperAt(sb, e)) && 0 < f < BITS
    && Cleared(ImapOf(sb, d), ImapOf(sb, e), f, f + 1) && HoldsBlocks(SmapOf(sb, e), held - {j})
    && RecordOf(sb, e, ROOT_INODE) == root
    && OtherRecords(sb, d, e, f)
  }

  lemma RemovedIsOk(sb: SuperBlock, d: seq<Byte>, e: seq<Byte>, files: map<Name, int>, blocks: map<int, nat>,
                    key: Name, f: int, root: Record)
    requires DiskOk(sb, d, files, blocks) && f in blocks && key in files && files[key] == f && f != ROOT_INODE
    requires Removed(sb, d, e, files, Held(blocks), key, f, blocks[f], root) && RootOk(sb, root)
    ensures DiskOk(sb, e, files - {key}, blocks - {f}) <==>
      Refines(e, DataAt(sb), root.size / DIR_ENTRY_SIZE, files - {key})
  {
    hide RecordOf, Refines, HoldsBlocks, BitAt, SuperAt;
    BlocksRemoved(blocks, f);
    var files' := files - {key};
    forall i ensures InUse(files', i) <==> InUse(files, i) && i != f {
      InUseRemoved(d, DataAt(sb), RecordOf(sb, d, ROOT_INODE).size / DIR_ENTRY_SIZE, files, key, i);
    }
    assert ImapMarks(sb, e, files');
    assert ExtentsOk(sb, e, files', blocks - {f});
  }
}
