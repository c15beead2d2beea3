/** The file system task: open, create, close, unlink, read and write, on the one device with its one directory. */
module FileSystem {
  import opened Wrappers
  import opened Bytes
  import opened Device
  import opened Layout
  import opened Maps
  import opened Extents
  import opened Inodes
  import opened SuperBlocks
  import opened Directory
  import opened FsInv
  import opened FsSteps
  import opened Descriptors
  import opened FsState
  import opened ReadWrite
  import opened FsCalls
  import opened Mkfs

  class FileSystem {
    const dev: Disk
    const inodes: Table
    const sb: SuperBlock
    var desc: seq<Desc>
    var filp: Filp
    var rootInode: int
    ghost var files: map<Name, int>
    ghost var blocks: map<int, nat>
    ghost var refused: multiset<int>

    ghost function Now(): State
      reads this, dev.bytes, inodes.slots
    {
      State(dev.bytes[..], inodes.slots[..], desc, filp, rootInode, files, blocks, refused)
    }

    ghost predicate Valid()
      reads this, dev.bytes, inodes.slots
    {
      inodes.Beside(dev) && sb.nrSects < 0x8000_0000 && FsOk(sb, Now())
    }

    /**
     Start on a device that holds a file system: the files are those it has, nothing is open, and the root is taken.
     */
    constructor (device: Disk, superBlock: SuperBlock, ghost f: map<Name, int>, ghost b: map<int, nat>)
      requires device.Valid() && superBlock.nrSects < 0x8000_0000 && DiskOk(superBlock, device.bytes[..], f, b)
      modifies device.fsbuf
      ensures Valid() && fresh(inodes.slots) && dev == device && sb == superBlock
      ensures device.bytes[..] == old(device.bytes[..])
      ensures files == f && blocks == b && refused == multiset{} && forall i :: !Used(desc, i)
    {
      hide DiskOk, FsOk, NoDescs, NoFilps, Used;
      dev, sb := device, superBlock;
      inodes := new Table();
      desc, filp := NoDescs(), NoFilps();
      rootInode, files, blocks, refused := NONE, f, b, multiset{};
      new;
      TakeRoot();
    }

    method TakeRoot()
      requires inodes.Beside(dev) && sb.nrSects < 0x8000_0000 && DiskOk(sb, dev.bytes[..], files, blocks)
      requires inodes.slots.Length == NR_INODE && forall i :: 0 <= i < NR_INODE ==> inodes.slots[i] == FREE
      requires desc == NoDescs() && filp == NoFilps() && refused == multiset{}
      modifies `rootInode, dev.fsbuf, inodes.slots
      ensures Valid() && forall i :: !Used(desc, i)
    {
      hide DiskOk, Fits, RecordOf, FsOk, CacheOk, IsFirstFree, Live, Got, Used, NoDescs, NoFilps;
      ghost var t := inodes.slots[..];
      FreeTable(t, sb, dev.bytes[..], files, blocks);
      var ok, k := inodes.GetInode(dev, sb, ROOT_INODE);
      rootInode := k;
      FirstState(sb, Now(), t);
    }

    /**
     init_fs: a device without the magic number is given a new file system; one that has it keeps its files, which are
     the f and b it is in order for.
     */
    static method InitFs(device: Disk, nrSects: nat, ghost s: SuperBlock, ghost f: map<Name, int>,
                         ghost b: map<int, nat>)
      returns (fs: FileSystem)
      requires device.Valid() && device.bytes.Length >= 2 * SECTOR_SIZE && nrSects < 0x8000_0000
      requires HasMagic(device.bytes[..]) ==> s.nrSects < 0x8000_0000 && DiskOk(s, device.bytes[..], f, b)
      requires !HasMagic(device.bytes[..]) ==> CanBeMade(MakeSuper(nrSects), device.bytes[..])
      modifies device.bytes, device.fsbuf
      ensures fresh(fs) && fresh(fs.inodes.slots) && fs.Valid() && fs.dev == device
      ensures fs.refused == multiset{} && forall i :: !Used(fs.desc, i)
      ensures if HasMagic(old(device.bytes[..]))
        then fs.sb == s && fs.files == f && fs.blocks == b && device.bytes[..] == old(device.bytes[..])
        else fs.sb == MakeSuper(nrSects) && fs.files == FirstFiles(FIRST) && fs.blocks == FirstBlocks()
             && HoldsRecords(fs.sb, device.bytes[..], FIRST) && AllLive(device.bytes[..], DataAt(fs.sb), FIRST)
    {
      hide DiskOk, FirstFiles, FirstBlocks, RestIsZero, Fits, WordAt, SuperAt, FsOk, Used, HoldsRecords, AllLive;
      var magic, sb := ReadSuper(device);
      if magic != MAGIC_V1 {
        Starts(MakeSuper(nrSects), device.bytes.Length);
        MakeFs(device, MakeSuper(nrSects));
        SuperIsThere(MakeSuper(nrSects), device.bytes[..], FirstFiles(FIRST), FirstBlocks());
        magic, sb := ReadSuper(device);
        assert magic == MAGIC_V1;
        fs := new FileSystem(device, sb, FirstFiles(FIRST), FirstBlocks());
      } else {
        SuperIsThere(s, device.bytes[..], f, b);
        magic, sb := ReadSuper(device);
        assert magic == MAGIC_V1;
        fs := new FileSystem(device, sb, f, b);
      }
    }

    // ----- Opening and closing -----

    method FreeFd(src: nat) returns (fd: int)
      requires FilpShape(filp) && src < Ipc.N
      ensures if fd == NONE then FilpFull(filp, src) else IsLowestFree(filp, src, fd)
    {
      fd := 0;
      while fd < NR_FILES
        invariant 0 <= fd <= NR_FILES && forall k :: 0 <= k < fd ==> filp[src][k] != NONE
      {
        if filp[src][fd] == NONE {
          return;
        }
        fd := fd + 1;
      }
      fd := NONE;
    }

    method FreeDesc() returns (i: int)
      requires |desc| == NR_FILE_DESC
      ensures if i == NONE then DescFull(desc) else 0 <= i < |desc| && !Used(desc, i)
    {
      i := 0;
      while i < NR_FILE_DESC
        invariant 0 <= i <= NR_FILE_DESC && forall k :: 0 <= k < i ==> Used(desc, k)
      {
        if desc[i].inode == NONE {
          return;
        }
        i := i + 1;
      }
      i := NONE;
    }

    /** Fill in entry i and point descriptor fd of the caller at it, then look at what has been opened. */
    method Install(src: nat, fd: int, i: int, flags: nat, k: int) returns (out: Outcome)
      requires inodes.slots.Length == NR_INODE && 0 <= k < NR_INODE
      requires Holds(filp, src, fd, NONE) && 0 <= i < |desc|
      modifies `desc, `filp
      ensures desc == old(desc)[i := Desc(flags, inodes.slots[k].rec.size, k)]
      ensures filp == old(filp)[src := old(filp)[src][fd := i]]
      ensures out == if CanBeOpened(inodes.slots[k]) then Done(fd) else Halted
    {
      desc := desc[i := Desc(flags, inodes.slots[k].rec.size, k)];
      filp := filp[src := filp[src][fd := i]];
      var imode := TypeOf(inodes.slots[k].rec.mode);
      if imode == I_CHAR_SPECIAL {
        var d := inodes.slots[k].rec.start;
        if Major(d) != DEV_CHAR_TTY {
          return Halted;
        }
      } else if imode == I_DIRECTORY {
        if inodes.slots[k].num != ROOT_DEV {
          return Halted;
        }
      } else if inodes.slots[k].rec.mode != I_REGULAR {
        return Halted;
      }
      return Done(fd);
    }

    /** Open what a path names, or find that it names nothing. */
    method OpenOld(src: nat, fd: int, i: int, path: seq<Byte>, flags: nat, nr: int) returns (out: Outcome, ghost k: int)
      requires Valid() && IsLowestFree(filp, src, fd) && 0 <= i < |desc| && !Used(desc, i)
      requires nr == Lookup(files, path) && !Creates(flags) && ReadsWrites(flags)
      modifies `desc, `filp, dev.fsbuf, inodes.slots
      ensures out.Halted? <==> nr == ROOT_INODE || (nr != 0 && !HasSlot(old(inodes.slots[..]), nr))
      ensures out.Done? ==> Valid()
      ensures out.Done? ==> if nr == 0 then out.ret == -1 && Now() == old(Now())
                            else Opened(sb, old(Now()), Now(), src, out.ret, path, flags, i, k)
    {
      hide RecordOf, DiskOk, CacheOk, TablesOk, Fits, NameOf, Padded, Lookup, IsFirstFree, OneMore, CanBeOpened,
        IsLowestFree, Used;
      ghost var s0 := Now();
      k := NONE;
      var name := StripPath(path);
      if name == None {
        NoNameNoFile(files, path);
        return Done(-1), k;
      }
      LookupInUse(sb, s0, path);
      var ok, pin := inodes.GetInode(dev, sb, nr);
      if !ok {
        return Halted, k;
      }
      k := pin;
      if nr != 0 { GotFile(sb, s0, inodes.slots[..], nr, k); }
      if pin == NONE {
        return Done(-1), k;
      }
      OpenShape(sb, s0);
      LowestIsFree(filp, src, fd);
      out := Install(src, fd, i, flags, pin);
      if nr != ROOT_INODE {
        OpenedOld(sb, s0, Now(), nr, k, src, fd, i, flags);
      }
    }

    /** Create and open a file, unless the name is taken or there is none. */
    method OpenNew(src: nat, fd: int, i: int, path: seq<Byte>, flags: nat, nr: int) returns (out: Outcome, ghost k: int)
      requires Valid() && IsLowestFree(filp, src, fd) && 0 <= i < |desc| && !Used(desc, i)
      requires nr == Lookup(files, path) && Creates(flags) && |NameIn(path)| < MAX_FILENAME_LEN
      modifies `desc, `filp, `files, `blocks, dev.bytes, dev.fsbuf, inodes.slots
      ensures out.Halted? <==> NewName(old(files), path) && !CanCreate(sb, old(Now()))
      ensures out.Done? ==> Valid()
      ensures out.Done? ==> if NewName(old(files), path)
        then Opened(sb, old(Now()), Now(), src, out.ret, path, flags, i, k)
                            else out.ret == -1 && Now() == old(Now())
    {
      hide RecordOf, DiskOk, CacheOk, TablesOk, Fits, NameOf, Padded, Lookup, CanCreate, CreatedFile, OneMore,
        CanBeOpened, IsLowestFree, Used;
      ghost var s0 := Now();
      k := NONE;
      if nr != 0 {
        return Done(-1), k;
      }
      ghost var f, j;
      var ok, pin;
      ok, pin, f, j := CreatFile(path);
      if !ok {
        return Halted, k;
      }
      k := pin;
      if NameOf(path).Some? { NewFileFacts(sb, s0, Now(), path, k, f, j); }
      if pin == NONE {
        return Done(-1), k;
      }
      OpenShape(sb, s0);
      LowestIsFree(filp, src, fd);
      ghost var s1 := Now();
      files, blocks := files[Padded(NameIn(path)) := f], blocks[f := j];
      out := Install(src, fd, i, flags, pin);
      OpenedNew(sb, s0, s1, Now(), path, k, f, j, src, fd, i, flags);
    }

    method DoOpen(src: nat, path: seq<Byte>, flags: nat) returns (out: Outcome, ghost i: int, ghost k: int)
      requires Valid() && src < Ipc.N && (Creates(flags) ==> |NameIn(path)| < MAX_FILENAME_LEN)
      modifies this, dev.bytes, dev.fsbuf, inodes.slots
      ensures out.Halted? <==> OpenHalts(sb, old(Now()), src, path, flags)
      ensures out.Done? ==> Valid()
      ensures out.Done? ==> if OpenFails(old(files), path, flags) then out.ret == -1 && Now() == old(Now())
                            else Opened(sb, old(Now()), Now(), src, out.ret, path, flags, i, k)
    {
      hide RecordOf, DiskOk, CacheOk, TablesOk, Fits, NameOf, Padded, FilpFull, DescFull, Lookup, HasSlot,
        CanCreate, Opened, NewName, Used, IsLowestFree;
      ghost var s0 := Now();
      i, k := NONE, NONE;
      if |path| >= MAX_PATH {
        return Halted, i, k;
      }
      RootFacts(sb, s0);
      OpenShape(sb, s0);
      var fd := FreeFd(src);
      if fd == NONE {
        return Halted, i, k;
      }
      var e := FreeDesc();
      if e == NONE {
        return Halted, i, k;
      }
      i := e;
      NotFull(filp, desc, src, fd, e);
      var nr := FindFile(path);
      if Creates(flags) {
        out, k := OpenNew(src, fd, e, path, flags, nr);
      } else if ReadsWrites(flags) {
        out, k := OpenOld(src, fd, e, path, flags, nr);
      } else {
        out := Halted;
      }
    }

    method DoClose(src: nat, fd: nat) returns (ret: int)
      requires Valid() && IsSlotOf(filp, src, fd) && filp[src][fd] != NONE
      modifies this, inodes.slots
      ensures Valid() && ret == 0
      ensures Used(old(desc), old(filp)[src][fd]) && Closed(old(Now()), Now(), src, fd)
    {
      hide RecordOf, DiskOk, CacheOk, TablesOk, Opens, RefsOf;
      ghost var s0 := Now();
      CloseFacts(sb, s0, src, fd);
      var i := filp[src][fd];
      inodes.PutInode(desc[i].inode);
      ClosedOk(sb, s0, inodes.slots[..], src, fd);
      desc := desc[i := desc[i].(inode := NONE)];
      filp := filp[src := filp[src][fd := NONE]];
      ret := 0;
    }

    // ----- Unlinking -----

    /** search_file, in a directory in order. */
    method FindFile(path: seq<Byte>) returns (nr: int)
      requires Valid()
      modifies dev.fsbuf
      ensures Valid() && nr == Lookup(files, path)
    {
      hide RecordOf, DiskOk, CacheOk, TablesOk, Refines, Lookup, FindsPath;
      RootFacts(sb, Now());
      LiveSlot(inodes.slots[..], rootInode);
      ghost var d, n := dev.bytes[..], inodes.slots[rootInode].rec.size / DIR_ENTRY_SIZE;
      RefinesRange(d, DataAt(sb), n, files);
      nr := SearchFile(dev, inodes.slots[rootInode].rec.start, inodes.slots[rootInode].rec.size, path);
      FindsIsLookup(d, DataAt(sb), n, files, path, nr);
    }

    /**
     Free the inode in slot k and its block, clear its record and its slot, then its entry in the directory. The result
     is whether there was one among the directory's entries, which the original asserts when all the rest is done.
     */
    method RemoveFile(nr: nat, k: nat, ghost j: nat, ghost r: nat)
      returns (flg: bool, ghost d1: seq<Byte>, ghost d2: seq<Byte>, ghost d3: seq<Byte>, ghost d4: seq<Byte>)
      requires inodes.Beside(dev) && CanFree(sb, dev.bytes[..], inodes.slots[..], rootInode, nr, k, j, r)
      modifies dev.bytes, dev.fsbuf, inodes.slots
      ensures FreedInode(sb, old(dev.bytes[..]), d1, nr) && FreedBlock(sb, d1, d2, j)
      ensures Rewritten(sb, d2, d3, nr, NO_RECORD)
      ensures flg <==> r < old(inodes.slots[rootInode]).rec.size / DIR_ENTRY_SIZE
      ensures EntryGone(sb, d3, d4, dev.bytes[..], old(inodes.slots[..])[k := Inode(NO_RECORD, 0, nr)],
                        inodes.slots[..], rootInode, r, flg)
    {
      hide RecordOf, Fits, AllSet, Cleared, BitAt, ImapOf, SmapOf, SameOutside, Rewritten, EntryWritten, SizeAfter,
        EntryAt, OnlyEntry, FreedInode, FreedBlock;
      ghost var d0 := dev.bytes[..];
      var ok := FreeImapBit(dev, sb, nr);
      assert ok;
      d1 := dev.bytes[..];
      InodeFreed(sb, d0, d1, inodes.slots[..], rootInode, nr, k, j, r);
      ok := FreeSmapBits(dev, sb, inodes.slots[k].rec.start, inodes.slots[k].rec.nrSects);
      assert ok;
      d2 := dev.bytes[..];
      BlockFreed(sb, d1, d2, j);
      inodes.slots[k] := inodes.slots[k].(rec := NO_RECORD);
      inodes.SyncInode(dev, sb, k);
      inodes.PutInode(k);
      d3 := dev.bytes[..];
      FreeKeepsOnly(sb, d0, d1, d2, d3, nr, j, inodes.slots[rootInode].rec.size / DIR_ENTRY_SIZE, r);
      var dirSize := inodes.slots[rootInode].rec.size;
      var newSize;
      flg, newSize := RemoveDirEntry(dev, inodes.slots[rootInode].rec.start, dirSize, nr, r);
      d4 := dev.bytes[..];
      if !flg {
        return;
      }
      SizeShrinks(sb, d4, dirSize, r);
      if newSize != dirSize {
        inodes.slots[rootInode] := inodes.slots[rootInode].(rec := inodes.slots[rootInode].rec.(size := newSize));
        inodes.SyncInode(dev, sb, rootInode);
      }
    }

    /**
     A refused unlink keeps the reference it took. After a successful one the file system is in order exactly when the
     directory was not cut down over a live entry; r is the entry the file had.
     */
    method DoUnlink(path: seq<Byte>) returns (out: Outcome, ghost r: nat)
      requires Valid()
      modifies `files, `blocks, `refused, dev.bytes, dev.fsbuf, inodes.slots
      ensures out.Halted? <==> UnlinkHalts(old(Now()), path)
      ensures out.Done? && !NamesAFile(old(files), path) ==> out.ret == -1 && Valid() && Now() == old(Now())
      ensures out.Done? && NamesAFile(old(files), path) ==>
        if !CanBeRemoved(sb, old(Now()), Lookup(old(files), path))
        then out.ret == -1 && Valid() && Refused(sb, old(Now()), Now(), Lookup(old(files), path))
        else
          && out.ret == 0 && Unlinked(sb, old(Now()), Now(), path, r)
          && (Valid() <==> !CutsDirectory(sb, old(Now()), r))
    {
      hide RecordOf, DiskOk, CacheOk, TablesOk, Fits, NameOf, CString, Lookup, HasSlot, CutsDirectory, CanBeRemoved,
        Refused, Unlinked;
      ghost var s0 := Now();
      r := 0;
      if |path| >= MAX_PATH {
        return Halted, r;
      }
      if CString(path) == [SLASH] {
        return Done(-1), r;
      }
      RootFacts(sb, s0);
      LiveSlot(inodes.slots[..], rootInode);
      var nr := FindFile(path);
      if nr == INVALID_INODE {
        return Done(-1), r;
      }
      out, r := UnlinkInode(nr, path);
    }

    /** Unlink the inode a path names, once it is found. */
    method UnlinkInode(nr: int, ghost path: seq<Byte>) returns (out: Outcome, ghost r: nat)
      requires Valid() && nr == Lookup(files, path) && nr != 0
      modifies `files, `blocks, `refused, dev.bytes, dev.fsbuf, inodes.slots
      ensures out.Halted? <==> !HasSlot(old(inodes.slots[..]), nr)
      ensures out.Done? ==>
        if !CanBeRemoved(sb, old(Now()), nr) then out.ret == -1 && Valid() && Refused(sb, old(Now()), Now(), nr)
        else
          && out.ret == 0 && Unlinked(sb, old(Now()), Now(), path, r)
          && (Valid() <==> !CutsDirectory(sb, old(Now()), r))
    {
      hide RecordOf, DiskOk, CacheOk, TablesOk, Fits, NameOf, Lookup, CutsDirectory, IsFirstFree, OneMore, Live,
        CanBeOpened, CanBeRemoved, Removable, Unlinked, FileRemoved, CanFree, EntryGone, FreedInode, FreedBlock,
        Rewritten, EntryAt;
      ghost var s0 := Now();
      r := 0;
      LookupInUse(sb, s0, path);
      OpenShape(sb, s0);
      var ok, pin := inodes.GetInode(dev, sb, nr);
      if !ok {
        return Halted, r;
      }
      GotFile(sb, s0, inodes.slots[..], nr, pin);
      GotRemovable(sb, s0, inodes.slots[..], nr, pin);
      if inodes.slots[pin].rec.mode != I_REGULAR || inodes.slots[pin].cnt > 1 {
        refused := refused + multiset{nr};
        RefusedOk(sb, s0, Now(), nr, pin);
        return Done(-1), r;
      }
      ghost var key := KeyOf(sb, s0, path);
      r := WhereToRemove(sb, s0, inodes.slots[..], nr, pin, key);
      ghost var u := inodes.slots[..];
      var flg;
      ghost var d1, d2, d3, d4;
      flg, d1, d2, d3, d4 := RemoveFile(nr, pin, s0.blocks[nr], r);
      assert flg;
      AllRemoved(sb, s0, u, d1, d2, d3, d4, dev.bytes[..], inodes.slots[..], nr, pin, key, r);
      files, blocks := files - {key}, blocks - {nr};
      RemovedFromState(sb, s0, Now(), nr, pin, path, r);
      out := Done(0);
    }

    // ----- Reading and writing -----

    /**
     The sectors a transfer on a regular file touches are on the device, and it stays within the range of an int.
     */
    ghost predicate CanTransfer(src: int, fd: int, isRead: bool, len: nat)
      reads this, inodes.slots, dev.bytes
    {
      MovesBytes(Now(), src, fd) ==> TransferFits(dev, RecordAt(Now(), src, fd), PosAt(Now(), src, fd), isRead, len)
    }

    /**
     A READ always starts at the beginning of the file; either way the position advances by what was moved, and where
     it ends at or behind the file's size that becomes the new size.
     */
    method DoRdwt(src: nat, fd: nat, isRead: bool, len: nat, data: seq<Byte>) returns (out: Outcome, bytes: seq<Byte>)
      requires Valid() && IsSlotOf(filp, src, fd) && CanTransfer(src, fd, isRead, len) && (isRead || |data| == len)
      modifies this, dev.bytes, dev.fsbuf, inodes.slots
      ensures Valid()
      ensures Transferred(sb, old(Now()), Now(), src, fd, isRead, len, data, dev.fsbuf.Length / SECTOR_SIZE, out, bytes)
    {
      hide RecordOf, DiskOk, CacheOk, TablesOk, Fits, ReadFile, WroteFile, CanBeOpened, Moved;
      ghost var s0 := Now();
      bytes := [];
      var i := filp[src][fd];
      if i == NONE {
        return Halted, bytes;
      }
      CloseFacts(sb, s0, src, fd);
      if !ReadsWrites(desc[i].mode) {
        return Done(-1), bytes;
      }
      var k := desc[i].inode;
      OpenFileKinds(sb, s0, i);
      if TypeOf(inodes.slots[k].rec.mode) == I_CHAR_SPECIAL {
        assert Major(inodes.slots[k].rec.start) == DEV_CHAR_TTY;
        return Done(len), bytes;
      }
      assert inodes.slots[k].rec.mode == I_REGULAR;
      var n;
      n, bytes := MoveBytes(src, fd, i, k, isRead, len, data);
      out := Done(n);
    }

    method MoveBytes(src: nat, fd: nat, i: nat, k: nat, isRead: bool, len: nat, data: seq<Byte>)
      returns (n: nat, bytes: seq<Byte>)
      requires Valid() && MovesBytes(Now(), src, fd) && i == filp[src][fd] && k == desc[i].inode
      requires TransferFits(dev, inodes.slots[k].rec, desc[i].pos, isRead, len) && (isRead || |data| == len)
      modifies this, dev.bytes, dev.fsbuf, inodes.slots
      ensures Valid()
      ensures if isRead then ReadFile(sb, old(Now()), Now(), src, fd, len, dev.fsbuf.Length / SECTOR_SIZE, n, bytes)
              else && IsWritten(old(Now()), src, fd, len, dev.fsbuf.Length / SECTOR_SIZE, n)
                   && WroteFile(sb, old(Now()), Now(), src, fd, data[..n])
    {
      hide RecordOf, DiskOk, CacheOk, TablesOk, Fits, TransferFits, MovesBytes, Moved, Patch, Rewritten, Advanced;
      ghost var s0 := Now();
      OpenSlot(sb, s0, src, fd);
      FitsOnDevice(dev, inodes.slots[k].rec, desc[i].pos, isRead, len);
      var r := inodes.slots[k].rec;
      var pos: nat := if isRead then 0 else desc[i].pos;
      n, bytes := Transfer(dev, isRead, r.start, pos, len, data, PosEnd(isRead, pos, len, r.size, r.nrSects));
      ghost var e := dev.bytes[..];
      AfterTransfer(sb, s0, e, src, fd, r, desc[i].pos, dev.fsbuf.Length / SECTOR_SIZE, isRead, len, data, n, bytes);
      Advance(src, fd, i, k, n, s0);
      AfterAdvance(sb, s0, e, Now(), src, fd, n);
    }

    /** Move the position on, and the size of the file with it where the position has reached it. */
    method Advance(src: nat, fd: nat, i: nat, k: nat, n: nat, ghost s: State)
      requires inodes.Beside(dev) && Fits(sb, dev.bytes.Length) && inodes.slots.Length == NR_INODE && k < NR_INODE
      requires i < |desc|
      requires Now() == s.(disk := dev.bytes[..]) && MovesBytes(s, src, fd) && i == filp[src][fd] && k == desc[i].inode
      requires IsInodeNr(inodes.slots[k].num) && 0 <= desc[i].pos + n < WORD
      modifies `desc, dev.bytes, dev.fsbuf, inodes.slots
      ensures Advanced(sb, s, old(dev.bytes[..]), Now(), src, fd, n)
    {
      hide Rewritten, Fits;
      desc := desc[i := desc[i].(pos := desc[i].pos + n)];
      if desc[i].pos >= inodes.slots[k].rec.size {
        inodes.slots[k] := inodes.slots[k].(rec := inodes.slots[k].rec.(size := desc[i].pos));
        inodes.SyncInode(dev, sb, k);
      }
    }

    // ----- Creating -----

    /** An inode that is not in use, in a new slot of the table and, as a regular file, on the device. */
    method NewInode(inodeNr: int, startSect: U32) returns (ok: bool, k: int)
      requires inodes.Beside(dev) && CacheOk(inodes.slots[..], sb, dev.bytes[..]) && IsInodeNr(inodeNr)
      requires forall i :: !Live(inodes.slots[..], i, inodeNr)
      modifies dev.bytes, dev.fsbuf, inodes.slots
      ensures ok <==> exists q :: IsFirstFree(old(inodes.slots[..]), q)
      ensures !ok ==> dev.bytes[..] == old(dev.bytes[..])
      ensures ok ==> var r := Record(I_REGULAR, 0, startSect, NR_DEFAULT_FILE_SECTS);
        && 0 <= k < NR_INODE && inodes.slots[..] == old(inodes.slots[..])[k := Inode(r, 1, inodeNr)]
        && Rewritten(sb, old(dev.bytes[..]), dev.bytes[..], inodeNr, r) && CacheOk(inodes.slots[..], sb, dev.bytes[..])
        && OneMore(old(inodes.slots[..]), inodes.slots[..], inodeNr, k)
    {
      hide RecordOf, Rewritten, Fits;
      ghost var t, d := inodes.slots[..], dev.bytes[..];
      ok, k := inodes.GetInode(dev, sb, inodeNr);
      if !ok {
        return;
      }
      ghost var u := inodes.slots[..];
      GotKeepsCache(t, u, sb, d, inodeNr, k);
      GotIsOneMore(t, sb, d, u, inodeNr, k);
      var r := Record(I_REGULAR, 0, startSect, NR_DEFAULT_FILE_SECTS);
      inodes.slots[k] := Inode(r, 1, inodeNr);
      inodes.SyncInode(dev, sb, k);
      RewriteKeepsCache(u, sb, d, dev.bytes[..], k, r);
      assert inodes.slots[..] == u[k := u[k].(rec := r)];
    }

    /** Add a name to the directory and bring the directory's inode up to date; e is the device in between. */
    method AddName(inodeNr: int, filename: Name, ghost m: map<Name, int>)
      returns (ghost e: seq<Byte>, ghost size: U32, ghost x: nat)
      requires inodes.Beside(dev) && CacheOk(inodes.slots[..], sb, dev.bytes[..])
      requires IsDirectory(sb, dev.bytes[..], inodes.slots[..], rootInode, m)
      requires 0 < |filename| < MAX_FILENAME_LEN && 0 !in filename && Padded(filename) !in m
      requires 0 < inodeNr < WORD && forall y :: y in m ==> m[y] != inodeNr
      modifies dev.bytes, dev.fsbuf, inodes.slots
      ensures NameAdded(sb, old(dev.bytes[..]), e, dev.bytes[..], old(inodes.slots[..]), inodes.slots[..],
                        rootInode, size, m[Padded(filename) := inodeNr])
      ensures EntryPlaced(old(dev.bytes[..]), e, DataAt(sb), old(inodes.slots[rootInode].rec.size) / DIR_ENTRY_SIZE,
                          size / DIR_ENTRY_SIZE, Entry(inodeNr, Padded(filename)), x)
      ensures CacheOk(inodes.slots[..], sb, dev.bytes[..])
    {
      hide RecordOf, Rewritten, Fits, Refines, AllLive, Padded, SameOutside, EntryPlaced;
      ghost var t, d := inodes.slots[..], dev.bytes[..];
      var r := inodes.slots[rootInode].rec;
      var newSize;
      newSize, x := NewDirEntry(dev, r.start, r.size, inodeNr, filename, m);
      e, size := dev.bytes[..], newSize;
      DirectoryRange(sb, d, t, rootInode, m);
      ElsewhereKeepsCache(t, sb, d, e, DataAt(sb), DataAt(sb) + MAX_ENTRIES * DIR_ENTRY_SIZE);
      inodes.slots[rootInode] := inodes.slots[rootInode].(rec := r.(size := newSize));
      inodes.SyncInode(dev, sb, rootInode);
      RewriteKeepsCache(t, sb, e, dev.bytes[..], rootInode, r.(size := newSize));
    }

    /** creat_file: `k` is the new inode's slot, or NONE where the path has no name; not `ok` stands for a halt. */
    method CreatFile(path: seq<Byte>) returns (ok: bool, k: int, ghost f: nat, ghost j: nat)
      requires Valid() && Lookup(files, path) == 0 && |NameIn(path)| < MAX_FILENAME_LEN
      modifies dev.bytes, dev.fsbuf, inodes.slots
      ensures NameOf(path) == None ==> ok && k == NONE && Now() == old(Now())
      ensures NameOf(path).Some? ==> (ok <==> CanCreate(sb, old(Now())))
      ensures ok && NameOf(path).Some? ==> CreatedFile(sb, old(Now()), Now(), NameIn(path), k, f, j)
    {
      hide RecordOf, DiskOk, CacheOk, TablesOk, Fits, NameOf, Padded, SameOutside, Rewritten, OneMore, IsFirstFree,
        AllSet, RunFits, IsFirstClear, Marked, ImapOf, SmapOf,
        Lookup, InUse, Held, CreatedFile, NameAdded, TookInode, EntryPlaced;
      ghost var s0 := Now();
      f, j, ok, k := 0, 0, true, NONE;
      var name := StripPath(path);
      if name == None {
        return;
      }
      RootFacts(sb, s0);
      var inodeNr := AllocImapBit(dev, sb);
      ghost var d1 := dev.bytes[..];
      AfterInode(sb, s0, d1, inodeNr);
      var free;
      ok, free := AllocSmapBit(dev, sb, NR_DEFAULT_FILE_SECTS);
      ghost var d2 := dev.bytes[..];
      AfterBlock(sb, s0, d1, d2, ok, free);
      if !ok || inodeNr == 0 {
        return false, NONE, 0, 0;
      }
      ok, k := NewInode(inodeNr, free);
      if !ok {
        return;
      }
      ghost var d3, u, g := dev.bytes[..], inodes.slots[..], free - sb.n1stSect + 1;
      BeforeName(sb, s0, d1, d2, d3, inodeNr, g, u, k, path);
      f, j := inodeNr, BlockOf(g);
      ghost var d4, size, x := AddName(inodeNr, name.value, files);
      AfterName(sb, s0, d1, d2, d3, d4, Now(), f, g, u, k, size, name.value, x);
    }
  }
}
