/** The whole state of the file system between requests, what is true of it, and the steps that keep it so. */
module FsState {
  import opened Bytes
  import opened Device
  import opened Layout
  import opened Maps
  import opened Extents
  import opened Inodes
  import opened SuperBlocks
  import opened Directory
  import opened FsInv
  import opened Descriptors

  datatype State = State(disk: seq<Byte>, table: seq<Inode>, desc: seq<Desc>, filp: Filp, root: int,
                         files: map<Name, int>, blocks: map<int, nat>, refused: multiset<int>)

  /** The tables in memory agree with the device, with each other and with the descriptors the processes hold. */
  ghost predicate TablesOk(s: State) {
    && Live(s.table, s.root, ROOT_INODE) && SlotsInUse(s.table, s.files)
    && RefsOk(s.table, s.desc, s.refused) && FilpOk(s.filp, s.desc)
    && PositionsOk(s.table, s.desc, s.root)
  }

  ghost predicate FsOk(sb: SuperBlock, s: State) {
    DiskOk(sb, s.disk, s.files, s.blocks) && CacheOk(s.table, sb, s.disk) && TablesOk(s)
  }

  // ----- Steps of the tables -----

  /** A descriptor is opened on inode num, other than the root, which is in use by now. */
  lemma OpenKeepsTables(s: State, s': State, num: int, k: int, p: int, fd: int, i: nat, x: Desc)
    requires TablesOk(s) && OneMore(s.table, s'.table, num, k) && num != ROOT_INODE && InUse(s'.files, num)
    requires forall m :: InUse(s.files, m) ==> InUse(s'.files, m)
    requires Holds(s.filp, p, fd, NONE) && i < |s.desc| && !Used(s.desc, i) && x.inode == k
    requires 0 <= k < |s'.table| && 0 <= x.pos <= s'.table[k].rec.size
    requires s'.desc == s.desc[i := x] && s'.filp == s.filp[p := s.filp[p][fd := i]]
    requires s'.root == s.root && s'.refused == s.refused
    ensures TablesOk(s')
  {
    hide RefsOk, FilpOk, InUse;
    OpenKeepsRefs(s.table, s'.table, s.desc, s.refused, num, k, i, x, s.root);
    OpenKeepsFilp(s.filp, s.desc, p, fd, i, x);
    forall j | 0 <= j < |s'.table| && s'.table[j].cnt > 0 ensures InUse(s'.files, s'.table[j].num) {
      if j != k { assert SameRef(s'.table[j], s.table[j]); }
    }
    forall j | Used(s.desc, j) ensures s'.table[s.desc[j].inode].rec.size >= s.table[s.desc[j].inode].rec.size {
      UsedIsLive(s.table, s.desc, s.refused, j);
    }
    assert forall j :: Used(s'.desc, j) && j != i ==> Used(s.desc, j);
  }

  lemma CloseKeepsTables(s: State, s': State, p: int, fd: int, i: nat, k: nat)
    requires TablesOk(s) && Holds(s.filp, p, fd, i) && i < |s.desc| && s.desc[i].inode == k < |s.table|
    requires s' == s.(table := s.table[k := s.table[k].(cnt := s.table[k].cnt - 1)],
                      desc := s.desc[i := s.desc[i].(inode := NONE)], filp := s.filp[p := s.filp[p][fd := NONE]])
    ensures s.table[k].cnt > 0 && TablesOk(s')
  {
    hide RefsOk, FilpOk, InUse;
    CloseKeepsRefs(s.table, s'.table, s.desc, s.refused, i, k, s.root);
    CloseKeepsFilp(s.filp, s.desc, p, fd, i);
  }

  lemma RefuseKeepsTables(s: State, s': State, num: int, k: int)
    requires TablesOk(s) && OneMore(s.table, s'.table, num, k) && InUse(s.files, num)
    requires s' == s.(table := s'.table, refused := s.refused + multiset{num})
    ensures TablesOk(s')
  {
    hide RefsOk, FilpOk, InUse;
    RefuseKeepsRefs(s.table, s'.table, s.desc, s.refused, num, k, s.root);
    forall j | 0 <= j < |s'.table| && s'.table[j].cnt > 0 ensures InUse(s'.files, s'.table[j].num) {
      if j != k { assert SameRef(s'.table[j], s.table[j]); }
    }
    forall j | Used(s.desc, j) ensures s'.table[s.desc[j].inode].rec.size >= s.table[s.desc[j].inode].rec.size {
      UsedIsLive(s.table, s.desc, s.refused, j);
    }
  }

  /** The slot used for a removal is free again, and nothing else about the tables has changed. */
  lemma RemoveKeepsTables(s: State, s': State, num: int, k: int)
    requires TablesOk(s) && |s'.table| == |s.table| && 0 <= k < |s.table| && s.table[k].cnt == 0 && s'.table[k].cnt == 0
    requires forall i :: 0 <= i < |s.table| && i != k ==>
      SameCount(s'.table[i], s.table[i]) && (i != s.root ==> SameRef(s'.table[i], s.table[i]))
    requires forall i :: !Live(s.table, i, num)
    requires forall m :: InUse(s.files, m) && m != num ==> InUse(s'.files, m)
    requires s'.desc == s.desc && s'.filp == s.filp && s'.root == s.root && s'.refused == s.refused
    ensures TablesOk(s')
  {
    hide FilpOk, InUse, Opens;
    forall i | 0 <= i < |s.table| ensures RefsOf(s'.table[i], i, s.desc, s.refused) {
      assert RefsOf(s.table[i], i, s.desc, s.refused);
      assert i != k ==> SameCount(s'.table[i], s.table[i]);
    }
    forall m | m in s.refused ensures exists i :: Live(s'.table, i, m) {
      var i :| Live(s.table, i, m);
      assert Live(s'.table, i, m);
    }
    forall j | 0 <= j < |s'.table| && s'.table[j].cnt > 0 ensures InUse(s'.files, s'.table[j].num) {
      assert SameCount(s'.table[j], s.table[j]) && !Live(s.table, j, num);
    }
    forall j | Used(s.desc, j) ensures SameRef(s'.table[s.desc[j].inode], s.table[s.desc[j].inode]) {
      UsedIsLive(s.table, s.desc, s.refused, j);
    }
  }

  /** Moving a file position and changing a record leaves the references as they are. */
  lemma MoveKeepsTables(s: State, s': State, i: nat, x: Desc)
    requires TablesOk(s) && i < |s.desc| && Used(s.desc, i) && x.inode == s.desc[i].inode
    requires |s'.table| == |s.table| && forall k :: 0 <= k < |s.table| ==> SameRef(s'.table[k], s.table[k])
    requires s' == s.(disk := s'.disk, table := s'.table, desc := s.desc[i := x])
    requires 0 <= x.inode < |s.table| ==> 0 <= x.pos <= s'.table[x.inode].rec.size
    ensures TablesOk(s')
  {
    hide InUse, Opens;
    forall k | 0 <= k < |s.table| ensures RefsOf(s'.table[k], k, s'.desc, s.refused) {
      OpensUpdate(s.desc, i, x, k);
      assert RefsOf(s.table[k], k, s.desc, s.refused);
    }
    forall m | m in s.refused ensures exists k :: Live(s'.table, k, m) {
      var k :| Live(s.table, k, m);
      assert Live(s'.table, k, m);
    }
    assert forall k :: Used(s'.desc, k) <==> Used(s.desc, k);
  }

  // ----- What the invariant means -----

  /** A file that is open stays: its inode is in use and its record, as cached, is the one on the device. */
  lemma OpenFilesExist(sb: SuperBlock, s: State, i: int)
    requires FsOk(sb, s) && Used(s.desc, i)
    ensures var k := s.desc[i].inode;
      && 0 <= k < |s.table| && s.table[k].cnt > 0 && InUse(s.files, s.table[k].num) && s.table[k].num != ROOT_INODE
      && s.table[k].rec == RecordOf(sb, s.disk, s.table[k].num)
  {
    hide RecordOf, DiskOk, Opens, InUse;
    var k := s.desc[i].inode;
    OpensPositive(s.desc, k);
    assert RefsOf(s.table[k], k, s.desc, s.refused);
    assert k != s.root;
  }

  /** What the code relies on about the root directory. */
  lemma RootFacts(sb: SuperBlock, s: State)
    requires FsOk(sb, s)
    ensures Live(s.table, s.root, ROOT_INODE) && |s.table| == NR_INODE && Fits(sb, |s.disk|)
    ensures var r := s.table[s.root].rec;
      && r == RecordOf(sb, s.disk, ROOT_INODE) && RootOk(sb, r) && r.start * SECTOR_SIZE == DataAt(sb)
      && Refines(s.disk, DataAt(sb), r.size / DIR_ENTRY_SIZE, s.files) && r.size / DIR_ENTRY_SIZE < MAX_ENTRIES
  {
    hide SuperAt, RecordOf, Refines, HoldsBlocks, ImapMarks, ExtentsOk, RefsOk, FilpOk;
  }

  lemma LookupInUse(sb: SuperBlock, s: State, path: seq<Byte>)
    requires FsOk(sb, s)
    ensures var nr := Lookup(s.files, path); nr != 0 ==> InUse(s.files, nr) && IsInodeNr(nr) && nr < BITS
  {
    hide SuperAt, RecordOf, Refines, HoldsBlocks, RefsOk, FilpOk, NameOf, Padded, HasExtent, IsTerminal, BitAt;
    assert InUse(s.files, ROOT_INODE);
    match NameOf(path)
    case None =>
    case Some(n) =>
      if n != [] && |n| <= MAX_FILENAME_LEN && Padded(n) in s.files { assert InUse(s.files, s.files[Padded(n)]); }
  }
}
