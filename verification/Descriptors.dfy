/**
 Open files: the table of file descriptions, the processes' pointers into it, and how the reference counts of the
 inode table are made up.
 */
module Descriptors {
  import Ipc
  import opened Inodes
  import opened FsInv
  import opened Directory

  const NR_FILES: nat := 64
  const NR_FILE_DESC: nat := 64
  const NONE: int := -1

  /** An entry of f_desc_table; `inode` is a slot of the inode table, or NONE for the null pointer. */
  datatype Desc = Desc(mode: nat, pos: int, inode: int)

  const UNUSED: Desc := Desc(0, 0, NONE)

  type Filp = seq<seq<int>>

  /** The tables as they start: no entry used, no descriptor open. */
  function NoDescs(): seq<Desc> { seq(NR_FILE_DESC, _ => UNUSED) }

  function NoFilps(): Filp { seq(Ipc.N, _ => seq(NR_FILES, _ => NONE)) }

  predicate IsSlotOf(filp: Filp, p: int, fd: int) {
    0 <= p < |filp| && 0 <= fd < |filp[p]|
  }

  /** File descriptor fd of process p stands for entry i of the table. */
  ghost predicate Holds(filp: Filp, p: int, fd: int, i: int) {
    IsSlotOf(filp, p, fd) && filp[p][fd] == i
  }

  ghost predicate Used(desc: seq<Desc>, i: int) {
    0 <= i < |desc| && desc[i].inode != NONE
  }

  ghost predicate FilpShape(filp: Filp) {
    |filp| == Ipc.N && forall p :: 0 <= p < |filp| ==> |filp[p]| == NR_FILES
  }

  /** Every pointer of a process leads to a used entry, and every used entry is held by exactly one pointer. */
  ghost predicate FilpOk(filp: Filp, desc: seq<Desc>) {
    && FilpShape(filp) && |desc| == NR_FILE_DESC
    && (forall p, fd, i :: Holds(filp, p, fd, i) && i != NONE ==> Used(desc, i))
    && (forall p, fd, q, gd, i :: Holds(filp, p, fd, i) && Holds(filp, q, gd, i) && i != NONE ==> p == q && fd == gd)
    && (forall i :: Used(desc, i) ==> exists p, fd :: Holds(filp, p, fd, i))
  }

  /** Pointing a free descriptor of a process at a free entry. */
  lemma OpenKeepsFilp(filp: Filp, desc: seq<Desc>, p: int, fd: int, i: int, x: Desc)
    requires FilpOk(filp, desc) && Holds(filp, p, fd, NONE) && 0 <= i < |desc| && !Used(desc, i) && x.inode != NONE
    ensures FilpOk(filp[p := filp[p][fd := i]], desc[i := x])
  {
    var filp', desc' := filp[p := filp[p][fd := i]], desc[i := x];
    forall q, gd, k ensures Holds(filp', q, gd, k) <==> if q == p && gd == fd then k == i else Holds(filp, q, gd, k) {}
    forall k | Used(desc', k) ensures exists q, gd :: Holds(filp', q, gd, k) {
      if k == i {
        assert Holds(filp', p, fd, i);
      } else {
        assert Used(desc, k);
        var q, gd :| Holds(filp, q, gd, k);
        assert Holds(filp', q, gd, k);
      }
    }
  }

  /** Closing a descriptor frees exactly the entry it held. */
  lemma CloseKeepsFilp(filp: Filp, desc: seq<Desc>, p: int, fd: int, i: int)
    requires FilpOk(filp, desc) && Holds(filp, p, fd, i) && i != NONE
    ensures Used(desc, i) && FilpOk(filp[p := filp[p][fd := NONE]], desc[i := desc[i].(inode := NONE)])
  {
    var filp', desc' := filp[p := filp[p][fd := NONE]], desc[i := desc[i].(inode := NONE)];
    forall q, gd, k ensures Holds(filp', q, gd, k) <==>
      if q == p && gd == fd then k == NONE else Holds(filp, q, gd, k) {}
    forall k | Used(desc', k) ensures exists q, gd :: Holds(filp', q, gd, k) {
      assert Used(desc, k) && k != i;
      var q, gd :| Holds(filp, q, gd, k);
      assert Holds(filp', q, gd, k);
    }
  }

  // ----- Reference counts -----

  /** How many descriptors are open on a slot of the inode table. */
  ghost function Opens(desc: seq<Desc>, slot: int): nat {
    if desc == [] then 0 else Opens(desc[..|desc| - 1], slot) + if desc[|desc| - 1].inode == slot then 1 else 0
  }

  lemma {:induction false} OpensUpdate(desc: seq<Desc>, i: nat, x: Desc, slot: int)
    requires i < |desc|
    ensures Opens(desc[i := x], slot)
      == Opens(desc, slot) - (if desc[i].inode == slot then 1 else 0) + (if x.inode == slot then 1 else 0)
    decreases |desc|
  {
    var n := |desc| - 1;
    if i == n {
      assert desc[i := x][..n] == desc[..n];
    } else {
      assert desc[i := x][..n] == desc[..n][i := x];
      OpensUpdate(desc[..n], i, x, slot);
    }
  }

  lemma {:induction false} OpensPositive(desc: seq<Desc>, slot: int)
    ensures Opens(desc, slot) > 0 <==> exists i :: 0 <= i < |desc| && desc[i].inode == slot
    decreases |desc|
  {
    if desc != [] {
      var n := |desc| - 1;
      OpensPositive(desc[..n], slot);
      if i :| 0 <= i < n && desc[..n][i].inode == slot {
        assert desc[i].inode == slot;
      }
      if i :| 0 <= i < |desc| && desc[i].inode == slot {
        assert i < n ==> desc[..n][i].inode == slot;
      }
    }
  }

  ghost function RootRef(num: int): nat { if num == ROOT_INODE then 1 else 0 }

  /** What the reference count of one slot of the inode table is made up of. */
  ghost predicate RefsOf(x: Inode, slot: int, desc: seq<Desc>, refused: multiset<int>) {
    if x.cnt > 0 then x.cnt == Opens(desc, slot) + refused[x.num] + RootRef(x.num) else Opens(desc, slot) == 0
  }

  /** `refused` counts, for every inode, the refused unlinks that each kept a reference. */
  ghost predicate RefsOk(t: seq<Inode>, desc: seq<Desc>, refused: multiset<int>) {
    && (forall k :: 0 <= k < |t| ==> RefsOf(t[k], k, desc, refused))
    && (forall i :: 0 <= i < |desc| ==> NONE <= desc[i].inode < |t|)
    && (forall num :: num in refused ==> exists k :: Live(t, k, num))
  }

  /** Every live slot is for an inode in use. */
  ghost predicate SlotsInUse(t: seq<Inode>, files: map<Name, int>) {
    forall k :: 0 <= k < |t| && t[k].cnt > 0 ==> InUse(files, t[k].num)
  }

  ghost predicate SameCount(x: Inode, y: Inode) { x.cnt == y.cnt && x.num == y.num }

  /** x is y with the same references, and at least as long. */
  ghost predicate SameRef(x: Inode, y: Inode) { SameCount(x, y) && x.rec.size >= y.rec.size }

  /** In its counts, u is t with one more reference to inode num, at slot k. */
  ghost predicate OneMore(t: seq<Inode>, u: seq<Inode>, num: int, k: int) {
    && |u| == |t| && 0 <= k < |t| && (forall i :: 0 <= i < |t| && i != k ==> SameRef(u[i], t[i]))
    && u[k].num == num && u[k].cnt == t[k].cnt + 1 > 0
    && (t[k].cnt > 0 ==> t[k].num == num && u[k].rec.size >= t[k].rec.size)
    && (forall i :: i != k ==> !Live(t, i, num))
  }

  lemma GotIsOneMore(t: seq<Inode>, sb: Layout.SuperBlock, d: seq<Bytes.Byte>, u: seq<Inode>, num: int, k: int)
    requires CacheOk(t, sb, d) && Got(t, u, sb, d, num, k)
    ensures OneMore(t, u, num, k)
  {
    hide RecordOf;
    assert (exists i :: Live(t, i, num)) ==> Live(t, k, num);
    forall i | i != k ensures !Live(t, i, num) {}
  }

  lemma OpenKeepsRefsOf(x: Inode, y: Inode, slot: int, desc: seq<Desc>, refused: multiset<int>, num: int, k: int,
                        i: nat, z: Desc)
    requires RefsOf(x, slot, desc, refused) && i < |desc| && desc[i].inode == NONE && z.inode == k && slot >= 0
    requires if slot == k then y.num == num && y.cnt == x.cnt + 1 > 0
      && (x.cnt > 0 ==> x.num == num) else SameCount(y, x)
    requires slot == k && x.cnt == 0 ==> num != ROOT_INODE && num !in refused
    ensures RefsOf(y, slot, desc[i := z], refused)
  {
    hide Opens;
    OpensUpdate(desc, i, z, slot);
  }

  /** A new descriptor accounts for a new reference. */
  lemma OpenKeepsRefs(t: seq<Inode>, u: seq<Inode>, desc: seq<Desc>, refused: multiset<int>, num: int, k: int,
                      i: nat, x: Desc, root: int)
    requires RefsOk(t, desc, refused) && OneMore(t, u, num, k) && Live(t, root, ROOT_INODE)
    requires i < |desc| && desc[i].inode == NONE && x.inode == k
    ensures RefsOk(u, desc[i := x], refused) && Live(u, root, ROOT_INODE)
  {
    hide RefsOf;
    NewSlotIsFresh(t, u, desc, refused, num, k, root);
    var desc' := desc[i := x];
    forall j | 0 <= j < |u| ensures RefsOf(u[j], j, desc', refused) {
      OpenKeepsRefsOf(t[j], u[j], j, desc, refused, num, k, i, x);
    }
    MoreIsLive(t, u, num, k, refused);
    assert forall m :: m in refused ==> m in refused + multiset{num};
  }

  lemma NewSlotIsFresh(t: seq<Inode>, u: seq<Inode>, desc: seq<Desc>, refused: multiset<int>, num: int, k: int,
                       root: int)
    requires RefsOk(t, desc, refused) && OneMore(t, u, num, k) && Live(t, root, ROOT_INODE)
    ensures t[k].cnt == 0 ==> num != ROOT_INODE && num !in refused
  {
    hide Opens;
    if t[k].cnt == 0 {
      forall i ensures !Live(t, i, num) {}
    }
  }

  lemma MoreIsLive(t: seq<Inode>, u: seq<Inode>, num: int, k: int, refused: multiset<int>)
    requires OneMore(t, u, num, k) && forall m :: m in refused ==> exists j :: Live(t, j, m)
    ensures forall m :: m in refused + multiset{num} ==> exists j :: Live(u, j, m)
  {
    forall m | m in refused + multiset{num} ensures exists j :: Live(u, j, m) {
      if m == num {
        assert Live(u, k, num);
      } else {
        var j :| Live(t, j, m);
        assert Live(u, j, m);
      }
    }
  }

  /** A refused unlink accounts for a new reference. */
  lemma RefuseKeepsRefs(t: seq<Inode>, u: seq<Inode>, desc: seq<Desc>, refused: multiset<int>, num: int, k: int,
                        root: int)
    requires RefsOk(t, desc, refused) && OneMore(t, u, num, k) && Live(t, root, ROOT_INODE)
    ensures RefsOk(u, desc, refused + multiset{num}) && Live(u, root, ROOT_INODE)
  {
    hide Opens;
    NewSlotIsFresh(t, u, desc, refused, num, k, root);
    forall j | 0 <= j < |u| ensures RefsOf(u[j], j, desc, refused + multiset{num}) {
      assert RefsOf(t[j], j, desc, refused);
      assert j != k ==> !Live(t, j, num);
    }
    MoreIsLive(t, u, num, k, refused);
  }

  /** Closing gives up the reference of the descriptor. */
  lemma CloseKeepsRefs(t: seq<Inode>, u: seq<Inode>, desc: seq<Desc>, refused: multiset<int>, i: nat, k: nat, root: int)
    requires RefsOk(t, desc, refused) && Live(t, root, ROOT_INODE)
    requires i < |desc| && desc[i].inode == k < |t| && u == t[k := t[k].(cnt := t[k].cnt - 1)]
    ensures t[k].cnt > 0 && RefsOk(u, desc[i := desc[i].(inode := NONE)], refused) && Live(u, root, ROOT_INODE)
  {
    hide Opens;
    var x := desc[i].(inode := NONE);
    OpensPositive(desc, k);
    assert RefsOf(t[k], k, desc, refused);
    forall j | 0 <= j < |u| ensures RefsOf(u[j], j, desc[i := x], refused) {
      OpensUpdate(desc, i, x, j);
      assert RefsOf(t[j], j, desc, refused);
    }
    forall m | m in refused ensures exists j :: Live(u, j, m) {
      var j :| Live(t, j, m);
      assert Live(u, j, m);
    }
  }

  /** The slot behind a used entry is live. */
  lemma UsedIsLive(t: seq<Inode>, desc: seq<Desc>, refused: multiset<int>, i: int)
    requires RefsOk(t, desc, refused) && Used(desc, i)
    ensures 0 <= desc[i].inode < |t| && t[desc[i].inode].cnt > 0
  {
    hide Opens;
    OpensPositive(desc, desc[i].inode);
    assert RefsOf(t[desc[i].inode], desc[i].inode, desc, refused);
  }

  /** No descriptor is open on the root, and every position lies in its file. */
  ghost predicate PositionsOk(t: seq<Inode>, desc: seq<Desc>, root: int) {
    forall i :: Used(desc, i) ==>
      var k := desc[i].inode;
      k != root && 0 <= k < |t| && 0 <= desc[i].pos <= t[k].rec.size
  }
}
