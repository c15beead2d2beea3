/** Sequences of file system calls, and what stays true over all of them. */
module FsRuns {
  import opened Bytes
  import opened Layout
  import opened Directory
  import opened Inodes
  import opened FsInv
  import opened Descriptors
  import opened FsState
  import opened FsCalls

  datatype Call =
    | Open(src: nat, path: seq<Byte>, flags: nat)
    | Close(src: nat, fd: nat)
    | Unlink(path: seq<Byte>)
    | Transfer(src: nat, fd: nat, isRead: bool, len: nat, data: seq<Byte>)

  /** What a call that does not halt does, as the methods of the file system promise it. */
  ghost predicate Step(sb: SuperBlock, capacity: nat, s: State, c: Call, s': State) {
    match c
    case Open(src, path, flags) =>
      if OpenFails(s.files, path, flags) then s' == s
      else exists fd: int, i: int, k: int :: Opened(sb, s, s', src, fd, path, flags, i, k)
    case Close(src, fd) => Closed(s, s', src, fd)
    case Unlink(path) =>
      if !NamesAFile(s.files, path) then s' == s
      else if !CanBeRemoved(sb, s, Lookup(s.files, path)) then Refused(sb, s, s', Lookup(s.files, path))
      else exists r: nat :: Unlinked(sb, s, s', path, r)
    case Transfer(src, fd, isRead, len, data) =>
      exists out: Outcome, bytes: seq<Byte> :: Transferred(sb, s, s', src, fd, isRead, len, data, capacity, out, bytes)
  }

  /** Calls one after the other, with the file system in order all along. */
  ghost predicate IsRun(sb: SuperBlock, capacity: nat, ss: seq<State>, cs: seq<Call>) {
    && |ss| == |cs| + 1 && (forall i :: 0 <= i < |ss| ==> FsOk(sb, ss[i]))
    && forall i :: 0 <= i < |cs| ==> Step(sb, capacity, ss[i], cs[i], ss[i + 1])
  }

  lemma RefusedGrows(sb: SuperBlock, capacity: nat, s: State, c: Call, s': State)
    requires Step(sb, capacity, s, c, s')
    ensures s.refused <= s'.refused
  {
    hide CreatedFile, OneMore, Lookup, NameOf, Padded, Removed, SizeAfter, RecordOf, CanBeRemoved;
  }

  /** An inode whose unlinking was refused once can never be removed again, whatever is called, and stays in use. */
  lemma {:induction false} RefusedForever(sb: SuperBlock, capacity: nat, ss: seq<State>, cs: seq<Call>, nr: int)
    requires IsRun(sb, capacity, ss, cs) && nr in ss[0].refused
    ensures ss[0].refused <= ss[|cs|].refused
    ensures InUse(ss[|cs|].files, nr) && !CanBeRemoved(sb, ss[|cs|], nr)
    decreases |cs|
  {
    hide Step, FsOk;
    if cs != [] {
      var n := |cs| - 1;
      RefusedForever(sb, capacity, ss[..n + 1], cs[..n], nr);
      assert Step(sb, capacity, ss[n], cs[n], ss[n + 1]);
      RefusedGrows(sb, capacity, ss[n], cs[n], ss[n + 1]);
    }
    RefusedIsLive(sb, ss[|cs|], nr);
  }

  lemma RefusedIsLive(sb: SuperBlock, s: State, nr: int)
    requires FsOk(sb, s) && nr in s.refused
    ensures InUse(s.files, nr) && !CanBeRemoved(sb, s, nr)
  {
    hide DiskOk, CacheOk, FilpOk, RecordOf, InUse;
    var k :| Live(s.table, k, nr);
  }
}
