/**
 The one directory: an array of 16-byte entries, each an inode number and a 12-byte name, in the extent of the
 root inode. It stands for a finite map from names to inode numbers.
 */
module Directory {
  import opened Wrappers
  import opened Bytes
  import opened Device
  import opened Layout
  import opened Inodes

  const DIR_ENTRY_SIZE: nat := 16
  const MAX_FILENAME_LEN: nat := 12
  const PER_BLOCK: nat := 32
  const MAX_ENTRIES: nat := 65536
  const SLASH: Byte := 0x2F

  type Name = seq<Byte>

  datatype Entry = Entry(nr: int, name: Name)
  const HOLE: Entry := Entry(0, [0, 0, 0, 0, 0, 0, 0, 0, 0, 0, 0, 0])

  // ----- Paths -----

  /** The string in a buffer: what precedes the first zero byte. */
  function CString(s: seq<Byte>): (r: seq<Byte>)
    ensures |r| <= |s| && r == s[..|r|] && (|r| < |s| ==> s[|r|] == 0) && 0 !in r
  {
    if s == [] || s[0] == 0 then [] else [s[0]] + CString(s[1..])
  }

  /** The file name of a path: one leading slash is dropped, at most 12 bytes are kept, and they hold no slash. */
  function NameOf(path: seq<Byte>): Option<Name> {
    var p := CString(path);
    var s := if p != [] && p[0] == SLASH then p[1..] else p;
    var n := if |s| < MAX_FILENAME_LEN then s else s[..MAX_FILENAME_LEN];
    if SLASH in n then None else Some(n)
  }

  /** The name as it stands in an entry. */
  function Padded(n: Name): Name
    requires |n| <= MAX_FILENAME_LEN
  {
    n + seq(MAX_FILENAME_LEN - |n|, _ => 0)
  }

  function ByteAt(path: seq<Byte>, i: nat): Byte { if i < |path| then path[i] else 0 }

  /** Copy the name out of a path, byte by byte, as strip_path does. */
  method StripPath(path: seq<Byte>) returns (name: Option<Name>)
    ensures name == NameOf(path)
  {
    hide CString;
    ghost var p := CString(path);
    assert forall k :: 0 <= k < |p| ==> path[k] == p[k] != 0;
    var s: nat := 0;
    if ByteAt(path, 0) == SLASH {
      s := 1;
    }
    ghost var from := s;
    assert from <= |p|;
    var t: Name := [];
    while ByteAt(path, s) != 0
      invariant from <= s <= |p| && t == p[from..s] && |t| < MAX_FILENAME_LEN && SLASH !in t
      decreases |p| - s
    {
      if ByteAt(path, s) == SLASH {
        assert SLASH == p[from..][s - from];
        return None;
      }
      t := t + [ByteAt(path, s)];
      assert p[from..s + 1] == p[from..s] + [p[s]];
      s := s + 1;
      if |t| >= MAX_FILENAME_LEN {
        assert t == p[from..][..MAX_FILENAME_LEN];
        return Some(t);
      }
    }
    assert t == p[from..];
    return Some(t);
  }

  // ----- What paths name -----

  lemma {:induction false} CStringEnds(p: seq<Byte>, rest: seq<Byte>)
    requires 0 !in p
    ensures CString(p) == p && CString(p + [0] + rest) == p
  {
    if p == [] {
      assert (p + [0] + rest)[0] == 0;
    } else {
      CStringEnds(p[1..], rest);
      assert (p + [0] + rest)[1..] == p[1..] + [0] + rest;
    }
  }

  /** The first bytes of a name, as many as an entry has room for. */
  function Head(n: seq<Byte>): (r: Name)
    ensures |r| <= MAX_FILENAME_LEN && |r| <= |n|
  {
    if |n| <= MAX_FILENAME_LEN then n else n[..MAX_FILENAME_LEN]
  }

  /**
   A path is taken up to its first zero byte. One slash at its start makes no difference; of what follows the first
   twelve bytes are the name, unless a slash is among them. What comes after these twelve is ignored.
   */
  lemma PathsName(n: seq<Byte>, rest: seq<Byte>)
    requires 0 !in n
    ensures NameOf([SLASH] + n) == if SLASH in Head(n) then None else Some(Head(n))
    ensures n == [] || n[0] != SLASH ==> NameOf(n) == NameOf([SLASH] + n)
    ensures NameOf(n + [0] + rest) == NameOf(n)
  {
    hide CString;
    CStringEnds(n, rest);
    NameBehindSlash(n);
    if n != [] && n[0] != SLASH { NameAsItIs(n); }
  }

  lemma NameBehindSlash(n: seq<Byte>)
    requires 0 !in n
    ensures NameOf([SLASH] + n) == if SLASH in Head(n) then None else Some(Head(n))
    ensures n == [] ==> NameOf(n) == Some([])
  {
    CStringEnds([SLASH] + n, []);
    assert ([SLASH] + n)[1..] == n;
    if |n| == MAX_FILENAME_LEN { assert n[..MAX_FILENAME_LEN] == n; }
  }

  lemma NameAsItIs(n: seq<Byte>)
    requires 0 !in n && n != [] && n[0] != SLASH
    ensures NameOf(n) == if SLASH in Head(n) then None else Some(Head(n))
  {
    CStringEnds(n, []);
    if |n| == MAX_FILENAME_LEN { assert n[..MAX_FILENAME_LEN] == n; }
  }

  /** A name is looked up with or without a slash before it; a slash alone, and nothing, name the root. */
  lemma LooksUpName(files: map<Name, int>, n: seq<Byte>)
    requires |n| <= MAX_FILENAME_LEN && 0 !in n && SLASH !in n
    ensures Lookup(files, [SLASH] + n) == Lookup(files, n)
    ensures Lookup(files, n) == if n == [] then 1 else if Padded(n) in files then files[Padded(n)] else 0
  {
    hide NameOf, Padded;
    PathsName(n, []);
  }

  // ----- Entries -----

  /** Entry i of a directory that starts at byte `at` of d; a hole if d ends before it. */
  function EntryAt(d: seq<Byte>, at: nat, i: nat): Entry {
    var p := at + i * DIR_ENTRY_SIZE;
    if p + DIR_ENTRY_SIZE <= |d| then Entry(WordAt(d, p), d[p + 4..p + DIR_ENTRY_SIZE]) else HOLE
  }

  ghost predicate InRange(d: seq<Byte>, at: nat, n: nat) {
    n <= MAX_ENTRIES && at + MAX_ENTRIES * DIR_ENTRY_SIZE <= |d|
  }

  ghost predicate IsLive(d: seq<Byte>, at: nat, n: nat, i: int) {
    0 <= i < n && EntryAt(d, at, i).nr != 0
  }

  ghost predicate ProperName(n: Name) { |n| == MAX_FILENAME_LEN && n[0] != 0 }

  /** Holes, and the unused entries behind the n-th, are zero. */
  ghost predicate HolesZero(d: seq<Byte>, at: nat, n: nat) {
    forall i: nat :: i < MAX_ENTRIES && !IsLive(d, at, n, i) ==> EntryAt(d, at, i) == HOLE
  }

  ghost predicate EntriesMapped(d: seq<Byte>, at: nat, n: nat, m: map<Name, int>) {
    forall i: nat :: IsLive(d, at, n, i) ==>
      var e := EntryAt(d, at, i);
      ProperName(e.name) && e.name in m && m[e.name] == e.nr
  }

  ghost predicate NamesPresent(d: seq<Byte>, at: nat, n: nat, m: map<Name, int>) {
    forall x: Name :: x in m ==> exists i: nat :: IsLive(d, at, n, i) && EntryAt(d, at, i).name == x
  }

  ghost predicate EntriesDistinct(d: seq<Byte>, at: nat, n: nat) {
    forall i: nat, j: nat :: IsLive(d, at, n, i) && IsLive(d, at, n, j) && i != j ==>
      EntryAt(d, at, i).name != EntryAt(d, at, j).name && EntryAt(d, at, i).nr != EntryAt(d, at, j).nr
  }

  /** The first n entries stand for the map m: no name and no inode twice, holes and the unused rest are zero. */
  ghost predicate Refines(d: seq<Byte>, at: nat, n: nat, m: map<Name, int>) {
    && InRange(d, at, n) && HolesZero(d, at, n)
    && EntriesMapped(d, at, n, m) && NamesPresent(d, at, n, m) && EntriesDistinct(d, at, n)
  }

  /** What a lookup of a path finds: 0 for nothing, the root for the empty name. */
  ghost function Lookup(m: map<Name, int>, path: seq<Byte>): int {
    match NameOf(path)
    case None => 0
    case Some(n) => if n == [] then 1 else if |n| <= MAX_FILENAME_LEN && Padded(n) in m then m[Padded(n)] else 0
  }

  lemma NamesAreShort(path: seq<Byte>)
    ensures NameOf(path).Some? ==> |NameOf(path).value| <= MAX_FILENAME_LEN && 0 !in NameOf(path).value
  {
  }

  lemma PaddedAt(a: Name, k: nat)
    requires |a| <= MAX_FILENAME_LEN && k < MAX_FILENAME_LEN
    ensures Padded(a)[k] == if k < |a| then a[k] else 0
  {
  }

  /** Names without zero bytes can be told apart by what stands in their entries. */
  lemma PaddedIsInjective(a: Name, b: Name)
    requires |a| <= MAX_FILENAME_LEN && |b| <= MAX_FILENAME_LEN && 0 !in a && 0 !in b && Padded(a) == Padded(b)
    ensures a == b
  {
    hide Padded;
    if |a| < |b| {
      assert b[|a|] != 0;
      PaddedAt(a, |a|);
      PaddedAt(b, |a|);
    } else if |b| < |a| {
      assert a[|b|] != 0;
      PaddedAt(a, |b|);
      PaddedAt(b, |b|);
    } else {
      forall k | 0 <= k < |a| ensures a[k] == b[k] {
        PaddedAt(a, k);
        PaddedAt(b, k);
      }
    }
  }

  lemma EntryInBlock(d: seq<Byte>, dirStart: nat, x: seq<Byte>, i: nat, j: nat)
    requires InRange(d, dirStart * SECTOR_SIZE, 0) && i < NR_DEFAULT_FILE_SECTS && j < PER_BLOCK
    requires (dirStart + i + 1) * SECTOR_SIZE <= |d|
    requires x == d[(dirStart + i) * SECTOR_SIZE..(dirStart + i) * SECTOR_SIZE + SECTOR_SIZE]
    ensures dirStart * SECTOR_SIZE + (i * PER_BLOCK + j + 1) * DIR_ENTRY_SIZE <= |d|
    ensures EntryAt(x, 0, j) == EntryAt(d, dirStart * SECTOR_SIZE, i * PER_BLOCK + j)
  {
    hide Word;
    EntryPosition(dirStart, i, j);
    var pos, o := (dirStart + i) * SECTOR_SIZE, j * DIR_ENTRY_SIZE;
    SliceOfSlice(d, pos, pos + SECTOR_SIZE, o, o + 4);
    SliceOfSlice(d, pos, pos + SECTOR_SIZE, o + 4, o + DIR_ENTRY_SIZE);
  }

  lemma EntryPosition(dirStart: nat, i: nat, j: nat)
    requires i < NR_DEFAULT_FILE_SECTS && j < PER_BLOCK
    ensures (dirStart + i) * SECTOR_SIZE + j * DIR_ENTRY_SIZE ==
      dirStart * SECTOR_SIZE + (i * PER_BLOCK + j) * DIR_ENTRY_SIZE
    ensures (i * PER_BLOCK + j + 1) * DIR_ENTRY_SIZE <= MAX_ENTRIES * DIR_ENTRY_SIZE
    ensures (dirStart + i + 1) * SECTOR_SIZE <= dirStart * SECTOR_SIZE + MAX_ENTRIES * DIR_ENTRY_SIZE
    ensures i * PER_BLOCK + j < MAX_ENTRIES
  {
  }

  /** The bytes are those of sector s. */
  ghost predicate IsSector(x: seq<Byte>, d: seq<Byte>, s: nat) {
    (s + 1) * SECTOR_SIZE <= |d| && x == d[s * SECTOR_SIZE..s * SECTOR_SIZE + SECTOR_SIZE]
  }

  // ----- Lookup -----

  /** How many entries a look through n of them compares: one more, where that is in a sector it reads. */
  function Compared(n: nat): nat { if n % PER_BLOCK == 0 then n else n + 1 }

  /** What a look through n entries for a name gives: the inode of the first that has it, or 0. */
  ghost predicate Finds(d: seq<Byte>, at: nat, n: nat, key: Name, nr: int) {
    || (nr == 0 && Absent(d, at, 0, Compared(n), key))
    || exists i: nat :: IsFirst(d, at, key, i) && i < Compared(n) && nr == EntryAt(d, at, i).nr
  }

  ghost predicate IsFirst(d: seq<Byte>, at: nat, key: Name, i: nat) {
    Absent(d, at, 0, i, key) && i < MAX_ENTRIES && EntryAt(d, at, i).name == key
  }

  ghost predicate FindsPath(d: seq<Byte>, at: nat, n: nat, path: seq<Byte>, nr: int) {
    match NameOf(path)
    case None => nr == 0
    case Some(x) => if x == [] then nr == 1 else |x| <= MAX_FILENAME_LEN && Finds(d, at, n, Padded(x), nr)
  }

  /** In a directory that stands for a map, that is lookup: the entry too many is a hole. */
  lemma FindsIsLookup(d: seq<Byte>, at: nat, n: nat, m: map<Name, int>, path: seq<Byte>, nr: int)
    requires Refines(d, at, n, m) && FindsPath(d, at, n, path, nr)
    ensures nr == Lookup(m, path)
  {
    hide Refines, EntryAt, NameOf, Absent, Padded;
    NamesAreShort(path);
    if NameOf(path).Some? && NameOf(path).value != [] {
      var x := NameOf(path).value;
      ProperName12(x);
      if Absent(d, at, 0, Compared(n), Padded(x)) && nr == 0 {
        MissingEntry(d, at, n, m, Padded(x), Compared(n));
      } else {
        var i: nat :| IsFirst(d, at, Padded(x), i) && i < Compared(n) && nr == EntryAt(d, at, i).nr;
        FoundEntry(d, at, n, m, i);
      }
    }
  }

  lemma ProperName12(x: Name)
    requires 0 < |x| <= MAX_FILENAME_LEN && 0 !in x
    ensures ProperName(Padded(x))
  {
    assert x[0] in x;
    PaddedAt(x, 0);
  }

  /** The inode a path names, or 0. */
  method SearchFile(dev: Disk, dirStart: nat, dirSize: nat, path: seq<Byte>) returns (nr: int)
    requires dev.Valid() && dirSize % DIR_ENTRY_SIZE == 0
    requires InRange(dev.bytes[..], dirStart * SECTOR_SIZE, dirSize / DIR_ENTRY_SIZE)
    modifies dev.fsbuf
    ensures FindsPath(dev.bytes[..], dirStart * SECTOR_SIZE, dirSize / DIR_ENTRY_SIZE, path, nr)
  {
    hide EntryAt, CString, NameOf, Finds, Padded;
    NamesAreShort(path);
    var name := StripPath(path);
    if name == None {
      return 0;
    }
    var filename := name.value;
    if filename == [] {
      return 1;
    }
    BlocksCover(dirSize);
    nr := FindName(dev, dirStart, (dirSize + SECTOR_SIZE - 1) / SECTOR_SIZE, dirSize / DIR_ENTRY_SIZE,
                   Padded(filename));
  }

  method FindName(dev: Disk, dirStart: nat, nrDirBlks: nat, nrDirEntries: nat, key: Name) returns (nr: int)
    requires dev.Valid() && nrDirEntries <= nrDirBlks * PER_BLOCK < nrDirEntries + PER_BLOCK
    requires InRange(dev.bytes[..], dirStart * SECTOR_SIZE, nrDirEntries)
    modifies dev.fsbuf
    ensures Finds(dev.bytes[..], dirStart * SECTOR_SIZE, nrDirEntries, key, nr)
  {
    hide EntryAt, Word, Absent;
    ghost var d, at := dev.bytes[..], dirStart * SECTOR_SIZE;
    NoneAbsent(d, at, key);
    var seen: nat, i: nat := 0, 0;
    while i < nrDirBlks
      invariant i <= nrDirBlks && seen == i * PER_BLOCK && seen <= MAX_ENTRIES && dev.bytes[..] == d
      invariant Absent(d, at, 0, seen, key)
    {
      var found, j := FindInBlock(dev, dirStart, i, key, seen, nrDirEntries);
      AbsentJoin(d, at, seen, seen + j, key);
      if found {
        assert IsFirst(d, at, key, seen + j);
        InLastBlock(i, j, nrDirBlks, nrDirEntries);
        var e := BufferEntry(dev, j);
        return e.nr;
      }
      seen := seen + j;
      if seen > nrDirEntries {
        break;
      }
      i := i + 1;
    }
    AbsentUpTo(d, at, key, Compared(nrDirEntries), seen);
    return 0;
  }

  /** Compare the entries of block i, which `seen` entries precede, up to one past the last used one. */
  method FindInBlock(dev: Disk, dirStart: nat, i: nat, key: Name, seen: nat, nrDirEntries: nat)
    returns (found: bool, j: nat)
    requires dev.Valid() && InRange(dev.bytes[..], dirStart * SECTOR_SIZE, nrDirEntries)
    requires seen == i * PER_BLOCK && seen <= nrDirEntries && i < NR_DEFAULT_FILE_SECTS
    modifies dev.fsbuf
    ensures found ==> j < PER_BLOCK && seen + j < MAX_ENTRIES && seen + j <= nrDirEntries
    ensures found ==> EntryAt(dev.bytes[..], dirStart * SECTOR_SIZE, seen + j).name == key
    ensures found ==>
      EntryAt(dev.fsbuf[..SECTOR_SIZE], 0, j)
      == EntryAt(dev.bytes[..], dirStart * SECTOR_SIZE, seen + j)
    ensures !found ==> j <= PER_BLOCK && seen + j <= MAX_ENTRIES && (j == PER_BLOCK || seen + j == nrDirEntries + 1)
    ensures Absent(dev.bytes[..], dirStart * SECTOR_SIZE, seen, seen + j, key)
  {
    hide EntryAt;
    ghost var d, at := dev.bytes[..], dirStart * SECTOR_SIZE;
    EntryPosition(dirStart, i, 0);
    dev.RdSect(dirStart + i);
    ghost var x := dev.fsbuf[..SECTOR_SIZE];
    j := 0;
    while j < PER_BLOCK
      invariant j <= PER_BLOCK && seen + j <= nrDirEntries && seen + j <= MAX_ENTRIES
      invariant dev.bytes[..] == d && dev.fsbuf[..SECTOR_SIZE] == x
      invariant forall k: nat :: seen <= k < seen + j ==> EntryAt(d, at, k).name != key
    {
      EntryInBlock(d, dirStart, x, i, j);
      EntryPosition(dirStart, i, j);
      var e := BufferEntry(dev, j);
      assert dev.fsbuf[..SECTOR_SIZE] == x && dev.bytes[..] == d;
      assert e == EntryAt(d, at, seen + j);
      if e.name == key {
        return true, j;
      }
      j := j + 1;
      if seen + j > nrDirEntries {
        break;
      }
    }
    found := false;
  }

  /** Entry j of the sector in the buffer. */
  method BufferEntry(dev: Disk, j: nat) returns (e: Entry)
    requires dev.Valid() && j < PER_BLOCK
    ensures e == EntryAt(dev.fsbuf[..SECTOR_SIZE], 0, j)
  {
    var x := dev.fsbuf[..SECTOR_SIZE];
    e := EntryAt(x, 0, j);
  }

  lemma BlocksCover(size: nat)
    requires size % DIR_ENTRY_SIZE == 0
    ensures var b, n := (size + SECTOR_SIZE - 1) / SECTOR_SIZE, size / DIR_ENTRY_SIZE;
      n <= b * PER_BLOCK <= n + PER_BLOCK - 1
  {
    var n := size / DIR_ENTRY_SIZE;
    assert size == n * DIR_ENTRY_SIZE;
  }

  /** No entry in [lo, hi) has the name. */
  ghost predicate Absent(d: seq<Byte>, at: nat, lo: nat, hi: nat, key: Name) {
    InRange(d, at, 0) && hi <= MAX_ENTRIES && forall k: nat :: lo <= k < hi ==> EntryAt(d, at, k).name != key
  }

  lemma AbsentJoin(d: seq<Byte>, at: nat, lo: nat, hi: nat, key: Name)
    requires Absent(d, at, 0, lo, key) && Absent(d, at, lo, hi, key)
    ensures Absent(d, at, 0, hi, key)
  {
  }

  lemma AbsentUpTo(d: seq<Byte>, at: nat, key: Name, lo: nat, hi: nat)
    requires Absent(d, at, 0, hi, key) && lo <= hi
    ensures Absent(d, at, 0, lo, key)
  {
  }

  lemma InLastBlock(i: nat, j: nat, blks: nat, n: nat)
    requires i < blks && j < PER_BLOCK && i * PER_BLOCK + j <= n && n <= blks * PER_BLOCK < n + PER_BLOCK
    ensures i * PER_BLOCK + j < Compared(n)
  {
  }

  lemma NoneAbsent(d: seq<Byte>, at: nat, key: Name)
    requires InRange(d, at, 0)
    ensures Absent(d, at, 0, 0, key)
  {
  }

  lemma RefinesRange(d: seq<Byte>, at: nat, n: nat, m: map<Name, int>)
    requires Refines(d, at, n, m)
    ensures InRange(d, at, n)
  {
  }

  lemma FoundEntry(d: seq<Byte>, at: nat, n: nat, m: map<Name, int>, i: nat)
    requires Refines(d, at, n, m) && i < MAX_ENTRIES && ProperName(EntryAt(d, at, i).name)
    ensures EntryAt(d, at, i).name in m && EntryAt(d, at, i).nr == m[EntryAt(d, at, i).name] && IsLive(d, at, n, i)
  {
    hide EntryAt;
    assert IsLive(d, at, n, i);
  }

  lemma MissingEntry(d: seq<Byte>, at: nat, n: nat, m: map<Name, int>, key: Name, seen: nat)
    requires Refines(d, at, n, m) && Absent(d, at, 0, seen, key) && seen >= n
    ensures key !in m
  {
  }

  // ----- Changing one entry -----

  /** e is d with the k-th entry, and nothing else, replaced. */
  ghost predicate EntryWritten(d: seq<Byte>, e: seq<Byte>, at: nat, k: nat, x: Entry) {
    && InRange(d, at, 0) && k < MAX_ENTRIES && |e| == |d|
    && EntryAt(e, at, k) == x
    && (forall i: nat :: i < MAX_ENTRIES && i != k ==> EntryAt(e, at, i) == EntryAt(d, at, i))
    && SameOutside(d, e, at + k * DIR_ENTRY_SIZE, at + (k + 1) * DIR_ENTRY_SIZE)
  }

  lemma BytesElsewhere(a: seq<Byte>, b: seq<Byte>, lo: nat, hi: nat, from: nat, to: nat)
    requires SameOutside(a, b, lo, hi) && from <= to <= |a| && (to <= lo || hi <= from)
    ensures b[from..to] == a[from..to]
  {
    if to <= lo {
      assert b[from..to] == b[..lo][from..to] && a[from..to] == a[..lo][from..to];
    } else {
      assert b[hi..|b|] == b[hi..] == a[hi..] == a[hi..|a|];
      SliceOfSlice(b, hi, |b|, from - hi, to - hi);
      SliceOfSlice(a, hi, |a|, from - hi, to - hi);
    }
  }

  lemma EntryElsewhere(d: seq<Byte>, e: seq<Byte>, lo: nat, hi: nat, at: nat, i: nat)
    requires SameOutside(d, e, lo, hi) && at + (i + 1) * DIR_ENTRY_SIZE <= |d|
    requires at + (i + 1) * DIR_ENTRY_SIZE <= lo || hi <= at + i * DIR_ENTRY_SIZE
    ensures EntryAt(e, at, i) == EntryAt(d, at, i)
  {
    hide Word;
    var p := at + i * DIR_ENTRY_SIZE;
    BytesElsewhere(d, e, lo, hi, p, p + 4);
    BytesElsewhere(d, e, lo, hi, p + 4, p + DIR_ENTRY_SIZE);
  }

  lemma EntriesApart(d: seq<Byte>, e: seq<Byte>, at: nat, k: nat)
    requires InRange(d, at, 0) && k < MAX_ENTRIES
    requires SameOutside(d, e, at + k * DIR_ENTRY_SIZE, at + (k + 1) * DIR_ENTRY_SIZE)
    ensures EntryWritten(d, e, at, k, EntryAt(e, at, k))
  {
    hide EntryAt;
    forall i: nat | i < MAX_ENTRIES && i != k ensures EntryAt(e, at, i) == EntryAt(d, at, i) {
      EntryElsewhere(d, e, at + k * DIR_ENTRY_SIZE, at + (k + 1) * DIR_ENTRY_SIZE, at, i);
    }
  }

  /** An inode number and a terminated name written over an all-zero entry. */
  lemma FilledEntry(d: seq<Byte>, at: nat, k: nat, nr: int, name: Name)
    requires InRange(d, at, 0) && k < MAX_ENTRIES && EntryAt(d, at, k) == HOLE && 0 <= nr < WORD
    requires |name| < MAX_FILENAME_LEN
    ensures at + k * DIR_ENTRY_SIZE + 16 <= |d|
    ensures EntryWritten(d, Patch(d, at + k * DIR_ENTRY_SIZE, WordBytes(nr) + name + [0]), at, k,
                         Entry(nr, Padded(name)))
  {
    hide Word, WordBytes, Patch, Padded, SameOutside, EntryWritten;
    var p := at + k * DIR_ENTRY_SIZE;
    var w := WordBytes(nr) + name + [0];
    var e := Patch(d, p, w);
    assert at + (k + 1) * DIR_ENTRY_SIZE == p + 16;
    WordRoundTrip(nr);
    NamePatched(d, p, WordBytes(nr), name);
    EntriesApart(d, e, at, k);
  }

  /** The four bytes of a number and a terminated name over a number and zeros. */
  lemma NamePatched(d: seq<Byte>, p: nat, w: seq<Byte>, name: Name)
    requires p + 16 <= |d| && d[p + 4..p + 16] == HOLE.name && |w| == 4 && |name| < MAX_FILENAME_LEN
    ensures var e := Patch(d, p, w + name + [0]);
      e[p..p + 4] == w && e[p + 4..p + 16] == Padded(name) && SameOutside(d, e, p, p + 16)
  {
    hide Patch;
    var x := w + name + [0];
    var e := Patch(d, p, x);
    var z := d[p + 4..p + 16];
    assert e[p..p + 4] == x[0..4] == w by { PatchedSlice(d, p, x, 0, 4); }
    forall i | 0 <= i < MAX_FILENAME_LEN ensures e[p + 4..p + 16][i] == Padded(name)[i] {
      PaddedAt(name, i);
      assert z[i] == 0;
      assert e[p + 4..p + 16][i] == e[p + 4 + i] == if i + 4 < |x| then x[i + 4] else z[i];
    }
    SameBehind(d, e, p, |x|);
  }

  lemma SameBehind(d: seq<Byte>, e: seq<Byte>, p: nat, n: nat)
    requires |e| == |d| && p + n <= p + 16 <= |d| && forall i :: 0 <= i < |d| && (i < p || p + n <= i) ==> e[i] == d[i]
    ensures SameOutside(d, e, p, p + 16)
  {
  }

  const NO_BYTES: seq<Byte> := [0, 0, 0, 0, 0, 0, 0, 0, 0, 0, 0, 0, 0, 0, 0, 0]

  lemma ZeroWord()
    ensures Word([0, 0, 0, 0]) == 0
  {
    assert !Bit(0, 0) && !Bit(0, 1) && !Bit(0, 2) && !Bit(0, 3) && !Bit(0, 4) && !Bit(0, 5) && !Bit(0, 6) && !Bit(0, 7);
  }

  lemma ClearedEntry(d: seq<Byte>, at: nat, k: nat)
    requires InRange(d, at, 0) && k < MAX_ENTRIES
    ensures at + k * DIR_ENTRY_SIZE + 16 <= |d|
    ensures EntryWritten(d, Patch(d, at + k * DIR_ENTRY_SIZE, NO_BYTES), at, k, HOLE)
  {
    hide Word, Patch, EntryWritten, SameOutside;
    ZeroWord();
    var p := at + k * DIR_ENTRY_SIZE;
    var e := Patch(d, p, NO_BYTES);
    assert at + (k + 1) * DIR_ENTRY_SIZE == p + 16;
    BytesCleared(d, p);
    EntriesApart(d, e, at, k);
  }

  lemma BytesCleared(d: seq<Byte>, p: nat)
    requires p + 16 <= |d|
    ensures var e := Patch(d, p, NO_BYTES);
      e[p..p + 4] == [0, 0, 0, 0] && e[p + 4..p + 16] == HOLE.name && SameOutside(d, e, p, p + 16)
  {
    hide Patch;
    PatchedSlice(d, p, NO_BYTES, 0, 4);
    PatchedSlice(d, p, NO_BYTES, 4, 16);
    PatchedElsewhere(d, p, NO_BYTES);
    assert NO_BYTES[0..4] == [0, 0, 0, 0] && NO_BYTES[4..16] == HOLE.name;
  }

  // ----- Insertion -----

  ghost predicate IsFirstHole(d: seq<Byte>, at: nat, n: nat, k: nat) {
    k <= n && (k < n ==> !IsLive(d, at, n, k)) && forall i: nat :: i < k ==> IsLive(d, at, n, i)
  }

  /**
   From d to e, entry x has come into the first hole of n entries, or behind them; it is entry k, and they are n'
   then.
   */
  ghost predicate EntryPlaced(d: seq<Byte>, e: seq<Byte>, at: nat, n: nat, n': nat, x: Entry, k: nat) {
    && IsFirstHole(d, at, n, k) && k < MAX_ENTRIES && n' == (if k < n then n else n + 1)
    && EntryAt(e, at, k) == x
    && forall i: nat :: i < MAX_ENTRIES && i != k ==> EntryAt(e, at, i) == EntryAt(d, at, i)
  }

  /** Writing a new name and a new inode into the first hole, or behind the last entry, inserts exactly that pair. */
  lemma InsertRefines(d: seq<Byte>, e: seq<Byte>, at: nat, n: nat, m: map<Name, int>, k: nat, x: Entry)
    requires Refines(d, at, n, m) && IsFirstHole(d, at, n, k) && EntryWritten(d, e, at, k, x)
    requires ProperName(x.name) && x.nr != 0 && x.name !in m && forall y :: y in m ==> m[y] != x.nr
    ensures Refines(e, at, if k < n then n else n + 1, m[x.name := x.nr])
  {
    hide EntryAt;
    var n', m' := if k < n then n else n + 1, m[x.name := x.nr];
    forall i: nat | i < MAX_ENTRIES ensures IsLive(e, at, n', i) <==> i == k || IsLive(d, at, n, i) {}
    forall i: nat | IsLive(e, at, n', i)
      ensures EntryAt(e, at, i).name in m' && m'[EntryAt(e, at, i).name] == EntryAt(e, at, i).nr
      ensures i != k ==> EntryAt(e, at, i).name != x.name && EntryAt(e, at, i).nr != x.nr
    {
      if i != k { assert IsLive(d, at, n, i); }
    }
    forall y: Name | y in m' ensures exists i: nat :: IsLive(e, at, n', i) && EntryAt(e, at, i).name == y {
      if y == x.name {
        assert IsLive(e, at, n', k);
      } else {
        var i: nat :| IsLive(d, at, n, i) && EntryAt(d, at, i).name == y;
        assert i != k && IsLive(e, at, n', i);
      }
    }
    forall i: nat, j: nat | IsLive(e, at, n', i) && IsLive(e, at, n', j) && i != j
      ensures EntryAt(e, at, i).name != EntryAt(e, at, j).name && EntryAt(e, at, i).nr != EntryAt(e, at, j).nr
    {
      if i != k && j != k { assert IsLive(d, at, n, i) && IsLive(d, at, n, j); }
    }
  }

  /** All entries in [lo, hi) are taken. */
  ghost predicate Taken(d: seq<Byte>, at: nat, lo: nat, hi: nat) {
    InRange(d, at, 0) && hi <= MAX_ENTRIES && forall k: nat :: lo <= k < hi ==> EntryAt(d, at, k).nr != 0
  }

  lemma TakenJoin(d: seq<Byte>, at: nat, lo: nat, hi: nat)
    requires Taken(d, at, 0, lo) && Taken(d, at, lo, hi)
    ensures Taken(d, at, 0, hi)
  {
  }

  /** Look for a free entry in block i, which `seen` used entries precede; stop one past the last used entry. */
  method SlotInBlock(dev: Disk, dirStart: nat, i: nat, seen: nat, nrDirEntries: nat)
    returns (stop: bool, isNew: bool, j: nat)
    requires dev.Valid() && InRange(dev.bytes[..], dirStart * SECTOR_SIZE, nrDirEntries)
    requires seen == i * PER_BLOCK && seen <= nrDirEntries && i < NR_DEFAULT_FILE_SECTS
    modifies dev.fsbuf
    ensures j <= PER_BLOCK && seen + j <= nrDirEntries && Taken(dev.bytes[..], dirStart * SECTOR_SIZE, seen, seen + j)
    ensures if stop then j < PER_BLOCK && (isNew <==> seen + j == nrDirEntries) else j == PER_BLOCK
    ensures stop && !isNew ==> EntryAt(dev.bytes[..], dirStart * SECTOR_SIZE, seen + j).nr == 0
    ensures IsSector(dev.fsbuf[..SECTOR_SIZE], dev.bytes[..], dirStart + i)
  {
    hide EntryAt;
    ghost var d, at := dev.bytes[..], dirStart * SECTOR_SIZE;
    EntryPosition(dirStart, i, 0);
    dev.RdSect(dirStart + i);
    ghost var x := dev.fsbuf[..SECTOR_SIZE];
    j := 0;
    while j < PER_BLOCK
      invariant j <= PER_BLOCK && seen + j <= nrDirEntries && dev.bytes[..] == d && dev.fsbuf[..SECTOR_SIZE] == x
      invariant Taken(d, at, seen, seen + j)
    {
      if seen + j + 1 > nrDirEntries {
        return true, true, j;
      }
      EntryInBlock(d, dirStart, x, i, j);
      var e := BufferEntry(dev, j);
      assert dev.fsbuf[..SECTOR_SIZE] == x && dev.bytes[..] == d;
      assert e == EntryAt(d, at, seen + j);
      if e.nr == 0 {
        return true, false, j;
      }
      j := j + 1;
    }
    stop, isNew := false, false;
  }

  /** Write the inode number and the name, with its terminating zero, over entry j of the sector in the buffer. */
  method FillSlot(dev: Disk, j: nat, inodeNr: int, filename: Name)
    requires dev.Valid() && j < PER_BLOCK && 0 <= inodeNr < WORD && |filename| < MAX_FILENAME_LEN
    modifies dev.fsbuf
    ensures dev.fsbuf[..SECTOR_SIZE]
      == Patch(old(dev.fsbuf[..SECTOR_SIZE]), j * DIR_ENTRY_SIZE, WordBytes(inodeNr) + filename + [0])
  {
    hide WordBytes;
    var o := j * DIR_ENTRY_SIZE;
    var w := WordBytes(inodeNr) + filename + [0];
    assert o + |w| <= SECTOR_SIZE;
    forall k | 0 <= k < |w| {
      dev.fsbuf[o + k] := w[k];
    }
  }

  /** Add a name for an inode, in the first hole or at the end; the result is the directory's new size. */
  method NewDirEntry(dev: Disk, dirStart: nat, dirSize: nat, inodeNr: int, filename: Name, ghost m: map<Name, int>)
    returns (newSize: nat, ghost k: nat)
    requires dev.Valid() && dirSize % DIR_ENTRY_SIZE == 0 && dirSize / DIR_ENTRY_SIZE < MAX_ENTRIES
    requires Refines(dev.bytes[..], dirStart * SECTOR_SIZE, dirSize / DIR_ENTRY_SIZE, m)
    requires 0 < |filename| < MAX_FILENAME_LEN && 0 !in filename && Padded(filename) !in m
    requires 0 < inodeNr < WORD && forall y :: y in m ==> m[y] != inodeNr
    modifies dev.bytes, dev.fsbuf
    ensures newSize % DIR_ENTRY_SIZE == 0 && dirSize <= newSize <= dirSize + DIR_ENTRY_SIZE
    ensures Refines(dev.bytes[..], dirStart * SECTOR_SIZE, newSize / DIR_ENTRY_SIZE, m[Padded(filename) := inodeNr])
    ensures InDirectory(old(dev.bytes[..]), dev.bytes[..], dirStart * SECTOR_SIZE)
    ensures newSize > dirSize ==> AllLive(dev.bytes[..], dirStart * SECTOR_SIZE, newSize / DIR_ENTRY_SIZE)
    ensures EntryPlaced(old(dev.bytes[..]), dev.bytes[..], dirStart * SECTOR_SIZE, dirSize / DIR_ENTRY_SIZE,
                        newSize / DIR_ENTRY_SIZE, Entry(inodeNr, Padded(filename)), k)
  {
    hide Refines, EntryAt, WordBytes, Taken, AllLive, Padded, Patch, InRange, InDirectory, IsSector, EntryPlaced;
    ghost var d, at, n := dev.bytes[..], dirStart * SECTOR_SIZE, dirSize / DIR_ENTRY_SIZE;
    RefinesRange(d, at, n, m);
    SlotBlocks(dirSize);
    var i, j, isNew := FindSlot(dev, dirStart, (dirSize + SECTOR_SIZE) / SECTOR_SIZE, dirSize / DIR_ENTRY_SIZE);
    newSize := dirSize;
    if isNew {
      newSize := newSize + DIR_ENTRY_SIZE;
    }
    ghost var y := dev.fsbuf[..SECTOR_SIZE];
    FillSlot(dev, j, inodeNr, filename);
    ghost var x := dev.fsbuf[..SECTOR_SIZE];
    dev.WrSect(dirStart + i);
    k := i * PER_BLOCK + j;
    SlotFilled(d, dev.bytes[..], dirStart, n, m, i, j, inodeNr, filename, y, x);
    OneMoreEntry(dirSize);
  }

  lemma OneMoreEntry(size: nat)
    requires size % DIR_ENTRY_SIZE == 0
    ensures (size + DIR_ENTRY_SIZE) % DIR_ENTRY_SIZE == 0
    ensures (size + DIR_ENTRY_SIZE) / DIR_ENTRY_SIZE == size / DIR_ENTRY_SIZE + 1
  {
  }

  /** The block and the place in it of the first hole, or of the entry behind the last used one. */
  method FindSlot(dev: Disk, dirStart: nat, nrDirBlks: nat, nrDirEntries: nat) returns (i: nat, j: nat, isNew: bool)
    requires dev.Valid() && InRange(dev.bytes[..], dirStart * SECTOR_SIZE, nrDirEntries)
    requires nrDirBlks <= NR_DEFAULT_FILE_SECTS && nrDirEntries < nrDirBlks * PER_BLOCK
    modifies dev.fsbuf
    ensures i < NR_DEFAULT_FILE_SECTS && j < PER_BLOCK
    ensures var k := i * PER_BLOCK + j;
      && k <= nrDirEntries && (isNew <==> k == nrDirEntries)
      && Taken(dev.bytes[..], dirStart * SECTOR_SIZE, 0, k)
      && (!isNew ==> EntryAt(dev.bytes[..], dirStart * SECTOR_SIZE, k).nr == 0)
    ensures IsSector(dev.fsbuf[..SECTOR_SIZE], dev.bytes[..], dirStart + i)
  {
    hide EntryAt, Taken, InRange, IsSector;
    ghost var d, at := dev.bytes[..], dirStart * SECTOR_SIZE;
    NoneTaken(d, at, nrDirEntries);
    i, j, isNew := 0, 0, false;
    while i < nrDirBlks
      invariant i <= nrDirBlks && i * PER_BLOCK <= nrDirEntries && dev.bytes[..] == d && Taken(d, at, 0, i * PER_BLOCK)
    {
      var stop;
      stop, isNew, j := SlotInBlock(dev, dirStart, i, i * PER_BLOCK, nrDirEntries);
      TakenJoin(d, at, i * PER_BLOCK, i * PER_BLOCK + j);
      if stop {
        return;
      }
      i := i + 1;
    }
    assert false;
  }

  lemma SlotBlocks(size: nat)
    requires size % DIR_ENTRY_SIZE == 0 && size / DIR_ENTRY_SIZE < MAX_ENTRIES
    ensures var b := (size + SECTOR_SIZE) / SECTOR_SIZE;
      b <= NR_DEFAULT_FILE_SECTS && size / DIR_ENTRY_SIZE < b * PER_BLOCK
  {
  }

  /** Only bytes of the directory's extent may have changed. */
  ghost predicate InDirectory(d: seq<Byte>, e: seq<Byte>, at: nat) {
    SameOutside(d, e, at, at + MAX_ENTRIES * DIR_ENTRY_SIZE)
  }

  lemma NoneTaken(d: seq<Byte>, at: nat, n: nat)
    requires InRange(d, at, n)
    ensures Taken(d, at, 0, 0) && n <= MAX_ENTRIES && InRange(d, at, 0)
  {
  }

  /** Sector s has been read as y, entry j of it overwritten with w, and x written back. */
  ghost predicate SlotWritten(d: seq<Byte>, e: seq<Byte>, s: nat, j: nat, w: seq<Byte>, y: seq<Byte>, x: seq<Byte>) {
    && IsSector(y, d, s) && j < PER_BLOCK && |w| <= DIR_ENTRY_SIZE && j * DIR_ENTRY_SIZE + |w| <= |y|
    && x == Patch(y, j * DIR_ENTRY_SIZE, w) && e == Patch(d, s * SECTOR_SIZE, x)
  }

  lemma SlotFilled(d: seq<Byte>, e: seq<Byte>, dirStart: nat, n: nat, m: map<Name, int>, i: nat, j: nat,
                   nr: int, name: Name, y: seq<Byte>, x: seq<Byte>)
    requires Refines(d, dirStart * SECTOR_SIZE, n, m) && i < NR_DEFAULT_FILE_SECTS && j < PER_BLOCK && n < MAX_ENTRIES
    requires 0 < |name| < MAX_FILENAME_LEN && 0 !in name && Padded(name) !in m
    requires 0 < nr < WORD && forall y :: y in m ==> m[y] != nr
    requires i * PER_BLOCK + j <= n && Taken(d, dirStart * SECTOR_SIZE, 0, i * PER_BLOCK + j)
    requires i * PER_BLOCK + j < n ==> EntryAt(d, dirStart * SECTOR_SIZE, i * PER_BLOCK + j).nr == 0
    requires SlotWritten(d, e, dirStart + i, j, WordBytes(nr) + name + [0], y, x)
    ensures var n' := if i * PER_BLOCK + j < n then n else n + 1;
      && Refines(e, dirStart * SECTOR_SIZE, n', m[Padded(name) := nr]) && InDirectory(d, e, dirStart * SECTOR_SIZE)
      && (n' > n ==> AllLive(e, dirStart * SECTOR_SIZE, n'))
      && EntryPlaced(d, e, dirStart * SECTOR_SIZE, n, n', Entry(nr, Padded(name)), i * PER_BLOCK + j)
  {
    hide Refines, EntryAt, WordBytes, Padded, Patch, EntryWritten, EntryPlaced, AllLive, IsFirstHole, SameOutside;
    var at, k, pos := dirStart * SECTOR_SIZE, i * PER_BLOCK + j, (dirStart + i) * SECTOR_SIZE;
    RefinesRange(d, at, n, m);
    EntryPosition(dirStart, i, j);
    PatchInSector(d, pos, j * DIR_ENTRY_SIZE, y, WordBytes(nr) + name + [0]);
    FirstHoleIsHole(d, at, n, m, k);
    FilledEntry(d, at, k, nr, name);
    ProperPadded(name);
    EntryInserted(d, e, at, n, m, k, Entry(nr, Padded(name)));
  }

  lemma EntryInserted(d: seq<Byte>, e: seq<Byte>, at: nat, n: nat, m: map<Name, int>, k: nat, x: Entry)
    requires Refines(d, at, n, m) && IsFirstHole(d, at, n, k) && EntryWritten(d, e, at, k, x) && n < MAX_ENTRIES
    requires ProperName(x.name) && x.nr != 0 && x.name !in m && forall y :: y in m ==> m[y] != x.nr
    ensures var n' := if k < n then n else n + 1;
      && Refines(e, at, n', m[x.name := x.nr]) && InDirectory(d, e, at) && (n' > n ==> AllLive(e, at, n'))
      && EntryPlaced(d, e, at, n, n', x, k)
  {
    hide Refines, EntryAt;
    InsertRefines(d, e, at, n, m, k, x);
    RefinesRange(d, at, n, m);
    var n' := if k < n then n else n + 1;
    if n' > n {
      forall i: nat | i < n' ensures IsLive(e, at, n', i) {
        if i < n { assert IsLive(d, at, n, i); }
      }
    }
    Widen(d, e, at + k * DIR_ENTRY_SIZE, at + (k + 1) * DIR_ENTRY_SIZE, at, at + MAX_ENTRIES * DIR_ENTRY_SIZE);
  }

  lemma FirstHoleIsHole(d: seq<Byte>, at: nat, n: nat, m: map<Name, int>, k: nat)
    requires Refines(d, at, n, m) && k <= n && k < MAX_ENTRIES && Taken(d, at, 0, k)
      && (k < n ==> EntryAt(d, at, k).nr == 0)
    ensures EntryAt(d, at, k) == HOLE && IsFirstHole(d, at, n, k)
  {
    hide EntryAt;
    assert !IsLive(d, at, n, k);
  }

  lemma ProperPadded(name: Name)
    requires 0 < |name| < MAX_FILENAME_LEN && 0 !in name
    ensures ProperName(Padded(name))
  {
    assert name[0] in name;
    PaddedAt(name, 0);
  }

  // ----- Removal -----

  /** Clearing the entry of a name removes exactly that name. */
  lemma RemoveRefines(d: seq<Byte>, e: seq<Byte>, at: nat, n: nat, m: map<Name, int>, k: nat)
    requires Refines(d, at, n, m) && IsLive(d, at, n, k) && EntryWritten(d, e, at, k, HOLE)
    ensures Refines(e, at, n, m - {EntryAt(d, at, k).name})
  {
    hide EntryAt;
    var key := EntryAt(d, at, k).name;
    var m' := m - {key};
    forall i: nat | i < MAX_ENTRIES ensures IsLive(e, at, n, i) <==> i != k && IsLive(d, at, n, i) {}
    forall i: nat | IsLive(e, at, n, i)
      ensures EntryAt(e, at, i).name in m' && m'[EntryAt(e, at, i).name] == EntryAt(e, at, i).nr
    {
      assert IsLive(d, at, n, i) && i != k;
    }
    forall y: Name | y in m' ensures exists i: nat :: IsLive(e, at, n, i) && EntryAt(e, at, i).name == y {
      var i: nat :| IsLive(d, at, n, i) && EntryAt(d, at, i).name == y;
      assert i != k && IsLive(e, at, n, i);
    }
    forall i: nat, j: nat | IsLive(e, at, n, i) && IsLive(e, at, n, j) && i != j
      ensures EntryAt(e, at, i).name != EntryAt(e, at, j).name && EntryAt(e, at, i).nr != EntryAt(e, at, j).nr
    {
      assert IsLive(d, at, n, i) && IsLive(d, at, n, j);
    }
  }

  function LiveCount(d: seq<Byte>, at: nat, n: nat): nat {
    if n == 0 then 0 else LiveCount(d, at, n - 1) + if EntryAt(d, at, n - 1).nr != 0 then 1 else 0
  }

  /** No hole comes before a live entry. */
  ghost predicate Dense(d: seq<Byte>, at: nat, n: nat) {
    forall i: nat, j: nat :: i < j && IsLive(d, at, n, j) ==> IsLive(d, at, n, i)
  }

  ghost predicate AllLive(d: seq<Byte>, at: nat, n: nat) {
    forall i: nat :: i < n ==> IsLive(d, at, n, i)
  }

  lemma {:induction false} CountBound(d: seq<Byte>, at: nat, n: nat)
    requires InRange(d, at, n)
    ensures LiveCount(d, at, n) <= n
    ensures LiveCount(d, at, n) == n <==> AllLive(d, at, n)
    decreases n
  {
    hide EntryAt;
    if n > 0 {
      var k := n - 1;
      CountBound(d, at, k);
      if AllLive(d, at, n) {
        assert IsLive(d, at, n, k);
        forall i: nat | i < k ensures IsLive(d, at, k, i) { assert IsLive(d, at, n, i); }
        assert AllLive(d, at, k);
      } else {
        var i: nat :| i < n && !IsLive(d, at, n, i);
        assert i < k ==> !IsLive(d, at, k, i);
      }
    }
  }

  /** All live entries lie below c. */
  ghost predicate Below(d: seq<Byte>, at: nat, n: nat, c: nat) {
    forall i: nat :: IsLive(d, at, n, i) ==> i < c
  }

  /** All live entries lie below their own count exactly when no hole comes before one of them. */
  lemma {:induction false} CountIsDense(d: seq<Byte>, at: nat, n: nat)
    requires InRange(d, at, n)
    ensures Dense(d, at, n) <==> Below(d, at, n, LiveCount(d, at, n))
    decreases n
  {
    hide EntryAt;
    CountBound(d, at, n);
    if n > 0 {
      if IsLive(d, at, n, n - 1) {
        if Dense(d, at, n) {
          forall i: nat | i < n ensures IsLive(d, at, n, i) {}
        }
        if Below(d, at, n, LiveCount(d, at, n)) {
          assert LiveCount(d, at, n) == n;
        }
      } else {
        var k := n - 1;
        CountIsDense(d, at, k);
        assert forall i: nat :: IsLive(d, at, n, i) <==> IsLive(d, at, k, i);
        assert LiveCount(d, at, n) == LiveCount(d, at, k);
        assert Dense(d, at, n) <==> Dense(d, at, k);
      }
    }
  }

  /** Cutting the directory down to its live count keeps the map exactly when the live entries come first. */
  lemma ShrinkIsExact(d: seq<Byte>, at: nat, n: nat, m: map<Name, int>)
    requires Refines(d, at, n, m)
    ensures Refines(d, at, LiveCount(d, at, n), m) <==> Dense(d, at, n)
  {
    hide EntryAt;
    CountIsDense(d, at, n);
    CountBound(d, at, n);
    var c := LiveCount(d, at, n);
    if Dense(d, at, n) {
      forall i: nat ensures IsLive(d, at, c, i) <==> IsLive(d, at, n, i) {}
    } else {
      var i: nat :| IsLive(d, at, n, i) && i >= c;
      assert !IsLive(d, at, c, i) && EntryAt(d, at, i) != HOLE;
    }
  }

  /** Among n entries, entry r is the one of an inode; r is not below n when there is none. */
  ghost predicate OnlyEntry(d: seq<Byte>, at: nat, n: nat, nr: int, r: nat) {
    && nr != 0 && (r < n ==> EntryAt(d, at, r).nr == nr)
    && forall i: nat :: i < n && EntryAt(d, at, i).nr == nr ==> i == r
  }

  /** e is d with the entry of the inode cleared, where n entries have one. */
  ghost predicate Removing(d: seq<Byte>, e: seq<Byte>, dirStart: nat, n: nat, nr: int, r: nat) {
    var at := dirStart * SECTOR_SIZE;
    && InRange(d, at, n) && OnlyEntry(d, at, n, nr, r)
    && if r < n then EntryWritten(d, e, at, r, HOLE) && e == Patch(d, at + r * DIR_ENTRY_SIZE, NO_BYTES) else e == d
  }

  lemma ClearedInBlock(d: seq<Byte>, e: seq<Byte>, dirStart: nat, n: nat, nr: int, i: nat, j: nat, x: seq<Byte>)
    requires i < NR_DEFAULT_FILE_SECTS && j < PER_BLOCK && Removing(d, e, dirStart, n, nr, i * PER_BLOCK + j)
    requires i * PER_BLOCK + j < n
    requires IsSector(x, d, dirStart + i)
    ensures (dirStart + i + 1) * SECTOR_SIZE <= |d| && j * DIR_ENTRY_SIZE + 16 <= |x|
    ensures var y := Patch(x, j * DIR_ENTRY_SIZE, NO_BYTES);
      Patch(d, (dirStart + i) * SECTOR_SIZE, y) == e && IsSector(y, e, dirStart + i)
  {
    hide EntryAt, Patch;
    EntryPosition(dirStart, i, j);
    var y := Patch(x, j * DIR_ENTRY_SIZE, NO_BYTES);
    PatchInSector(d, (dirStart + i) * SECTOR_SIZE, j * DIR_ENTRY_SIZE, x, NO_BYTES);
    var pos := (dirStart + i) * SECTOR_SIZE;
    PatchedSlice(d, pos, y, 0, |y|);
    assert y[0..|y|] == y;
  }


  /** What is at entry k while entry r is being removed: `gone` says whether that has happened. */
  lemma EntryWhileRemoving(d: seq<Byte>, e: seq<Byte>, dirStart: nat, n: nat, nr: int, r: nat, k: nat, gone: bool)
    requires Removing(d, e, dirStart, n, nr, r) && k < n && (gone ==> r < k) && (!gone ==> k <= r)
    ensures var x := EntryAt(if gone then e else d, dirStart * SECTOR_SIZE, k);
      && (x.nr == nr <==> k == r)
      && (k != r ==> EntryAt(e, dirStart * SECTOR_SIZE, k) == x)
      && (k == r ==> EntryAt(e, dirStart * SECTOR_SIZE, r).nr == 0)
      && LiveCount(e, dirStart * SECTOR_SIZE, k + 1)
           == LiveCount(e, dirStart * SECTOR_SIZE, k) + (if k != r && x.nr != 0 then 1 else 0)
  {
    hide EntryAt;
  }

  /** memset of entry j of the sector in the buffer. */
  method ClearSlot(dev: Disk, j: nat)
    requires dev.Valid() && j < PER_BLOCK
    modifies dev.fsbuf
    ensures dev.fsbuf[..SECTOR_SIZE] == Patch(old(dev.fsbuf[..SECTOR_SIZE]), j * DIR_ENTRY_SIZE, NO_BYTES)
  {
    forall k | 0 <= k < DIR_ENTRY_SIZE {
      dev.fsbuf[j * DIR_ENTRY_SIZE + k] := 0;
    }
  }

  /** Go through block i: clear the entry of the inode if it is there, and count the live entries that are left. */
  method RemoveInBlock(dev: Disk, dirStart: nat, i: nat, nrDirEntries: nat, inodeNr: int, count0: nat,
                       ghost d: seq<Byte>, ghost e: seq<Byte>, ghost r: nat)
    returns (stop: bool, flg: bool, count: nat)
    requires dev.Valid() && dev.bytes[..] == d && Removing(d, e, dirStart, nrDirEntries, inodeNr, r)
    requires i * PER_BLOCK <= nrDirEntries && i < NR_DEFAULT_FILE_SECTS && i * PER_BLOCK <= r
    requires count0 == LiveCount(e, dirStart * SECTOR_SIZE, i * PER_BLOCK)
    modifies dev.bytes, dev.fsbuf
    ensures dev.bytes[..] == if flg then e else d
    ensures var end := if stop then nrDirEntries else (i + 1) * PER_BLOCK;
      end <= nrDirEntries && (flg <==> r < end) && count == LiveCount(e, dirStart * SECTOR_SIZE, end)
    ensures stop ==> nrDirEntries < (i + 1) * PER_BLOCK
  {
    hide EntryAt, LiveCount, Removing, IsSector, Patch;
    ghost var at := dirStart * SECTOR_SIZE;
    RemovingRange(d, e, dirStart, nrDirEntries, inodeNr, r, i);
    dev.RdSect(dirStart + i);
    stop, flg, count := false, false, count0;
    SectorRead(dev.fsbuf[..SECTOR_SIZE], d, dirStart + i);
    var j := 0;
    while j < PER_BLOCK
      invariant 0 <= j <= PER_BLOCK && i * PER_BLOCK + j <= nrDirEntries
      invariant dev.bytes[..] == if flg then e else d
      invariant IsSector(dev.fsbuf[..SECTOR_SIZE], dev.bytes[..], dirStart + i)
      invariant flg <==> r < i * PER_BLOCK + j
      invariant count == LiveCount(e, at, i * PER_BLOCK + j)
    {
      ghost var k := i * PER_BLOCK + j;
      if i * PER_BLOCK + j + 1 > nrDirEntries {
        stop := true;
        return;
      }
      EntryWhileRemoving(d, e, dirStart, nrDirEntries, inodeNr, r, k, flg);
      var x := EntryOnDisk(dev, dirStart, i, j);
      if x.nr == inodeNr {
        ClearedInBlock(d, e, dirStart, nrDirEntries, inodeNr, i, j, dev.fsbuf[..SECTOR_SIZE]);
        ClearSlot(dev, j);
        dev.WrSect(dirStart + i);
        flg := true;
        x := EntryOnDisk(dev, dirStart, i, j);
      }
      if x.nr != 0 {
        count := count + 1;
      }
      j := j + 1;
    }
  }

  lemma RemovingRange(d: seq<Byte>, e: seq<Byte>, dirStart: nat, n: nat, nr: int, r: nat, i: nat)
    requires Removing(d, e, dirStart, n, nr, r) && i < NR_DEFAULT_FILE_SECTS
    ensures InRange(d, dirStart * SECTOR_SIZE, n) && |e| == |d| && (dirStart + i + 1) * SECTOR_SIZE <= |d|
  {
    EntryPosition(dirStart, i, 0);
  }

  lemma SectorRead(x: seq<Byte>, d: seq<Byte>, s: nat)
    requires (s + 1) * SECTOR_SIZE <= |d| && x == d[s * SECTOR_SIZE..s * SECTOR_SIZE + SECTOR_SIZE]
    ensures IsSector(x, d, s)
  {
  }

  method EntryOnDisk(dev: Disk, dirStart: nat, i: nat, j: nat) returns (e: Entry)
    requires dev.Valid() && InRange(dev.bytes[..], dirStart * SECTOR_SIZE, 0) && i < NR_DEFAULT_FILE_SECTS
    requires j < PER_BLOCK
    requires IsSector(dev.fsbuf[..SECTOR_SIZE], dev.bytes[..], dirStart + i)
    ensures e == EntryAt(dev.bytes[..], dirStart * SECTOR_SIZE, i * PER_BLOCK + j)
  {
    hide EntryAt;
    EntryInBlock(dev.bytes[..], dirStart, dev.fsbuf[..SECTOR_SIZE], i, j);
    e := BufferEntry(dev, j);
  }

  /** The directory size unlink leaves: only when the walk ends exactly at the last entry is it recomputed. */
  ghost function SizeAfter(e: seq<Byte>, at: nat, n: nat, r: nat): nat {
    if n % PER_BLOCK == 0 && r / PER_BLOCK == n / PER_BLOCK - 1 then LiveCount(e, at, n) * DIR_ENTRY_SIZE
    else n * DIR_ENTRY_SIZE
  }

  /** Clear the entry of an inode; the result is whether there was one, and the directory's new size. */
  method RemoveDirEntry(dev: Disk, dirStart: nat, dirSize: nat, inodeNr: int, ghost r: nat)
    returns (flg: bool, newSize: nat)
    requires dev.Valid() && dirSize % DIR_ENTRY_SIZE == 0 && dirSize / DIR_ENTRY_SIZE < MAX_ENTRIES
    requires InRange(dev.bytes[..], dirStart * SECTOR_SIZE, dirSize / DIR_ENTRY_SIZE)
    requires OnlyEntry(dev.bytes[..], dirStart * SECTOR_SIZE, dirSize / DIR_ENTRY_SIZE, inodeNr, r)
    modifies dev.bytes, dev.fsbuf
    ensures flg <==> r < dirSize / DIR_ENTRY_SIZE
    ensures if flg
      then EntryWritten(old(dev.bytes[..]), dev.bytes[..], dirStart * SECTOR_SIZE, r, HOLE)
           && newSize == SizeAfter(dev.bytes[..], dirStart * SECTOR_SIZE, dirSize / DIR_ENTRY_SIZE, r)
      else dev.bytes[..] == old(dev.bytes[..])
  {
    hide EntryAt, LiveCount, OnlyEntry, EntryWritten;
    ghost var d, n := dev.bytes[..], dirSize / DIR_ENTRY_SIZE;
    ghost var e := RemovalTarget(d, dirStart, n, inodeNr, r);
    SlotBlocks(dirSize);
    flg, newSize := WalkAndRemove(dev, dirStart, (dirSize + SECTOR_SIZE) / SECTOR_SIZE, dirSize / DIR_ENTRY_SIZE,
                                  dirSize, inodeNr, d, e, r);
  }

  lemma RemovalTarget(d: seq<Byte>, dirStart: nat, n: nat, nr: int, r: nat) returns (e: seq<Byte>)
    requires InRange(d, dirStart * SECTOR_SIZE, n) && OnlyEntry(d, dirStart * SECTOR_SIZE, n, nr, r)
    ensures Removing(d, e, dirStart, n, nr, r) && (r < n ==> EntryWritten(d, e, dirStart * SECTOR_SIZE, r, HOLE))
  {
    hide EntryAt, EntryWritten;
    e := d;
    if r < n {
      ClearedEntry(d, dirStart * SECTOR_SIZE, r);
      e := Patch(d, dirStart * SECTOR_SIZE + r * DIR_ENTRY_SIZE, NO_BYTES);
    }
  }

  /** In a directory that stands for a map, the entry of a name is the only one of its inode. */
  lemma EntryOfName(d: seq<Byte>, at: nat, n: nat, m: map<Name, int>, key: Name) returns (r: nat)
    requires Refines(d, at, n, m) && key in m && m[key] != 0
    ensures r < n && OnlyEntry(d, at, n, m[key], r) && IsLive(d, at, n, r) && EntryAt(d, at, r) == Entry(m[key], key)
  {
    hide EntryAt;
    r :| IsLive(d, at, n, r) && EntryAt(d, at, r).name == key;
    forall i: nat | i < n && EntryAt(d, at, i).nr == m[key] ensures i == r {
      assert IsLive(d, at, n, i);
    }
  }

  method WalkAndRemove(dev: Disk, dirStart: nat, nrDirBlks: nat, nrDirEntries: nat, dirSize: nat, inodeNr: int,
                       ghost d: seq<Byte>, ghost e: seq<Byte>, ghost r: nat)
    returns (flg: bool, newSize: nat)
    requires dev.Valid() && dev.bytes[..] == d && Removing(d, e, dirStart, nrDirEntries, inodeNr, r)
    requires nrDirBlks <= NR_DEFAULT_FILE_SECTS && nrDirEntries < nrDirBlks * PER_BLOCK
    requires dirSize == nrDirEntries * DIR_ENTRY_SIZE
    modifies dev.bytes, dev.fsbuf
    ensures dev.bytes[..] == (if flg then e else d) && (flg <==> r < nrDirEntries)
    ensures flg ==> newSize == SizeAfter(e, dirStart * SECTOR_SIZE, nrDirEntries, r)
  {
    hide EntryAt, LiveCount, Removing;
    var i: nat, m: nat, count: nat := 0, 0, 0;
    flg, newSize := false, dirSize;
    LiveNone(e, dirStart * SECTOR_SIZE);
    while i < nrDirBlks
      invariant i <= nrDirBlks && m == i * PER_BLOCK <= nrDirEntries && m <= r && !flg && dev.bytes[..] == d
      invariant count == LiveCount(e, dirStart * SECTOR_SIZE, m)
    {
      var stop;
      stop, flg, count := RemoveInBlock(dev, dirStart, i, nrDirEntries, inodeNr, count, d, e, r);
      m := if stop then nrDirEntries + 1 else m + PER_BLOCK;
      if m > nrDirEntries || flg {
        break;
      }
      i := i + 1;
    }
    if !flg {
      return;
    }
    WalkEnd(i, m, nrDirEntries, r);
    if m == nrDirEntries {
      newSize := count * DIR_ENTRY_SIZE;
    }
  }

  lemma LiveNone(e: seq<Byte>, at: nat)
    ensures LiveCount(e, at, 0) == 0
  {
  }

  lemma QuotientIs(x: nat, q: nat)
    requires q * PER_BLOCK <= x < (q + 1) * PER_BLOCK
    ensures x / PER_BLOCK == q
  {
  }

  lemma WalkEnd(i: nat, m: nat, n: nat, r: nat)
    requires i * PER_BLOCK <= r < n && (m == n + 1 ==> n < (i + 1) * PER_BLOCK)
    requires m == n + 1 || (m == (i + 1) * PER_BLOCK <= n && r < m)
    ensures m == n <==> n % PER_BLOCK == 0 && r / PER_BLOCK == n / PER_BLOCK - 1
  {
    if m == n + 1 {
      QuotientIs(n, i);
      assert n == i * PER_BLOCK + n % PER_BLOCK;
    } else {
      QuotientIs(r, i);
      assert n == n / PER_BLOCK * PER_BLOCK + n % PER_BLOCK;
      if m == n { QuotientIs(n, i + 1); }
    }
  }
}
