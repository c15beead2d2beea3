/** Making the file system: the maps, the first inodes and the directory of a fresh device. */
module Mkfs {
  import opened Config
  import opened Bytes
  import opened Device
  import opened Layout
  import opened Maps
  import opened Extents
  import opened Inodes
  import opened SuperBlocks
  import opened Directory
  import opened FsInv
  import Numerals

  const FIRST: nat := 4
  const ROOT_SIZE: int := 64

  /** The bits below n are set, and no others. */
  ghost predicate FirstBits(x: seq<Byte>, n: nat) {
    forall k: nat :: k < 8 * |x| ==> (BitAt(x, k) <==> k < n)
  }

  /** memset of the first sector of the buffer. */
  method Zero(dev: Disk)
    requires dev.Valid()
    modifies dev.fsbuf
    ensures forall i :: 0 <= i < SECTOR_SIZE ==> dev.fsbuf[i] == 0
  {
    forall i | 0 <= i < SECTOR_SIZE {
      dev.fsbuf[i] := 0;
    }
  }

  lemma ByteBits(x: seq<Byte>, n: nat)
    requires |x| == SECTOR_SIZE
    requires forall i, t :: 0 <= i < |x| && 0 <= t < 8 ==> (Bit(x[i], t) <==> 8 * i + t < n)
    ensures FirstBits(x, n)
  {
    forall k: nat | k < 8 * |x| ensures BitAt(x, k) <==> k < n {
      assert k == 8 * (k / 8) + k % 8;
    }
  }

  /** The inode map: 0, the root and the terminals. */
  method WriteImap(dev: Disk, sb: SuperBlock)
    requires dev.Valid() && Fits(sb, dev.bytes.Length)
    modifies dev.bytes, dev.fsbuf
    ensures SameOutside(old(dev.bytes[..]), dev.bytes[..], ImapAt(sb), SmapAt(sb))
    ensures FirstBits(ImapOf(sb, dev.bytes[..]), NR_CONSOLES + 2)
  {
    hide Bit, OrBit, BitAt;
    ghost var d := dev.bytes[..];
    Zero(dev);
    var i := 0;
    forall t | 0 <= t < 8 ensures !Bit(0, t) { NoBits(t); }
    while i < NR_CONSOLES + 2
      invariant 0 <= i <= NR_CONSOLES + 2 && dev.bytes[..] == d
      invariant forall k :: 0 < k < SECTOR_SIZE ==> dev.fsbuf[k] == 0
      invariant forall t :: 0 <= t < 8 ==> (Bit(dev.fsbuf[0], t) <==> t < i)
    {
      SetBits(dev.fsbuf[0], i);
      dev.fsbuf[0] := OrBit(dev.fsbuf[0], i);
      i := i + 1;
    }
    FirstFive(dev.fsbuf[0]);
    assert dev.fsbuf[0] == 0x1F;
    ghost var x := dev.fsbuf[..SECTOR_SIZE];
    ByteBits(x, NR_CONSOLES + 2);
    dev.WrSect(2);
    PatchedOutside(d, ImapAt(sb), x);
    assert ImapOf(sb, dev.bytes[..]) == x;
  }

  lemma FirstFive(b: Byte)
    requires forall t :: 0 <= t < 8 ==> (Bit(b, t) <==> t < 5)
    ensures b == 0x1F
  {
    assert Bit(0x1F, 0) && Bit(0x1F, 1) && Bit(0x1F, 2) && Bit(0x1F, 3) && Bit(0x1F, 4);
    assert !Bit(0x1F, 5) && !Bit(0x1F, 6) && !Bit(0x1F, 7);
    BitsDetermine(b, 0x1F);
  }

  lemma AllBits(t: nat)
    requires t < 8
    ensures Bit(0xFF, t)
  {
    Full(0xFF);
  }

  const MAP_BYTES: nat := 256

  lemma PatchedOutside(d: seq<Byte>, pos: nat, x: seq<Byte>)
    requires pos + |x| <= |d|
    ensures SameOutside(d, Patch(d, pos, x), pos, pos + |x|)
  {
    var e := Patch(d, pos, x);
    assert e[..pos] == d[..pos] && e[pos + |x|..] == d[pos + |x|..];
  }

  /** The first sector of the sector map, in the buffer: bit 0 and the block of the root. */
  method FillSmap(dev: Disk)
    requires dev.Valid()
    modifies dev.fsbuf
    ensures FirstBits(dev.fsbuf[..SECTOR_SIZE], NR_DEFAULT_FILE_SECTS + 1)
  {
    hide Bit, OrBit, BitAt;
    Zero(dev);
    forall t | 0 <= t < 8 ensures !Bit(0, t) && Bit(0xFF, t) { NoBits(t); AllBits(t); }
    var nrSects := NR_DEFAULT_FILE_SECTS + 1;
    var i := 0;
    while i < nrSects / 8
      invariant 0 <= i <= MAP_BYTES
      invariant forall k :: 0 <= k < SECTOR_SIZE ==> dev.fsbuf[k] == if k < i then 0xFF else 0
    {
      dev.fsbuf[i] := 0xFF;
      i := i + 1;
    }
    var j := 0;
    while j < nrSects % 8
      invariant 0 <= j <= 1 && i == MAP_BYTES
      invariant forall k :: 0 <= k < SECTOR_SIZE && k != i ==> dev.fsbuf[k] == if k < i then 0xFF else 0
      invariant forall t :: 0 <= t < 8 ==> (Bit(dev.fsbuf[i], t) <==> t < j)
    {
      SetBits(dev.fsbuf[i], j);
      dev.fsbuf[i] := OrBit(dev.fsbuf[i], j);
      j := j + 1;
    }
    ByteBits(dev.fsbuf[..SECTOR_SIZE], nrSects);
  }

  /** The sector map: its first sector, and zeros for the rest. */
  method WriteSmap(dev: Disk, sb: SuperBlock)
    requires dev.Valid() && Fits(sb, dev.bytes.Length)
    modifies dev.bytes, dev.fsbuf
    ensures SameOutside(old(dev.bytes[..]), dev.bytes[..], SmapAt(sb), InodesAt(sb))
    ensures FirstBits(SmapOf(sb, dev.bytes[..]), NR_DEFAULT_FILE_SECTS + 1)
  {
    hide FirstBits, SmapFilled;
    ghost var d0 := dev.bytes[..];
    RegionsAreDisjoint(sb, |d0|);
    FillSmap(dev);
    ghost var x := dev.fsbuf[..SECTOR_SIZE];
    dev.WrSect(2 + sb.nrImapSects);
    FirstOfSmap(sb, d0, dev.bytes[..], x);
    Zero(dev);
    var i := 1;
    while i < sb.nrSmapSects
      invariant 1 <= i <= sb.nrSmapSects && SmapFilled(sb, d0, dev.bytes[..], x, i)
      invariant forall k :: 0 <= k < SECTOR_SIZE ==> dev.fsbuf[k] == 0
    {
      ghost var e := dev.bytes[..];
      dev.WrSect(2 + sb.nrImapSects + i);
      OneMoreZero(sb, d0, e, dev.bytes[..], x, i, dev.fsbuf[..SECTOR_SIZE]);
      i := i + 1;
    }
    FilledSmap(sb, d0, dev.bytes[..], x);
  }

  /** The first n sectors of the map have been written: x, then zeros. */
  ghost predicate SmapFilled(sb: SuperBlock, d: seq<Byte>, e: seq<Byte>, x: seq<Byte>, n: nat) {
    && Fits(sb, |d|) && |e| == |d| && |x| == SECTOR_SIZE && 1 <= n <= sb.nrSmapSects
    && InodesAt(sb) <= |d| && SmapAt(sb) + sb.nrSmapSects * SECTOR_SIZE == InodesAt(sb)
    && forall p :: 0 <= p < |d| ==>
        e[p] == if SmapAt(sb) <= p < SmapAt(sb) + SECTOR_SIZE then x[p - SmapAt(sb)]
                else if SmapAt(sb) <= p < SmapAt(sb) + n * SECTOR_SIZE then 0 else d[p]
  }

  lemma FirstOfSmap(sb: SuperBlock, d: seq<Byte>, e: seq<Byte>, x: seq<Byte>)
    requires Fits(sb, |d|) && |x| == SECTOR_SIZE && SmapAt(sb) + SECTOR_SIZE <= |d| && e == Patch(d, SmapAt(sb), x)
    ensures SmapFilled(sb, d, e, x, 1)
  {
    RegionsAreDisjoint(sb, |d|);
  }

  lemma OneMoreZero(sb: SuperBlock, d: seq<Byte>, e: seq<Byte>, e': seq<Byte>, x: seq<Byte>, n: nat, z: seq<Byte>)
    requires SmapFilled(sb, d, e, x, n) && n < sb.nrSmapSects
    requires |z| == SECTOR_SIZE && forall k :: 0 <= k < |z| ==> z[k] == 0
    requires SmapAt(sb) + n * SECTOR_SIZE + SECTOR_SIZE <= |e| && e' == Patch(e, SmapAt(sb) + n * SECTOR_SIZE, z)
    ensures SmapFilled(sb, d, e', x, n + 1)
  {
  }

  lemma FilledSmap(sb: SuperBlock, d: seq<Byte>, e: seq<Byte>, x: seq<Byte>)
    requires SmapFilled(sb, d, e, x, sb.nrSmapSects) && FirstBits(x, NR_DEFAULT_FILE_SECTS + 1)
    ensures SameOutside(d, e, SmapAt(sb), InodesAt(sb)) && FirstBits(SmapOf(sb, e), NR_DEFAULT_FILE_SECTS + 1)
  {
    hide Bit;
    var m := SmapOf(sb, e);
    assert e[..SmapAt(sb)] == d[..SmapAt(sb)] && e[InodesAt(sb)..] == d[InodesAt(sb)..];
    forall k: nat | k < 8 * |m| ensures BitAt(m, k) <==> k < NR_DEFAULT_FILE_SECTS + 1 {
      if k < BITS {
        assert m[k / 8] == x[k / 8];
        assert BitAt(x, k) <==> k < NR_DEFAULT_FILE_SECTS + 1;
      } else {
        assert m[k / 8] == 0;
        NoBits(k % 8);
      }
    }
  }

  // ----- The first inodes -----

  function RootRecord(sb: SuperBlock): Record
    requires sb.n1stSect < WORD
  {
    Record(I_DIRECTORY, ROOT_SIZE, sb.n1stSect, NR_DEFAULT_FILE_SECTS)
  }

  /** MAKE_DEV(DEV_CHAR_TTY, i) stands where other files have their first sector. */
  function TermRecord(i: nat): Record
    requires i < NR_CONSOLES
  {
    Record(I_CHAR_SPECIAL, 0, DEV_CHAR_TTY * 0x100 + i, 0)
  }

  function FirstRecord(sb: SuperBlock, num: int): Record
    requires sb.n1stSect < WORD && 1 <= num <= FIRST
  {
    if num == ROOT_INODE then RootRecord(sb) else TermRecord(num - 2)
  }

  /** y is the sector x with the record of inode num put in its place. */
  ghost predicate RecordPut(x: seq<Byte>, y: seq<Byte>, num: nat, r: Record) {
    |x| == SECTOR_SIZE && 1 <= num <= FIRST && y == Patch(x, (num - 1) * INODE_SIZE, RecordBytes(r))
  }

  method PutRecord(dev: Disk, num: nat, r: Record)
    requires dev.Valid() && 1 <= num <= FIRST
    modifies dev.fsbuf
    ensures RecordPut(old(dev.fsbuf[..SECTOR_SIZE]), dev.fsbuf[..SECTOR_SIZE], num, r)
  {
    hide RecordBytes;
    var x, at := RecordBytes(r), (num - 1) * INODE_SIZE;
    forall k | 0 <= k < 16 {
      dev.fsbuf[at + k] := x[k];
    }
  }

  /** The records of the root and the terminals, in the first sector of the inode array. */
  method WriteInodes(dev: Disk, sb: SuperBlock)
    requires dev.Valid() && Fits(sb, dev.bytes.Length) && sb.n1stSect < WORD
    modifies dev.bytes, dev.fsbuf
    ensures SameOutside(old(dev.bytes[..]), dev.bytes[..], InodesAt(sb), InodesAt(sb) + SECTOR_SIZE)
    ensures forall num :: 1 <= num <= FIRST ==> RecordOf(sb, dev.bytes[..], num) == FirstRecord(sb, num)
  {
    hide RecordOf, RecordBytes, Patch;
    ghost var d := dev.bytes[..];
    RegionsAreDisjoint(sb, |d|);
    Zero(dev);
    ghost var x := dev.fsbuf[..SECTOR_SIZE];
    PutRecord(dev, 1, RootRecord(sb));
    RecordWritten(sb, d, x, dev.fsbuf[..SECTOR_SIZE], 1, RootRecord(sb));
    var i := 0;
    while i < NR_CONSOLES
      invariant 0 <= i <= NR_CONSOLES && dev.bytes[..] == d
      invariant HoldsRecords(sb, Patch(d, InodesAt(sb), dev.fsbuf[..SECTOR_SIZE]), i + 1)
    {
      x := dev.fsbuf[..SECTOR_SIZE];
      PutRecord(dev, i + 2, TermRecord(i));
      RecordWritten(sb, d, x, dev.fsbuf[..SECTOR_SIZE], i + 2, TermRecord(i));
      i := i + 1;
    }
    x := dev.fsbuf[..SECTOR_SIZE];
    dev.WrSect(2 + sb.nrImapSects + sb.nrSmapSects);
    PatchedOutside(d, InodesAt(sb), x);
  }

  /** The first n inodes have their records. */
  ghost predicate HoldsRecords(sb: SuperBlock, e: seq<Byte>, n: nat) {
    Fits(sb, |e|) && sb.n1stSect < WORD && n <= FIRST && forall num :: 1 <= num <= n ==>
      RecordOf(sb, e, num) == FirstRecord(sb, num)
  }

  /** Changing part of a sector that is to be written. */
  lemma PatchTwice(d: seq<Byte>, pos: nat, x: seq<Byte>, at: nat, z: seq<Byte>)
    requires pos + |x| <= |d| && at + |z| <= |x|
    ensures Patch(d, pos, Patch(x, at, z)) == Patch(Patch(d, pos, x), pos + at, z)
  {
  }

  lemma RecordInPlace(sb: SuperBlock, d: seq<Byte>, x: seq<Byte>, y: seq<Byte>, num: nat, r: Record)
    requires RecordPut(x, y, num, r) && InodesAt(sb) + SECTOR_SIZE <= |d|
    ensures |y| == |x| && Patch(d, InodesAt(sb), y) ==
      Patch(Patch(d, InodesAt(sb), x), RecordPos(sb, num), RecordBytes(r))
  {
    hide RecordBytes, Patch;
    PatchTwice(d, InodesAt(sb), x, (num - 1) * INODE_SIZE, RecordBytes(r));
  }

  lemma OneMoreRecord(sb: SuperBlock, e: seq<Byte>, e': seq<Byte>, num: nat, r: Record)
    requires 1 <= num <= FIRST && Rewritten(sb, e, e', num, r) && sb.n1stSect < WORD && r == FirstRecord(sb, num)
    requires num == 1 || HoldsRecords(sb, e, num - 1)
    ensures HoldsRecords(sb, e', num)
  {
    hide RecordOf, SameOutside;
    forall m | 1 <= m < num ensures RecordOf(sb, e', m) == FirstRecord(sb, m) {
      RewritesOneRecord(sb, e, e', num, r, m);
    }
  }

  lemma RecordWritten(sb: SuperBlock, d: seq<Byte>, x: seq<Byte>, y: seq<Byte>, num: nat, r: Record)
    requires Fits(sb, |d|) && sb.n1stSect < WORD && InodesAt(sb) + SECTOR_SIZE <= |d|
    requires RecordPut(x, y, num, r) && r == FirstRecord(sb, num)
    requires num == 1 || HoldsRecords(sb, Patch(d, InodesAt(sb), x), num - 1)
    ensures |y| == |x| && HoldsRecords(sb, Patch(d, InodesAt(sb), y), num)
  {
    hide RecordOf, RecordBytes, Patch, HoldsRecords, FirstRecord, Rewritten;
    var e := Patch(d, InodesAt(sb), x);
    RecordInPlace(sb, d, x, y, num, r);
    PatchedRecord(sb, e, num, r);
    OneMoreRecord(sb, e, Patch(d, InodesAt(sb), y), num, r);
  }

  // ----- The directory -----

  const DOT: Byte := 0x2E
  const DEV_TTY: Name := [0x64, 0x65, 0x76, 0x5F, 0x74, 0x74, 0x79]

  function Digit(i: nat): Byte
    requires i < NR_CONSOLES
  {
    if i == 0 then 0x30 else if i == 1 then 0x31 else 0x32
  }

  /** The name of inode i + 1: a dot, or the terminals in order. */
  function FirstName(i: nat): Name
    requires i < FIRST
  {
    if i == 0 then [DOT] else DEV_TTY + [Digit(i - 1)]
  }

  /** What a directory with the first n entries stands for. */
  ghost function FirstFiles(n: nat): map<Name, int>
    requires n <= FIRST
  {
    if n == 0 then map[] else FirstFiles(n - 1)[Padded(FirstName(n - 1)) := n]
  }

  lemma FirstNameFacts(i: nat, j: nat)
    requires i < FIRST && j < FIRST
    ensures 0 < |FirstName(i)| < MAX_FILENAME_LEN && 0 !in FirstName(i)
    ensures Padded(FirstName(i)) == Padded(FirstName(j)) ==> i == j
  {
    if i != j {
      PaddedAt(FirstName(i), 0);
      PaddedAt(FirstName(j), 0);
      PaddedAt(FirstName(i), 7);
      PaddedAt(FirstName(j), 7);
    }
  }

  lemma {:induction false} FirstFilesAre(n: nat, x: Name)
    requires n <= FIRST && x in FirstFiles(n)
    ensures 1 <= FirstFiles(n)[x] <= n && x == Padded(FirstName(FirstFiles(n)[x] - 1))
  {
    hide Padded;
    if x != Padded(FirstName(n - 1)) { FirstFilesAre(n - 1, x); }
  }

  lemma {:induction false} FirstFilesHave(n: nat, i: nat)
    requires i < n <= FIRST
    ensures Padded(FirstName(i)) in FirstFiles(n) && FirstFiles(n)[Padded(FirstName(i))] == i + 1
  {
    if i < n - 1 {
      FirstFilesHave(n - 1, i);
      FirstNameFacts(i, n - 1);
    }
  }

  /** The name reads "dev_tty" and the decimal numeral of i. */
  ghost predicate NamesTerminal(name: Name, i: nat)
    requires i < NR_CONSOLES
  {
    var numeral := Numerals.Decimal(i);
    && |name| == |"dev_tty"| + |numeral|
    && (forall k :: 0 <= k < |"dev_tty"| ==> name[k] as int == "dev_tty"[k] as int)
    && forall k :: 0 <= k < |numeral| ==> name[|"dev_tty"| + k] as int == numeral[k]
  }

  lemma NamedByDigit(name: Name, i: nat)
    requires i < NR_CONSOLES && NamesTerminal(name, i)
    ensures name == FirstName(i + 1)
  {
    hide FirstName;
    OneDigit(i);
    forall k | 0 <= k < |name| ensures name[k] == FirstName(i + 1)[k] {
      TerminalCode(i, k);
      var j := k - |"dev_tty"|;
      if j >= 0 { assert name[|"dev_tty"| + j] as int == Numerals.Decimal(i)[j]; }
      SameByte(name[k], FirstName(i + 1)[k]);
    }
  }

  lemma OneDigit(i: nat)
    requires i < NR_CONSOLES
    ensures Numerals.Decimal(i) == [Numerals.ZERO + i] && |FirstName(i + 1)| == |"dev_tty"| + 1
  {
  }

  lemma TerminalCode(i: nat, k: nat)
    requires i < NR_CONSOLES && k <= |"dev_tty"|
    ensures |FirstName(i + 1)| == |"dev_tty"| + 1
    ensures FirstName(i + 1)[k] as int == if k < |"dev_tty"| then "dev_tty"[k] as int else Numerals.ZERO + i
  {
  }

  lemma SameByte(a: Byte, b: Byte)
    requires a as int == b as int
    ensures a == b
  {
  }

  /**
   The file with the number of a terminal in its name, with or without a slash before it, is the terminal of that
   number, and its inode the one that comes two after that number.
   */
  lemma TerminalsAreInOrder(sb: SuperBlock, d: seq<Byte>, name: Name, i: nat)
    requires HoldsRecords(sb, d, FIRST) && i < NR_CONSOLES && NamesTerminal(name, i)
    ensures Lookup(FirstFiles(FIRST), name) == Lookup(FirstFiles(FIRST), [SLASH] + name) == i + 2
    ensures var r := RecordOf(sb, d, i + 2); IsTerminal(r) && r.start % 0x100 == i
  {
    hide Padded, FirstFiles, Lookup, RecordOf, Fits;
    NamedByDigit(name, i);
    FirstNameFacts(i + 1, i + 1);
    FirstFilesHave(FIRST, i + 1);
    LooksUpName(FirstFiles(FIRST), name);
  }

  /** A zeroed directory stands for no files. */
  lemma EmptyDirectory(d: seq<Byte>, at: nat)
    requires InRange(d, at, 0) && forall p :: at <= p < at + MAX_ENTRIES * DIR_ENTRY_SIZE ==> d[p] == 0
    ensures Refines(d, at, 0, map[])
  {
    forall i: nat | i < MAX_ENTRIES ensures EntryAt(d, at, i) == HOLE {
      var p := at + i * DIR_ENTRY_SIZE;
      ZeroWord();
      assert d[p..p + 4] == [0, 0, 0, 0] && d[p + 4..p + 16] == HOLE.name;
    }
  }

  /** One more entry in the buffer is one more file in the directory. */
  lemma OneMoreFile(d: seq<Byte>, at: nat, x: seq<Byte>, y: seq<Byte>, n: nat)
    requires |x| == SECTOR_SIZE && n < FIRST && at + SECTOR_SIZE <= |d|
    requires Refines(Patch(d, at, x), at, n, FirstFiles(n)) && AllLive(Patch(d, at, x), at, n)
    requires y == Patch(x, n * DIR_ENTRY_SIZE, WordBytes(n + 1) + FirstName(n) + [0])
    ensures Refines(Patch(d, at, y), at, n + 1, FirstFiles(n + 1)) && AllLive(Patch(d, at, y), at, n + 1)
  {
    hide Refines, EntryAt, WordBytes, Patch, Padded, FirstName;
    var e, e' := Patch(d, at, x), Patch(d, at, y);
    FirstNameFacts(n, n);
    PatchTwice(d, at, x, n * DIR_ENTRY_SIZE, WordBytes(n + 1) + FirstName(n) + [0]);
    RefinesRange(e, at, n, FirstFiles(n));
    HoleBehind(e, at, n, FirstFiles(n));
    FilledEntry(e, at, n, n + 1, FirstName(n));
    ProperPadded(FirstName(n));
    forall z | z in FirstFiles(n) ensures FirstFiles(n)[z] != n + 1 && z != Padded(FirstName(n)) {
      FirstFilesAre(n, z);
      FirstNameFacts(FirstFiles(n)[z] - 1, n);
    }
    InsertRefines(e, e', at, n, FirstFiles(n), n, Entry(n + 1, Padded(FirstName(n))));
    OneMoreLive(e, e', at, n, Entry(n + 1, Padded(FirstName(n))));
  }

  lemma OneMoreLive(e: seq<Byte>, e': seq<Byte>, at: nat, n: nat, x: Entry)
    requires AllLive(e, at, n) && EntryWritten(e, e', at, n, x) && x.nr != 0
    ensures AllLive(e', at, n + 1)
  {
    hide EntryAt;
    var n' := n + 1;
    forall i: nat | i < n' ensures IsLive(e', at, n', i) {
      assert i < n ==> IsLive(e, at, n, i);
    }
  }

  lemma HoleBehind(d: seq<Byte>, at: nat, n: nat, m: map<Name, int>)
    requires Refines(d, at, n, m) && n < MAX_ENTRIES && AllLive(d, at, n)
    ensures EntryAt(d, at, n) == HOLE && IsFirstHole(d, at, n, n)
  {
    hide EntryAt;
    assert !IsLive(d, at, n, n);
  }

  /** The first sector of the directory; the rest of its extent is expected to be zero. */
  method WriteRootDir(dev: Disk, sb: SuperBlock)
    requires dev.Valid() && InRange(dev.bytes[..], DataAt(sb), 0)
    requires forall p :: DataAt(sb) + SECTOR_SIZE <= p < DataAt(sb) + MAX_ENTRIES * DIR_ENTRY_SIZE ==> dev.bytes[p] == 0
    modifies dev.bytes, dev.fsbuf
    ensures SameOutside(old(dev.bytes[..]), dev.bytes[..], DataAt(sb), DataAt(sb) + SECTOR_SIZE)
    ensures Refines(dev.bytes[..], DataAt(sb), FIRST, FirstFiles(FIRST)) && AllLive(dev.bytes[..], DataAt(sb), FIRST)
  {
    hide Refines, AllLive, WordBytes, FirstFiles;
    ghost var d, at := dev.bytes[..], DataAt(sb);
    Zero(dev);
    ghost var x := dev.fsbuf[..SECTOR_SIZE];
    NoFiles(d, at, x);
    FillSlot(dev, 0, 1, [DOT]);
    OneMoreFile(d, at, x, dev.fsbuf[..SECTOR_SIZE], 0);
    var i := 0;
    while i < NR_CONSOLES
      invariant 0 <= i <= NR_CONSOLES && dev.bytes[..] == d
      invariant Refines(Patch(d, at, dev.fsbuf[..SECTOR_SIZE]), at, i + 1, FirstFiles(i + 1))
      invariant AllLive(Patch(d, at, dev.fsbuf[..SECTOR_SIZE]), at, i + 1)
    {
      x := dev.fsbuf[..SECTOR_SIZE];
      FirstNameFacts(i + 1, i + 1);
      FillSlot(dev, i + 1, i + 2, DEV_TTY + [Digit(i)]);
      OneMoreFile(d, at, x, dev.fsbuf[..SECTOR_SIZE], i + 1);
      i := i + 1;
    }
    x := dev.fsbuf[..SECTOR_SIZE];
    dev.WrSect(sb.n1stSect);
    PatchedOutside(d, at, x);
  }

  lemma NoFiles(d: seq<Byte>, at: nat, x: seq<Byte>)
    requires InRange(d, at, 0) && |x| == SECTOR_SIZE && forall i :: 0 <= i < SECTOR_SIZE ==> x[i] == 0
    requires forall p :: at + SECTOR_SIZE <= p < at + MAX_ENTRIES * DIR_ENTRY_SIZE ==> d[p] == 0
    ensures Refines(Patch(d, at, x), at, 0, FirstFiles(0)) && AllLive(Patch(d, at, x), at, 0)
  {
    hide Refines;
    EmptyDirectory(Patch(d, at, x), at);
  }

  /** What the super block says of directories: how long an entry is, and where in it the number and the name are. */
  lemma SaysWhereEntriesAre(sb: SuperBlock, d: seq<Byte>, at: nat, i: nat)
    requires SuperAt(sb, d) && at + (i + 1) * DIR_ENTRY_SIZE <= |d|
    ensures HasWord(d, at + i * Said(d, 11) + Said(d, 12), EntryAt(d, at, i).nr)
    ensures HasName(d, at + i * Said(d, 11) + Said(d, 13), EntryAt(d, at, i).name)
  {
    hide WordAt;
    assert Said(d, 11) == SuperWords(sb)[11] && Said(d, 12) == SuperWords(sb)[12] && Said(d, 13) == SuperWords(sb)[13];
  }

  /** The name at byte p of a device. */
  ghost predicate HasName(d: seq<Byte>, p: int, name: Name) {
    0 <= p && p + MAX_FILENAME_LEN <= |d| && d[p..p + MAX_FILENAME_LEN] == name
  }

  // ----- The whole -----

  ghost function FirstBlocks(): map<int, nat> { map[ROOT_INODE := 0] }

  /** The rest of the directory's extent, behind its first sector. */
  ghost predicate RestIsZero(sb: SuperBlock, d: seq<Byte>) {
    && InRange(d, DataAt(sb), 0)
    && forall p :: DataAt(sb) + SECTOR_SIZE <= p < DataAt(sb) + MAX_ENTRIES * DIR_ENTRY_SIZE ==> d[p] == 0
  }

  lemma RestKept(sb: SuperBlock, d: seq<Byte>, e: seq<Byte>, lo: nat, hi: nat)
    requires RestIsZero(sb, d) && SameOutside(d, e, lo, hi) && hi <= DataAt(sb)
    ensures RestIsZero(sb, e)
  {
    BytesElsewhere(d, e, lo, hi, DataAt(sb), |d|);
    forall p | DataAt(sb) + SECTOR_SIZE <= p < DataAt(sb) + MAX_ENTRIES * DIR_ENTRY_SIZE ensures e[p] == 0 {
      assert e[p] == e[DataAt(sb)..|d|][p - DataAt(sb)] == d[DataAt(sb)..|d|][p - DataAt(sb)];
    }
  }

  /** A made file system is in order: it holds the root and the terminals, and one block is taken. */
  method MakeFs(dev: Disk, sb: SuperBlock)
    requires dev.Valid() && Fits(sb, dev.bytes.Length) && Storable(sb) && RestIsZero(sb, dev.bytes[..])
    modifies dev.bytes, dev.fsbuf
    ensures DiskOk(sb, dev.bytes[..], FirstFiles(FIRST), FirstBlocks()) && HoldsRecords(sb, dev.bytes[..], FIRST)
    ensures AllLive(dev.bytes[..], DataAt(sb), FIRST)
  {
    hide FirstBits, RecordOf, FirstRecord, Refines, FirstFiles, DiskOk, SameOutside, SuperAt, AllLive;
    RegionsAreDisjoint(sb, dev.bytes.Length);
    ghost var d := dev.bytes[..];
    WriteSuper(dev, sb);
    ghost var d0 := dev.bytes[..];
    RestKept(sb, d, d0, SECTOR_SIZE, 2 * SECTOR_SIZE);
    WriteImap(dev, sb);
    ghost var d1 := dev.bytes[..];
    RestKept(sb, d0, d1, ImapAt(sb), SmapAt(sb));
    FrameSuper(sb, d0, d1, ImapAt(sb), SmapAt(sb));
    WriteSmap(dev, sb);
    ghost var d2 := dev.bytes[..];
    RestKept(sb, d1, d2, SmapAt(sb), InodesAt(sb));
    WriteInodes(dev, sb);
    ghost var d3 := dev.bytes[..];
    RestKept(sb, d2, d3, InodesAt(sb), InodesAt(sb) + SECTOR_SIZE);
    WriteRootDir(dev, sb);
    FreshDisk(sb, d1, d2, d3, dev.bytes[..]);
  }

  lemma FreshDisk(sb: SuperBlock, d1: seq<Byte>, d2: seq<Byte>, d3: seq<Byte>, d4: seq<Byte>)
    requires Fits(sb, |d1|) && sb.n1stSect < WORD && SuperAt(sb, d1) && FirstBits(ImapOf(sb, d1), NR_CONSOLES + 2)
    requires SameOutside(d1, d2, SmapAt(sb), InodesAt(sb)) && FirstBits(SmapOf(sb, d2), NR_DEFAULT_FILE_SECTS + 1)
    requires SameOutside(d2, d3, InodesAt(sb), InodesAt(sb) + SECTOR_SIZE) && HoldsRecords(sb, d3, FIRST)
    requires SameOutside(d3, d4, DataAt(sb), DataAt(sb) + SECTOR_SIZE)
    requires Refines(d4, DataAt(sb), FIRST, FirstFiles(FIRST))
    ensures DiskOk(sb, d4, FirstFiles(FIRST), FirstBlocks()) && HoldsRecords(sb, d4, FIRST)
  {
    hide FirstBits, RecordOf, Refines, FirstFiles, SameOutside, HoldsBlocks, ExtentsOk, ImapMarks, SuperAt;
    RegionsAreDisjoint(sb, |d1|);
    FrameSuper(sb, d1, d2, SmapAt(sb), InodesAt(sb));
    FrameSuper(sb, d2, d3, InodesAt(sb), InodesAt(sb) + SECTOR_SIZE);
    FrameSuper(sb, d3, d4, DataAt(sb), DataAt(sb) + SECTOR_SIZE);
    FrameImap(sb, d1, d2, SmapAt(sb), InodesAt(sb));
    FrameImap(sb, d2, d3, InodesAt(sb), InodesAt(sb) + SECTOR_SIZE);
    FrameImap(sb, d3, d4, DataAt(sb), DataAt(sb) + SECTOR_SIZE);
    FrameSmap(sb, d2, d3, InodesAt(sb), InodesAt(sb) + SECTOR_SIZE);
    FrameSmap(sb, d3, d4, DataAt(sb), DataAt(sb) + SECTOR_SIZE);
    FrameRecords(sb, d3, d4, DataAt(sb), DataAt(sb) + SECTOR_SIZE);
    FirstImap(sb, d4);
    FirstSmap(sb, d4);
    FirstExtents(sb, d4);
  }

  lemma FirstInUse(i: int)
    ensures InUse(FirstFiles(FIRST), i) <==> 1 <= i <= FIRST
  {
    if InUse(FirstFiles(FIRST), i) {
      var x :| x in FirstFiles(FIRST) && FirstFiles(FIRST)[x] == i;
      FirstFilesAre(FIRST, x);
    }
    if 1 <= i <= FIRST { FirstFilesHave(FIRST, i - 1); }
  }

  lemma FirstImap(sb: SuperBlock, d: seq<Byte>)
    requires Fits(sb, |d|) && FirstBits(ImapOf(sb, d), NR_CONSOLES + 2)
    ensures ImapMarks(sb, d, FirstFiles(FIRST))
  {
    hide FirstFiles, BitAt, InUse;
    RegionsAreDisjoint(sb, |d|);
    forall k: nat | k < BITS ensures BitAt(ImapOf(sb, d), k) <==> k == 0 || InUse(FirstFiles(FIRST), k) {
      FirstInUse(k);
    }
  }

  lemma FirstSmap(sb: SuperBlock, d: seq<Byte>)
    requires Fits(sb, |d|) && FirstBits(SmapOf(sb, d), NR_DEFAULT_FILE_SECTS + 1)
    ensures HoldsBlocks(SmapOf(sb, d), Held(FirstBlocks()))
  {
    hide BitAt;
    RegionsAreDisjoint(sb, |d|);
    assert Held(FirstBlocks()) == {0} by { assert FirstBlocks()[ROOT_INODE] in Held(FirstBlocks()); }
    forall k: nat | k < 8 * |SmapOf(sb, d)| ensures BitAt(SmapOf(sb, d), k) <==>
      k == 0 || BlockOf(k) in Held(FirstBlocks()) {
      if k > 0 { InBlock(0, k); }
    }
  }

  lemma FirstExtents(sb: SuperBlock, d: seq<Byte>)
    requires Fits(sb, |d|) && sb.n1stSect < WORD
    requires forall num :: 1 <= num <= FIRST ==> RecordOf(sb, d, num) == FirstRecord(sb, num)
    ensures RootOk(sb, RecordOf(sb, d, ROOT_INODE)) && ExtentsOk(sb, d, FirstFiles(FIRST), FirstBlocks())
    ensures RecordOf(sb, d, ROOT_INODE).size == ROOT_SIZE
  {
    hide RecordOf, FirstFiles, InUse;
    forall i ensures InUse(FirstFiles(FIRST), i) <==> 1 <= i <= FIRST { FirstInUse(i); }
  }
}
