/**
 The super block in sector 1: fourteen words, of which the first tells a device with a file system from one without.
 */
module SuperBlocks {
  import opened Bytes
  import opened Device
  import opened Layout
  import opened Inodes

  const MAGIC_V1: int := 0x111
  const NR_WORDS: nat := 14

  /** The fields of the super block in order; the last seven describe the structures of the file system. */
  function SuperWords(sb: SuperBlock): seq<int> {
    [MAGIC_V1, NR_INODES, sb.nrSects, sb.nrImapSects, sb.nrSmapSects, sb.n1stSect, sb.nrInodeSects,
     1, INODE_SIZE, 4, 8, 16, 0, 4]
  }

  ghost predicate Storable(sb: SuperBlock) {
    sb.nrSects < WORD && sb.nrImapSects < WORD && sb.nrSmapSects < WORD && sb.n1stSect < WORD && sb.nrInodeSects < WORD
  }

  /** Sector 1 holds the super block. */
  ghost predicate SuperAt(sb: SuperBlock, d: seq<Byte>) {
    |d| >= 2 * SECTOR_SIZE
    && forall k: nat :: k < NR_WORDS ==> WordAt(d, SECTOR_SIZE + 4 * k) == SuperWords(sb)[k]
  }

  /** A change behind sector 1 leaves it. */
  lemma FrameSuper(sb: SuperBlock, d: seq<Byte>, e: seq<Byte>, lo: nat, hi: nat)
    requires SuperAt(sb, d) && SameOutside(d, e, lo, hi) && 2 * SECTOR_SIZE <= lo
    ensures SuperAt(sb, e)
  {
    hide Word;
    forall k: nat | k < NR_WORDS ensures WordAt(e, SECTOR_SIZE + 4 * k) == SuperWords(sb)[k] {
      WordElsewhere(d, e, lo, hi, SECTOR_SIZE + 4 * k);
    }
  }

  function WordsBytes(ws: seq<int>): (r: seq<Byte>)
    requires forall i :: 0 <= i < |ws| ==> 0 <= ws[i] < WORD
    ensures |r| == 4 * |ws|
  {
    if ws == [] then [] else WordBytes(ws[0]) + WordsBytes(ws[1..])
  }

  lemma {:induction false} WordsBytesAt(ws: seq<int>, k: nat)
    requires (forall i :: 0 <= i < |ws| ==> 0 <= ws[i] < WORD) && k < |ws|
    ensures WordAt(WordsBytes(ws), 4 * k) == ws[k]
  {
    hide Word, WordBytes;
    var x, y := WordBytes(ws[0]), WordsBytes(ws[1..]);
    if k == 0 {
      assert (x + y)[0..4] == x;
      WordRoundTrip(ws[0]);
    } else {
      WordsBytesAt(ws[1..], k - 1);
      assert (x + y)[4 * k..4 * k + 4] == y[4 * (k - 1)..4 * (k - 1) + 4];
    }
  }

  /** Write the super block over a sector of filler. */
  method WriteSuper(dev: Disk, sb: SuperBlock)
    requires dev.Valid() && dev.bytes.Length >= 2 * SECTOR_SIZE && Storable(sb)
    modifies dev.bytes, dev.fsbuf
    ensures SuperAt(sb, dev.bytes[..]) && SameOutside(old(dev.bytes[..]), dev.bytes[..], SECTOR_SIZE, 2 * SECTOR_SIZE)
  {
    hide WordsBytes, Word, Patch, SameOutside;
    ghost var d := dev.bytes[..];
    forall i | 0 <= i < SECTOR_SIZE {
      dev.fsbuf[i] := 0x90;
    }
    var x := WordsBytes(SuperWords(sb));
    forall i | 0 <= i < |x| {
      dev.fsbuf[i] := x[i];
    }
    ghost var b := dev.fsbuf[..SECTOR_SIZE];
    assert b[..|x|] == x;
    dev.WrSect(1);
    ghost var e := dev.bytes[..];
    assert e == Patch(d, SECTOR_SIZE, b);
    Written(d, b, x, e);
    forall k: nat | k < NR_WORDS ensures WordAt(e, SECTOR_SIZE + 4 * k) == SuperWords(sb)[k] {
      WordsBytesAt(SuperWords(sb), k);
      SliceOfSlice(e, SECTOR_SIZE, SECTOR_SIZE + |x|, 4 * k, 4 * k + 4);
    }
  }

  /** A sector written at sector 1, of which x are the first bytes. */
  lemma Written(d: seq<Byte>, b: seq<Byte>, x: seq<Byte>, e: seq<Byte>)
    requires 2 * SECTOR_SIZE <= |d| && |b| == SECTOR_SIZE && |x| <= |b| && b[..|x|] == x
    requires e == Patch(d, SECTOR_SIZE, b)
    ensures e[SECTOR_SIZE..SECTOR_SIZE + |x|] == x && SameOutside(d, e, SECTOR_SIZE, 2 * SECTOR_SIZE)
  {
    assert e[..SECTOR_SIZE] == d[..SECTOR_SIZE] && e[2 * SECTOR_SIZE..] == d[2 * SECTOR_SIZE..];
  }

  /** The magic number and the super block as sector 1 has them. */
  method ReadSuper(dev: Disk) returns (magic: int, sb: SuperBlock)
    requires dev.Valid() && dev.bytes.Length >= 2 * SECTOR_SIZE
    modifies dev.fsbuf
    ensures magic == WordAt(dev.bytes[..], SECTOR_SIZE)
    ensures forall s: SuperBlock :: SuperAt(s, dev.bytes[..]) ==> magic == MAGIC_V1 && sb == s
  {
    hide Word;
    dev.RdSect(1);
    var x := dev.fsbuf[..SECTOR_SIZE];
    ghost var d := dev.bytes[..];
    forall k: nat | k < NR_WORDS ensures WordAt(x, 4 * k) == WordAt(d, SECTOR_SIZE + 4 * k) && WordAt(x, 4 * k) >= 0 {
      WordInSector(d, x, SECTOR_SIZE, 4 * k);
    }
    magic := SuperWord(x, 0);
    sb := SuperBlock(SuperWord(x, 3), SuperWord(x, 4), SuperWord(x, 6), SuperWord(x, 5), SuperWord(x, 2));
    forall s: SuperBlock | SuperAt(s, d) ensures magic == MAGIC_V1 && sb == s {
      assert SuperWords(s)[0] == MAGIC_V1 && WordAt(d, SECTOR_SIZE + 4 * 0) == WordAt(x, 4 * 0);
      assert SuperWords(s)[3] == s.nrImapSects && SuperWords(s)[4] == s.nrSmapSects
        && SuperWords(s)[6] == s.nrInodeSects;
      assert SuperWords(s)[5] == s.n1stSect && SuperWords(s)[2] == s.nrSects;
    }
  }

  function SuperWord(x: seq<Byte>, k: nat): nat
    requires k < NR_WORDS && |x| == SECTOR_SIZE
  {
    WordRange(x[4 * k..4 * k + 4]);
    WordAt(x, 4 * k)
  }

  /** The word at byte p of a device. */
  ghost predicate HasWord(d: seq<Byte>, p: int, v: int) { 0 <= p && p + 4 <= |d| && WordAt(d, p) == v }

  /** Field k of a device's super block. */
  function Said(d: seq<Byte>, k: nat): int
    requires k < NR_WORDS && |d| >= 2 * SECTOR_SIZE
  {
    WordAt(d, SECTOR_SIZE + 4 * k)
  }

  /** What the super block says of the regions: the sectors each has, where the data starts, how many inodes fit. */
  lemma SaysWhereRegionsAre(sb: SuperBlock, d: seq<Byte>)
    requires SuperAt(sb, d) && Fits(sb, |d|)
    ensures SmapAt(sb) == ImapAt(sb) + Said(d, 3) * SECTOR_SIZE && InodesAt(sb) == SmapAt(sb) + Said(d, 4) * SECTOR_SIZE
    ensures DataAt(sb) == Said(d, 5) * SECTOR_SIZE == InodesAt(sb) + Said(d, 6) * SECTOR_SIZE
    ensures DataAt(sb) == InodesAt(sb) + Said(d, 1) * Said(d, 8)
    ensures Said(d, 0) == MAGIC_V1 && Said(d, 2) == sb.nrSects
  {
    hide Word;
    RegionsAreDisjoint(sb, |d|);
    forall k: nat | k < NR_WORDS ensures Said(d, k) == SuperWords(sb)[k] {}
  }

  /**
   What the super block says of inodes: how long a record is, and where in it a file's length and first sector are. The
   kind of file is before these, and the number of its sectors behind.
   */
  lemma SaysWhereInodesAre(sb: SuperBlock, d: seq<Byte>, num: int)
    requires SuperAt(sb, d) && Fits(sb, |d|) && IsInodeNr(num)
    ensures HasWord(d, InodesAt(sb) + (num - 1) * Said(d, 8) + Said(d, 9), RecordOf(sb, d, num).size)
    ensures HasWord(d, InodesAt(sb) + (num - 1) * Said(d, 8) + Said(d, 10), RecordOf(sb, d, num).start)
    ensures HasWord(d, InodesAt(sb) + (num - 1) * Said(d, 8), RecordOf(sb, d, num).mode)
    ensures HasWord(d, InodesAt(sb) + (num - 1) * Said(d, 8) + Said(d, 10) + 4, RecordOf(sb, d, num).nrSects)
  {
    hide Word;
    RecordInRange(sb, d, d, 0, 0, num);
    assert Said(d, 8) == SuperWords(sb)[8] && Said(d, 9) == SuperWords(sb)[9] && Said(d, 10) == SuperWords(sb)[10];
  }
}
