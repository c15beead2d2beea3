/** Where mkfs puts things: boot sector, super block, inode map, sector map, inode array, data. */
module Layout {
  import opened Bytes
  import opened Device

  const INODE_SIZE: nat := 32
  const NR_DEFAULT_FILE_SECTS: nat := 2048
  const NR_INODES: nat := 4096

  datatype SuperBlock = SuperBlock(nrImapSects: nat, nrSmapSects: nat, nrInodeSects: nat, n1stSect: nat, nrSects: nat)

  /** The super block mkfs computes for a device of the given size. */
  function MakeSuper(nrSects: nat): SuperBlock {
    var imaps, smaps, inodes := 1, nrSects / (8 * SECTOR_SIZE) + 1, NR_INODES * INODE_SIZE / SECTOR_SIZE;
    SuperBlock(imaps, smaps, inodes, 1 + 1 + imaps + smaps + inodes, nrSects)
  }

  /** A super block as mkfs lays it out, on a device that at least holds all the maps and the inode array. */
  ghost predicate Fits(sb: SuperBlock, length: nat) {
    && sb == MakeSuper(sb.nrSects)
    && sb.n1stSect * SECTOR_SIZE <= length
  }

  // First byte of each region.
  function ImapAt(sb: SuperBlock): nat { 2 * SECTOR_SIZE }
  function SmapAt(sb: SuperBlock): nat { (2 + sb.nrImapSects) * SECTOR_SIZE }
  function InodesAt(sb: SuperBlock): nat { (2 + sb.nrImapSects + sb.nrSmapSects) * SECTOR_SIZE }
  function DataAt(sb: SuperBlock): nat { sb.n1stSect * SECTOR_SIZE }

  function ImapOf(sb: SuperBlock, d: seq<Byte>): seq<Byte>
    requires SmapAt(sb) <= |d|
  {
    d[ImapAt(sb)..SmapAt(sb)]
  }

  function SmapOf(sb: SuperBlock, d: seq<Byte>): seq<Byte>
    requires InodesAt(sb) <= |d|
  {
    d[SmapAt(sb)..InodesAt(sb)]
  }

  /** The regions follow one another without gap or overlap. */
  lemma RegionsAreDisjoint(sb: SuperBlock, length: nat)
    requires Fits(sb, length)
    ensures ImapAt(sb) < SmapAt(sb) < InodesAt(sb) < DataAt(sb) <= length
    ensures InodesAt(sb) + NR_INODES * INODE_SIZE == DataAt(sb)
    ensures SmapAt(sb) - ImapAt(sb) == SECTOR_SIZE && InodesAt(sb) - SmapAt(sb) == sb.nrSmapSects * SECTOR_SIZE
  {
  }

  /** The sector map has a bit for every sector of the device and one more, and no sector of the map is to spare. */
  lemma SmapReaches(sb: SuperBlock, length: nat)
    requires Fits(sb, length)
    ensures var bits := 8 * (InodesAt(sb) - SmapAt(sb)); sb.nrSects < bits <= sb.nrSects + 8 * SECTOR_SIZE
  {
  }

  /** Only the bytes in [lo, hi) may have changed. */
  ghost predicate SameOutside(a: seq<Byte>, b: seq<Byte>, lo: nat, hi: nat) {
    lo <= hi <= |a| == |b| && b[..lo] == a[..lo] && b[hi..] == a[hi..]
  }
}
