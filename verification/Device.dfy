/** The block device, as a run of bytes, and the one buffer through which the file system reads and writes it. */
module Device {
  import opened Bytes

  const SECTOR_SIZE: nat := 512

  /** d with the bytes from `pos` on overwritten by x. */
  function Patch(d: seq<Byte>, pos: nat, x: seq<Byte>): (r: seq<Byte>)
    requires pos + |x| <= |d|
    ensures |r| == |d|
    ensures forall i :: 0 <= i < |d| ==> r[i] == if pos <= i < pos + |x| then x[i - pos] else d[i]
  {
    d[..pos] + x + d[pos + |x|..]
  }

  lemma SliceOfSlice(d: seq<Byte>, at: nat, end: nat, lo: nat, hi: nat)
    requires at <= end <= |d| && lo <= hi <= end - at
    ensures d[at..end][lo..hi] == d[at + lo..at + hi]
  {
    var a, b := d[at..end][lo..hi], d[at + lo..at + hi];
    assert forall k :: 0 <= k < hi - lo ==> a[k] == d[at + lo + k] == b[k];
  }

  lemma PatchedSlice(d: seq<Byte>, pos: nat, x: seq<Byte>, lo: nat, hi: nat)
    requires pos + |x| <= |d| && lo <= hi <= |x|
    ensures Patch(d, pos, x)[pos + lo..pos + hi] == x[lo..hi]
  {
  }

  lemma PatchedElsewhere(d: seq<Byte>, pos: nat, x: seq<Byte>)
    requires pos + |x| <= |d|
    ensures Patch(d, pos, x)[..pos] == d[..pos] && Patch(d, pos, x)[pos + |x|..] == d[pos + |x|..]
  {
  }

  class Disk {
    const bytes: array<Byte>
    const fsbuf: array<Byte>

    ghost predicate Valid() {
      bytes != fsbuf && fsbuf.Length >= SECTOR_SIZE
    }

    constructor (sectors: nat, buffer: nat)
      requires buffer >= 1
      ensures Valid() && bytes.Length == sectors * SECTOR_SIZE && fsbuf.Length == buffer * SECTOR_SIZE
      ensures fresh(bytes) && fresh(fsbuf) && forall i :: 0 <= i < bytes.Length ==> bytes[i] == 0
    {
      bytes := new Byte[sectors * SECTOR_SIZE](_ => 0);
      fsbuf := new Byte[buffer * SECTOR_SIZE](_ => 0);
    }

    /** A DEV_READ request of n bytes at pos, into the start of the buffer. */
    method Read(pos: nat, n: nat)
      requires Valid() && pos + n <= bytes.Length && n <= fsbuf.Length
      modifies fsbuf
      ensures fsbuf[..] == Patch(old(fsbuf[..]), 0, bytes[pos..pos + n])
    {
      forall i | 0 <= i < n {
        fsbuf[i] := bytes[pos + i];
      }
    }

    /** A DEV_WRITE request of n bytes at pos, from the start of the buffer. */
    method Write(pos: nat, n: nat)
      requires Valid() && pos + n <= bytes.Length && n <= fsbuf.Length
      modifies bytes
      ensures bytes[..] == Patch(old(bytes[..]), pos, fsbuf[..n])
    {
      forall i | 0 <= i < n {
        bytes[pos + i] := fsbuf[i];
      }
    }

    method RdSect(s: nat)
      requires Valid() && (s + 1) * SECTOR_SIZE <= bytes.Length
      modifies fsbuf
      ensures fsbuf[..SECTOR_SIZE] == bytes[s * SECTOR_SIZE..s * SECTOR_SIZE + SECTOR_SIZE]
    {
      Read(s * SECTOR_SIZE, SECTOR_SIZE);
      assert fsbuf[..SECTOR_SIZE] == fsbuf[..][..SECTOR_SIZE];
    }

    method WrSect(s: nat)
      requires Valid() && (s + 1) * SECTOR_SIZE <= bytes.Length
      modifies bytes
      ensures bytes[..] == Patch(old(bytes[..]), s * SECTOR_SIZE, fsbuf[..SECTOR_SIZE])
    {
      Write(s * SECTOR_SIZE, SECTOR_SIZE);
    }
  }
}
