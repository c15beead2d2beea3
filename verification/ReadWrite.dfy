/**
 Reading and writing the sectors of a regular file: a loop over chunks of as many sectors as the buffer holds,
 each read whole, and for a write changed in part and written back whole.
 */
module ReadWrite {
  import opened Wrappers
  import opened Bytes
  import opened Device

  /** The bytes the chunks starting at sectors first, first + chunk, ... up to last hold together. */
  function Covered(first: int, last: int, chunk: nat): nat
    requires first <= last ==> chunk > 0
    decreases last - first + 1
  {
    if first > last then 0 else chunk * SECTOR_SIZE + Covered(first + chunk, last, chunk)
  }

  /** How the loop is set up: the byte the transfer aims to end at, and the chunk size in sectors. */
  function PosEnd(isRead: bool, pos: nat, len: nat, size: nat, nrSects: nat): nat {
    if isRead then size else Min(pos + len, nrSects * SECTOR_SIZE)
  }

  function Chunk(pos: nat, posEnd: nat, capacity: nat): int {
    Min(posEnd / SECTOR_SIZE - pos / SECTOR_SIZE + 1, capacity)
  }

  /** How many bytes are moved. */
  function Moved(pos: nat, len: nat, posEnd: nat, capacity: nat): nat
    requires capacity > 0
  {
    if pos / SECTOR_SIZE > posEnd / SECTOR_SIZE then 0
    else
      CoversAll(pos / SECTOR_SIZE, posEnd / SECTOR_SIZE, Chunk(pos, posEnd, capacity));
      Min(len, Covered(pos / SECTOR_SIZE, posEnd / SECTOR_SIZE, Chunk(pos, posEnd, capacity)) - pos % SECTOR_SIZE)
  }

  lemma {:induction false} CoversAll(first: int, last: int, chunk: nat)
    requires chunk > 0 && first <= last + chunk
    ensures Covered(first, last, chunk) >= (last - first + 1) * SECTOR_SIZE
    decreases last - first + chunk
  {
    if first <= last {
      CoversAll(first + chunk, last, chunk);
    }
  }

  lemma {:induction false} CoveredShift(first: int, last: int, chunk: nat, shift: int)
    requires chunk > 0
    ensures Covered(first + shift, last + shift, chunk) == Covered(first, last, chunk)
    decreases last - first + 1
  {
    if first <= last {
      CoveredShift(first + chunk, last, chunk, shift);
    }
  }

  /** The chunks hold as many sectors as the least multiple of the chunk size that reaches the last one. */
  lemma {:induction false} CoveredIs(first: int, last: int, chunk: nat) returns (k: nat)
    requires chunk > 0 && first <= last + chunk
    ensures last - first + 1 <= k * chunk < last - first + 1 + chunk
    ensures Covered(first, last, chunk) == k * chunk * SECTOR_SIZE
    decreases last - first + chunk
  {
    k := 0;
    if first <= last {
      k := CoveredIs(first + chunk, last, chunk);
      Distribute(k, chunk);
      k := k + 1;
    }
  }

  lemma Distribute(k: nat, c: nat)
    ensures (k + 1) * c == k * c + c
  {
  }

  // ----- What the byte counts come to -----

  /** Some of the n bytes from pos on lie behind an extent of nrSects sectors. */
  predicate Overruns(pos: nat, n: nat, nrSects: nat) { n > 0 && pos + n > nrSects * SECTOR_SIZE }

  /** A write that fits the extent moves every byte; otherwise it runs past the extent, unless it starts beyond it. */
  lemma WriteIsExact(pos: nat, len: nat, nrSects: nat, capacity: nat)
    requires capacity > 0
    ensures var n := Moved(pos, len, PosEnd(false, pos, len, 0, nrSects), capacity);
      && (pos + len <= nrSects * SECTOR_SIZE ==> n == len)
      && (Overruns(pos, n, nrSects) <==> len > 0 && pos + len > nrSects * SECTOR_SIZE && pos / SECTOR_SIZE <= nrSects)
  {
    var posEnd := PosEnd(false, pos, len, 0, nrSects);
    var q := pos / SECTOR_SIZE;
    assert pos == q * SECTOR_SIZE + pos % SECTOR_SIZE;
    if q <= posEnd / SECTOR_SIZE {
      CoversAll(q, posEnd / SECTOR_SIZE, Chunk(pos, posEnd, capacity));
      assert posEnd == posEnd / SECTOR_SIZE * SECTOR_SIZE + posEnd % SECTOR_SIZE;
    }
  }

  /** A read returns what was asked for when the file has as much, and runs past the end of the file when it has not. */
  lemma ReadIsExact(len: nat, size: nat, capacity: nat)
    requires capacity > 0
    ensures var n := Moved(0, len, PosEnd(true, 0, len, size, 0), capacity);
      (len <= size ==> n == len) && (n > size <==> len > size)
  {
    CoversAll(0, size / SECTOR_SIZE, Chunk(0, size, capacity));
    assert size == size / SECTOR_SIZE * SECTOR_SIZE + size % SECTOR_SIZE;
  }

  // ----- Patches -----

  lemma PatchPart(d: seq<Byte>, pos: nat, n: nat, off: nat, z: seq<Byte>)
    requires pos + n <= |d| && off + |z| <= n
    ensures Patch(d, pos, Patch(d[pos..pos + n], off, z)) == Patch(d, pos + off, z)
  {
  }

  lemma PatchJoin(d: seq<Byte>, pos: nat, a: seq<Byte>, b: seq<Byte>)
    requires pos + |a| + |b| <= |d|
    ensures Patch(Patch(d, pos, a), pos + |a|, b) == Patch(d, pos, a + b)
  {
  }

  lemma EmptyPatch(d: seq<Byte>, pos: nat, n: nat, at: nat)
    requires pos + n <= |d| && at <= |d|
    ensures Patch(d, pos, d[pos..pos + n]) == d && Patch(d, at, []) == d
  {
  }

  // ----- The transfer -----

  /** The chunks from sector i on lie on a device of the given length. */
  ghost predicate ChunksFit(i: nat, last: int, chunk: nat, length: nat) {
    chunk > 0 && i * SECTOR_SIZE + Covered(i, last, chunk) <= length
  }

  /** Every chunk the loop touches lies on the device. */
  ghost predicate OnDevice(dev: Disk, start: nat, pos: nat, posEnd: nat) {
    && dev.Valid()
    && var first, last := start + pos / SECTOR_SIZE, start + posEnd / SECTOR_SIZE;
       first <= last ==> ChunksFit(first, last, Chunk(pos, posEnd, dev.fsbuf.Length / SECTOR_SIZE), dev.bytes.Length)
  }

  lemma ChunksStep(i: nat, last: int, chunk: nat, length: nat)
    requires ChunksFit(i, last, chunk, length) && i <= last
    ensures (i + chunk) * SECTOR_SIZE <= length && ChunksFit(i + chunk, last, chunk, length)
  {
  }

  /** A loop that touches anything starts within the device. */
  lemma StartsWithin(start: nat, pos: nat, posEnd: nat, chunk: nat, length: nat)
    requires ChunksFit(start + pos / SECTOR_SIZE, start + posEnd / SECTOR_SIZE, chunk, length)
    requires pos / SECTOR_SIZE <= posEnd / SECTOR_SIZE
    ensures start * SECTOR_SIZE + pos <= length
  {
    assert pos == pos / SECTOR_SIZE * SECTOR_SIZE + pos % SECTOR_SIZE;
  }

  function NotNegative(x: int): nat { if x < 0 then 0 else x }

  /** Progress of the loop: `done` of the `total` bytes from byte p of the device have been moved. */
  ghost predicate Progress(p: nat, i: nat, last: int, chunk: nat, off: nat, len: nat, done: nat, total: nat) {
    && chunk > 0 && off < SECTOR_SIZE && done <= len
    && done + Min(len - done, NotNegative(Covered(i, last, chunk) - off)) == total
    && (done < len ==> i * SECTOR_SIZE + off == p + done)
    && p + done <= i * SECTOR_SIZE + off
  }

  lemma ProgressStarts(start: nat, pos: nat, len: nat, posEnd: nat, capacity: nat)
    requires capacity > 0 && pos / SECTOR_SIZE <= posEnd / SECTOR_SIZE
    ensures Chunk(pos, posEnd, capacity) > 0
    ensures Progress(start * SECTOR_SIZE + pos, start + pos / SECTOR_SIZE, start + posEnd / SECTOR_SIZE,
                     Chunk(pos, posEnd, capacity), pos % SECTOR_SIZE, len, 0, Moved(pos, len, posEnd, capacity))
  {
    CoversAll(pos / SECTOR_SIZE, posEnd / SECTOR_SIZE, Chunk(pos, posEnd, capacity));
    CoveredShift(pos / SECTOR_SIZE, posEnd / SECTOR_SIZE, Chunk(pos, posEnd, capacity), start);
    assert pos == pos / SECTOR_SIZE * SECTOR_SIZE + pos % SECTOR_SIZE;
  }

  lemma ProgressStep(p: nat, i: nat, last: int, chunk: nat, off: nat, len: nat, done: nat, total: nat)
    requires Progress(p, i, last, chunk, off, len, done, total) && i <= last
    ensures var bytes := Min(len - done, chunk * SECTOR_SIZE - off);
      && 0 <= bytes && off + bytes <= chunk * SECTOR_SIZE
      && Progress(p, i + chunk, last, chunk, 0, len, done + bytes, total)
  {
  }

  /**
   The loop over chunks: a READ copies the bytes out, a WRITE changes exactly the bytes it was given and leaves
   every other byte of the device as it was.
   */
  method Transfer(dev: Disk, isRead: bool, start: nat, pos: nat, len: nat, data: seq<Byte>, posEnd: nat)
    returns (bytesRw: nat, out: seq<Byte>)
    requires OnDevice(dev, start, pos, posEnd) && (!isRead ==> |data| == len)
    modifies dev.bytes, dev.fsbuf
    ensures bytesRw == Moved(pos, len, posEnd, dev.fsbuf.Length / SECTOR_SIZE) <= len
    ensures pos / SECTOR_SIZE <= posEnd / SECTOR_SIZE ==> start * SECTOR_SIZE + pos + bytesRw <= dev.bytes.Length
    ensures var p := start * SECTOR_SIZE + pos;
      if p + bytesRw > dev.bytes.Length then bytesRw == 0 && dev.bytes[..] == old(dev.bytes[..]) && out == []
      else if isRead then dev.bytes[..] == old(dev.bytes[..]) && out == dev.bytes[p..p + bytesRw]
      else dev.bytes[..] == Patch(old(dev.bytes[..]), p, data[..bytesRw]) && out == []
  {
    hide Progress, Covered, ChunksFit, Patch, HasMoved, Moved;
    ghost var d, p := dev.bytes[..], start * SECTOR_SIZE + pos;
    var off: nat := pos % SECTOR_SIZE;
    var rwSectMin, rwSectMax := start + pos / SECTOR_SIZE, start + posEnd / SECTOR_SIZE;
    var chunk := Min(rwSectMax - rwSectMin + 1, dev.fsbuf.Length / SECTOR_SIZE);
    bytesRw, out := 0, [];
    if rwSectMin > rwSectMax {
      MovesNothing(pos, len, posEnd, dev.fsbuf.Length / SECTOR_SIZE);
      if p <= dev.bytes.Length {
        NothingMoved(isRead, d, p, data);
        MovedAll(isRead, d, dev.bytes[..], p, data, 0, []);
      }
      return;
    }
    StartsWithin(start, pos, posEnd, chunk, dev.bytes.Length);
    NothingMoved(isRead, d, p, data);
    ProgressStarts(start, pos, len, posEnd, dev.fsbuf.Length / SECTOR_SIZE);
    ghost var total := Moved(pos, len, posEnd, dev.fsbuf.Length / SECTOR_SIZE);
    var i: nat := rwSectMin;
    while i <= rwSectMax
      invariant Progress(p, i, rwSectMax, chunk, off, len, bytesRw, total)
      invariant HasMoved(isRead, d, dev.bytes[..], p, data, bytesRw, out) && bytesRw <= len
      invariant ChunksFit(i, rwSectMax, chunk, dev.bytes.Length)
      decreases rwSectMax - i + chunk
    {
      ProgressStep(p, i, rwSectMax, chunk, off, len, bytesRw, total);
      ChunksStep(i, rwSectMax, chunk, dev.bytes.Length);
      ProgressFacts(p, i, rwSectMax, chunk, off, len, bytesRw, total);
      var bytes := Min(len - bytesRw, chunk * SECTOR_SIZE - off);
      out := MoveChunk(dev, isRead, i * SECTOR_SIZE, chunk * SECTOR_SIZE, off, bytes, data, bytesRw, out, d, p);
      off := 0;
      bytesRw := bytesRw + bytes;
      i := i + chunk;
    }
    ProgressEnds(p, i, rwSectMax, chunk, off, len, bytesRw, total);
    MovedAll(isRead, d, dev.bytes[..], p, data, bytesRw, out);
  }

  lemma MovesNothing(pos: nat, len: nat, posEnd: nat, capacity: nat)
    requires capacity > 0 && pos / SECTOR_SIZE > posEnd / SECTOR_SIZE
    ensures Moved(pos, len, posEnd, capacity) == 0
  {
  }

  lemma MovedAll(isRead: bool, d: seq<Byte>, e: seq<Byte>, p: nat, data: seq<Byte>, done: nat, out: seq<Byte>)
    requires HasMoved(isRead, d, e, p, data, done, out)
    ensures p + done <= |d| && (!isRead ==> done <= |data|)
    ensures if isRead then e == d && out == e[p..p + done] else e == Patch(d, p, data[..done]) && out == []
  {
  }

  /** From d to e, `done` bytes from byte p on have been copied out, or overwritten with the caller's. */
  ghost predicate HasMoved(isRead: bool, d: seq<Byte>, e: seq<Byte>, p: nat, data: seq<Byte>, done: nat,
                           out: seq<Byte>) {
    && p + done <= |d| && (!isRead ==> done <= |data|)
    && if isRead then e == d && out == d[p..p + done] else e == Patch(d, p, data[..done]) && out == []
  }

  lemma NothingMoved(isRead: bool, d: seq<Byte>, p: nat, data: seq<Byte>)
    requires p <= |d|
    ensures HasMoved(isRead, d, d, p, data, 0, []) && (!isRead ==> Patch(d, p, data[..0]) == d)
  {
  }

  /** One round of the loop: the chunk of n bytes at byte `at`, of which cnt bytes from off on concern the caller. */
  method MoveChunk(dev: Disk, isRead: bool, at: nat, n: nat, off: nat, cnt: nat, data: seq<Byte>, done: nat,
                   out0: seq<Byte>, ghost d: seq<Byte>, ghost p: nat)
    returns (out: seq<Byte>)
    requires dev.Valid() && at + n <= dev.bytes.Length && n <= dev.fsbuf.Length && off + cnt <= n
    requires |d| == dev.bytes.Length
    requires HasMoved(isRead, d, dev.bytes[..], p, data, done, out0) && (!isRead ==> done + cnt <= |data|)
    requires cnt > 0 ==> at + off == p + done
    modifies dev.bytes, dev.fsbuf
    ensures HasMoved(isRead, d, dev.bytes[..], p, data, done + cnt, out)
  {
    hide Patch;
    if isRead {
      var part := ReadChunk(dev, at, n, off, cnt);
      ReadOut(d, p, at + off, cnt, done);
      out := out0 + part;
    } else {
      WriteChunk(dev, at, n, off, data[done..done + cnt]);
      WroteChunk(d, p, at + off, data, done, cnt);
      out := out0;
    }
  }

  /** Read a chunk of n bytes at byte `at` of the device, and take cnt bytes of it from off on. */
  method ReadChunk(dev: Disk, at: nat, n: nat, off: nat, cnt: nat) returns (part: seq<Byte>)
    requires dev.Valid() && at + n <= dev.bytes.Length && n <= dev.fsbuf.Length && off + cnt <= n
    modifies dev.fsbuf
    ensures part == dev.bytes[at + off..at + off + cnt]
  {
    hide Patch;
    ghost var b := dev.fsbuf[..];
    dev.Read(at, n);
    part := dev.fsbuf[..][off..off + cnt];
    SliceOfSlice(dev.bytes[..], at, at + n, off, off + cnt);
    PatchedSlice(b, 0, dev.bytes[at..at + n], off, off + cnt);
  }

  /** Read a chunk, overwrite part of it with the caller's bytes, and write the whole chunk back. */
  method WriteChunk(dev: Disk, at: nat, n: nat, off: nat, z: seq<Byte>)
    requires dev.Valid() && at + n <= dev.bytes.Length && n <= dev.fsbuf.Length && off + |z| <= n
    modifies dev.bytes, dev.fsbuf
    ensures dev.bytes[..] == Patch(old(dev.bytes[..]), at + off, z)
  {
    hide Patch;
    ghost var d := dev.bytes[..];
    dev.Read(at, n);
    assert dev.fsbuf[..n] == d[at..at + n];
    CopyIn(dev, off, z, n);
    PatchPart(d, at, n, off, z);
    dev.Write(at, n);
  }

  lemma ProgressFacts(p: nat, i: nat, last: int, chunk: nat, off: nat, len: nat, done: nat, total: nat)
    requires Progress(p, i, last, chunk, off, len, done, total)
    ensures chunk > 0 && off < SECTOR_SIZE && done <= len && (done < len ==> i * SECTOR_SIZE + off == p + done)
  {
  }

  lemma ProgressEnds(p: nat, i: nat, last: int, chunk: nat, off: nat, len: nat, done: nat, total: nat)
    requires Progress(p, i, last, chunk, off, len, done, total) && i > last
    ensures done == total
  {
  }

  lemma ReadOut(d: seq<Byte>, p: nat, at: nat, bytes: nat, done: nat)
    requires at + bytes <= |d| && p + done <= |d| && (bytes > 0 ==> at == p + done)
    ensures p + done + bytes <= |d| && d[p..p + done] + d[at..at + bytes] == d[p..p + done + bytes]
  {
  }

  lemma WroteChunk(d: seq<Byte>, p: nat, at: nat, data: seq<Byte>, done: nat, bytes: nat)
    requires at + bytes <= |d| && p + done <= |d| && done + bytes <= |data| && (bytes > 0 ==> at == p + done)
    ensures p + done + bytes <= |d|
    ensures Patch(Patch(d, p, data[..done]), at, data[done..done + bytes]) == Patch(d, p, data[..done + bytes])
  {
    hide Patch;
    if bytes > 0 {
      PatchJoin(d, p, data[..done], data[done..done + bytes]);
      assert data[..done] + data[done..done + bytes] == data[..done + bytes];
    } else {
      EmptyPatch(Patch(d, p, data[..done]), 0, 0, at);
    }
  }

  /** Copy the caller's bytes into the buffer. */
  method CopyIn(dev: Disk, off: nat, z: seq<Byte>, n: nat)
    requires dev.Valid() && off + |z| <= n <= dev.fsbuf.Length
    modifies dev.fsbuf
    ensures dev.fsbuf[..n] == Patch(old(dev.fsbuf[..n]), off, z)
  {
    forall k | 0 <= k < |z| {
      dev.fsbuf[off + k] := z[k];
    }
  }
}
