/**
 The sector map as a set of whole blocks. Every file is given NR_DEFAULT_FILE_SECTS sectors, so the set bits are
 bit 0 and a union of blocks, and the first-fit allocator always finds either a whole free block or the end.
 */
module Extents {
  import opened Bytes
  import opened Maps

  const BLOCK: nat := 2048

  /** The block a map bit other than bit 0 belongs to. */
  function BlockOf(k: nat): nat
    requires k > 0
  {
    (k - 1) / BLOCK
  }

  function FirstBit(j: nat): nat { 1 + j * BLOCK }

  /** The set bits are exactly bit 0 and the given blocks. */
  ghost predicate HoldsBlocks(m: seq<Byte>, blocks: set<nat>) {
    && (forall k: nat :: k < 8 * |m| ==> (BitAt(m, k) <==> k == 0 || BlockOf(k) in blocks))
    && forall j: nat :: j in blocks ==> FirstBit(j + 1) <= 8 * |m|
  }

  lemma InBlock(j: nat, k: nat)
    requires k > 0
    ensures BlockOf(k) == j <==> FirstBit(j) <= k < FirstBit(j + 1)
  {
    assert k - 1 == BLOCK * BlockOf(k) + (k - 1) % BLOCK;
  }

  /** The first clear bit starts a block that is free, so the allocator's run is never interrupted. */
  lemma FirstClearStartsBlock(m: seq<Byte>, blocks: set<nat>, f: nat)
    requires HoldsBlocks(m, blocks) && IsFirstClear(m, f) && f < 8 * |m|
    ensures f > 0 && f == FirstBit(BlockOf(f)) && BlockOf(f) !in blocks && AllClear(m, f, f + BLOCK)
  {
    hide BitAt;
    assert f != 0 by { assert BitAt(m, 0); }
    var j := BlockOf(f);
    InBlock(j, f);
    if f != FirstBit(j) {
      InBlock(j, FirstBit(j));
      assert false;
    }
    forall k: nat | f <= k < f + BLOCK && k < 8 * |m| ensures !BitAt(m, k) {
      InBlock(j, k);
    }
  }

  /**
   An allocation of one block succeeds exactly when some whole block of the map is free: neither assertion of the
   allocator fails before that.
   */
  lemma BlockAllocationIsExact(m: seq<Byte>, blocks: set<nat>)
    requires HoldsBlocks(m, blocks) && |m| > 0
    ensures (exists f: nat :: RunFits(m, f, BLOCK)) <==> exists j: nat :: j !in blocks && FirstBit(j + 1) <= 8 * |m|
  {
    hide BitAt;
    if f: nat :| RunFits(m, f, BLOCK) {
      FirstClearStartsBlock(m, blocks, f);
      assert BlockOf(f) !in blocks && FirstBit(BlockOf(f) + 1) <= 8 * |m|;
    }
    if j: nat :| j !in blocks && FirstBit(j + 1) <= 8 * |m| {
      InBlock(j, FirstBit(j));
      var f := FirstClearUpTo(m, 0, FirstBit(j));
      FirstClearStartsBlock(m, blocks, f);
      assert RunFits(m, f, BLOCK);
    }
  }

  lemma FirstClearUpTo(m: seq<Byte>, at: nat, end: nat) returns (f: nat)
    requires at <= end < 8 * |m| && AllSet(m, 0, at) && !BitAt(m, end)
    ensures f <= end && IsFirstClear(m, f)
    decreases end - at
  {
    hide BitAt;
    if BitAt(m, at) {
      f := FirstClearUpTo(m, at + 1, end);
    } else {
      f := at;
    }
  }

  /** Allocating adds exactly the lowest free block. */
  lemma AllocatingAddsBlock(m0: seq<Byte>, m: seq<Byte>, blocks: set<nat>, f: nat)
    requires HoldsBlocks(m0, blocks) && RunFits(m0, f, BLOCK) && Marked(m0, m, f, f + BLOCK) && |m0| > 0
    ensures f > 0 && f == FirstBit(BlockOf(f)) && BlockOf(f) !in blocks
    ensures HoldsBlocks(m, blocks + {BlockOf(f)})
    ensures forall j: nat :: j < BlockOf(f) ==> j in blocks
  {
    hide BitAt;
    FirstClearStartsBlock(m0, blocks, f);
    forall k: nat | k < 8 * |m|
      ensures BitAt(m, k) <==> k == 0 || BlockOf(k) in blocks + {BlockOf(f)}
    {
      if k > 0 { InBlock(BlockOf(f), k); }
    }
    forall j: nat | j < BlockOf(f) ensures j in blocks {
      InBlock(j, FirstBit(j));
      assert FirstBit(j) < f;
      assert BitAt(m0, FirstBit(j));
    }
  }

  /** Freeing a block that is held finds all its bits set, and removes exactly it. */
  lemma FreeingRemovesBlock(m0: seq<Byte>, blocks: set<nat>, j: nat)
    requires HoldsBlocks(m0, blocks) && j in blocks
    ensures AllSet(m0, FirstBit(j), FirstBit(j) + BLOCK) && FirstBit(j) + BLOCK <= 8 * |m0|
    ensures forall m: seq<Byte> :: Cleared(m0, m, FirstBit(j), FirstBit(j) + BLOCK) ==> HoldsBlocks(m, blocks - {j})
  {
    hide BitAt;
    forall k: nat | FirstBit(j) <= k < FirstBit(j) + BLOCK && k < 8 * |m0| ensures BitAt(m0, k) {
      InBlock(j, k);
    }
    forall m: seq<Byte> | Cleared(m0, m, FirstBit(j), FirstBit(j) + BLOCK) ensures HoldsBlocks(m, blocks - {j}) {
      forall k: nat | k < 8 * |m| ensures BitAt(m, k) <==> k == 0 || BlockOf(k) in blocks - {j} {
        if k > 0 { InBlock(j, k); }
      }
    }
  }
}
