/** Sizes of words, objects and heap blocks, and the map from a block count to a large-block free list. */
module Sizes {
  import opened Collections

  const HBLKSIZE := 4096
  const BOTTOM_SZ := 1024
  const MAX_JUMP := HBLKSIZE - 1
  const WORD_BYTES := 8
  const GRANULE_BYTES := 16
  const MAXOBJBYTES := HBLKSIZE / 2
  const MAXOBJGRANULES := MAXOBJBYTES / GRANULE_BYTES

  /** Object kinds. */
  const PTRFREE := 0
  const UNCOLLECTABLE := 2
  const AUNCOLLECTABLE := 3

  const UNIQUE_THRESHOLD := 32
  const HUGE_THRESHOLD := 256
  const FL_COMPRESSION := 8
  const N_HBLK_FLS := (HUGE_THRESHOLD - UNIQUE_THRESHOLD) / FL_COMPRESSION + UNIQUE_THRESHOLD
  /** Free lists are numbered 0 to N_HBLK_FLS inclusive. */
  const N_LISTS := N_HBLK_FLS + 1

  /** More than seven eighths of the objs objects of a block are marked. */
  predicate MostlyMarked(nMarks: int, objs: int) {
    nMarks > 7 * objs / 8
  }

  /** Number of heap blocks needed for an object of sz bytes. */
  function ObjSzToBlocks(sz: int): int {
    (sz + HBLKSIZE - 1) / HBLKSIZE
  }

  function HblkFlFromBlocks(blocks: int): (index: int)
    requires blocks >= 0
    ensures 0 <= index <= N_HBLK_FLS
  {
    if blocks <= UNIQUE_THRESHOLD then blocks
    else if blocks >= HUGE_THRESHOLD then N_HBLK_FLS
    else (blocks - UNIQUE_THRESHOLD) / FL_COMPRESSION + UNIQUE_THRESHOLD
  }

  /** A larger block never lands on an earlier list. */
  lemma BinMonotone(a: int, b: int)
    requires 0 <= a <= b
    ensures HblkFlFromBlocks(a) <= HblkFlFromBlocks(b)
  {
    if UNIQUE_THRESHOLD < a && b < HUGE_THRESHOLD {
      assert (a - UNIQUE_THRESHOLD) / FL_COMPRESSION <= (b - UNIQUE_THRESHOLD) / FL_COMPRESSION;
    }
  }

  /** A list holds blocks of a single size exactly when its index is below the unique threshold. */
  lemma BinExactIff(a: int)
    requires a >= 0
    ensures (forall b | b >= 0 && HblkFlFromBlocks(b) == HblkFlFromBlocks(a) :: b == a)
            <==> a < UNIQUE_THRESHOLD
  {
    if a >= UNIQUE_THRESHOLD {
      var other := if a == UNIQUE_THRESHOLD then a + 1
                   else if a >= HUGE_THRESHOLD then a + 1
                   else if (a - UNIQUE_THRESHOLD) % FL_COMPRESSION == 0 then a + 1 else a - 1;
      assert HblkFlFromBlocks(other) == HblkFlFromBlocks(a);
    }
  }

  /** The number of whole blocks covered by an exact multiple of the block size. */
  lemma WholeBlocks(n: int)
    ensures ObjSzToBlocks(n * HBLKSIZE) == n
  {
  }

  lemma WholeBytes(sz: int)
    requires sz > 0
    ensures var need := HBLKSIZE * ObjSzToBlocks(sz);
      need >= HBLKSIZE && need % HBLKSIZE == 0 && need / HBLKSIZE == ObjSzToBlocks(sz)
  {
  }
}
