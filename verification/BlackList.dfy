/**
 Black lists (blacklst.c): bit tables, hashed by block number, of blocks that false pointers seem to point into.
 A machine word of a table is modelled by the set of the numbers of its one bits.
 */
module BlackList {
  import opened Sizes

  const WORDSZ := 64
  const PHT_ENTRIES := 0x40000
  const PHT_SIZE := PHT_ENTRIES / WORDSZ

  /** PHT_HASH, for a block number instead of an address. */
  function PhtHash(b: int): int {
    b % PHT_ENTRIES
  }

  /** What the tables hold. */
  datatype Listing = Listing(allInteriorPointers: bool, oldNormal: seq<set<int>>, incompleteNormal: seq<set<int>>,
                             oldStack: seq<set<int>>, incompleteStack: seq<set<int>>)

  predicate WellFormed(l: Listing) {
    |l.oldNormal| == |l.incompleteNormal| == |l.oldStack| == |l.incompleteStack| == PHT_SIZE
  }

  /** Black listed because of a false reference from a stack or register. */
  predicate StackListed(l: Listing, b: int)
    requires WellFormed(l)
  {
    var i := PhtHash(b);
    i % WORDSZ in l.oldStack[i / WORDSZ] || i % WORDSZ in l.incompleteStack[i / WORDSZ]
  }

  /** Black listed as a start address because of a false reference from the heap. */
  predicate StartListed(l: Listing, b: int)
    requires WellFormed(l)
  {
    var i := PhtHash(b);
    !l.allInteriorPointers && (i % WORDSZ in l.oldNormal[i / WORDSZ] || i % WORDSZ in l.incompleteNormal[i / WORDSZ])
  }

  /** An object of n blocks may start at h: the definition, block by block. */
  ghost predicate Clean(l: Listing, h: int, n: int) {
    WellFormed(l) && !StartListed(l, h) && forall k | h <= k < h + n :: !StackListed(l, k)
  }

  /** A zero word clears every block up to the end of the word. */
  lemma ZeroWord(l: Listing, b: int)
    requires WellFormed(l)
    requires l.oldStack[PhtHash(b) / WORDSZ] == {} && l.incompleteStack[PhtHash(b) / WORDSZ] == {}
    ensures forall k | b <= k < b + (WORDSZ - PhtHash(b) % WORDSZ) :: !StackListed(l, k)
  {
    forall k | b <= k < b + (WORDSZ - PhtHash(b) % WORDSZ) ensures PhtHash(k) / WORDSZ == PhtHash(b) / WORDSZ {
      SameWord(b, k);
    }
  }

  lemma SameWord(b: int, k: int)
    requires b <= k < b + (WORDSZ - PhtHash(b) % WORDSZ)
    ensures PhtHash(k) / WORDSZ == PhtHash(b) / WORDSZ
  {
    var q := b / PHT_ENTRIES;
    assert k == q * PHT_ENTRIES + (PhtHash(b) + (k - b));
    assert PhtHash(b) + (k - b) < PHT_ENTRIES;
    assert k / PHT_ENTRIES == q;
  }

  class Tables {
    const allInteriorPointers: bool
    const oldNormal: array<set<int>>
    const incompleteNormal: array<set<int>>
    const oldStack: array<set<int>>
    const incompleteStack: array<set<int>>

    /** GC_bl_init: all tables are clear. */
    constructor (allInteriorPointers: bool)
      ensures Valid() && this.allInteriorPointers == allInteriorPointers
      ensures forall h, n :: Clean(Contents(), h, n)
    {
      this.allInteriorPointers := allInteriorPointers;
      oldNormal := new set<int>[PHT_SIZE](_ => {});
      incompleteNormal := new set<int>[PHT_SIZE](_ => {});
      oldStack := new set<int>[PHT_SIZE](_ => {});
      incompleteStack := new set<int>[PHT_SIZE](_ => {});
    }

    predicate Valid() {
      oldNormal.Length == incompleteNormal.Length == oldStack.Length == incompleteStack.Length == PHT_SIZE
    }

    ghost function Contents(): (l: Listing)
      reads oldNormal, incompleteNormal, oldStack, incompleteStack
      ensures Valid() ==> WellFormed(l)
    {
      Listing(allInteriorPointers, oldNormal[..], incompleteNormal[..], oldStack[..], incompleteStack[..])
    }

    /** GC_is_black_listed: 0 exactly when len bytes at h are clean; otherwise a later start such that every
        start before it is black listed too.  Whole zero words of the tables are skipped in one step. */
    method IsBlackListed(h: int, len: int) returns (r: int)
      requires Valid() && h > 0 && len >= HBLKSIZE && len % HBLKSIZE == 0
      ensures r == 0 <==> Clean(Contents(), h, len / HBLKSIZE)
      ensures r != 0 ==>
        h < r <= h + len / HBLKSIZE && forall s | h <= s < r :: !Clean(Contents(), s, len / HBLKSIZE)
    {
      ghost var l := Contents();
      var index := PhtHash(h);
      if !allInteriorPointers
         && (index % WORDSZ in oldNormal[index / WORDSZ] || index % WORDSZ in incompleteNormal[index / WORDSZ]) {
        assert StartListed(l, h);
        return h + 1;
      }
      var nblocks := len / HBLKSIZE;
      var i := 0;
      while true
        invariant 0 <= i < nblocks && index == PhtHash(h + i) && !StartListed(l, h)
        invariant forall k | h <= k < h + i :: !StackListed(l, k)
        decreases nblocks - i
      {
        if oldStack[index / WORDSZ] == {} && incompleteStack[index / WORDSZ] == {} {
          ZeroWord(l, h + i);
          i := i + (WORDSZ - index % WORDSZ);
        } else {
          if index % WORDSZ in oldStack[index / WORDSZ] || index % WORDSZ in incompleteStack[index / WORDSZ] {
            assert StackListed(l, h + i);
            return h + i + 1;
          }
          i := i + 1;
        }
        if i >= nblocks {
          break;
        }
        index := PhtHash(h + i);
      }
      return 0;
    }
  }
}
