/**
 The state invariants of the heap block manager, on values: how blocks tile the heap, and how free blocks hang
 on the size-binned free lists.  The class in BlockAllocator.dfy updates the real fields and uses these lemmas.

 In contracts, here and elsewhere, P == true is P, proved and used as one fact instead of part by part.
 */
module HeapShape {
  import opened Sizes
  import opened Collections
  import opened HeaderIndex

  type View = map<int, Slot>

  // ---------------------------------------------------------------------------------------------- tiling

  /** `owner` maps every block number of the heap to the head of the block it lies in. */
  ghost predicate Tiled(v: View, owner: map<int, int>) {
    TiledBut(v, owner, 0)
  }

  /** As Tiled, but nothing is said about the slots behind the head x. */
  ghost predicate TiledBut(v: View, owner: map<int, int>, x: int) {
    && (forall b {:trigger Covers(v, owner, x, b)} | b in owner :: Covers(v, owner, x, b))
    && (forall h {:trigger Extent(v, owner, h)} | IsHead(v, h) :: Extent(v, owner, h))
    && (forall b {:trigger Owned(v, owner, b)} | b in v :: Owned(v, owner, b))
  }

  predicate Owned(v: View, owner: map<int, int>, b: int)
    requires b in v
  {
    b in owner && v[b] != Nil
  }

  ghost predicate Covers(v: View, owner: map<int, int>, x: int, b: int)
    requires b in owner
  {
    var h := owner[b];
    && 0 < h <= b
    && IsHead(v, h)
    && b < h + Len(v[h].hdr)
    && (b != h && h != x ==> At(v, b) == if v[h].hdr.free then Nil else CountFor(h, b))
  }

  ghost predicate Extent(v: View, owner: map<int, int>, h: int)
    requires IsHead(v, h)
  {
    && v[h].hdr.sz > 0
    && (v[h].hdr.free ==> v[h].hdr.sz % HBLKSIZE == 0)
    && forall k | h <= k < h + Len(v[h].hdr) :: k in owner && owner[k] == h
  }

  predicate FreeAt(v: View, owner: map<int, int>, b: int) {
    b in owner && IsHead(v, owner[b]) && v[owner[b]].hdr.free
  }

  /** The block numbers that lie in free blocks. */
  ghost function FreeSet(v: View, owner: map<int, int>): set<int> {
    set b | b in owner && FreeAt(v, owner, b)
  }

  /** Maximal free runs: the block right behind a free block is not free. */
  ghost predicate NoAdjacent(v: View) {
    forall h {:trigger GapAfter(v, h)} | FreeHead(v, h) :: GapAfter(v, h)
  }

  /** The block behind h is not free. */
  predicate GapAfter(v: View, h: int)
    requires IsHead(v, h)
  {
    !FreeHead(v, h + Len(v[h].hdr))
  }

  predicate FreeHead(v: View, h: int) {
    IsHead(v, h) && v[h].hdr.free
  }

  /** The same blocks with the same sizes; only links and marks may differ. */
  ghost predicate SameShape(v: View, v1: View) {
    && v.Keys == v1.Keys
    && forall b | b in v ::
         if v[b].Header? then v1[b].Header? && v1[b].hdr.sz == v[b].hdr.sz && v1[b].hdr.free == v[b].hdr.free
         else v1[b] == v[b]
  }

  lemma SameShapeTiled(v: View, v1: View, owner: map<int, int>, x: int)
    requires TiledBut(v, owner, x) && SameShape(v, v1)
    ensures TiledBut(v1, owner, x) && FreeSet(v1, owner) == FreeSet(v, owner)
  {
    forall b {:trigger Covers(v1, owner, x, b)} | b in owner ensures Covers(v1, owner, x, b) && FreeAt(v1, owner, b) == FreeAt(v, owner, b) {
      assert Covers(v, owner, x, b);
    }
    forall h {:trigger Extent(v1, owner, h)} | IsHead(v1, h) ensures Extent(v1, owner, h) {
      assert IsHead(v, h) && Extent(v, owner, h);
    }
    forall b {:trigger Owned(v1, owner, b)} | b in v1 ensures Owned(v1, owner, b) {
      assert Owned(v, owner, b);
    }
  }

  /** A tiled heap meets what the index searches need. */
  lemma TiledLeads(v: View, owner: map<int, int>)
    requires Tiled(v, owner)
    ensures CountsLead(v) && FreeTails(v) && forall b | b in v :: b > 0
  {
    forall b {:trigger CountLeads(v, b, v[b].n)} | b in v && v[b].Count? ensures CountLeads(v, b, v[b].n) {
      assert Owned(v, owner, b);
      assert Covers(v, owner, 0, b);
      var h := owner[b];
      assert Extent(v, owner, h);
      forall k | b - v[b].n < k <= b ensures k in v && v[k].Count? {
        assert Covers(v, owner, 0, k);
      }
      assert Covers(v, owner, 0, b - v[b].n);
    }
    forall h | IsHead(v, h) && v[h].hdr.free
      ensures v[h].hdr.sz % HBLKSIZE == 0 && Len(v[h].hdr) >= 1
      ensures forall k | h < k < h + Len(v[h].hdr) :: k !in v
    {
      assert Extent(v, owner, h);
      forall k | h < k < h + Len(v[h].hdr) ensures k !in v {
        assert k in v ==> Owned(v, owner, k);
        assert Covers(v, owner, 0, k);
      }
    }
    forall b | b in v ensures b > 0 {
      assert Owned(v, owner, b);
      assert Covers(v, owner, 0, b);
    }
  }

  lemma HeadOwnsItself(v: View, owner: map<int, int>, x: int, h: int)
    requires TiledBut(v, owner, x) && IsHead(v, h)
    ensures h in owner && owner[h] == h && h > 0 && Len(v[h].hdr) >= 1
  {
    assert Extent(v, owner, h);
    assert Covers(v, owner, x, h);
  }

  /** FreeSet follows from FreeAt, block by block. */
  lemma FreeSetFrom(v: View, owner: map<int, int>, v1: View, owner1: map<int, int>, minus: set<int>, plus: set<int>)
    requires owner1.Keys == owner.Keys && plus <= owner.Keys
    requires forall b | b in owner :: FreeAt(v1, owner1, b) <==> ((FreeAt(v, owner, b) && b !in minus) || b in plus)
    ensures FreeSet(v1, owner1) == FreeSet(v, owner) - minus + plus
  {
  }

  ghost predicate Freed(v: View, h: int, v1: View) {
    && IsUsed(v, h)
    && v1.Keys == v.Keys - Interval(h + 1, h + Len(v[h].hdr))
    && (forall b | b in v1 && b != h :: v1[b] == v[b])
    && FreeHead(v1, h) && v1[h].hdr.sz == Len(v[h].hdr) * HBLKSIZE
  }

  lemma FreedCovers(v: View, owner: map<int, int>, h: int, v1: View, b: int)
    requires TiledBut(v, owner, h) && Freed(v, h, v1) && b in owner
    ensures Covers(v1, owner, 0, b)
    ensures FreeAt(v1, owner, b) <==> FreeAt(v, owner, b) || b in Interval(h, h + Len(v[h].hdr))
  {
    assert Covers(v, owner, h, b);
    assert Extent(v, owner, h);
    HeadOwnsItself(v, owner, h, owner[b]);
    HeadOwnsItself(v, owner, h, h);
  }

  lemma FreedExtents(v: View, owner: map<int, int>, h: int, v1: View)
    requires TiledBut(v, owner, h) == true && Freed(v, h, v1)
    ensures forall k {:trigger Extent(v1, owner, k)} | IsHead(v1, k) :: Extent(v1, owner, k)
    ensures forall b {:trigger Owned(v1, owner, b)} | b in v1 :: Owned(v1, owner, b)
    ensures Extent(v, owner, h)
  {
    forall k {:trigger Extent(v1, owner, k)} | IsHead(v1, k) ensures Extent(v1, owner, k) {
      assert Extent(v, owner, k);
    }
    forall b {:trigger Owned(v1, owner, b)} | b in v1 ensures Owned(v1, owner, b) {
      if b in v {
        assert Owned(v, owner, b);
      }
    }
    assert Extent(v, owner, h);
  }

  /** The used block h becomes free; its forwarding counts, if any, are gone. */
  lemma TiledFree(v: View, owner: map<int, int>, h: int, v1: View)
    requires TiledBut(v, owner, h) == true && Freed(v, h, v1) == true
    ensures Tiled(v1, owner) == true
    ensures FreeSet(v1, owner) == FreeSet(v, owner) + Interval(h, h + Len(v[h].hdr))
  {
    forall b {:trigger Covers(v1, owner, 0, b)} | b in owner ensures Covers(v1, owner, 0, b) {
      FreedCovers(v, owner, h, v1, b);
    }
    FreedExtents(v, owner, h, v1);
    FreedFree(v, owner, h, v1);
  }

  lemma FreedFree(v: View, owner: map<int, int>, h: int, v1: View)
    requires TiledBut(v, owner, h) == true && Freed(v, h, v1) == true
    ensures FreeSet(v1, owner) == FreeSet(v, owner) + Interval(h, h + Len(v[h].hdr))
  {
    forall b {:trigger FreeAt(v1, owner, b)} | b in owner
      ensures FreeAt(v1, owner, b) <==> FreeAt(v, owner, b) || b in Interval(h, h + Len(v[h].hdr))
    {
      FreedCovers(v, owner, h, v1, b);
    }
    assert Extent(v, owner, h);
    FreeSetFrom(v, owner, v1, owner, {}, Interval(h, h + Len(v[h].hdr)));
  }

  lemma UsedNotFree(v: View, owner: map<int, int>, h: int)
    requires TiledBut(v, owner, h) && IsUsed(v, h)
    ensures FreeSet(v, owner) !! Interval(h, h + Len(v[h].hdr))
  {
    assert Extent(v, owner, h);
  }

  lemma FreeGrows(v: View, owner: map<int, int>, h: int)
    requires TiledBut(v, owner, h) && IsUsed(v, h)
    ensures |FreeSet(v, owner) + Interval(h, h + Len(v[h].hdr))| == |FreeSet(v, owner)| + Len(v[h].hdr)
    ensures forall b | IsUsed(v, b) && b != h :: b !in Interval(h + 1, h + Len(v[h].hdr))
  {
    UsedNotFree(v, owner, h);
    HeadOwnsItself(v, owner, h, h);
    assert Extent(v, owner, h);
    forall b | IsUsed(v, b) && b != h ensures b !in Interval(h + 1, h + Len(v[h].hdr)) {
      HeadOwnsItself(v, owner, h, b);
    }
  }

  /** The free block h is handed out: v1 has a used header for it and its forwarding counts. */
  ghost predicate Allocated(v: View, h: int, v1: View) {
    && FreeHead(v, h) && IsUsed(v1, h)
    && Len(v1[h].hdr) == Len(v[h].hdr) && v1[h].hdr.sz > 0
    && (forall b | b != h :: At(v1, b) == if h < b < h + Len(v[h].hdr) then CountFor(h, b) else At(v, b))
    && (forall b | b in v1 :: v1[b] != Nil)
  }

  lemma AllocatedCovers(v: View, owner: map<int, int>, h: int, v1: View, b: int)
    requires Tiled(v, owner) && Allocated(v, h, v1) && b in owner
    ensures Covers(v1, owner, 0, b)
    ensures FreeAt(v1, owner, b) <==> FreeAt(v, owner, b) && b !in Interval(h, h + Len(v[h].hdr))
    ensures h <= b < h + Len(v[h].hdr) ==> FreeAt(v, owner, b)
  {
    assert Covers(v, owner, 0, b);
    assert Extent(v, owner, h);
    HeadOwnsItself(v, owner, 0, owner[b]);
    HeadOwnsItself(v, owner, 0, h);
    assert At(v1, owner[b]).Header?;
  }

  lemma TiledAlloc(v: View, owner: map<int, int>, h: int, v1: View)
    requires Tiled(v, owner) && Allocated(v, h, v1)
    ensures Tiled(v1, owner)
    ensures FreeSet(v1, owner) == FreeSet(v, owner) - Interval(h, h + Len(v[h].hdr))
    ensures Interval(h, h + Len(v[h].hdr)) <= FreeSet(v, owner)
  {
    assert Extent(v, owner, h);
    forall b {:trigger Covers(v1, owner, 0, b)} {:trigger FreeAt(v1, owner, b)} | b in owner
      ensures Covers(v1, owner, 0, b)
      ensures FreeAt(v1, owner, b) <==> FreeAt(v, owner, b) && b !in Interval(h, h + Len(v[h].hdr))
      ensures h <= b < h + Len(v[h].hdr) ==> FreeAt(v, owner, b)
    {
      AllocatedCovers(v, owner, h, v1, b);
    }
    forall k {:trigger Extent(v1, owner, k)} | IsHead(v1, k) ensures Extent(v1, owner, k) {
      assert At(v1, k).Header?;
      assert Extent(v, owner, k);
    }
    forall b {:trigger Owned(v1, owner, b)} | b in v1 ensures Owned(v1, owner, b) {
      assert At(v1, b) != Nil;
      assert b in v ==> Owned(v, owner, b);
    }
    FreeSetFrom(v, owner, v1, owner, Interval(h, h + Len(v[h].hdr)), {});
  }

  /** The block numbers from lo up to hi get the owner c. */
  ghost function Reown(owner: map<int, int>, lo: int, hi: int, c: int): map<int, int> {
    map k | k in owner :: if lo <= k < hi then c else owner[k]
  }

  /** Two neighbouring free blocks become one. */
  ghost predicate Merged(v: View, a: int, v1: View) {
    && FreeHead(v, a)
    && var b := a + Len(v[a].hdr);
    && FreeHead(v, b)
    && v1.Keys == v.Keys - {b}
    && (forall k | k in v1 && k != a :: v1[k] == v[k])
    && FreeHead(v1, a) && v1[a].hdr.sz == v[a].hdr.sz + v[b].hdr.sz
  }

  /** The free block a takes over the free block behind it. */
  function Absorb(v: View, a: int): View
    requires FreeHead(v, a) && FreeHead(v, a + Len(v[a].hdr))
  {
    var b := a + Len(v[a].hdr);
    v[a := Header(v[a].hdr.(sz := v[a].hdr.sz + v[b].hdr.sz))] - {b}
  }

  ghost function MergedOwner(v: View, owner: map<int, int>, a: int): map<int, int>
    requires FreeHead(v, a) && FreeHead(v, a + Len(v[a].hdr))
  {
    var b := a + Len(v[a].hdr);
    Reown(owner, b, b + Len(v[b].hdr), a)
  }

  lemma MergedCovers(v: View, owner: map<int, int>, a: int, v1: View, k: int)
    requires Tiled(v, owner) && Merged(v, a, v1) && k in owner
    ensures Covers(v1, MergedOwner(v, owner, a), 0, k)
    ensures FreeAt(v1, MergedOwner(v, owner, a), k) <==> FreeAt(v, owner, k)
  {
    var b := a + Len(v[a].hdr);
    assert Extent(v, owner, a) && Extent(v, owner, b);
    assert Covers(v, owner, 0, k);
    assert Extent(v, owner, owner[k]);
    HeadOwnsItself(v, owner, 0, owner[k]);
    HeadOwnsItself(v, owner, 0, a);
    HeadOwnsItself(v, owner, 0, b);
  }

  lemma MergedExtent(v: View, owner: map<int, int>, a: int, v1: View, h: int)
    requires Tiled(v, owner) && Merged(v, a, v1) && IsHead(v1, h)
    ensures Extent(v1, MergedOwner(v, owner, a), h)
  {
    var b := a + Len(v[a].hdr);
    assert Extent(v, owner, a) && Extent(v, owner, b);
    assert Extent(v, owner, h);
    var owner1 := MergedOwner(v, owner, a);
    forall k | h <= k < h + Len(v1[h].hdr) ensures k in owner1 && owner1[k] == h {
      assert h != a ==> k in owner && owner[k] == h;
    }
  }

  lemma TiledMerge(v: View, owner: map<int, int>, a: int, v1: View)
    requires Tiled(v, owner) && Merged(v, a, v1)
    ensures var owner1 := MergedOwner(v, owner, a);
      Tiled(v1, owner1) && owner1.Keys == owner.Keys && FreeSet(v1, owner1) == FreeSet(v, owner)
  {
    var owner1 := MergedOwner(v, owner, a);
    forall k {:trigger Covers(v1, owner1, 0, k)} {:trigger FreeAt(v1, owner1, k)} | k in owner1
      ensures Covers(v1, owner1, 0, k) && (FreeAt(v1, owner1, k) <==> FreeAt(v, owner, k))
    {
      MergedCovers(v, owner, a, v1, k);
    }
    forall h {:trigger Extent(v1, owner1, h)} | IsHead(v1, h) ensures Extent(v1, owner1, h) {
      MergedExtent(v, owner, a, v1, h);
    }
    forall b {:trigger Owned(v1, owner1, b)} | b in v1 ensures Owned(v1, owner1, b) {
      if b in v {
        assert Owned(v, owner, b);
      }
    }
    FreeSetFrom(v, owner, v1, owner1, {}, {});
  }

  /** The free block a is cut in two free blocks at n. */
  ghost predicate Split(v: View, a: int, n: int, v1: View) {
    && FreeHead(v, a) && a < n < a + Len(v[a].hdr)
    && v1.Keys == v.Keys + {n}
    && (forall k | k in v1 && k != a && k != n :: k in v && v1[k] == v[k])
    && FreeHead(v1, a) && v1[a].hdr.sz == (n - a) * HBLKSIZE
    && FreeHead(v1, n) && v1[n].hdr.sz == v[a].hdr.sz - (n - a) * HBLKSIZE
  }

  ghost function SplitOwner(v: View, owner: map<int, int>, a: int, n: int): map<int, int>
    requires FreeHead(v, a)
  {
    Reown(owner, n, a + Len(v[a].hdr), n)
  }

  lemma SplitCovers(v: View, owner: map<int, int>, a: int, n: int, v1: View, k: int)
    requires Tiled(v, owner) && Split(v, a, n, v1) && k in owner
    ensures Covers(v1, SplitOwner(v, owner, a, n), 0, k)
    ensures FreeAt(v1, SplitOwner(v, owner, a, n), k) <==> FreeAt(v, owner, k)
    ensures n !in v
  {
    assert Extent(v, owner, a);
    assert Covers(v, owner, 0, n);
    assert Covers(v, owner, 0, k);
    assert Extent(v, owner, owner[k]);
    HeadOwnsItself(v, owner, 0, owner[k]);
    HeadOwnsItself(v, owner, 0, a);
    assert n in v ==> Owned(v, owner, n);
  }

  lemma SplitExtent(v: View, owner: map<int, int>, a: int, n: int, v1: View, h: int)
    requires Tiled(v, owner) && Split(v, a, n, v1) && IsHead(v1, h)
    ensures Extent(v1, SplitOwner(v, owner, a, n), h)
  {
    assert Extent(v, owner, a);
    var owner1 := SplitOwner(v, owner, a, n);
    if h != n {
      assert Extent(v, owner, h);
      forall k | h <= k < h + Len(v1[h].hdr) ensures k in owner1 && owner1[k] == h {
        assert h != a ==> k in owner && owner[k] == h;
      }
    }
  }

  lemma TiledSplit(v: View, owner: map<int, int>, a: int, n: int, v1: View)
    requires Tiled(v, owner) && Split(v, a, n, v1)
    ensures var owner1 := SplitOwner(v, owner, a, n);
      Tiled(v1, owner1) && owner1.Keys == owner.Keys && FreeSet(v1, owner1) == FreeSet(v, owner)
    ensures n !in v
  {
    var owner1 := SplitOwner(v, owner, a, n);
    assert Extent(v, owner, a);
    SplitCovers(v, owner, a, n, v1, a);
    forall k {:trigger Covers(v1, owner1, 0, k)} {:trigger FreeAt(v1, owner1, k)} | k in owner1
      ensures Covers(v1, owner1, 0, k) && (FreeAt(v1, owner1, k) <==> FreeAt(v, owner, k))
    {
      SplitCovers(v, owner, a, n, v1, k);
    }
    forall h {:trigger Extent(v1, owner1, h)} | IsHead(v1, h) ensures Extent(v1, owner1, h) {
      SplitExtent(v, owner, a, n, v1, h);
    }
    forall b {:trigger Owned(v1, owner1, b)} | b in v1 ensures Owned(v1, owner1, b) {
      if b in v {
        assert Owned(v, owner, b);
      }
    }
    FreeSetFrom(v, owner, v1, owner1, {}, {});
  }

  // ------------------------------------------------------------------------------------------ free lists

  /** The block number at place j of list s, or the null link. */
  function Link(s: seq<int>, j: int): int {
    if 0 <= j < |s| then s[j] else 0
  }

  ghost predicate NodeOk(v: View, s: seq<int>, j: int)
    requires 0 <= j < |s|
  {
    && s[j] != 0
    && IsHead(v, s[j])
    && v[s[j]].hdr.prev == Link(s, j - 1)
    && v[s[j]].hdr.next == Link(s, j + 1)
  }

  /** The doubly linked list starting at head is s. */
  ghost predicate ListOk(v: View, head: int, s: seq<int>) {
    && head == Link(s, 0)
    && NoDup(s)
    && forall j {:trigger NodeOk(v, s, j)} | 0 <= j < |s| :: NodeOk(v, s, j)
  }

  /** Bytes in the blocks of a list. */
  ghost function SumSz(v: View, s: seq<int>): int
    requires Heads(v, s)
  {
    if s == [] then 0 else v[s[0]].hdr.sz + SumSz(v, s[1..])
  }

  ghost predicate ListsOk(v: View, fl: seq<int>, fb: seq<int>, lists: seq<seq<int>>) {
    && |fl| == |fb| == |lists| == N_LISTS
    && (forall i {:trigger OneListOk(v, fl[i], fb[i], lists[i])} | 0 <= i < N_LISTS ::
          OneListOk(v, fl[i], fb[i], lists[i]))
    && (forall i, x {:trigger OnlyOn(lists, i, x)} | 0 <= i < N_LISTS && x in lists[i] :: OnlyOn(lists, i, x))
  }

  /** Block x is on no list but list i. */
  ghost predicate OnlyOn(lists: seq<seq<int>>, i: int, x: int) {
    forall j | 0 <= j < |lists| && j != i :: x !in lists[j]
  }

  ghost predicate OneListOk(v: View, head: int, bytes: int, s: seq<int>) {
    ListOk(v, head, s) && Heads(v, s) && bytes == SumSz(v, s)
  }

  ghost predicate Heads(v: View, s: seq<int>) {
    forall j | 0 <= j < |s| :: IsHead(v, s[j])
  }

  /** Every free block outside except is on the list for its size, and listed blocks are on the right list. */
  ghost predicate Placed(v: View, lists: seq<seq<int>>, except: set<int>)
    requires |lists| == N_LISTS
  {
    && (forall h {:trigger FreeHead(v, h)} | FreeHead(v, h) && h !in except ::
          Len(v[h].hdr) >= 0 && h in lists[HblkFlFromBlocks(Len(v[h].hdr))])
    && (forall i, h {:trigger h in lists[i]} | 0 <= i < N_LISTS && h in lists[i] && h !in except ::
          FreeHead(v, h) && Len(v[h].hdr) >= 0 && HblkFlFromBlocks(Len(v[h].hdr)) == i)
  }

  lemma SumSzSame(v: View, v1: View, s: seq<int>)
    requires Heads(v, s) && Heads(v1, s)
    requires forall j | 0 <= j < |s| :: v1[s[j]].hdr.sz == v[s[j]].hdr.sz
    ensures SumSz(v1, s) == SumSz(v, s)
  {
  }

  lemma SumSzRemove(v: View, s: seq<int>, j: nat)
    requires Heads(v, s) && j < |s|
    ensures Heads(v, s[..j] + s[j + 1..])
    ensures SumSz(v, s[..j] + s[j + 1..]) == SumSz(v, s) - v[s[j]].hdr.sz
  {
    if j == 0 {
      assert s[..0] + s[1..] == s[1..];
    } else {
      SumSzRemove(v, s[1..], j - 1);
      assert s[..j] + s[j + 1..] == [s[0]] + (s[1..][..j - 1] + s[1..][j..]);
    }
  }

  lemma SumSzNonNeg(v: View, owner: map<int, int>, x: int, s: seq<int>)
    requires TiledBut(v, owner, x) && Heads(v, s)
    ensures SumSz(v, s) >= 0
  {
    if s != [] {
      assert Extent(v, owner, s[0]);
      SumSzNonNeg(v, owner, x, s[1..]);
    }
  }

  predicate Unlinkable(v: View, x: int) {
    && IsHead(v, x)
    && (v[x].hdr.prev == 0 || IsHead(v, v[x].hdr.prev))
    && (v[x].hdr.next == 0 || IsHead(v, v[x].hdr.next))
  }

  /** The headers after block x is unlinked from its neighbours. */
  function Unlink(v: View, x: int): View
    requires Unlinkable(v, x)
  {
    var p, n := v[x].hdr.prev, v[x].hdr.next;
    var v1 := if p == 0 then v else v[p := Header(v[p].hdr.(next := n))];
    if n == 0 then v1 else v1[n := Header(v1[n].hdr.(prev := p))]
  }

  lemma ListRemove(v: View, head: int, s: seq<int>, j: nat)
    requires ListOk(v, head, s) && j < |s|
    ensures NodeOk(v, s, j)
    ensures j > 0 ==> NodeOk(v, s, j - 1)
    ensures j + 1 < |s| ==> NodeOk(v, s, j + 1)
    ensures ListOk(Unlink(v, s[j]), if j == 0 then Link(s, 1) else head, s[..j] + s[j + 1..])
    ensures SameShape(v, Unlink(v, s[j])) && Unlink(v, s[j])[s[j]] == v[s[j]]
    ensures forall b | b in v && b !in s :: Unlink(v, s[j])[b] == v[b]
  {
    assert NodeOk(v, s, j);
    assert j > 0 ==> NodeOk(v, s, j - 1);
    assert j + 1 < |s| ==> NodeOk(v, s, j + 1);
    var s1 := s[..j] + s[j + 1..];
    var v1 := Unlink(v, s[j]);
    forall k {:trigger NodeOk(v1, s1, k)} | 0 <= k < |s1| ensures NodeOk(v1, s1, k) {
      assert NodeOk(v, s, if k < j then k else k + 1);
    }
  }

  /** The headers after block x is pushed in front of a list whose first block is second. */
  function PushFront(v: View, x: int, second: int): View
    requires IsHead(v, x)
    requires second == 0 || IsHead(v, second)
  {
    var v1 := v[x := Header(v[x].hdr.(next := second, prev := 0))];
    var v2 := if second == 0 then v1 else v1[second := Header(v1[second].hdr.(prev := x))];
    v2[x := Header(v2[x].hdr.(free := true))]
  }

  lemma ListPush(v: View, head: int, s: seq<int>, x: int)
    requires ListOk(v, head, s) && IsHead(v, x) && x !in s && x != 0
    ensures |s| > 0 ==> NodeOk(v, s, 0)
    ensures ListOk(PushFront(v, x, head), x, [x] + s)
    ensures forall b | b in v && b != x && b !in s :: PushFront(v, x, head)[b] == v[b]
    ensures PushFront(v, x, head).Keys == v.Keys
    ensures forall b | b in v && b != x ::
      PushFront(v, x, head)[b] == v[b] || (v[b].Header? && PushFront(v, x, head)[b] == Header(v[b].hdr.(prev := x)))
  {
    assert |s| > 0 ==> NodeOk(v, s, 0);
    var s1 := [x] + s;
    var v1 := PushFront(v, x, head);
    forall k {:trigger NodeOk(v1, s1, k)} | 0 <= k < |s1| ensures NodeOk(v1, s1, k) {
      if k > 0 {
        assert NodeOk(v, s, k - 1);
      }
    }
  }

  /** A list is untouched by changes to headers that are not on it. */
  lemma ListFrame(v: View, v1: View, head: int, s: seq<int>)
    requires ListOk(v, head, s)
    requires forall x | x in s :: x in v && x in v1 && v1[x] == v[x]
    ensures ListOk(v1, head, s)
  {
    forall j {:trigger NodeOk(v1, s, j)} | 0 <= j < |s| ensures NodeOk(v1, s, j) {
      assert NodeOk(v, s, j);
    }
  }

  /** A whole collection of lists survives changes outside the lists. */
  lemma ListsFrame(v: View, v1: View, fl: seq<int>, fb: seq<int>, lists: seq<seq<int>>)
    requires ListsOk(v, fl, fb, lists)
    requires forall i, x | 0 <= i < N_LISTS && x in lists[i] :: x in v && x in v1 && v1[x] == v[x]
    ensures ListsOk(v1, fl, fb, lists)
  {
    forall i | 0 <= i < N_LISTS ensures OneListOk(v1, fl[i], fb[i], lists[i]) {
      assert OneListOk(v, fl[i], fb[i], lists[i]);
      ListFrame(v, v1, fl[i], lists[i]);
      SumSzSame(v, v1, lists[i]);
    }
  }

  /** A slot of a block that has no header is free to be written. */
  lemma InstallUnlisted(v: View, fl: seq<int>, fb: seq<int>, lists: seq<seq<int>>, n: int, s0: Slot, s: Slot)
    requires ListsOk(v, fl, fb, lists) && n !in v
    ensures v[n := s0][n := s] == v[n := s]
    ensures ListsOk(v[n := s], fl, fb, lists) && forall i | 0 <= i < N_LISTS :: n !in lists[i]
  {
    forall i, x | 0 <= i < N_LISTS && x in lists[i] ensures x in v && x != n {
      assert OneListOk(v, fl[i], fb[i], lists[i]);
    }
    ListsFrame(v, v[n := s], fl, fb, lists);
  }

  /** The block at place j of list i leaves its list. */
  function Remove(lists: seq<seq<int>>, i: int, j: int): seq<seq<int>>
    requires 0 <= i < |lists| && 0 <= j < |lists[i]|
  {
    lists[i := lists[i][..j] + lists[i][j + 1..]]
  }

  /** lists1 lists the same blocks as lists, without x. */
  ghost predicate MinusOne(lists: seq<seq<int>>, lists1: seq<seq<int>>, x: int) {
    |lists1| == |lists| &&
    forall k, y | 0 <= k < |lists| :: y in lists1[k] <==> y in lists[k] && y != x
  }

  lemma RemoveMembers(s: seq<int>, j: nat)
    requires NoDup(s) && j < |s|
    ensures forall y :: y in s[..j] + s[j + 1..] <==> y in s && y != s[j]
  {
    forall y | y in s && y != s[j] ensures y in s[..j] + s[j + 1..] {
      var k :| 0 <= k < |s| && s[k] == y;
      assert (s[..j] + s[j + 1..])[if k < j then k else k - 1] == y;
    }
  }

  lemma ListsRemove(v: View, fl: seq<int>, fb: seq<int>, lists: seq<seq<int>>, i: int, j: nat)
    requires ListsOk(v, fl, fb, lists) && 0 <= i < N_LISTS && j < |lists[i]|
    ensures Unlinkable(v, lists[i][j])
    ensures var x := lists[i][j];
      var v1 := Unlink(v, x);
      && ListsOk(v1, if v[x].hdr.prev == 0 then fl[i := v[x].hdr.next] else fl, fb[i := fb[i] - v[x].hdr.sz],
                 Remove(lists, i, j))
      && SameShape(v, v1) && v1[x] == v[x]
      && (forall b | b in v && b !in lists[i] :: v1[b] == v[b])
      && MinusOne(lists, Remove(lists, i, j), x)
  {
    assert OneListOk(v, fl[i], fb[i], lists[i]);
    ListRemove(v, fl[i], lists[i], j);
    var s, x := lists[i], lists[i][j];
    var v1, s1 := Unlink(v, x), s[..j] + s[j + 1..];
    SumSzRemove(v, s, j);
    SumSzSame(v, v1, s1);
    assert (j == 0) == (v[x].hdr.prev == 0);
    var fl1 := if j == 0 then fl[i := v[x].hdr.next] else fl;
    var fb1, lists1 := fb[i := fb[i] - v[x].hdr.sz], lists[i := s1];
    RemoveElsewhere(lists, i, j);
    forall k {:trigger OneListOk(v1, fl1[k], fb1[k], lists1[k])} | 0 <= k < N_LISTS
      ensures OneListOk(v1, fl1[k], fb1[k], lists1[k])
    {
      if k != i {
        OtherListKept(v, fl, fb, lists, i, j, k);
      }
    }
  }

  lemma RemoveElsewhere(lists: seq<seq<int>>, i: int, j: nat)
    requires |lists| == N_LISTS && 0 <= i < N_LISTS && j < |lists[i]| && NoDup(lists[i])
    requires forall k, y {:trigger OnlyOn(lists, k, y)} | 0 <= k < N_LISTS && y in lists[k] :: OnlyOn(lists, k, y)
    ensures var lists1 := Remove(lists, i, j);
      && MinusOne(lists, lists1, lists[i][j]) == true
      && forall k, y {:trigger OnlyOn(lists1, k, y)} | 0 <= k < N_LISTS && y in lists1[k] :: OnlyOn(lists1, k, y)
  {
    var lists1 := Remove(lists, i, j);
    RemoveMembers(lists[i], j);
    forall k, y {:trigger OnlyOn(lists1, k, y)} | 0 <= k < N_LISTS && y in lists1[k] ensures OnlyOn(lists1, k, y) {
      assert OnlyOn(lists, k, y);
    }
    assert OnlyOn(lists, i, lists[i][j]);
  }

  /** Taking a block off list i leaves the other lists alone. */
  lemma OtherListKept(v: View, fl: seq<int>, fb: seq<int>, lists: seq<seq<int>>, i: int, j: nat, k: int)
    requires ListsOk(v, fl, fb, lists) && 0 <= i < N_LISTS && j < |lists[i]| && 0 <= k < N_LISTS && k != i
    requires Unlinkable(v, lists[i][j])
    requires forall b | b in v && b !in lists[i] :: Unlink(v, lists[i][j])[b] == v[b]
    ensures OneListOk(Unlink(v, lists[i][j]), fl[k], fb[k], lists[k]) == true
  {
    var v1 := Unlink(v, lists[i][j]);
    assert OneListOk(v, fl[k], fb[k], lists[k]);
    forall y | y in lists[k] ensures y !in lists[i] {
      assert OnlyOn(lists, k, y);
    }
    ListFrame(v, v1, fl[k], lists[k]);
    SumSzSame(v, v1, lists[k]);
  }

  lemma ListsPush(v: View, fl: seq<int>, fb: seq<int>, lists: seq<seq<int>>, i: int, x: int)
    requires ListsOk(v, fl, fb, lists) && 0 <= i < N_LISTS && IsHead(v, x) && x != 0
    requires forall k | 0 <= k < N_LISTS :: x !in lists[k]
    ensures fl[i] == 0 || IsHead(v, fl[i])
    ensures var v1 := PushFront(v, x, fl[i]);
      && ListsOk(v1, fl[i := x], fb[i := fb[i] + v[x].hdr.sz], lists[i := [x] + lists[i]])
      && v1.Keys == v.Keys
      && (forall b | b in v && b != x :: v1[b] == v[b] || (v[b].Header? && v1[b] == Header(v[b].hdr.(prev := x))))
      && (forall b | b in v && b != x && b !in lists[i] :: v1[b] == v[b])
  {
    assert OneListOk(v, fl[i], fb[i], lists[i]);
    ListPush(v, fl[i], lists[i], x);
    var v1, s1 := PushFront(v, x, fl[i]), [x] + lists[i];
    var fl1, fb1, lists1 := fl[i := x], fb[i := fb[i] + v[x].hdr.sz], lists[i := s1];
    forall y | y in lists[i] ensures IsHead(v1, y) && v1[y].hdr.sz == v[y].hdr.sz {
      assert IsHead(v, y);
    }
    SumSzSame(v, v1, lists[i]);
    assert s1[1..] == lists[i];
    forall k {:trigger OneListOk(v1, fl1[k], fb1[k], lists1[k])} | 0 <= k < N_LISTS
      ensures OneListOk(v1, fl1[k], fb1[k], lists1[k])
    {
      if k != i {
        assert OneListOk(v, fl[k], fb[k], lists[k]);
        forall y | y in lists[k] ensures y !in lists[i] {
          assert OnlyOn(lists, k, y);
        }
        ListFrame(v, v1, fl[k], lists[k]);
        SumSzSame(v, v1, lists[k]);
      }
    }
    forall k, y {:trigger OnlyOn(lists1, k, y)} | 0 <= k < N_LISTS && y in lists1[k] ensures OnlyOn(lists1, k, y) {
      assert y != x ==> OnlyOn(lists, k, y);
    }
  }

  /** Total of s from place n on. */
  ghost function SumFrom(s: seq<int>, n: nat): int
    decreases |s| - n
  {
    if n >= |s| then 0 else s[n] + SumFrom(s, n + 1)
  }

  /** The block right behind a block is a head or lies outside the heap. */
  lemma NextIsHead(v: View, owner: map<int, int>, h: int)
    requires Tiled(v, owner) && IsHead(v, h)
    ensures h + Len(v[h].hdr) in owner ==> IsHead(v, h + Len(v[h].hdr))
    ensures h + Len(v[h].hdr) !in owner ==> h + Len(v[h].hdr) !in v
  {
    var n := h + Len(v[h].hdr);
    HeadOwnsItself(v, owner, 0, h);
    assert Extent(v, owner, h);
    if n in owner {
      assert Covers(v, owner, 0, n);
      HeadOwnsItself(v, owner, 0, owner[n]);
      assert Extent(v, owner, owner[n]);
    }
    assert n in v ==> Owned(v, owner, n);
  }

  /** Maximality of free runs, but nothing is said about x and its neighbours. */
  ghost predicate NoAdjacentBut(v: View, x: int) {
    forall h {:trigger GapAfter(v, h)} | FreeHead(v, h) && h != x && h + Len(v[h].hdr) != x :: GapAfter(v, h)
  }

  /** The same blocks are in use, with the same headers. */
  ghost predicate SameUsed(v: View, v1: View) {
    forall h :: IsUsed(v1, h) == IsUsed(v, h) && (IsUsed(v, h) ==> v1[h] == v[h])
  }

  function MarkFree(v: View, h: int): View
    requires IsHead(v, h)
  {
    v[h := Header(v[h].hdr.(free := true))]
  }

  /** The free list for a block with this header. */
  function BinOf(h: Hdr): int
    requires h.sz >= 0
  {
    HblkFlFromBlocks(Len(h))
  }

  /** The invariant of the heap block manager; nothing is said about the slots behind head x. */
  ghost predicate Sound(v: View, owner: map<int, int>, fl: seq<int>, fb: seq<int>, lists: seq<seq<int>>, x: int) {
    && TiledBut(v, owner, x)
    && ListsOk(v, fl, fb, lists)
    && Placed(v, lists, {})
    && NoAdjacent(v)
  }

  /** Sound, without the links and byte counts of the lists. */
  ghost predicate SoundShape(v: View, owner: map<int, int>, lists: seq<seq<int>>) {
    Tiled(v, owner) && |lists| == N_LISTS && Placed(v, lists, {}) && NoAdjacent(v)
  }

  // --------------------------------------------------------------------------------- freeing and merging

  /** No free block ends where h starts. */
  ghost predicate GapBefore(v: View, h: int) {
    forall g | FreeHead(v, g) :: g + Len(v[g].hdr) != h
  }

  ghost predicate UnlistedIn(lists: seq<seq<int>>, h: int) {
    forall i | 0 <= i < |lists| :: h !in lists[i]
  }

  /** A consistent heap in which the free block h has yet to be merged with its neighbours and listed. */
  ghost predicate Loose(v: View, owner: map<int, int>, lists: seq<seq<int>>, h: int) {
    && Tiled(v, owner)
    && FreeHead(v, h)
    && |lists| == N_LISTS
    && UnlistedIn(lists, h)
    && Placed(v, lists, {h})
    && NoAdjacentBut(v, h)
  }

  /** Relinking a list leaves the used blocks alone. */
  lemma RelinkKeepsUsed(v: View, v1: View, lists: seq<seq<int>>, i: int, h: int)
    requires |lists| == N_LISTS && 0 <= i < N_LISTS && Placed(v, lists, {h}) && FreeHead(v, h)
    requires SameShape(v, v1)
    requires forall b | b in v && b !in lists[i] :: v1[b] == v[b]
    ensures SameUsed(v, v1)
  {
    forall b | b in lists[i] ensures FreeHead(v, b) {
    }
  }

  lemma PlacedAfterRemove(v: View, v1: View, lists: seq<seq<int>>, lists1: seq<seq<int>>, h: int, x: int)
    requires |lists| == N_LISTS && Placed(v, lists, {h}) && MinusOne(lists, lists1, x) && SameShape(v, v1)
    ensures Placed(v1, lists1, {h, x})
  {
    forall g {:trigger FreeHead(v1, g)} | FreeHead(v1, g) && g !in {h, x}
      ensures Len(v1[g].hdr) >= 0 && g in lists1[HblkFlFromBlocks(Len(v1[g].hdr))]
    {
      assert FreeHead(v, g);
    }
    forall i, g {:trigger g in lists1[i]} | 0 <= i < N_LISTS && g in lists1[i] && g !in {h, x}
      ensures FreeHead(v1, g) && Len(v1[g].hdr) >= 0 && HblkFlFromBlocks(Len(v1[g].hdr)) == i
    {
      assert g in lists[i];
    }
  }

  lemma PlacedAfterMerge(v: View, v1: View, lists: seq<seq<int>>, a: int)
    requires |lists| == N_LISTS && Merged(v, a, v1) && UnlistedIn(lists, a + Len(v[a].hdr))
    requires Placed(v, lists, {a, a + Len(v[a].hdr)})
    ensures Placed(v1, lists, {a})
  {
    var b := a + Len(v[a].hdr);
    forall i, h | 0 <= i < N_LISTS && h in lists[i] && h != a
      ensures FreeHead(v1, h) && Len(v1[h].hdr) >= 0 && HblkFlFromBlocks(Len(v1[h].hdr)) == i
    {
      assert h != b && FreeHead(v, h);
    }
    forall h {:trigger FreeHead(v1, h)} | FreeHead(v1, h) && h != a
      ensures Len(v1[h].hdr) >= 0 && h in lists[HblkFlFromBlocks(Len(v1[h].hdr))]
    {
      assert FreeHead(v, h);
    }
  }

  /** The free block behind h is taken off its list (giving v1, lists1) and swallowed by h (giving v2). */
  lemma LooseMergeNext(v: View, owner: map<int, int>, lists: seq<seq<int>>, h: int,
                       v1: View, lists1: seq<seq<int>>)
    requires Loose(v, owner, lists, h) && SameShape(v, v1) && SameUsed(v, v1)
    requires FreeHead(v, h + Len(v[h].hdr))
    requires MinusOne(lists, lists1, h + Len(v[h].hdr))
    ensures var owner2, v2 := MergedOwner(v1, owner, h), Absorb(v1, h);
      && Loose(v2, owner2, lists1, h)
      && owner2.Keys == owner.Keys && FreeSet(v2, owner2) == FreeSet(v, owner)
      && GapAfter(v2, h) && SameUsed(v, v2)
  {
    var v2 := Absorb(v1, h);
    SameShapeTiled(v, v1, owner, 0);
    HeadOwnsItself(v, owner, 0, h);
    TiledMerge(v1, owner, h, v2);
    PlacedAfterRemove(v, v1, lists, lists1, h, h + Len(v[h].hdr));
    PlacedAfterMerge(v1, v2, lists1, h);
    MergeNextGaps(v, owner, h, v1, v2);
  }

  lemma MergeNextGaps(v: View, owner: map<int, int>, h: int, v1: View, v2: View)
    requires Tiled(v, owner) && FreeHead(v, h) && NoAdjacentBut(v, h) && SameShape(v, v1)
    requires Merged(v1, h, v2)
    ensures NoAdjacentBut(v2, h) && GapAfter(v2, h)
  {
    var n := h + Len(v[h].hdr);
    HeadOwnsItself(v, owner, 0, h);
    HeadOwnsItself(v, owner, 0, n);
    assert Extent(v, owner, h) && Extent(v, owner, n);
    assert GapAfter(v, n);
    forall g {:trigger GapAfter(v2, g)} | FreeHead(v2, g) && g != h && g + Len(v2[g].hdr) != h
      ensures GapAfter(v2, g)
    {
      assert FreeHead(v, g) && GapAfter(v, g);
    }
  }

  /** The loose block h is swallowed by the free block p that ends where h starts. */
  lemma LooseMergePrev(v: View, owner: map<int, int>, lists: seq<seq<int>>, h: int, p: int,
                       v1: View, lists1: seq<seq<int>>)
    requires Loose(v, owner, lists, h) && SameShape(v, v1) && SameUsed(v, v1)
    requires GapAfter(v, h)
    requires FreeHead(v, p) && p + Len(v[p].hdr) == h
    requires MinusOne(lists, lists1, p)
    ensures var owner2, v2 := MergedOwner(v1, owner, p), Absorb(v1, p);
      && Loose(v2, owner2, lists1, p)
      && owner2.Keys == owner.Keys && FreeSet(v2, owner2) == FreeSet(v, owner)
      && GapAfter(v2, p) && GapBefore(v2, p) && SameUsed(v, v2)
  {
    var v2 := Absorb(v1, p);
    SameShapeTiled(v, v1, owner, 0);
    TiledMerge(v1, owner, p, v2);
    PlacedAfterRemove(v, v1, lists, lists1, h, p);
    assert {h, p} == {p, h};
    PlacedAfterMerge(v1, v2, lists1, p);
    MergePrevGaps(v, owner, h, p, v1, v2);
  }

  lemma MergePrevGaps(v: View, owner: map<int, int>, h: int, p: int, v1: View, v2: View)
    requires Tiled(v, owner) && FreeHead(v, h) && NoAdjacentBut(v, h) && SameShape(v, v1)
    requires GapAfter(v, h)
    requires FreeHead(v, p) && p + Len(v[p].hdr) == h && Merged(v1, p, v2)
    ensures NoAdjacentBut(v2, p) && GapAfter(v2, p) && GapBefore(v2, p)
  {
    HeadOwnsItself(v, owner, 0, h);
    HeadOwnsItself(v, owner, 0, p);
    assert Extent(v, owner, h) && Extent(v, owner, p);
    forall g | FreeHead(v2, g) ensures g + Len(v2[g].hdr) != p {
      if g != p {
        assert FreeHead(v, g) && g != h;
        HeadOwnsItself(v, owner, 0, g);
        assert g + Len(v[g].hdr) != h ==> GapAfter(v, g);
      }
    }
    forall g {:trigger GapAfter(v2, g)} | FreeHead(v2, g) && g != p && g + Len(v2[g].hdr) != p
      ensures GapAfter(v2, g)
    {
      EndsOnce(v, owner, p, g);
      assert FreeHead(v, g) && g != h && GapAfter(v, g);
    }
  }

  /** Two blocks that end at the same place are the same block. */
  lemma EndsOnce(v: View, owner: map<int, int>, p: int, g: int)
    requires Tiled(v, owner) && IsHead(v, p) && IsHead(v, g)
    ensures p + Len(v[p].hdr) == g + Len(v[g].hdr) ==> p == g
  {
    HeadOwnsItself(v, owner, 0, p);
    HeadOwnsItself(v, owner, 0, g);
    assert Extent(v, owner, p) && Extent(v, owner, g);
  }

  /** A loose block with no free neighbours is pushed on the list for its size. */
  lemma LooseListed(v: View, owner: map<int, int>, lists: seq<seq<int>>, h: int, v1: View, i: int)
    requires Loose(v, owner, lists, h) && GapAfter(v, h) && GapBefore(v, h)
    requires SameShape(v, v1) && v[h].hdr.sz >= 0 && i == BinOf(v[h].hdr)
    requires forall b | b in v && b != h && b !in lists[i] :: v1[b] == v[b]
    ensures Tiled(v1, owner) && FreeSet(v1, owner) == FreeSet(v, owner) && SameUsed(v, v1)
    ensures Placed(v1, lists[i := [h] + lists[i]], {}) && NoAdjacent(v1)
  {
    SameShapeTiled(v, v1, owner, 0);
    HeadOwnsItself(v, owner, 0, h);
    forall g {:trigger GapAfter(v1, g)} | FreeHead(v1, g) ensures GapAfter(v1, g) {
      assert FreeHead(v, g) && (g != h ==> GapAfter(v, g));
    }
    PlacedAfterPush(v, lists, h, v1, i);
  }

  lemma PlacedAfterPush(v: View, lists: seq<seq<int>>, h: int, v1: View, i: int)
    requires |lists| == N_LISTS && FreeHead(v, h) && Placed(v, lists, {h}) && SameShape(v, v1)
    requires Len(v[h].hdr) >= 0 && i == HblkFlFromBlocks(Len(v[h].hdr))
    requires UnlistedIn(lists, h)
    ensures Placed(v1, lists[i := [h] + lists[i]], {})
  {
    var lists1 := lists[i := [h] + lists[i]];
    forall g | FreeHead(v1, g) ensures Len(v1[g].hdr) >= 0 && g in lists1[HblkFlFromBlocks(Len(v1[g].hdr))] {
      assert FreeHead(v, g);
    }
    forall k, g | 0 <= k < N_LISTS && g in lists1[k]
      ensures FreeHead(v1, g) && Len(v1[g].hdr) >= 0 && HblkFlFromBlocks(Len(v1[g].hdr)) == k
    {
      assert g != h ==> g in lists[k] && FreeHead(v, g);
    }
  }

  lemma RemovedKeys(v: View, v1: View, h: int, end: int)
    requires CountsRemoved(v, v1, h, end)
    requires forall b | b in v :: v[b] != Nil
    requires forall b | b in v1 :: v1[b] != Nil
    ensures v1.Keys == v.Keys - Interval(h + 1, end)
    ensures forall b | b in v1 :: b in v && v1[b] == v[b]
  {
    forall b ensures b in v1 <==> b in v && !(h < b < end) {
      assert At(v1, b) == if h < b < end then Nil else At(v, b);
    }
    forall b | b in v1 ensures b in v && v1[b] == v[b] {
      assert At(v1, b) == if h < b < end then Nil else At(v, b);
    }
  }

  lemma PlacedAfterFree(v: View, owner: map<int, int>, lists: seq<seq<int>>, h: int, v1: View)
    requires TiledBut(v, owner, h) && Freed(v, h, v1) && |lists| == N_LISTS
    requires Placed(v, lists, {}) && UnlistedIn(lists, h)
    ensures Placed(v1, lists, {h})
  {
    forall i, x | 0 <= i < N_LISTS && x in lists[i]
      ensures FreeHead(v1, x) && Len(v1[x].hdr) >= 0 && HblkFlFromBlocks(Len(v1[x].hdr)) == i
    {
      assert FreeHead(v, x);
      HeadOwnsItself(v, owner, h, x);
      assert Extent(v, owner, h);
    }
    forall x | FreeHead(v1, x) && x != h ensures Len(v1[x].hdr) >= 0 && x in lists[HblkFlFromBlocks(Len(v1[x].hdr))] {
      assert FreeHead(v, x);
    }
  }

  lemma NoAdjacentAfterFree(v: View, h: int, v1: View)
    requires Freed(v, h, v1) && NoAdjacent(v)
    ensures NoAdjacentBut(v1, h)
  {
    forall g {:trigger GapAfter(v1, g)} | FreeHead(v1, g) && g != h && g + Len(v1[g].hdr) != h
      ensures GapAfter(v1, g)
    {
      assert FreeHead(v, g) && GapAfter(v, g);
    }
  }

  /** Block h is marked free and gets size sz. */
  function Resized(v: View, h: int, sz: int): View
    requires IsHead(v, h)
  {
    v[h := Header(v[h].hdr.(sz := sz, free := true))]
  }

  /** part was taken out of whole, and rest is left; said element by element, to unfold only where it is asked for. */
  ghost predicate Taken(whole: set<int>, part: set<int>, rest: set<int>) {
    forall b {:trigger TakenAt(whole, part, rest, b)} :: TakenAt(whole, part, rest, b)
  }

  ghost predicate TakenAt(whole: set<int>, part: set<int>, rest: set<int>, b: int) {
    (b in rest <==> b in whole && b !in part) && (b in part ==> b in whole)
  }

  lemma TakenIs(whole: set<int>, part: set<int>, rest: set<int>)
    ensures Taken(whole, part, rest) == true <==> rest == whole - part && part <= whole
  {
    if Taken(whole, part, rest) {
      forall b ensures (b in rest <==> b in whole - part) && (b in part ==> b in whole) {
        assert TakenAt(whole, part, rest, b);
      }
    }
  }

  /** Freeing the used block h, whose counts were removed in v1, gives a loose block. */
  lemma Release(v: View, owner: map<int, int>, fl: seq<int>, fb: seq<int>, lists: seq<seq<int>>, h: int, v1: View)
    requires Sound(v, owner, fl, fb, lists, h) == true && IsUsed(v, h)
    requires CountsRemoved(v, v1, h, h + Len(v[h].hdr)) == true && forall b | b in v1 :: v1[b] != Nil
    ensures IsHead(v1, h) && v1[h] == v[h]
    ensures var v2 := Resized(v1, h, HBLKSIZE * Len(v[h].hdr));
      && Loose(v2, owner, lists, h) == true && ListsOk(v2, fl, fb, lists) == true && Released(v, v2, h) == true
      && Taken(FreeSet(v2, owner), Interval(h, h + Len(v[h].hdr)), FreeSet(v, owner)) == true
      && |FreeSet(v2, owner)| == |FreeSet(v, owner)| + Len(v[h].hdr)
      && Len(v2[h].hdr) == Len(v[h].hdr)
  {
    ReleaseFreed(v, owner, h, v1);
    var v2 := Resized(v1, h, HBLKSIZE * Len(v[h].hdr));
    ReleaseLists(v, owner, fl, fb, lists, h, v2);
    TiledFree(v, owner, h, v2);
    NoAdjacentAfterFree(v, h, v2);
    FreeGrows(v, owner, h);
    UsedNotFree(v, owner, h);
    TakenIs(FreeSet(v2, owner), Interval(h, h + Len(v[h].hdr)), FreeSet(v, owner));
    FreedReleased(v, h, v2);
  }

  lemma ReleaseFreed(v: View, owner: map<int, int>, h: int, v1: View)
    requires TiledBut(v, owner, h) && IsUsed(v, h)
    requires CountsRemoved(v, v1, h, h + Len(v[h].hdr)) && forall b | b in v1 :: v1[b] != Nil
    ensures IsHead(v1, h) && v1[h] == v[h]
    ensures Freed(v, h, Resized(v1, h, HBLKSIZE * Len(v[h].hdr))) == true
  {
    assert At(v1, h) == At(v, h);
    forall b | b in v ensures v[b] != Nil {
      assert Owned(v, owner, b);
    }
    RemovedKeys(v, v1, h, h + Len(v[h].hdr));
  }

  lemma ReleaseLists(v: View, owner: map<int, int>, fl: seq<int>, fb: seq<int>, lists: seq<seq<int>>, h: int,
                     v2: View)
    requires Sound(v, owner, fl, fb, lists, h) && Freed(v, h, v2)
    ensures ListsOk(v2, fl, fb, lists) == true && UnlistedIn(lists, h) == true && Placed(v2, lists, {h}) == true
  {
    forall i, x | 0 <= i < N_LISTS && x in lists[i] ensures x in v && x in v2 && v2[x] == v[x] {
      assert FreeHead(v, x);
      HeadOwnsItself(v, owner, h, x);
      assert Extent(v, owner, h);
    }
    ListsFrame(v, v2, fl, fb, lists);
    forall i | 0 <= i < |lists| ensures h !in lists[i] {
      assert h in lists[i] ==> FreeHead(v, h);
    }
    PlacedAfterFree(v, owner, lists, h, v2);
  }

  /** Merging two unlisted blocks leaves the lists alone. */
  lemma AbsorbKeepsLists(v: View, fl: seq<int>, fb: seq<int>, lists: seq<seq<int>>, a: int)
    requires ListsOk(v, fl, fb, lists) && FreeHead(v, a) && FreeHead(v, a + Len(v[a].hdr))
    requires UnlistedIn(lists, a) && UnlistedIn(lists, a + Len(v[a].hdr))
    ensures ListsOk(Absorb(v, a), fl, fb, lists)
  {
    forall i, x | 0 <= i < N_LISTS && x in lists[i] ensures x in v && x in Absorb(v, a) && Absorb(v, a)[x] == v[x] {
      assert OneListOk(v, fl[i], fb[i], lists[i]);
    }
    ListsFrame(v, Absorb(v, a), fl, fb, lists);
  }

  /** The same free blocks of the same sizes below h. */
  ghost predicate SameBelow(v: View, v1: View, h: int) {
    forall g | g < h :: FreeHead(v1, g) == FreeHead(v, g) && (FreeHead(v, g) ==> v1[g].hdr.sz == v[g].hdr.sz)
  }

  lemma AbsorbSameBelow(v: View, v1: View, h: int)
    requires SameShape(v, v1) && FreeHead(v1, h) && FreeHead(v1, h + Len(v1[h].hdr)) && Len(v1[h].hdr) >= 0
    ensures SameBelow(v, Absorb(v1, h), h)
  {
  }

  /** No free block straddles the start of block h. */
  lemma NoStraddle(v: View, owner: map<int, int>, h: int)
    requires Tiled(v, owner) && IsHead(v, h)
    ensures h >= 1 && forall p | IsHead(v, p) && v[p].hdr.free :: !(p < h < p + Len(v[p].hdr))
  {
    HeadOwnsItself(v, owner, 0, h);
    forall p | IsHead(v, p) && v[p].hdr.free ensures !(p < h < p + Len(v[p].hdr)) {
      assert Extent(v, owner, p);
    }
  }

  lemma GapStays(v: View, v1: View, owner1: map<int, int>, h: int)
    requires GapBefore(v, h) && SameBelow(v, v1, h) && Tiled(v1, owner1)
    ensures GapBefore(v1, h)
  {
    forall g | FreeHead(v1, g) ensures g + Len(v1[g].hdr) != h {
      HeadOwnsItself(v1, owner1, 0, g);
      assert g < h ==> FreeHead(v, g);
    }
  }

  /** The blocks in use are those of v without h, with the same headers. */
  ghost predicate Released(v: View, v1: View, h: int) {
    forall g :: IsUsed(v1, g) == (IsUsed(v, g) && g != h) && (IsUsed(v1, g) ==> v1[g] == v[g])
  }

  lemma FreedReleased(v: View, h: int, v1: View)
    requires Freed(v, h, v1)
    requires forall b | IsUsed(v, b) && b != h :: b !in Interval(h + 1, h + Len(v[h].hdr))
    ensures Released(v, v1, h)
  {
  }

  lemma ReleasedChain(v: View, v1: View, v2: View, h: int)
    requires Released(v, v1, h) && SameUsed(v1, v2)
    ensures Released(v, v2, h)
  {
  }

  // ------------------------------------------------------------------------------------ growing the heap

  /** A new section of the heap: block numbers p up to end, outside the heap so far, form one used block. */
  ghost function AddedOwner(owner: map<int, int>, p: int, end: int): map<int, int> {
    map k | k in owner.Keys + Interval(p, end) :: if p <= k < end then p else owner[k]
  }

  lemma AddedTiled(v: View, owner: map<int, int>, p: int, end: int, hdr: Hdr)
    requires Tiled(v, owner) && 0 < p < end && owner.Keys !! Interval(p, end)
    requires !hdr.free && hdr.sz > 0 && p + Len(hdr) == end
    ensures p !in v
    ensures var v1, owner1 := v[p := Header(hdr)], AddedOwner(owner, p, end);
      TiledBut(v1, owner1, p) == true && FreeSet(v1, owner1) == FreeSet(v, owner)
  {
    var v1, owner1 := v[p := Header(hdr)], AddedOwner(owner, p, end);
    NothingInGap(v, owner, p, end);
    forall b {:trigger Covers(v1, owner1, p, b)} {:trigger FreeAt(v1, owner1, b)} | b in owner1
      ensures Covers(v1, owner1, p, b)
      ensures FreeAt(v1, owner1, b) <==> FreeAt(v, owner, b)
    {
      AddedCovers(v, owner, p, end, hdr, b);
    }
    forall h {:trigger Extent(v1, owner1, h)} | IsHead(v1, h) ensures Extent(v1, owner1, h) {
      AddedExtent(v, owner, p, end, hdr, h);
    }
    AddedOwned(v, owner, p, end, hdr);
  }

  lemma NothingInGap(v: View, owner: map<int, int>, p: int, end: int)
    requires Tiled(v, owner) == true && owner.Keys !! Interval(p, end)
    ensures forall b {:trigger b in v} {:trigger b in owner} | p <= b < end :: b !in v && b !in owner
  {
    forall b {:trigger b in v} {:trigger b in owner} | p <= b < end ensures b !in v && b !in owner {
      assert b in Interval(p, end);
      assert b in v ==> Owned(v, owner, b);
    }
  }

  lemma AddedCovers(v: View, owner: map<int, int>, p: int, end: int, hdr: Hdr, b: int)
    requires Tiled(v, owner) == true && 0 < p < end && owner.Keys !! Interval(p, end)
    requires !hdr.free && hdr.sz > 0 && p + Len(hdr) == end && b in AddedOwner(owner, p, end)
    ensures var v1, owner1 := v[p := Header(hdr)], AddedOwner(owner, p, end);
      Covers(v1, owner1, p, b) && (FreeAt(v1, owner1, b) <==> FreeAt(v, owner, b))
  {
    NothingInGap(v, owner, p, end);
    if b in owner {
      assert Covers(v, owner, 0, b);
      assert !(p <= b < end);
    }
  }

  lemma AddedExtent(v: View, owner: map<int, int>, p: int, end: int, hdr: Hdr, h: int)
    requires Tiled(v, owner) == true && 0 < p < end && owner.Keys !! Interval(p, end)
    requires !hdr.free && hdr.sz > 0 && p + Len(hdr) == end && IsHead(v[p := Header(hdr)], h)
    ensures Extent(v[p := Header(hdr)], AddedOwner(owner, p, end), h) == true
  {
    if h != p {
      assert Extent(v, owner, h);
      forall k | k in owner ensures k in AddedOwner(owner, p, end) && AddedOwner(owner, p, end)[k] == owner[k] {
        assert k !in Interval(p, end);
      }
      ExtentKept(v, owner, v[p := Header(hdr)], AddedOwner(owner, p, end), h);
    }
  }

  lemma ExtentKept(v: View, owner: map<int, int>, v1: View, owner1: map<int, int>, h: int)
    requires IsHead(v, h) && Extent(v, owner, h) && IsHead(v1, h) && v1[h] == v[h]
    requires forall k | k in owner :: k in owner1 && owner1[k] == owner[k]
    ensures Extent(v1, owner1, h) == true
  {
  }

  lemma AddedOwned(v: View, owner: map<int, int>, p: int, end: int, hdr: Hdr)
    requires Tiled(v, owner) && 0 < p < end
    ensures forall b {:trigger Owned(v[p := Header(hdr)], AddedOwner(owner, p, end), b)} | b in v[p := Header(hdr)] ::
      Owned(v[p := Header(hdr)], AddedOwner(owner, p, end), b)
  {
    var v1, owner1 := v[p := Header(hdr)], AddedOwner(owner, p, end);
    forall b {:trigger Owned(v1, owner1, b)} | b in v1 ensures Owned(v1, owner1, b) {
      assert b in v ==> Owned(v, owner, b);
    }
  }

  lemma AddedSection(v: View, owner: map<int, int>, fl: seq<int>, fb: seq<int>, lists: seq<seq<int>>,
                     p: int, end: int, hdr: Hdr)
    requires Sound(v, owner, fl, fb, lists, 0) == true && 0 < p < end && owner.Keys !! Interval(p, end)
    requires !hdr.free && hdr.sz > 0 && p + Len(hdr) == end
    ensures var v1, owner1 := v[p := Header(hdr)], AddedOwner(owner, p, end);
      && Sound(v1, owner1, fl, fb, lists, p) == true && FreeSet(v1, owner1) == FreeSet(v, owner)
      && IsUsed(v1, p) && |owner1.Keys| == |owner.Keys| + (end - p)
      && Granted(v, v1, p) == true && p !in v
  {
    var v1 := v[p := Header(hdr)];
    AddedTiled(v, owner, p, end, hdr);
    InstallUnlisted(v, fl, fb, lists, p, Nil, Header(hdr));
    AddedPlaced(v, lists, p, hdr);
    SoundFrom(v1, AddedOwner(owner, p, end), fl, fb, lists, p);
    assert AddedOwner(owner, p, end).Keys == owner.Keys + Interval(p, end);
  }

  lemma SoundFrom(v: View, owner: map<int, int>, fl: seq<int>, fb: seq<int>, lists: seq<seq<int>>, x: int)
    requires TiledBut(v, owner, x) == true && |lists| == N_LISTS && Placed(v, lists, {}) == true
    requires NoAdjacent(v) == true && ListsOk(v, fl, fb, lists) == true
    ensures Sound(v, owner, fl, fb, lists, x) == true
  {
  }

  lemma AddedPlaced(v: View, lists: seq<seq<int>>, p: int, hdr: Hdr)
    requires |lists| == N_LISTS && Placed(v, lists, {}) && NoAdjacent(v) && p !in v && !hdr.free
    ensures Placed(v[p := Header(hdr)], lists, {}) == true && NoAdjacent(v[p := Header(hdr)]) == true
    ensures Granted(v, v[p := Header(hdr)], p) == true
  {
    var v1 := v[p := Header(hdr)];
    forall g {:trigger FreeHead(v1, g)} ensures FreeHead(v1, g) == FreeHead(v, g) {
    }
    forall i, g {:trigger g in lists[i]} | 0 <= i < N_LISTS && g in lists[i]
      ensures FreeHead(v1, g) && Len(v1[g].hdr) >= 0 && HblkFlFromBlocks(Len(v1[g].hdr)) == i
    {
      assert FreeHead(v, g);
    }
    forall g {:trigger GapAfter(v1, g)} | FreeHead(v1, g) ensures GapAfter(v1, g) {
      assert FreeHead(v, g) && GapAfter(v, g);
    }
  }

  /** The used blocks of v1 are those of v and h, which was not in use. */
  ghost predicate Granted(v: View, v1: View, h: int) {
    && !IsUsed(v, h) && IsUsed(v1, h)
    && forall g :: g != h ==> IsUsed(v1, g) == IsUsed(v, g) && (IsUsed(v, g) ==> v1[g] == v[g])
  }

  lemma GrantedReleased(v: View, v1: View, h: int, v2: View)
    requires Granted(v, v1, h) == true && Released(v1, v2, h) == true
    ensures SameUsed(v, v2) == true
  {
  }

  /** Fields of a used header other than the size do not matter to the invariant. */
  lemma UsedHdrChange(v: View, owner: map<int, int>, fl: seq<int>, fb: seq<int>, lists: seq<seq<int>>, h: int, hdr: Hdr)
    requires Sound(v, owner, fl, fb, lists, 0) && IsUsed(v, h) && !hdr.free && hdr.sz == v[h].hdr.sz
    ensures var v1 := v[h := Header(hdr)];
      Sound(v1, owner, fl, fb, lists, 0) == true && FreeSet(v1, owner) == FreeSet(v, owner)
  {
    var v1 := v[h := Header(hdr)];
    SameShapeTiled(v, v1, owner, 0);
    forall i, x | 0 <= i < N_LISTS && x in lists[i] ensures x in v && x in v1 && v1[x] == v[x] {
      assert FreeHead(v, x);
    }
    ListsFrame(v, v1, fl, fb, lists);
    UsedHdrPlaced(v, lists, h, hdr);
    SoundFrom(v1, owner, fl, fb, lists, 0);
  }

  lemma UsedHdrPlaced(v: View, lists: seq<seq<int>>, h: int, hdr: Hdr)
    requires |lists| == N_LISTS && Placed(v, lists, {}) && NoAdjacent(v) && IsUsed(v, h) && !hdr.free
    ensures Placed(v[h := Header(hdr)], lists, {}) == true && NoAdjacent(v[h := Header(hdr)]) == true
  {
    var v1 := v[h := Header(hdr)];
    forall g {:trigger FreeHead(v1, g)} ensures FreeHead(v1, g) == FreeHead(v, g) {
    }
    forall i, g {:trigger g in lists[i]} | 0 <= i < N_LISTS && g in lists[i]
      ensures FreeHead(v1, g) && Len(v1[g].hdr) >= 0 && HblkFlFromBlocks(Len(v1[g].hdr)) == i
    {
      assert FreeHead(v, g);
    }
    forall g {:trigger GapAfter(v1, g)} | FreeHead(v1, g) ensures GapAfter(v1, g) {
      assert FreeHead(v, g) && GapAfter(v, g);
    }
  }

  lemma SoundBut(v: View, owner: map<int, int>, fl: seq<int>, fb: seq<int>, lists: seq<seq<int>>, x: int)
    requires Sound(v, owner, fl, fb, lists, 0)
    ensures Sound(v, owner, fl, fb, lists, x) == true
  {
    forall b {:trigger Covers(v, owner, x, b)} | b in owner ensures Covers(v, owner, x, b) {
      assert Covers(v, owner, 0, b);
    }
  }
}
