/**
 The block-level part of sweeping (reclaim.c, headers.c): walk over all blocks in use, free those without marks and
 queue those worth a sweep, although freeing merges blocks and erases the index entries the walk reads.
 */
module BlockSweep {
  import opened Sizes
  import opened Collections
  import opened HeaderIndex
  import opened HeapShape
  import opened BlockAllocator

  /** Reclaim lists are kept by object kind and size in granules. */
  type Key = (int, int)

  function KeyOf(h: Hdr): Key {
    (h.kind, h.sz / GRANULE_BYTES)
  }

  predicate Large(h: Hdr) {
    h.sz > MAXOBJBYTES
  }

  /** Nothing in the block is marked. */
  predicate Dead(h: Hdr) {
    if Large(h) then !h.mark0 else h.nMarks == 0
  }

  predicate NearlyFull(h: Hdr)
    requires h.sz > 0
  {
    MostlyMarked(h.nMarks, HBLKSIZE / h.sz)
  }

  /** The block is put on a reclaim list. */
  predicate Queued(h: Hdr, findLeak: bool)
    requires h.sz > 0
  {
    !Large(h) && !Dead(h) && (findLeak || !NearlyFull(h))
  }

  /** The place of a block number in the walk: bottom indices upwards, slots within one downwards. */
  predicate Before(b: int, p: int, j: int) {
    b / BOTTOM_SZ < p || (b / BOTTOM_SZ == p && b % BOTTOM_SZ > j)
  }

  /** Headers that differ at most in the link. */
  predicate SameButNext(a: Hdr, b: Hdr) {
    b == a.(next := b.next)
  }

  /** The visited blocks are the blocks used at the start (in v0) that come before place j of bottom index p; the
      dead ones among them are gone, all others are in use as they were. */
  ghost predicate Walked(v0: View, v: View, seen: seq<int>, p: int, j: int) {
    && NoDup(seen)
    && (forall b {:trigger b in seen} :: b in seen <==> IsUsed(v0, b) && Before(b, p, j))
    && (forall b {:trigger IsUsed(v, b)} :: IsUsed(v, b) <==> IsUsed(v0, b) && !(b in seen && Dead(v0[b].hdr)))
    && (forall b {:trigger v[b]} | IsUsed(v, b) ::
          IsUsed(v0, b) && if b in seen then SameButNext(v0[b].hdr, v[b].hdr) else v[b] == v0[b])
  }

  /** s is the list that starts at head and goes on through the links of used blocks. */
  ghost predicate Chain(v: View, head: int, s: seq<int>) {
    && head == Link(s, 0)
    && NoDup(s)
    && forall k {:trigger ChainAt(v, s, k)} | 0 <= k < |s| :: ChainAt(v, s, k)
  }

  predicate ChainAt(v: View, s: seq<int>, k: int)
    requires 0 <= k < |s|
  {
    IsUsed(v, s[k]) && s[k] != 0 && v[s[k]].hdr.next == Link(s, k + 1)
  }

  /** Block b, visited, is worth a sweep. */
  predicate Wanted(v0: View, b: int, findLeak: bool) {
    IsUsed(v0, b) && v0[b].hdr.sz > 0 && Queued(v0[b].hdr, findLeak)
  }

  /** The queues hold exactly the visited blocks worth a sweep, each on the list for its kind and size. */
  ghost predicate Queues(v0: View, v: View, seen: seq<int>, rl: map<Key, int>, pend: map<Key, seq<int>>, findLeak: bool) {
    && rl.Keys == pend.Keys
    && (forall k {:trigger Chain(v, rl[k], pend[k])} | k in pend :: Chain(v, rl[k], pend[k]))
    && (forall k, b {:trigger b in pend[k]} | k in pend && b in pend[k] ::
          b in seen && Wanted(v0, b, findLeak) && k == KeyOf(v0[b].hdr))
    && (forall b {:trigger Wanted(v0, b, findLeak)} | b in seen && Wanted(v0, b, findLeak) ::
          KeyOf(v0[b].hdr) in pend && b in pend[KeyOf(v0[b].hdr)])
  }

  /** What GC_reclaim_block does to the headers of used blocks. */
  ghost predicate Visited(v: View, v1: View, b: int) {
    && IsUsed(v, b)
    && if Dead(v[b].hdr) then Released(v, v1, b)
       else forall g {:trigger IsUsed(v1, g)} :: IsUsed(v1, g) == IsUsed(v, g) &&
              (IsUsed(v, g) ==> if g == b then SameButNext(v[b].hdr, v1[b].hdr) else v1[g] == v[g])
  }

  /** Only the link of the block was changed, if that. */
  lemma LinkChanged(v: View, h: int, hdr: Hdr)
    requires IsUsed(v, h) && !Dead(v[h].hdr) && SameButNext(v[h].hdr, hdr)
    ensures Visited(v, v[h := Header(hdr)], h) == true && (hdr == v[h].hdr ==> v[h := Header(hdr)] == v)
  {
    if hdr == v[h].hdr {
      assert v[h] == Header(hdr);
    }
  }

  /** Passing slots in which no used block starts. */
  lemma WalkOver(v0: View, v: View, seen: seq<int>, p: int, j: int, j2: int)
    requires Walked(v0, v, seen, p, j) && j2 <= j
    requires forall b | b / BOTTOM_SZ == p && j2 < b % BOTTOM_SZ <= j :: !IsUsed(v, b)
    ensures Walked(v0, v, seen, p, j2) == true
  {
    forall b {:trigger b in seen} ensures b in seen <==> IsUsed(v0, b) && Before(b, p, j2) {
      assert IsUsed(v, b) <==> IsUsed(v0, b) && !(b in seen && Dead(v0[b].hdr));
    }
  }

  lemma WalkHere(v0: View, v: View, seen: seq<int>, p: int, j: int, b: int)
    requires Walked(v0, v, seen, p, j) && b == p * BOTTOM_SZ + j && 0 <= j < BOTTOM_SZ && IsUsed(v, b)
    ensures b !in seen && IsUsed(v0, b) && v[b] == v0[b]
    ensures forall x | x in seen && IsUsed(v0, x) && !Dead(v0[x].hdr) :: IsUsed(v, x)
  {
    assert !Before(b, p, j);
    assert b in seen <==> IsUsed(v0, b) && Before(b, p, j);
  }

  /** What the slot of block b says about the slots before it. */
  lemma SlotFacts(v: View, owner: map<int, int>, b: int)
    requires Tiled(v, owner)
    ensures At(v, b).Count? ==> At(v, b).n >= 1 && forall k | b - At(v, b).n < k <= b :: !IsUsed(v, k)
  {
    TiledLeads(v, owner);
    if At(v, b).Count? {
      assert CountLeads(v, b, v[b].n);
    }
  }

  /** Visiting the used block b in slot j of bottom index p. */
  lemma WalkVisit(v0: View, v: View, seen: seq<int>, p: int, j: int, b: int, v1: View)
    requires Walked(v0, v, seen, p, j) && b == p * BOTTOM_SZ + j && 0 <= j < BOTTOM_SZ && Visited(v, v1, b)
    ensures b !in seen && IsUsed(v0, b) && v[b] == v0[b]
    ensures Walked(v0, v1, seen + [b], p, j - 1) == true
  {
    assert !Before(b, p, j);
    assert IsUsed(v, b) && IsUsed(v0, b) && v[b] == v0[b];
    var seen1 := seen + [b];
    forall g {:trigger g in seen1} ensures g in seen1 <==> IsUsed(v0, g) && Before(g, p, j - 1) {
      assert g in seen <==> IsUsed(v0, g) && Before(g, p, j);
      assert Before(g, p, j - 1) <==> Before(g, p, j) || g == b;
    }
    forall g {:trigger IsUsed(v1, g)} ensures IsUsed(v1, g) <==> IsUsed(v0, g) && !(g in seen1 && Dead(v0[g].hdr)) {
      assert IsUsed(v, g) <==> IsUsed(v0, g) && !(g in seen && Dead(v0[g].hdr));
    }
    forall g {:trigger v1[g]} | IsUsed(v1, g)
      ensures IsUsed(v0, g) && if g in seen1 then SameButNext(v0[g].hdr, v1[g].hdr) else v1[g] == v0[g]
    {
      assert IsUsed(v, g) && IsUsed(v0, g);
    }
  }

  /** Going on from the low end of bottom index p to the high end of the next one, q. */
  lemma WalkOn(v0: View, v: View, seen: seq<int>, p: int, j: int, q: int)
    requires Walked(v0, v, seen, p, j) && j < 0 && p < q
    requires forall b | (p + 1) * BOTTOM_SZ <= b < q * BOTTOM_SZ :: b !in v
    ensures Walked(v0, v, seen, q, BOTTOM_SZ - 1) == true
  {
    forall b {:trigger b in seen} ensures b in seen <==> IsUsed(v0, b) && Before(b, q, BOTTOM_SZ - 1) {
      assert b in seen <==> IsUsed(v0, b) && Before(b, p, j);
      assert IsUsed(v, b) <==> IsUsed(v0, b) && !(b in seen && Dead(v0[b].hdr));
    }
  }

  /** The walk is over when there are no slots beyond bottom index p. */
  lemma WalkEnds(v0: View, v: View, seen: seq<int>, p: int, j: int)
    requires Walked(v0, v, seen, p, j) && j < 0
    requires forall b | (p + 1) * BOTTOM_SZ <= b :: b !in v
    ensures Swept(v0, v, seen)
  {
    forall b {:trigger b in seen} ensures b in seen <==> IsUsed(v0, b) {
      assert b in seen <==> IsUsed(v0, b) && Before(b, p, j);
      assert IsUsed(v, b) <==> IsUsed(v0, b) && !(b in seen && Dead(v0[b].hdr));
    }
  }

  /** After the walk: every block in use at the start was visited exactly once, and nothing else was; the dead ones
      are gone and the others still in use, with the headers they had up to the link. */
  ghost predicate Swept(v0: View, v: View, seen: seq<int>) {
    && NoDup(seen)
    && (forall b {:trigger b in seen} :: b in seen <==> IsUsed(v0, b))
    && (forall b {:trigger IsUsed(v, b)} :: IsUsed(v, b) <==> IsUsed(v0, b) && !Dead(v0[b].hdr))
    && (forall b {:trigger v[b]} | IsUsed(v, b) :: IsUsed(v0, b) && SameButNext(v0[b].hdr, v[b].hdr))
  }

  /** A queue is unaffected by changes to other blocks. */
  lemma ChainFrame(v: View, v1: View, head: int, s: seq<int>)
    requires Chain(v, head, s)
    requires forall x | x in s :: x in v && IsUsed(v1, x) && v1[x] == v[x]
    ensures Chain(v1, head, s)
  {
    forall k {:trigger ChainAt(v1, s, k)} | 0 <= k < |s| ensures ChainAt(v1, s, k) {
      assert ChainAt(v, s, k);
    }
  }

  lemma ChainUsed(v: View, head: int, s: seq<int>)
    requires Chain(v, head, s)
    ensures forall x | x in s :: IsUsed(v, x)
  {
    forall x | x in s ensures IsUsed(v, x) {
      var k :| 0 <= k < |s| && s[k] == x;
      assert ChainAt(v, s, k);
    }
  }

  /** Pushing block b on a queue. */
  lemma ChainPush(v: View, head: int, s: seq<int>, b: int)
    requires Chain(v, head, s) && IsUsed(v, b) && b != 0 && b !in s
    ensures Chain(v[b := Header(v[b].hdr.(next := head))], b, [b] + s)
  {
    var v1, s1 := v[b := Header(v[b].hdr.(next := head))], [b] + s;
    forall k {:trigger ChainAt(v1, s1, k)} | 0 <= k < |s1| ensures ChainAt(v1, s1, k) {
      if k > 0 {
        assert ChainAt(v, s, k - 1);
      }
    }
  }

  /** Visiting a block that is not queued. */
  lemma QueuesSkip(v0: View, v: View, seen: seq<int>, rl: map<Key, int>, pend: map<Key, seq<int>>, findLeak: bool,
                   b: int, v1: View)
    requires Queues(v0, v, seen, rl, pend, findLeak) && b !in seen && !Wanted(v0, b, findLeak)
    requires forall x | x in seen && Wanted(v0, x, findLeak) :: IsUsed(v, x) && IsUsed(v1, x) && v1[x] == v[x]
    ensures Queues(v0, v1, seen + [b], rl, pend, findLeak) == true
  {
    forall k {:trigger Chain(v1, rl[k], pend[k])} | k in pend ensures Chain(v1, rl[k], pend[k]) {
      assert Chain(v, rl[k], pend[k]);
      forall x | x in pend[k] ensures x in v && IsUsed(v1, x) && v1[x] == v[x] {
        assert x in seen && Wanted(v0, x, findLeak);
      }
      ChainFrame(v, v1, rl[k], pend[k]);
    }
  }

  /** The head of the queue for key k. */
  function HeadOf(rl: map<Key, int>, k: Key): int {
    if k in rl then rl[k] else 0
  }

  function QueueOf(pend: map<Key, seq<int>>, k: Key): seq<int> {
    if k in pend then pend[k] else []
  }

  /** Visiting a block that is queued. */
  lemma QueuesPush(v0: View, v: View, seen: seq<int>, rl: map<Key, int>, pend: map<Key, seq<int>>, findLeak: bool, b: int)
    requires Queues(v0, v, seen, rl, pend, findLeak) && b !in seen && Wanted(v0, b, findLeak) && IsUsed(v, b) && b != 0
    ensures var k := KeyOf(v0[b].hdr);
      Queues(v0, v[b := Header(v[b].hdr.(next := HeadOf(rl, k)))], seen + [b], rl[k := b],
             pend[k := [b] + QueueOf(pend, k)], findLeak) == true
  {
    var k := KeyOf(v0[b].hdr);
    var v1 := v[b := Header(v[b].hdr.(next := HeadOf(rl, k)))];
    var rl1, pend1 := rl[k := b], pend[k := [b] + QueueOf(pend, k)];
    forall c {:trigger Chain(v1, rl1[c], pend1[c])} | c in pend1 ensures Chain(v1, rl1[c], pend1[c]) {
      if c in pend {
        assert Chain(v, rl[c], pend[c]);
      }
      if c == k {
        assert Chain(v, HeadOf(rl, k), QueueOf(pend, k));
        ChainPush(v, HeadOf(rl, k), QueueOf(pend, k), b);
      } else {
        ChainUsed(v, rl[c], pend[c]);
        forall x | x in pend[c] ensures x in v && IsUsed(v1, x) && v1[x] == v[x] {
          assert x in seen;
        }
        ChainFrame(v, v1, rl[c], pend[c]);
      }
    }
    forall c, x {:trigger x in pend1[c]} | c in pend1 && x in pend1[c]
      ensures x in seen + [b] && Wanted(v0, x, findLeak) && c == KeyOf(v0[x].hdr)
    {
      assert c != k ==> c in pend && pend1[c] == pend[c];
      assert c == k && x != b ==> x in QueueOf(pend, k);
    }
  }

  class Sweeper {
    const heap: Heap
    /** ok_reclaim_list of all kinds. */
    var rl: map<Key, int>
    /** GC_bytes_found and GC_large_allocd_bytes. */
    var bytesFound: int
    var largeAllocd: int
    /** The queues behind rl. */
    ghost var pend: map<Key, seq<int>>

    constructor (heap: Heap)
      ensures this.heap == heap && rl == map[] && pend == map[]
    {
      this.heap := heap;
      rl, pend, bytesFound, largeAllocd := map[], map[], 0, 0;
    }

    /** GC_freehblk on a block whose objects are all unmarked. */
    method FreeDead(h: int)
      requires heap.Consistent() == true && IsUsed(heap.index.view, h) && Dead(heap.index.view[h].hdr)
      modifies heap`lists, heap`owner, heap`largeFree, heap.index, heap.fl, heap.fb
      ensures heap.Consistent() == true && heap.owner.Keys == old(heap.owner.Keys)
      ensures heap.index.order == old(heap.index.order)
      ensures Visited(old(heap.index.view), heap.index.view, h) == true
    {
      heap.FreeUsed(h);
    }

    /** Push a block of small objects on its reclaim list. */
    method Enqueue(h: int, hhdr: Hdr)
      requires heap.Consistent() == true && IsUsed(heap.index.view, h) && hhdr == heap.index.view[h].hdr && !Dead(hhdr)
      modifies this`rl, this`pend, heap.index
      ensures heap.Consistent() == true && heap.index.order == old(heap.index.order)
      ensures heap.index.view == old(heap.index.view)[h := Header(hhdr.(next := HeadOf(old(rl), KeyOf(hhdr))))]
      ensures rl == old(rl)[KeyOf(hhdr) := h]
      ensures pend == old(pend)[KeyOf(hhdr) := [h] + QueueOf(old(pend), KeyOf(hhdr))]
    {
      var k := KeyOf(hhdr);
      heap.SetUsedNext(h, HeadOf(rl, k));
      rl := rl[k := h];
      pend := pend[k := [h] + QueueOf(pend, k)];
    }

    /** Keep the queues in step: the state of the queues after visiting h. */
    ghost predicate QueuesOk(v0: View, seen: seq<int>)
      reads this`rl, this`pend, heap`findLeak, heap.index
    {
      Queues(v0, heap.index.view, seen, rl, pend, heap.findLeak) == true
    }

    /** GC_reclaim_block, when leaks are not reported: free block h if nothing in it is marked, and else queue it
        if it holds small objects and is worth a sweep. */
    method ReclaimBlock(h: int, ghost v0: View, ghost seen: seq<int>)
      requires heap.Consistent() == true && IsUsed(heap.index.view, h)
      requires QueuesOk(v0, seen) == true && h !in seen
      requires IsUsed(v0, h) && heap.index.view[h] == v0[h]
      requires forall x | x in seen && IsUsed(v0, x) && !Dead(v0[x].hdr) :: IsUsed(heap.index.view, x)
      modifies this`rl, this`pend, this`bytesFound, this`largeAllocd
      modifies heap`lists, heap`owner, heap`largeFree, heap.index, heap.fl, heap.fb
      ensures heap.Consistent() == true && heap.owner.Keys == old(heap.owner.Keys)
      ensures heap.index.order == old(heap.index.order)
      ensures Visited(old(heap.index.view), heap.index.view, h) == true
      ensures QueuesOk(v0, seen + [h]) == true
    {
      ghost var v := heap.index.view;
      HeadOwnsItself(v, heap.owner, 0, h);
      assert Extent(v, heap.owner, h);
      var hhdr := heap.index.Hdr(h).hdr;
      if hhdr.sz > MAXOBJBYTES {
        if !hhdr.mark0 {
          var blocks := ObjSzToBlocks(hhdr.sz);
          if blocks > 1 {
            largeAllocd := largeAllocd - blocks * HBLKSIZE;
          }
          bytesFound := bytesFound + hhdr.sz;
          FreeDead(h);
        }
        QueuesSkip(v0, v, seen, rl, pend, heap.findLeak, h, heap.index.view);
      } else if hhdr.nMarks == 0 {
        bytesFound := bytesFound + HBLKSIZE;
        FreeDead(h);
        QueuesSkip(v0, v, seen, rl, pend, heap.findLeak, h, heap.index.view);
      } else if heap.findLeak || !NearlyFull(hhdr) {
        QueuesPush(v0, v, seen, rl, pend, heap.findLeak, h);
        LinkChanged(v, h, hhdr.(next := HeadOf(rl, KeyOf(hhdr))));
        Enqueue(h, hhdr);
      } else {
        LinkChanged(v, h, hhdr);
        QueuesSkip(v0, v, seen, rl, pend, heap.findLeak, h, heap.index.view);
      }
    }

    /** The state of the walk at slot j of bottom index p, the i-th. */
    ghost predicate Walking(v0: View, keys: set<int>, order: seq<int>, seen: seq<int>, p: int, i: int, j: int)
      reads this`rl, this`pend, heap`lists, heap`owner, heap`largeFree, heap`findLeak, heap.index, heap.fl, heap.fb
    {
      && heap.Consistent() == true && heap.owner.Keys == keys && heap.index.order == order
      && 0 <= i < |order| && p == order[i] && j < BOTTOM_SZ
      && Walked(v0, heap.index.view, seen, p, j) == true
      && QueuesOk(v0, seen) == true
    }

    /** Call the callback on the used block b in slot j of bottom index p. */
    method VisitUsed(b: int, p: int, j: int, ghost i: int, ghost v0: View, ghost keys: set<int>, ghost order: seq<int>,
                     ghost seen: seq<int>)
      returns (ghost seen': seq<int>)
      requires Walking(v0, keys, order, seen, p, i, j) == true && 0 <= j && b == p * BOTTOM_SZ + j
      requires IsUsed(heap.index.view, b)
      modifies this`rl, this`pend, this`bytesFound, this`largeAllocd
      modifies heap`lists, heap`owner, heap`largeFree, heap.index, heap.fl, heap.fb
      ensures Walking(v0, keys, order, seen', p, i, j - 1) == true && seen' == seen + [b]
    {
      ghost var v := heap.index.view;
      WalkHere(v0, v, seen, p, j, b);
      ReclaimBlock(b, v0, seen);
      WalkVisit(v0, v, seen, p, j, b, heap.index.view);
      seen' := seen + [b];
    }

    /** One round of the inner loop of GC_apply_to_all_blocks: slot j of bottom index p. */
    method VisitSlot(p: int, j: int, ghost i: int, ghost v0: View, ghost keys: set<int>, ghost order: seq<int>,
                     ghost seen: seq<int>)
      returns (j': int, ghost seen': seq<int>)
      requires Walking(v0, keys, order, seen, p, i, j) == true && j >= 0
      modifies this`rl, this`pend, this`bytesFound, this`largeAllocd
      modifies heap`lists, heap`owner, heap`largeFree, heap.index, heap.fl, heap.fb
      ensures Walking(v0, keys, order, seen', p, i, j') == true && j' < j
    {
      var b := p * BOTTOM_SZ + j;
      ghost var v := heap.index.view;
      SlotFacts(v, heap.owner, b);
      LinkAt(heap.index.bi, heap.index.order, heap.index.first, heap.index.last, i);
      match heap.index.bi[p].index[j]
      case Header(hhdr) =>
        if !hhdr.free {
          seen' := VisitUsed(b, p, j, i, v0, keys, order, seen);
        } else {
          WalkOver(v0, v, seen, p, j, j - 1);
          seen' := seen;
        }
        j' := j - 1;
      case Nil =>
        WalkOver(v0, v, seen, p, j, j - 1);
        j', seen' := j - 1, seen;
      case Count(n) =>
        WalkOver(v0, v, seen, p, j, j - n);
        j', seen' := j - n, seen;
    }

    /** The inner loop of GC_apply_to_all_blocks over bottom index p. */
    method WalkBottom(p: int, ghost i: int, ghost v0: View, ghost keys: set<int>, ghost order: seq<int>,
                      ghost seen: seq<int>)
      returns (ghost seen': seq<int>, ghost j': int)
      requires Walking(v0, keys, order, seen, p, i, BOTTOM_SZ - 1) == true
      modifies this`rl, this`pend, this`bytesFound, this`largeAllocd
      modifies heap`lists, heap`owner, heap`largeFree, heap.index, heap.fl, heap.fb
      ensures Walking(v0, keys, order, seen', p, i, j') == true && j' < 0
    {
      var j := BOTTOM_SZ - 1;
      seen' := seen;
      while j >= 0
        invariant Walking(v0, keys, order, seen', p, i, j) == true
        decreases j
      {
        j, seen' := VisitSlot(p, j, i, v0, keys, order, seen');
      }
      j' := j;
    }

    /** GC_apply_to_all_blocks(GC_reclaim_block): seen is the sequence of the blocks visited. */
    method ReclaimAllBlocks() returns (ghost seen: seq<int>)
      requires heap.Consistent() == true && QueuesOk(heap.index.view, []) == true
      modifies this`rl, this`pend, this`bytesFound, this`largeAllocd
      modifies heap`lists, heap`owner, heap`largeFree, heap.index, heap.fl, heap.fb
      ensures heap.Consistent() == true && heap.owner.Keys == old(heap.owner.Keys)
      ensures Swept(old(heap.index.view), heap.index.view, seen) == true
      ensures QueuesOk(old(heap.index.view), seen) == true
    {
      ghost var v0, keys, order := heap.index.view, heap.owner.Keys, heap.index.order;
      var p := heap.index.first;
      ghost var i, j := 0, BOTTOM_SZ - 1;
      seen := [];
      if p != NO_BI {
        WalkStarts();
      } else {
        NothingUsed();
      }
      while p != NO_BI
        invariant p != NO_BI ==> Walking(v0, keys, order, seen, p, i, BOTTOM_SZ - 1) == true
        invariant p == NO_BI ==> heap.Consistent() == true && heap.owner.Keys == keys && QueuesOk(v0, seen) == true
                                 && Swept(v0, heap.index.view, seen) == true
        decreases if p == NO_BI then 0 else |order| - i
      {
        seen, j := WalkBottom(p, i, v0, keys, order, seen);
        p, i := GoOn(p, i, j, v0, keys, order, seen);
      }
    }

    lemma WalkStarts()
      requires heap.Consistent() == true && QueuesOk(heap.index.view, []) == true && heap.index.first != NO_BI
      ensures Walking(heap.index.view, heap.owner.Keys, heap.index.order, [], heap.index.first, 0, BOTTOM_SZ - 1) == true
    {
      var index := heap.index;
      forall b | IsUsed(index.view, b) ensures !Before(b, index.first, BOTTOM_SZ - 1) {
        if b / BOTTOM_SZ < index.first {
          index.NoneBetween(b, -1, index.first);
        }
      }
    }

    lemma NothingUsed()
      requires heap.Consistent() == true && heap.index.first == NO_BI
      ensures Swept(heap.index.view, heap.index.view, []) == true
    {
      var index := heap.index;
      if index.order != [] {
        LinkAt(index.bi, index.order, index.first, index.last, 0);
      }
      forall b ensures b !in index.view {
        index.NoneBetween(b, -1, b / BOTTOM_SZ + 1);
      }
    }

    /** Follow the link to the next bottom index, or finish. */
    method GoOn(p: int, ghost i: int, ghost j: int, ghost v0: View, ghost keys: set<int>, ghost order: seq<int>,
                ghost seen: seq<int>)
      returns (q: int, ghost i': int)
      requires Walking(v0, keys, order, seen, p, i, j) == true && j < 0
      ensures q != NO_BI ==> Walking(v0, keys, order, seen, q, i', BOTTOM_SZ - 1) == true && i' == i + 1
      ensures q == NO_BI ==> Swept(v0, heap.index.view, seen) == true
    {
      q, i' := heap.index.NextBottom(p, i);
      if q != NO_BI {
        WalkOn(v0, heap.index.view, seen, p, j, q);
      } else {
        WalkEnds(v0, heap.index.view, seen, p, j);
      }
    }

    /** GC_start_reclaim, when leaks are not reported: empty the reclaim lists and go over all blocks. */
    method StartReclaim() returns (ghost seen: seq<int>)
      requires heap.Consistent() == true
      modifies this`rl, this`pend, this`bytesFound, this`largeAllocd
      modifies heap`lists, heap`owner, heap`largeFree, heap.index, heap.fl, heap.fb
      ensures heap.Consistent() == true && heap.owner.Keys == old(heap.owner.Keys)
      ensures Swept(old(heap.index.view), heap.index.view, seen) == true
      ensures QueuesOk(old(heap.index.view), seen) == true
    {
      rl, pend := map[], map[];
      assert QueuesOk(heap.index.view, []);
      seen := ReclaimAllBlocks();
    }
  }
}
