/**
 Lazy sweeping and the free lists of small objects (reclaim.c, malloc.c, new_hblk.c, alloc.c): blocks wait on reclaim
 lists until objects of their size are needed, while objects are allocated, freed and collected.
 */
module LazySweep {
  import opened Sizes
  import opened Collections

  const MAXOBJKINDS := 16

  /** Slot number slot of a block of small objects. */
  datatype Obj = Obj(block: int, slot: int)

  /** The header of a block of small objects; marks holds the slots whose mark bit is set. */
  datatype Blk = Blk(kind: int, gran: int, marks: set<int>, nMarks: int, lastReclaimed: int)

  /** Lists are kept by object kind and size in granules. */
  type Key = (int, int)

  function KeyOf(b: Blk): Key {
    (b.kind, b.gran)
  }

  predicate IsUncollectable(kind: int) {
    kind == UNCOLLECTABLE || kind == AUNCOLLECTABLE
  }

  function Bytes(gran: int): int {
    gran * GRANULE_BYTES
  }

  /** HBLK_OBJS, the number of objects in a block. */
  function Slots(gran: int): int
    requires gran > 0
  {
    HBLKSIZE / Bytes(gran)
  }

  /** lists and waiting are the free lists and reclaim lists, owned the objects that the client has, clean the
      objects that hold zeros behind the link word. */
  datatype Heap = Heap(blocks: map<int, Blk>, lists: map<Key, seq<Obj>>, waiting: map<Key, seq<int>>,
                       owned: set<Obj>, clean: set<Obj>)

  function FreeOf(h: Heap, k: Key): seq<Obj> {
    if k in h.lists then h.lists[k] else []
  }

  function WaitOf(h: Heap, k: Key): seq<int> {
    if k in h.waiting then h.waiting[k] else []
  }

  predicate IsObj(h: Heap, o: Obj) {
    o.block in h.blocks && h.blocks[o.block].gran > 0 && 0 <= o.slot < Slots(h.blocks[o.block].gran)
  }

  predicate Marked(h: Heap, o: Obj) {
    o.block in h.blocks && o.slot in h.blocks[o.block].marks
  }

  predicate OnFree(h: Heap, o: Obj) {
    o.block in h.blocks && o in FreeOf(h, KeyOf(h.blocks[o.block]))
  }

  /** Block b still waits to be swept. */
  predicate Awaits(h: Heap, b: int) {
    b in h.blocks && b in WaitOf(h, KeyOf(h.blocks[b]))
  }

  predicate Taken(h: Heap, o: Obj) {
    o in h.owned || OnFree(h, o)
  }

  // --------------------------------------------------------------------------------------------- the invariant

  predicate BlkOk(b: Blk) {
    0 <= b.kind < MAXOBJKINDS && 1 <= b.gran <= MAXOBJGRANULES && b.marks <= Interval(0, Slots(b.gran)) && b.nMarks == |b.marks|
  }

  predicate FreeListOk(h: Heap, k: Key) {
    NoDup(FreeOf(h, k)) && forall o {:trigger o in FreeOf(h, k)} | o in FreeOf(h, k) :: IsObj(h, o) && KeyOf(h.blocks[o.block]) == k
  }

  predicate WaitListOk(h: Heap, k: Key) {
    NoDup(WaitOf(h, k)) && forall b {:trigger b in WaitOf(h, k)} | b in WaitOf(h, k) :: b in h.blocks && KeyOf(h.blocks[b]) == k
  }

  /** An object is not both free and allocated, a taken object is marked in a block that waits to be swept and in one
      of uncollectable objects, and a free object of a kind that must be cleared is clean. */
  predicate TakenOk(init: set<int>, h: Heap, o: Obj) {
    && IsObj(h, o)
    && !(o in h.owned && OnFree(h, o))
    && (Awaits(h, o.block) || IsUncollectable(h.blocks[o.block].kind) ==> Marked(h, o))
    && (OnFree(h, o) && h.blocks[o.block].kind in init ==> o in h.clean)
  }

  ghost predicate Ok(init: set<int>, h: Heap) {
    && (forall b {:trigger h.blocks[b]} | b in h.blocks :: b != 0 && BlkOk(h.blocks[b]))
    && (forall k {:trigger FreeListOk(h, k)} :: FreeListOk(h, k))
    && (forall k {:trigger WaitListOk(h, k)} :: WaitListOk(h, k))
    && (forall o {:trigger TakenOk(init, h, o)} | Taken(h, o) :: TakenOk(init, h, o))
  }

  /** No object is twice on the free lists. */
  lemma FreeOnce(init: set<int>, h: Heap, k: Key, i: int, q: Key, j: int)
    requires Ok(init, h) && 0 <= i < |FreeOf(h, k)| && 0 <= j < |FreeOf(h, q)| && FreeOf(h, k)[i] == FreeOf(h, q)[j]
    ensures k == q && i == j
  {
    assert FreeListOk(h, k) && FreeListOk(h, q);
    assert FreeOf(h, k)[i] in FreeOf(h, k) && FreeOf(h, q)[j] in FreeOf(h, q);
  }

  // ------------------------------------------------------------------------------------------ sweeping one block

  /** The unmarked ones of the first n objects of block b, the last one first. */
  function Unmarked(b: int, marks: set<int>, n: int): seq<Obj> {
    if n <= 0 then [] else (if n - 1 in marks then [] else [Obj(b, n - 1)]) + Unmarked(b, marks, n - 1)
  }

  lemma {:induction false} UnmarkedExact(b: int, marks: set<int>, n: int)
    ensures forall o :: o in Unmarked(b, marks, n) <==> o.block == b && 0 <= o.slot < n && o.slot !in marks
    ensures NoDup(Unmarked(b, marks, n))
  {
    if n > 0 {
      UnmarkedExact(b, marks, n - 1);
      var s := Unmarked(b, marks, n - 1);
      if n - 1 !in marks {
        assert Obj(b, n - 1) !in s;
        assert Unmarked(b, marks, n) == [Obj(b, n - 1)] + s;
      }
    }
  }

  /** The state after GC_reclaim_small_nonempty_block(b). */
  function Sweep(init: set<int>, gcNo: int, h: Heap, b: int): Heap
    requires b in h.blocks && h.blocks[b].gran > 0
  {
    var blk := h.blocks[b];
    var found := Unmarked(b, blk.marks, Slots(blk.gran));
    var marks := if IsUncollectable(blk.kind) then Interval(0, Slots(blk.gran)) else blk.marks;
    h.(blocks := h.blocks[b := blk.(lastReclaimed := gcNo, marks := marks, nMarks := |marks|)],
       lists := h.lists[KeyOf(blk) := found + FreeOf(h, KeyOf(blk))],
       clean := if blk.kind in init then h.clean + (set o | o in found) else h.clean)
  }

  /** Block b was taken off its list to be swept: what is taken in it is marked. */
  ghost predicate Sweepable(h: Heap, b: int) {
    && b in h.blocks && !Awaits(h, b)
    && forall o {:trigger Taken(h, o)} | Taken(h, o) && o.block == b :: Marked(h, o)
  }

  /** Taking a block off its list. */
  function Unqueue(h: Heap, k: Key): Heap
    requires k in h.waiting && |h.waiting[k]| > 0
  {
    h.(waiting := h.waiting[k := h.waiting[k][1..]])
  }

  lemma NoDupTail<T>(s: seq<T>)
    requires NoDup(s) == true && |s| > 0
    ensures NoDup(s[1..]) == true && s[0] !in s[1..] && forall x :: x in s <==> x == s[0] || x in s[1..]
  {
    assert s == [s[0]] + s[1..];
  }

  lemma UnqueueTaken(init: set<int>, h: Heap, k: Key, o: Obj)
    requires Ok(init, h) == true && k in h.waiting && |h.waiting[k]| > 0 && Taken(Unqueue(h, k), o)
    ensures TakenOk(init, Unqueue(h, k), o) == true && (o.block == h.waiting[k][0] ==> Marked(h, o))
  {
    var h1, w := Unqueue(h, k), WaitOf(h, k);
    assert WaitListOk(h, k) && w[0] in w;
    NoDupTail(w);
    assert Taken(h, o) && TakenOk(init, h, o);
    var q := KeyOf(h.blocks[o.block]);
    assert FreeOf(h1, q) == FreeOf(h, q);
    assert WaitOf(h1, q) == if q == k then w[1..] else WaitOf(h, q);
  }

  lemma UnqueueOk(init: set<int>, h: Heap, k: Key)
    requires Ok(init, h) == true && k in h.waiting && |h.waiting[k]| > 0
    ensures Ok(init, Unqueue(h, k)) == true && Sweepable(Unqueue(h, k), h.waiting[k][0]) == true
    ensures KeyOf(h.blocks[h.waiting[k][0]]) == k
  {
    var h1, w := Unqueue(h, k), WaitOf(h, k);
    assert WaitListOk(h, k) && w[0] in w;
    NoDupTail(w);
    assert WaitOf(h1, k) == w[1..];
    forall q {:trigger FreeListOk(h1, q)} ensures FreeListOk(h1, q) {
      assert FreeListOk(h, q) && FreeOf(h1, q) == FreeOf(h, q);
    }
    forall q {:trigger WaitListOk(h1, q)} ensures WaitListOk(h1, q) {
      assert WaitListOk(h, q);
      assert q != k ==> WaitOf(h1, q) == WaitOf(h, q);
    }
    forall o {:trigger TakenOk(init, h1, o)} {:trigger Taken(h1, o)} | Taken(h1, o)
      ensures TakenOk(init, h1, o) && (o.block == w[0] ==> Marked(h1, o))
    {
      UnqueueTaken(init, h, k, o);
    }
  }

  lemma NoDupConcat<T>(s: seq<T>, t: seq<T>)
    requires NoDup(s) && NoDup(t) && forall x | x in s :: x !in t
    ensures NoDup(s + t) == true
  {
    forall i, j | 0 <= i < j < |s + t| ensures (s + t)[i] != (s + t)[j] {
      if i < |s| <= j {
        assert s[i] in s && t[j - |s|] in t;
      }
    }
  }

  /** No unmarked object of b is taken. */
  lemma UnmarkedUntaken(init: set<int>, h: Heap, b: int)
    requires Ok(init, h) == true && Sweepable(h, b)
    ensures forall o {:trigger o in Unmarked(b, h.blocks[b].marks, Slots(h.blocks[b].gran))} ::
              o in Unmarked(b, h.blocks[b].marks, Slots(h.blocks[b].gran)) ==> IsObj(h, o) && o.block == b && !Taken(h, o)
    ensures NoDup(Unmarked(b, h.blocks[b].marks, Slots(h.blocks[b].gran))) == true
  {
    UnmarkedExact(b, h.blocks[b].marks, Slots(h.blocks[b].gran));
  }

  lemma SweepFree(init: set<int>, gcNo: int, h: Heap, b: int, q: Key)
    requires Ok(init, h) == true && Sweepable(h, b) == true
    ensures FreeListOk(Sweep(init, gcNo, h, b), q) == true
  {
    var h1, blk := Sweep(init, gcNo, h, b), h.blocks[b];
    assert FreeListOk(h, q);
    if q == KeyOf(blk) {
      var found := Unmarked(b, blk.marks, Slots(blk.gran));
      UnmarkedUntaken(init, h, b);
      assert FreeOf(h1, q) == found + FreeOf(h, q);
      forall o | o in found ensures o !in FreeOf(h, q) {
        assert !Taken(h, o);
      }
      NoDupConcat(found, FreeOf(h, q));
    } else {
      assert FreeOf(h1, q) == FreeOf(h, q);
    }
  }

  /** Where objects lie, which marks are set and which blocks wait changes only as intended. */
  lemma SweepFrame(init: set<int>, gcNo: int, h: Heap, b: int, o: Obj)
    requires b in h.blocks && BlkOk(h.blocks[b]) == true
    ensures var h1 := Sweep(init, gcNo, h, b);
      && (IsObj(h1, o) <==> IsObj(h, o))
      && (IsObj(h, o) ==> h1.blocks[o.block].kind == h.blocks[o.block].kind)
      && (Awaits(h1, o.block) <==> Awaits(h, o.block))
      && (Marked(h, o) ==> Marked(h1, o))
      && (IsObj(h, o) && o.block == b && IsUncollectable(h.blocks[b].kind) ==> Marked(h1, o))
      && (OnFree(h1, o) <==>
            (OnFree(h, o) || (o.block in h.blocks && KeyOf(h.blocks[o.block]) == KeyOf(h.blocks[b]) &&
                              o in Unmarked(b, h.blocks[b].marks, Slots(h.blocks[b].gran)))))
  {
  }

  lemma SweepTaken(init: set<int>, gcNo: int, h: Heap, b: int, o: Obj)
    requires Ok(init, h) == true && Sweepable(h, b) == true && Taken(Sweep(init, gcNo, h, b), o)
    ensures TakenOk(init, Sweep(init, gcNo, h, b), o) == true
  {
    assert BlkOk(h.blocks[b]);
    UnmarkedUntaken(init, h, b);
    SweepFrame(init, gcNo, h, b, o);
    if o in Unmarked(b, h.blocks[b].marks, Slots(h.blocks[b].gran)) {
      assert IsObj(h, o) && !Taken(h, o);
    } else {
      assert Taken(h, o) && TakenOk(init, h, o);
    }
  }

  lemma SweepOk(init: set<int>, gcNo: int, h: Heap, b: int)
    requires Ok(init, h) == true && Sweepable(h, b) == true
    ensures Ok(init, Sweep(init, gcNo, h, b)) == true
  {
    var h1 := Sweep(init, gcNo, h, b);
    forall c {:trigger h1.blocks[c]} | c in h1.blocks ensures c != 0 && BlkOk(h1.blocks[c]) {
      assert BlkOk(h.blocks[c]);
    }
    forall q {:trigger FreeListOk(h1, q)} ensures FreeListOk(h1, q) {
      SweepFree(init, gcNo, h, b, q);
    }
    forall q {:trigger WaitListOk(h1, q)} ensures WaitListOk(h1, q) {
      assert WaitListOk(h, q);
      assert WaitOf(h1, q) == WaitOf(h, q);
    }
    forall o {:trigger TakenOk(init, h1, o)} | Taken(h1, o) ensures TakenOk(init, h1, o) {
      SweepTaken(init, gcNo, h, b, o);
    }
  }

  // ------------------------------------------------------------------------ new blocks, allocated and freed objects

  /** The state after GC_new_hblk got block b. */
  function AddBlock(init: set<int>, h: Heap, b: int, kind: int, gran: int): Heap
    requires gran > 0
  {
    var n := Slots(gran);
    var marks := if IsUncollectable(kind) then Interval(0, n) else {};
    h.(blocks := h.blocks[b := Blk(kind, gran, marks, |marks|, 0)],
       lists := h.lists[(kind, gran) := Unmarked(b, {}, n) + FreeOf(h, (kind, gran))],
       clean := if kind in init then h.clean + (set o | o in Unmarked(b, {}, n)) else h.clean)
  }

  lemma AddBlockOk(init: set<int>, h: Heap, b: int, kind: int, gran: int)
    requires Ok(init, h) == true && b !in h.blocks && b != 0 && 0 <= kind < MAXOBJKINDS && 1 <= gran <= MAXOBJGRANULES
    ensures Ok(init, AddBlock(init, h, b, kind, gran)) == true
  {
    var h1, k := AddBlock(init, h, b, kind, gran), (kind, gran);
    forall c {:trigger h1.blocks[c]} | c in h1.blocks ensures c != 0 && BlkOk(h1.blocks[c]) {
      assert c != b ==> BlkOk(h.blocks[c]);
      NewBlockOk(init, h, b, kind, gran);
    }
    forall q {:trigger FreeListOk(h1, q)} ensures FreeListOk(h1, q) {
      AddBlockList(init, h, b, kind, gran, q);
    }
    forall q {:trigger WaitListOk(h1, q)} ensures WaitListOk(h1, q) {
      assert WaitListOk(h, q) && WaitOf(h1, q) == WaitOf(h, q);
    }
    assert b !in WaitOf(h, k) by {
      assert WaitListOk(h, k);
    }
    forall o {:trigger TakenOk(init, h1, o)} | Taken(h1, o) ensures TakenOk(init, h1, o) {
      AddBlockTaken(init, h, b, kind, gran, o);
    }
  }

  lemma NewBlockOk(init: set<int>, h: Heap, b: int, kind: int, gran: int)
    requires 0 <= kind < MAXOBJKINDS && 1 <= gran <= MAXOBJGRANULES
    ensures BlkOk(AddBlock(init, h, b, kind, gran).blocks[b]) == true
  {
  }

  lemma AddBlockList(init: set<int>, h: Heap, b: int, kind: int, gran: int, q: Key)
    requires Ok(init, h) == true && b !in h.blocks && 1 <= gran <= MAXOBJGRANULES
    ensures FreeListOk(AddBlock(init, h, b, kind, gran), q) == true
  {
    var h1, n, k := AddBlock(init, h, b, kind, gran), Slots(gran), (kind, gran);
    assert FreeListOk(h, q);
    if q == k {
      UnmarkedExact(b, {}, n);
      assert FreeOf(h1, k) == Unmarked(b, {}, n) + FreeOf(h, k);
      NoDupConcat(Unmarked(b, {}, n), FreeOf(h, k));
    } else {
      assert FreeOf(h1, q) == FreeOf(h, q);
    }
  }

  lemma AddBlockTaken(init: set<int>, h: Heap, b: int, kind: int, gran: int, o: Obj)
    requires Ok(init, h) == true && b !in h.blocks && gran > 0 && Taken(AddBlock(init, h, b, kind, gran), o)
    ensures TakenOk(init, AddBlock(init, h, b, kind, gran), o) == true
  {
    var h1, n, k := AddBlock(init, h, b, kind, gran), Slots(gran), (kind, gran);
    UnmarkedExact(b, {}, n);
    assert WaitListOk(h, k) && FreeListOk(h, k);
    if o.block == b {
      assert !(o in h.owned) by {
        assert Taken(h, o) ==> TakenOk(init, h, o);
      }
      assert o in Unmarked(b, {}, n);
    } else {
      assert Taken(h, o) && TakenOk(init, h, o);
    }
  }

  /** Taking the first object off free list k for the client. */
  function Pop(h: Heap, k: Key): Heap
    requires k in h.lists && |h.lists[k]| > 0
  {
    var o := h.lists[k][0];
    h.(lists := h.lists[k := h.lists[k][1..]], owned := h.owned + {o})
  }

  lemma PopOk(init: set<int>, h: Heap, k: Key)
    requires Ok(init, h) == true && k in h.lists && |h.lists[k]| > 0
    ensures Ok(init, Pop(h, k)) == true
    ensures var o := h.lists[k][0]; IsObj(h, o) && KeyOf(h.blocks[o.block]) == k && o !in h.owned && (k.0 in init ==> o in h.clean)
  {
    var h1, s := Pop(h, k), FreeOf(h, k);
    var o := s[0];
    NoDupTail(s) by {
      assert FreeListOk(h, k);
    }
    assert o in s && FreeListOk(h, k) && Taken(h, o) && TakenOk(init, h, o);
    forall q {:trigger FreeListOk(h1, q)} ensures FreeListOk(h1, q) {
      assert FreeListOk(h, q);
      assert FreeOf(h1, q) == if q == k then s[1..] else FreeOf(h, q);
    }
    forall q {:trigger WaitListOk(h1, q)} ensures WaitListOk(h1, q) {
      assert WaitListOk(h, q) && WaitOf(h1, q) == WaitOf(h, q);
    }
    forall x {:trigger TakenOk(init, h1, x)} | Taken(h1, x) ensures TakenOk(init, h1, x) {
      assert Taken(h, x) && TakenOk(init, h, x);
      assert FreeOf(h1, KeyOf(h.blocks[x.block])) ==
        if KeyOf(h.blocks[x.block]) == k then s[1..] else FreeOf(h, KeyOf(h.blocks[x.block]));
    }
  }

  /** The state after GC_free(o).  The mark bit stays as it is. */
  function Push(init: set<int>, h: Heap, o: Obj): Heap
    requires o.block in h.blocks
  {
    var k := KeyOf(h.blocks[o.block]);
    h.(lists := h.lists[k := [o] + FreeOf(h, k)], owned := h.owned - {o},
       clean := if k.0 in init then h.clean + {o} else h.clean)
  }

  lemma PushOk(init: set<int>, h: Heap, o: Obj)
    requires Ok(init, h) == true && o in h.owned && o.block in h.blocks
    ensures Ok(init, Push(init, h, o)) == true
  {
    var h1, k := Push(init, h, o), KeyOf(h.blocks[o.block]);
    assert Taken(h, o) && TakenOk(init, h, o);
    forall q {:trigger FreeListOk(h1, q)} ensures FreeListOk(h1, q) {
      assert FreeListOk(h, q);
      if q == k {
        assert FreeOf(h1, q) == [o] + FreeOf(h, q);
        NoDupConcat([o], FreeOf(h, q));
      } else {
        assert FreeOf(h1, q) == FreeOf(h, q);
      }
    }
    forall q {:trigger WaitListOk(h1, q)} ensures WaitListOk(h1, q) {
      assert WaitListOk(h, q) && WaitOf(h1, q) == WaitOf(h, q);
    }
    forall x {:trigger TakenOk(init, h1, x)} | Taken(h1, x) ensures TakenOk(init, h1, x) {
      assert Taken(h, x) && TakenOk(init, h, x);
    }
  }

  // ------------------------------------------------------------------------------------------------- collecting

  /** TakenOk without what it says of blocks that wait to be swept. */
  predicate TakenLax(init: set<int>, h: Heap, o: Obj) {
    && IsObj(h, o)
    && !(o in h.owned && OnFree(h, o))
    && (IsUncollectable(h.blocks[o.block].kind) ==> Marked(h, o))
    && (OnFree(h, o) && h.blocks[o.block].kind in init ==> o in h.clean)
  }

  /** Ok without what it says of blocks that wait to be swept: true while mark bits are cleared and set. */
  ghost predicate Lax(init: set<int>, h: Heap) {
    && (forall b {:trigger h.blocks[b]} | b in h.blocks :: b != 0 && BlkOk(h.blocks[b]))
    && (forall k {:trigger FreeListOk(h, k)} :: FreeListOk(h, k))
    && (forall k {:trigger WaitListOk(h, k)} :: WaitListOk(h, k))
    && (forall o {:trigger TakenLax(init, h, o)} | Taken(h, o) :: TakenLax(init, h, o))
  }

  lemma OkIsLax(init: set<int>, h: Heap)
    requires Ok(init, h)
    ensures Lax(init, h) == true
  {
    forall o {:trigger TakenLax(init, h, o)} | Taken(h, o) ensures TakenLax(init, h, o) {
      assert TakenOk(init, h, o);
    }
  }

  /** When no block waits to be swept, any mark bits will do for blocks of collectable objects. */
  lemma LaxIsOk(init: set<int>, h: Heap)
    requires Lax(init, h) && NoneWait(h)
    ensures Ok(init, h) == true
  {
    forall o {:trigger TakenOk(init, h, o)} | Taken(h, o) ensures TakenOk(init, h, o) {
      assert TakenLax(init, h, o);
      assert WaitOf(h, KeyOf(h.blocks[o.block])) == [];
    }
  }

  /** From h to h1 only mark bits changed. */
  ghost predicate Remark(h: Heap, h1: Heap) {
    && h1 == h.(blocks := h1.blocks) && h1.blocks.Keys == h.blocks.Keys
    && forall b {:trigger h1.blocks[b]} | b in h.blocks ::
      h1.blocks[b].kind == h.blocks[b].kind && h1.blocks[b].gran == h.blocks[b].gran && (BlkOk(h.blocks[b]) ==> BlkOk(h1.blocks[b]))
  }

  /** From h to h1 just the mark bits of s were set. */
  ghost predicate MarksSet(h: Heap, h1: Heap, s: set<Obj>) {
    Remark(h, h1) && forall o {:trigger Marked(h1, o)} | IsObj(h, o) :: Marked(h1, o) <==> Marked(h, o) || o in s
  }

  /** From h to h1 just the mark bits of s were cleared. */
  ghost predicate MarksCleared(h: Heap, h1: Heap, s: set<Obj>) {
    Remark(h, h1) && forall o {:trigger Marked(h1, o)} | IsObj(h, o) :: Marked(h1, o) <==> Marked(h, o) && o !in s
  }

  /** From h to h1 just the mark bits of collectable objects were cleared. */
  ghost predicate AllCleared(h: Heap, h1: Heap) {
    Remark(h, h1) && forall o {:trigger Marked(h1, o)} | IsObj(h, o) ::
      Marked(h1, o) <==> (Marked(h, o) && IsUncollectable(h.blocks[o.block].kind))
  }

  lemma RemarkLax(init: set<int>, h: Heap, h1: Heap)
    requires Lax(init, h) == true && Remark(h, h1)
    requires forall o {:trigger Marked(h1, o)} | IsObj(h, o) && IsUncollectable(h.blocks[o.block].kind) && Marked(h, o) :: Marked(h1, o)
    ensures Lax(init, h1) == true
  {
    forall q {:trigger FreeListOk(h1, q)} ensures FreeListOk(h1, q) {
      assert FreeListOk(h, q) && FreeOf(h1, q) == FreeOf(h, q);
    }
    forall q {:trigger WaitListOk(h1, q)} ensures WaitListOk(h1, q) {
      assert WaitListOk(h, q) && WaitOf(h1, q) == WaitOf(h, q);
    }
    forall o {:trigger TakenLax(init, h1, o)} | Taken(h1, o) ensures TakenLax(init, h1, o) {
      assert Taken(h, o) && TakenLax(init, h, o);
      assert Marked(h1, o) || !Marked(h, o) || !IsUncollectable(h.blocks[o.block].kind);
    }
  }

  predicate NearlyFull(b: Blk)
    requires b.gran > 0
  {
    MostlyMarked(b.nMarks, Slots(b.gran))
  }

  /** GC_start_reclaim has gone over all blocks of h but those in todo. */
  ghost predicate Restarting(h: Heap, h1: Heap, todo: set<int>) {
    && (forall k {:trigger FreeOf(h1, k)} :: FreeOf(h1, k) == [])
    && (forall k {:trigger WaitListOk(h1, k)} :: WaitListOk(h1, k))
    && h1.clean == h.clean && todo <= h1.blocks.Keys <= h.blocks.Keys
    && (forall b {:trigger h1.blocks[b]} | b in h1.blocks :: h1.blocks[b] == h.blocks[b])
    && (forall b {:trigger b in h1.blocks} | b in h.blocks && b !in todo :: b in h1.blocks <==> h.blocks[b].nMarks != 0)
    && (forall b {:trigger Awaits(h1, b)} | b in h1.blocks && h1.blocks[b].gran > 0 ::
          Awaits(h1, b) <==> b !in todo && !NearlyFull(h1.blocks[b]))
  }

  /** After a collection nothing is free, and of what the client had he has what is marked. */
  lemma RestartedOk(init: set<int>, h: Heap, h1: Heap, owned: set<Obj>)
    requires (forall b {:trigger h.blocks[b]} | b in h.blocks :: b != 0 && BlkOk(h.blocks[b]))
    requires forall o {:trigger o in owned} | o in owned :: IsObj(h, o) && Marked(h, o)
    requires Restarting(h, h1, {})
    ensures Ok(init, h1.(owned := owned)) == true
  {
    var h2 := h1.(owned := owned);
    forall b {:trigger h2.blocks[b]} | b in h2.blocks ensures b != 0 && BlkOk(h2.blocks[b]) {
      assert BlkOk(h.blocks[b]);
    }
    forall q {:trigger FreeListOk(h2, q)} ensures FreeListOk(h2, q) {
      assert FreeOf(h1, q) == [] && FreeOf(h2, q) == [];
    }
    forall q {:trigger WaitListOk(h2, q)} ensures WaitListOk(h2, q) {
      assert WaitListOk(h1, q) && WaitOf(h2, q) == WaitOf(h1, q);
    }
    forall o {:trigger TakenOk(init, h2, o)} | Taken(h2, o) ensures TakenOk(init, h2, o) {
      assert o.block in h2.blocks ==> FreeOf(h1, KeyOf(h2.blocks[o.block])) == [];
      assert o in owned && BlkOk(h.blocks[o.block]);
      assert o.block in h1.blocks;
    }
  }

  /** Every object of block b is marked or free. */
  ghost predicate Whole(h: Heap, b: int) {
    forall o {:trigger OnFree(h, o)} | IsObj(h, o) && o.block == b :: Marked(h, o) || OnFree(h, o)
  }

  /** From h to h1 blocks were swept: only unmarked objects of waiting blocks became free, none of them the client's,
      and if all is true every block that no longer waits was swept as a whole. */
  ghost predicate Swept(h: Heap, h1: Heap, all: bool) {
    && h1.owned == h.owned && h1.blocks.Keys == h.blocks.Keys
    && (forall b {:trigger h1.blocks[b]} | b in h.blocks ::
          h1.blocks[b].kind == h.blocks[b].kind && h1.blocks[b].gran == h.blocks[b].gran)
    && (forall o {:trigger OnFree(h1, o)} | IsObj(h, o) ::
          && (OnFree(h, o) ==> OnFree(h1, o))
          && (OnFree(h1, o) && !OnFree(h, o) ==> Awaits(h, o.block) && !Marked(h, o) && o !in h.owned))
    && (forall o {:trigger Marked(h1, o)} | Marked(h, o) :: Marked(h1, o))
    && (forall b {:trigger Awaits(h1, b)} | b in h.blocks ::
          (Awaits(h1, b) ==> Awaits(h, b)) && (all && Awaits(h, b) && !Awaits(h1, b) ==> Whole(h1, b)))
  }

  lemma SweptRefl(h: Heap, all: bool)
    ensures Swept(h, h, all) == true
  {
  }

  lemma SweptTrans(h: Heap, h1: Heap, h2: Heap, all: bool)
    requires Swept(h, h1, all) == true && Swept(h1, h2, all) == true
    ensures Swept(h, h2, all) == true
  {
    forall o {:trigger OnFree(h2, o)} | IsObj(h, o)
      ensures OnFree(h, o) ==> OnFree(h2, o)
      ensures OnFree(h2, o) && !OnFree(h, o) ==> Awaits(h, o.block) && !Marked(h, o) && o !in h.owned
    {
      assert IsObj(h1, o) && (OnFree(h, o) ==> OnFree(h1, o));
      assert Awaits(h1, o.block) ==> Awaits(h, o.block);
      assert Marked(h, o) ==> Marked(h1, o);
    }
    forall o {:trigger Marked(h2, o)} | Marked(h, o) ensures Marked(h2, o) {
      assert Marked(h1, o);
    }
    forall b {:trigger Awaits(h2, b)} | b in h.blocks
      ensures (Awaits(h2, b) ==> Awaits(h, b)) && (all && Awaits(h, b) && !Awaits(h2, b) ==> Whole(h2, b))
    {
      assert Awaits(h1, b) ==> Awaits(h, b);
      if all && Awaits(h, b) && !Awaits(h1, b) {
        forall o {:trigger OnFree(h2, o)} | IsObj(h2, o) && o.block == b ensures Marked(h2, o) || OnFree(h2, o) {
          assert IsObj(h, o) && IsObj(h1, o) && (Marked(h1, o) || OnFree(h1, o));
        }
      }
    }
  }

  lemma UnqueueSwept(init: set<int>, h: Heap, k: Key)
    requires Ok(init, h) == true && k in h.waiting && |h.waiting[k]| > 0
    ensures Swept(h, Unqueue(h, k), false) == true
  {
    var h1, w := Unqueue(h, k), WaitOf(h, k);
    assert WaitListOk(h, k);
    NoDupTail(w);
    forall b {:trigger Awaits(h1, b)} | b in h.blocks ensures Awaits(h1, b) ==> Awaits(h, b) {
      assert WaitOf(h1, KeyOf(h.blocks[b])) == if KeyOf(h.blocks[b]) == k then w[1..] else WaitOf(h, KeyOf(h.blocks[b]));
    }
    forall o {:trigger OnFree(h1, o)} | IsObj(h, o) ensures OnFree(h1, o) <==> OnFree(h, o) {
      assert FreeOf(h1, KeyOf(h.blocks[o.block])) == FreeOf(h, KeyOf(h.blocks[o.block]));
    }
  }

  /** Taking a block off its list and sweeping it. */
  lemma SweepSwept(init: set<int>, gcNo: int, h: Heap, k: Key)
    requires Ok(init, h) == true && k in h.waiting && |h.waiting[k]| > 0
    requires h.waiting[k][0] in h.blocks && h.blocks[h.waiting[k][0]].gran > 0
    ensures Swept(h, Sweep(init, gcNo, Unqueue(h, k), h.waiting[k][0]), true) == true
  {
    var h1, b := Unqueue(h, k), h.waiting[k][0];
    var h2 := Sweep(init, gcNo, h1, b);
    UnqueueOk(init, h, k);
    UnqueueSwept(init, h, k);
    assert BlkOk(h.blocks[b]);
    UnmarkedUntaken(init, h1, b);
    UnmarkedExact(b, h.blocks[b].marks, Slots(h.blocks[b].gran));
    assert Awaits(h, b) by {
      assert b in WaitOf(h, k);
    }
    forall o {:trigger OnFree(h2, o)} | IsObj(h, o)
      ensures OnFree(h, o) ==> OnFree(h2, o)
      ensures OnFree(h2, o) && !OnFree(h, o) ==> Awaits(h, o.block) && !Marked(h, o) && o !in h.owned
    {
      SweepFrame(init, gcNo, h1, b, o);
      assert OnFree(h1, o) == OnFree(h, o) && Marked(h1, o) == Marked(h, o);
      assert o.block == b && !Marked(h, o) ==> !Taken(h1, o);
    }
    forall o {:trigger Marked(h2, o)} | Marked(h, o) ensures Marked(h2, o) {
      SweepFrame(init, gcNo, h1, b, o);
    }
    forall c {:trigger Awaits(h2, c)} | c in h.blocks
      ensures (Awaits(h2, c) ==> Awaits(h, c)) && (Awaits(h, c) && !Awaits(h2, c) ==> Whole(h2, c))
    {
      SweepFrame(init, gcNo, h1, b, Obj(c, 0));
      OnlyFirst(h, k, c);
    }
    SweptWhole(init, gcNo, h1, b);
  }

  lemma OnlyFirst(h: Heap, k: Key, c: int)
    requires k in h.waiting && |h.waiting[k]| > 0
    ensures Awaits(h, c) && c != h.waiting[k][0] ==> Awaits(Unqueue(h, k), c)
    ensures Awaits(Unqueue(h, k), c) ==> Awaits(h, c)
  {
    var w := h.waiting[k];
    assert w == [w[0]] + w[1..];
  }

  lemma SweptWhole(init: set<int>, gcNo: int, h: Heap, b: int)
    requires b in h.blocks && BlkOk(h.blocks[b]) == true
    ensures Whole(Sweep(init, gcNo, h, b), b) == true
  {
    var h1 := Sweep(init, gcNo, h, b);
    UnmarkedExact(b, h.blocks[b].marks, Slots(h.blocks[b].gran));
    forall o {:trigger OnFree(h1, o)} | IsObj(h1, o) && o.block == b ensures Marked(h1, o) || OnFree(h1, o) {
      SweepFrame(init, gcNo, h, b, o);
    }
  }

  /** Only lists of kinds and sizes that exist hold blocks. */
  lemma QueueInRange(init: set<int>, h: Heap, k: Key)
    requires Lax(init, h) && WaitOf(h, k) != []
    ensures 0 <= k.0 < MAXOBJKINDS && 1 <= k.1 <= MAXOBJGRANULES
  {
    var b := WaitOf(h, k)[0];
    assert WaitListOk(h, k);
    assert b in WaitOf(h, k);
    assert BlkOk(h.blocks[b]);
  }

  /** A stop function: one that never returns TRUE, or one that does after so many calls. */
  datatype Stop = Never | After(polls: nat)

  function Elems(s: seq<Obj>): set<Obj> {
    set o | o in s
  }

  function Polled(s: Stop): Stop {
    if s.After? && s.polls > 0 then After(s.polls - 1) else s
  }

  predicate Stops(s: Stop) {
    s.After? && s.polls == 0
  }

  /** What the rest of the collector does for GC_allocobj in one round: the block that GC_allochblk finds, or 0, and
      what GC_collect_or_expand does. */
  datatype Round = Round(block: int, more: More)
  datatype More = Fail | Expand | Collect(stop: Stop, reached: seq<Obj>)

  datatype Option<T> = None | Some(value: T)

  /** GC_reclaim_clear and, if the objects need not be cleared, GC_reclaim_uninit: link the unmarked objects of a block
      in front of list. */
  method ReclaimGeneric(b: int, blk: Blk, list: seq<Obj>) returns (result: seq<Obj>, bytes: int)
    requires BlkOk(blk)
    ensures result == Unmarked(b, blk.marks, Slots(blk.gran)) + list
    ensures bytes == Total(Bytes(blk.gran), |Unmarked(b, blk.marks, Slots(blk.gran))|)
  {
    var sz, p, bit := Bytes(blk.gran), 0, 0;
    ghost var n, found := Slots(blk.gran), [];
    result, bytes := list, 0;
    SlotFits(blk.gran, 0);
    while p <= HBLKSIZE - sz
      invariant sz > 0 && 0 <= bit <= n && p == Total(sz, bit) && (p <= HBLKSIZE - sz <==> bit < n)
      invariant found == Unmarked(b, blk.marks, bit) && result == found + list && bytes == Total(sz, |found|)
      decreases n - bit
    {
      SlotFits(blk.gran, bit + 1);
      if bit !in blk.marks {
        bytes := bytes + sz;
        result := [Obj(b, bit)] + result;
        found := [Obj(b, bit)] + found;
      }
      p, bit := p + sz, bit + 1;
    }
  }

  function Total(sz: int, n: nat): int {
    if n == 0 then 0 else Total(sz, n - 1) + sz
  }

  lemma TotalIs(sz: int, n: nat)
    ensures Total(sz, n) == n * sz
  {
  }

  lemma TimesMonotone(a: int, b: int, c: int)
    requires a <= b && c >= 0
    ensures a * c <= b * c
  {
  }

  lemma SlotFits(gran: int, k: nat)
    requires gran > 0
    ensures Total(Bytes(gran), k) <= HBLKSIZE - Bytes(gran) <==> k < Slots(gran)
  {
    var sz, n := Bytes(gran), Slots(gran);
    TotalIs(sz, k);
    if k < n {
      TimesMonotone(k + 1, n, sz);
    } else {
      TimesMonotone(n + 1, k + 1, sz);
    }
  }

  /** GC_build_fl: link all objects of a new block in front of list. */
  method BuildFl(b: int, gran: int, list: seq<Obj>) returns (result: seq<Obj>)
    requires 1 <= gran <= MAXOBJGRANULES
    ensures result == Unmarked(b, {}, Slots(gran)) + list
  {
    var sz := Bytes(gran);
    var p, k := sz, 1;
    var chain := [Obj(b, 0)];
    ghost var n := Slots(gran);
    SlotFits(gran, 0);
    SlotFits(gran, 1);
    assert Unmarked(b, {}, 1) == chain + Unmarked(b, {}, 0);
    assert Total(sz, 1) == sz + Total(sz, 0);
    while p <= HBLKSIZE - sz
      invariant 1 <= k <= n && p == Total(sz, k) && (p <= HBLKSIZE - sz <==> k < n)
      invariant chain == Unmarked(b, {}, k)
      decreases n - k
    {
      SlotFits(gran, k + 1);
      chain := [Obj(b, k)] + chain;
      p, k := p + sz, k + 1;
    }
    result := chain + list;
  }

  method Pick<T>(s: set<T>) returns (x: T)
    requires s != {}
    ensures x in s
  {
    x :| x in s;
  }

  class Collector {
    /** The kinds whose objects are cleared when they are freed (ok_init). */
    const init: set<int>
    var blocks: map<int, Blk>
    var lists: map<Key, seq<Obj>>
    var waiting: map<Key, seq<int>>
    var clean: set<Obj>
    var gcNo: int
    var bytesFound: int
    var bytesAllocd: int
    var bytesFreed: int
    /** What the client has. */
    ghost var owned: set<Obj>

    ghost function H(): Heap
      reads this
    {
      Heap(blocks, lists, waiting, owned, clean)
    }

    ghost predicate Valid()
      reads this
    {
      Ok(init, H())
    }

    constructor (init: set<int>)
      ensures Valid() && owned == {} && this.init == init
    {
      this.init := init;
      blocks, lists, waiting, clean, owned := map[], map[], map[], {}, {};
      gcNo, bytesFound, bytesAllocd, bytesFreed := 0, 0, 0, 0;
      new;
      NoHeapOk(init);
    }

    /** GC_reclaim_small_nonempty_block. */
    method ReclaimSmallNonemptyBlock(b: int)
      requires Valid() == true && Sweepable(H(), b) == true
      modifies this`blocks, this`lists, this`clean, this`bytesFound
      ensures Valid() == true && old(b in blocks && blocks[b].gran > 0) && H() == Sweep(init, gcNo, old(H()), b)
    {
      assert BlkOk(blocks[b]);
      var blk := blocks[b];
      var k := KeyOf(blk);
      var list, bytes := ReclaimGeneric(b, blk, if k in lists then lists[k] else []);
      SweepOk(init, gcNo, H(), b);
      var marks := if IsUncollectable(blk.kind) then Interval(0, Slots(blk.gran)) else blk.marks;
      blocks := blocks[b := blk.(lastReclaimed := gcNo, marks := marks, nMarks := |marks|)];
      if blk.kind in init {
        clean := clean + set o | o in Unmarked(b, blk.marks, Slots(blk.gran));
      }
      lists := lists[k := list];
      bytesFound := bytesFound + bytes;
    }

    /** Take the first block off reclaim list k. */
    method Dequeue(k: Key) returns (b: int)
      requires Valid() == true && k in waiting && |waiting[k]| > 0
      modifies this`waiting
      ensures Valid() == true && old(k in waiting && |waiting[k]| > 0) && H() == Unqueue(old(H()), k)
      ensures b == old(waiting[k][0]) && Sweepable(H(), b) == true && KeyOf(blocks[b]) == k
    {
      UnqueueOk(init, H(), k);
      b := waiting[k][0];
      waiting := waiting[k := waiting[k][1..]];
    }

    /** Sweep the first block on reclaim list k. */
    method SweepNext(k: Key)
      requires Valid() == true && k in waiting && |waiting[k]| > 0
      modifies this`blocks, this`lists, this`waiting, this`clean, this`bytesFound
      ensures Valid() == true && Swept(old(H()), H(), true) == true
      ensures old(k in waiting && |waiting[k]| > 0) && waiting == old(waiting[k := waiting[k][1..]])
    {
      assert waiting[k][0] in blocks && BlkOk(blocks[waiting[k][0]]) by {
        UnqueueOk(init, H(), k);
      }
      SweepSwept(init, gcNo, H(), k);
      var b := Dequeue(k);
      ReclaimSmallNonemptyBlock(b);
    }

    /** GC_continue_reclaim. */
    method ContinueReclaim(gran: int, kind: int)
      requires Valid() == true
      modifies this`blocks, this`lists, this`waiting, this`clean, this`bytesFound
      ensures Valid() == true && Swept(old(H()), H(), true) == true
      ensures FreeOf(H(), (kind, gran)) != [] || WaitOf(H(), (kind, gran)) == []
    {
      var k := (kind, gran);
      ghost var h := H();
      SweptRefl(h, true);
      while k in waiting && waiting[k] != []
        invariant Valid() == true && Swept(h, H(), true) == true
        decreases |WaitOf(H(), k)|
      {
        ghost var h1 := H();
        SweepNext(k);
        SweptTrans(h, h1, H(), true);
        if k in lists && lists[k] != [] {
          break;
        }
      }
    }

    /** The innermost loop of GC_reclaim_all, for one reclaim list. */
    method ReclaimList(k: Key, stop: Stop, ignoreOld: bool) returns (done: bool, stop1: Stop)
      requires Valid() == true
      modifies this`blocks, this`lists, this`waiting, this`clean, this`bytesFound
      ensures Valid() == true && Swept(old(H()), H(), !ignoreOld) == true
      ensures OthersWait(old(H()), H(), k) == true
      ensures (done ==> WaitOf(H(), k) == []) && (stop.Never? ==> done && stop1.Never?)
    {
      ghost var h := H();
      SweptRefl(h, !ignoreOld);
      stop1 := stop;
      while k in waiting && waiting[k] != []
        invariant Valid() == true && Swept(h, H(), !ignoreOld) == true && (stop.Never? ==> stop1.Never?)
        invariant OthersWait(h, H(), k) == true
        decreases |WaitOf(H(), k)|
      {
        if Stops(stop1) {
          return false, stop1;
        }
        stop1 := Polled(stop1);
        ghost var h1 := H();
        ReclaimOne(k, ignoreOld);
        SweptTrans(h, h1, H(), !ignoreOld);
        OthersWaitStep(h, h1, H(), k);
      }
      done := true;
    }

    /** Sweep the first block on reclaim list k, or drop it if old blocks are ignored and it is one. */
    method ReclaimOne(k: Key, ignoreOld: bool)
      requires Valid() == true && k in waiting && |waiting[k]| > 0
      modifies this`blocks, this`lists, this`waiting, this`clean, this`bytesFound
      ensures Valid() == true && Swept(old(H()), H(), !ignoreOld) == true
      ensures old(k in waiting && |waiting[k]| > 0) && waiting == old(waiting[k := waiting[k][1..]])
    {
      UnqueueOk(init, H(), k);
      UnqueueSwept(init, H(), k);
      if !ignoreOld || blocks[waiting[k][0]].lastReclaimed == gcNo - 1 {
        ghost var h := H();
        SweepNext(k);
        SweptSome(h, H(), !ignoreOld);
      } else {
        var _ := Dequeue(k);
      }
    }

    /** GC_reclaim_all. */
    method ReclaimAll(stop: Stop, ignoreOld: bool) returns (done: bool, stop1: Stop)
      requires Valid() == true
      modifies this`blocks, this`lists, this`waiting, this`clean, this`bytesFound
      ensures Valid() == true && Swept(old(H()), H(), !ignoreOld) == true
      ensures done ==> NoneWait(H())
      ensures stop.Never? ==> done
    {
      ghost var h := H();
      SweptRefl(h, !ignoreOld);
      stop1 := stop;
      var kind, sz := 0, 1;
      while kind < MAXOBJKINDS
        invariant 0 <= kind <= MAXOBJKINDS && 1 <= sz <= MAXOBJGRANULES
        invariant Valid() == true && Swept(h, H(), !ignoreOld) == true && (stop.Never? ==> stop1.Never?)
        invariant EmptyUpTo(H(), kind, sz) == true
        decreases MAXOBJKINDS - kind, MAXOBJGRANULES - sz
      {
        ghost var h1 := H();
        done, stop1 := ReclaimList((kind, sz), stop1, ignoreOld);
        SweptTrans(h, h1, H(), !ignoreOld);
        if !done {
          return;
        }
        EmptyNext(h1, H(), kind, sz);
        if sz == MAXOBJGRANULES {
          kind, sz := kind + 1, 1;
        } else {
          sz := sz + 1;
        }
      }
      OkIsLax(init, H());
      forall k {:trigger WaitOf(H(), k)} ensures WaitOf(H(), k) == [] {
        if WaitOf(H(), k) != [] {
          QueueInRange(init, H(), k);
        }
      }
      done := true;
    }

    /** GC_new_hblk, with the block that GC_allochblk returned. */
    method NewHblk(gran: int, kind: int, b: int)
      requires Valid() == true && 1 <= gran <= MAXOBJGRANULES && 0 <= kind < MAXOBJKINDS && b !in blocks
      modifies this`blocks, this`lists, this`clean
      ensures Valid() == true && H() == if b == 0 then old(H()) else AddBlock(init, old(H()), b, kind, gran)
    {
      if b == 0 {
        return;
      }
      AddBlockOk(init, H(), b, kind, gran);
      var k := (kind, gran);
      var marks := if IsUncollectable(kind) then Interval(0, Slots(gran)) else {};
      blocks := blocks[b := Blk(kind, gran, marks, |marks|, 0)];
      if kind in init {
        clean := clean + set o | o in Unmarked(b, {}, Slots(gran));
      }
      var list := BuildFl(b, gran, if k in lists then lists[k] else []);
      lists := lists[k := list];
    }

    /** GC_free for an object the client has. */
    method Free(o: Obj)
      requires Valid() == true && o in owned
      modifies this`lists, this`clean, this`owned, this`bytesFreed
      ensures Valid() == true && o.block in blocks && H() == Push(init, old(H()), o)
      ensures bytesFreed == old(bytesFreed) + Bytes(blocks[o.block].gran)
    {
      assert Taken(H(), o) && TakenOk(init, H(), o);
      PushOk(init, H(), o);
      var blk := blocks[o.block];
      var k := KeyOf(blk);
      bytesFreed := bytesFreed + Bytes(blk.gran);
      if blk.kind in init {
        clean := clean + {o};
      }
      lists := lists[k := [o] + if k in lists then lists[k] else []];
      owned := owned - {o};
    }

    /** The client writes to an object. */
    method Write(o: Obj)
      requires Valid() == true && o in owned
      modifies this`clean
      ensures Valid() == true && clean == old(clean) - {o}
    {
      ghost var h := H();
      clean := clean - {o};
      WriteOk(init, h, o);
    }

    /** GC_clear_marks: clear_marks_for_block for every block. */
    method ClearMarks()
      requires Lax(init, H()) == true
      modifies this`blocks
      ensures Lax(init, H()) == true && AllCleared(old(H()), H()) == true
    {
      ghost var h := H();
      var todo := blocks.Keys;
      ClearStart(h);
      while todo != {}
        invariant todo <= blocks.Keys && ClearedBut(h, H(), todo) == true
        decreases |todo|
      {
        var b := Pick(todo);
        ghost var h1 := H();
        todo := todo - {b};
        if !IsUncollectable(blocks[b].kind) {
          blocks := blocks[b := blocks[b].(marks := {}, nMarks := 0)];
        }
        ClearStep(h, h1, H(), todo, b);
      }
      RemarkLax(init, h, H());
    }

    /** GC_set_mark_bit: set the mark bit of o, if it is one of our objects. */
    method SetMark(o: Obj)
      requires Lax(init, H()) == true
      modifies this`blocks
      ensures Lax(init, H()) == true && MarksSet(old(H()), H(), {o}) == true
    {
      ghost var h := H();
      if o.block in blocks && 0 <= o.slot < Slots(blocks[o.block].gran) && o.slot !in blocks[o.block].marks {
        var blk := blocks[o.block];
        blocks := blocks[o.block := blk.(marks := blk.marks + {o.slot}, nMarks := blk.nMarks + 1)];
      }
      SetStep(init, h, H(), o);
      RemarkLax(init, h, H());
    }

    /** GC_stopped_mark: poll the stop function between steps of marking, which mark the objects of reached. */
    method StoppedMark(stop: Stop, reached: seq<Obj>) returns (done: bool)
      requires Lax(init, H()) == true
      modifies this`blocks, this`gcNo
      ensures Lax(init, H()) == true && Remark(old(H()), H()) == true
      ensures done ==> MarksSet(old(H()), H(), Elems(reached)) == true
      ensures stop.Never? ==> done
    {
      ghost var h := H();
      var stop1, n := stop, 0;
      while true
        invariant 0 <= n <= |reached| && (stop.Never? ==> stop1.Never?)
        invariant Lax(init, H()) == true && MarksSet(h, H(), Elems(reached[..n])) == true
        decreases |reached| - n
      {
        if Stops(stop1) {
          return false;
        }
        stop1 := Polled(stop1);
        if n == |reached| {
          break;
        }
        ghost var h1 := H();
        SetMark(reached[n]);
        SetTrans(h, h1, H(), Elems(reached[..n]), reached[n]);
        assert reached[..n + 1] == reached[..n] + [reached[n]];
        assert Elems(reached[..n + 1]) == Elems(reached[..n]) + {reached[n]};
        n := n + 1;
      }
      assert reached[..n] == reached;
      gcNo := gcNo + 1;
      done := true;
    }

    /** GC_clear_fl_marks. */
    method ClearFlMarks(list: seq<Obj>)
      requires forall o {:trigger o in list} | o in list :: IsObj(H(), o)
      modifies this`blocks, this`bytesFound
      ensures MarksCleared(old(H()), H(), Elems(list)) == true
    {
      ghost var h := H();
      var n := 0;
      assert Elems(list[..0]) == {};
      while n < |list|
        invariant 0 <= n <= |list| && MarksCleared(h, H(), Elems(list[..n])) == true
      {
        var q := list[n];
        assert q in list && IsObj(h, q);
        ghost var h1 := H();
        var blk := blocks[q.block];
        if q.slot in blk.marks {
          blocks := blocks[q.block := blk.(marks := blk.marks - {q.slot}, nMarks := blk.nMarks - 1)];
        }
        bytesFound := bytesFound - Bytes(blk.gran);
        UnsetStep(h, h1, H(), Elems(list[..n]), q);
        assert list[..n + 1] == list[..n] + [q];
        assert Elems(list[..n + 1]) == Elems(list[..n]) + {q};
        n := n + 1;
      }
      assert list[..n] == list;
    }

    /** Clear the mark bits of all objects on free lists, as GC_finish_collection does. */
    method ClearListMarks()
      requires Lax(init, H()) == true
      modifies this`blocks, this`bytesFound
      ensures FreeCleared(old(H()), H()) == true
    {
      ghost var h := H();
      var kind, sz := 0, 1;
      while kind < MAXOBJKINDS
        invariant 0 <= kind <= MAXOBJKINDS && 1 <= sz <= MAXOBJGRANULES
        invariant FreeClearedUpTo(h, H(), kind, sz) == true
        decreases MAXOBJKINDS - kind, MAXOBJGRANULES - sz
      {
        ghost var h1 := H();
        var k := (kind, sz);
        var list := if k in lists then lists[k] else [];
        ListObjs(init, h, h1, k);
        ClearFlMarks(list);
        FreeClearedStep(init, h, h1, H(), kind, sz);
        if sz == MAXOBJGRANULES {
          kind, sz := kind + 1, 1;
        } else {
          sz := sz + 1;
        }
      }
      FreeClearedAll(init, h, H());
    }

    /** GC_reclaim_block for a block of small objects. */
    method ReclaimBlock(b: int, ghost h: Heap, ghost todo: set<int>)
      requires Restarting(h, H(), todo + {b}) == true && b in blocks && b !in todo && BlkOk(blocks[b])
      modifies this`blocks, this`waiting, this`bytesFound
      ensures Restarting(h, H(), todo) == true
    {
      ghost var h1 := H();
      var blk := blocks[b];
      if blk.nMarks == 0 {
        bytesFound := bytesFound + HBLKSIZE;
        blocks := blocks - {b};
      } else if !NearlyFull(blk) {
        var k := KeyOf(blk);
        waiting := waiting[k := [b] + if k in waiting then waiting[k] else []];
      }
      RestartStep(h, h1, H(), todo, b);
    }

    /** GC_start_reclaim: drop all lists, then visit every block. */
    method StartReclaim()
      requires forall b {:trigger blocks[b]} | b in blocks :: BlkOk(blocks[b])
      modifies this`blocks, this`lists, this`waiting, this`bytesFound
      ensures Restarting(old(H()), H(), {}) == true
    {
      ghost var h := H();
      lists, waiting := map[], map[];
      var todo := blocks.Keys;
      RestartStart(h, H());
      while todo != {}
        invariant todo <= blocks.Keys && Restarting(h, H(), todo) == true
        decreases |todo|
      {
        var b := Pick(todo);
        assert todo - {b} + {b} == todo;
        todo := todo - {b};
        assert BlkOk(h.blocks[b]);
        ReclaimBlock(b, h, todo);
      }
    }

    /** GC_finish_collection: what is not marked is no longer the client's. */
    method FinishCollection()
      requires Lax(init, H()) == true
      modifies this`blocks, this`lists, this`waiting, this`bytesFound, this`owned
      ensures Valid() == true && NoneFree(H()) == true
      ensures owned == set o | o in old(owned) && Marked(old(H()), o)
      ensures Stay(old(H()), H()) == true
    {
      ghost var h := H();
      ClearListMarks();
      ghost var h1 := H();
      OwnedStay(init, h, h1);
      StartReclaim();
      ghost var h2 := H();
      owned := set o | o in h.owned && Marked(h1, o);
      RestartedOk(init, h1, h2, owned);
      RestartedStay(h, h1, h2, owned);
    }

    /** GC_try_to_collect_inner, where the marker reaches the objects of reached (and those it finds marked). */
    method TryToCollect(stop: Stop, reached: seq<Obj>) returns (done: bool)
      requires Valid() == true
      modifies this`blocks, this`lists, this`waiting, this`clean, this`bytesFound, this`owned, this`gcNo
      ensures Valid() == true && Collected(old(H()), H(), reached, done) == true
      ensures stop.Never? ==> done
    {
      ghost var h := H();
      SweptRefl(h, true);
      if Stops(stop) {
        NotCollected(h, h, reached);
        return false;
      }
      var stop1 := Polled(stop);
      if !stop.Never? {
        done, stop1 := ReclaimAll(stop1, false);
        if !done {
          NotCollected(h, H(), reached);
          return;
        }
      }
      done := CollectNow(stop1, reached, h);
    }

    /** GC_try_to_collect_inner from where mark bits are cleared. */
    method CollectNow(stop: Stop, reached: seq<Obj>, ghost h: Heap) returns (done: bool)
      requires Valid() == true && Swept(h, H(), true) == true && Ok(init, h) == true
      requires !stop.Never? ==> NoneWait(H())
      modifies this`blocks, this`lists, this`waiting, this`bytesFound, this`owned, this`gcNo
      ensures Valid() == true && Collected(h, H(), reached, done) == true
      ensures stop.Never? ==> done
    {
      ghost var h1 := H();
      OkIsLax(init, h1);
      ClearMarks();
      ghost var h2 := H();
      done := StoppedMark(stop, reached);
      ghost var h3 := H();
      if done {
        FinishCollection();
        CollectedMarks(init, h, h1, h2, h3, H(), reached);
      } else {
        NoneWaitStill(h1, h2, h3);
        LaxIsOk(init, h3);
        NotCollected(h, h3, reached);
      }
    }

    /** One round of GC_allocobj, with the block b from GC_allochblk or 0. */
    method SweepOrExtend(gran: int, kind: int, b: int)
      requires Valid() == true && 1 <= gran <= MAXOBJGRANULES && 0 <= kind < MAXOBJKINDS && b !in blocks
      modifies this`blocks, this`lists, this`waiting, this`clean, this`bytesFound
      ensures Valid() == true && owned == old(owned) && Stay(old(H()), H()) == true
    {
      ghost var h := H();
      ContinueReclaim(gran, kind);
      if (kind, gran) !in lists || lists[(kind, gran)] == [] {
        NewHblk(gran, kind, b);
      }
    }

    /** GC_allocobj: make the free list for this size nonempty. */
    method AllocObj(gran: int, kind: int, rounds: seq<Round>) returns (ok: bool)
      requires Valid() == true && 1 <= gran <= MAXOBJGRANULES && 0 <= kind < MAXOBJKINDS
      modifies this`blocks, this`lists, this`waiting, this`clean, this`bytesFound, this`owned, this`gcNo
      ensures Valid() == true && NothingLost(old(H()), H(), rounds) == true
      ensures ok <==> FreeOf(H(), (kind, gran)) != []
    {
      ghost var h := H();
      var k, n := (kind, gran), 0;
      LostRefl(h, rounds);
      while k !in lists || lists[k] == []
        invariant 0 <= n <= |rounds| && Valid() == true && NothingLost(h, H(), rounds) == true
        decreases |rounds| - n
      {
        if n == |rounds| {
          return false;
        }
        var b, more := rounds[n].block, rounds[n].more;
        ghost var h1 := H();
        SweepOrExtend(gran, kind, if b in blocks then 0 else b);
        LostStay(h, h1, H(), rounds);
        if k !in lists || lists[k] == [] {
          match more {
            case Fail => return false;
            case Expand =>
            case Collect(stop, reached) =>
              ghost var h2 := H();
              var done := TryToCollect(stop, reached);
              LostCollected(h, h2, H(), rounds, n, done);
          }
        }
        n := n + 1;
      }
      ok := true;
    }

    /** GC_generic_malloc_inner for a small object of gran granules. */
    method GenericMallocInner(gran: int, kind: int, rounds: seq<Round>) returns (result: Option<Obj>)
      requires Valid() == true && 1 <= gran <= MAXOBJGRANULES && 0 <= kind < MAXOBJKINDS
      modifies this`blocks, this`lists, this`waiting, this`clean, this`bytesFound, this`owned, this`gcNo, this`bytesAllocd
      ensures Valid() == true
      ensures match result
              case None => NothingLost(old(H()), H(), rounds) == true
              case Some(o) => GotNew(init, old(H()), H(), o, (kind, gran), rounds) == true
    {
      var k := (kind, gran);
      var ok := true;
      if k !in lists || lists[k] == [] {
        ok := AllocObj(gran, kind, rounds);
      } else {
        LostRefl(H(), rounds);
      }
      if !ok {
        return None;
      }
      ghost var h := H();
      PopOk(init, h, k);
      PopNew(init, old(H()), h, k, rounds);
      var op := lists[k][0];
      lists := lists[k := lists[k][1..]];
      owned := owned + {op};
      bytesAllocd := bytesAllocd + Bytes(gran);
      return Some(op);
    }
  }

  ghost predicate NoneFree(h: Heap) {
    forall k {:trigger FreeOf(h, k)} :: FreeOf(h, k) == []
  }

  /** What became of the client's objects in a collection: if it was completed, those that the marker reached and the
      uncollectable ones are left; otherwise all are. */
  ghost predicate Collected(h: Heap, h1: Heap, reached: seq<Obj>, done: bool) {
    && (done ==> NoneFree(h1) && forall o {:trigger o in h1.owned} ::
          o in h1.owned <==> o in h.owned && o.block in h.blocks && (o in reached || IsUncollectable(h.blocks[o.block].kind)))
    && (!done ==> h1.owned == h.owned)
    && Stay(h, h1)
  }

  /** What the client has stays what it is. */
  ghost predicate Stay(h: Heap, h1: Heap) {
    forall o {:trigger IsObj(h1, o)} | IsObj(h, o) && o in h1.owned ::
      IsObj(h1, o) && h1.blocks[o.block].kind == h.blocks[o.block].kind
  }

  lemma RestartedStay(h: Heap, h1: Heap, h2: Heap, owned: set<Obj>)
    requires Remark(h, h1) && Restarting(h1, h2, {}) && owned == set o | o in h.owned && Marked(h1, o)
    requires forall b {:trigger h1.blocks[b]} | b in h1.blocks :: b != 0 && BlkOk(h1.blocks[b])
    ensures Stay(h, h2.(owned := owned)) == true && NoneFree(h2.(owned := owned)) == true
  {
    var h3 := h2.(owned := owned);
    forall o {:trigger IsObj(h3, o)} | IsObj(h, o) && o in owned
      ensures IsObj(h3, o) && h3.blocks[o.block].kind == h.blocks[o.block].kind
    {
      assert h1.blocks[o.block].gran == h.blocks[o.block].gran;
      assert BlkOk(h1.blocks[o.block]) && h1.blocks[o.block].nMarks != 0;
      assert o.block in h2.blocks;
    }
    forall k {:trigger FreeOf(h3, k)} ensures FreeOf(h3, k) == [] {
      assert FreeOf(h2, k) == [];
    }
  }

  /** h: before, h1: with all blocks swept or not, h2: with marks cleared, h3: with marks set, h4: finished. */
  lemma CollectedMarks(init: set<int>, h: Heap, h1: Heap, h2: Heap, h3: Heap, h4: Heap, reached: seq<Obj>)
    requires Ok(init, h) == true && Swept(h, h1, true) && AllCleared(h1, h2) && MarksSet(h2, h3, Elems(reached))
    requires h4.owned == (set o | o in h3.owned && Marked(h3, o)) && NoneFree(h4) == true && Stay(h3, h4)
    ensures Collected(h, h4, reached, true) == true
  {
    forall o {:trigger o in h4.owned}
      ensures o in h4.owned <==>
        o in h.owned && o.block in h.blocks && (o in reached || IsUncollectable(h.blocks[o.block].kind))
    {
      assert h3.owned == h.owned;
      if o in h.owned {
        CollectedMark(init, h, h1, h2, h3, reached, o);
      }
    }
    assert NoneFree(h4);
    CollectedStay(init, h, h1, h2, h3, h4, reached);
  }

  lemma CollectedStay(init: set<int>, h: Heap, h1: Heap, h2: Heap, h3: Heap, h4: Heap, reached: seq<Obj>)
    requires Ok(init, h) == true && Swept(h, h1, true) && AllCleared(h1, h2) && MarksSet(h2, h3, Elems(reached))
    requires h4.owned <= h3.owned && Stay(h3, h4)
    ensures Stay(h, h4) == true
  {
    forall o {:trigger IsObj(h4, o)} | IsObj(h, o) && o in h4.owned
      ensures IsObj(h4, o) && h4.blocks[o.block].kind == h.blocks[o.block].kind
    {
      assert o in h3.owned;
      CollectedMark(init, h, h1, h2, h3, reached, o);
    }
  }

  lemma CollectedMark(init: set<int>, h: Heap, h1: Heap, h2: Heap, h3: Heap, reached: seq<Obj>, o: Obj)
    requires Ok(init, h) == true && Swept(h, h1, true) && AllCleared(h1, h2) && MarksSet(h2, h3, Elems(reached)) && o in h.owned
    ensures IsObj(h, o) && IsObj(h3, o) && h3.blocks[o.block].kind == h.blocks[o.block].kind
    ensures Marked(h3, o) <==> (o in reached || IsUncollectable(h.blocks[o.block].kind))
  {
    assert Taken(h, o) && TakenOk(init, h, o);
    assert IsObj(h1, o) && IsObj(h2, o);
    assert Marked(h2, o) <==> (Marked(h1, o) && IsUncollectable(h1.blocks[o.block].kind));
    assert Marked(h3, o) <==> (Marked(h2, o) || o in Elems(reached));
    assert Marked(h, o) ==> Marked(h1, o);
  }

  /** The client has o, and it is uncollectable or reached by every collection in rounds. */
  ghost predicate Held(h: Heap, o: Obj, rounds: seq<Round>) {
    && o in h.owned && IsObj(h, o)
    && (IsUncollectable(h.blocks[o.block].kind) || forall n {:trigger rounds[n]} | 0 <= n < |rounds| && rounds[n].more.Collect? ::
          o in rounds[n].more.reached)
  }

  /** The client loses nothing that is held, and gets nothing. */
  ghost predicate NothingLost(h: Heap, h1: Heap, rounds: seq<Round>) {
    && h1.owned <= h.owned
    && forall o {:trigger Held(h1, o, rounds)} | Held(h, o, rounds) :: Held(h1, o, rounds)
  }

  lemma LostRefl(h: Heap, rounds: seq<Round>)
    ensures NothingLost(h, h, rounds) == true
  {
  }

  lemma LostStay(h: Heap, h1: Heap, h2: Heap, rounds: seq<Round>)
    requires NothingLost(h, h1, rounds) && h2.owned == h1.owned && Stay(h1, h2)
    ensures NothingLost(h, h2, rounds) == true
  {
    forall o {:trigger Held(h2, o, rounds)} | Held(h, o, rounds) ensures Held(h2, o, rounds) {
      assert Held(h1, o, rounds) && IsObj(h2, o);
    }
  }

  lemma LostCollected(h: Heap, h1: Heap, h2: Heap, rounds: seq<Round>, n: int, done: bool)
    requires 0 <= n < |rounds| && rounds[n].more.Collect?
    requires NothingLost(h, h1, rounds) && Collected(h1, h2, rounds[n].more.reached, done)
    ensures NothingLost(h, h2, rounds) == true
  {
    forall o {:trigger Held(h2, o, rounds)} | Held(h, o, rounds) ensures Held(h2, o, rounds) {
      assert Held(h1, o, rounds) && o in h2.owned;
      assert IsObj(h2, o);
    }
  }

  /** The client gets o, of the right kind and size and cleared if it must be, an object that was not held; otherwise
      nothing is lost. */
  ghost predicate GotNew(init: set<int>, h: Heap, h1: Heap, o: Obj, k: Key, rounds: seq<Round>) {
    && IsObj(h1, o) && KeyOf(h1.blocks[o.block]) == k && o in h1.owned && !Held(h, o, rounds)
    && (k.0 in init ==> o in h1.clean)
    && NothingLost(h, h1.(owned := h1.owned - {o}), rounds)
  }

  lemma PopNew(init: set<int>, h: Heap, h1: Heap, k: Key, rounds: seq<Round>)
    requires Ok(init, h1) == true && NothingLost(h, h1, rounds) && k in h1.lists && |h1.lists[k]| > 0
    ensures GotNew(init, h, Pop(h1, k), h1.lists[k][0], k, rounds) == true
  {
    PopOk(init, h1, k);
    var h2, o := Pop(h1, k), h1.lists[k][0];
    var h3 := h2.(owned := h2.owned - {o});
    assert Held(h, o, rounds) ==> Held(h1, o, rounds);
    assert h3.owned == h1.owned;
    forall x {:trigger Held(h3, x, rounds)} | Held(h, x, rounds) ensures Held(h3, x, rounds) {
      assert Held(h1, x, rounds);
    }
  }

  lemma NotCollected(h: Heap, h1: Heap, reached: seq<Obj>)
    requires h1.owned == h.owned && h1.blocks.Keys == h.blocks.Keys
    requires forall b {:trigger h1.blocks[b]} | b in h.blocks ::
               h1.blocks[b].kind == h.blocks[b].kind && h1.blocks[b].gran == h.blocks[b].gran
    ensures Collected(h, h1, reached, false) == true
  {
  }

  lemma NoneWaitStill(h: Heap, h1: Heap, h2: Heap)
    requires NoneWait(h) && Remark(h, h1) && Remark(h1, h2)
    ensures NoneWait(h2) && h2.owned == h.owned && h2.blocks.Keys == h.blocks.Keys
    ensures forall b {:trigger h2.blocks[b]} | b in h.blocks ::
               h2.blocks[b].kind == h.blocks[b].kind && h2.blocks[b].gran == h.blocks[b].gran
  {
    forall k {:trigger WaitOf(h2, k)} ensures WaitOf(h2, k) == [] {
      assert WaitOf(h, k) == [];
    }
  }

  lemma OwnedStay(init: set<int>, h: Heap, h1: Heap)
    requires Lax(init, h) && FreeCleared(h, h1)
    ensures forall b {:trigger h1.blocks[b]} | b in h1.blocks :: b != 0 && BlkOk(h1.blocks[b])
    ensures forall o {:trigger o in h1.owned} | o in h1.owned :: IsObj(h1, o) && (Marked(h1, o) <==> Marked(h, o))
  {
    forall o {:trigger o in h1.owned} | o in h1.owned ensures IsObj(h1, o) && (Marked(h1, o) <==> Marked(h, o)) {
      assert Taken(h, o) && TakenLax(init, h, o);
    }
  }

  /** From h to h1 just the mark bits of free objects were cleared. */
  ghost predicate FreeCleared(h: Heap, h1: Heap) {
    Remark(h, h1) && forall o {:trigger Marked(h1, o)} | IsObj(h, o) :: Marked(h1, o) <==> (Marked(h, o) && !OnFree(h, o))
  }

  predicate KeyBefore(k: Key, kind: int, sz: int) {
    k.0 < kind || (k.0 == kind && k.1 < sz)
  }

  /** The same for the lists that come before the one for this kind and size. */
  ghost predicate FreeClearedUpTo(h: Heap, h1: Heap, kind: int, sz: int) {
    Remark(h, h1) && forall o {:trigger Marked(h1, o)} | IsObj(h, o) ::
      Marked(h1, o) <==> (Marked(h, o) && !(OnFree(h, o) && KeyBefore(KeyOf(h.blocks[o.block]), kind, sz)))
  }

  lemma ListObjs(init: set<int>, h: Heap, h1: Heap, k: Key)
    requires Lax(init, h) && Remark(h, h1)
    ensures FreeOf(h1, k) == FreeOf(h, k)
    ensures forall o {:trigger o in FreeOf(h1, k)} | o in FreeOf(h1, k) :: IsObj(h1, o) && KeyOf(h.blocks[o.block]) == k
  {
    assert FreeListOk(h, k);
  }

  lemma UnsetStep(h: Heap, h1: Heap, h2: Heap, s: set<Obj>, x: Obj)
    requires MarksCleared(h, h1, s) && IsObj(h, x)
    requires h2 == if Marked(h1, x)
                   then h1.(blocks := h1.blocks[x.block := h1.blocks[x.block].(marks := h1.blocks[x.block].marks - {x.slot},
                                                                                 nMarks := h1.blocks[x.block].nMarks - 1)])
                   else h1
    ensures MarksCleared(h, h2, s + {x}) == true
  {
    assert Remark(h, h2) == true;
    forall o {:trigger Marked(h2, o)} | IsObj(h, o) ensures Marked(h2, o) <==> (Marked(h, o) && o !in s + {x}) {
      assert Marked(h1, o) <==> (Marked(h, o) && o !in s);
    }
  }

  lemma FreeClearedStep(init: set<int>, h: Heap, h1: Heap, h2: Heap, kind: int, sz: int)
    requires Lax(init, h) == true && FreeClearedUpTo(h, h1, kind, sz) && MarksCleared(h1, h2, Elems(FreeOf(h1, (kind, sz))))
    ensures FreeClearedUpTo(h, h2, kind, sz + 1) == true
    ensures sz == MAXOBJGRANULES ==> FreeClearedUpTo(h, h2, kind + 1, 1) == true
  {
    ListObjs(init, h, h1, (kind, sz));
    forall o {:trigger Marked(h2, o)} | IsObj(h, o)
      ensures Marked(h2, o) <==> (Marked(h, o) && !(OnFree(h, o) && KeyBefore(KeyOf(h.blocks[o.block]), kind, sz + 1)))
    {
      assert IsObj(h1, o);
      assert Marked(h1, o) <==> (Marked(h, o) && !(OnFree(h, o) && KeyBefore(KeyOf(h.blocks[o.block]), kind, sz)));
    }
    forall o {:trigger OnFree(h, o)} | OnFree(h, o) && sz == MAXOBJGRANULES
      ensures KeyBefore(KeyOf(h.blocks[o.block]), kind, sz + 1) <==> KeyBefore(KeyOf(h.blocks[o.block]), kind + 1, 1)
    {
      assert FreeListOk(h, KeyOf(h.blocks[o.block])) && BlkOk(h.blocks[o.block]);
    }
  }

  lemma FreeClearedAll(init: set<int>, h: Heap, h1: Heap)
    requires Lax(init, h) == true && FreeClearedUpTo(h, h1, MAXOBJKINDS, 1)
    ensures FreeCleared(h, h1) == true
  {
    forall o {:trigger Marked(h1, o)} | IsObj(h, o) ensures Marked(h1, o) <==> (Marked(h, o) && !OnFree(h, o)) {
      assert BlkOk(h.blocks[o.block]);
    }
  }

  lemma RestartStart(h: Heap, h1: Heap)
    requires h1 == h.(lists := map[], waiting := map[])
    ensures Restarting(h, h1, h.blocks.Keys) == true
  {
    forall k {:trigger WaitListOk(h1, k)} ensures WaitListOk(h1, k) {
      assert WaitOf(h1, k) == [];
    }
  }

  lemma RestartStep(h: Heap, h1: Heap, h2: Heap, todo: set<int>, b: int)
    requires Restarting(h, h1, todo + {b}) && b in h1.blocks && b !in todo && BlkOk(h1.blocks[b])
    requires var blk := h1.blocks[b];
      h2 == if blk.nMarks == 0 then h1.(blocks := h1.blocks - {b})
            else if !NearlyFull(blk) then h1.(waiting := h1.waiting[KeyOf(blk) := [b] + WaitOf(h1, KeyOf(blk))])
            else h1
    ensures Restarting(h, h2, todo) == true
  {
    var blk := h1.blocks[b];
    assert !Awaits(h1, b);
    forall q {:trigger FreeOf(h2, q)} ensures FreeOf(h2, q) == [] {
      assert FreeOf(h1, q) == [];
    }
    forall q {:trigger WaitListOk(h2, q)} ensures WaitListOk(h2, q) {
      assert WaitListOk(h1, q);
      if h2.waiting != h1.waiting && q == KeyOf(blk) {
        assert WaitOf(h2, q) == [b] + WaitOf(h1, q);
        NoDupConcat([b], WaitOf(h1, q));
      } else {
        assert WaitOf(h2, q) == WaitOf(h1, q);
        assert b !in WaitOf(h1, q);
      }
    }
    forall c {:trigger Awaits(h2, c)} | c in h2.blocks && h2.blocks[c].gran > 0
      ensures Awaits(h2, c) <==> c !in todo && !NearlyFull(h2.blocks[c])
    {
      assert Awaits(h1, c) <==> c !in todo + {b} && !NearlyFull(h1.blocks[c]);
    }
    assert forall c {:trigger c in h2.blocks} | c in h.blocks && c !in todo :: c in h2.blocks <==> h.blocks[c].nMarks != 0;
  }

  /** The mark bits of all blocks but those in todo were cleared, except for uncollectable objects. */
  ghost predicate ClearedBut(h: Heap, h1: Heap, todo: set<int>) {
    Remark(h, h1) && forall o {:trigger Marked(h1, o)} | IsObj(h, o) ::
      Marked(h1, o) <==> (Marked(h, o) && (o.block in todo || IsUncollectable(h.blocks[o.block].kind)))
  }

  lemma ClearStart(h: Heap)
    ensures ClearedBut(h, h, h.blocks.Keys) == true
  {
  }

  lemma ClearStep(h: Heap, h1: Heap, h2: Heap, todo: set<int>, b: int)
    requires ClearedBut(h, h1, todo + {b}) && b !in todo && b in h1.blocks
    requires h2 == if IsUncollectable(h1.blocks[b].kind) then h1
                   else h1.(blocks := h1.blocks[b := h1.blocks[b].(marks := {}, nMarks := 0)])
    ensures ClearedBut(h, h2, todo) == true
  {
    forall o {:trigger Marked(h2, o)} | IsObj(h, o)
      ensures Marked(h2, o) <==> (Marked(h, o) && (o.block in todo || IsUncollectable(h.blocks[o.block].kind)))
    {
      assert Marked(h1, o) <==> (Marked(h, o) && (o.block in todo + {b} || IsUncollectable(h.blocks[o.block].kind)));
    }
  }

  lemma SetStep(init: set<int>, h: Heap, h1: Heap, o: Obj)
    requires Lax(init, h)
    requires h1 == if IsObj(h, o) && !Marked(h, o)
                   then h.(blocks := h.blocks[o.block := h.blocks[o.block].(marks := h.blocks[o.block].marks + {o.slot},
                                                                              nMarks := h.blocks[o.block].nMarks + 1)])
                   else h
    ensures MarksSet(h, h1, {o}) == true
  {
    if h1 != h {
      assert BlkOk(h.blocks[o.block]) && BlkOk(h1.blocks[o.block]);
      assert Remark(h, h1) == true;
    }
  }

  lemma SetTrans(h: Heap, h1: Heap, h2: Heap, s: set<Obj>, x: Obj)
    requires MarksSet(h, h1, s) && MarksSet(h1, h2, {x})
    ensures MarksSet(h, h2, s + {x}) == true
  {
    forall o {:trigger Marked(h2, o)} | IsObj(h, o) ensures Marked(h2, o) <==> Marked(h, o) || o in s + {x} {
      assert IsObj(h1, o) && (Marked(h1, o) <==> Marked(h, o) || o in s);
    }
  }

  lemma WriteOk(init: set<int>, h: Heap, o: Obj)
    requires Ok(init, h) == true && o in h.owned
    ensures Ok(init, h.(clean := h.clean - {o})) == true
  {
    var h1 := h.(clean := h.clean - {o});
    forall q {:trigger FreeListOk(h1, q)} ensures FreeListOk(h1, q) {
      assert FreeListOk(h, q) && FreeOf(h1, q) == FreeOf(h, q);
    }
    forall q {:trigger WaitListOk(h1, q)} ensures WaitListOk(h1, q) {
      assert WaitListOk(h, q) && WaitOf(h1, q) == WaitOf(h, q);
    }
    forall x {:trigger TakenOk(init, h1, x)} | Taken(h1, x) ensures TakenOk(init, h1, x) {
      assert Taken(h, x) && TakenOk(init, h, x);
    }
  }

  lemma SweptSome(h: Heap, h1: Heap, all: bool)
    requires Swept(h, h1, true)
    ensures Swept(h, h1, all) == true
  {
  }

  /** The reclaim lists other than list k are the same. */
  ghost predicate OthersWait(h: Heap, h1: Heap, k: Key) {
    forall q {:trigger WaitOf(h1, q)} | q != k :: WaitOf(h1, q) == WaitOf(h, q)
  }

  lemma OthersWaitStep(h: Heap, h1: Heap, h2: Heap, k: Key)
    requires OthersWait(h, h1, k) && k in h1.waiting && |h1.waiting[k]| > 0 && h2.waiting == h1.waiting[k := h1.waiting[k][1..]]
    ensures OthersWait(h, h2, k) == true
  {
    forall q {:trigger WaitOf(h2, q)} | q != k ensures WaitOf(h2, q) == WaitOf(h, q) {
      assert WaitOf(h1, q) == WaitOf(h, q);
    }
  }

  ghost predicate NoneWait(h: Heap) {
    forall k {:trigger WaitOf(h, k)} :: WaitOf(h, k) == []
  }

  /** The reclaim lists that come before the one for this kind and size are empty. */
  ghost predicate EmptyUpTo(h: Heap, kind: int, sz: int) {
    forall k: Key {:trigger WaitOf(h, k)} | 0 <= k.0 && 1 <= k.1 <= MAXOBJGRANULES && (k.0 < kind || (k.0 == kind && k.1 < sz)) ::
      WaitOf(h, k) == []
  }

  lemma EmptyNext(h: Heap, h1: Heap, kind: int, sz: int)
    requires EmptyUpTo(h, kind, sz) && WaitOf(h1, (kind, sz)) == []
    requires OthersWait(h, h1, (kind, sz))
    ensures EmptyUpTo(h1, kind, sz + 1) == true && (sz == MAXOBJGRANULES ==> EmptyUpTo(h1, kind + 1, 1) == true)
  {
  }

  lemma NoHeapOk(init: set<int>)
    ensures Ok(init, Heap(map[], map[], map[], {}, {})) == true
  {
    var h := Heap(map[], map[], map[], {}, {});
    forall k {:trigger FreeListOk(h, k)} ensures FreeListOk(h, k) {
      assert FreeOf(h, k) == [];
    }
    forall k {:trigger WaitListOk(h, k)} ensures WaitListOk(h, k) {
      assert WaitOf(h, k) == [];
    }
  }
}
