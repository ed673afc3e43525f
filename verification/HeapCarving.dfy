/** Carving free blocks up: taking the first part, cutting a block in two, and handing a block out. */
module HeapCarving {
  import opened Sizes
  import opened Collections
  import opened HeaderIndex
  import opened HeapShape

  /** The free block h may be carved up: everything else is in order and the block behind it is not free. */
  ghost predicate Chosen(v: View, owner: map<int, int>, lists: seq<seq<int>>, h: int) {
    && Tiled(v, owner)
    && FreeHead(v, h)
    && |lists| == N_LISTS
    && Placed(v, lists, {h})
    && NoAdjacentBut(v, h)
    && GapAfter(v, h)
  }

  lemma SoundChosen(v: View, owner: map<int, int>, fl: seq<int>, fb: seq<int>, lists: seq<seq<int>>, h: int)
    requires Sound(v, owner, fl, fb, lists, 0) && FreeHead(v, h)
    ensures Chosen(v, owner, lists, h)
  {
    assert GapAfter(v, h);
  }

  /** Block h with its size cut down to sz bytes. */
  function Cut(v: View, h: int, sz: int): View
    requires IsHead(v, h)
  {
    v[h := Header(v[h].hdr.(sz := sz))]
  }

  /** The listed blocks of a chosen heap are free, so relinking them leaves the used blocks alone. */
  lemma ChosenRelink(v: View, owner: map<int, int>, lists: seq<seq<int>>, h: int, i: int, v1: View,
                     lists1: seq<seq<int>>)
    requires Chosen(v, owner, lists, h) && SameShape(v, v1) && 0 <= i < N_LISTS && MinusOne(lists, lists1, h)
    requires forall b | b in v && b !in lists[i] :: v1[b] == v[b]
    ensures SameUsed(v, v1) && UnlistedIn(lists1, h) && h > 0 && (forall n | h < n < h + Len(v[h].hdr) :: n !in v)
    ensures v[h].hdr.sz % HBLKSIZE == 0
  {
    RelinkKeepsUsed(v, v1, lists, i, h);
    HeadOwnsItself(v, owner, 0, h);
    assert Extent(v, owner, h);
    forall n | h < n < h + Len(v[h].hdr) ensures n !in v {
      InsideIsEmpty(v, owner, h, n);
    }
  }

  /** All of the chosen block h is taken off its list. */
  lemma TakeWhole(v: View, owner: map<int, int>, lists: seq<seq<int>>, h: int, v1: View, lists1: seq<seq<int>>)
    requires Chosen(v, owner, lists, h) && SameShape(v, v1) && MinusOne(lists, lists1, h)
    ensures Loose(v1, owner, lists1, h) && FreeSet(v1, owner) == FreeSet(v, owner)
    ensures Cut(v1, h, v1[h].hdr.sz) == v1
  {
    SameShapeTiled(v, v1, owner, 0);
    PlacedAfterRemove(v, v1, lists, lists1, h, h);
    assert {h, h} == {h};
    forall g {:trigger GapAfter(v1, g)} | FreeHead(v1, g) && g != h && g + Len(v1[g].hdr) != h
      ensures GapAfter(v1, g)
    {
      assert FreeHead(v, g) && GapAfter(v, g);
    }
  }

  /** The header of the rest of a block that is carved up. */
  function WithRest(v: View, h: int, bytes: int, junk: Hdr): View
    requires IsHead(v, h)
  {
    v[h + bytes / HBLKSIZE := Header(junk.(sz := v[h].hdr.sz - bytes, free := true))]
  }

  /** Two free blocks that have yet to be dealt with: the part h in front and the rest n. */
  ghost predicate Halves(v: View, owner: map<int, int>, lists: seq<seq<int>>, h: int, n: int) {
    && Tiled(v, owner) && |lists| == N_LISTS && FreeHead(v, h) && FreeHead(v, n) && h != n
    && UnlistedIn(lists, h) && UnlistedIn(lists, n)
    && Placed(v, lists, {h, n}) && NoAdjacentBut(v, h)
  }

  /** After cutting the chosen block h at bytes, the rest is a free block of its own. */
  lemma TakePart(v: View, owner: map<int, int>, lists: seq<seq<int>>, h: int, v1: View, lists1: seq<seq<int>>,
                 bytes: int, junk: Hdr)
    requires Chosen(v, owner, lists, h) && SameShape(v, v1) && MinusOne(lists, lists1, h)
    requires 0 < bytes < v[h].hdr.sz && bytes % HBLKSIZE == 0
    ensures var v2, n := Cut(WithRest(v1, h, bytes, junk), h, bytes), h + bytes / HBLKSIZE;
      var owner2 := SplitOwner(v1, owner, h, n);
      && n !in v && n > 0 && Halves(v2, owner2, lists1, h, n) == true
      && owner2.Keys == owner.Keys && FreeSet(v2, owner2) == FreeSet(v, owner)
  {
    SameShapeTiled(v, v1, owner, 0);
    PlacedAfterRemove(v, v1, lists, lists1, h, h);
    var n := h + bytes / HBLKSIZE;
    var v2 := Cut(WithRest(v1, h, bytes, junk), h, bytes);
    HeadOwnsItself(v1, owner, 0, h);
    assert Extent(v1, owner, h);
    assert Split(v1, h, n, v2);
    TiledSplit(v1, owner, h, n, v2);
    PartPlaced(v1, lists1, h, n, v2);
    PartGaps(v, owner, h, v1, n, v2);
  }

  lemma PartPlaced(v1: View, lists1: seq<seq<int>>, h: int, n: int, v2: View)
    requires |lists1| == N_LISTS && Placed(v1, lists1, {h}) && UnlistedIn(lists1, h) && n !in v1
    requires Split(v1, h, n, v2)
    ensures UnlistedIn(lists1, n) && Placed(v2, lists1, {h, n})
  {
    forall i, x | 0 <= i < N_LISTS && x in lists1[i]
      ensures x != n && FreeHead(v2, x) && Len(v2[x].hdr) >= 0 && HblkFlFromBlocks(Len(v2[x].hdr)) == i
    {
      assert FreeHead(v1, x);
    }
    forall x | FreeHead(v2, x) && x !in {h, n}
      ensures Len(v2[x].hdr) >= 0 && x in lists1[HblkFlFromBlocks(Len(v2[x].hdr))]
    {
      assert FreeHead(v1, x);
    }
  }

  lemma PartGaps(v: View, owner: map<int, int>, h: int, v1: View, n: int, v2: View)
    requires Tiled(v, owner) && FreeHead(v, h) && NoAdjacentBut(v, h) && GapAfter(v, h) && SameShape(v, v1)
    requires Split(v1, h, n, v2) && n !in v
    ensures NoAdjacentBut(v2, h)
  {
    HeadOwnsItself(v, owner, 0, h);
    assert Extent(v, owner, h);
    forall g {:trigger GapAfter(v2, g)} | FreeHead(v2, g) && g != h && g + Len(v2[g].hdr) != h
      ensures GapAfter(v2, g)
    {
      if g != n {
        assert FreeHead(v, g) && GapAfter(v, g);
        EndsInside(v, owner, g, h, n);
      }
    }
  }

  /** No block ends strictly inside another. */
  lemma EndsInside(v: View, owner: map<int, int>, g: int, h: int, n: int)
    requires Tiled(v, owner) && IsHead(v, g) && IsHead(v, h) && g != h && h < n < h + Len(v[h].hdr)
    ensures g + Len(v[g].hdr) != n
  {
    HeadOwnsItself(v, owner, 0, g);
    HeadOwnsItself(v, owner, 0, h);
    assert Extent(v, owner, g) && Extent(v, owner, h);
    assert n - 1 in owner && owner[n - 1] == h;
  }

  /** The rest n is listed: only the part h in front of it remains to be dealt with. */
  lemma RestListed(v: View, owner: map<int, int>, lists: seq<seq<int>>, h: int, n: int, v1: View, i: int)
    requires Halves(v, owner, lists, h, n)
    requires SameShape(v, v1) && v[n].hdr.sz >= 0 && i == BinOf(v[n].hdr)
    ensures Loose(v1, owner, lists[i := [n] + lists[i]], h) == true && FreeSet(v1, owner) == FreeSet(v, owner)
  {
    SameShapeTiled(v, v1, owner, 0);
    var lists1 := lists[i := [n] + lists[i]];
    forall g | FreeHead(v1, g) && g != h ensures Len(v1[g].hdr) >= 0 && g in lists1[HblkFlFromBlocks(Len(v1[g].hdr))] {
      assert FreeHead(v, g);
    }
    forall k, g | 0 <= k < N_LISTS && g in lists1[k]
      ensures g != h && FreeHead(v1, g) && Len(v1[g].hdr) >= 0 && HblkFlFromBlocks(Len(v1[g].hdr)) == k
    {
      assert g != n ==> g in lists[k] && g != h && FreeHead(v, g);
    }
    forall g {:trigger GapAfter(v1, g)} | FreeHead(v1, g) && g != h && g + Len(v1[g].hdr) != h
      ensures GapAfter(v1, g)
    {
      assert FreeHead(v, g) && GapAfter(v, g);
    }
  }

  /** The rest n was given a header and pushed on list i. */
  ghost predicate RestPushed(v1: View, lists1: seq<seq<int>>, n: int, rhdr: Hdr, i: int,
                             v2: View, lists2: seq<seq<int>>) {
    && |lists1| == N_LISTS && 0 <= i < N_LISTS && rhdr.sz >= 0 && i == BinOf(rhdr)
    && lists2 == lists1[i := [n] + lists1[i]]
    && SameShape(MarkFree(v1[n := Header(rhdr)], n), v2)
    && forall b | b in v1 && b != n && b !in lists1[i] :: v2[b] == v1[b]
  }

  /** What the steps of GC_get_first_part add up to when part of the block is left over. */
  lemma PartDone(v: View, owner: map<int, int>, lists: seq<seq<int>>, h: int, v1: View, lists1: seq<seq<int>>,
                 bytes: int, rhdr: Hdr, i: int, v2: View, lists2: seq<seq<int>>)
    requires Chosen(v, owner, lists, h) == true && SameShape(v, v1) == true && SameUsed(v, v1) == true
    requires MinusOne(lists, lists1, h) && IsHead(v1, h)
    requires 0 < bytes < v[h].hdr.sz && bytes % HBLKSIZE == 0 && rhdr.sz == v1[h].hdr.sz - bytes
    requires RestPushed(v1, lists1, h + bytes / HBLKSIZE, rhdr, i, v2, lists2)
    ensures var owner2 := SplitOwner(v1, owner, h, h + bytes / HBLKSIZE);
      && IsHead(v2, h)
      && Loose(Cut(v2, h, bytes), owner2, lists2, h) == true
      && owner2.Keys == owner.Keys && FreeSet(Cut(v2, h, bytes), owner2) == FreeSet(v, owner)
      && SameUsed(v, v2)
  {
    var n := h + bytes / HBLKSIZE;
    TakePart(v, owner, lists, h, v1, lists1, bytes, rhdr);
    PartShape(v1, h, bytes, rhdr, v2);
    var vc, owner2 := Cut(WithRest(v1, h, bytes, rhdr), h, bytes), SplitOwner(v1, owner, h, n);
    RestListed(vc, owner2, lists1, h, n, Cut(v2, h, bytes), i);
    PartUsed(v, owner, lists, h, v1, lists1, n, rhdr, i, v2, lists2);
  }

  lemma PartShape(v1: View, h: int, bytes: int, rhdr: Hdr, v2: View)
    requires IsHead(v1, h) && h + bytes / HBLKSIZE != h && rhdr.sz == v1[h].hdr.sz - bytes
    requires var n := h + bytes / HBLKSIZE; SameShape(MarkFree(v1[n := Header(rhdr)], n), v2)
    ensures IsHead(v2, h) && SameShape(Cut(WithRest(v1, h, bytes, rhdr), h, bytes), Cut(v2, h, bytes)) == true
  {
  }

  lemma PartUsed(v: View, owner: map<int, int>, lists: seq<seq<int>>, h: int, v1: View, lists1: seq<seq<int>>,
                 n: int, rhdr: Hdr, i: int, v2: View, lists2: seq<seq<int>>)
    requires Chosen(v, owner, lists, h) && SameUsed(v, v1) && MinusOne(lists, lists1, h)
    requires n !in v && n !in v1 && RestPushed(v1, lists1, n, rhdr, i, v2, lists2)
    ensures SameUsed(v, v2)
  {
    forall g ensures IsUsed(v2, g) == IsUsed(v, g) && (IsUsed(v, g) ==> v2[g] == v[g]) {
      if IsUsed(v, g) {
        assert IsUsed(v1, g) && g != h && g !in lists[i] && g !in lists1[i];
      }
    }
  }

  /** Handing out the loose block h: v1 holds its used header and its forwarding counts. */
  lemma Grant(v: View, owner: map<int, int>, fl: seq<int>, fb: seq<int>, lists: seq<seq<int>>, h: int,
              bytes: int, v1: View, hdr: Hdr)
    requires IsHead(v, h) && Loose(Cut(v, h, bytes), owner, lists, h) && ListsOk(v, fl, fb, lists)
    requires !hdr.free && hdr.sz > 0 && HBLKSIZE * Len(hdr) == bytes
    requires CountsInstalled(v, v1, h, h + bytes / HBLKSIZE) && forall b | b in v1 :: v1[b] != Nil
    ensures IsHead(v1, h)
    ensures var vc, v2 := Cut(v, h, bytes), v1[h := Header(hdr)];
      && Sound(v2, owner, fl, fb, lists, 0) == true
      && FreeSet(v2, owner) == FreeSet(vc, owner) - Interval(h, h + Len(vc[h].hdr))
      && Interval(h, h + Len(vc[h].hdr)) <= FreeSet(vc, owner)
      && |FreeSet(v2, owner)| == |FreeSet(vc, owner)| - Len(vc[h].hdr)
      && Granted(v, v2, h)
  {
    GrantAllocated(v, owner, h, bytes, v1, hdr);
    GrantSound(v, owner, fl, fb, lists, h, bytes, v1[h := Header(hdr)]);
  }

  lemma GrantSound(v: View, owner: map<int, int>, fl: seq<int>, fb: seq<int>, lists: seq<seq<int>>, h: int,
                   bytes: int, v2: View)
    requires IsHead(v, h) && Loose(Cut(v, h, bytes), owner, lists, h) == true && ListsOk(v, fl, fb, lists) == true
    requires FreeHead(Cut(v, h, bytes), h) && Allocated(Cut(v, h, bytes), h, v2) == true
    ensures var vc := Cut(v, h, bytes);
      && Sound(v2, owner, fl, fb, lists, 0) == true
      && FreeSet(v2, owner) == FreeSet(vc, owner) - Interval(h, h + Len(vc[h].hdr))
      && Interval(h, h + Len(vc[h].hdr)) <= FreeSet(vc, owner)
      && |FreeSet(v2, owner)| == |FreeSet(vc, owner)| - Len(vc[h].hdr)
      && Granted(v, v2, h) == true
  {
    GrantLists(v, owner, fl, fb, lists, h, bytes, v2);
    GrantShape(Cut(v, h, bytes), owner, lists, h, v2);
    SoundFrom(v2, owner, fl, fb, lists, 0);
    GrantedCut(v, h, bytes, v2);
  }

  lemma GrantedCut(v: View, h: int, bytes: int, v2: View)
    requires FreeHead(v, h) && Granted(Cut(v, h, bytes), v2, h)
    ensures Granted(v, v2, h) == true
  {
  }

  lemma GrantShape(v: View, owner: map<int, int>, lists: seq<seq<int>>, h: int, v1: View)
    requires Loose(v, owner, lists, h) && Allocated(v, h, v1)
    ensures SoundShape(v1, owner, lists) == true
    ensures FreeSet(v1, owner) == FreeSet(v, owner) - Interval(h, h + Len(v[h].hdr))
    ensures Interval(h, h + Len(v[h].hdr)) <= FreeSet(v, owner)
    ensures |FreeSet(v1, owner)| == |FreeSet(v, owner)| - Len(v[h].hdr)
    ensures Granted(v, v1, h) == true
  {
    TiledAlloc(v, owner, h, v1);
    GrantUsed(v, owner, h, v1);
    GrantPlaced(v, owner, lists, h, v1);
    HeadOwnsItself(v, owner, 0, h);
    SetMinus(FreeSet(v, owner), Interval(h, h + Len(v[h].hdr)));
  }

  lemma SetMinus(a: set<int>, b: set<int>)
    requires b <= a
    ensures |a - b| == |a| - |b|
  {
    assert a == (a - b) + b;
  }

  lemma GrantAllocated(v: View, owner: map<int, int>, h: int, bytes: int, v1: View, hdr: Hdr)
    requires FreeHead(v, h) && Tiled(Cut(v, h, bytes), owner)
    requires !hdr.free && hdr.sz > 0 && HBLKSIZE * Len(hdr) == bytes
    requires CountsInstalled(v, v1, h, h + bytes / HBLKSIZE) && forall b | b in v1 :: v1[b] != Nil
    ensures IsHead(v1, h) && Allocated(Cut(v, h, bytes), h, v1[h := Header(hdr)])
  {
    var vc, v2 := Cut(v, h, bytes), v1[h := Header(hdr)];
    assert At(v1, h) == At(v, h);
    forall b | b != h ensures At(v2, b) == if h < b < h + Len(vc[h].hdr) then CountFor(h, b) else At(vc, b) {
      assert At(v1, b) == if h < b < h + bytes / HBLKSIZE then CountFor(h, b) else At(v, b);
    }
  }

  lemma GrantLists(v: View, owner: map<int, int>, fl: seq<int>, fb: seq<int>, lists: seq<seq<int>>, h: int,
                   bytes: int, v2: View)
    requires IsHead(v, h) && Loose(Cut(v, h, bytes), owner, lists, h) && ListsOk(v, fl, fb, lists)
    requires Allocated(Cut(v, h, bytes), h, v2)
    ensures ListsOk(v2, fl, fb, lists) == true
  {
    var vc := Cut(v, h, bytes);
    forall i, x | 0 <= i < N_LISTS && x in lists[i] ensures x in v && x in v2 && v2[x] == v[x] {
      assert FreeHead(vc, x) && x != h;
      FreeUntouched(vc, owner, h, v2, x);
    }
    ListsFrame(v, v2, fl, fb, lists);
  }

  /** Free heads other than h keep their slots. */
  lemma FreeUntouched(v: View, owner: map<int, int>, h: int, v1: View, x: int)
    requires Tiled(v, owner) && Allocated(v, h, v1) && IsHead(v, x) && x != h
    ensures x in v1 && v1[x] == v[x]
  {
    HeadOwnsItself(v, owner, 0, x);
    assert Extent(v, owner, h);
    assert At(v1, x) == At(v, x);
  }

  lemma GrantUsed(v: View, owner: map<int, int>, h: int, v1: View)
    requires Tiled(v, owner) && Allocated(v, h, v1)
    ensures Granted(v, v1, h)
  {
    forall g | g != h ensures IsUsed(v1, g) == IsUsed(v, g) && (IsUsed(v, g) ==> v1[g] == v[g]) {
      assert At(v1, g) == if h < g < h + Len(v[h].hdr) then CountFor(h, g) else At(v, g);
      if IsHead(v, g) {
        FreeUntouched(v, owner, h, v1, g);
      }
    }
  }

  lemma GrantPlaced(v: View, owner: map<int, int>, lists: seq<seq<int>>, h: int, v1: View)
    requires Loose(v, owner, lists, h) && Allocated(v, h, v1)
    ensures Placed(v1, lists, {}) && NoAdjacent(v1)
  {
    forall g | FreeHead(v1, g) ensures g != h && FreeHead(v, g) && v1[g] == v[g] {
      assert At(v1, g) == if h < g < h + Len(v[h].hdr) then CountFor(h, g) else At(v, g);
    }
    forall i, x | 0 <= i < N_LISTS && x in lists[i]
      ensures FreeHead(v1, x) && Len(v1[x].hdr) >= 0 && HblkFlFromBlocks(Len(v1[x].hdr)) == i
    {
      assert FreeHead(v, x);
      FreeUntouched(v, owner, h, v1, x);
    }
    forall g {:trigger GapAfter(v1, g)} | FreeHead(v1, g) ensures GapAfter(v1, g) {
      assert FreeHead(v, g) && (g + Len(v[g].hdr) != h ==> GapAfter(v, g));
    }
  }

  lemma GrantedChain(v: View, v1: View, v2: View, v3: View, h: int)
    requires SameUsed(v, v1) && SameUsed(v1, v2) && Granted(v2, v3, h)
    ensures Granted(v, v3, h) == true
  {
  }

  /** setup_header, for a kind with the default descriptor. */
  function SetUp(h: Hdr, sz: int, kind: int, flags: int): Hdr {
    h.(sz := sz, free := false, kind := kind, flags := flags, mark0 := false, nMarks := 0)
  }

  /** Slot b holds the header of a fresh object of this size, kind and flags, with no mark set. */
  predicate FreshHeader(v: View, b: int, sz: int, kind: int, flags: int) {
    IsHead(v, b) && v[b].hdr == SetUp(v[b].hdr, sz, kind, flags)
  }

  // -------------------------------------------------------------------------------- GC_split_block

  /** Block n takes the place of block h between the neighbours of h. */
  function Replace(v: View, h: int, n: int, nhdr: Hdr): View
    requires Unlinkable(v, h)
  {
    var p, x := v[h].hdr.prev, v[h].hdr.next;
    var v1 := v[n := Header(nhdr.(prev := p, next := x))];
    var v2 := if p == 0 then v1 else v1[p := Header(v1[p].hdr.(next := n))];
    if x == 0 then v2 else v2[x := Header(v2[x].hdr.(prev := n))]
  }

  lemma ListReplace(v: View, head: int, s: seq<int>, j: nat, n: int, nhdr: Hdr)
    requires ListOk(v, head, s) && j < |s| && n !in v && n != 0
    ensures NodeOk(v, s, j)
    ensures j > 0 ==> NodeOk(v, s, j - 1)
    ensures j + 1 < |s| ==> NodeOk(v, s, j + 1)
    ensures var v1 := Replace(v, s[j], n, nhdr);
      && ListOk(v1, if j == 0 then n else head, s[j := n])
      && v1.Keys == v.Keys + {n} && v1[s[j]] == v[s[j]]
      && SameShape(v[n := Header(nhdr)], v1)
      && forall b | b in v && b !in s :: v1[b] == v[b]
  {
    assert NodeOk(v, s, j);
    assert j > 0 ==> NodeOk(v, s, j - 1);
    assert j + 1 < |s| ==> NodeOk(v, s, j + 1);
    forall k | 0 <= k < |s| ensures s[k] in v {
      assert NodeOk(v, s, k);
    }
    var s1 := s[j := n];
    var v1 := Replace(v, s[j], n, nhdr);
    forall k {:trigger NodeOk(v1, s1, k)} | 0 <= k < |s1| ensures NodeOk(v1, s1, k) {
      assert NodeOk(v, s, k);
    }
  }

  lemma SumSzReplace(v: View, v1: View, s: seq<int>, s1: seq<int>, j: nat)
    requires |s| == |s1| && j < |s| && Heads(v, s) && Heads(v1, s1)
    requires forall k | 0 <= k < |s| && k != j :: v1[s1[k]].hdr.sz == v[s[k]].hdr.sz
    ensures SumSz(v1, s1) - v1[s1[j]].hdr.sz == SumSz(v, s) - v[s[j]].hdr.sz
  {
    if j == 0 {
      SumSzPointwise(v, v1, s[1..], s1[1..]);
    } else {
      assert v1[s1[0]].hdr.sz == v[s[0]].hdr.sz;
      SumSzReplace(v, v1, s[1..], s1[1..], j - 1);
    }
  }

  lemma SumSzPointwise(v: View, v1: View, s: seq<int>, s1: seq<int>)
    requires |s| == |s1| && Heads(v, s) && Heads(v1, s1)
    requires forall k | 0 <= k < |s| :: v1[s1[k]].hdr.sz == v[s[k]].hdr.sz
    ensures SumSz(v1, s1) == SumSz(v, s)
  {
  }

  /** On list i, block n stands where h stood; nothing else moved. */
  ghost predicate Swapped(lists: seq<seq<int>>, lists1: seq<seq<int>>, i: int, h: int, n: int) {
    |lists1| == |lists| &&
    forall k, y | 0 <= k < |lists| :: y in lists1[k] <==> (y in lists[k] && y != h) || (k == i && y == n)
  }

  lemma SwappedMembers(s: seq<int>, j: nat, n: int)
    requires NoDup(s) && j < |s|
    ensures forall y :: y in s[j := n] <==> (y in s && y != s[j]) || y == n
  {
    forall y | y in s && y != s[j] ensures y in s[j := n] {
      var k :| 0 <= k < |s| && s[k] == y;
      assert s[j := n][k] == y;
    }
    assert s[j := n][j] == n;
  }

  lemma OneListReplace(v: View, head: int, bytes: int, s: seq<int>, j: nat, n: int, nhdr: Hdr)
    requires OneListOk(v, head, bytes, s) && j < |s| && n !in v && n != 0
    ensures Unlinkable(v, s[j]) && (j == 0) == (v[s[j]].hdr.prev == 0) && n !in s
    ensures var v1 := Replace(v, s[j], n, nhdr);
      && OneListOk(v1, if j == 0 then n else head, bytes - (v[s[j]].hdr.sz - nhdr.sz), s[j := n])
      && SameShape(v[n := Header(nhdr)], v1) && v1.Keys == v.Keys + {n} && v1[s[j]] == v[s[j]]
      && forall b | b in v && b !in s :: v1[b] == v[b]
  {
    ListReplace(v, head, s, j, n, nhdr);
    var v1, s1 := Replace(v, s[j], n, nhdr), s[j := n];
    forall k | 0 <= k < |s1| ensures IsHead(v1, s1[k]) && (k != j ==> v1[s1[k]].hdr.sz == v[s[k]].hdr.sz) {
      assert IsHead(v, s[k]);
    }
    SumSzReplace(v, v1, s, s1, j);
  }

  lemma ListsReplace(v: View, fl: seq<int>, fb: seq<int>, lists: seq<seq<int>>, i: int, j: nat, n: int, nhdr: Hdr)
    requires ListsOk(v, fl, fb, lists) && 0 <= i < N_LISTS && j < |lists[i]| && n !in v && n != 0
    ensures Unlinkable(v, lists[i][j])
    ensures var h := lists[i][j];
      var v1, lists1 := Replace(v, h, n, nhdr), lists[i := lists[i][j := n]];
      && ListsOk(v1, if v[h].hdr.prev == 0 then fl[i := n] else fl,
                 fb[i := fb[i] - (v[h].hdr.sz - nhdr.sz)], lists1)
      && SameShape(v[n := Header(nhdr)], v1) && v1[h] == v[h]
      && (forall b | b in v && b !in lists[i] :: v1[b] == v[b])
      && Swapped(lists, lists1, i, h, n) && UnlistedIn(lists1, h)
  {
    assert OneListOk(v, fl[i], fb[i], lists[i]);
    OneListReplace(v, fl[i], fb[i], lists[i], j, n, nhdr);
    SwappedMembers(lists[i], j, n);
    var h := lists[i][j];
    var v1, s1 := Replace(v, h, n, nhdr), lists[i][j := n];
    assert OnlyOn(lists, i, h);
    forall k | 0 <= k < N_LISTS && k != i ensures OneListOk(v1, fl[k], fb[k], lists[k]) && n !in lists[k] {
      assert OneListOk(v, fl[k], fb[k], lists[k]);
      forall x | x in lists[k] ensures x !in lists[i] {
        assert OnlyOn(lists, k, x);
      }
      OneListFrame(v, v1, fl[k], fb[k], lists[k]);
    }
    var lists1 := lists[i := s1];
    forall k, y {:trigger OnlyOn(lists1, k, y)} | 0 <= k < N_LISTS && y in lists1[k] ensures OnlyOn(lists1, k, y) {
      assert y != n ==> OnlyOn(lists, k, y);
    }
  }

  lemma OneListFrame(v: View, v1: View, head: int, bytes: int, s: seq<int>)
    requires OneListOk(v, head, bytes, s)
    requires forall x | x in s :: x in v && x in v1 && v1[x] == v[x]
    ensures OneListOk(v1, head, bytes, s)
  {
    ListFrame(v, v1, head, s);
    SumSzSame(v, v1, s);
  }

  /** The header for n after it has taken its share of the bytes of h. */
  function RestHdr(hhdr: Hdr, h: int, n: int, junk: Hdr): Hdr {
    junk.(sz := hhdr.sz - (n - h) * HBLKSIZE, flags := 0, free := false)
  }

  /** As ListsReplace, for a header that is installed before it is linked in. */
  lemma StandInLists(v: View, fl: seq<int>, fb: seq<int>, lists: seq<seq<int>>, i: int, j: nat, n: int, junk: Hdr)
    requires ListsOk(v, fl, fb, lists) && 0 <= i < N_LISTS && j < |lists[i]| && n !in v && n != 0
    ensures IsHead(v, lists[i][j]) && Unlinkable(v[n := Header(junk)], lists[i][j])
    ensures var h, v0 := lists[i][j], v[n := Header(junk)];
      var nhdr := RestHdr(v0[h].hdr, h, n, junk);
      var v1, lists1 := Replace(v0, h, n, nhdr), lists[i := lists[i][j := n]];
      && ListsOk(v1, if v0[h].hdr.prev == 0 then fl[i := n] else fl, fb[i := fb[i] - (n - h) * HBLKSIZE], lists1) == true
      && StoodIn(v, lists, h, n, i, nhdr, v1, lists1) == true
      && IsHead(v1, h) && IsHead(v1, n) && UnlistedIn(lists1, h)
  {
    assert OneListOk(v, fl[i], fb[i], lists[i]);
    var h := lists[i][j];
    var nhdr := RestHdr(v[h].hdr, h, n, junk);
    ListsReplace(v, fl, fb, lists, i, j, n, nhdr);
    assert v[n := Header(junk)][n := Header(nhdr.(prev := v[h].hdr.prev, next := v[h].hdr.next))]
        == v[n := Header(nhdr.(prev := v[h].hdr.prev, next := v[h].hdr.next))];
  }

  /** Fields of listed headers other than size and links do not matter to the lists. */
  lemma ListsSameLinks(v: View, v1: View, fl: seq<int>, fb: seq<int>, lists: seq<seq<int>>, x: int, hdr: Hdr)
    requires ListsOk(v, fl, fb, lists) && IsHead(v, x) && v1 == v[x := Header(hdr)]
    requires hdr.sz == v[x].hdr.sz && hdr.prev == v[x].hdr.prev && hdr.next == v[x].hdr.next
    ensures ListsOk(v1, fl, fb, lists)
  {
    forall i | 0 <= i < N_LISTS ensures OneListOk(v1, fl[i], fb[i], lists[i]) {
      assert OneListOk(v, fl[i], fb[i], lists[i]);
      forall k {:trigger NodeOk(v1, lists[i], k)} | 0 <= k < |lists[i]| ensures NodeOk(v1, lists[i], k) {
        assert NodeOk(v, lists[i], k);
      }
      SumSzSame(v, v1, lists[i]);
    }
  }

  /** Block h is cut at n; n stands for h on list i and h is pushed on the list i2 for its new size.  Then n is
      chosen, although list i need not be the list for the size of n. */
  lemma SplitChosen(v: View, owner: map<int, int>, lists: seq<seq<int>>, h: int, n: int, nhdr: Hdr,
                    v1: View, lists1: seq<seq<int>>, i: int, i2: int)
    requires Tiled(v, owner) && FreeHead(v, h) && |lists| == N_LISTS && Placed(v, lists, {}) && NoAdjacent(v)
    requires h < n < h + Len(v[h].hdr) && nhdr.sz == v[h].hdr.sz - (n - h) * HBLKSIZE && nhdr.free
    requires SameShape(CutAt(v, h, n, nhdr), v1)
    requires 0 <= i < N_LISTS && Swapped(lists, lists1, i, h, n) && UnlistedIn(lists1, h)
    requires i2 == HblkFlFromBlocks(n - h)
    ensures var owner1 := SplitOwner(v, owner, h, n);
      && Chosen(v1, owner1, lists1[i2 := [h] + lists1[i2]], n)
      && owner1.Keys == owner.Keys && FreeSet(v1, owner1) == FreeSet(v, owner)
      && SameUsedHeads(v, v1)
  {
    var vs, lists2 := CutAt(v, h, n, nhdr), lists1[i2 := [h] + lists1[i2]];
    HeadOwnsItself(v, owner, 0, h);
    assert Extent(v, owner, h);
    InsideIsEmpty(v, owner, h, n);
    TiledSplit(v, owner, h, n, vs);
    SameShapeTiled(vs, v1, SplitOwner(v, owner, h, n), 0);
    SplitPlaced(v, lists, h, n, nhdr, v1, lists1, i, i2);
    SplitGaps(v, owner, h, n, nhdr, v1);
  }

  lemma SplitShape(v: View, h: int, n: int, nhdr: Hdr, v1: View, v2: View)
    requires FreeHead(v, h) && n !in v && h != n
    requires SameShape(v[n := Header(nhdr)], v1) && v1[h] == v[h]
    requires SameShape(MarkFree(MarkFree(Cut(v1, h, (n - h) * HBLKSIZE), h), n), v2)
    ensures SameShape(CutAt(v, h, n, nhdr.(free := true)), v2)
  {
  }

  /** n, with header nhdr, has taken the place of h on list i. */
  ghost predicate StoodIn(v: View, lists: seq<seq<int>>, h: int, n: int, i: int, nhdr: Hdr,
                          v1: View, lists1: seq<seq<int>>) {
    && |lists| == |lists1| == N_LISTS && 0 <= i < N_LISTS && n in v1 && IsHead(v, h)
    && nhdr.sz == v[h].hdr.sz - (n - h) * HBLKSIZE
    && Swapped(lists, lists1, i, h, n) && UnlistedIn(lists1, h)
    && SameShape(v[n := Header(nhdr)], v1) && v1[h] == v[h]
    && (forall b | b in v && b !in lists[i] :: v1[b] == v[b])
  }

  /** h was pushed on list i and n is marked free. */
  ghost predicate Fronted(v: View, lists: seq<seq<int>>, h: int, n: int, i: int, v1: View, lists1: seq<seq<int>>) {
    && |lists| == |lists1| == N_LISTS && 0 <= i < N_LISTS && IsHead(v, h) && IsHead(v, n)
    && v[h].hdr.sz >= 0 && i == BinOf(v[h].hdr)
    && lists1 == lists[i := [h] + lists[i]]
    && SameShape(MarkFree(MarkFree(v, h), n), v1)
    && forall b | b in v && b != h && b != n && b !in lists[i] :: v1[b] == v[b]
  }

  lemma FrontedMark(v: View, fl: seq<int>, fb: seq<int>, lists: seq<seq<int>>, h: int, n: int, i: int,
                    v1: View, lists1: seq<seq<int>>)
    requires ListsOk(v1, fl, fb, lists1) == true && |lists| == N_LISTS && 0 <= i < N_LISTS
    requires IsHead(v, h) && IsHead(v, n) && n != h && v[h].hdr.sz >= 0 && i == BinOf(v[h].hdr)
    requires lists1 == lists[i := [h] + lists[i]] && SameShape(MarkFree(v, h), v1)
    requires forall b | b in v && b != h && b !in lists[i] :: v1[b] == v[b]
    ensures IsHead(v1, n)
    ensures Fronted(v, lists, h, n, i, MarkFree(v1, n), lists1) == true
    ensures ListsOk(MarkFree(v1, n), fl, fb, lists1) == true
  {
    ListsSameLinks(v1, MarkFree(v1, n), fl, fb, lists1, n, v1[n].hdr.(free := true));
  }

  /** What the steps of GC_split_block add up to. */
  lemma SplitDone(v: View, owner: map<int, int>, lists: seq<seq<int>>, h: int, n: int, i: int, nhdr: Hdr,
                  v1: View, lists1: seq<seq<int>>, v2: View, lists2: seq<seq<int>>)
    requires FreeHead(v, h) && SoundShape(v, owner, lists) == true
    requires h < n < h + Len(v[h].hdr) && n !in v
    requires StoodIn(v, lists, h, n, i, nhdr, v1, lists1) && IsHead(v1, h)
    requires Fronted(Cut(v1, h, (n - h) * HBLKSIZE), lists1, h, n, HblkFlFromBlocks(n - h), v2, lists2)
    ensures var owner2 := SplitOwner(v, owner, h, n);
      && Chosen(v2, owner2, lists2, n) == true
      && owner2.Keys == owner.Keys && FreeSet(v2, owner2) == FreeSet(v, owner)
      && SameUsed(v, v2) && v2[n].hdr.sz == v[h].hdr.sz - (n - h) * HBLKSIZE
    ensures n in lists2[i]
  {
    var i2 := HblkFlFromBlocks(n - h);
    SplitShape(v, h, n, nhdr, v1, v2);
    SplitChosen(v, owner, lists, h, n, nhdr.(free := true), v2, lists1, i, i2);
    forall g ensures IsUsed(v2, g) == IsUsed(v, g) && (IsUsed(v, g) ==> v2[g] == v[g]) {
      if IsUsed(v, g) {
        assert g !in lists[i] && v1[g] == v[g] && g !in lists1[i2];
      }
    }
  }

  /** The slots behind the head of a free block are empty. */
  lemma InsideIsEmpty(v: View, owner: map<int, int>, h: int, n: int)
    requires Tiled(v, owner) && FreeHead(v, h) && h < n < h + Len(v[h].hdr)
    ensures n !in v
  {
    assert Extent(v, owner, h);
    assert Covers(v, owner, 0, n);
    assert n in v ==> Owned(v, owner, n);
  }

  /** Block h cut down at n, where a header stands for the rest. */
  function CutAt(v: View, h: int, n: int, nhdr: Hdr): View
    requires IsHead(v, h)
  {
    v[n := Header(nhdr)][h := Header(v[h].hdr.(sz := (n - h) * HBLKSIZE))]
  }

  /** The same blocks are in use. */
  ghost predicate SameUsedHeads(v: View, v1: View) {
    forall g :: IsUsed(v1, g) == IsUsed(v, g)
  }

  lemma SplitPlaced(v: View, lists: seq<seq<int>>, h: int, n: int, nhdr: Hdr,
                    v1: View, lists1: seq<seq<int>>, i: int, i2: int)
    requires FreeHead(v, h) && |lists| == N_LISTS && Placed(v, lists, {}) && n !in v
    requires h < n && nhdr.free && SameShape(CutAt(v, h, n, nhdr), v1)
    requires 0 <= i < N_LISTS && Swapped(lists, lists1, i, h, n) && UnlistedIn(lists1, h)
    requires i2 == HblkFlFromBlocks(n - h)
    ensures Placed(v1, lists1[i2 := [h] + lists1[i2]], {n})
  {
    var lists2 := lists1[i2 := [h] + lists1[i2]];
    assert Len(v1[h].hdr) == n - h;
    forall g | FreeHead(v1, g) && g != n ensures Len(v1[g].hdr) >= 0 && g in lists2[HblkFlFromBlocks(Len(v1[g].hdr))] {
      if g != h {
        assert FreeHead(v, g);
      }
    }
    forall k, g | 0 <= k < N_LISTS && g in lists2[k] && g != n
      ensures FreeHead(v1, g) && Len(v1[g].hdr) >= 0 && HblkFlFromBlocks(Len(v1[g].hdr)) == k
    {
      if g != h {
        assert g in lists1[k] && g in lists[k] && FreeHead(v, g);
      }
    }
  }

  lemma SplitGaps(v: View, owner: map<int, int>, h: int, n: int, nhdr: Hdr, v1: View)
    requires Tiled(v, owner) && FreeHead(v, h) && NoAdjacent(v) && n !in v
    requires h < n < h + Len(v[h].hdr) && nhdr.sz == v[h].hdr.sz - (n - h) * HBLKSIZE && nhdr.free
    requires SameShape(CutAt(v, h, n, nhdr), v1)
    ensures NoAdjacentBut(v1, n) && FreeHead(v1, n) && GapAfter(v1, n)
  {
    HeadOwnsItself(v, owner, 0, h);
    assert Extent(v, owner, h);
    assert GapAfter(v, h);
    assert n + Len(v1[n].hdr) == h + Len(v[h].hdr);
    forall g {:trigger GapAfter(v1, g)} | FreeHead(v1, g) && g != n && g + Len(v1[g].hdr) != n
      ensures GapAfter(v1, g)
    {
      assert Len(v1[h].hdr) == n - h;
      assert g != h && FreeHead(v, g) && GapAfter(v, g);
    }
  }

  // ------------------------------------------------------------------------- dropping a block

  /** The free block h is turned into used blocks of one block each. */
  ghost predicate Dropped(v: View, h: int, v1: View) {
    && FreeHead(v, h)
    && v1.Keys == v.Keys + Interval(h, h + Len(v[h].hdr))
    && (forall b | b in v && b !in Interval(h, h + Len(v[h].hdr)) :: v1[b] == v[b])
    && (forall b | h <= b < h + Len(v[h].hdr) :: IsUsed(v1, b) && v1[b].hdr.sz == HBLKSIZE)
  }

  ghost function DroppedOwner(v: View, owner: map<int, int>, h: int): map<int, int>
    requires FreeHead(v, h)
  {
    map k | k in owner :: if h <= k < h + Len(v[h].hdr) then k else owner[k]
  }

  lemma DroppedCovers(v: View, owner: map<int, int>, h: int, v1: View, b: int)
    requires Tiled(v, owner) && Dropped(v, h, v1) && b in owner
    ensures Covers(v1, DroppedOwner(v, owner, h), 0, b)
    ensures FreeAt(v1, DroppedOwner(v, owner, h), b) <==> FreeAt(v, owner, b) && b !in Interval(h, h + Len(v[h].hdr))
    ensures h <= b < h + Len(v[h].hdr) ==> FreeAt(v, owner, b)
  {
    assert Covers(v, owner, 0, b);
    assert Extent(v, owner, h) && Extent(v, owner, owner[b]);
    HeadOwnsItself(v, owner, 0, owner[b]);
    HeadOwnsItself(v, owner, 0, h);
  }

  lemma DroppedExtent(v: View, owner: map<int, int>, h: int, v1: View, g: int)
    requires Tiled(v, owner) && Dropped(v, h, v1) && IsHead(v1, g)
    ensures Extent(v1, DroppedOwner(v, owner, h), g)
  {
    assert Extent(v, owner, h);
    if !(h <= g < h + Len(v[h].hdr)) {
      assert IsHead(v, g) && Extent(v, owner, g);
      HeadOwnsItself(v, owner, 0, h);
      HeadOwnsItself(v, owner, 0, g);
      assert forall k | g <= k < g + Len(v[g].hdr) :: owner[k] == g;
    }
  }

  lemma TiledDrop(v: View, owner: map<int, int>, h: int, v1: View)
    requires Tiled(v, owner) && Dropped(v, h, v1)
    ensures var owner1 := DroppedOwner(v, owner, h);
      && Tiled(v1, owner1) == true && owner1.Keys == owner.Keys
      && FreeSet(v1, owner1) == FreeSet(v, owner) - Interval(h, h + Len(v[h].hdr))
      && Interval(h, h + Len(v[h].hdr)) <= FreeSet(v, owner)
  {
    var owner1 := DroppedOwner(v, owner, h);
    forall b {:trigger Covers(v1, owner1, 0, b)} | b in owner1 ensures Covers(v1, owner1, 0, b) {
      DroppedCovers(v, owner, h, v1, b);
    }
    forall g {:trigger Extent(v1, owner1, g)} | IsHead(v1, g) ensures Extent(v1, owner1, g) {
      DroppedExtent(v, owner, h, v1, g);
    }
    forall b {:trigger Owned(v1, owner1, b)} | b in v1 ensures Owned(v1, owner1, b) {
      assert b in v ==> Owned(v, owner, b);
      assert h <= b < h + Len(v[h].hdr) ==> b in owner by { assert Extent(v, owner, h); }
    }
    DroppedFreeSet(v, owner, h, v1);
  }

  lemma DroppedFreeSet(v: View, owner: map<int, int>, h: int, v1: View)
    requires Tiled(v, owner) && Dropped(v, h, v1)
    ensures FreeSet(v1, DroppedOwner(v, owner, h)) == FreeSet(v, owner) - Interval(h, h + Len(v[h].hdr))
    ensures Interval(h, h + Len(v[h].hdr)) <= FreeSet(v, owner)
  {
    var owner1 := DroppedOwner(v, owner, h);
    assert Extent(v, owner, h);
    forall b {:trigger FreeAt(v1, owner1, b)} | b in owner1
      ensures FreeAt(v1, owner1, b) <==> FreeAt(v, owner, b) && b !in Interval(h, h + Len(v[h].hdr))
      ensures h <= b < h + Len(v[h].hdr) ==> FreeAt(v, owner, b)
    {
      DroppedCovers(v, owner, h, v1, b);
    }
    FreeSetFrom(v, owner, v1, owner1, Interval(h, h + Len(v[h].hdr)), {});
  }

  /** Free heads other than h lie outside the dropped block, and used heads too. */
  lemma OutsideDropped(v: View, owner: map<int, int>, h: int, g: int)
    requires Tiled(v, owner) && FreeHead(v, h) && IsHead(v, g) && g != h
    ensures g !in Interval(h, h + Len(v[h].hdr))
  {
    HeadOwnsItself(v, owner, 0, g);
    assert Extent(v, owner, h);
  }

  /** The slots from h up to k hold headers of dropped one-block objects; all others are as in v. */
  ghost predicate DroppedTo(v: View, h: int, k: int, v1: View) {
    forall b {:trigger DroppedSlot(v, h, k, v1, b)} :: DroppedSlot(v, h, k, v1, b)
  }

  predicate DroppedSlot(v: View, h: int, k: int, v1: View, b: int) {
    if h <= b < k then DroppedHead(v1, b) else (b in v1 <==> b in v) && (b in v ==> v1[b] == v[b])
  }

  predicate DroppedHead(v: View, b: int) {
    IsUsed(v, b) && v[b].hdr.sz == HBLKSIZE && v[b].hdr.kind == PTRFREE && v[b].hdr.flags == 0
  }

  /** From v to v1 the blocks of d, all free before, became used one-block pointer-free objects; the other used
      blocks kept their headers and the other free blocks their sizes. */
  ghost predicate Dropping(v: View, d: set<int>, v1: View) {
    && (forall g :: FreeHead(v1, g) <==> FreeHead(v, g) && g !in d)
    && (forall g :: FreeHead(v1, g) ==> v1[g].hdr.sz == v[g].hdr.sz)
    && (forall g :: IsUsed(v1, g) <==> IsUsed(v, g) || g in d)
    && (forall g :: IsUsed(v, g) ==> g !in d && v1[g] == v[g])
    && (forall g | g in d :: DroppedHead(v1, g))
  }

  lemma DropShape(v: View, owner: map<int, int>, h: int, v1: View)
    requires Tiled(v, owner) && FreeHead(v, h) && DroppedTo(v, h, h + Len(v[h].hdr), v1)
    ensures Dropped(v, h, v1) == true && Dropping(v, Interval(h, h + Len(v[h].hdr)), v1) == true
  {
    DropShapeDropped(v, owner, h, v1);
    var e := h + Len(v[h].hdr);
    HeadOwnsItself(v, owner, 0, h);
    forall g | IsHead(v, g) && g != h ensures g !in Interval(h, e) && g in v1 && v1[g] == v[g] {
      OutsideDropped(v, owner, h, g);
      assert DroppedSlot(v, h, e, v1, g);
    }
    forall g ensures g in v1 <==> g in v || h <= g < e {
      assert DroppedSlot(v, h, e, v1, g);
    }
    forall g ensures FreeHead(v1, g) <==> FreeHead(v, g) && !(h <= g < e) {
      assert DroppedSlot(v, h, e, v1, g);
    }
    forall g ensures IsUsed(v1, g) <==> IsUsed(v, g) || h <= g < e {
      assert DroppedSlot(v, h, e, v1, g);
    }
    forall g | h <= g < e ensures DroppedHead(v1, g) && IsUsed(v1, g) && v1[g].hdr.sz == HBLKSIZE {
      assert DroppedSlot(v, h, e, v1, g);
    }
  }

  lemma DropShapeDropped(v: View, owner: map<int, int>, h: int, v1: View)
    requires Tiled(v, owner) && FreeHead(v, h) && DroppedTo(v, h, h + Len(v[h].hdr), v1)
    ensures Dropped(v, h, v1) == true
  {
    var e := h + Len(v[h].hdr);
    forall g ensures g in v1 <==> g in v || h <= g < e {
      assert DroppedSlot(v, h, e, v1, g);
    }
    forall b | b in v && b !in Interval(h, e) ensures v1[b] == v[b] {
      assert DroppedSlot(v, h, e, v1, b);
    }
    forall g | h <= g < e ensures IsUsed(v1, g) && v1[g].hdr.sz == HBLKSIZE {
      assert DroppedSlot(v, h, e, v1, g);
    }
    assert v1.Keys == v.Keys + Interval(h, e);
  }

  lemma DroppedToStep(v: View, h: int, k: int, v1: View, hdr: Hdr)
    requires DroppedTo(v, h, k, v1) && h <= k
    requires hdr.sz == HBLKSIZE && hdr.kind == PTRFREE && hdr.flags == 0 && !hdr.free
    ensures DroppedTo(v, h, k + 1, v1[k := Header(hdr)]) == true
  {
    var v2 := v1[k := Header(hdr)];
    forall b {:trigger DroppedSlot(v, h, k + 1, v2, b)} ensures DroppedSlot(v, h, k + 1, v2, b) {
      assert DroppedSlot(v, h, k, v1, b);
    }
  }

  lemma DroppingAfterRelink(v: View, v1: View, d: set<int>, v2: View)
    requires SameShape(v, v1) && SameUsed(v, v1) && Dropping(v1, d, v2)
    ensures Dropping(v, d, v2)
  {
    forall g ensures FreeHead(v1, g) == FreeHead(v, g) {
    }
  }

  lemma DroppingTrans(v: View, d: set<int>, v1: View, d1: set<int>, v2: View)
    requires Dropping(v, d, v1) == true && Dropping(v1, d1, v2) == true
    ensures Dropping(v, d + d1, v2) == true
  {
    forall g | g in d ensures DroppedHead(v2, g) {
      assert DroppedHead(v1, g);
    }
  }

  /** No free block starts behind h before limit. */
  ghost predicate Alone(v: View, h: int, limit: int) {
    forall g | FreeHead(v, g) && h < g :: g >= limit
  }

  lemma OneFreeHead(v: View, owner: map<int, int>, h: int)
    requires Tiled(v, owner) && FreeHead(v, h)
    ensures Alone(v, h, h + Len(v[h].hdr)) == true
  {
    forall g | FreeHead(v, g) && h < g ensures g >= h + Len(v[h].hdr) {
      OutsideDropped(v, owner, h, g);
    }
  }

  /** What is listed is free and has a whole number of blocks. */
  lemma ListedFree(v: View, owner: map<int, int>, fl: seq<int>, fb: seq<int>, lists: seq<seq<int>>, h: int, i: int)
    requires Sound(v, owner, fl, fb, lists, 0) && 0 <= i < N_LISTS && h in lists[i]
    ensures FreeHead(v, h) && v[h].hdr.sz == HBLKSIZE * Len(v[h].hdr) && Len(v[h].hdr) > 0 && h > 0
  {
    assert FreeHead(v, h);
    HeadOwnsItself(v, owner, 0, h);
    assert Extent(v, owner, h);
  }

  lemma SoundRelink(v: View, owner: map<int, int>, lists: seq<seq<int>>, h: int, i: int, v1: View)
    requires SoundShape(v, owner, lists) && SameShape(v, v1) && 0 <= i < N_LISTS && h in lists[i]
    requires forall b | b in v && b !in lists[i] :: v1[b] == v[b]
    ensures SameUsed(v, v1) == true && FreeHead(v, h) && v[h].hdr.sz == HBLKSIZE * Len(v[h].hdr) && Len(v[h].hdr) > 0
  {
    assert FreeHead(v, h);
    HeadOwnsItself(v, owner, 0, h);
    assert Extent(v, owner, h);
  }

  /** The listed free block h was unlinked (giving v1, lists1) and dropped (giving v2). */
  lemma DropDone(v: View, owner: map<int, int>, lists: seq<seq<int>>, h: int, limit: int, v1: View,
                 fl1: seq<int>, fb1: seq<int>, lists1: seq<seq<int>>, v2: View)
    requires SoundShape(v, owner, lists) == true && FreeHead(v, h) && limit == h + Len(v[h].hdr)
    requires SameShape(v, v1) == true && SameUsed(v, v1) == true
    requires MinusOne(lists, lists1, h) == true && ListsOk(v1, fl1, fb1, lists1) == true
    requires DroppedTo(v1, h, limit, v2) == true
    ensures FreeHead(v1, h)
    ensures var owner2, d := DroppedOwner(v1, owner, h), Interval(h, limit);
      && Sound(v2, owner2, fl1, fb1, lists1, 0) == true
      && owner2.Keys == owner.Keys && FreeSet(v2, owner2) == FreeSet(v, owner) - d
      && d <= FreeSet(v, owner) && |FreeSet(v2, owner2)| == |FreeSet(v, owner)| - (limit - h)
      && Dropping(v, d, v2) == true
  {
    DropTiles(v, owner, h, limit, v1, v2);
    DropLists(v, owner, lists, h, limit, v1, fl1, fb1, lists1, v2);
    DropGaps(v, Interval(h, limit), v2);
    SoundFrom(v2, DroppedOwner(v1, owner, h), fl1, fb1, lists1, 0);
  }

  lemma DropTiles(v: View, owner: map<int, int>, h: int, limit: int, v1: View, v2: View)
    requires Tiled(v, owner) == true && FreeHead(v, h) && limit == h + Len(v[h].hdr)
    requires SameShape(v, v1) == true && SameUsed(v, v1) == true && DroppedTo(v1, h, limit, v2) == true
    ensures FreeHead(v1, h) && Len(v1[h].hdr) == Len(v[h].hdr) && Tiled(v1, owner)
    ensures var owner2, d := DroppedOwner(v1, owner, h), Interval(h, limit);
      && Tiled(v2, owner2) == true
      && owner2.Keys == owner.Keys && FreeSet(v2, owner2) == FreeSet(v, owner) - d
      && d <= FreeSet(v, owner) && |FreeSet(v2, owner2)| == |FreeSet(v, owner)| - (limit - h)
      && Dropping(v, d, v2) == true
  {
    SameShapeTiled(v, v1, owner, 0);
    DropShape(v1, owner, h, v2);
    TiledDrop(v1, owner, h, v2);
    HeadOwnsItself(v, owner, 0, h);
    SetMinus(FreeSet(v, owner), Interval(h, limit));
    DroppingAfterRelink(v, v1, Interval(h, limit), v2);
  }

  lemma DropLists(v: View, owner: map<int, int>, lists: seq<seq<int>>, h: int, limit: int, v1: View,
                  fl1: seq<int>, fb1: seq<int>, lists1: seq<seq<int>>, v2: View)
    requires |lists| == N_LISTS && Placed(v, lists, {}) == true && FreeHead(v, h) && limit == h + Len(v[h].hdr)
    requires SameShape(v, v1) == true
    requires MinusOne(lists, lists1, h) == true && ListsOk(v1, fl1, fb1, lists1) == true
    requires Tiled(v1, owner) == true && DroppedTo(v1, h, limit, v2) == true
    requires Dropping(v, Interval(h, limit), v2) == true
    ensures ListsOk(v2, fl1, fb1, lists1) == true && Placed(v2, lists1, {}) == true
  {
    forall i, x | 0 <= i < N_LISTS && x in lists1[i] ensures x in v1 && x in v2 && v2[x] == v1[x] {
      assert x in lists[i] && FreeHead(v, x);
      OutsideDropped(v1, owner, h, x);
      assert DroppedSlot(v1, h, limit, v2, x);
    }
    ListsFrame(v1, v2, fl1, fb1, lists1);
    DropPlaced(v, lists, h, lists1, Interval(h, limit), v2) by {
      HeadOwnsItself(v1, owner, 0, h);
      forall x | FreeHead(v, x) && x != h ensures x !in Interval(h, limit) {
        OutsideDropped(v1, owner, h, x);
      }
    }
  }

  lemma DropPlaced(v: View, lists: seq<seq<int>>, h: int, lists1: seq<seq<int>>, d: set<int>, v2: View)
    requires |lists| == N_LISTS && Placed(v, lists, {}) && h in d && MinusOne(lists, lists1, h)
    requires Dropping(v, d, v2) && forall x | FreeHead(v, x) && x != h :: x !in d
    ensures Placed(v2, lists1, {})
  {
    forall i, x | 0 <= i < N_LISTS && x in lists1[i]
      ensures FreeHead(v2, x) && Len(v2[x].hdr) >= 0 && HblkFlFromBlocks(Len(v2[x].hdr)) == i
    {
      assert x in lists[i] && FreeHead(v, x);
    }
    forall x | FreeHead(v2, x) ensures Len(v2[x].hdr) >= 0 && x in lists1[HblkFlFromBlocks(Len(v2[x].hdr))] {
      assert FreeHead(v, x) && x != h;
    }
  }

  lemma DropGaps(v: View, d: set<int>, v2: View)
    requires NoAdjacent(v) == true && Dropping(v, d, v2) == true
    ensures NoAdjacent(v2) == true
  {
    forall g {:trigger GapAfter(v2, g)} | FreeHead(v2, g) ensures GapAfter(v2, g) {
      assert FreeHead(v, g) && GapAfter(v, g);
    }
  }

  /** lists1 lists the blocks of lists that are not in d. */
  ghost predicate ListsMinus(lists: seq<seq<int>>, lists1: seq<seq<int>>, d: set<int>) {
    |lists1| == |lists| &&
    forall k, y | 0 <= k < |lists| :: y in lists1[k] <==> y in lists[k] && y !in d
  }

  lemma DropListsMinus(lists: seq<seq<int>>, h: int, d: set<int>, v: View, v2: View,
                       lists1: seq<seq<int>>)
    requires |lists| == N_LISTS && MinusOne(lists, lists1, h) == true && h in d && Dropping(v, d, v2) == true
    requires Placed(v2, lists1, {}) == true
    ensures ListsMinus(lists, lists1, d) == true
  {
    forall k, y | 0 <= k < N_LISTS && y in lists1[k] ensures y !in d {
      assert FreeHead(v2, y);
    }
  }

  lemma ListsMinusTrans(lists: seq<seq<int>>, d: set<int>, lists1: seq<seq<int>>, d1: set<int>,
                        lists2: seq<seq<int>>)
    requires ListsMinus(lists, lists1, d) == true && ListsMinus(lists1, lists2, d1) == true
    ensures ListsMinus(lists, lists2, d + d1) == true
  {
  }

  /** From v0, lists0, free0 to v, lists, free nothing happened but that the free blocks of dropped were dropped. */
  ghost predicate DroppedSoFar(v0: View, lists0: seq<seq<int>>, free0: set<int>, dropped: set<int>,
                               v: View, lists: seq<seq<int>>, free: set<int>) {
    Dropping(v0, dropped, v) && ListsMinus(lists0, lists, dropped) && Taken(free0, dropped, free)
  }

  lemma TakenFromOwner(owner: map<int, int>, p: int, end: int)
    requires owner.Keys !! Interval(p, end)
    ensures Taken(AddedOwner(owner, p, end).Keys, Interval(p, end), owner.Keys) == true
  {
    TakenIs(AddedOwner(owner, p, end).Keys, Interval(p, end), owner.Keys);
  }

  lemma NoneTaken(s: set<int>, p: int, end: int)
    requires p >= end
    ensures Taken(s, Interval(p, end), s) == true
  {
    TakenIs(s, Interval(p, end), s);
    assert Interval(p, end) == {};
  }

  lemma NothingDropped(v: View, lists: seq<seq<int>>, free: set<int>)
    ensures DroppedSoFar(v, lists, free, {}, v, lists, free) == true
  {
    TakenIs(free, {}, free);
    assert free == free - {};
  }

  lemma NoteDrop(v0: View, lists0: seq<seq<int>>, free0: set<int>, dropped: set<int>,
                 v: View, lists: seq<seq<int>>, free: set<int>, h: int, limit: int,
                 v2: View, lists2: seq<seq<int>>, free2: set<int>)
      returns (dropped1: set<int>)
    requires DroppedSoFar(v0, lists0, free0, dropped, v, lists, free) == true
    requires |lists| == N_LISTS && MinusOne(lists, lists2, h) == true && h < limit
    requires Dropping(v, Interval(h, limit), v2) == true && Placed(v2, lists2, {}) == true
    requires free2 == free - Interval(h, limit) && Interval(h, limit) <= free
    ensures DroppedSoFar(v0, lists0, free0, dropped1, v2, lists2, free2) == true
    ensures Taken(dropped1, Interval(h, limit), dropped) == true && |dropped1| == |dropped| + (limit - h)
  {
    dropped1 := dropped + Interval(h, limit);
    DroppingTrans(v0, dropped, v, Interval(h, limit), v2);
    DropListsMinus(lists, h, Interval(h, limit), v, v2, lists2);
    ListsMinusTrans(lists0, dropped, lists, Interval(h, limit), lists2);
    TakenIs(free0, dropped, free);
    NoteDropSets(free0, dropped, free, Interval(h, limit), free2);
    TakenIs(free0, dropped1, free2);
    TakenIs(dropped1, Interval(h, limit), dropped);
  }

  lemma NoteDropSets(free0: set<int>, dropped: set<int>, free: set<int>, d: set<int>, free2: set<int>)
    requires free == free0 - dropped && dropped <= free0 && free2 == free - d && d <= free
    ensures free2 == free0 - (dropped + d) && dropped + d <= free0
    ensures |dropped + d| == |dropped| + |d|
  {
    assert dropped !! d;
  }

  /** The run from r on of n blocks was handed out with the header hdr, after the blocks of dropped were dropped:
      all other used blocks kept their headers. */
  ghost predicate Served(v0: View, free0: set<int>, dropped: set<int>, r: int, n: int, v: View, free: set<int>) {
    && dropped <= free0
    && Interval(r, r + n) <= free0 - dropped
    && free == free0 - dropped - Interval(r, r + n)
    && !IsUsed(v0, r) && r !in dropped
    && (forall g :: IsUsed(v, g) <==> IsUsed(v0, g) || g in dropped || g == r)
    && (forall g | IsUsed(v0, g) :: v[g] == v0[g])
    && (forall g | g in dropped :: DroppedHead(v, g))
  }

  lemma ServedAfterDrops(v0: View, lists0: seq<seq<int>>, free0: set<int>, dropped: set<int>, v1: View,
                         lists1: seq<seq<int>>, free1: set<int>, r: int, n: int, v2: View, free2: set<int>)
    requires DroppedSoFar(v0, lists0, free0, dropped, v1, lists1, free1) == true
    requires Granted(v1, v2, r) == true && n > 0
    requires free2 == free1 - Interval(r, r + n) && Interval(r, r + n) <= free1
    ensures Served(v0, free0, dropped, r, n, v2, free2) == true
  {
    TakenIs(free0, dropped, free1);
    ServedUsed(v0, dropped, v1, r, v2);
    assert r in Interval(r, r + n);
  }

  lemma ServedUsed(v0: View, dropped: set<int>, v1: View, r: int, v2: View)
    requires Dropping(v0, dropped, v1) && Granted(v1, v2, r)
    ensures forall g :: IsUsed(v2, g) <==> IsUsed(v0, g) || g in dropped || g == r
    ensures forall g | IsUsed(v0, g) :: v2[g] == v0[g]
    ensures forall g | g in dropped :: DroppedHead(v2, g)
    ensures !IsUsed(v0, r)
  {
    forall g | g in dropped ensures DroppedHead(v2, g) {
      assert DroppedHead(v1, g);
    }
  }

  /** A block that is listed after some drops was listed before, and had the same size. */
  lemma FoundWasThere(v0: View, lists0: seq<seq<int>>, free0: set<int>, dropped: set<int>, v: View,
                      lists: seq<seq<int>>, free: set<int>, n: int, h: int)
    requires DroppedSoFar(v0, lists0, free0, dropped, v, lists, free) == true
    requires 0 <= n < |lists0| && h in lists[n] && FreeHead(v, h)
    ensures h in lists0[n] && FreeHead(v0, h) && v[h].hdr.sz == v0[h].hdr.sz
  {
  }
}
